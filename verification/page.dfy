/** The page as both popups share it. Each popup keeps its own element
    state, but the document body's `overflow` is one value that the
    gallery / album popup and the demo popup both write: 'hidden' when one
    of them opens, 'auto' when one of them closes. The keydown listeners
    run in the order they are registered: the media popup's first, then the
    demo popup's Escape listener, then its arrow listener. */
module Page {
  import opened Optional
  import opened Media
  import opened Scrape
  import opened DemoTour
  import MediaPopup
  import DemoPopup

  /** The two popups and whether the page body's scrolling is off. */
  datatype Page = Page(media: MediaPopup.MediaPopup, demo: DemoPopup.DemoPopup, scrollLocked: bool)

  predicate Wf(p: Page, catalog: Option<seq<MediaPopup.Project>>, demos: Option<seq<Demo>>) {
    MediaPopup.Wf(p.media, catalog) && DemoPopup.Wf(p.demo, demos)
  }

  /** The page once loaded: `initMediaPopup` has scraped the showcase
      markup into the gallery list, the demo element has whatever inline
      display the markup gives it, and nobody has written `overflow` yet. */
  function Load(doc: seq<ShowcaseNode>, demoDisplay: Display): (r: Page)
    ensures r.media.items == Collect(doc) && !r.media.isOpen && r.media.project.None?
    ensures r.demo.cursor.None? && r.demo.display == demoDisplay
    ensures !r.scrollLocked
    ensures forall catalog, demos :: Wf(r, catalog, demos)
  {
    Page(MediaPopup.Init(Collect(doc)), DemoPopup.Init(demoDisplay), false)
  }

  /** A click on a scraped gallery element: scrolling is switched off
      exactly when the gallery opens. */
  function OpenGallery(p: Page, index: int): (r: Page)
    ensures |p.media.items| == 0 ==> r == p
    ensures |p.media.items| > 0 ==> r.scrollLocked && r.media.isOpen && r.media.display == Flex
    ensures r.media == MediaPopup.OpenPopup(p.media, index) && r.demo == p.demo
  {
    if |p.media.items| == 0 then p
    else p.(media := MediaPopup.OpenPopup(p.media, index), scrollLocked := true)
  }

  /** The media popup's close button or overlay: scrolling is switched back
      on, whatever the demo popup shows. */
  function CloseGallery(p: Page): (r: Page)
    ensures !r.scrollLocked && !r.media.isOpen && r.media.display == Hidden
    ensures r.media == MediaPopup.ClosePopup(p.media) && r.demo == p.demo
  {
    p.(media := MediaPopup.ClosePopup(p.media), scrollLocked := false)
  }

  /** A project card's album button: scrolling is switched off exactly when
      the album opens, and the keyboard gate `isOpen` is left as it was. */
  function OpenAlbum(p: Page, catalog: seq<MediaPopup.Project>, pi: int): (r: Page)
    requires 0 <= pi < |catalog|
    ensures |catalog[pi].media| == 0 ==> r == p
    ensures |catalog[pi].media| > 0 ==> r.scrollLocked && r.media.display == Flex
    ensures r.media.isOpen == p.media.isOpen && r.demo == p.demo
    ensures r.media == MediaPopup.OpenProjectMediaPopup(p.media, catalog, pi)
  {
    if |catalog[pi].media| == 0 then p
    else p.(media := MediaPopup.OpenProjectMediaPopup(p.media, catalog, pi), scrollLocked := true)
  }

  /** A click on a demo card: scrolling is switched off exactly when the
      demo popup opens. */
  function OpenDemo(p: Page, ds: seq<Demo>, demoIndex: int): (r: Page)
    requires 0 <= demoIndex < |ds|
    ensures |ds[demoIndex].media| == 0 ==> r == p
    ensures |ds[demoIndex].media| > 0 ==> r.scrollLocked && r.demo.display == Flex
    ensures r.demo == DemoPopup.OpenDemoPopup(p.demo, ds, demoIndex) && r.media == p.media
  {
    if |ds[demoIndex].media| == 0 then p
    else p.(demo := DemoPopup.OpenDemoPopup(p.demo, ds, demoIndex), scrollLocked := true)
  }

  /** The demo popup's close button or overlay: scrolling is switched back
      on, whatever the media popup shows. */
  function CloseDemo(p: Page): (r: Page)
    ensures !r.scrollLocked && r.demo.display == Hidden
    ensures r.demo == DemoPopup.ClosePopup(p.demo) && r.media == p.media
  {
    p.(demo := DemoPopup.ClosePopup(p.demo), scrollLocked := false)
  }

  /** One keydown event through the three listeners. A listener that throws
      (the demo arrow listener on an empty demo list) does so before writing
      anything, and the others still run. Only Escape touches scrolling: it
      switches it back on when either popup's Escape guard passes. */
  function OnKeydown(p: Page, key: Key, catalog: Option<seq<MediaPopup.Project>>, demos: Option<seq<Demo>>): (r: Page)
    requires Wf(p, catalog, demos)
    ensures Wf(r, catalog, demos)
    ensures r.media == MediaPopup.OnKeydown(p.media, key, catalog)
    ensures DemoPopup.OnKeydown(p.demo, demos, key).Returned? ==> r.demo == DemoPopup.OnKeydown(p.demo, demos, key).st
    ensures DemoPopup.OnKeydown(p.demo, demos, key).Threw? ==> r.demo == p.demo
    ensures key != Escape ==> r.scrollLocked == p.scrollLocked
    ensures key == Escape ==> (r.scrollLocked <==> p.scrollLocked && !p.media.isOpen && p.demo.display == Hidden)
  {
    var media := MediaPopup.OnKeydown(p.media, key, catalog);
    var demo := match DemoPopup.OnKeydown(p.demo, demos, key)
      case Returned(s) => s
      case Threw => p.demo;
    var unlocked := key == Escape && (p.media.isOpen || DemoPopup.EscapeActs(p.demo));
    Page(media, demo, p.scrollLocked && !unlocked)
  }

  /** An album opened from a project card leaves `isOpen` false, so Escape
      does not close it. But unless the markup hides the demo element
      inline, the demo popup's Escape listener still passes its guard and
      writes 'auto': the album stays on screen with the page scrolling
      under it. */
  lemma EscapeUnlocksUnderAlbum(doc: seq<ShowcaseNode>, demoDisplay: Display,
                                catalog: seq<MediaPopup.Project>, pi: int, demos: Option<seq<Demo>>)
    requires demoDisplay != Hidden
    requires 0 <= pi < |catalog| && |catalog[pi].media| > 0
    ensures var album := OpenAlbum(Load(doc, demoDisplay), catalog, pi);
      var after := OnKeydown(album, Escape, Some(catalog), demos);
      && album.scrollLocked
      && after.media.display == Flex
      && !after.scrollLocked
  {
  }

  /** With the demo element hidden inline by the markup, Escape on such an
      album changes nothing at all: the album stays and scrolling stays
      off. */
  lemma HiddenDemoKeepsAlbumLocked(doc: seq<ShowcaseNode>, catalog: seq<MediaPopup.Project>, pi: int,
                                   demos: Option<seq<Demo>>, key: Key)
    requires 0 <= pi < |catalog| && |catalog[pi].media| > 0
    ensures var album := OpenAlbum(Load(doc, Hidden), catalog, pi);
      OnKeydown(album, key, Some(catalog), demos) == album
  {
  }

  /** The demo close writes display 'none', so once a demo has been opened
      and closed, Escape on an album passes neither Escape guard: the album
      stays and scrolling stays off, whatever display the markup gave the
      demo element. */
  lemma ClosedDemoKeepsAlbumLocked(doc: seq<ShowcaseNode>, demoDisplay: Display, ds: seq<Demo>, di: int,
                                   catalog: seq<MediaPopup.Project>, pi: int)
    requires 0 <= di < |ds| && |ds[di].media| > 0
    requires 0 <= pi < |catalog| && |catalog[pi].media| > 0
    ensures var album := OpenAlbum(CloseDemo(OpenDemo(Load(doc, demoDisplay), ds, di)), catalog, pi);
      var after := OnKeydown(album, Escape, Some(catalog), Some(ds));
      && album.scrollLocked
      && after.media.display == Flex
      && after.scrollLocked
  {
  }

  /** On a page whose demo element is not hidden inline, the first Escape
      closes the never-opened demo popup, which sets its display to 'none';
      from then on the arrow keys no longer move the demo cursor. */
  lemma EscapeSilencesUnopenedDemo(doc: seq<ShowcaseNode>, demoDisplay: Display,
                                   catalog: Option<seq<MediaPopup.Project>>, demos: Option<seq<Demo>>)
    requires demoDisplay != Hidden
    ensures var escaped := OnKeydown(Load(doc, demoDisplay), Escape, catalog, demos);
      var r := OnKeydown(escaped, ArrowRight, catalog, demos);
      && escaped.demo.display == Hidden
      && r.demo.cursor.None? && r.demo.display == Hidden
  {
  }

  /** With the flat gallery open, Escape closes it and switches scrolling
      back on, consistently, whatever the demo element looks like. */
  lemma EscapeClosesGallery(p: Page, catalog: Option<seq<MediaPopup.Project>>, demos: Option<seq<Demo>>)
    requires Wf(p, catalog, demos) && p.media.isOpen
    ensures var r := OnKeydown(p, Escape, catalog, demos);
      !r.media.isOpen && r.media.display == Hidden && !r.scrollLocked
  {
  }
}
