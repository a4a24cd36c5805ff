/** The showcase media popup (`#media-popup`). One element serves two
    modes: the flat gallery built by `initMediaPopup` over the scraped list,
    and the per-project album opened by `openProjectMediaPopup`, which keeps
    its position in the element's `data-current-project` and
    `data-current-media-index` attributes. */
module MediaPopup {
  import opened Optional
  import opened Cyclic
  import opened Media
  import opened Scrape

  /** A showcase project of the static data list; only its title and media
      take part in navigation. */
  datatype Project = Project(title: string, media: seq<MediaItem>)

  /** The popup's state: the scraped list and the `isOpen` and
      `currentMediaIndex` variables of `initMediaPopup`, then the element's
      inline display, its two data attributes (parsed), its rotation timer
      handle and what it shows. The page body's scrolling, which both popups
      write, is kept by the enclosing `Page`. */
  datatype MediaPopup = MediaPopup(
    items: seq<Scraped>,
    isOpen: bool,
    current: int,
    display: Display,
    project: Option<int>,
    projectMedia: Option<int>,
    timer: Timer,
    stage: Stage)

  /** The state invariant every reachable state keeps, relative to the
      showcase data (`None` when the page defines no `showcaseProjects`):
      the flat index is in bounds whenever there is something to show, the
      two data attributes are set and deleted together, and a stored
      project and media index name an existing project and one of its media. */
  predicate Wf(st: MediaPopup, catalog: Option<seq<Project>>) {
    && (|st.items| > 0 ==> 0 <= st.current < |st.items|)
    && (st.project.Some? <==> st.projectMedia.Some?)
    && (st.project.Some? ==>
          && catalog.Some?
          && 0 <= st.project.value < |catalog.value|
          && 0 <= st.projectMedia.value < |catalog.value[st.project.value].media|)
  }

  /** The state right after `initMediaPopup` has scraped the page: `items`
      is the scraped list `Collect(doc)` of the page's showcase markup, as
      `Page.Load` builds it. */
  function Init(items: seq<Scraped>): (r: MediaPopup)
    ensures !r.isOpen && r.items == items && r.project.None?
    ensures forall catalog :: Wf(r, catalog)
  {
    MediaPopup(items, false, 0, Unstyled, None, None, NoTimer, Blank)
  }

  /** `displayMedia`: no-op on an empty list; otherwise wraps the index into
      the list, stores it, and shows that entry with its alt text as both
      the image's alt and the caption. Nothing else changes. */
  function DisplayMedia(st: MediaPopup, index: int): (r: MediaPopup)
    ensures |st.items| == 0 ==> r == st
    ensures |st.items| > 0 ==>
      && r.current == Wrap(index, |st.items|)
      && Shows(r.stage, st.items[r.current].media)
      && r.stage.caption == st.items[r.current].media.alt
    ensures r == st.(current := r.current, stage := r.stage)
  {
    if |st.items| == 0 then st
    else
      var i := Wrap(index, |st.items|);
      var m := st.items[i].media;
      st.(current := i, stage := Render(st.stage, m, m.alt).(caption := m.alt))
  }

  /** `openPopup` (a click on a scraped gallery element): nothing at all
      happens when the list is empty; otherwise the popup becomes open and
      visible and the clicked entry is shown.
      The project attributes are not touched. */
  function OpenPopup(st: MediaPopup, index: int): (r: MediaPopup)
    ensures |st.items| == 0 ==> r == st
    ensures |st.items| > 0 ==>
      && r.isOpen && r.display == Flex
      && 0 <= r.current < |st.items|
      && (0 <= index < |st.items| ==> r.current == index)
      && Shows(r.stage, st.items[r.current].media)
    ensures r.items == st.items && r.project == st.project && r.projectMedia == st.projectMedia
    ensures r.timer == st.timer
    ensures forall catalog :: Wf(st, catalog) ==> Wf(r, catalog)
  {
    if |st.items| == 0 then st
    else DisplayMedia(st.(current := index, isOpen := true), index).(display := Flex)
  }

  /** `closePopup` (close button, overlay click, Escape): whatever the prior
      state, the popup is closed and hidden, both
      project attributes are deleted and the timer handle is nulled. The
      flat index and the stage are kept. */
  function ClosePopup(st: MediaPopup): (r: MediaPopup)
    ensures !r.isOpen && r.display == Hidden
    ensures r.project.None? && r.projectMedia.None? && r.timer == NoTimer
    ensures r.items == st.items && r.current == st.current && r.stage == st.stage
    ensures forall catalog :: Wf(st, catalog) ==> Wf(r, catalog)
  {
    st.(isOpen := false, display := Hidden,
        project := None, projectMedia := None, timer := NoTimer)
  }

  /** `displayProjectMedia`: no-op for a project without media; otherwise
      wraps the index into that project's media, shows that record and
      stores the wrapped index in `data-current-media-index`. The caption
      and everything else are kept. */
  function DisplayProjectMedia(st: MediaPopup, p: Project, index: int): (r: MediaPopup)
    ensures |p.media| == 0 ==> r == st
    ensures |p.media| > 0 ==>
      && r.projectMedia == Some(Wrap(index, |p.media|))
      && Shows(r.stage, p.media[Wrap(index, |p.media|)])
    ensures r.stage.caption == st.stage.caption
    ensures r == st.(projectMedia := r.projectMedia, stage := r.stage)
  {
    if |p.media| == 0 then st
    else
      var i := Wrap(index, |p.media|);
      st.(projectMedia := Some(i), stage := Render(st.stage, p.media[i], p.media[i].alt))
  }

  /** `openProjectMediaPopup` (a project card's "open album" button): no-op
      for a project without media; otherwise clears (without nulling) the
      rotation timer, captions the popup with the project's title, shows
      its first media, makes the popup visible and stores the project and
      media index 0. It never sets `isOpen`. */
  function OpenProjectMediaPopup(st: MediaPopup, catalog: seq<Project>, pi: int): (r: MediaPopup)
    requires 0 <= pi < |catalog|
    ensures |catalog[pi].media| == 0 ==> r == st
    ensures |catalog[pi].media| > 0 ==>
      && r.project == Some(pi) && r.projectMedia == Some(0)
      && r.display == Flex
      && Shows(r.stage, catalog[pi].media[0])
      && r.stage.caption == catalog[pi].title
      && r.timer != Running
    ensures r.isOpen == st.isOpen && r.items == st.items && r.current == st.current
    ensures Wf(st, Some(catalog)) ==> Wf(r, Some(catalog))
  {
    var p := catalog[pi];
    if |p.media| == 0 then st
    else
      var stopped := st.(timer := if st.timer == Running then Cleared else st.timer,
                         stage := st.stage.(caption := p.title));
      var shown := DisplayProjectMedia(stopped, p, 0);
      shown.(display := Flex, project := Some(pi), projectMedia := Some(0))
  }

  /** Is the popup in project mode? Both the data attribute and the
      `showcaseProjects` global must exist. */
  predicate InProjectMode(st: MediaPopup, catalog: Option<seq<Project>>) {
    st.project.Some? && catalog.Some?
  }

  /** `nextMedia` (next button, ArrowRight): in project mode, one step
      forward within the stored project's media, wrapping at its end and
      never leaving the project; otherwise one step forward in the flat
      list. `isOpen` is not consulted and not changed. */
  function NextMedia(st: MediaPopup, catalog: Option<seq<Project>>): (r: MediaPopup)
    requires Wf(st, catalog)
    ensures Wf(r, catalog)
    ensures r.isOpen == st.isOpen && r.project == st.project && r.items == st.items
    ensures r.display == st.display && r.timer == st.timer
    ensures st.project.Some? ==>
      var media := catalog.value[st.project.value].media;
      && r.current == st.current
      && r.projectMedia == Some(Succ(st.projectMedia.value, |media|))
      && Shows(r.stage, media[r.projectMedia.value])
    ensures st.project.None? && |st.items| > 0 ==>
      && r.current == Succ(st.current, |st.items|)
      && Shows(r.stage, st.items[r.current].media)
  {
    if InProjectMode(st, catalog) then
      DisplayProjectMedia(st, catalog.value[st.project.value], st.projectMedia.GetOr(0) + 1)
    else
      DisplayMedia(st, st.current + 1)
  }

  /** `prevMedia` (previous button, ArrowLeft): the mirror image of
      `NextMedia`. */
  function PrevMedia(st: MediaPopup, catalog: Option<seq<Project>>): (r: MediaPopup)
    requires Wf(st, catalog)
    ensures Wf(r, catalog)
    ensures r.isOpen == st.isOpen && r.project == st.project && r.items == st.items
    ensures r.display == st.display && r.timer == st.timer
    ensures st.project.Some? ==>
      var media := catalog.value[st.project.value].media;
      && r.current == st.current
      && r.projectMedia == Some(Pred(st.projectMedia.value, |media|))
      && Shows(r.stage, media[r.projectMedia.value])
    ensures st.project.None? && |st.items| > 0 ==>
      && r.current == Pred(st.current, |st.items|)
      && Shows(r.stage, st.items[r.current].media)
  {
    if InProjectMode(st, catalog) then
      DisplayProjectMedia(st, catalog.value[st.project.value], st.projectMedia.GetOr(0) - 1)
    else
      DisplayMedia(st, st.current - 1)
  }

  /** The page-wide keydown listener: it does nothing unless `isOpen`;
      then Escape closes and the arrow keys step. */
  function OnKeydown(st: MediaPopup, key: Key, catalog: Option<seq<Project>>): (r: MediaPopup)
    requires Wf(st, catalog)
    ensures !st.isOpen ==> r == st
    ensures Wf(r, catalog)
    ensures st.isOpen && key == Escape ==> !r.isOpen && r.display == Hidden
    ensures st.isOpen && key == ArrowRight ==> r == NextMedia(st, catalog)
    ensures st.isOpen && key == ArrowLeft ==> r == PrevMedia(st, catalog)
    ensures st.isOpen && key == OtherKey ==> r == st
  {
    if !st.isOpen then st
    else
      match key
      case Escape => ClosePopup(st)
      case ArrowRight => NextMedia(st, catalog)
      case ArrowLeft => PrevMedia(st, catalog)
      case OtherKey => st
  }

  /** Of the popup's operations only `openPopup` turns the keyboard on:
      from a state where it is off, every other operation leaves it off. */
  lemma OnlyOpenPopupSetsIsOpen(st: MediaPopup, catalog: seq<Project>, pi: int, index: int, key: Key)
    requires Wf(st, Some(catalog)) && !st.isOpen && 0 <= pi < |catalog|
    ensures !ClosePopup(st).isOpen
    ensures !NextMedia(st, Some(catalog)).isOpen && !PrevMedia(st, Some(catalog)).isOpen
    ensures !OpenProjectMediaPopup(st, catalog, pi).isOpen
    ensures !DisplayMedia(st, index).isOpen
    ensures !OnKeydown(st, key, Some(catalog)).isOpen
    ensures OpenPopup(st, index).isOpen <==> |st.items| > 0
  {
  }

  /** An album opened from a project card is visible but deaf to the
      keyboard: since `openProjectMediaPopup` leaves `isOpen` false, Escape
      and the arrow keys do nothing until the popup is closed by a click. */
  lemma ProjectAlbumIgnoresKeys(st: MediaPopup, catalog: seq<Project>, pi: int, key: Key)
    requires Wf(st, Some(catalog)) && !st.isOpen
    requires 0 <= pi < |catalog| && |catalog[pi].media| > 0
    ensures var album := OpenProjectMediaPopup(st, catalog, pi);
      && album.display == Flex
      && OnKeydown(album, key, Some(catalog)) == album
  {
  }

  /** `k` presses of the next button. */
  function NextMediaN(st: MediaPopup, catalog: Option<seq<Project>>, k: nat): (r: MediaPopup)
    requires Wf(st, catalog)
    ensures Wf(r, catalog)
    ensures r.isOpen == st.isOpen && r.project == st.project && r.items == st.items
    ensures st.project.Some? ==>
      var media := catalog.value[st.project.value].media;
      r.projectMedia == Some(SuccN(st.projectMedia.value, |media|, k))
    ensures st.project.None? && |st.items| > 0 ==> r.current == SuccN(st.current, |st.items|, k)
    decreases k
  {
    if k == 0 then st else NextMedia(NextMediaN(st, catalog, k - 1), catalog)
  }

  /** In project mode, pressing next once per media of the project returns
      to the media the tour started from, without leaving the project; in
      flat mode, pressing it once per scraped entry returns to the start. */
  lemma FullCycleReturns(st: MediaPopup, catalog: Option<seq<Project>>)
    requires Wf(st, catalog)
    ensures st.project.Some? ==>
      var r := NextMediaN(st, catalog, |catalog.value[st.project.value].media|);
      r.project == st.project && r.projectMedia == st.projectMedia
    ensures st.project.None? && |st.items| > 0 ==>
      NextMediaN(st, catalog, |st.items|).current == st.current
  {
    if st.project.Some? {
      SuccFullCycle(st.projectMedia.value, |catalog.value[st.project.value].media|);
    } else if |st.items| > 0 {
      SuccFullCycle(st.current, |st.items|);
    }
  }

  /** Previous undoes next and next undoes previous, in either mode. */
  lemma PrevUndoesNext(st: MediaPopup, catalog: Option<seq<Project>>)
    requires Wf(st, catalog)
    ensures var r := PrevMedia(NextMedia(st, catalog), catalog);
      r.current == st.current && r.project == st.project && r.projectMedia == st.projectMedia
    ensures var r := NextMedia(PrevMedia(st, catalog), catalog);
      r.current == st.current && r.project == st.project && r.projectMedia == st.projectMedia
  {
    if st.project.Some? {
      SuccPredInverse(st.projectMedia.value, |catalog.value[st.project.value].media|);
    } else if |st.items| > 0 {
      SuccPredInverse(st.current, |st.items|);
    }
  }
}
