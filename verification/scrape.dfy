/** `collectMediaItems`: the flat media list the gallery popup scrapes from
    the page's showcase markup, over an abstract document tree. */
module Scrape {
  import opened Optional
  import opened Media

  /** The first `<img>` of a slide. */
  datatype ImgNode = ImgNode(src: string, alt: string)

  /** The first `<video>` of a slide; `source` is the `src` of its first
      `<source>` child, if it has one. */
  datatype VideoNode = VideoNode(source: Option<string>)

  /** One `.carousel-slide`. */
  datatype SlideNode = SlideNode(img: Option<ImgNode>, video: Option<VideoNode>)

  /** One `.showcase-item`: the text of its `.showcase-title`, if present,
      and its slides in document order. */
  datatype ShowcaseNode = ShowcaseNode(title: Option<string>, slides: seq<SlideNode>)

  /** A scraped entry: the media record and the owning project's title. */
  datatype Scraped = Scraped(media: MediaItem, projectTitle: string)

  const DefaultTitle: string := "Project"
  const VideoAlt: string := "Video"

  /** A missing title element, or one with empty text, becomes "Project". */
  function TitleText(title: Option<string>): (r: string)
    ensures r != ""
    ensures title.Some? && title.value != "" ==> r == title.value
    ensures title.None? ==> r == DefaultTitle
    ensures title.Some? && title.value == "" ==> r == DefaultTitle
  {
    if title.Some? && title.value != "" then title.value else DefaultTitle
  }

  /** What one slide contributes: its image if it has one (even when it also
      has a video), otherwise its video's first source, otherwise nothing. */
  function SlideMedia(title: string, s: SlideNode): (r: Option<Scraped>)
    ensures r.Some? <==> s.img.Some? || (s.video.Some? && s.video.value.source.Some?)
    ensures r.Some? ==> r.value.projectTitle == title
    ensures r.Some? ==> (r.value.media.kind == Image <==> s.img.Some?)
    ensures s.img.Some? ==> r.value.media.src == s.img.value.src && r.value.media.alt == s.img.value.alt
    ensures s.img.None? && r.Some? ==> r.value.media.src == s.video.value.source.value && r.value.media.alt == VideoAlt
  {
    match s.img
    case Some(img) => Some(Scraped(MediaItem(Image, img.src, img.alt), title))
    case None =>
      if s.video.Some? && s.video.value.source.Some? then
        Some(Scraped(MediaItem(Video, s.video.value.source.value, VideoAlt), title))
      else None
  }

  /** The entries of a run of slides, in order. */
  function SlidesMedia(title: string, slides: seq<SlideNode>): (r: seq<Scraped>)
    ensures |r| <= |slides|
    decreases |slides|
  {
    if |slides| == 0 then []
    else
      var last := slides[|slides| - 1];
      SlidesMedia(title, slides[..|slides| - 1]) + (match SlideMedia(title, last) case Some(x) => [x] case None => [])
  }

  function ItemMedia(item: ShowcaseNode): seq<Scraped> {
    SlidesMedia(TitleText(item.title), item.slides)
  }

  function SlideCount(doc: seq<ShowcaseNode>): nat
    decreases |doc|
  {
    if |doc| == 0 then 0 else SlideCount(doc[..|doc| - 1]) + |doc[|doc| - 1].slides|
  }

  /** The reference definition of the scraped list: every showcase item's
      entries, in document order. */
  function Collect(doc: seq<ShowcaseNode>): (r: seq<Scraped>)
    ensures |r| <= SlideCount(doc)
    decreases |doc|
  {
    if |doc| == 0 then [] else Collect(doc[..|doc| - 1]) + ItemMedia(doc[|doc| - 1])
  }

  /** `collectMediaItems` as the script writes it: a walk over the showcase
      items and, inside each, over its slides, appending as it goes. */
  method CollectMediaItems(doc: seq<ShowcaseNode>) returns (all: seq<Scraped>)
    ensures all == Collect(doc)
    ensures |all| <= SlideCount(doc)
  {
    all := [];
    var i := 0;
    while i < |doc|
      invariant 0 <= i <= |doc|
      invariant all == Collect(doc[..i])
    {
      var title := TitleText(doc[i].title);
      var slides := doc[i].slides;
      var j := 0;
      while j < |slides|
        invariant 0 <= j <= |slides|
        invariant all == Collect(doc[..i]) + SlidesMedia(title, slides[..j])
      {
        assert slides[..j + 1][..j] == slides[..j];
        match SlideMedia(title, slides[j]) {
          case Some(x) => all := all + [x];
          case None =>
        }
        j := j + 1;
      }
      assert slides[..j] == slides;
      assert doc[..i + 1][..i] == doc[..i];
      i := i + 1;
    }
    assert doc[..i] == doc;
  }

  /** Slide order is kept: the entries of two runs of slides are the
      entries of the first followed by those of the second. */
  lemma {:induction false} SlidesMediaAppend(title: string, a: seq<SlideNode>, b: seq<SlideNode>)
    ensures SlidesMedia(title, a + b) == SlidesMedia(title, a) + SlidesMedia(title, b)
    decreases |b|
  {
    if |b| > 0 {
      var b' := b[..|b| - 1];
      assert (a + b)[..|a + b| - 1] == a + b';
      assert (a + b)[|a + b| - 1] == b[|b| - 1];
      SlidesMediaAppend(title, a, b');
    } else {
      assert a + b == a;
    }
  }

  /** Document order is kept across showcase items: scraping two stretches
      of the page gives the first stretch's entries, then the second's. */
  lemma {:induction false} CollectAppend(a: seq<ShowcaseNode>, b: seq<ShowcaseNode>)
    ensures Collect(a + b) == Collect(a) + Collect(b)
    decreases |b|
  {
    if |b| > 0 {
      var b' := b[..|b| - 1];
      assert (a + b)[..|a + b| - 1] == a + b';
      assert (a + b)[|a + b| - 1] == b[|b| - 1];
      CollectAppend(a, b');
    } else {
      assert a + b == a;
    }
  }

  /** An entry is scraped from a run of slides exactly when some slide of
      the run yields it. */
  lemma {:induction false} SlidesMediaMembers(title: string, slides: seq<SlideNode>, x: Scraped)
    ensures x in SlidesMedia(title, slides) <==> exists j :: 0 <= j < |slides| && SlideMedia(title, slides[j]) == Some(x)
    decreases |slides|
  {
    if |slides| > 0 {
      var init := slides[..|slides| - 1];
      SlidesMediaMembers(title, init, x);
      if exists j :: 0 <= j < |slides| && SlideMedia(title, slides[j]) == Some(x) {
        var j :| 0 <= j < |slides| && SlideMedia(title, slides[j]) == Some(x);
        if j < |init| {
          assert init[j] == slides[j];
        }
      }
      forall j | 0 <= j < |init|
        ensures init[j] == slides[j]
      {
      }
    }
  }

  /** An entry is in the scraped list exactly when some slide of some
      showcase item yields it under that item's title. */
  lemma {:induction false} CollectMembers(doc: seq<ShowcaseNode>, x: Scraped)
    ensures x in Collect(doc) <==>
      exists i, j :: 0 <= i < |doc| && 0 <= j < |doc[i].slides| && SlideMedia(TitleText(doc[i].title), doc[i].slides[j]) == Some(x)
    decreases |doc|
  {
    if |doc| > 0 {
      var init := doc[..|doc| - 1];
      var last := doc[|doc| - 1];
      CollectMembers(init, x);
      SlidesMediaMembers(TitleText(last.title), last.slides, x);
      if exists i, j :: 0 <= i < |doc| && 0 <= j < |doc[i].slides| && SlideMedia(TitleText(doc[i].title), doc[i].slides[j]) == Some(x) {
        var i, j :| 0 <= i < |doc| && 0 <= j < |doc[i].slides| && SlideMedia(TitleText(doc[i].title), doc[i].slides[j]) == Some(x);
        if i < |init| {
          assert init[i] == doc[i];
        }
      }
      forall i | 0 <= i < |init|
        ensures init[i] == doc[i]
      {
      }
    }
  }
}
