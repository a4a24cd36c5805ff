/** The per-showcase slide carousel: a current slide over a fixed, non-empty
    set of slides, moved by dots, arrows, keys and swipes. */
module Carousel {
  import opened Cyclic
  import opened Optional

  /** `total` is the number of `.carousel-slide` elements; `current` the
      `currentSlide` variable. */
  datatype Carousel = Carousel(total: nat, current: int)

  predicate Valid(c: Carousel) {
    c.total > 0 && 0 <= c.current < c.total
  }

  /** A carousel is only set up when it has slides; it starts on slide 0. */
  function Init(total: nat): (r: Option<Carousel>)
    ensures r.Some? <==> total > 0
    ensures r.Some? ==> Valid(r.value) && r.value.current == 0 && r.value.total == total
  {
    if total == 0 then None else Some(Carousel(total, 0))
  }

  /** `goToSlide`: store the index, then reset it to 0 if it is at or past
      the end, then to the last slide if it is negative (two independent
      tests, in that order). */
  function GoToSlide(c: Carousel, index: int): (r: Carousel)
    requires c.total > 0
    ensures Valid(r)
    ensures r.total == c.total
    ensures 0 <= index < c.total ==> r.current == index
  {
    var cur := if index >= c.total then 0 else index;
    c.(current := if cur < 0 then c.total - 1 else cur)
  }

  /** The carousel's two sequential tests compute the same index as the
      popups' if / else-if chain. */
  lemma GoToSlideIsWrap(c: Carousel, index: int)
    requires c.total > 0
    ensures GoToSlide(c, index).current == Wrap(index, c.total)
  {
  }

  /** `nextSlide` (next button, ArrowRight, left swipe, the 5 s timer). */
  function NextSlide(c: Carousel): (r: Carousel)
    requires Valid(c)
    ensures Valid(r) && r.total == c.total
    ensures r.current == Succ(c.current, c.total)
  {
    GoToSlide(c, c.current + 1)
  }

  /** `prevSlide` (previous button, ArrowLeft, right swipe). */
  function PrevSlide(c: Carousel): (r: Carousel)
    requires Valid(c)
    ensures Valid(r) && r.total == c.total
    ensures r.current == Pred(c.current, c.total)
  {
    GoToSlide(c, c.current - 1)
  }

  /** `k` applications of `nextSlide`. */
  function NextSlideN(c: Carousel, k: nat): (r: Carousel)
    requires Valid(c)
    ensures Valid(r) && r.total == c.total
    ensures r.current == SuccN(c.current, c.total, k)
    decreases k
  {
    if k == 0 then c else NextSlide(NextSlideN(c, k - 1))
  }

  /** Previous undoes next and next undoes previous. */
  lemma NextPrevInverse(c: Carousel)
    requires Valid(c)
    ensures PrevSlide(NextSlide(c)) == c
    ensures NextSlide(PrevSlide(c)) == c
  {
    SuccPredInverse(c.current, c.total);
  }

  /** Advancing once per slide returns to the starting slide, after visiting
      every other slide exactly once. */
  lemma FullRotation(c: Carousel)
    requires Valid(c)
    ensures NextSlideN(c, c.total) == c
    ensures forall j, k :: 0 <= j < k < c.total ==> NextSlideN(c, j).current != NextSlideN(c, k).current
  {
    SuccFullCycle(c.current, c.total);
  }
}
