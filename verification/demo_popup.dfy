/** The demo-reel popup (`#demo-popup`): opened from a demo card, stepped by
    its buttons and the arrow keys along the two-level tour of `DemoTour`,
    closed by its close button, the overlay or Escape. Its position lives in
    the element's `data-current-demo-index` / `data-current-media-index`
    attributes. */
module DemoPopup {
  import opened Optional
  import opened Cyclic
  import opened Media
  import opened DemoTour

  /** The element's inline display, its two data attributes (parsed, set
      together), its rotation timer handle and what it shows. The page
      body's scrolling, which both popups write, is kept by the enclosing
      `Page`. */
  datatype DemoPopup = DemoPopup(
    display: Display,
    cursor: Option<Cursor>,
    timer: Timer,
    stage: Stage)

  /** How a handler ended: normally, or by a TypeError from reading `.media`
      of a demo that does not exist. */
  datatype Outcome = Returned(st: DemoPopup) | Threw

  const DemoImageAlt: string := "Demo image"

  /** The state invariant, relative to the `demoDemos` global (`None` when
      the page does not define it): a stored pair names an existing media
      of an existing demo. */
  predicate Wf(st: DemoPopup, demos: Option<seq<Demo>>) {
    st.cursor.Some? ==> demos.Some? && Valid(demos.value, st.cursor.value)
  }

  /** The page's state before any demo was opened; `display` is whatever
      inline display the markup gives the element. */
  function Init(display: Display): (r: DemoPopup)
    ensures r.cursor.None? && r.display == display
    ensures forall demos :: Wf(r, demos)
  {
    DemoPopup(display, None, NoTimer, Blank)
  }

  /** The pair the handlers start from: each attribute parsed, 0 if unset. */
  function Stored(st: DemoPopup): (c: Cursor)
    ensures st.cursor.None? ==> c == Cursor(0, 0)
    ensures st.cursor.Some? ==> c == st.cursor.value
  {
    st.cursor.GetOr(Cursor(0, 0))
  }

  /** `displayDemoMedia`: wraps the demo index into the demo list first,
      then the media index into that demo's media, and only then shows the
      record and stores the pair. It returns without any change when the
      list is undefined or empty, or when the resolved demo has no media.
      An overflowing media index wraps within its own demo; it does not
      carry into the neighbouring demo. */
  function DisplayDemoMedia(st: DemoPopup, demos: Option<seq<Demo>>, d: int, m: int): (r: DemoPopup)
    ensures Wf(st, demos) ==> Wf(r, demos)
    ensures r.cursor != st.cursor ==> demos.Some? && r.cursor.Some? && Valid(demos.value, r.cursor.value)
    ensures demos.Some? && Valid(demos.value, Cursor(d, m)) ==>
      && r.cursor == Some(Cursor(d, m))
      && Shows(r.stage, demos.value[d].media[m])
      && r.stage.caption == demos.value[d].title
    ensures demos.Some? && |demos.value| > 0 ==>
      var dw := Wrap(d, |demos.value|);
      var media := demos.value[dw].media;
      && (|media| == 0 ==> r == st)
      && (|media| > 0 ==> r.cursor == Some(Cursor(dw, Wrap(m, |media|))))
    ensures r == st.(cursor := r.cursor, stage := r.stage)
  {
    if demos.None? || |demos.value| == 0 then st
    else
      var ds := demos.value;
      var dw := Wrap(d, |ds|);
      var demo := ds[dw];
      if |demo.media| == 0 then st
      else
        var mw := Wrap(m, |demo.media|);
        var item := demo.media[mw];
        var alt := if item.alt == "" then DemoImageAlt else item.alt;
        st.(stage := Render(st.stage.(caption := demo.title), item, alt),
            cursor := Some(Cursor(dw, mw)))
  }

  /** `openDemoPopup` (a click on a demo card): no-op for a demo without
      media; otherwise shows the demo's first media, stores (demo, 0),
      and makes the popup visible. */
  function OpenDemoPopup(st: DemoPopup, ds: seq<Demo>, demoIndex: int): (r: DemoPopup)
    requires 0 <= demoIndex < |ds|
    ensures |ds[demoIndex].media| == 0 ==> r == st
    ensures |ds[demoIndex].media| > 0 ==>
      && r.cursor == Some(Cursor(demoIndex, 0))
      && r.display == Flex
      && Shows(r.stage, ds[demoIndex].media[0])
    ensures Wf(st, Some(ds)) ==> Wf(r, Some(ds))
  {
    if |ds[demoIndex].media| == 0 then st
    else DisplayDemoMedia(st, Some(ds), demoIndex, 0).(display := Flex)
  }

  /** The demo popup's `closePopup`: hides it and clears (without nulling)
      a running timer. The stored pair is kept, so the next keyboard step
      resumes from it. */
  function ClosePopup(st: DemoPopup): (r: DemoPopup)
    ensures r.display == Hidden && r.timer != Running
    ensures r.cursor == st.cursor && r.stage == st.stage
  {
    st.(display := Hidden,
        timer := if st.timer == Running then Cleared else st.timer)
  }

  /** The next button's handler (also ArrowRight): with the list defined,
      take the next step from the stored pair and display it. On an empty
      list it reads `.media` of an undefined demo and throws. */
  function OnNext(st: DemoPopup, demos: Option<seq<Demo>>): (r: Outcome)
    requires Wf(st, demos)
    ensures demos.None? ==> r == Returned(st)
    ensures r.Threw? <==> demos.Some? && |demos.value| == 0
    ensures r.Returned? ==> Wf(r.st, demos)
    ensures demos.Some? && AllNonEmpty(demos.value) && |demos.value| > 0 ==>
      r.Returned? && r.st.cursor == Some(NextPair(demos.value, Stored(st)))
  {
    if demos.None? then Returned(st)
    else if |demos.value| == 0 then Threw
    else
      var ds := demos.value;
      var n := NextPair(ds, Stored(st));
      Returned(DisplayDemoMedia(st, demos, n.demo, n.media))
  }

  /** The previous button's handler (also ArrowLeft): the mirror image of
      `OnNext`. */
  function OnPrev(st: DemoPopup, demos: Option<seq<Demo>>): (r: Outcome)
    requires Wf(st, demos)
    ensures demos.None? ==> r == Returned(st)
    ensures r.Threw? <==> demos.Some? && |demos.value| == 0
    ensures r.Returned? ==> Wf(r.st, demos)
    ensures demos.Some? && AllNonEmpty(demos.value) && |demos.value| > 0 ==>
      r.Returned? && r.st.cursor == Some(PrevPair(demos.value, Stored(st)))
  {
    if demos.None? then Returned(st)
    else if |demos.value| == 0 then Threw
    else
      var ds := demos.value;
      var p := PrevPair(ds, Stored(st));
      Returned(DisplayDemoMedia(st, demos, p.demo, p.media))
  }

  /** The Escape listener's guard: the inline display is not 'none'. */
  predicate EscapeActs(st: DemoPopup) {
    st.display != Hidden
  }

  /** The arrow listener's guard: it returns early when the inline display
      is 'none'. */
  predicate ArrowsAct(st: DemoPopup) {
    !(st.display == Hidden)
  }

  /** The two page-wide keydown listeners, in the order they are
      registered: first Escape closes if the popup is not hidden; then, if
      the popup is (still) not hidden and the list is defined, the arrow
      keys step. */
  function OnKeydown(st: DemoPopup, demos: Option<seq<Demo>>, key: Key): (r: Outcome)
    requires Wf(st, demos)
    ensures r.Returned? ==> Wf(r.st, demos)
    ensures st.display == Hidden ==> r == Returned(st)
    ensures key == Escape && st.display != Hidden ==> r == Returned(ClosePopup(st))
    ensures key == ArrowRight && st.display != Hidden && demos.Some? ==> r == OnNext(st, demos)
    ensures key == ArrowLeft && st.display != Hidden && demos.Some? ==> r == OnPrev(st, demos)
    ensures key == OtherKey || (demos.None? && key != Escape) ==> r == Returned(st)
  {
    var afterEscape := if key == Escape && EscapeActs(st) then ClosePopup(st) else st;
    if !ArrowsAct(afterEscape) || demos.None? then Returned(afterEscape)
    else
      match key
      case ArrowLeft => OnPrev(afterEscape, demos)
      case ArrowRight => OnNext(afterEscape, demos)
      case _ => Returned(afterEscape)
  }

  /** Once closed, the popup ignores every key and closing it again changes
      nothing; the stored pair survives the close. */
  lemma ClosedPopupIgnoresKeys(st: DemoPopup, demos: Option<seq<Demo>>, key: Key)
    requires Wf(st, demos)
    ensures Wf(ClosePopup(st), demos)
    ensures OnKeydown(ClosePopup(st), demos, key) == Returned(ClosePopup(st))
    ensures ClosePopup(ClosePopup(st)) == ClosePopup(st)
    ensures Stored(ClosePopup(st)) == Stored(st)
  {
  }

  /** The two demo guards are spelled differently but test the same thing,
      and both take a popup whose display was never written for an open
      one: before any demo is opened, with an unstyled element, ArrowRight
      already moves the stored pair. (The media popup's keyboard, gated on
      `isOpen`, does nothing in its initial state.) */
  lemma DemoKeysLiveBeforeOpen(ds: seq<Demo>)
    requires |ds| > 0 && AllNonEmpty(ds)
    ensures forall st :: EscapeActs(st) <==> ArrowsAct(st)
    ensures var r := OnKeydown(Init(Unstyled), Some(ds), ArrowRight);
      r.Returned? && r.st.cursor == Some(NextPair(ds, Cursor(0, 0))) && r.st.display == Unstyled
  {
  }

  /** With an empty demo list the arrow keys throw, even before any demo
      was opened, unless the markup hides the element inline. */
  lemma EmptyDemoListThrows(display: Display)
    requires display != Hidden
    ensures OnKeydown(Init(display), Some([]), ArrowRight) == Threw
    ensures OnKeydown(Init(display), Some([]), ArrowLeft) == Threw
  {
  }

  /** `k` presses of the next button. */
  function NextPresses(st: DemoPopup, ds: seq<Demo>, k: nat): (r: DemoPopup)
    requires Wf(st, Some(ds)) && |ds| > 0 && AllNonEmpty(ds)
    ensures Wf(r, Some(ds))
    ensures Stored(r) == NextN(ds, Stored(st), k)
    ensures r.display == st.display
    decreases k
  {
    if k == 0 then st
    else
      var prev := NextPresses(st, ds, k - 1);
      var out := OnNext(prev, Some(ds));
      out.st
  }

  /** Pressing next once per media of all demos brings the stored pair back
      to where it was, after passing through every other valid pair. */
  lemma DemoFullTour(st: DemoPopup, ds: seq<Demo>)
    requires Wf(st, Some(ds)) && |ds| > 0 && AllNonEmpty(ds)
    ensures Stored(NextPresses(st, ds, Total(ds))) == Stored(st)
    ensures forall c :: Valid(ds, c) ==> Stored(NextPresses(st, ds, Distance(ds, Stored(st), c))) == c
  {
    FullTourReturns(ds, Stored(st));
    forall c | Valid(ds, c)
      ensures Stored(NextPresses(st, ds, Distance(ds, Stored(st), c))) == c
    {
      TourReachesEveryPair(ds, Stored(st), c);
    }
  }

  /** The previous button undoes the next button, and the other way round. */
  lemma PrevUndoesNext(st: DemoPopup, ds: seq<Demo>)
    requires Wf(st, Some(ds)) && |ds| > 0 && AllNonEmpty(ds)
    ensures var once := OnNext(st, Some(ds)).st;
      Stored(OnPrev(once, Some(ds)).st) == Stored(st)
    ensures var once := OnPrev(st, Some(ds)).st;
      Stored(OnNext(once, Some(ds)).st) == Stored(st)
  {
    StepsAreInverse(ds, Stored(st));
  }

  /** `displayDemoMedia` does not carry an overflowing media index into the
      next demo: one past a demo's last media is that demo's first media.
      The carrying happens only in the next / previous handlers. */
  lemma DisplayWrapsWithinDemo(st: DemoPopup, ds: seq<Demo>, d: int)
    requires 0 <= d < |ds| && |ds[d].media| > 0
    ensures DisplayDemoMedia(st, Some(ds), d, |ds[d].media|).cursor == Some(Cursor(d, 0))
    ensures DisplayDemoMedia(st, Some(ds), d, -1).cursor == Some(Cursor(d, |ds[d].media| - 1))
  {
  }
}
