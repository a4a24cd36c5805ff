/** The demo popup's two-level cursor: a (demo, media) pair over the list of
    demo reels, and the next / previous steps its buttons and arrow keys
    take, which together make one continuous cyclic tour through every
    demo's media. */
module DemoTour {
  import opened Media
  import Cyclic

  /** A demo reel of the static data list; only its title and media take
      part in navigation. */
  datatype Demo = Demo(title: string, media: seq<MediaItem>)

  /** The parsed `data-current-demo-index` / `data-current-media-index` pair. */
  datatype Cursor = Cursor(demo: int, media: int)

  /** The cursor names an existing media of an existing demo. */
  predicate Valid(ds: seq<Demo>, c: Cursor) {
    0 <= c.demo < |ds| && 0 <= c.media < |ds[c.demo].media|
  }

  predicate AllNonEmpty(ds: seq<Demo>) {
    forall i :: 0 <= i < |ds| ==> |ds[i].media| > 0
  }

  /** The next step: the following media of the same demo if there is one,
      else the first media of the following demo if there is one, else the
      first media of the first demo. */
  function NextPair(ds: seq<Demo>, c: Cursor): (r: Cursor)
    requires 0 <= c.demo < |ds|
    ensures AllNonEmpty(ds) && Valid(ds, c) ==> Valid(ds, r)
  {
    if c.media < |ds[c.demo].media| - 1 then Cursor(c.demo, c.media + 1)
    else if c.demo < |ds| - 1 then Cursor(c.demo + 1, 0)
    else Cursor(0, 0)
  }

  /** The previous step: the preceding media of the same demo if there is
      one, else the last media of the preceding demo if there is one, else
      the last media of the last demo. */
  function PrevPair(ds: seq<Demo>, c: Cursor): (r: Cursor)
    requires 0 <= c.demo < |ds|
    ensures AllNonEmpty(ds) && Valid(ds, c) ==> Valid(ds, r)
  {
    if c.media > 0 then Cursor(c.demo, c.media - 1)
    else if c.demo > 0 then Cursor(c.demo - 1, |ds[c.demo - 1].media| - 1)
    else Cursor(|ds| - 1, |ds[|ds| - 1].media| - 1)
  }

  /** Previous undoes next and next undoes previous on every valid pair. */
  lemma StepsAreInverse(ds: seq<Demo>, c: Cursor)
    requires AllNonEmpty(ds) && Valid(ds, c)
    ensures PrevPair(ds, NextPair(ds, c)) == c
    ensures NextPair(ds, PrevPair(ds, c)) == c
  {
  }

  // ---- The tour as a cycle: each valid pair has a rank in 0 .. Total-1 ----

  /** The number of media in the first `d` demos. */
  function Offset(ds: seq<Demo>, d: nat): nat
    requires d <= |ds|
    decreases d
  {
    if d == 0 then 0 else Offset(ds, d - 1) + |ds[d - 1].media|
  }

  /** The number of media over all demos: the length of one tour. */
  function Total(ds: seq<Demo>): nat {
    Offset(ds, |ds|)
  }

  /** The position of a pair in the tour. */
  function Rank(ds: seq<Demo>, c: Cursor): nat
    requires Valid(ds, c)
  {
    Offset(ds, c.demo) + c.media
  }

  /** Offsets grow with the demo index. */
  lemma {:induction false} OffsetMonotone(ds: seq<Demo>, d1: nat, d2: nat)
    requires d1 <= d2 <= |ds|
    ensures Offset(ds, d1) <= Offset(ds, d2)
    decreases d2 - d1
  {
    if d1 < d2 {
      OffsetMonotone(ds, d1, d2 - 1);
    }
  }

  /** A pair's rank lies within its own demo's block of ranks. */
  lemma RankInBlock(ds: seq<Demo>, c: Cursor)
    requires Valid(ds, c)
    ensures Offset(ds, c.demo) <= Rank(ds, c) < Offset(ds, c.demo + 1) <= Total(ds)
  {
    OffsetMonotone(ds, c.demo + 1, |ds|);
  }

  /** Different pairs have different ranks. */
  lemma RankInjective(ds: seq<Demo>, c1: Cursor, c2: Cursor)
    requires Valid(ds, c1) && Valid(ds, c2) && Rank(ds, c1) == Rank(ds, c2)
    ensures c1 == c2
  {
    RankInBlock(ds, c1);
    RankInBlock(ds, c2);
    if c1.demo < c2.demo {
      OffsetMonotone(ds, c1.demo + 1, c2.demo);
    } else if c2.demo < c1.demo {
      OffsetMonotone(ds, c2.demo + 1, c1.demo);
    }
  }

  /** With every demo non-empty, one next step moves one place along the
      tour, from the last place back to the first. */
  lemma NextAdvancesRank(ds: seq<Demo>, c: Cursor)
    requires AllNonEmpty(ds) && Valid(ds, c)
    ensures Valid(ds, NextPair(ds, c))
    ensures Rank(ds, NextPair(ds, c)) == (Rank(ds, c) + 1) % Total(ds)
  {
    RankInBlock(ds, c);
    var r := Rank(ds, c);
    var n := NextPair(ds, c);
    if c.media < |ds[c.demo].media| - 1 {
      Cyclic.ModUnique(r + 1, Total(ds), 0, r + 1);
    } else if c.demo < |ds| - 1 {
      RankInBlock(ds, n);
      Cyclic.ModUnique(r + 1, Total(ds), 0, r + 1);
    } else {
      assert r + 1 == Total(ds);
      Cyclic.ModUnique(r + 1, Total(ds), 1, 0);
    }
  }

  /** `k` next steps. Every intermediate pair is valid, and after `k` steps
      the tour has moved `k` places, modulo its length. */
  function NextN(ds: seq<Demo>, c: Cursor, k: nat): (r: Cursor)
    requires AllNonEmpty(ds) && Valid(ds, c)
    ensures Valid(ds, r)
    ensures Rank(ds, r) == (Rank(ds, c) + k) % Total(ds)
    decreases k
  {
    if k == 0 then
      RankInBlock(ds, c);
      Cyclic.ModUnique(Rank(ds, c), Total(ds), 0, Rank(ds, c));
      c
    else
      var prev := NextN(ds, c, k - 1);
      NextAdvancesRank(ds, prev);
      RankInBlock(ds, prev);
      Cyclic.ModSucc(Rank(ds, c) + k - 1, Total(ds));
      NextPair(ds, prev)
  }

  /** Stepping next once per media of all demos returns to the starting
      pair. */
  lemma FullTourReturns(ds: seq<Demo>, c: Cursor)
    requires AllNonEmpty(ds) && Valid(ds, c)
    ensures NextN(ds, c, Total(ds)) == c
  {
    var t := Total(ds);
    RankInBlock(ds, c);
    var r := Rank(ds, c);
    Cyclic.ModUnique(r + t, t, 1, r);
    RankInjective(ds, NextN(ds, c, t), c);
  }

  /** The number of next steps from `from` to `to` along the tour. */
  function Distance(ds: seq<Demo>, from: Cursor, to: Cursor): (k: nat)
    requires Valid(ds, from) && Valid(ds, to)
    ensures k < Total(ds)
  {
    RankInBlock(ds, from);
    RankInBlock(ds, to);
    if Rank(ds, to) >= Rank(ds, from) then Rank(ds, to) - Rank(ds, from)
    else Rank(ds, to) + Total(ds) - Rank(ds, from)
  }

  /** The tour passes through every valid pair: from any pair, every other
      pair is reached in fewer than Total next steps. */
  lemma TourReachesEveryPair(ds: seq<Demo>, from: Cursor, to: Cursor)
    requires AllNonEmpty(ds) && Valid(ds, from) && Valid(ds, to)
    ensures NextN(ds, from, Distance(ds, from, to)) == to
  {
    var t := Total(ds);
    var k := Distance(ds, from, to);
    RankInBlock(ds, from);
    RankInBlock(ds, to);
    var rf, rt := Rank(ds, from), Rank(ds, to);
    if rt >= rf {
      assert rf + k == rt;
      Cyclic.ModUnique(rf + k, t, 0, rt);
    } else {
      assert rf + k == 1 * t + rt;
      Cyclic.ModUnique(rf + k, t, 1, rt);
    }
    var reached := NextN(ds, from, k);
    assert Rank(ds, reached) == rt;
    RankInjective(ds, reached, to);
  }
}
