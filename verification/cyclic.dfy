/** The wrap-around index rule shared by the carousel (goToSlide), the flat
    media popup (displayMedia), the project album (displayProjectMedia) and
    the demo popup (displayDemoMedia), with the one-step successor and
    predecessor built on it. */
module Cyclic {

  /** An index at or past the end goes to the first position, a negative
      index goes to the last one, anything else is kept. This clamps to the
      opposite end; it is not a remainder. */
  function Wrap(i: int, n: int): (r: int)
    requires n > 0
    ensures 0 <= r < n
    ensures 0 <= i < n ==> r == i
    ensures i >= n ==> r == 0
    ensures i < 0 ==> r == n - 1
  {
    if i >= n then 0 else if i < 0 then n - 1 else i
  }

  /** The index a "next" control asks for: one past the current one, wrapped. */
  function Succ(i: int, n: int): (r: int)
    requires n > 0
    ensures 0 <= r < n
    ensures 0 <= i < n ==> r == (i + 1) % n
  {
    Wrap(i + 1, n)
  }

  /** The index a "previous" control asks for: one before the current one, wrapped. */
  function Pred(i: int, n: int): (r: int)
    requires n > 0
    ensures 0 <= r < n
    ensures 0 <= i < n ==> r == (i - 1 + n) % n
  {
    Wrap(i - 1, n)
  }

  /** `k` presses of "next" starting from `i`. */
  function SuccN(i: int, n: int, k: nat): (r: int)
    requires 0 <= i < n
    ensures 0 <= r < n
    ensures r == (i + k) % n
    decreases k
  {
    if k == 0 then i
    else
      var prev := SuccN(i, n, k - 1);
      ModSucc(i + k - 1, n);
      Succ(prev, n)
  }

  /** Reducing before adding one gives the same remainder as adding first. */
  lemma ModSucc(a: int, n: int)
    requires n > 0
    ensures (a % n + 1) % n == (a + 1) % n
  {
    var q, r := a / n, a % n;
    assert a == q * n + r;
    if r + 1 < n {
      assert a + 1 == q * n + (r + 1);
      ModUnique(a + 1, n, q, r + 1);
    } else {
      assert a + 1 == (q + 1) * n;
      ModUnique(a + 1, n, q + 1, 0);
    }
  }

  /** The remainder is determined by any quotient/remainder decomposition. */
  lemma ModUnique(a: int, n: int, q: int, r: int)
    requires n > 0 && 0 <= r < n && a == q * n + r
    ensures a % n == r
  {
    var q', r' := a / n, a % n;
    assert q * n + r == q' * n + r';
    if q > q' {
      assert (q - q') * n == q * n - q' * n;
      MulAtLeast(q - q', n);
    } else if q < q' {
      assert (q' - q) * n == q' * n - q * n;
      MulAtLeast(q' - q, n);
    }
  }

  /** A positive multiple of n is at least n. */
  lemma MulAtLeast(d: int, n: int)
    requires d >= 1 && n > 0
    ensures d * n >= n
  {
  }

  /** The clamp agrees with the true modulo on every index a single step
      from a valid position can produce (-1 through n), but not beyond
      them in general: n + 1 goes to 0, not to 1, and -2 goes to n - 1,
      not to n - 2. */
  lemma WrapIsClampNotModulo(n: int)
    requires n >= 2
    ensures forall i :: -1 <= i <= n ==> Wrap(i, n) == i % n
    ensures Wrap(n + 1, n) == 0 && (n + 1) % n == 1
    ensures Wrap(-2, n) == n - 1 && (-2) % n == n - 2
  {
    forall i | -1 <= i <= n
      ensures Wrap(i, n) == i % n
    {
      if i == n {
        ModUnique(i, n, 1, 0);
      } else if i == -1 {
        ModUnique(i, n, -1, n - 1);
      } else {
        ModUnique(i, n, 0, i);
      }
    }
    ModUnique(n + 1, n, 1, 1);
    ModUnique(-2, n, -1, n - 2);
  }

  /** "Previous" undoes "next" and "next" undoes "previous" on valid indices. */
  lemma SuccPredInverse(i: int, n: int)
    requires 0 <= i < n
    ensures Pred(Succ(i, n), n) == i
    ensures Succ(Pred(i, n), n) == i
  {
  }

  /** Pressing "next" n times from any valid index returns to it, and the n
      indices visited on the way are pairwise distinct. */
  lemma SuccFullCycle(i: int, n: int)
    requires 0 <= i < n
    ensures SuccN(i, n, n) == i
    ensures forall j, k :: 0 <= j < k < n ==> SuccN(i, n, j) != SuccN(i, n, k)
  {
    ModUnique(i + n, n, 1, i);
    forall j, k | 0 <= j < k < n
      ensures SuccN(i, n, j) != SuccN(i, n, k)
    {
      ModOfRange(i + j, n);
      ModOfRange(i + k, n);
    }
  }

  /** For 0 <= a < 2n the remainder is a or a - n. */
  lemma ModOfRange(a: int, n: int)
    requires n > 0 && 0 <= a < 2 * n
    ensures a % n == if a < n then a else a - n
  {
    if a < n {
      ModUnique(a, n, 0, a);
    } else {
      ModUnique(a, n, 1, a - n);
    }
  }
}
