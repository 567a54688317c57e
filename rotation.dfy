/** The rotation cursor: the persisted last_index and how each run advances
    it through a fact list of length n. */
module Rotation {

  /** The value load_state() supplies when no state has been saved yet. */
  const FreshLastIndex: int := -1

  /** a and b differ by a multiple of n. */
  predicate Congruent(a: int, b: int, n: nat)
    requires n > 0
  {
    (a - b) % n == 0
  }

  /** (last_index + 1) % len(facts). Python's % with a positive divisor is
      never negative, as Dafny's is, so this is exact for any last_index. */
  function NextIndex(last: int, n: nat): (idx: nat)
    requires n > 0
    ensures idx < n
    ensures Congruent(idx, last + 1, n)
  {
    var idx := (last + 1) % n;
    var q := (last + 1) / n;
    assert idx - (last + 1) == (-q) * n + 0;
    DivModUnique(idx - (last + 1), n, -q, 0);
    idx
  }

  lemma {:induction false} MulAtLeast(d: int, n: nat)
    requires d >= 1 && n > 0
    ensures d * n >= n
    decreases d
  {
    if d > 1 {
      MulAtLeast(d - 1, n);
      assert d * n == (d - 1) * n + n;
    }
  }

  /** Quotient and remainder are the only pair that rebuilds a with a
      remainder in [0, n). */
  lemma DivModUnique(a: int, n: nat, q: int, r: int)
    requires n > 0 && 0 <= r < n && a == q * n + r
    ensures r == a % n && q == a / n
  {
    var p, s := a / n, a % n;
    var d := q - p;
    assert d * n == s - r by {
      assert a == p * n + s;
      assert q * n - p * n == d * n;
    }
    if d >= 1 {
      MulAtLeast(d, n);
    } else if d <= -1 {
      assert (-d) * n == -(d * n);
      MulAtLeast(-d, n);
    }
  }

  /** The only value in [0, n) congruent to a is a % n. */
  lemma CongruentUnique(x: int, a: int, n: nat)
    requires n > 0 && 0 <= x < n && Congruent(x, a, n)
    ensures x == a % n
  {
    var k := (x - a) / n;
    assert x - a == k * n + (x - a) % n;
    assert a == (-k) * n + x;
    DivModUnique(a, n, -k, x);
  }

  /** From an index inside the list the cursor moves to the next index,
      wrapping from the last one back to 0. */
  lemma NextIndexWraps(i: int, n: nat)
    requires 0 <= i < n
    ensures NextIndex(i, n) == if i + 1 < n then i + 1 else 0
  {
    if i + 1 < n {
      DivModUnique(i + 1, n, 0, i + 1);
    } else {
      DivModUnique(i + 1, n, 1, 0);
    }
  }

  /** last_index after k more runs, starting from last. */
  function LastIndexAfter(last: int, n: nat, k: nat): int
    requires n > 0
  {
    if k == 0 then last else NextIndex(LastIndexAfter(last, n, k - 1), n)
  }

  /** Adding one moves the remainder one place, wrapping at n. */
  lemma ModSucc(a: int, n: nat)
    requires n > 0
    ensures (a + 1) % n == if a % n + 1 < n then a % n + 1 else 0
  {
    var q, r := a / n, a % n;
    assert a == q * n + r;
    if r + 1 < n {
      DivModUnique(a + 1, n, q, r + 1);
    } else {
      assert (q + 1) * n == q * n + n;
      DivModUnique(a + 1, n, q + 1, 0);
    }
  }

  /** After k >= 1 runs the cursor has moved k places, modulo n, from where
      it started, whatever the saved value was. */
  lemma {:induction false} AfterRuns(last: int, n: nat, k: nat)
    requires n > 0 && k >= 1
    ensures LastIndexAfter(last, n, k) == (last + k) % n
    ensures 0 <= LastIndexAfter(last, n, k) < n
  {
    if k == 1 {
      CongruentUnique(NextIndex(last, n), last + 1, n);
    } else {
      AfterRuns(last, n, k - 1);
      var u := LastIndexAfter(last, n, k - 1);
      NextIndexWraps(u, n);
      ModSucc(last + k - 1, n);
    }
  }

  /** Starting from no saved state, the k-th run (counting from 0) picks
      index k mod n; in particular the first run picks index 0. */
  lemma FreshStartPicks(n: nat, k: nat)
    requires n > 0
    ensures LastIndexAfter(FreshLastIndex, n, k + 1) == k % n
  {
    AfterRuns(FreshLastIndex, n, k + 1);
  }

  lemma ModAddPeriod(a: int, n: nat)
    requires n > 0
    ensures (a + n) % n == a % n
  {
    var q, r := a / n, a % n;
    assert a == q * n + r;
    assert (q + 1) * n == q * n + n;
    DivModUnique(a + n, n, q + 1, r);
  }

  /** Once a run has happened, the cursor repeats with period n. */
  lemma Periodic(last: int, n: nat, k: nat)
    requires n > 0 && k >= 1
    ensures LastIndexAfter(last, n, k + n) == LastIndexAfter(last, n, k)
  {
    AfterRuns(last, n, k);
    AfterRuns(last, n, k + n);
    ModAddPeriod(last + k, n);
  }

  /** n consecutive runs from a fresh start visit every index exactly once,
      in order 0, 1, ..., n - 1. */
  lemma FreshStartVisitsAll(n: nat, i: nat)
    requires 0 <= i < n
    ensures LastIndexAfter(FreshLastIndex, n, i + 1) == i
  {
    FreshStartPicks(n, i);
    DivModUnique(i, n, 0, i);
  }
}
