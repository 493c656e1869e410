/**
 * Stepping through a list of distinct options with wrap-around, the way the
 * map panel's hour buttons use `indexOf` and the list length.
 */
module Cycle {

  /** `Array.prototype.indexOf`: the first position holding `x`, or -1. */
  function IndexOf<T(==)>(s: seq<T>, x: T): (r: int)
    ensures -1 <= r < |s|
    ensures r == -1 <==> x !in s
    ensures 0 <= r ==> s[r] == x && forall j :: 0 <= j < r ==> s[j] != x
  {
    IndexFrom(s, x, 0)
  }

  /** The first position at or after `k` holding `x`, or -1. */
  function IndexFrom<T(==)>(s: seq<T>, x: T, k: nat): (r: int)
    requires k <= |s|
    ensures r == -1 || k <= r < |s|
    ensures r == -1 <==> forall j :: k <= j < |s| ==> s[j] != x
    ensures 0 <= r ==> s[r] == x && forall j :: k <= j < r ==> s[j] != x
    decreases |s| - k
  {
    if k == |s| then -1
    else if s[k] == x then k
    else IndexFrom(s, x, k + 1)
  }

  predicate Distinct<T(==)>(s: seq<T>) {
    forall i, j :: 0 <= i < j < |s| ==> s[i] != s[j]
  }

  /** In a list without repeats, `indexOf` finds every element at its own position. */
  lemma IndexOfDistinct<T>(s: seq<T>, k: nat)
    requires Distinct(s) && k < |s|
    ensures IndexOf(s, s[k]) == k
  {
  }

  /** Two elements of a list found at the same position are equal. */
  lemma SamePosition<T>(s: seq<T>, a: T, b: T)
    requires a in s && b in s && IndexOf(s, a) == IndexOf(s, b)
    ensures a == b
  {
  }

  /** One step forward: the element after `x`, the first element after the last, and the first for an unknown `x`. */
  function Next<T(==)>(s: seq<T>, x: T): (r: T)
    requires |s| > 0
    ensures r in s
    ensures x !in s ==> r == s[0]
    ensures x in s && Distinct(s) ==>
              var i := IndexOf(s, x);
              IndexOf(s, r) == if i == |s| - 1 then 0 else i + 1
  {
    var next := (IndexOf(s, x) + 1) % |s|;
    WrapOnce(IndexOf(s, x) + 1, |s|);
    if Distinct(s) then IndexOfDistinct(s, next); s[next] else s[next]
  }

  /** One step back: the element before `x`, the last element before the first, and the last for an unknown `x`. */
  function Prev<T(==)>(s: seq<T>, x: T): (r: T)
    requires |s| > 0
    ensures r in s
    ensures x !in s ==> r == s[|s| - 1]
    ensures x in s && Distinct(s) ==>
              var i := IndexOf(s, x);
              IndexOf(s, r) == if i == 0 then |s| - 1 else i - 1
  {
    var current := IndexOf(s, x);
    var prev := if current > 0 then current - 1 else |s| - 1;
    if Distinct(s) then IndexOfDistinct(s, prev); s[prev] else s[prev]
  }

  /** Forward undoes back, and back undoes forward, on every element of a list without repeats. */
  lemma NextPrevInverse<T>(s: seq<T>, x: T)
    requires |s| > 0 && Distinct(s) && x in s
    ensures Next(s, Prev(s, x)) == x
    ensures Prev(s, Next(s, x)) == x
  {
    SamePosition(s, Next(s, Prev(s, x)), x);
    SamePosition(s, Prev(s, Next(s, x)), x);
  }

  /** The element reached after `n` forward steps from `x`. */
  function Advance<T(==)>(s: seq<T>, x: T, n: nat): (r: T)
    requires |s| > 0
    ensures n > 0 ==> r in s
    decreases n
  {
    if n == 0 then x else Next(s, Advance(s, x, n - 1))
  }

  /** If `y` sits at position `k mod |s|`, the step after it sits at `(k + 1) mod |s|`. */
  lemma NextPosition<T>(s: seq<T>, y: T, k: nat)
    requires |s| > 0 && Distinct(s) && y in s && IndexOf(s, y) == k % |s|
    ensures IndexOf(s, Next(s, y)) == (k + 1) % |s|
  {
    ModSuccessor(k, |s|);
  }

  /** `n` forward steps from position `i` reach position `(i + n) mod |s|`. */
  lemma {:induction false} AdvancePosition<T>(s: seq<T>, x: T, n: nat)
    requires |s| > 0 && Distinct(s) && x in s
    ensures IndexOf(s, Advance(s, x, n)) == (IndexOf(s, x) + n) % |s|
    decreases n
  {
    var i := IndexOf(s, x);
    if n == 0 {
      WrapOnce(i, |s|);
      assert (i + n) % |s| == i;
    } else {
      var before := Advance(s, x, n - 1);
      AdvancePosition(s, x, n - 1);
      NextPosition(s, before, i + (n - 1));
      assert Advance(s, x, n) == Next(s, before);
      assert i + (n - 1) + 1 == i + n;
    }
  }

  /** Any whole number of rounds (a multiple of `|s|` forward steps) brings every element back to itself. */
  lemma AdvanceFullCycles<T>(s: seq<T>, x: T, n: nat)
    requires |s| > 0 && Distinct(s) && x in s && n % |s| == 0
    ensures Advance(s, x, n) == x
  {
    AdvancePosition(s, x, n);
    ModAddMultiple(IndexOf(s, x), n, |s|);
    SamePosition(s, Advance(s, x, n), x);
  }

  // ---- modular arithmetic ----

  /** A value in `0 .. m` reduces modulo `m` to itself, except `m` which reduces to 0. */
  lemma WrapOnce(a: int, m: int)
    requires 0 <= a <= m && m > 0
    ensures a % m == if a == m then 0 else a
  {
    if a < m {
      ModUnique(a, m, 0, a);
    } else {
      ModUnique(a, m, 1, 0);
    }
  }

  /** A positive multiple of `m` is at least `m`. */
  lemma MulAtLeast(d: int, m: int)
    requires d >= 1 && m > 0
    ensures d * m >= m
  {
  }

  /** Euclidean division is unique: `q * m + r` with `0 <= r < m` has quotient `q` and remainder `r`. */
  lemma ModUnique(a: int, m: int, q: int, r: int)
    requires m > 0 && 0 <= r < m && a == q * m + r
    ensures a % m == r && a / m == q
  {
    var q', r' := a / m, a % m;
    assert a == q' * m + r';
    if q' < q {
      assert (q - q') * m == q * m - q' * m;
      MulAtLeast(q - q', m);
    } else if q < q' {
      assert (q' - q) * m == q' * m - q * m;
      MulAtLeast(q' - q, m);
    }
  }

  /** The successor of `k mod m`, wrapped at `m`, is `(k + 1) mod m`. */
  lemma ModSuccessor(k: nat, m: int)
    requires m > 0
    ensures var i := k % m; (if i == m - 1 then 0 else i + 1) == (k + 1) % m
  {
    var q := k / m;
    var i := k % m;
    assert k == q * m + i;
    if i == m - 1 {
      assert k + 1 == (q + 1) * m + 0;
      ModUnique(k + 1, m, q + 1, 0);
    } else {
      ModUnique(k + 1, m, q, i + 1);
    }
  }

  /** Adding a multiple of the modulus to a remainder leaves it unchanged. */
  lemma ModAddMultiple(i: nat, n: nat, m: int)
    requires m > 0 && i < m && n % m == 0
    ensures (i + n) % m == i
  {
    var q := n / m;
    assert n == q * m;
    ModUnique(i + n, m, q, i);
  }
}
