/** Finite sums over sets and over index ranges, and the few laws the scoring proofs need. */
module Sums {

  ghost function Pick<T>(s: set<T>): (x: T)
    requires s != {}
    ensures x in s
  {
    var x :| x in s; x
  }

  /** The sum of f over the elements of s, in whatever order Pick visits them. */
  ghost function SumSet<T>(s: set<T>, f: T -> int): int
    decreases |s|
  {
    if s == {} then 0 else var x := Pick(s); f(x) + SumSet(s - {x}, f)
  }

  /** Any element may be taken out first, so the order of visiting is irrelevant. */
  lemma {:induction false} SumRemove<T>(s: set<T>, f: T -> int, x: T)
    requires x in s
    ensures SumSet(s, f) == f(x) + SumSet(s - {x}, f)
    decreases |s|
  {
    var y := Pick(s);
    if y != x {
      SumRemove(s - {y}, f, x);
      SumRemove(s - {x}, f, y);
      assert s - {y} - {x} == s - {x} - {y};
    }
  }

  /** Pointwise ordered differences add up. */
  lemma {:induction false} SumDiff<T>(s: set<T>, hi: T -> int, hiBase: T -> int, lo: T -> int, loBase: T -> int)
    requires forall x :: x in s ==> lo(x) - loBase(x) <= hi(x) - hiBase(x)
    ensures SumSet(s, lo) - SumSet(s, loBase) <= SumSet(s, hi) - SumSet(s, hiBase)
    decreases |s|
  {
    if s != {} {
      var x := Pick(s);
      SumRemove(s, hi, x);
      SumRemove(s, hiBase, x);
      SumRemove(s, lo, x);
      SumRemove(s, loBase, x);
      SumDiff(s - {x}, hi, hiBase, lo, loBase);
    }
  }

  lemma SumMono<T>(s: set<T>, lo: T -> int, hi: T -> int)
    requires forall x :: x in s ==> lo(x) <= hi(x)
    ensures SumSet(s, lo) <= SumSet(s, hi)
  {
    SumDiff(s, hi, lo, lo, lo);
  }

  lemma SumCong<T>(s: set<T>, f: T -> int, g: T -> int)
    requires forall x :: x in s ==> f(x) == g(x)
    ensures SumSet(s, f) == SumSet(s, g)
  {
    SumMono(s, f, g);
    SumMono(s, g, f);
  }

  /** A sum splits over a partition of its index set. */
  lemma {:induction false} SumSplit<T>(s: set<T>, a: set<T>, b: set<T>, f: T -> int)
    requires a !! b && s == a + b
    ensures SumSet(s, f) == SumSet(a, f) + SumSet(b, f)
    decreases |a|
  {
    if a == {} {
      assert s == b;
    } else {
      var x := Pick(a);
      SumRemove(a, f, x);
      SumRemove(s, f, x);
      SumSplit(s - {x}, a - {x}, b, f);
    }
  }

  lemma {:induction false} SumZero<T>(s: set<T>, f: T -> int)
    requires forall x :: x in s ==> f(x) == 0
    ensures SumSet(s, f) == 0
    decreases |s|
  {
    if s != {} {
      SumZero(s - {Pick(s)}, f);
    }
  }

  /** Indices where f vanishes may be added freely. */
  lemma SumWiden<T>(s: set<T>, wide: set<T>, f: T -> int)
    requires s <= wide
    requires forall x :: x in wide && x !in s ==> f(x) == 0
    ensures SumSet(wide, f) == SumSet(s, f)
  {
    SumSplit(wide, s, wide - s, f);
    SumZero(wide - s, f);
  }

  /** The sum f(0) + ... + f(n - 1). */
  ghost function SumTo(n: nat, f: int -> int): int
  {
    if n == 0 then 0 else SumTo(n - 1, f) + f(n - 1)
  }

  /** f may exceed g by a at index p and by b at index q, and nowhere else. */
  lemma {:induction false} SumToBump(n: nat, f: int -> int, g: int -> int, p: int, a: int, q: int, b: int)
    requires forall i :: 0 <= i < n ==> f(i) <= g(i) + (if i == p then a else 0) + (if i == q then b else 0)
    ensures SumTo(n, f) <= SumTo(n, g) + (if 0 <= p < n then a else 0) + (if 0 <= q < n then b else 0)
  {
    if n > 0 {
      SumToBump(n - 1, f, g, p, a, q, b);
    }
  }

  lemma SumToMono(n: nat, f: int -> int, g: int -> int)
    requires forall i :: 0 <= i < n ==> f(i) <= g(i)
    ensures SumTo(n, f) <= SumTo(n, g)
  {
    SumToBump(n, f, g, -1, 0, -1, 0);
  }
}
