/** Result lists of queries: in no particular order, or in an order the query asks for. */
module Queries {
  import opened Ids

  /** r names every element of s exactly once. */
  ghost predicate Lists<T(!new)>(r: seq<T>, s: set<T>) {
    NoDup(r) && forall x :: x in r <==> x in s
  }

  lemma ListFront<T(!new)>(r: seq<T>, s: set<T>)
    requires Lists(r, s) && r != []
    ensures r[|r| - 1] in s && Lists(r[..|r| - 1], s - {r[|r| - 1]})
  {
    var front, last := r[..|r| - 1], r[|r| - 1];
    assert last in r;
    forall x ensures x in front <==> x in s - {last} {
      assert x in s ==> x in r;
      assert x in front ==> x in r;
    }
  }

  /** A listing has one entry per element. */
  lemma {:induction false} ListLength<T(!new)>(r: seq<T>, s: set<T>)
    requires Lists(r, s)
    ensures |r| == |s|
  {
    if r == [] {
      assert s == {};
    } else {
      ListFront(r, s);
      ListLength(r[..|r| - 1], s - {r[|r| - 1]});
    }
  }

  /** A query without an order clause may return its rows in any order. */
  method Select<T(==,!new)>(s: set<T>) returns (r: seq<T>)
    ensures Lists(r, s)
  {
    r := [];
    var rest := s;
    while rest != {}
      invariant rest <= s && Lists(r, s - rest)
      decreases |rest|
    {
      var x :| x in rest;
      r := r + [x];
      rest := rest - {x};
    }
  }

  ghost predicate TotalOrderOn<T(!new)>(s: set<T>, leq: (T, T) -> bool) {
    && (forall x, y :: x in s && y in s ==> leq(x, y) || leq(y, x))
    && (forall x, y, z :: x in s && y in s && z in s && leq(x, y) && leq(y, z) ==> leq(x, z))
  }

  lemma {:induction false} LeastExists<T(!new)>(s: set<T>, leq: (T, T) -> bool)
    requires s != {} && TotalOrderOn(s, leq)
    ensures exists m :: m in s && forall x :: x in s ==> leq(m, x)
    decreases |s|
  {
    var a :| a in s;
    if s == {a} {
      assert forall x :: x in s ==> leq(a, x);
    } else {
      var rest := s - {a};
      assert rest != {};
      LeastExists(rest, leq);
      var m :| m in rest && forall x :: x in rest ==> leq(m, x);
      var least := if leq(a, m) then a else m;
      assert forall x :: x in s ==> x == a || x in rest;
      assert forall x :: x in s ==> leq(least, x);
    }
  }

  method SelectOrdered<T(==,!new)>(s: set<T>, leq: (T, T) -> bool) returns (r: seq<T>)
    requires TotalOrderOn(s, leq)
    ensures Lists(r, s)
    ensures forall i, j :: 0 <= i < j < |r| ==> leq(r[i], r[j])
  {
    r := [];
    var rest := s;
    while rest != {}
      invariant rest <= s && Lists(r, s - rest)
      invariant forall i, j :: 0 <= i < j < |r| ==> leq(r[i], r[j])
      invariant forall x, y :: x in r && y in rest ==> leq(x, y)
      decreases |rest|
    {
      LeastExists(rest, leq);
      var m :| m in rest && forall x :: x in rest ==> leq(m, x);
      r := r + [m];
      rest := rest - {m};
    }
  }
}
