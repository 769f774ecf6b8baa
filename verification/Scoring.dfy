/**
 The scheduler's slot score: the sum, over users, of each user's highest interest among the
 discussions that share the slot.
 */
module Scoring {
  import opened Ids
  import opened Sums

  datatype Interest = Interest(user: UserID, level: int)

  /** What the snapshot records about one discussion, except for its placement. */
  datatype Disc = Disc(
    id: DiscussionID,
    owner: UserID,
    possible: set<SlotID>,
    interest: seq<Interest>,
    maxInterest: int)

  function Max(a: int, b: int): int {
    if a < b then b else a
  }

  /** The highest level that the rows give to user u; zero when there is none. */
  function Top(rows: seq<Interest>, u: UserID): (t: int)
    ensures 0 <= t
  {
    if rows == [] then 0
    else
      var last := rows[|rows| - 1];
      Max(Top(rows[..|rows| - 1], u), if last.user == u then last.level else 0)
  }

  /** User u's highest interest among the discussions ds. */
  function Level(ds: seq<Disc>, u: UserID): (t: int)
    ensures 0 <= t
  {
    if ds == [] then 0 else Max(Level(ds[..|ds| - 1], u), Top(ds[|ds| - 1].interest, u))
  }

  ghost function LevelOf(ds: seq<Disc>): UserID -> int {
    u => Level(ds, u)
  }

  ghost function RowUsers(rows: seq<Interest>): set<UserID> {
    set i | 0 <= i < |rows| :: rows[i].user
  }

  ghost function Users(ds: seq<Disc>): set<UserID> {
    set i, j | 0 <= i < |ds| && 0 <= j < |ds[i].interest| :: ds[i].interest[j].user
  }

  /** The slot score. */
  ghost function Score(ds: seq<Disc>): int {
    SumSet(Users(ds), LevelOf(ds))
  }

  /** How much the score of ds grows when hyp joins. */
  ghost function Delta(ds: seq<Disc>, hyp: Disc): int {
    Score(ds + [hyp]) - Score(ds)
  }

  // ----- levels

  lemma {:induction false} TopWitness(rows: seq<Interest>, u: UserID)
    ensures forall r :: r in rows && r.user == u ==> r.level <= Top(rows, u)
    ensures Top(rows, u) == 0 || Interest(u, Top(rows, u)) in rows
  {
    if rows != [] {
      var front, last := rows[..|rows| - 1], rows[|rows| - 1];
      TopWitness(front, u);
      assert rows == front + [last];
    }
  }

  lemma {:induction false} LevelWitness(ds: seq<Disc>, u: UserID)
    ensures forall d :: d in ds ==> Top(d.interest, u) <= Level(ds, u)
    ensures Level(ds, u) == 0 || exists d :: d in ds && Top(d.interest, u) == Level(ds, u)
  {
    if ds != [] {
      var front, last := ds[..|ds| - 1], ds[|ds| - 1];
      LevelWitness(front, u);
      assert ds == front + [last];
    }
  }

  /** A level depends only on which discussions are present. */
  lemma LevelSubset(xs: seq<Disc>, ys: seq<Disc>, u: UserID)
    requires forall d :: d in xs ==> d in ys
    ensures Level(xs, u) <= Level(ys, u)
  {
    LevelWitness(xs, u);
    LevelWitness(ys, u);
  }

  lemma LevelSnoc(ds: seq<Disc>, d: Disc, u: UserID)
    ensures Level(ds + [d], u) == Max(Level(ds, u), Top(d.interest, u))
  {
    assert (ds + [d])[..|ds|] == ds;
  }

  lemma LevelOutsider(ds: seq<Disc>, u: UserID)
    requires u !in Users(ds)
    ensures Level(ds, u) == 0
  {
    LevelWitness(ds, u);
    if Level(ds, u) != 0 {
      var d :| d in ds && Top(d.interest, u) == Level(ds, u);
      TopWitness(d.interest, u);
    }
  }

  /** The score may be summed over any superset of the interested users. */
  lemma ScoreOver(ds: seq<Disc>, us: set<UserID>)
    requires Users(ds) <= us
    ensures Score(ds) == SumSet(us, LevelOf(ds))
  {
    forall u | u in us && u !in Users(ds) ensures LevelOf(ds)(u) == 0 {
      LevelOutsider(ds, u);
    }
    SumWiden(Users(ds), us, LevelOf(ds));
  }

  // ----- the score as a set function

  /** If levels grow less from lo0 to lo1 than from hi0 to hi1, so does the score. */
  lemma ScoreDiff(hi1: seq<Disc>, hi0: seq<Disc>, lo1: seq<Disc>, lo0: seq<Disc>)
    requires forall u :: Level(lo1, u) - Level(lo0, u) <= Level(hi1, u) - Level(hi0, u)
    ensures Score(lo1) - Score(lo0) <= Score(hi1) - Score(hi0)
  {
    var us := Users(hi1) + Users(hi0) + Users(lo1) + Users(lo0);
    ScoreOver(hi1, us);
    ScoreOver(hi0, us);
    ScoreOver(lo1, us);
    ScoreOver(lo0, us);
    SumDiff(us, LevelOf(hi1), LevelOf(hi0), LevelOf(lo1), LevelOf(lo0));
  }

  lemma ScoreEmpty()
    ensures Score([]) == 0
  {
    assert Users([]) == {};
  }

  /** The score depends only on which discussions are present: more can only raise it. */
  lemma ScoreMonotone(xs: seq<Disc>, ys: seq<Disc>)
    requires forall d :: d in xs ==> d in ys
    ensures 0 <= Score(xs) <= Score(ys)
  {
    forall u ensures 0 <= Level(xs, u) <= Level(ys, u) {
      LevelSubset(xs, ys, u);
    }
    ScoreDiff(ys, xs, [], []);
    ScoreEmpty();
    ScoreDiff(xs, [], [], []);
  }

  lemma ScoreNonNegative(ds: seq<Disc>)
    ensures 0 <= Score(ds)
  {
    ScoreMonotone(ds, ds);
  }

  /** Neither the order of the discussions nor repetition matters. */
  lemma ScoreOrderIrrelevant(xs: seq<Disc>, ys: seq<Disc>)
    requires forall d :: d in xs <==> d in ys
    ensures Score(xs) == Score(ys)
    ensures forall h :: Delta(xs, h) == Delta(ys, h)
  {
    ScoreMonotone(xs, ys);
    ScoreMonotone(ys, xs);
    forall h ensures Delta(xs, h) == Delta(ys, h) {
      ScoreMonotone(xs + [h], ys + [h]);
      ScoreMonotone(ys + [h], xs + [h]);
    }
  }

  /** Diminishing returns: the more a slot already holds, the less a newcomer adds. */
  lemma DiminishingReturns(xs: seq<Disc>, ys: seq<Disc>, hyp: Disc)
    requires forall d :: d in xs ==> d in ys
    ensures 0 <= Delta(ys, hyp) <= Delta(xs, hyp)
  {
    forall u ensures Level(ys + [hyp], u) - Level(ys, u) <= Level(xs + [hyp], u) - Level(xs, u) {
      LevelSubset(xs, ys, u);
      LevelSnoc(xs, hyp, u);
      LevelSnoc(ys, hyp, u);
    }
    ScoreDiff(xs + [hyp], xs, ys + [hyp], ys);
    ScoreMonotone(ys, ys + [hyp]);
  }

  /** Placing d on top of a superset of base costs no more than d's worth to base, however often d appears. */
  lemma AppendBound(base: seq<Disc>, before: seq<Disc>, after: seq<Disc>, d: Disc)
    requires forall x :: x in base ==> x in before
    requires forall x :: x in after ==> x in before || x == d
    ensures Score(after) <= Score(before) + Delta(base, d)
  {
    forall x | x in after ensures x in before + [d] {}
    ScoreMonotone(after, before + [d]);
    DiminishingReturns(base, before, d);
  }

  // ----- one discussion on its own

  function SumRows(rows: seq<Interest>): int {
    if rows == [] then 0 else SumRows(rows[..|rows| - 1]) + rows[|rows| - 1].level
  }

  /** One non-negative row per user, and maxInterest their sum: what the schema and the snapshot give. */
  ghost predicate WellFormed(d: Disc) {
    && (forall i, j :: 0 <= i < j < |d.interest| ==> d.interest[i].user != d.interest[j].user)
    && (forall i :: 0 <= i < |d.interest| ==> 0 <= d.interest[i].level)
    && d.maxInterest == SumRows(d.interest)
  }

  ghost function TopOf(rows: seq<Interest>): UserID -> int {
    u => Top(rows, u)
  }

  lemma {:induction false} SumRowsIsSumTop(rows: seq<Interest>)
    requires forall i, j :: 0 <= i < j < |rows| ==> rows[i].user != rows[j].user
    requires forall i :: 0 <= i < |rows| ==> 0 <= rows[i].level
    ensures SumRows(rows) == SumSet(RowUsers(rows), TopOf(rows))
  {
    if rows != [] {
      var front, last := rows[..|rows| - 1], rows[|rows| - 1];
      SumRowsIsSumTop(front);
      assert rows == front + [last];
      assert RowUsers(rows) - {last.user} == RowUsers(front);
      SumRemove(RowUsers(rows), TopOf(rows), last.user);
      TopWitness(front, last.user);
      SumCong(RowUsers(front), TopOf(rows), TopOf(front));
    }
  }

  /** A discussion alone in a slot scores exactly its MaxInterest. */
  lemma ScoreAlone(d: Disc)
    requires WellFormed(d)
    ensures Score([d]) == d.maxInterest
  {
    assert Users([d]) == RowUsers(d.interest) by {
      forall u | u in RowUsers(d.interest) ensures u in Users([d]) {
        var j :| 0 <= j < |d.interest| && d.interest[j].user == u;
        assert [d][0].interest[j].user == u;
      }
    }
    SumRowsIsSumTop(d.interest);
    forall u ensures Level([d], u) == Top(d.interest, u) {
      assert [d] == [] + [d];
      LevelSnoc([], d, u);
    }
    SumCong(Users([d]), LevelOf([d]), TopOf(d.interest));
  }

  /** A newcomer never adds more than its MaxInterest. */
  lemma DeltaAtMostMaxInterest(ds: seq<Disc>, d: Disc)
    requires WellFormed(d)
    ensures 0 <= Delta(ds, d) <= d.maxInterest
  {
    ScoreAlone(d);
    DiminishingReturns([], ds, d);
    assert [] + [d] == [d];
    ScoreEmpty();
  }

  // ----- the code

  ghost function Lookup(m: map<UserID, int>): UserID -> int {
    u => if u in m then m[u] else 0
  }

  function Get(m: map<UserID, int>, u: UserID): int {
    if u in m then m[u] else 0
  }

  method AddDiscussionInterest(userMaxInt: map<UserID, int>, disc: Disc) returns (r: map<UserID, int>)
    requires forall u :: u in userMaxInt ==> 0 <= userMaxInt[u]
    ensures forall u :: Get(r, u) == Max(Get(userMaxInt, u), Top(disc.interest, u))
    ensures forall u :: u in r ==> 0 <= r[u]
  {
    r := userMaxInt;
    for j := 0 to |disc.interest|
      invariant forall u :: Get(r, u) == Max(Get(userMaxInt, u), Top(disc.interest[..j], u))
      invariant forall u :: u in r ==> 0 <= r[u]
    {
      assert disc.interest[..j + 1][..j] == disc.interest[..j];
      var ui := disc.interest[j];
      if ui.level > Get(r, ui.user) {
        r := r[ui.user := ui.level];
      }
    }
    assert disc.interest[..|disc.interest|] == disc.interest;
  }

  /** Ranges over the map in an arbitrary order, as the Go runtime does. */
  method SumValues(m: map<UserID, int>) returns (sum: int)
    ensures sum == SumSet(m.Keys, Lookup(m))
  {
    sum := 0;
    var left := m.Keys;
    while left != {}
      invariant left <= m.Keys
      invariant sum + SumSet(left, Lookup(m)) == SumSet(m.Keys, Lookup(m))
      decreases |left|
    {
      var u :| u in left;
      SumRemove(left, Lookup(m), u);
      sum := sum + m[u];
      left := left - {u};
    }
  }

  lemma MapScore(m: map<UserID, int>, ds: seq<Disc>)
    requires forall u :: Get(m, u) == Level(ds, u)
    ensures SumSet(m.Keys, Lookup(m)) == Score(ds)
  {
    var us := m.Keys + Users(ds);
    ScoreOver(ds, us);
    SumWiden(m.Keys, us, Lookup(m));
    SumCong(us, Lookup(m), LevelOf(ds));
  }

  method ScoreSlotDelta(discussions: seq<Disc>, hyp: Disc) returns (delta: int)
    ensures delta == Delta(discussions, hyp)
    ensures 0 <= delta
  {
    var userMaxInt: map<UserID, int> := map[];
    for i := 0 to |discussions|
      invariant forall u :: Get(userMaxInt, u) == Level(discussions[..i], u)
      invariant forall u :: u in userMaxInt ==> 0 <= userMaxInt[u]
    {
      assert discussions[..i + 1][..i] == discussions[..i];
      userMaxInt := AddDiscussionInterest(userMaxInt, discussions[i]);
    }
    assert discussions[..|discussions|] == discussions;
    var pre := SumValues(userMaxInt);
    MapScore(userMaxInt, discussions);
    userMaxInt := AddDiscussionInterest(userMaxInt, hyp);
    var post := SumValues(userMaxInt);
    forall u ensures Get(userMaxInt, u) == Level(discussions + [hyp], u) {
      LevelSnoc(discussions, hyp, u);
    }
    MapScore(userMaxInt, discussions + [hyp]);
    DiminishingReturns(discussions, discussions, hyp);
    delta := post - pre;
  }
}
