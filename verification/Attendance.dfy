/**
 The timetable's own attendance scores: everyone goes to the discussions of the slot that they want
 most, and each of those discussions is credited with their interest.
 */
module Attendance {
  import opened Ids
  import opened Sums
  import opened Scoring
  import opened Store
  import opened Snapshot
  import opened Worth

  /** One row of interest joined with schedule, slots and locations. */
  datatype IntRow = IntRow(user: UserID, disc: DiscussionID, interest: int, location: LocationID)

  predicate AtPosition(t: Tables, s: SlotID, day: DayID, idx: int) {
    s in t.slots && t.slots[s].dayID == day && t.slots[s].slotIdx == idx
  }

  /** The rows for the slot at a given position. */
  function IntJoin(t: Tables, day: DayID, idx: int): set<IntRow> {
    set k, r |
      && k in t.interest && r in t.schedule && t.schedule[r] == k.1
      && AtPosition(t, r.0, day, idx) && r.1 in t.locations
      :: IntRow(k.0, k.1, t.interest[k], r.1)
  }

  predicate IsTop(rows: set<IntRow>, x: IntRow) {
    x in rows && forall y :: y in rows && y.user == x.user ==> y.interest <= x.interest
  }

  /** The rows that attain their user's maximum. */
  function MaxInt(rows: set<IntRow>): set<IntRow> {
    set x | x in rows && IsTop(rows, x)
  }

  function DiscGroup(rows: set<IntRow>, d: DiscussionID): set<IntRow> {
    set x | x in rows && x.disc == d
  }

  function Discs(rows: set<IntRow>): set<DiscussionID> {
    set x | x in rows :: x.disc
  }

  ghost function InterestOf(): IntRow -> int {
    (x: IntRow) => x.interest
  }

  /** The score that the timetable shows for d. */
  ghost function ShownScore(rows: set<IntRow>): DiscussionID -> int {
    d => SumSet(DiscGroup(MaxInt(rows), d), InterestOf())
  }

  /** The scores shown for a whole slot, added up. */
  ghost function ShownTotal(rows: set<IntRow>): int {
    SumSet(Discs(MaxInt(rows)), ShownScore(rows))
  }

  // ----- sums by group

  ghost function Group<T(!new), K(!new)>(s: set<T>, key: T -> K, k: K): set<T> {
    set x | x in s && key(x) == k
  }

  ghost function KeysOf<T(!new), K(!new)>(s: set<T>, key: T -> K): set<K> {
    set x | x in s :: key(x)
  }

  ghost function GroupSum<T(!new), K(!new)>(s: set<T>, key: T -> K, f: T -> int): K -> int {
    k => SumSet(Group(s, key, k), f)
  }

  /** Taking one group away leaves the other keys and their groups. */
  lemma WithoutGroup<T(!new), K(!new)>(s: set<T>, key: T -> K, k: K)
    requires k in KeysOf(s, key)
    ensures |s - Group(s, key, k)| < |s|
    ensures KeysOf(s - Group(s, key, k), key) == KeysOf(s, key) - {k}
    ensures forall j :: j != k ==> Group(s - Group(s, key, k), key, j) == Group(s, key, j)
  {
    var x :| x in s && key(x) == k;
    assert x in Group(s, key, k);
    SubsetSmaller(s - Group(s, key, k), s);
  }

  lemma {:induction false} SumByGroup<T(!new), K(!new)>(s: set<T>, key: T -> K, f: T -> int)
    ensures SumSet(s, f) == SumSet(KeysOf(s, key), GroupSum(s, key, f))
    decreases |s|
  {
    if s == {} {
      assert KeysOf(s, key) == {};
    } else {
      var k := key(Pick(s));
      assert k in KeysOf(s, key);
      var group := Group(s, key, k);
      var rest := s - group;
      WithoutGroup(s, key, k);
      SumSplit(s, group, rest, f);
      SumByGroup(rest, key, f);
      SumRemove(KeysOf(s, key), GroupSum(s, key, f), k);
      SumCong(KeysOf(rest, key), GroupSum(s, key, f), GroupSum(rest, key, f));
    }
  }

  lemma SubsetSmaller<T>(a: set<T>, b: set<T>)
    requires a < b
    ensures |a| < |b|
  {
    assert b == a + (b - a);
    assert |b| == |a| + |b - a|;
  }

  /** Sums that are ordered pointwise, and strictly somewhere, are strictly ordered. */
  lemma SumStrict<T>(s: set<T>, lo: T -> int, hi: T -> int, x: T)
    requires x in s && lo(x) < hi(x)
    requires forall y :: y in s ==> lo(y) <= hi(y)
    ensures SumSet(s, lo) < SumSet(s, hi)
  {
    SumRemove(s, lo, x);
    SumRemove(s, hi, x);
    SumMono(s - {x}, lo, hi);
  }

  lemma SumNonNegative<T>(s: set<T>, f: T -> int)
    requires forall x :: x in s ==> 0 <= f(x)
    ensures 0 <= SumSet(s, f)
  {
    SumMono(s, _ => 0, f);
    SumZero(s, _ => 0);
  }

  /** Copies of one positive value add up to it only if there is just one copy. */
  lemma SumOfCopies<T(!new)>(s: set<T>, f: T -> int, c: int, x: T)
    requires x in s && 0 < c && forall y :: y in s ==> f(y) == c
    ensures c <= SumSet(s, f)
    ensures c == SumSet(s, f) <==> s == {x}
  {
    SumRemove(s, f, x);
    SumNonNegative(s - {x}, f);
    if s != {x} {
      assert s - {x} != {};
      var y :| y in s - {x};
      SumRemove(s - {x}, f, y);
      SumNonNegative(s - {x} - {y}, f);
    } else {
      assert s - {x} == {};
    }
  }

  // ----- the two scorers

  ghost function UserOf(): IntRow -> UserID {
    (x: IntRow) => x.user
  }

  ghost function DiscOf(): IntRow -> DiscussionID {
    (x: IntRow) => x.disc
  }

  /** ds records, in any order, the discussions scheduled in slot s. */
  ghost predicate Describes(t: Tables, s: SlotID, ds: seq<Disc>) {
    RecordsAll(t, DiscussionsAt(t.schedule, s), ds)
  }

  ghost predicate PositiveInterest(t: Tables) {
    forall k :: k in t.interest ==> 0 < t.interest[k]
  }

  /** No discussion has two rows in slot s. */
  ghost predicate OncePerSlot(t: Tables, s: SlotID) {
    forall k, l :: k in t.schedule && l in t.schedule && k.0 == l.0 == s && t.schedule[k] == t.schedule[l] ==> k == l
  }

  /** Some user's highest interest in the slot is shared by two of its discussions. */
  ghost predicate TopShared(rows: set<IntRow>) {
    exists x, y :: IsTop(rows, x) && IsTop(rows, y) && x.user == y.user && x.disc != y.disc
  }

  /** The joined rows of slot s, found by its position. */
  ghost function RowsOf(t: Tables, s: SlotID): set<IntRow>
    requires s in t.slots
  {
    IntJoin(t, t.slots[s].dayID, t.slots[s].slotIdx)
  }

  /** A joined row comes from an interest row and a schedule row of the slot. */
  lemma RowOrigin(t: Database, s: SlotID, x: IntRow)
    requires s in t.slots && x in RowsOf(t, s)
    ensures (x.user, x.disc) in t.interest && t.interest[(x.user, x.disc)] == x.interest
    ensures (s, x.location) in t.schedule && t.schedule[(s, x.location)] == x.disc
  {
    var day, idx := t.slots[s].dayID, t.slots[s].slotIdx;
    var k, r :| k in t.interest && r in t.schedule && t.schedule[r] == k.1 && AtPosition(t, r.0, day, idx)
      && r.1 in t.locations && x == IntRow(k.0, k.1, t.interest[k], r.1);
    assert SamePosition(t.slots[r.0], t.slots[s]);
    assert k == (x.user, x.disc) && r == (s, x.location);
  }

  lemma RowExists(t: Database, s: SlotID, u: UserID, d: DiscussionID) returns (x: IntRow)
    requires s in t.slots && d in DiscussionsAt(t.schedule, s) && (u, d) in t.interest
    ensures x in RowsOf(t, s) && x.user == u && x.disc == d && x.interest == t.interest[(u, d)]
  {
    var r :| r in t.schedule && r.0 == s && t.schedule[r] == d;
    var k := (u, d);
    assert AtPosition(t, r.0, t.slots[s].dayID, t.slots[s].slotIdx) && r.1 in t.locations;
    x := IntRow(k.0, k.1, t.interest[k], r.1);
  }

  /** A user's level in the slot bounds that user's rows. */
  lemma RowsBelowLevel(t: Database, s: SlotID, ds: seq<Disc>, x: IntRow)
    requires PositiveInterest(t) && s in t.slots && Describes(t, s, ds) && x in RowsOf(t, s)
    ensures 0 < x.interest <= Level(ds, x.user)
  {
    RowOrigin(t, s, x);
    hide RowsOf;
    assert x.disc in DiscussionsAt(t.schedule, s);
    var d :| d in ds && d.id == x.disc;
    LevelWitness(ds, x.user);
    TopWitness(d.interest, x.user);
    assert Interest(x.user, x.interest) in d.interest;
  }

  /** ... and is attained by one of them. */
  lemma LevelAttained(t: Database, s: SlotID, ds: seq<Disc>, u: UserID) returns (x: IntRow)
    requires PositiveInterest(t) && s in t.slots && Describes(t, s, ds) && Level(ds, u) > 0
    ensures x in RowsOf(t, s) && x.user == u && x.interest == Level(ds, u)
  {
    hide RowsOf;
    LevelWitness(ds, u);
    var d :| d in ds && Top(d.interest, u) == Level(ds, u);
    TopWitness(d.interest, u);
    assert Interest(u, Level(ds, u)) in d.interest;
    x := RowExists(t, s, u, d.id);
  }

  /** Grouping by discussion and grouping by user add up the same rows. */
  lemma ShownTotalByUser(rows: set<IntRow>)
    ensures ShownTotal(rows) == SumSet(KeysOf(MaxInt(rows), UserOf()), GroupSum(MaxInt(rows), UserOf(), InterestOf()))
  {
    var top := MaxInt(rows);
    SumByGroup(top, DiscOf(), InterestOf());
    SumByGroup(top, UserOf(), InterestOf());
    assert KeysOf(top, DiscOf()) == Discs(top);
    forall d ensures DiscGroup(top, d) == Group(top, DiscOf(), d) {}
    SumCong(Discs(top), ShownScore(rows), GroupSum(top, DiscOf(), InterestOf()));
  }

  /** For one user: the credited interests are at least the level, and equal to it iff there is one top row. */
  lemma CreditOfUser(t: Database, s: SlotID, ds: seq<Disc>, x: IntRow)
    requires PositiveInterest(t) && s in t.slots && Describes(t, s, ds) && x in MaxInt(RowsOf(t, s))
    ensures
      var top := MaxInt(RowsOf(t, s));
      var credit := GroupSum(top, UserOf(), InterestOf())(x.user);
      Level(ds, x.user) <= credit && (Level(ds, x.user) == credit <==> Group(top, UserOf(), x.user) == {x})
  {
    hide RowsOf;
    var rows := RowsOf(t, s);
    RowsBelowLevel(t, s, ds, x);
    var best := LevelAttained(t, s, ds, x.user);
    var group := Group(MaxInt(rows), UserOf(), x.user);
    forall y | y in group ensures y.interest == Level(ds, x.user) {
      RowsBelowLevel(t, s, ds, y);
      assert IsTop(rows, y) && best.interest <= y.interest;
    }
    SumOfCopies(group, InterestOf(), Level(ds, x.user), x);
  }

  /** The users with a top row are exactly those with a positive level. */
  lemma TopUsers(t: Database, s: SlotID, ds: seq<Disc>, u: UserID)
    requires PositiveInterest(t) && s in t.slots && Describes(t, s, ds)
    ensures u in KeysOf(MaxInt(RowsOf(t, s)), UserOf()) <==> Level(ds, u) > 0
  {
    hide RowsOf;
    var rows := RowsOf(t, s);
    if u in KeysOf(MaxInt(rows), UserOf()) {
      var x :| x in MaxInt(rows) && x.user == u;
      RowsBelowLevel(t, s, ds, x);
    }
    if Level(ds, u) > 0 {
      var best := LevelAttained(t, s, ds, u);
      forall y | y in rows && y.user == u ensures y.interest <= best.interest {
        RowsBelowLevel(t, s, ds, y);
      }
      assert best in MaxInt(rows);
    }
  }

  lemma ScoreOverTopUsers(t: Database, s: SlotID, ds: seq<Disc>)
    requires PositiveInterest(t) && s in t.slots && Describes(t, s, ds)
    ensures Score(ds) == SumSet(KeysOf(MaxInt(RowsOf(t, s)), UserOf()), LevelOf(ds))
  {
    var us := KeysOf(MaxInt(RowsOf(t, s)), UserOf());
    var wide := us + Users(ds);
    ScoreOver(ds, wide);
    forall u | u in wide && u !in us ensures LevelOf(ds)(u) == 0 {
      TopUsers(t, s, ds, u);
    }
    SumWiden(us, wide, LevelOf(ds));
  }

  /** With each discussion at most once in the slot, two top rows of one user are for different discussions. */
  lemma LoneTopRow(t: Database, s: SlotID, x: IntRow)
    requires OncePerSlot(t, s) && s in t.slots && x in MaxInt(RowsOf(t, s)) && !TopShared(RowsOf(t, s))
    ensures Group(MaxInt(RowsOf(t, s)), UserOf(), x.user) == {x}
  {
    hide RowsOf;
    forall y | y in Group(MaxInt(RowsOf(t, s)), UserOf(), x.user) ensures y == x {
      RowOrigin(t, s, x);
      RowOrigin(t, s, y);
      assert x.disc == y.disc;
      assert (s, x.location) == (s, y.location);
    }
  }

  /**
   The two scorers compared: the scores shown for a slot add up to at least the scheduler's score of
   the slot, and to exactly that if and only if nobody's highest interest there is shared by two
   discussions.
   */
  lemma ShownVersusScheduled(t: Database, s: SlotID, ds: seq<Disc>)
    requires PositiveInterest(t) && OncePerSlot(t, s) && s in t.slots && Describes(t, s, ds)
    ensures Score(ds) <= ShownTotal(RowsOf(t, s))
    ensures Score(ds) == ShownTotal(RowsOf(t, s)) <==> !TopShared(RowsOf(t, s))
  {
    hide RowsOf, Describes, PositiveInterest, OncePerSlot, Score, ShownTotal;
    var rows := RowsOf(t, s);
    var us, credit := KeysOf(MaxInt(rows), UserOf()), GroupSum(MaxInt(rows), UserOf(), InterestOf());
    ShownTotalByUser(rows);
    ScoreOverTopUsers(t, s, ds);
    forall u | u in us ensures LevelOf(ds)(u) <= credit(u) {
      var x :| x in MaxInt(rows) && x.user == u;
      CreditOfUser(t, s, ds, x);
    }
    SumMono(us, LevelOf(ds), credit);
    if TopShared(rows) {
      var x, y :| IsTop(rows, x) && IsTop(rows, y) && x.user == y.user && x.disc != y.disc;
      assert y in Group(MaxInt(rows), UserOf(), x.user);
      CreditOfUser(t, s, ds, x);
      SumStrict(us, LevelOf(ds), credit, x.user);
    } else {
      forall u | u in us ensures LevelOf(ds)(u) == credit(u) {
        var x :| x in MaxInt(rows) && x.user == u;
        CreditOfUser(t, s, ds, x);
        LoneTopRow(t, s, x);
      }
      SumCong(us, LevelOf(ds), credit);
    }
  }

  // ----- attendance, read off the tables

  /** Discussion d is in slot s, and nothing there interests user u more. */
  ghost predicate Attends(t: Tables, s: SlotID, d: DiscussionID, u: UserID) {
    && d in DiscussionsAt(t.schedule, s) && (u, d) in t.interest
    && forall e :: e in DiscussionsAt(t.schedule, s) && (u, e) in t.interest ==>
      t.interest[(u, e)] <= t.interest[(u, d)]
  }

  ghost function Attendees(t: Tables, s: SlotID, d: DiscussionID): set<UserID> {
    set k | k in t.interest && Attends(t, s, d, k.0) :: k.0
  }

  lemma {:induction false} InjectiveSize<T(!new), K(!new)>(s: set<T>, key: T -> K)
    requires forall x, y :: x in s && y in s && key(x) == key(y) ==> x == y
    ensures |KeysOf(s, key)| == |s|
    decreases |s|
  {
    if s == {} {
      assert KeysOf(s, key) == {};
    } else {
      var x := Pick(s);
      InjectiveSize(s - {x}, key);
      assert KeysOf(s, key) == KeysOf(s - {x}, key) + {key(x)};
    }
  }

  lemma InjectiveSum<T(!new), K(!new)>(s: set<T>, key: T -> K, f: T -> int, g: K -> int)
    requires forall x, y :: x in s && y in s && key(x) == key(y) ==> x == y
    requires forall x :: x in s ==> f(x) == g(key(x))
    ensures SumSet(s, f) == SumSet(KeysOf(s, key), g)
  {
    SumByGroup(s, key, f);
    forall k | k in KeysOf(s, key) ensures GroupSum(s, key, f)(k) == g(k) {
      var x :| x in s && key(x) == k;
      assert Group(s, key, k) == {x};
      SumRemove({x}, f, x);
      assert {x} - {x} == {};
    }
    SumCong(KeysOf(s, key), GroupSum(s, key, f), g);
  }

  /** The top rows for d are, one each, those who attend it. */
  lemma TopRowsAreAttendees(t: Database, s: SlotID, d: DiscussionID)
    requires s in t.slots && OncePerSlot(t, s)
    ensures
      var group := DiscGroup(MaxInt(RowsOf(t, s)), d);
      && KeysOf(group, UserOf()) == Attendees(t, s, d)
      && (forall x, y :: x in group && y in group && UserOf()(x) == UserOf()(y) ==> x == y)
      && (forall x :: x in group ==> x.interest == InterestIn(t, d)(x.user))
  {
    hide RowsOf, Integrity;
    var rows := RowsOf(t, s);
    var group := DiscGroup(MaxInt(rows), d);
    forall x | x in group
      ensures Attends(t, s, d, x.user) && x.user in Attendees(t, s, d) && x.interest == InterestIn(t, d)(x.user)
      ensures (s, x.location) in t.schedule && t.schedule[(s, x.location)] == d
    {
      RowOrigin(t, s, x);
      forall e | e in DiscussionsAt(t.schedule, s) && (x.user, e) in t.interest
        ensures t.interest[(x.user, e)] <= t.interest[(x.user, d)]
      {
        var y := RowExists(t, s, x.user, e);
      }
      assert (x.user, d) in t.interest;
    }
    forall x, y | x in group && y in group && x.user == y.user ensures x == y {
      assert (s, x.location) == (s, y.location);
    }
    forall u | u in Attendees(t, s, d) ensures u in KeysOf(group, UserOf()) {
      assert Attends(t, s, d, u);
      var x := RowExists(t, s, u, d);
      forall y | y in rows && y.user == u ensures y.interest <= x.interest {
        RowOrigin(t, s, y);
        assert y.disc in DiscussionsAt(t.schedule, s);
      }
      assert x in group;
    }
  }

  /** The number and the interest of those whom nothing in the slot interests more. */
  lemma ShownIsAttendance(t: Database, s: SlotID, d: DiscussionID)
    requires s in t.slots && OncePerSlot(t, s)
    ensures |DiscGroup(MaxInt(RowsOf(t, s)), d)| == |Attendees(t, s, d)|
    ensures ShownScore(RowsOf(t, s))(d) == SumSet(Attendees(t, s, d), InterestIn(t, d))
    ensures d in Discs(MaxInt(RowsOf(t, s))) <==> Attendees(t, s, d) != {}
  {
    TopRowsAreAttendees(t, s, d);
    hide RowsOf, Attends, Attendees, Integrity, OncePerSlot;
    var group := DiscGroup(MaxInt(RowsOf(t, s)), d);
    InjectiveSize(group, UserOf());
    InjectiveSum(group, UserOf(), InterestOf(), InterestIn(t, d));
    if d in Discs(MaxInt(RowsOf(t, s))) {
      var x :| x in MaxInt(RowsOf(t, s)) && x.disc == d;
      assert x in group && x.user in KeysOf(group, UserOf());
    }
    if Attendees(t, s, d) != {} {
      var u :| u in KeysOf(group, UserOf());
      var x :| x in group && x.user == u;
    }
  }
}
