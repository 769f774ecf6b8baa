/** What the scheduler reads: possible slots decoded, interests listed, discussions not in locked slots. */
module Snapshot {
  import opened Ids
  import opened Sums
  import opened Scoring
  import opened Scheduler
  import opened Store
  import opened Queries

  predicate Schedulable(s: Slot) {
    !s.isBreak && !s.isLocked
  }

  function SchedulableSlots(t: Tables): set<SlotID> {
    set s | s in t.slots && Schedulable(t.slots[s])
  }

  /** The stored restriction of a discussion; empty means that every slot is possible. */
  function Restriction(t: Tables, d: DiscussionID): set<SlotID> {
    set p | p in t.possible && p.0 == d :: p.1
  }

  /** The slots the scheduler may use for d, or an error when a restriction leaves none. */
  function SnapshotPossible(t: Tables, d: DiscussionID): Outcome<set<SlotID>> {
    if Restriction(t, d) == {} then Ok(SchedulableSlots(t))
    else if Restriction(t, d) * SchedulableSlots(t) == {} then Err(Refused)
    else Ok(Restriction(t, d) * SchedulableSlots(t))
  }

  /** Schedule order of slots. */
  predicate Before(a: Slot, b: Slot) {
    a.dayID < b.dayID || (a.dayID == b.dayID && a.slotIdx <= b.slotIdx)
  }

  predicate PositionLeq(slots: map<SlotID, Slot>, a: SlotID, b: SlotID) {
    a in slots && b in slots && Before(slots[a], slots[b])
  }

  /** Selects slots ordered by day and index. */
  method SelectByPosition(slots: map<SlotID, Slot>, s: set<SlotID>) returns (q: seq<SlotID>)
    requires s <= slots.Keys
    ensures Lists(q, s)
    ensures forall i, j :: 0 <= i < j < |q| ==> q[i] in slots && q[j] in slots
    ensures forall i, j :: 0 <= i < j < |q| ==> slots[q[i]].dayID <= slots[q[j]].dayID
    ensures forall i, j :: 0 <= i < j < |q| && slots[q[i]].dayID == slots[q[j]].dayID ==>
      slots[q[i]].slotIdx <= slots[q[j]].slotIdx
  {
    q := SelectOrdered(s, (a, b) => PositionLeq(slots, a, b));
  }

  /** The interest rows of discussion d, in some order. */
  ghost predicate ListsInterest(t: Tables, d: DiscussionID, rows: seq<Interest>) {
    && (forall i, j :: 0 <= i < j < |rows| ==> rows[i].user != rows[j].user)
    && (forall r :: r in rows ==> (r.user, d) in t.interest && t.interest[(r.user, d)] == r.level)
    && (forall k :: k in t.interest && k.1 == d ==> Interest(k.0, t.interest[k]) in rows)
  }

  /** x holds what the tables say about discussion d. */
  ghost predicate Records(t: Tables, d: DiscussionID, x: Disc) {
    && d in t.discussions
    && x.id == d && x.owner == t.discussions[d].owner
    && SnapshotPossible(t, d) == Ok(x.possible)
    && ListsInterest(t, d, x.interest)
    && x.maxInterest == SumRows(x.interest)
  }

  /** One row of discussions left-joined with schedule and slots. */
  datatype JoinRow = JoinRow(id: DiscussionID, at: Option<RowKey>)

  predicate HasRow(t: Tables, d: DiscussionID) {
    exists k :: k in t.schedule && t.schedule[k] == d
  }

  /** Discussions without a schedule row, and one row per schedule row in an unlocked slot. */
  function JoinRows(t: Tables): set<JoinRow>
    requires ForeignKeys(t)
  {
    (set d | d in t.discussions && !HasRow(t, d) :: JoinRow(d, None))
    + (set k | k in t.schedule && !t.slots[k.0].isLocked :: JoinRow(t.schedule[k], Some(k)))
  }

  /** d is among the discussions to be scheduled. */
  ghost predicate Joined(t: Tables, d: DiscussionID)
    requires ForeignKeys(t)
  {
    exists r :: r in JoinRows(t) && r.id == d
  }

  predicate HasNonPublic(t: Tables) {
    exists d :: d in t.discussions && !t.discussions[d].isPublic
  }

  /** d has no row, or one in a slot that is not locked. */
  ghost predicate ToBeScheduled(t: Tables, d: DiscussionID)
    requires ForeignKeys(t)
  {
    && d in t.discussions
    && ((forall k :: k in t.schedule ==> t.schedule[k] != d)
      || exists k :: k in t.schedule && t.schedule[k] == d && !t.slots[k.0].isLocked)
  }

  /** d is restricted, and only to breaks and locked slots. */
  ghost predicate LeftWithoutSlots(t: Tables, d: DiscussionID)
    requires ForeignKeys(t)
  {
    && (exists p :: p in t.possible && p.0 == d)
    && forall p :: p in t.possible && p.0 == d ==> t.slots[p.1].isBreak || t.slots[p.1].isLocked
  }

  /** A discussion is not public, there is no slot to use, or a discussion to be scheduled is left without one. */
  ghost predicate SnapshotFails(t: Tables)
    requires ForeignKeys(t)
  {
    || (exists d :: d in t.discussions && !t.discussions[d].isPublic)
    || (forall s :: s in t.slots ==> t.slots[s].isBreak || t.slots[s].isLocked)
    || exists d :: ToBeScheduled(t, d) && LeftWithoutSlots(t, d)
  }

  lemma LeftWithoutIsError(t: Tables, d: DiscussionID)
    requires ForeignKeys(t)
    ensures SnapshotPossible(t, d).Err? <==> LeftWithoutSlots(t, d)
  {
    forall s ensures s in Restriction(t, d) <==> (d, s) in t.possible {
      if (d, s) in t.possible {
        assert (d, s).0 == d;
      }
    }
    if LeftWithoutSlots(t, d) {
      var p :| p in t.possible && p.0 == d;
      assert p.1 in Restriction(t, d);
      forall s | s in Restriction(t, d) ensures s !in SchedulableSlots(t) {
        assert (d, s) in t.possible;
      }
      assert Restriction(t, d) * SchedulableSlots(t) == {};
    }
    if SnapshotPossible(t, d).Err? {
      var s :| s in Restriction(t, d);
      forall p | p in t.possible && p.0 == d ensures t.slots[p.1].isBreak || t.slots[p.1].isLocked {
        assert p.1 in Restriction(t, d);
        assert p.1 !in Restriction(t, d) * SchedulableSlots(t);
      }
    }
  }

  lemma JoinedIsToBeScheduled(t: Tables, d: DiscussionID)
    requires ForeignKeys(t)
    ensures Joined(t, d) <==> ToBeScheduled(t, d)
  {
    if ToBeScheduled(t, d) {
      if exists k :: k in t.schedule && t.schedule[k] == d && !t.slots[k.0].isLocked {
        var k :| k in t.schedule && t.schedule[k] == d && !t.slots[k.0].isLocked;
        assert JoinRow(d, Some(k)) in JoinRows(t);
      } else {
        assert JoinRow(d, None) in JoinRows(t);
      }
    }
  }

  /** What the snapshot's queries find is what the tables say. */
  lemma FailureIsFound(t: Tables)
    requires ForeignKeys(t)
    ensures SnapshotFails(t) <==>
      HasNonPublic(t) || SchedulableSlots(t) == {} || exists r :: r in JoinRows(t) && SnapshotPossible(t, r.id).Err?
  {
    forall d ensures SnapshotPossible(t, d).Err? <==> LeftWithoutSlots(t, d) {
      LeftWithoutIsError(t, d);
    }
    forall d ensures Joined(t, d) <==> ToBeScheduled(t, d) {
      JoinedIsToBeScheduled(t, d);
    }
    hide JoinRows, SnapshotPossible, LeftWithoutSlots, ToBeScheduled, ForeignKeys;
    assert SchedulableSlots(t) == {} <==> forall s :: s in t.slots ==> t.slots[s].isBreak || t.slots[s].isLocked by {
      assert forall s :: s in SchedulableSlots(t) <==> s in t.slots && !t.slots[s].isBreak && !t.slots[s].isLocked;
    }
    if exists d :: ToBeScheduled(t, d) && LeftWithoutSlots(t, d) {
      var d :| ToBeScheduled(t, d) && LeftWithoutSlots(t, d);
      assert Joined(t, d);
    }
    if exists r :: r in JoinRows(t) && SnapshotPossible(t, r.id).Err? {
      var r :| r in JoinRows(t) && SnapshotPossible(t, r.id).Err?;
      assert Joined(t, r.id);
    }
  }

  ghost predicate IsSnapshot(t: Tables, ss: SearchStore, rows: seq<JoinRow>)
    requires ForeignKeys(t)
  {
    && Lists(ss.slots, SchedulableSlots(t))
    && (forall i, j :: 0 <= i < j < |ss.slots| ==> PositionLeq(t.slots, ss.slots[i], ss.slots[j]))
    && Lists(ss.locations, t.locations)
    && Lists(rows, JoinRows(t)) && |rows| == |ss.discussions|
    && NoDup(ss.discussions)
    && forall i :: 0 <= i < |rows| ==> Records(t, rows[i].id, ss.discussions[i].info)
  }

  function InterestRow(t: Tables, k: (UserID, DiscussionID)): Interest
    requires k in t.interest
  {
    Interest(k.0, t.interest[k])
  }

  lemma InterestListed(t: Tables, d: DiscussionID, keys: seq<(UserID, DiscussionID)>, rows: seq<Interest>)
    requires Lists(keys, set k | k in t.interest && k.1 == d)
    requires |rows| == |keys|
    requires forall i :: 0 <= i < |keys| ==> keys[i] in t.interest && rows[i] == InterestRow(t, keys[i])
    ensures ListsInterest(t, d, rows)
  {
    forall i | 0 <= i < |keys| ensures keys[i] == (rows[i].user, d) {
      var k := keys[i];
      assert k in keys;
      assert k == (k.0, k.1);
    }
    forall k | k in t.interest && k.1 == d ensures Interest(k.0, t.interest[k]) in rows {
      assert k in keys;
      var i :| 0 <= i < |keys| && keys[i] == k;
      assert rows[i] == Interest(k.0, t.interest[k]);
    }
  }

  method SelectInterest(t: Tables, d: DiscussionID) returns (rows: seq<Interest>, maxInterest: int)
    ensures ListsInterest(t, d, rows)
    ensures maxInterest == SumRows(rows)
  {
    var keys := Select(set k | k in t.interest && k.1 == d);
    assert forall i :: 0 <= i < |keys| ==> keys[i] in keys;
    rows, maxInterest := [], 0;
    for i := 0 to |keys|
      invariant |rows| == i && forall j :: 0 <= j < i ==> rows[j] == InterestRow(t, keys[j])
      invariant maxInterest == SumRows(rows)
    {
      var row := InterestRow(t, keys[i]);
      assert (rows + [row])[..i] == rows;
      rows, maxInterest := rows + [row], maxInterest + row.level;
    }
    InterestListed(t, d, keys, rows);
  }

  /** What one row of the join contributes to the snapshot. */
  method RecordDiscussion(t: Tables, id: DiscussionID) returns (r: Outcome<Disc>)
    requires id in t.discussions
    ensures r.Err? <==> SnapshotPossible(t, id).Err?
    ensures r.Ok? ==> Records(t, id, r.value)
  {
    var possible := SnapshotPossible(t, id);
    if possible.Err? {
      return Err(Refused);
    }
    var interest, maxInterest := SelectInterest(t, id);
    r := Ok(Disc(id, t.discussions[id].owner, possible.value, interest, maxInterest));
  }

  lemma JoinRowsExist(t: Tables)
    requires ForeignKeys(t)
    ensures forall r :: r in JoinRows(t) ==> r.id in t.discussions
  {}

  method RecordAll(t: Tables, joined: seq<JoinRow>) returns (r: Outcome<seq<SearchDiscussion>>)
    requires forall i :: 0 <= i < |joined| ==> joined[i].id in t.discussions
    ensures r.Err? <==> exists i :: 0 <= i < |joined| && SnapshotPossible(t, joined[i].id).Err?
    ensures r.Ok? ==> |r.value| == |joined| && NoDup(r.value) && fresh(set d | d in r.value)
    ensures r.Ok? ==> forall i :: 0 <= i < |joined| ==> Records(t, joined[i].id, r.value[i].info)
  {
    hide Records, SnapshotPossible;
    var discussions: seq<SearchDiscussion> := [];
    for i := 0 to |joined|
      invariant |discussions| == i && NoDup(discussions)
      invariant fresh(set d | d in discussions)
      invariant forall j :: 0 <= j < i ==> Records(t, joined[j].id, discussions[j].info)
      invariant forall j :: 0 <= j < i ==> SnapshotPossible(t, joined[j].id).Ok?
    {
      var info := RecordDiscussion(t, joined[i].id);
      if info.Err? {
        return Err(Refused);
      }
      var d := new SearchDiscussion(info.value);
      discussions := discussions + [d];
    }
    r := Ok(discussions);
  }

  method MakeSnapshot(t: Database) returns (r: Outcome<SearchStore>, ghost rows: seq<JoinRow>)
    ensures r.Err? <==> SnapshotFails(t)
    ensures r.Ok? ==> forall d :: d in t.discussions ==> t.discussions[d].isPublic
    ensures r.Ok? ==> IsSnapshot(t, r.value, rows) && fresh(AllObjects(r.value))
    ensures r.Ok? ==> forall i :: 0 <= i < |r.value.slots| ==> r.value.slots[i] in t.slots
    ensures r.Ok? ==> forall i, j :: 0 <= i < j < |r.value.slots| ==>
      t.slots[r.value.slots[i]].dayID <= t.slots[r.value.slots[j]].dayID
    ensures r.Ok? ==> forall i, j :: 0 <= i < j < |r.value.slots| ==>
      || t.slots[r.value.slots[i]].dayID < t.slots[r.value.slots[j]].dayID
      || t.slots[r.value.slots[i]].slotIdx <= t.slots[r.value.slots[j]].slotIdx
  {
    FailureIsFound(t);
    hide JoinRows, Records, SnapshotPossible, SnapshotFails;
    rows := [];
    if HasNonPublic(t) {
      return Err(Refused), rows;
    }
    if SchedulableSlots(t) == {} {
      return Err(Refused), rows;
    }
    var slots := SelectByPosition(t.slots, SchedulableSlots(t));
    assert forall i :: 0 <= i < |slots| ==> slots[i] in slots;
    var locations := Select(t.locations);
    var joined := Select(JoinRows(t));
    rows := joined;
    JoinRowsExist(t);
    assert forall i :: 0 <= i < |joined| ==> joined[i] in joined;
    var recorded := RecordAll(t, joined);
    if recorded.Err? {
      return Err(recorded.error), rows;
    }
    forall row | row in JoinRows(t) ensures SnapshotPossible(t, row.id).Ok? {
      assert row in joined;
    }
    r := Ok(SearchStore(slots, recorded.value, locations));
  }

  // ----- interest totals

  ghost function InterestUsers(t: Tables, d: DiscussionID): set<UserID> {
    set k | k in t.interest && k.1 == d :: k.0
  }

  ghost function InterestIn(t: Tables, d: DiscussionID): UserID -> int {
    u => if (u, d) in t.interest then t.interest[(u, d)] else 0
  }

  /** The sum of all interests expressed in d, as the discussion's page reports it. */
  ghost function MaxScore(t: Tables, d: DiscussionID): int {
    SumSet(InterestUsers(t, d), InterestIn(t, d))
  }

  ghost predicate NonNegativeInterest(t: Tables) {
    forall k :: k in t.interest ==> 0 <= t.interest[k]
  }

  lemma TopIsInterest(t: Tables, d: DiscussionID, rows: seq<Interest>, u: UserID)
    requires ListsInterest(t, d, rows) && NonNegativeInterest(t)
    ensures Top(rows, u) == InterestIn(t, d)(u)
  {
    TopWitness(rows, u);
    if (u, d) in t.interest {
      assert Interest(u, t.interest[(u, d)]) in rows;
    }
  }

  /** Whatever order the rows come in, a recorded discussion is well formed and its MaxInterest is the MaxScore. */
  lemma MaxInterestIsMaxScore(t: Tables, d: DiscussionID, x: Disc)
    requires Records(t, d, x) && NonNegativeInterest(t)
    ensures WellFormed(x) && x.maxInterest == MaxScore(t, d)
  {
    forall i | 0 <= i < |x.interest| ensures 0 <= x.interest[i].level {
      assert x.interest[i] in x.interest;
    }
    SumRowsIsSumTop(x.interest);
    assert RowUsers(x.interest) == InterestUsers(t, d) by {
      forall u | u in InterestUsers(t, d) ensures u in RowUsers(x.interest) {
        var k :| k in t.interest && k.1 == d && k.0 == u;
        assert Interest(u, t.interest[k]) in x.interest;
      }
      forall u | u in RowUsers(x.interest) ensures u in InterestUsers(t, d) {
        var i :| 0 <= i < |x.interest| && x.interest[i].user == u;
        assert x.interest[i] in x.interest;
        assert (u, d) in t.interest;
      }
    }
    forall u ensures TopOf(x.interest)(u) == InterestIn(t, d)(u) {
      TopIsInterest(t, d, x.interest, u);
    }
    SumCong(InterestUsers(t, d), TopOf(x.interest), InterestIn(t, d));
  }
}
