/** What snapshot, heuristic, placement and storage guarantee together. */
module Pipeline {
  import opened Ids
  import opened Scoring
  import opened GreedyRuns
  import opened Scheduler
  import opened Store
  import opened Queries
  import opened Snapshot
  import opened ScheduleRows

  // ----- the plan that the heuristic and placement produce

  ghost predicate Fits(ss: SearchStore, run: Run<SearchDiscussion>) {
    forall i :: 0 <= i < |ss.slots| ==> |Contents(run, i)| <= |ss.locations|
  }

  /** The rows of a run: the j-th discussion of slot i goes to location j. */
  ghost function PlanFor(ss: SearchStore, run: Run<SearchDiscussion>): seq<PlanSlot>
    requires Fits(ss, run)
  {
    seq(|ss.slots|, i requires 0 <= i < |ss.slots| => PlanSlot(ss.slots[i], RowsFor(ss, run, i)))
  }

  ghost function RowsFor(ss: SearchStore, run: Run<SearchDiscussion>, i: nat): seq<ScheduleRow>
    requires i < |ss.slots| && |Contents(run, i)| <= |ss.locations|
  {
    var ds := Contents(run, i);
    seq(|ds|, j requires 0 <= j < |ds| => ScheduleRow(ds[j].info.id, ss.slots[i], ss.locations[j]))
  }

  /** Everything that a completed heuristic run over a snapshot guarantees. */
  ghost predicate Scheduled(t: Tables, ss: SearchStore, rows: seq<JoinRow>, run: Run<SearchDiscussion>)
    requires ForeignKeys(t)
  {
    && IsSnapshot(t, ss, rows)
    && multiset(Order(run)) == multiset(ss.discussions)
    && IsGreedy(BoardOf(ss), View(run))
  }

  /** after is t with the run's placements stored. */
  ghost predicate Rescheduled(t: Tables, ss: SearchStore, rows: seq<JoinRow>, run: Run<SearchDiscussion>, after: Tables)
    requires ForeignKeys(t)
  {
    Scheduled(t, ss, rows, run) && Fits(ss, run) && Stored(t, PlanFor(ss, run), after)
  }

  lemma RunFits(t: Tables, ss: SearchStore, rows: seq<JoinRow>, run: Run<SearchDiscussion>)
    requires ForeignKeys(t) && Scheduled(t, ss, rows, run)
    ensures Fits(ss, run)
    ensures forall i, d :: 0 <= i < |ss.slots| && d in Contents(run, i) ==> ss.slots[i] in d.info.possible
  {
    GreedyIsFeasible(BoardOf(ss), View(run));
    forall i | 0 <= i < |ss.slots|
      ensures |Contents(run, i)| <= |ss.locations|
      ensures forall d :: d in Contents(run, i) ==> ss.slots[i] in d.info.possible
    {
      ViewContents(run, i);
      forall d | d in Contents(run, i) ensures ss.slots[i] in d.info.possible {
        var j :| 0 <= j < |Contents(run, i)| && Contents(run, i)[j] == d;
        assert Contents(View(run), i)[j] == d.info;
        assert Permits(BoardOf(ss), d.info, i);
      }
    }
  }

  /** Every scheduled object stems from a join row of the snapshot. */
  lemma FromSnapshot(t: Tables, ss: SearchStore, rows: seq<JoinRow>, run: Run<SearchDiscussion>, i: int, d: SearchDiscussion)
    returns (m: nat)
    requires ForeignKeys(t) && Scheduled(t, ss, rows, run) && d in Contents(run, i)
    ensures m < |rows| && ss.discussions[m] == d && rows[m] in JoinRows(t) && Records(t, rows[m].id, d.info)
  {
    ContentsInOrder(run, i);
    SameBagMember(Order(run), ss.discussions, d);
    m :| 0 <= m < |ss.discussions| && ss.discussions[m] == d;
    assert rows[m] in rows;
  }

  lemma PlanIsWellPlaced(t: Tables, ss: SearchStore, rows: seq<JoinRow>, run: Run<SearchDiscussion>)
    requires ForeignKeys(t) && Scheduled(t, ss, rows, run)
    requires Fits(ss, run)
    ensures WellPlacedPlan(PlanFor(ss, run))
    ensures forall p :: p in PlanFor(ss, run) ==> Storable(t, p)
  {
    var plan := PlanFor(ss, run);
    forall p | p in plan ensures WellPlaced(p) && Storable(t, p) {
      var i :| 0 <= i < |plan| && plan[i] == p;
      assert ss.slots[i] in ss.slots;
      forall r | r in p.rows ensures r.id in t.discussions && r.locationID in t.locations {
        var j :| 0 <= j < |p.rows| && p.rows[j] == r;
        var m := FromSnapshot(t, ss, rows, run, i, Contents(run, i)[j]);
        assert ss.locations[j] in ss.locations;
      }
    }
  }

  // ----- safety of the whole pipeline

  ghost predicate AtMostOnce(t: Tables) {
    forall k, l :: k in t.schedule && l in t.schedule && t.schedule[k] == t.schedule[l] ==> k == l
  }

  ghost predicate NoBreakScheduled(t: Tables)
    requires ForeignKeys(t)
  {
    forall k :: k in t.schedule ==> !t.slots[k.0].isBreak
  }

  /** d's stored restriction allows slot s. */
  predicate Allows(t: Tables, d: DiscussionID, s: SlotID) {
    Restriction(t, d) == {} || s in Restriction(t, d)
  }

  /** Two snapshot rows of one discussion are the same row, if each discussion is scheduled at most once. */
  lemma JoinedOnce(t: Tables, a: JoinRow, b: JoinRow)
    requires ForeignKeys(t) && AtMostOnce(t)
    requires a in JoinRows(t) && b in JoinRows(t) && a.id == b.id
    ensures a == b
  {}

  /** A stored row of a planned slot comes from a position of the run. */
  lemma NewRow(ss: SearchStore, run: Run<SearchDiscussion>, after: Tables, k: RowKey) returns (i: nat, j: nat)
    requires Fits(ss, run)
    requires forall p :: p in PlanFor(ss, run) ==> SlotStored(after.schedule, p)
    requires k in after.schedule && k.0 in ss.slots
    ensures i < |ss.slots| && j < |Contents(run, i)| && k == (ss.slots[i], ss.locations[j])
    ensures after.schedule[k] == Contents(run, i)[j].info.id
  {
    i :| 0 <= i < |ss.slots| && ss.slots[i] == k.0;
    var p := PlanFor(ss, run)[i];
    assert p in PlanFor(ss, run);
    j :| 0 <= j < |p.rows| && p.rows[j] == ScheduleRow(after.schedule[k], k.0, k.1);
  }

  lemma OldRow(ss: SearchStore, run: Run<SearchDiscussion>, before: Tables, after: Tables, k: RowKey)
    requires Fits(ss, run)
    requires Stored(before, PlanFor(ss, run), after) && k.0 !in ss.slots
    ensures SameRow(after.schedule, before.schedule, k)
  {
    assert !Targets(PlanFor(ss, run), k.0);
  }

  /** A break that is not locked and still holds a schedule row. */
  ghost predicate NoUnlockedBreakScheduled(t: Tables)
    requires ForeignKeys(t)
  {
    forall k :: k in t.schedule && t.slots[k.0].isBreak ==> t.slots[k.0].isLocked
  }

  /** A discussion that was scheduled at most once is at one position of the run. */
  lemma PlacedOnce(t: Tables, ss: SearchStore, rows: seq<JoinRow>, run: Run<SearchDiscussion>,
                   i: nat, j: nat, i': nat, j': nat)
    requires ForeignKeys(t) && Scheduled(t, ss, rows, run) && AtMostOnce(t)
    requires j < |Contents(run, i)| && j' < |Contents(run, i')|
    requires Contents(run, i)[j].info.id == Contents(run, i')[j'].info.id
    ensures i == i' && j == j'
  {
    hide IsGreedy;
    var m := FromSnapshot(t, ss, rows, run, i, Contents(run, i)[j]);
    var m' := FromSnapshot(t, ss, rows, run, i', Contents(run, i')[j']);
    JoinedOnce(t, rows[m], rows[m']);
    assert m == m';
    NoDupBag(ss.discussions);
    NoDupBag(Order(run));
    ContentsUnshared(run, i, j, i', j');
  }

  lemma KeptOrPlacedOnce(t: Tables, ss: SearchStore, rows: seq<JoinRow>, run: Run<SearchDiscussion>, after: Tables,
                         k: RowKey, l: RowKey)
    requires Integrity(t) && Rescheduled(t, ss, rows, run, after)
    requires AtMostOnce(t) && NoUnlockedBreakScheduled(t)
    requires k in after.schedule && l in after.schedule && after.schedule[k] == after.schedule[l]
    requires k.0 in ss.slots
    ensures k == l
  {
    var i, j := NewRow(ss, run, after, k);
    var m := FromSnapshot(t, ss, rows, run, i, Contents(run, i)[j]);
    if l.0 in ss.slots {
      var i', j' := NewRow(ss, run, after, l);
      PlacedOnce(t, ss, rows, run, i, j, i', j');
    } else {
      OldRow(ss, run, t, after, l);
    }
  }

  /** No discussion ends up scheduled twice, if none was before and no unlocked break holds one. */
  lemma StaysAtMostOnce(t: Tables, ss: SearchStore, rows: seq<JoinRow>, run: Run<SearchDiscussion>, after: Tables)
    requires Integrity(t) && Rescheduled(t, ss, rows, run, after)
    requires AtMostOnce(t) && NoUnlockedBreakScheduled(t)
    ensures AtMostOnce(after)
  {
    forall k, l | k in after.schedule && l in after.schedule && after.schedule[k] == after.schedule[l]
      ensures k == l
    {
      if k.0 in ss.slots {
        KeptOrPlacedOnce(t, ss, rows, run, after, k, l);
      } else if l.0 in ss.slots {
        KeptOrPlacedOnce(t, ss, rows, run, after, l, k);
      } else {
        OldRow(ss, run, t, after, k);
        OldRow(ss, run, t, after, l);
      }
    }
  }

  /** Every row in a schedulable slot is for a discussion that allows the slot. */
  lemma RowsAreAllowed(t: Tables, ss: SearchStore, rows: seq<JoinRow>, run: Run<SearchDiscussion>, after: Tables, k: RowKey)
    requires Integrity(t) && Rescheduled(t, ss, rows, run, after)
    requires k in after.schedule && k.0 in SchedulableSlots(t)
    ensures Allows(t, after.schedule[k], k.0)
  {
    var i, j := NewRow(ss, run, after, k);
    var m := FromSnapshot(t, ss, rows, run, i, Contents(run, i)[j]);
    RunFits(t, ss, rows, run);
    assert Contents(run, i)[j] in Contents(run, i);
  }

  lemma {:induction false} SomewhereInRun<T>(n: nat, r: Run<T>, d: T) returns (i: int)
    requires InRange(n, r) && d in Order(r)
    ensures -1 <= i < n && d in Contents(r, i)
  {
    if d == r.disc {
      i := r.slot;
    } else {
      i := SomewhereInRun(n, r.before, d);
    }
  }

  /** A position of the run has its own row. */
  lemma PositionHasRow(ss: SearchStore, run: Run<SearchDiscussion>, after: Tables, i: nat, j: nat)
    requires Fits(ss, run)
    requires forall p :: p in PlanFor(ss, run) ==> SlotStored(after.schedule, p)
    requires i < |ss.slots| && j < |Contents(run, i)|
    ensures (ss.slots[i], ss.locations[j]) in after.schedule
    ensures after.schedule[(ss.slots[i], ss.locations[j])] == Contents(run, i)[j].info.id
  {
    var p := PlanFor(ss, run)[i];
    assert p in PlanFor(ss, run);
    assert p.rows[j] in p.rows && p.rows[j].Key() == (ss.slots[i], ss.locations[j]);
  }

  /** A placed discussion has a row in the slot that it was placed in. */
  lemma PlacedHasRow(ss: SearchStore, run: Run<SearchDiscussion>, after: Tables, i: nat, d: SearchDiscussion)
    returns (k: RowKey)
    requires Fits(ss, run)
    requires forall p :: p in PlanFor(ss, run) ==> SlotStored(after.schedule, p)
    requires i < |ss.slots| && d in Contents(run, i)
    ensures k in after.schedule && after.schedule[k] == d.info.id && k.0 == ss.slots[i]
  {
    var j :| 0 <= j < |Contents(run, i)| && Contents(run, i)[j] == d;
    PositionHasRow(ss, run, after, i, j);
    k := (ss.slots[i], ss.locations[j]);
  }

  /** A joined discussion is an object of the run. */
  lemma JoinedInRun(t: Tables, ss: SearchStore, rows: seq<JoinRow>, run: Run<SearchDiscussion>, row: JoinRow)
    returns (d: SearchDiscussion, m: nat, i: int)
    requires ForeignKeys(t) && Scheduled(t, ss, rows, run) && row in JoinRows(t)
    ensures d.info.id == row.id && SnapshotPossible(t, row.id) == Ok(d.info.possible)
    ensures m < |rows| && rows[m] == row && ss.discussions[m] == d
    ensures -1 <= i < |ss.slots| && d in Contents(run, i)
  {
    assert row in rows;
    m :| 0 <= m < |rows| && rows[m] == row;
    d := ss.discussions[m];
    SameBagMember(ss.discussions, Order(run), d);
    GreedyIsFeasible(BoardOf(ss), View(run));
    ViewInRange(|ss.slots|, run);
    i := SomewhereInRun(|ss.slots|, run, d);
  }

  /** A kept row and a new placement of the same discussion. */
  lemma KeptAndPlaced(t: Tables, ss: SearchStore, run: Run<SearchDiscussion>, after: Tables,
                      k: RowKey, d: SearchDiscussion, i: nat) returns (l: RowKey)
    requires Fits(ss, run) && Stored(t, PlanFor(ss, run), after)
    requires k in t.schedule && k.0 !in ss.slots
    requires i < |ss.slots| && d in Contents(run, i) && d.info.id == t.schedule[k]
    ensures k != l && k in after.schedule && l in after.schedule && after.schedule[k] == after.schedule[l]
  {
    l := PlacedHasRow(ss, run, after, i, d);
    OldRow(ss, run, t, after, k);
    assert ss.slots[i] in ss.slots;
  }

  lemma RowIsJoined(t: Tables, k: RowKey)
    requires ForeignKeys(t) && k in t.schedule && !t.slots[k.0].isLocked
    ensures JoinRow(t.schedule[k], Some(k)) in JoinRows(t)
  {}

  // ----- exactly when at-most-once survives

  /** The rows to be scheduled whose discussion allows slot s. */
  ghost function Wanting(t: Tables, s: SlotID): set<JoinRow>
    requires ForeignKeys(t)
  {
    set r | r in JoinRows(t) && Allows(t, r.id, s)
  }

  /** No slot is wanted by more discussions than there are locations. */
  ghost predicate DemandFits(t: Tables)
    requires ForeignKeys(t)
  {
    forall s :: s in SchedulableSlots(t) ==> |Wanting(t, s)| <= |t.locations|
  }

  lemma SubsetSize<T>(a: set<T>, b: set<T>)
    requires a <= b
    ensures |a| <= |b|
  {
    assert b == a + (b - a);
  }

  /** In particular when there is nothing more to schedule than there are locations. */
  lemma RoomForAll(t: Tables)
    requires ForeignKeys(t) && |JoinRows(t)| <= |t.locations|
    ensures DemandFits(t)
  {
    forall s | s in SchedulableSlots(t) ensures |Wanting(t, s)| <= |t.locations| {
      SubsetSize(Wanting(t, s), JoinRows(t));
    }
  }

  lemma RunLength(t: Tables, ss: SearchStore, rows: seq<JoinRow>, run: Run<SearchDiscussion>)
    requires ForeignKeys(t) && Scheduled(t, ss, rows, run)
    ensures |Order(View(run))| == |ss.discussions| == |JoinRows(t)| && |ss.locations| == |t.locations|
  {
    ViewOrder(run);
    assert |multiset(Order(run))| == |multiset(ss.discussions)|;
    ListLength(rows, JoinRows(t));
    ListLength(ss.locations, t.locations);
  }

  /** What the snapshot records as possible is never empty. */
  lemma SomethingPossible(t: Tables, ss: SearchStore, rows: seq<JoinRow>, x: Disc) returns (i: nat)
    requires ForeignKeys(t) && IsSnapshot(t, ss, rows) && SchedulableSlots(t) != {}
    requires SnapshotPossible(t, x.id) == Ok(x.possible)
    ensures i < |ss.slots| && Permits(BoardOf(ss), x, i)
  {
    var s :| s in x.possible && s in SchedulableSlots(t);
    assert s in ss.slots;
    i :| 0 <= i < |ss.slots| && ss.slots[i] == s;
  }

  // ----- the demand that a run meets is the demand in the tables

  /** The objects of q at the given indices. */
  ghost function ElementsAt<T>(q: seq<T>, idx: set<nat>): set<T>
    requires forall m :: m in idx ==> m < |q|
  {
    set m | m in idx :: q[m]
  }

  lemma {:induction false} ElementsAtSize<T>(q: seq<T>, idx: set<nat>)
    requires NoDup(q) && forall m :: m in idx ==> m < |q|
    ensures |ElementsAt(q, idx)| == |idx|
    decreases |idx|
  {
    if idx != {} {
      var m :| m in idx;
      ElementsAtSize(q, idx - {m});
      assert ElementsAt(q, idx) == ElementsAt(q, idx - {m}) + {q[m]};
    } else {
      assert ElementsAt(q, idx) == {};
    }
  }

  ghost function Permitting(board: Board, ds: seq<SearchDiscussion>, i: int): set<SearchDiscussion> {
    set d | d in ds && Permits(board, d.info, i)
  }

  lemma {:induction false} DemandIsSize(board: Board, run: Run<SearchDiscussion>, i: int)
    requires NoDup(Order(run))
    ensures Demand(board, View(run), i) == |Permitting(board, Order(run), i)|
  {
    match run
    case Start =>
      assert Permitting(board, Order(run), i) == {};
    case Step(b, d, _) =>
      assert Order(b) == Order(run)[..|Order(b)|];
      DemandIsSize(board, b, i);
      assert Permitting(board, Order(run), i) ==
        Permitting(board, Order(b), i) + if Permits(board, d.info, i) then {d} else {};
      assert d !in Order(b);
  }

  lemma RecordedPermits(t: Tables, ss: SearchStore, rows: seq<JoinRow>, m: nat, i: nat)
    requires ForeignKeys(t) && IsSnapshot(t, ss, rows) && m < |rows| && i < |ss.slots|
    ensures Permits(BoardOf(ss), ss.discussions[m].info, i) <==> Allows(t, rows[m].id, ss.slots[i])
  {
    assert ss.slots[i] in ss.slots;
    assert Records(t, rows[m].id, ss.discussions[m].info);
  }

  lemma PermittingAt(board: Board, order: seq<SearchDiscussion>, ds: seq<SearchDiscussion>, i: int, idx: set<nat>)
    requires multiset(order) == multiset(ds)
    requires forall m: nat :: m in idx <==> m < |ds| && Permits(board, ds[m].info, i)
    ensures Permitting(board, order, i) == ElementsAt(ds, idx)
  {
    hide Permits;
    forall d ensures d in Permitting(board, order, i) <==> d in ElementsAt(ds, idx) {
      assert d in order <==> d in multiset(order);
      assert d in ds <==> d in multiset(ds);
    }
  }

  lemma WantingAt(t: Tables, rows: seq<JoinRow>, s: SlotID, idx: set<nat>)
    requires ForeignKeys(t) && Lists(rows, JoinRows(t))
    requires forall m: nat :: m in idx <==> m < |rows| && Allows(t, rows[m].id, s)
    ensures Wanting(t, s) == ElementsAt(rows, idx)
  {
    hide Allows, JoinRows, ForeignKeys;
    forall r | r in Wanting(t, s) ensures r in ElementsAt(rows, idx) {
      assert r in rows;
    }
    forall r | r in ElementsAt(rows, idx) ensures r in Wanting(t, s) {
      assert r in rows;
    }
  }

  lemma RunDemand(t: Tables, ss: SearchStore, rows: seq<JoinRow>, run: Run<SearchDiscussion>, i: nat)
    requires ForeignKeys(t) && Scheduled(t, ss, rows, run) && i < |ss.slots|
    ensures Demand(BoardOf(ss), View(run), i) == |Wanting(t, ss.slots[i])|
  {
    hide IsGreedy, Permits, Records, Allows, JoinRows, ForeignKeys, Wanting, ElementsAt, Permitting;
    var board, ds := BoardOf(ss), ss.discussions;
    NoDupBag(ds);
    NoDupBag(Order(run));
    DemandIsSize(board, run, i);
    var idx := set m: nat | m < |rows| && Permits(board, ds[m].info, i);
    forall m: nat | m < |rows| ensures Permits(board, ds[m].info, i) <==> Allows(t, rows[m].id, ss.slots[i]) {
      RecordedPermits(t, ss, rows, m, i);
    }
    ElementsAtSize(ds, idx);
    ElementsAtSize(rows, idx);
    PermittingAt(board, Order(run), ds, i, idx);
    WantingAt(t, rows, ss.slots[i], idx);
  }

  /** Where demand fits, no slot is skipped as full. */
  lemma FittingDemandSkipsNothing(t: Tables, ss: SearchStore, rows: seq<JoinRow>, run: Run<SearchDiscussion>)
    requires ForeignKeys(t) && Scheduled(t, ss, rows, run) && DemandFits(t)
    ensures NeverSkipsFull(BoardOf(ss), View(run))
  {
    RunLength(t, ss, rows, run);
    forall i | 0 <= i < |ss.slots| ensures Demand(BoardOf(ss), View(run), i) <= |ss.locations| {
      RunDemand(t, ss, rows, run, i);
      assert ss.slots[i] in ss.slots;
    }
    DemandMeansNoSkips(BoardOf(ss), View(run));
  }

  /** Where demand fits, nothing is left unplaced. */
  lemma FittingDemandPlacesAll(t: Tables, ss: SearchStore, rows: seq<JoinRow>, run: Run<SearchDiscussion>)
    requires ForeignKeys(t) && Scheduled(t, ss, rows, run)
    requires DemandFits(t) && SchedulableSlots(t) != {}
    ensures Contents(run, -1) == []
  {
    FittingDemandSkipsNothing(t, ss, rows, run);
    hide DemandFits;
    if Contents(run, -1) != [] {
      var d := Contents(run, -1)[0];
      var m := FromSnapshot(t, ss, rows, run, -1, d);
      var i := SomethingPossible(t, ss, rows, d.info);
      ViewContents(run, -1);
      assert Contents(View(run), -1)[0] == d.info;
      NoSkipsPlaceAll(BoardOf(ss), View(run), d.info, i);
    }
  }

  /** If nothing is left unplaced, the discussion of a row in an unlocked slot has been placed. */
  lemma JoinedIsPlaced(t: Tables, ss: SearchStore, rows: seq<JoinRow>, run: Run<SearchDiscussion>, k: RowKey)
    returns (d: SearchDiscussion, m: nat, i: nat)
    requires ForeignKeys(t) && Scheduled(t, ss, rows, run) && Contents(run, -1) == []
    requires k in t.schedule && !t.slots[k.0].isLocked
    ensures m < |rows| && rows[m] == JoinRow(t.schedule[k], Some(k)) && ss.discussions[m] == d
    ensures i < |ss.slots| && d in Contents(run, i) && d.info.id == t.schedule[k]
  {
    RowIsJoined(t, k);
    var at;
    d, m, at := JoinedInRun(t, ss, rows, run, JoinRow(t.schedule[k], Some(k)));
    i := at;
  }

  lemma SlotsOfSnapshot(t: Tables, ss: SearchStore, rows: seq<JoinRow>, s: SlotID)
    requires ForeignKeys(t) && IsSnapshot(t, ss, rows) && s in t.slots
    ensures s in ss.slots <==> Schedulable(t.slots[s])
  {}

  /** A row left in an unlocked break stays there while its discussion is placed once more. */
  lemma UnlockedBreakDuplicates(t: Tables, ss: SearchStore, rows: seq<JoinRow>, run: Run<SearchDiscussion>, after: Tables,
                                k: RowKey) returns (l: RowKey)
    requires ForeignKeys(t) && Rescheduled(t, ss, rows, run, after) && Contents(run, -1) == []
    requires k in t.schedule && t.slots[k.0].isBreak && !t.slots[k.0].isLocked
    ensures k != l && k in after.schedule && l in after.schedule && after.schedule[k] == after.schedule[l]
  {
    var d, m, i := JoinedIsPlaced(t, ss, rows, run, k);
    SlotsOfSnapshot(t, ss, rows, k.0);
    l := KeptAndPlaced(t, ss, run, after, k, d, i);
  }

  /** Two placed objects have two rows. */
  lemma TwoObjectsTwoRows(ss: SearchStore, run: Run<SearchDiscussion>, after: Tables,
                          i: nat, d: SearchDiscussion, j: nat, e: SearchDiscussion) returns (k: RowKey, l: RowKey)
    requires Fits(ss, run) && NoDup(ss.slots) && NoDup(ss.locations)
    requires forall p :: p in PlanFor(ss, run) ==> SlotStored(after.schedule, p)
    requires i < |ss.slots| && d in Contents(run, i) && j < |ss.slots| && e in Contents(run, j) && d != e
    ensures k != l && k in after.schedule && l in after.schedule
    ensures after.schedule[k] == d.info.id && after.schedule[l] == e.info.id
  {
    hide SlotStored;
    var x :| 0 <= x < |Contents(run, i)| && Contents(run, i)[x] == d;
    var y :| 0 <= y < |Contents(run, j)| && Contents(run, j)[y] == e;
    PositionHasRow(ss, run, after, i, x);
    PositionHasRow(ss, run, after, j, y);
    assert i != j || x != y;
    k, l := (ss.slots[i], ss.locations[x]), (ss.slots[j], ss.locations[y]);
  }

  /** Two rows to be rescheduled give two new rows, even if they are for one discussion. */
  lemma BothPlaced(t: Tables, ss: SearchStore, rows: seq<JoinRow>, run: Run<SearchDiscussion>, after: Tables,
                   k: RowKey, l: RowKey) returns (k': RowKey, l': RowKey)
    requires ForeignKeys(t) && Rescheduled(t, ss, rows, run, after) && Contents(run, -1) == []
    requires k in t.schedule && !t.slots[k.0].isLocked && l in t.schedule && !t.slots[l.0].isLocked && k != l
    ensures k' != l' && k' in after.schedule && l' in after.schedule
    ensures after.schedule[k'] == t.schedule[k] && after.schedule[l'] == t.schedule[l]
  {
    hide Records, IsGreedy, JoinRows, SlotStored, Fits;
    var d, m, i := JoinedIsPlaced(t, ss, rows, run, k);
    var e, n, j := JoinedIsPlaced(t, ss, rows, run, l);
    assert m != n && d != e;
    k', l' := TwoObjectsTwoRows(ss, run, after, i, d, j, e);
  }

  /** With nothing left unplaced, a discussion that was scheduled twice is scheduled twice again. */
  lemma DuplicateSurvives(t: Tables, ss: SearchStore, rows: seq<JoinRow>, run: Run<SearchDiscussion>, after: Tables,
                          k: RowKey, l: RowKey) returns (k': RowKey, l': RowKey)
    requires ForeignKeys(t) && Rescheduled(t, ss, rows, run, after) && Contents(run, -1) == []
    requires k in t.schedule && l in t.schedule && t.schedule[k] == t.schedule[l] && k != l
    ensures k' != l' && k' in after.schedule && l' in after.schedule && after.schedule[k'] == after.schedule[l']
  {
    hide IsSnapshot, IsGreedy, JoinRows;
    SlotsOfSnapshot(t, ss, rows, k.0);
    SlotsOfSnapshot(t, ss, rows, l.0);
    if k.0 in ss.slots && l.0 in ss.slots {
      k', l' := BothPlaced(t, ss, rows, run, after, k, l);
    } else if k.0 in ss.slots {
      var d, m, i := JoinedIsPlaced(t, ss, rows, run, k);
      k' := l;
      l' := KeptAndPlaced(t, ss, run, after, l, d, i);
    } else if l.0 in ss.slots {
      var d, m, i := JoinedIsPlaced(t, ss, rows, run, l);
      k' := k;
      l' := KeptAndPlaced(t, ss, run, after, k, d, i);
    } else {
      OldRow(ss, run, t, after, k);
      OldRow(ss, run, t, after, l);
      k', l' := k, l;
    }
  }

  /**
   Exactly when each discussion is scheduled at most once afterwards, given that no slot is wanted by
   more discussions than it has locations: it was so before, and no unlocked break held a schedule row.
   */
  lemma AtMostOnceSurvivesIff(t: Tables, ss: SearchStore, rows: seq<JoinRow>, run: Run<SearchDiscussion>, after: Tables)
    requires Integrity(t) && Rescheduled(t, ss, rows, run, after)
    requires DemandFits(t) && SchedulableSlots(t) != {}
    ensures AtMostOnce(after) <==> AtMostOnce(t) && NoUnlockedBreakScheduled(t)
  {
    hide IsSnapshot, IsGreedy, JoinRows, DemandFits;
    FittingDemandPlacesAll(t, ss, rows, run);
    if !NoUnlockedBreakScheduled(t) {
      var k :| k in t.schedule && t.slots[k.0].isBreak && !t.slots[k.0].isLocked;
      var l := UnlockedBreakDuplicates(t, ss, rows, run, after, k);
    } else if !AtMostOnce(t) {
      var k, l :| k in t.schedule && l in t.schedule && t.schedule[k] == t.schedule[l] && k != l;
      var k', l' := DuplicateSurvives(t, ss, rows, run, after, k, l);
    } else {
      StaysAtMostOnce(t, ss, rows, run, after);
    }
  }

  /** A discussion without a row afterwards was part of the snapshot. */
  lemma WasJoined(t: Tables, ss: SearchStore, run: Run<SearchDiscussion>, after: Tables, id: DiscussionID)
    returns (row: JoinRow)
    requires ForeignKeys(t) && Fits(ss, run) && Stored(t, PlanFor(ss, run), after)
    requires forall s :: s in ss.slots ==> s in SchedulableSlots(t)
    requires id in t.discussions && !HasRow(after, id)
    ensures row in JoinRows(t) && row.id == id
  {
    row := JoinRow(id, None);
    if HasRow(t, id) {
      var q :| q in t.schedule && t.schedule[q] == id;
      if q.0 !in ss.slots {
        OldRow(ss, run, t, after, q);
      }
      row := JoinRow(id, Some(q));
    }
  }

  /** A slot with as many discussions as locations has a row for every location. */
  lemma FullSlotUsesEveryLocation(ss: SearchStore, run: Run<SearchDiscussion>, after: Tables, k: RowKey)
    requires Fits(ss, run) && forall p :: p in PlanFor(ss, run) ==> SlotStored(after.schedule, p)
    requires k.0 in ss.slots && k.1 in ss.locations
    requires forall i :: 0 <= i < |ss.slots| && ss.slots[i] == k.0 ==> |Contents(run, i)| == |ss.locations|
    ensures k in after.schedule
  {
    var i :| 0 <= i < |ss.slots| && ss.slots[i] == k.0;
    var j :| 0 <= j < |ss.locations| && ss.locations[j] == k.1;
    var p := PlanFor(ss, run)[i];
    assert p in PlanFor(ss, run) && p.rows[j] in p.rows && p.rows[j].Key() == (k.0, k.1) == k;
  }

  /** In database terms: a discussion has no row afterwards only if every slot open to it uses every location. */
  lemma UnscheduledMeansFull(t: Tables, ss: SearchStore, rows: seq<JoinRow>, run: Run<SearchDiscussion>, after: Tables,
                             id: DiscussionID, k: RowKey)
    requires ForeignKeys(t) && Rescheduled(t, ss, rows, run, after)
    requires id in t.discussions && !HasRow(after, id)
    requires k.0 in SchedulableSlots(t) && Allows(t, id, k.0) && k.1 in t.locations
    ensures k in after.schedule
  {
    var row := WasJoined(t, ss, run, after, id);
    var d, m, at := JoinedInRun(t, ss, rows, run, row);
    if at != -1 {
      var q := PlacedHasRow(ss, run, after, at, d);
    }
    forall i | 0 <= i < |ss.slots| && ss.slots[i] == k.0 ensures |Contents(run, i)| == |ss.locations| {
      LeftOutMeansFull(ss, run, d, i);
    }
    FullSlotUsesEveryLocation(ss, run, after, k);
  }

  lemma LeftOutMeansFull(ss: SearchStore, run: Run<SearchDiscussion>, d: SearchDiscussion, i: nat)
    requires IsGreedy(BoardOf(ss), View(run)) && d in Contents(run, -1)
    requires i < |ss.slots| && ss.slots[i] in d.info.possible
    ensures |Contents(run, i)| == |ss.locations|
  {
    ViewContents(run, -1);
    ViewContents(run, i);
    var m :| 0 <= m < |Contents(run, -1)| && Contents(run, -1)[m] == d;
    assert Contents(View(run), -1)[m] == d.info;
    Maximality(BoardOf(ss), View(run), d.info, i);
  }

  lemma PlacementGivesPlan(ss: SearchStore, slots: seq<ScheduleSlot>, run: Run<SearchDiscussion>)
    requires Holds(slots, ss.slots, run) && Fits(ss, run)
    requires forall i, j :: 0 <= i < |slots| && 0 <= j < |slots[i].discussions| ==> PlacedAt(slots, ss.locations, i, j)
    ensures forall i :: 0 <= i < |slots| ==> PlanFor(ss, run)[i] == PlanSlotOf(slots[i])
  {
    forall i | 0 <= i < |slots| ensures PlanFor(ss, run)[i] == PlanSlotOf(slots[i]) {
      forall j | 0 <= j < |slots[i].discussions| ensures PlanSlotOf(slots[i]).rows[j] == RowsFor(ss, run, i)[j] {
        assert PlacedAt(slots, ss.locations, i, j);
      }
    }
  }

  /** Only schedulable slots are rewritten: locked slots and breaks keep their rows. */
  ghost predicate KeepsOtherSlots(t: Tables, after: Tables) {
    forall k: RowKey :: k.0 !in SchedulableSlots(t) ==> SameRow(after.schedule, t.schedule, k)
  }

  ghost predicate RespectsRestrictions(t: Tables, after: Tables) {
    forall k :: k in after.schedule && k.0 in SchedulableSlots(t) ==> Allows(t, after.schedule[k], k.0)
  }

  /** A discussion is left without a row only if every slot open to it uses every location. */
  ghost predicate LeavesOutOnlyWhenFull(t: Tables, after: Tables) {
    forall d, s, l ::
      (d in t.discussions && !HasRow(after, d) && s in SchedulableSlots(t) && Allows(t, d, s) && l in t.locations)
      ==> (s, l) in after.schedule
  }

  /** What a successful MakeSchedule guarantees about the tables before and after it. */
  ghost predicate SafeReschedule(t: Tables, after: Tables)
    requires ForeignKeys(t)
  {
    && after == t.(schedule := after.schedule) && Integrity(after)
    && KeepsOtherSlots(t, after)
    && RespectsRestrictions(t, after)
    && LeavesOutOnlyWhenFull(t, after)
    && (AtMostOnce(t) && NoUnlockedBreakScheduled(t) ==> AtMostOnce(after))
    && (DemandFits(t) && AtMostOnce(after) ==> AtMostOnce(t) && NoUnlockedBreakScheduled(t))
    && (NoBreakScheduled(t) ==> NoBreakScheduled(after))
  }

  lemma RescheduleLeavesOutOnlyWhenFull(t: Tables, ss: SearchStore, rows: seq<JoinRow>, run: Run<SearchDiscussion>,
                                        after: Tables)
    requires ForeignKeys(t) && Rescheduled(t, ss, rows, run, after)
    ensures LeavesOutOnlyWhenFull(t, after)
  {
    forall d, s, l |
      d in t.discussions && !HasRow(after, d) && s in SchedulableSlots(t) && Allows(t, d, s) && l in t.locations
      ensures (s, l) in after.schedule
    {
      UnscheduledMeansFull(t, ss, rows, run, after, d, (s, l));
    }
  }

  lemma RescheduleRows(t: Tables, ss: SearchStore, rows: seq<JoinRow>, run: Run<SearchDiscussion>, after: Tables)
    requires Integrity(t) && Rescheduled(t, ss, rows, run, after)
    ensures KeepsOtherSlots(t, after) && RespectsRestrictions(t, after)
  {
    forall k: RowKey | k.0 !in SchedulableSlots(t) ensures SameRow(after.schedule, t.schedule, k) {
      OldRow(ss, run, t, after, k);
    }
    forall k | k in after.schedule && k.0 in SchedulableSlots(t) ensures Allows(t, after.schedule[k], k.0) {
      RowsAreAllowed(t, ss, rows, run, after, k);
    }
  }

  /** Rewriting only schedulable slots puts nothing into a break. */
  lemma BreaksStayFree(t: Tables, after: Tables)
    requires ForeignKeys(t) && ForeignKeys(after) && after.slots == t.slots
    requires KeepsOtherSlots(t, after) && NoBreakScheduled(t)
    ensures NoBreakScheduled(after)
  {
    forall k | k in after.schedule ensures !t.slots[k.0].isBreak {
      if k.0 !in SchedulableSlots(t) {
        assert SameRow(after.schedule, t.schedule, k);
      }
    }
  }

  lemma RescheduleIsSafe(t: Tables, ss: SearchStore, rows: seq<JoinRow>, run: Run<SearchDiscussion>, after: Tables)
    requires Integrity(t) && Integrity(after) && Rescheduled(t, ss, rows, run, after)
    requires SchedulableSlots(t) != {}
    ensures SafeReschedule(t, after)
  {
    assert ForeignKeys(t) && ForeignKeys(after);
    hide Integrity, ForeignKeys, Scheduled, DemandFits, SchedulableSlots, AtMostOnce, NoUnlockedBreakScheduled;
    RescheduleRows(t, ss, rows, run, after);
    RescheduleLeavesOutOnlyWhenFull(t, ss, rows, run, after);
    if AtMostOnce(t) && NoUnlockedBreakScheduled(t) {
      StaysAtMostOnce(t, ss, rows, run, after);
    }
    if NoBreakScheduled(t) {
      BreaksStayFree(t, after);
    }
    if DemandFits(t) {
      AtMostOnceSurvivesIff(t, ss, rows, run, after);
    }
  }

  /** Storing what heuristic and placement made of a fresh snapshot cannot fail. */
  lemma StoringReschedules(t: Tables, ss: SearchStore, rows: seq<JoinRow>, run: Run<SearchDiscussion>)
    requires Integrity(t) && Scheduled(t, ss, rows, run) && Fits(ss, run)
    ensures
      var r := SetSlots(t, PlanFor(ss, run), |PlanFor(ss, run)|);
      r.Ok? && Integrity(r.value) && Rescheduled(t, ss, rows, run, r.value)
  {
    var plan := PlanFor(ss, run);
    PlanIsWellPlaced(t, ss, rows, run);
    SetSlotsStores(t, plan, |plan|);
    assert plan[..|plan|] == plan;
  }

  /** How good the computed schedule is: the capacity bound holds for whatever the snapshot recorded. */
  lemma ScheduleQuality(t: Tables, ss: SearchStore, rows: seq<JoinRow>, run: Run<SearchDiscussion>, alt: Run<Disc>)
    requires ForeignKeys(t) && Scheduled(t, ss, rows, run) && Descending(View(run)) && NonNegativeInterest(t)
    requires SameOrder(View(run), alt) && Assignment(BoardOf(ss), alt) && 1 <= |ss.locations|
    requires forall i :: 0 <= i < |ss.slots| ==> |Contents(alt, i)| <= |ss.locations|
    ensures Total(BoardOf(ss), alt)
         <= (|ss.locations| + 2) * Total(BoardOf(ss), View(run)) + |ss.discussions| * (|ss.locations| - 1)
  {
    hide Scheduled, Total, Descending, Assignment, SameOrder, WellFormed, NonNegativeInterest;
    RecordedIsWellFormed(t, ss, rows, run);
    CapacityBound(BoardOf(ss), View(run), alt);
  }

  /** Where demand fits, factor two holds on whatever the snapshot recorded, against any permitted assignment. */
  lemma ScheduleFactorTwo(t: Tables, ss: SearchStore, rows: seq<JoinRow>, run: Run<SearchDiscussion>, alt: Run<Disc>)
    requires ForeignKeys(t) && Scheduled(t, ss, rows, run) && DemandFits(t)
    requires SameOrder(View(run), alt) && Assignment(BoardOf(ss), alt) && 1 <= |ss.locations|
    ensures Total(BoardOf(ss), alt)
         <= 2 * Total(BoardOf(ss), View(run)) + |ss.discussions| * (|ss.locations| - 1)
  {
    hide IsSnapshot, Total, Assignment, SameOrder, JoinRows, DemandFits;
    RunLength(t, ss, rows, run);
    FittingDemandSkipsNothing(t, ss, rows, run);
    FactorTwo(BoardOf(ss), View(run), alt);
  }

  lemma RecordedIsWellFormed(t: Tables, ss: SearchStore, rows: seq<JoinRow>, run: Run<SearchDiscussion>)
    requires ForeignKeys(t) && Scheduled(t, ss, rows, run) && NonNegativeInterest(t)
    ensures forall d :: d in Order(View(run)) ==> WellFormed(d)
    ensures |Order(View(run))| == |ss.discussions|
    ensures IsGreedy(BoardOf(ss), View(run))
  {
    hide IsGreedy, Records;
    ViewOrder(run);
    assert |multiset(Order(run))| == |multiset(ss.discussions)|;
    forall d | d in Order(View(run)) ensures WellFormed(d) {
      var j :| 0 <= j < |Order(run)| && Order(run)[j].info == d;
      SameBagMember(Order(run), ss.discussions, Order(run)[j]);
      var m :| 0 <= m < |ss.discussions| && ss.discussions[m] == Order(run)[j];
      assert Records(t, rows[m].id, d);
      MaxInterestIsMaxScore(t, rows[m].id, d);
    }
  }
}
