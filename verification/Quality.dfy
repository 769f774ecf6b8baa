/**
 How good the stored schedule is: what it is worth, read off the tables, against every other set of
 rows that could have been stored instead.
 */
module Quality {
  import opened Ids
  import opened Sums
  import opened Scoring
  import opened GreedyRuns
  import opened Scheduler
  import opened Store
  import opened Queries
  import opened Snapshot
  import opened ScheduleRows
  import opened Worth
  import opened Pipeline

  /** Rows that could have been stored: each in a slot that its discussion allows, and no discussion twice. */
  ghost predicate Candidate(t: Tables, rows: Rows)
    requires ForeignKeys(t)
  {
    && (forall k :: k in rows ==>
      k.0 in SchedulableSlots(t) && k.1 in t.locations && Joined(t, rows[k]) && Allows(t, rows[k], k.0))
    && (forall k, l :: k in rows && l in rows && rows[k] == rows[l] ==> k == l)
  }

  /** What the preference for emptier slots can cost. */
  ghost function BonusLoss(t: Tables): int
    requires ForeignKeys(t)
  {
    if t.locations == {} then 0 else |JoinRows(t)| * (|t.locations| - 1)
  }

  /**
   The schedule stored in after is within a factor of every candidate: a factor of the number of
   locations plus two in general, and of two where no slot is wanted by more discussions than fit.
   */
  ghost predicate NearOptimal(t: Tables, after: Tables)
    requires ForeignKeys(t)
  {
    NonNegativeInterest(t) ==> forall rows :: Candidate(t, rows) ==>
      && ScheduleWorth(t, rows) <= (|t.locations| + 2) * ScheduleWorth(t, after.schedule) + BonusLoss(t)
      && (DemandFits(t) ==> ScheduleWorth(t, rows) <= 2 * ScheduleWorth(t, after.schedule) + BonusLoss(t))
  }

  // ----- a candidate as a run

  ghost predicate RowFor(slots: seq<SlotID>, rows: Rows, id: DiscussionID, i: int) {
    0 <= i < |slots| && id in DiscussionsAt(rows, slots[i])
  }

  /** The index of the slot that the rows give to a discussion, or -1. */
  ghost function SlotIn(slots: seq<SlotID>, rows: Rows, id: DiscussionID): (i: int)
    ensures i == -1 || RowFor(slots, rows, id, i)
    ensures forall j :: RowFor(slots, rows, id, j) ==> i != -1
  {
    if exists i :: RowFor(slots, rows, id, i) then
      var i :| RowFor(slots, rows, id, i); i
    else -1
  }

  ghost predicate Handled(r: Run<Disc>, id: DiscussionID) {
    exists d :: d in Order(r) && d.id == id
  }

  /** The run that gives each discussion of r, when it first occurs, the slot that the rows give it. */
  ghost function RunOf(slots: seq<SlotID>, rows: Rows, r: Run<Disc>): Run<Disc> {
    match r
    case Start => Start
    case Step(b, d, _) =>
      Step(RunOf(slots, rows, b), d, if Handled(b, d.id) then -1 else SlotIn(slots, rows, d.id))
  }

  lemma {:induction false} RunOfSameOrder(slots: seq<SlotID>, rows: Rows, r: Run<Disc>)
    ensures SameOrder(r, RunOf(slots, rows, r))
  {
    if r.Step? {
      RunOfSameOrder(slots, rows, r.before);
    }
  }

  lemma {:induction false} RunOfIsAssignment(board: Board, rows: Rows, r: Run<Disc>)
    requires forall d, i :: d in Order(r) && RowFor(board.slotIDs, rows, d.id, i) ==> board.slotIDs[i] in d.possible
    ensures Assignment(board, RunOf(board.slotIDs, rows, r))
  {
    hide RowFor;
    if r.Step? {
      assert forall d :: d in Order(r.before) ==> d in Order(r);
      RunOfIsAssignment(board, rows, r.before);
      var s := RunOf(board.slotIDs, rows, r).slot;
      if s != -1 {
        assert r.disc in Order(r) && RowFor(board.slotIDs, rows, r.disc.id, s);
        RowForInRange(board.slotIDs, rows, r.disc.id, s);
      }
    }
  }

  lemma RowForInRange(slots: seq<SlotID>, rows: Rows, id: DiscussionID, i: int)
    requires RowFor(slots, rows, id, i)
    ensures 0 <= i < |slots|
  {}

  /** What the run puts into a slot has a row there, and is a discussion that r handled. */
  lemma {:induction false} RunOfContents(slots: seq<SlotID>, rows: Rows, r: Run<Disc>, i: nat)
    ensures forall d :: d in Contents(RunOf(slots, rows, r), i) ==> d in Order(r) && RowFor(slots, rows, d.id, i)
    ensures DistinctIds(Contents(RunOf(slots, rows, r), i))
  {
    hide RowFor;
    if r.Step? {
      RunOfContents(slots, rows, r.before, i);
    }
  }

  ghost predicate DistinctIds(ds: seq<Disc>) {
    forall i, j :: 0 <= i < j < |ds| ==> ds[i].id != ds[j].id
  }

  /** A handled discussion that has a row in slot i, and nowhere else, is put there. */
  lemma {:induction false} RunOfCovers(slots: seq<SlotID>, rows: Rows, r: Run<Disc>, id: DiscussionID, i: nat)
    requires Handled(r, id) && RowFor(slots, rows, id, i)
    requires forall j :: RowFor(slots, rows, id, j) ==> j == i
    ensures exists d :: d in Contents(RunOf(slots, rows, r), i) && d.id == id
  {
    hide RowFor;
    var b := r.before;
    if Handled(b, id) {
      RunOfCovers(slots, rows, b, id, i);
      var d :| d in Contents(RunOf(slots, rows, b), i) && d.id == id;
      assert d in Contents(RunOf(slots, rows, r), i);
    } else {
      assert r.disc.id == id;
      assert r.disc in Contents(RunOf(slots, rows, r), i);
    }
  }

  // ----- capacity

  ghost function DiscussionsIn(rows: Rows, s: SlotID, ls: set<LocationID>): set<DiscussionID> {
    set l | l in ls && (s, l) in rows :: rows[(s, l)]
  }

  lemma {:induction false} DiscussionsInSize(rows: Rows, s: SlotID, ls: set<LocationID>)
    ensures |DiscussionsIn(rows, s, ls)| <= |ls|
    decreases |ls|
  {
    if ls == {} {
      assert DiscussionsIn(rows, s, ls) == {};
    } else {
      var l := Pick(ls);
      DiscussionsInSize(rows, s, ls - {l});
      var here := if (s, l) in rows then {rows[(s, l)]} else {};
      assert DiscussionsIn(rows, s, ls) == DiscussionsIn(rows, s, ls - {l}) + here;
    }
  }

  lemma {:induction false} DistinctSize(ds: seq<Disc>, ids: set<DiscussionID>)
    requires DistinctIds(ds) && forall d :: d in ds ==> d.id in ids
    ensures |ds| <= |ids|
  {
    if ds != [] {
      var front, last := ds[..|ds| - 1], ds[|ds| - 1];
      assert last in ds;
      forall d | d in front ensures d.id in ids - {last.id} {
        assert d in ds;
      }
      DistinctSize(front, ids - {last.id});
    }
  }

  lemma RunOfFits(slots: seq<SlotID>, rows: Rows, r: Run<Disc>, ls: set<LocationID>, i: nat)
    requires i < |slots| && forall k :: k in rows ==> k.1 in ls
    ensures |Contents(RunOf(slots, rows, r), i)| <= |ls|
  {
    RunOfContents(slots, rows, r, i);
    var ids := DiscussionsIn(rows, slots[i], ls);
    forall id | id in DiscussionsAt(rows, slots[i]) ensures id in ids {
      var k :| k in rows && k.0 == slots[i] && rows[k] == id;
      var l := k.1;
      assert k == (slots[i], l) && l in ls && (slots[i], l) in rows && rows[(slots[i], l)] == id;
      assert rows[(slots[i], l)] in ids;
    }
    DistinctSize(Contents(RunOf(slots, rows, r), i), ids);
    DiscussionsInSize(rows, slots[i], ls);
  }

  // ----- scores of runs and worth of rows

  /** Everything that a run handles is recorded from the tables. */
  ghost predicate HandlesRecorded(t: Tables, r: Run<Disc>) {
    forall d :: d in Order(r) ==> Records(t, d.id, d)
  }

  lemma RunIsRecorded(t: Tables, ss: SearchStore, rows: seq<JoinRow>, run: Run<SearchDiscussion>)
    requires ForeignKeys(t) && Scheduled(t, ss, rows, run)
    ensures HandlesRecorded(t, View(run))
    ensures forall id :: Joined(t, id) ==> Handled(View(run), id)
  {
    hide IsGreedy, Records, JoinRows;
    ViewOrder(run);
    forall d | d in Order(View(run)) ensures Records(t, d.id, d) {
      var j :| 0 <= j < |Order(run)| && Order(run)[j].info == d;
      SameBagMember(Order(run), ss.discussions, Order(run)[j]);
      var m :| 0 <= m < |ss.discussions| && ss.discussions[m] == Order(run)[j];
      RecordsKnowsId(t, rows[m].id, d);
    }
    forall id | Joined(t, id) ensures Handled(View(run), id) {
      var r :| r in JoinRows(t) && r.id == id;
      assert r in rows;
      var m :| 0 <= m < |rows| && rows[m] == r;
      RecordsKnowsId(t, rows[m].id, ss.discussions[m].info);
      SameBagMember(ss.discussions, Order(run), ss.discussions[m]);
      var j :| 0 <= j < |Order(run)| && Order(run)[j] == ss.discussions[m];
      assert Order(View(run))[j].id == id;
    }
  }

  lemma RecordsKnowsId(t: Tables, id: DiscussionID, d: Disc)
    requires Records(t, id, d)
    ensures d.id == id
  {}

  /** The total of a run is what some rows are worth, if slot by slot they have the same discussions. */
  lemma TotalIsWorth(t: Tables, ss: SearchStore, r: Run<Disc>, rows: Rows)
    requires ForeignKeys(t) && NonNegativeInterest(t) && Lists(ss.slots, SchedulableSlots(t))
    requires forall i :: 0 <= i < |ss.slots| ==> RecordsAll(t, DiscussionsAt(rows, ss.slots[i]), Contents(r, i))
    ensures Total(BoardOf(ss), r) == ScheduleWorth(t, rows)
  {
    hide RecordsAll;
    forall i | 0 <= i < |ss.slots| ensures SlotScore(r)(i) == WorthAt(t, rows)(ss.slots[i]) {
      ScoreIsWorth(t, DiscussionsAt(rows, ss.slots[i]), Contents(r, i));
    }
    SumOverListing(ss.slots, SchedulableSlots(t), SlotScore(r), WorthAt(t, rows));
  }

  lemma PlacedIsStored(ss: SearchStore, run: Run<SearchDiscussion>, after: Tables, i: nat, d: Disc)
    requires Fits(ss, run) && i < |ss.slots| && d in Contents(View(run), i)
    requires forall p :: p in PlanFor(ss, run) ==> SlotStored(after.schedule, p)
    ensures d.id in DiscussionsAt(after.schedule, ss.slots[i])
  {
    hide SlotStored, PlanFor;
    ViewContents(run, i);
    var j :| 0 <= j < |Contents(run, i)| && Contents(run, i)[j].info == d;
    PositionHasRow(ss, run, after, i, j);
  }

  lemma StoredIsPlaced(ss: SearchStore, run: Run<SearchDiscussion>, after: Tables, i: nat, id: DiscussionID)
    requires Fits(ss, run) && NoDup(ss.slots) && i < |ss.slots| && id in DiscussionsAt(after.schedule, ss.slots[i])
    requires forall p :: p in PlanFor(ss, run) ==> SlotStored(after.schedule, p)
    ensures exists d :: d in Contents(View(run), i) && d.id == id
  {
    hide SlotStored, PlanFor;
    ViewContents(run, i);
    var k :| k in after.schedule && k.0 == ss.slots[i] && after.schedule[k] == id;
    var x, j := NewRow(ss, run, after, k);
    assert x == i;
    assert Contents(View(run), i)[j] == Contents(run, i)[j].info;
  }

  lemma StoredIsRecorded(t: Tables, ss: SearchStore, rows: seq<JoinRow>, run: Run<SearchDiscussion>, after: Tables,
                         i: nat)
    requires ForeignKeys(t) && Rescheduled(t, ss, rows, run, after) && i < |ss.slots|
    ensures RecordsAll(t, DiscussionsAt(after.schedule, ss.slots[i]), Contents(View(run), i))
  {
    assert NoDup(ss.slots);
    hide Scheduled, PlanFor, Fits, HandlesRecorded, ListsInterest, DiscussionsAt, ForeignKeys, SlotStored;
    RunIsRecorded(t, ss, rows, run);
    ContentsInOrder(View(run), i);
    var s := ss.slots[i];
    forall d | d in Contents(View(run), i)
      ensures d.id in DiscussionsAt(after.schedule, s) && ListsInterest(t, d.id, d.interest)
    {
      PlacedIsStored(ss, run, after, i, d);
      RecordedInterest(t, View(run), d);
    }
    forall id | id in DiscussionsAt(after.schedule, s) ensures exists d :: d in Contents(View(run), i) && d.id == id {
      StoredIsPlaced(ss, run, after, i, id);
    }
  }

  lemma RecordedInterest(t: Tables, r: Run<Disc>, d: Disc)
    requires HandlesRecorded(t, r) && d in Order(r)
    ensures ListsInterest(t, d.id, d.interest)
  {}

  lemma SlotsAreListedOnce(t: Tables, ss: SearchStore, rows: seq<JoinRow>, run: Run<SearchDiscussion>, i: nat, j: nat)
    requires ForeignKeys(t) && Scheduled(t, ss, rows, run) && i < |ss.slots| && j < |ss.slots|
    ensures ss.slots[i] == ss.slots[j] ==> i == j
  {}

  /** A discussion has a row in one slot only. */
  lemma CandidateSlotIsUnique(t: Tables, ss: SearchStore, rows: seq<JoinRow>, run: Run<SearchDiscussion>, m: Rows,
                              id: DiscussionID, i: nat)
    requires ForeignKeys(t) && Scheduled(t, ss, rows, run) && Candidate(t, m) && RowFor(ss.slots, m, id, i)
    ensures Joined(t, id) && forall j :: RowFor(ss.slots, m, id, j) ==> j == i
  {
    hide Scheduled, Joined, Allows, ForeignKeys;
    var k :| k in m && k.0 == ss.slots[i] && m[k] == id;
    forall j | RowFor(ss.slots, m, id, j) ensures j == i {
      var l :| l in m && l.0 == ss.slots[j] && m[l] == id;
      assert k == l;
      SlotsAreListedOnce(t, ss, rows, run, i, j);
    }
  }

  lemma CandidateIsRecorded(t: Tables, ss: SearchStore, rows: seq<JoinRow>, run: Run<SearchDiscussion>, m: Rows, i: nat)
    requires ForeignKeys(t) && Scheduled(t, ss, rows, run) && Candidate(t, m) && i < |ss.slots|
    ensures RecordsAll(t, DiscussionsAt(m, ss.slots[i]), Contents(RunOf(ss.slots, m, View(run)), i))
  {
    hide Scheduled, Handled, HandlesRecorded, Candidate, Joined, ForeignKeys, ListsInterest, DiscussionsAt;
    RunIsRecorded(t, ss, rows, run);
    RunOfContents(ss.slots, m, View(run), i);
    var s, ds := ss.slots[i], Contents(RunOf(ss.slots, m, View(run)), i);
    forall d | d in ds ensures d.id in DiscussionsAt(m, s) && ListsInterest(t, d.id, d.interest) {
      RecordedInterest(t, View(run), d);
    }
    forall id | id in DiscussionsAt(m, s) ensures exists d :: d in ds && d.id == id {
      assert RowFor(ss.slots, m, id, i);
      CandidateSlotIsUnique(t, ss, rows, run, m, id, i);
      RunOfCovers(ss.slots, m, View(run), id, i);
    }
  }

  lemma CandidateIsPermitted(t: Tables, ss: SearchStore, rows: seq<JoinRow>, run: Run<SearchDiscussion>, m: Rows)
    requires ForeignKeys(t) && Scheduled(t, ss, rows, run) && Candidate(t, m)
    ensures Assignment(BoardOf(ss), RunOf(ss.slots, m, View(run)))
  {
    RunIsRecorded(t, ss, rows, run);
    forall d, i | d in Order(View(run)) && RowFor(ss.slots, m, d.id, i) ensures ss.slots[i] in d.possible {
      var k :| k in m && k.0 == ss.slots[i] && m[k] == d.id;
      AllowedIsPossible(t, d, k.0);
    }
    RunOfIsAssignment(BoardOf(ss), m, View(run));
  }

  lemma AllowedIsPossible(t: Tables, d: Disc, s: SlotID)
    requires Records(t, d.id, d) && s in SchedulableSlots(t) && Allows(t, d.id, s)
    ensures s in d.possible
  {}

  lemma SnapshotSlots(t: Tables, ss: SearchStore, rows: seq<JoinRow>, run: Run<SearchDiscussion>)
    requires ForeignKeys(t) && Scheduled(t, ss, rows, run)
    ensures Lists(ss.slots, SchedulableSlots(t))
  {}

  /** The run's total is what has been stored is worth. */
  lemma StoredTotal(t: Tables, ss: SearchStore, rows: seq<JoinRow>, run: Run<SearchDiscussion>, after: Tables)
    requires ForeignKeys(t) && Rescheduled(t, ss, rows, run, after) && NonNegativeInterest(t)
    ensures Total(BoardOf(ss), View(run)) == ScheduleWorth(t, after.schedule)
  {
    hide Scheduled, Stored, Fits, PlanFor, RecordsAll, Total, ScheduleWorth, ForeignKeys, NonNegativeInterest, Lists;
    forall i | 0 <= i < |ss.slots|
      ensures RecordsAll(t, DiscussionsAt(after.schedule, ss.slots[i]), Contents(View(run), i))
    {
      StoredIsRecorded(t, ss, rows, run, after, i);
    }
    SnapshotSlots(t, ss, rows, run);
    TotalIsWorth(t, ss, View(run), after.schedule);
  }

  /** A candidate, as a run, has the candidate's worth as its total and fits the locations. */
  lemma CandidateTotal(t: Tables, ss: SearchStore, rows: seq<JoinRow>, run: Run<SearchDiscussion>, m: Rows)
    requires ForeignKeys(t) && Scheduled(t, ss, rows, run) && NonNegativeInterest(t) && Candidate(t, m)
    ensures Total(BoardOf(ss), RunOf(ss.slots, m, View(run))) == ScheduleWorth(t, m)
    ensures forall i :: 0 <= i < |ss.slots| ==> |Contents(RunOf(ss.slots, m, View(run)), i)| <= |t.locations|
  {
    assert forall k :: k in m ==> k.1 in t.locations;
    hide Scheduled, RecordsAll, Total, ScheduleWorth, ForeignKeys, NonNegativeInterest, Candidate, RunOf, Lists;
    var alt := RunOf(ss.slots, m, View(run));
    forall i | 0 <= i < |ss.slots|
      ensures RecordsAll(t, DiscussionsAt(m, ss.slots[i]), Contents(alt, i))
      ensures |Contents(alt, i)| <= |t.locations|
    {
      CandidateIsRecorded(t, ss, rows, run, m, i);
      RunOfFits(ss.slots, m, View(run), t.locations, i);
    }
    SnapshotSlots(t, ss, rows, run);
    TotalIsWorth(t, ss, alt, m);
  }

  /** The bounds on runs, as bounds on what is stored. */
  lemma CandidateBound(t: Tables, ss: SearchStore, rows: seq<JoinRow>, run: Run<SearchDiscussion>, after: Tables,
                       m: Rows)
    requires ForeignKeys(t) && Rescheduled(t, ss, rows, run, after) && Descending(View(run))
    requires NonNegativeInterest(t) && Candidate(t, m) && t.locations != {}
    ensures ScheduleWorth(t, m) <= (|t.locations| + 2) * ScheduleWorth(t, after.schedule) + BonusLoss(t)
    ensures DemandFits(t) ==> ScheduleWorth(t, m) <= 2 * ScheduleWorth(t, after.schedule) + BonusLoss(t)
  {
    hide Scheduled, Total, ScheduleWorth, SameOrder, Assignment, Descending, JoinRows, RunOf, DemandFits, Candidate,
      Stored, Fits, PlanFor, ForeignKeys, NonNegativeInterest;
    var alt := RunOf(ss.slots, m, View(run));
    StoredTotal(t, ss, rows, run, after);
    CandidateTotal(t, ss, rows, run, m);
    RunLength(t, ss, rows, run);
    RunOfSameOrder(ss.slots, m, View(run));
    CandidateIsPermitted(t, ss, rows, run, m);
    ScheduleQuality(t, ss, rows, run, alt);
    if DemandFits(t) {
      ScheduleFactorTwo(t, ss, rows, run, alt);
    }
  }

  /** The stored schedule is near-optimal, whatever the snapshot's order and the heuristic's ties. */
  lemma RescheduleIsNearOptimal(t: Tables, ss: SearchStore, rows: seq<JoinRow>, run: Run<SearchDiscussion>,
                                after: Tables)
    requires ForeignKeys(t) && Rescheduled(t, ss, rows, run, after) && Descending(View(run))
    ensures NearOptimal(t, after)
  {
    hide Rescheduled, Descending, ScheduleWorth, JoinRows;
    if NonNegativeInterest(t) {
      WorthNonNegative(t, after.schedule);
      forall m | Candidate(t, m)
        ensures ScheduleWorth(t, m) <= (|t.locations| + 2) * ScheduleWorth(t, after.schedule) + BonusLoss(t)
        ensures DemandFits(t) ==> ScheduleWorth(t, m) <= 2 * ScheduleWorth(t, after.schedule) + BonusLoss(t)
      {
        if t.locations == {} {
          assert m == map[];
          NothingIsWorthNothing(t);
        } else {
          CandidateBound(t, ss, rows, run, after, m);
        }
      }
    }
  }
}
