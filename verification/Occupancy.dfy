/**
 Exactly when an operation other than scheduling afresh, namely storing a plan that was made earlier or
 changing the timetable, keeps each discussion scheduled at most once and breaks free.
 */
module Occupancy {
  import opened Ids
  import opened GreedyRuns
  import opened Scheduler
  import opened Store
  import opened Snapshot
  import opened ScheduleRows
  import opened Pipeline
  import opened Timetable

  // ----- storing a plan on tables that may have changed since its snapshot

  /** The plan puts discussion d at k. */
  ghost predicate Plans(plan: seq<PlanSlot>, k: RowKey, d: DiscussionID) {
    exists p :: p in plan && ScheduleRow(d, k.0, k.1) in p.rows
  }

  /** The row of t at k is in a slot that the plan does not rewrite. */
  ghost predicate Keeps(t: Tables, plan: seq<PlanSlot>, k: RowKey) {
    k in t.schedule && !Targets(plan, k.0)
  }

  ghost predicate PlannedOnce(plan: seq<PlanSlot>) {
    forall k, l, d :: Plans(plan, k, d) && Plans(plan, l, d) ==> k == l
  }

  ghost predicate KeptOnce(t: Tables, plan: seq<PlanSlot>) {
    forall k, l :: Keeps(t, plan, k) && Keeps(t, plan, l) && t.schedule[k] == t.schedule[l] ==> k == l
  }

  /** No planned discussion also has a row that stays. */
  ghost predicate NothingKeptIsPlanned(t: Tables, plan: seq<PlanSlot>) {
    forall k, l :: Keeps(t, plan, k) ==> !Plans(plan, l, t.schedule[k])
  }

  ghost predicate StoresOnce(t: Tables, plan: seq<PlanSlot>) {
    PlannedOnce(plan) && KeptOnce(t, plan) && NothingKeptIsPlanned(t, plan)
  }

  /** The rows afterwards are the planned ones and those that stay. */
  lemma RowsAfter(t: Tables, plan: seq<PlanSlot>, after: Tables, k: RowKey, d: DiscussionID)
    requires WellPlacedPlan(plan) && Stored(t, plan, after)
    ensures k in after.schedule && after.schedule[k] == d <==>
            Plans(plan, k, d) || (Keeps(t, plan, k) && t.schedule[k] == d)
    ensures Plans(plan, k, d) ==> Targets(plan, k.0)
  {
    if Plans(plan, k, d) {
      var p :| p in plan && ScheduleRow(d, k.0, k.1) in p.rows;
      assert WellPlaced(p) && SlotStored(after.schedule, p);
      assert ScheduleRow(d, k.0, k.1).Key() == k;
    }
    if Targets(plan, k.0) {
      var p :| p in plan && p.slotID == k.0;
      assert SlotStored(after.schedule, p);
    } else {
      assert SameRow(after.schedule, t.schedule, k);
    }
  }

  lemma StoresOnceSuffices(t: Tables, plan: seq<PlanSlot>, after: Tables)
    requires WellPlacedPlan(plan) && Stored(t, plan, after) && StoresOnce(t, plan)
    ensures AtMostOnce(after)
  {
    hide Plans, Targets, Stored, WellPlacedPlan;
    forall k, l | k in after.schedule && l in after.schedule && after.schedule[k] == after.schedule[l] ensures k == l {
      RowsAfter(t, plan, after, k, after.schedule[k]);
      RowsAfter(t, plan, after, l, after.schedule[k]);
    }
  }

  lemma StoresOnceNeeded(t: Tables, plan: seq<PlanSlot>, after: Tables)
    requires WellPlacedPlan(plan) && Stored(t, plan, after) && AtMostOnce(after)
    ensures StoresOnce(t, plan)
  {
    hide Plans, Targets, Stored, WellPlacedPlan;
    forall k, l, d | Plans(plan, k, d) && Plans(plan, l, d) ensures k == l {
      RowsAfter(t, plan, after, k, d);
      RowsAfter(t, plan, after, l, d);
    }
    forall k, l | Keeps(t, plan, k) && Keeps(t, plan, l) && t.schedule[k] == t.schedule[l] ensures k == l {
      RowsAfter(t, plan, after, k, t.schedule[k]);
      RowsAfter(t, plan, after, l, t.schedule[k]);
    }
    forall k, l | Keeps(t, plan, k) ensures !Plans(plan, l, t.schedule[k]) {
      RowsAfter(t, plan, after, k, t.schedule[k]);
      RowsAfter(t, plan, after, l, t.schedule[k]);
    }
  }

  /** On any tables: exactly which plans can be stored without scheduling a discussion twice. */
  lemma StoredOnceIff(t: Tables, plan: seq<PlanSlot>, after: Tables)
    requires WellPlacedPlan(plan) && Stored(t, plan, after)
    ensures AtMostOnce(after) <==> StoresOnce(t, plan)
  {
    hide Stored, WellPlacedPlan, AtMostOnce, StoresOnce;
    if StoresOnce(t, plan) {
      StoresOnceSuffices(t, plan, after);
    }
    if AtMostOnce(after) {
      StoresOnceNeeded(t, plan, after);
    }
  }

  /** What heuristic and placement make of a snapshot plans no discussion twice. */
  lemma HeuristicPlansOnce(t: Tables, ss: SearchStore, rows: seq<JoinRow>, run: Run<SearchDiscussion>)
    requires ForeignKeys(t) && Scheduled(t, ss, rows, run) && Fits(ss, run) && AtMostOnce(t)
    ensures PlannedOnce(PlanFor(ss, run))
  {
    hide Scheduled, AtMostOnce;
    var plan := PlanFor(ss, run);
    forall k, l, d | Plans(plan, k, d) && Plans(plan, l, d) ensures k == l {
      var i, x := PlannedPosition(ss, run, k, d);
      var j, y := PlannedPosition(ss, run, l, d);
      PlacedOnce(t, ss, rows, run, i, x, j, y);
    }
  }

  lemma PlannedPosition(ss: SearchStore, run: Run<SearchDiscussion>, k: RowKey, d: DiscussionID)
    returns (i: nat, j: nat)
    requires Fits(ss, run) && Plans(PlanFor(ss, run), k, d)
    ensures i < |ss.slots| && j < |Contents(run, i)| && j < |ss.locations|
    ensures k == (ss.slots[i], ss.locations[j]) && Contents(run, i)[j].info.id == d
  {
    var p :| p in PlanFor(ss, run) && ScheduleRow(d, k.0, k.1) in p.rows;
    i :| 0 <= i < |ss.slots| && PlanFor(ss, run)[i] == p;
    j :| 0 <= j < |p.rows| && p.rows[j] == ScheduleRow(d, k.0, k.1);
  }

  /** What is certain about a plan made from a snapshot of t. */
  ghost predicate PlannedFrom(t: Tables, plan: seq<PlanSlot>)
    requires ForeignKeys(t)
  {
    && WellPlacedPlan(plan)
    && (forall s :: Targets(plan, s) <==> s in SchedulableSlots(t))
    && (forall k, d :: Plans(plan, k, d) ==> k.1 in t.locations && Joined(t, d) && Allows(t, d, k.0))
    && (forall k, d :: Plans(plan, k, d) ==> d in t.discussions && t.discussions[d].isPublic)
    && (AtMostOnce(t) ==> PlannedOnce(plan))
  }

  lemma HeuristicTargets(t: Tables, ss: SearchStore, rows: seq<JoinRow>, run: Run<SearchDiscussion>, s: SlotID)
    requires ForeignKeys(t) && Scheduled(t, ss, rows, run) && Fits(ss, run)
    ensures Targets(PlanFor(ss, run), s) <==> s in SchedulableSlots(t)
  {
    hide IsGreedy, Records, JoinRows;
    var plan := PlanFor(ss, run);
    if Targets(plan, s) {
      var p :| p in plan && p.slotID == s;
      var i :| 0 <= i < |plan| && plan[i] == p;
      assert ss.slots[i] in ss.slots;
    }
    if s in SchedulableSlots(t) {
      assert s in ss.slots;
      var i :| 0 <= i < |ss.slots| && ss.slots[i] == s;
      assert plan[i] in plan;
    }
  }

  lemma HeuristicPlansAllowed(t: Tables, ss: SearchStore, rows: seq<JoinRow>, run: Run<SearchDiscussion>,
                              k: RowKey, d: DiscussionID)
    requires ForeignKeys(t) && Scheduled(t, ss, rows, run) && Fits(ss, run) && Plans(PlanFor(ss, run), k, d)
    ensures k.1 in t.locations && Joined(t, d) && Allows(t, d, k.0)
  {
    hide IsGreedy;
    var i, j := PlannedPosition(ss, run, k, d);
    var m := FromSnapshot(t, ss, rows, run, i, Contents(run, i)[j]);
    RunFits(t, ss, rows, run);
    assert Contents(run, i)[j] in Contents(run, i);
    assert ss.locations[j] in ss.locations;
  }

  /** Whatever heuristic and placement make of a snapshot is such a plan. */
  lemma HeuristicPlans(t: Tables, ss: SearchStore, rows: seq<JoinRow>, run: Run<SearchDiscussion>)
    requires ForeignKeys(t) && Scheduled(t, ss, rows, run) && Fits(ss, run)
    requires forall d :: d in t.discussions ==> t.discussions[d].isPublic
    ensures PlannedFrom(t, PlanFor(ss, run))
  {
    PlanIsWellPlaced(t, ss, rows, run);
    JoinRowsExist(t);
    assert forall d :: Joined(t, d) ==> d in t.discussions;
    hide Scheduled, Plans, Targets, AtMostOnce, PlannedOnce, WellPlacedPlan, Allows, Joined, SchedulableSlots;
    forall s ensures Targets(PlanFor(ss, run), s) <==> s in SchedulableSlots(t) {
      HeuristicTargets(t, ss, rows, run, s);
    }
    forall k, d | Plans(PlanFor(ss, run), k, d) ensures k.1 in t.locations && Joined(t, d) && Allows(t, d, k.0) {
      HeuristicPlansAllowed(t, ss, rows, run, k, d);
    }
    if AtMostOnce(t) {
      HeuristicPlansOnce(t, ss, rows, run);
    }
  }

  /**
   Snapshot and storage are two transactions. A plan made from a snapshot of earlier tables, stored on
   whatever the tables have become, keeps at-most-once if and only if no planned discussion has a row
   in a slot that the plan does not rewrite.
   */
  lemma StalePlanIff(earlier: Database, plan: seq<PlanSlot>, t: Tables, after: Tables)
    requires PlannedFrom(earlier, plan) && AtMostOnce(earlier)
    requires AtMostOnce(t) && Stored(t, plan, after)
    ensures AtMostOnce(after) <==> NothingKeptIsPlanned(t, plan)
  {
    hide Stored, Keeps, Plans, PlannedOnce, WellPlacedPlan;
    StoredOnceIff(t, plan, after);
    AtMostOnceKeepsOnce(t, plan);
  }

  lemma AtMostOnceKeepsOnce(t: Tables, plan: seq<PlanSlot>)
    requires AtMostOnce(t)
    ensures KeptOnce(t, plan)
  {}

  /** Only slots that are not breaks can be rewritten, so breaks hold what they held. */
  lemma StoringKeepsBreaks(t: Database, plan: seq<PlanSlot>, after: Database)
    requires WellPlacedPlan(plan) && Stored(t, plan, after)
    requires forall p :: p in plan ==> Storable(t, p)
    ensures NoBreakScheduled(after) <==> NoBreakScheduled(t)
  {
    forall k: RowKey | k.0 in t.slots && t.slots[k.0].isBreak ensures SameRow(after.schedule, t.schedule, k) {
      assert !Targets(plan, k.0);
    }
  }

  // ----- changing the timetable

  /** The requested timetable has a break at this slot's position. */
  predicate BecomesBreak(tt: seq<TimetableDay>, slot: Slot) {
    && 1 <= slot.dayID <= |tt| && 1 <= slot.slotIdx <= |tt[slot.dayID - 1].slots|
    && tt[slot.dayID - 1].slots[slot.slotIdx - 1].isBreak
  }

  /** No slot that holds a schedule row is to be a break. */
  predicate ClearOfBreaks(t: Tables, tt: seq<TimetableDay>)
    requires ForeignKeys(t)
  {
    forall k :: k in t.schedule ==> !BecomesBreak(tt, t.slots[k.0])
  }

  lemma PositionsFromOne(t: Database, s: SlotID)
    requires Contiguous(t) && s in t.slots
    ensures 1 <= t.slots[s].dayID && 1 <= t.slots[s].slotIdx
  {
    var n: nat :| DaysAre(t.days, n);
    var m: nat :| SlotsAre(t.slots, t.slots[s].dayID, m);
  }

  /** A surviving slot is a break afterwards exactly when the request says so. */
  lemma BreakAfterwards(t: Database, tt: seq<TimetableDay>, after: Database, s: SlotID)
    requires Contiguous(t) && Reconciled(t, tt, after) && s in t.slots && !Vanishes(tt, t.slots[s])
    ensures s in after.slots && (after.slots[s].isBreak <==> BecomesBreak(tt, t.slots[s]))
  {
    PositionsFromOne(t, s);
    hide Integrity, Contiguous;
    ReconciledKeepsIdentity(t, tt, after, s);
    assert DayIsDone(t.slots, after.slots, tt, t.slots[s].dayID);
  }

  /** A new timetable leaves breaks free if and only if it makes no slot a break that holds a schedule row. */
  lemma TimetableKeepsBreaksFreeIff(t: Database, tt: seq<TimetableDay>, after: Database)
    requires Contiguous(t) && Reconciled(t, tt, after)
    ensures NoBreakScheduled(after) <==> ClearOfBreaks(t, tt)
  {
    forall k | k in t.schedule
      ensures k in after.schedule <==> !Vanishes(tt, t.slots[k.0])
      ensures !Vanishes(tt, t.slots[k.0]) ==>
        k.0 in after.slots && (after.slots[k.0].isBreak <==> BecomesBreak(tt, t.slots[k.0]))
    {
      PositionsFromOne(t, k.0);
      ReconciledKeepsIdentity(t, tt, after, k.0);
      if !Vanishes(tt, t.slots[k.0]) {
        BreakAfterwards(t, tt, after, k.0);
      }
    }
    assert forall k :: k in after.schedule ==> k in t.schedule;
  }
}
