/** The whole of MakeSchedule: snapshot, heuristic, placement, storage. */
module Scheduling {
  import opened Ids
  import opened GreedyRuns
  import opened Scheduler
  import opened Store
  import opened Snapshot
  import opened ScheduleRows
  import opened Pipeline
  import opened Quality
  import opened Occupancy

  /** The heuristic followed by placement; it only writes to the snapshot's own objects. */
  method ScheduleAndPlace(ghost t: Tables, ss: SearchStore, ghost rows: seq<JoinRow>)
    returns (sched: Schedule, ghost run: Run<SearchDiscussion>)
    requires ForeignKeys(t) && IsSnapshot(t, ss, rows)
    modifies AllObjects(ss)
    ensures fresh(sched) && Scheduled(t, ss, rows, run) && Descending(View(run)) && Fits(ss, run)
    ensures |sched.slots| == |ss.slots|
    ensures forall i :: 0 <= i < |ss.slots| ==> PlanFor(ss, run)[i] == PlanSlotOf(sched.slots[i])
  {
    sched, run := MakeScheduleHeuristic(ss);
    HeuristicIsPlaceable(ss, sched.slots, run);
    RunFits(t, ss, rows, run);
    ObjectsComeFromRun(ss, sched.slots, run);
    var placed := PlaceDiscussions(sched.slots, ss.locations);
    assert placed;
    PlacementGivesPlan(ss, sched.slots, run);
  }

  lemma ObjectsComeFromRun(ss: SearchStore, slots: seq<ScheduleSlot>, run: Run<SearchDiscussion>)
    requires Holds(slots, ss.slots, run) && multiset(Order(run)) == multiset(ss.discussions)
    ensures Objects(slots) <= AllObjects(ss)
  {
    forall d | d in Objects(slots) ensures d in AllObjects(ss) {
      var i, j :| 0 <= i < |slots| && 0 <= j < |slots[i].discussions| && slots[i].discussions[j] == d;
      ContentsInOrder(run, i);
      SameBagMember(Order(run), ss.discussions, d);
    }
  }

  /** Takes a snapshot and plans from it. */
  method SnapshotAndPlan(t: Database)
    returns (r: Outcome<Schedule>, ghost ss: SearchStore, ghost rows: seq<JoinRow>, ghost run: Run<SearchDiscussion>)
    ensures r.Err? <==> SnapshotFails(t)
    ensures r.Ok? ==> fresh(r.value) && SchedulableSlots(t) != {}
    ensures r.Ok? ==> forall d :: d in t.discussions ==> t.discussions[d].isPublic
    ensures r.Ok? ==> Scheduled(t, ss, rows, run) && Descending(View(run)) && Fits(ss, run)
    ensures r.Ok? ==> |r.value.slots| == |ss.slots|
    ensures r.Ok? ==> forall i :: 0 <= i < |ss.slots| ==> PlanFor(ss, run)[i] == PlanSlotOf(r.value.slots[i])
  {
    FailureIsFound(t);
    hide IsSnapshot, SnapshotFails, IsGreedy, Descending;
    var snap;
    snap, rows := MakeSnapshot(t);
    if snap.Err? {
      ss, run := SearchStore([], [], []), Start;
      return Err(snap.error), ss, rows, run;
    }
    ss := snap.value;
    var sched;
    sched, run := ScheduleAndPlace(t, snap.value, rows);
    return Ok(sched), ss, rows, run;
  }

  /** The plan that a snapshot of t gives, to be stored some time later. */
  method PlanSchedule(t: Database) returns (r: Outcome<seq<PlanSlot>>)
    ensures r.Err? <==> SnapshotFails(t)
    ensures r.Ok? ==> forall d :: d in t.discussions ==> t.discussions[d].isPublic
    ensures
      && (forall d :: d in t.discussions ==> t.discussions[d].isPublic)
      && (exists s :: s in t.slots && !t.slots[s].isBreak && !t.slots[s].isLocked)
      && (forall p :: p in t.possible ==>
        exists q :: q in t.possible && q.0 == p.0 && !t.slots[q.1].isBreak && !t.slots[q.1].isLocked)
      ==> r.Ok?
    ensures r.Ok? ==> PlannedFrom(t, r.value)
  {
    hide Scheduled, PlannedFrom, Descending;
    var sched, ss, rows, run := SnapshotAndPlan(t);
    if sched.Err? {
      return Err(sched.error);
    }
    var slots := sched.value.slots;
    var plan := seq(|slots|, i requires 0 <= i < |slots| reads Objects(slots) => PlanSlotOf(slots[i]));
    assert plan == PlanFor(ss, run);
    HeuristicPlans(t, ss, rows, run);
    return Ok(plan);
  }

  /** Schedules everything that is not in a locked slot, with no other write in between. */
  method MakeSchedule(db: EventStore) returns (r: Outcome<()>)
    modifies db
    ensures r.Err? <==> SnapshotFails(old(db.t))
    ensures r.Ok? ==> forall d :: d in old(db.t).discussions ==> old(db.t).discussions[d].isPublic
    ensures
      && (forall d :: d in old(db.t).discussions ==> old(db.t).discussions[d].isPublic)
      && (exists s :: s in old(db.t).slots && !old(db.t).slots[s].isBreak && !old(db.t).slots[s].isLocked)
      && (forall p :: p in old(db.t).possible ==>
        exists q :: q in old(db.t).possible && q.0 == p.0
          && !old(db.t).slots[q.1].isBreak && !old(db.t).slots[q.1].isLocked)
      ==> r.Ok?
    ensures r.Err? ==> db.t == old(db.t)
    ensures r.Ok? ==> SafeReschedule(old(db.t), db.t) && NearOptimal(old(db.t), db.t)
  {
    hide Scheduled, SafeReschedule, NearOptimal, SetSlot, Descending;
    var sched, ss, rows, run := SnapshotAndPlan(db.t);
    if sched.Err? {
      return Err(sched.error);
    }
    StoringReschedules(db.t, ss, rows, run);
    ghost var after := SetSlots(db.t, PlanFor(ss, run), |PlanFor(ss, run)|).value;
    RescheduleIsSafe(db.t, ss, rows, run, after);
    RescheduleIsNearOptimal(db.t, ss, rows, run, after);
    var tx := new Transaction(db.t);
    r := ScheduleSetTx(tx, sched.value.slots, PlanFor(ss, run));
    db.t := tx.t;
  }
}
