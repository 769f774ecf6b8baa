/** Small states at which an operation succeeds and leaves the schedule out of order. */
module Counterexamples {
  import opened Ids
  import opened Scoring
  import opened GreedyRuns
  import opened Scheduler
  import opened Store
  import opened Snapshot
  import opened ScheduleRows
  import opened Pipeline
  import opened Timetable
  import opened Occupancy

  const OWNER := UserID("u")
  const TALK := DiscussionID("talk")
  const MORNING := SlotID("morning")
  const NOON := SlotID("noon")

  /** One public discussion, one location, and one day with a morning slot and the given noon slot. */
  function OneTalk(noon: Slot, schedule: map<RowKey, DiscussionID>): Tables {
    Tables(
      map[OWNER := User("u", false, true)],
      map[TALK := Discussion(OWNER, "title", "text", "title", "text", true)],
      map[],
      {1},
      map[1 := "day"],
      map[MORNING := Slot(1, 1, 0, false, false), NOON := noon],
      {},
      schedule)
  }

  function Noon(isBreak: bool, isLocked: bool): Slot {
    Slot(1, 2, 1, isBreak, isLocked)
  }

  /** The discussion is scheduled at noon. */
  const AT_NOON: map<RowKey, DiscussionID> := map[(NOON, 1) := TALK]

  lemma OneTalkIsFine(noon: Slot, schedule: map<RowKey, DiscussionID>)
    requires noon.dayID == 1 && noon.slotIdx == 2 && (schedule == map[] || schedule == AT_NOON)
    ensures Integrity(OneTalk(noon, schedule)) && AtMostOnce(OneTalk(noon, schedule))
  {
    var t := OneTalk(noon, schedule);
    assert forall k :: k in schedule ==> k == (NOON, 1);
    assert ForeignKeys(t);
  }

  lemma JoinedAtNoon(noon: Slot)
    requires ForeignKeys(OneTalk(noon, AT_NOON)) && !noon.isLocked
    ensures JoinRows(OneTalk(noon, AT_NOON)) == {JoinRow(TALK, Some((NOON, 1)))}
  {
    var t := OneTalk(noon, AT_NOON);
    hide ForeignKeys;
    assert (NOON, 1) in t.schedule;
    assert HasRow(t, TALK);
  }

  // ----- a slot that has become a break

  lemma BreakCanBeScheduled()
    requires ForeignKeys(OneTalk(Noon(true, false), AT_NOON))
    ensures
      var t := OneTalk(Noon(true, false), AT_NOON);
      !SnapshotFails(t) && DemandFits(t) && !NoUnlockedBreakScheduled(t)
  {
    var t := OneTalk(Noon(true, false), AT_NOON);
    JoinedAtNoon(Noon(true, false));
    hide ForeignKeys, JoinRows;
    assert MORNING in SchedulableSlots(t);
    assert Restriction(t, TALK) == {};
    assert (NOON, 1) in t.schedule;
    RoomForAll(t);
  }

  /** The only discussion sits in an unlocked break: whatever the heuristic does, it ends up scheduled twice. */
  lemma BreakDuplicates()
    ensures
      var t := OneTalk(Noon(true, false), AT_NOON);
      && Integrity(t) && AtMostOnce(t) && !SnapshotFails(t)
      && forall after :: SafeReschedule(t, after) ==> !AtMostOnce(after)
  {
    OneTalkIsFine(Noon(true, false), AT_NOON);
    assert ForeignKeys(OneTalk(Noon(true, false), AT_NOON));
    hide OneTalk, Integrity, ForeignKeys, SnapshotFails, DemandFits, AtMostOnce, NoUnlockedBreakScheduled;
    BreakCanBeScheduled();
  }

  // ----- a plan that has become stale

  /** Noon was locked and empty when the plan was made. */
  lemma MorningIsPlanned(d: SearchDiscussion)
    requires d.info == Disc(TALK, OWNER, {MORNING}, [], 0)
    requires ForeignKeys(OneTalk(Noon(false, true), map[]))
    ensures
      var t, ss := OneTalk(Noon(false, true), map[]), SearchStore([MORNING], [d], [1]);
      Scheduled(t, ss, [JoinRow(TALK, None)], Step(Start, d, 0))
  {
    var t, ss := OneTalk(Noon(false, true), map[]), SearchStore([MORNING], [d], [1]);
    var rows, run := [JoinRow(TALK, None)], Step(Start, d, 0);
    hide ForeignKeys;
    assert SchedulableSlots(t) == {MORNING};
    assert JoinRows(t) == {JoinRow(TALK, None)};
    assert Records(t, TALK, d.info);
    assert IsSnapshot(t, ss, rows);
    assert Order(run) == [d];
    assert IsGreedy(BoardOf(ss), View(run));
  }

  /**
   A plan puts the discussion into the morning while noon is locked. Then noon is unlocked and the
   discussion scheduled there. Each state is in order, storing the plan succeeds, and the discussion is
   scheduled twice.
   */
  lemma StalePlanDuplicates(d: SearchDiscussion)
    requires d.info == Disc(TALK, OWNER, {MORNING}, [], 0)
    ensures
      var earlier, t := OneTalk(Noon(false, true), map[]), OneTalk(Noon(false, false), AT_NOON);
      var ss, run := SearchStore([MORNING], [d], [1]), Step(Start, d, 0);
      && Integrity(earlier) && AtMostOnce(earlier) && NoBreakScheduled(earlier)
      && Integrity(t) && AtMostOnce(t) && NoBreakScheduled(t)
      && Scheduled(earlier, ss, [JoinRow(TALK, None)], run) && Fits(ss, run)
      && (forall p :: p in PlanFor(ss, run) ==> Storable(t, p))
      && forall after :: Stored(t, PlanFor(ss, run), after) ==> !AtMostOnce(after)
  {
    var earlier, t := OneTalk(Noon(false, true), map[]), OneTalk(Noon(false, false), AT_NOON);
    var ss, run := SearchStore([MORNING], [d], [1]), Step(Start, d, 0);
    OneTalkIsFine(Noon(false, true), map[]);
    OneTalkIsFine(Noon(false, false), AT_NOON);
    assert ForeignKeys(earlier) && ForeignKeys(t);
    assert earlier.discussions.Keys == {TALK} && earlier.discussions[TALK].isPublic;
    hide Integrity, ForeignKeys, Scheduled, AtMostOnce, NoBreakScheduled, Stored, Storable, PlannedFrom, OneTalk,
      PlanFor, Fits, NothingKeptIsPlanned;
    NoonIsNoBreak(Noon(false, true), map[]);
    NoonIsNoBreak(Noon(false, false), AT_NOON);
    MorningRows(d);
    MorningIsStorable();
    MorningIsPlanned(d);
    HeuristicPlans(earlier, ss, [JoinRow(TALK, None)], run);
    NoonIsKept();
    forall after | Stored(t, PlanFor(ss, run), after) ensures !AtMostOnce(after) {
      StalePlanIff(earlier, PlanFor(ss, run), t, after);
    }
  }

  lemma NoonIsNoBreak(noon: Slot, schedule: map<RowKey, DiscussionID>)
    requires ForeignKeys(OneTalk(noon, schedule)) && !noon.isBreak
    ensures NoBreakScheduled(OneTalk(noon, schedule))
  {}

  lemma MorningIsStorable()
    ensures forall p :: p in [PlanSlot(MORNING, [ScheduleRow(TALK, MORNING, 1)])] ==>
      Storable(OneTalk(Noon(false, false), AT_NOON), p)
  {}

  lemma MorningRows(d: SearchDiscussion)
    requires d.info.id == TALK
    ensures
      var ss, run := SearchStore([MORNING], [d], [1]), Step(Start, d, 0);
      Fits(ss, run) && PlanFor(ss, run) == [PlanSlot(MORNING, [ScheduleRow(TALK, MORNING, 1)])]
  {
    var ss, run := SearchStore([MORNING], [d], [1]), Step(Start, d, 0);
    assert Contents(run, 0) == [d];
    assert RowsFor(ss, run, 0) == [ScheduleRow(TALK, MORNING, 1)];
  }

  lemma NoonIsKept()
    ensures
      var t, plan := OneTalk(Noon(false, false), AT_NOON), [PlanSlot(MORNING, [ScheduleRow(TALK, MORNING, 1)])];
      !NothingKeptIsPlanned(t, plan)
  {
    var t, plan := OneTalk(Noon(false, false), AT_NOON), [PlanSlot(MORNING, [ScheduleRow(TALK, MORNING, 1)])];
    assert plan[0] in plan && ScheduleRow(TALK, MORNING, 1) in plan[0].rows;
    assert Plans(plan, (MORNING, 1), TALK);
    assert Keeps(t, plan, (NOON, 1));
  }

  // ----- a timetable that turns an occupied slot into a break

  function NoonBreak(): seq<TimetableDay> {
    [TimetableDay("day", [TimetableSlot(0, false), TimetableSlot(1, true)])]
  }

  lemma OneTalkIsContiguous()
    requires Integrity(OneTalk(Noon(false, false), AT_NOON))
    ensures
      var t := OneTalk(Noon(false, false), AT_NOON);
      Contiguous(t) && SlotsAre(t.slots, 1, 2)
  {
    var t := OneTalk(Noon(false, false), AT_NOON);
    assert DaysAre(t.days, 1);
    assert MORNING in t.slots && NOON in t.slots;
    assert Occupied(t.slots, 1, 1) && Occupied(t.slots, 1, 2);
    assert SlotsAre(t.slots, 1, 2);
  }

  /** The day keeps both slots, so nothing is deleted and no id is needed. */
  lemma NoonBreakNeedsNoIds(t: Tables, ids: nat -> SlotID)
    requires DaySize(t.slots, 1) == 2
    ensures IdsFresh(t, NoonBreak(), ids)
  {
    hide DaySize, FreshDraws, Drawn, VanishedUpTo;
    NothingDrawn(InUse(t, NoonBreak(), ids, 0), ids, DrawsBefore(t, NoonBreak(), 0));
  }

  lemma NoonBreakDeletesNothing()
    ensures Acceptable(OneTalk(Noon(false, false), AT_NOON), NoonBreak())
  {
    var t := OneTalk(Noon(false, false), AT_NOON);
    assert t.slots.Keys == {MORNING, NOON};
    assert NoonBreak()[0].slots == [TimetableSlot(0, false), TimetableSlot(1, true)];
    hide Deletable;
    assert forall s :: s in t.slots ==> !Vanishes(NoonBreak(), t.slots[s]);
  }

  lemma NoonBreakIsAccepted(ids: nat -> SlotID)
    requires Integrity(OneTalk(Noon(false, false), AT_NOON))
    ensures
      var t := OneTalk(Noon(false, false), AT_NOON);
      Acceptable(t, NoonBreak()) && IdsFresh(t, NoonBreak(), ids)
  {
    var t := OneTalk(Noon(false, false), AT_NOON);
    OneTalkIsContiguous();
    assert UniquePositions(t.slots);
    hide Integrity, UniquePositions, Contiguous, SlotsAre, DaySize, IdsFresh, Acceptable, NoonBreak;
    DaySizeIs(t.slots, 1, 2);
    NoonBreakNeedsNoIds(t, ids);
    NoonBreakDeletesNothing();
  }

  lemma NoonIsNotClear()
    requires ForeignKeys(OneTalk(Noon(false, false), AT_NOON))
    ensures
      var t := OneTalk(Noon(false, false), AT_NOON);
      NoBreakScheduled(t) && !ClearOfBreaks(t, NoonBreak())
  {
    hide ForeignKeys;
    assert (NOON, 1) in OneTalk(Noon(false, false), AT_NOON).schedule;
  }

  /**
   From a state in order, a request that makes noon a break is accepted whatever ids are generated,
   and leaves a discussion scheduled in a break.
   */
  lemma TimetableOccupiesBreak(ids: nat -> SlotID)
    ensures
      var t := OneTalk(Noon(false, false), AT_NOON);
      && Integrity(t) && Contiguous(t) && AtMostOnce(t) && NoBreakScheduled(t)
      && Acceptable(t, NoonBreak()) && IdsFresh(t, NoonBreak(), ids)
      && forall after: Database :: Reconciled(t, NoonBreak(), after) ==> !NoBreakScheduled(after)
  {
    var t, tt := OneTalk(Noon(false, false), AT_NOON), NoonBreak();
    OneTalkIsFine(Noon(false, false), AT_NOON);
    assert ForeignKeys(t);
    hide Integrity, ForeignKeys, Contiguous, ClearOfBreaks, Reconciled, AtMostOnce, Acceptable, IdsFresh, OneTalk,
      NoBreakScheduled;
    OneTalkIsContiguous();
    NoonIsNotClear();
    NoonBreakIsAccepted(ids);
    forall after: Database | Reconciled(t, tt, after) ensures !NoBreakScheduled(after) {
      TimetableKeepsBreaksFreeIff(t, tt, after);
    }
  }
}
