/** Reading the timetable back, with the attendance scores of every slot. */
module TimetableView {
  import opened Ids
  import opened Sums
  import opened Store
  import opened Queries
  import opened Snapshot
  import opened Worth
  import opened ScheduleRows
  import opened Pipeline
  import opened Attendance
  import opened Timetable

  datatype Entry = Entry(id: DiscussionID, title: string, attendees: nat, score: int)
  datatype ReadSlot = ReadSlot(time: int, isBreak: bool, discussions: seq<Entry>)
  datatype ReadDay = ReadDay(dayName: string, isFinal: bool, slots: seq<ReadSlot>)

  /** es shows every discussion that is somebody's first choice in the slot, by falling attendance. */
  ghost predicate ShowsSlot(t: Tables, day: DayID, idx: int, es: seq<Entry>) {
    var rows := IntJoin(t, day, idx);
    && (forall i, j :: 0 <= i < j < |es| ==> es[i].id != es[j].id && es[i].attendees >= es[j].attendees)
    && (forall d :: d in Discs(MaxInt(rows)) <==> exists e :: e in es && e.id == d)
    && (forall e :: e in es ==>
      && e.id in t.discussions && e.title == t.discussions[e.id].title
      && e.attendees == |DiscGroup(MaxInt(rows), e.id)|
      && e.score == ShownScore(rows)(e.id))
  }

  ghost function ScoreAt(es: seq<Entry>): int -> int {
    i => if 0 <= i < |es| then es[i].score else 0
  }

  /** The scores of a slot's entries, added up. */
  ghost function SumScores(es: seq<Entry>): int {
    SumTo(|es|, ScoreAt(es))
  }

  /** What is shown for a slot adds up to the attendance scores of its rows. */
  lemma EntriesAddUp(t: Tables, day: DayID, idx: int, es: seq<Entry>)
    requires ShowsSlot(t, day, idx, es)
    ensures SumScores(es) == ShownTotal(IntJoin(t, day, idx))
  {
    hide IntJoin, MaxInt, DiscGroup, Discs, ShownScore;
    var rows := IntJoin(t, day, idx);
    var ids := seq(|es|, i requires 0 <= i < |es| => es[i].id);
    forall d ensures d in ids <==> d in Discs(MaxInt(rows)) {
      if d in Discs(MaxInt(rows)) {
        var e :| e in es && e.id == d;
        var i :| 0 <= i < |es| && es[i] == e;
        assert ids[i] == d;
      }
      if d in ids {
        var i :| 0 <= i < |ids| && ids[i] == d;
        assert es[i] in es;
      }
    }
    assert forall i :: 0 <= i < |es| ==> es[i] in es;
    SumOverListing(ids, Discs(MaxInt(rows)), ScoreAt(es), ShownScore(rows));
  }

  /**
   Each entry counts those whom nothing in the slot interests more, and adds up their interest; a
   discussion has an entry exactly when there is such a user.
   */
  lemma EntriesShowAttendance(t: Database, s: SlotID, es: seq<Entry>, d: DiscussionID)
    requires s in t.slots && OncePerSlot(t, s)
    requires ShowsSlot(t, t.slots[s].dayID, t.slots[s].slotIdx, es)
    ensures (exists e :: e in es && e.id == d) <==> exists u :: Attends(t, s, d, u)
    ensures forall e :: e in es && e.id == d ==>
      e.attendees == |Attendees(t, s, d)| && e.score == SumSet(Attendees(t, s, d), InterestIn(t, d))
  {
    ShownIsAttendance(t, s, d);
    hide Integrity, OncePerSlot, IntJoin, MaxInt, DiscGroup, Discs, ShownScore;
    assert (exists e :: e in es && e.id == d) <==> Attendees(t, s, d) != {};
    AttendeesAttend(t, s, d);
  }

  lemma AttendeesAttend(t: Tables, s: SlotID, d: DiscussionID)
    ensures Attendees(t, s, d) != {} <==> exists u :: Attends(t, s, d, u)
  {
    if exists u :: Attends(t, s, d, u) {
      var u :| Attends(t, s, d, u);
      assert (u, d) in t.interest && u in Attendees(t, s, d);
    }
    if Attendees(t, s, d) != {} {
      var u :| u in Attendees(t, s, d);
    }
  }

  /**
   The scores shown for a slot add up to at least what its discussions are worth to the scheduler, and
   to exactly that if and only if nobody's highest interest there is shared by two discussions.
   */
  lemma EntriesVersusWorth(t: Database, s: SlotID, es: seq<Entry>)
    requires PositiveInterest(t) && OncePerSlot(t, s) && s in t.slots
    requires ShowsSlot(t, t.slots[s].dayID, t.slots[s].slotIdx, es)
    ensures SlotWorth(t, DiscussionsAt(t.schedule, s)) <= SumScores(es)
    ensures SlotWorth(t, DiscussionsAt(t.schedule, s)) == SumScores(es) <==> !TopShared(RowsOf(t, s))
  {
    EntriesAddUp(t, t.slots[s].dayID, t.slots[s].slotIdx, es);
    var ds := RecordingExists(t, DiscussionsAt(t.schedule, s));
    assert NonNegativeInterest(t);
    hide ShowsSlot, TopShared, RecordsAll, SlotWorth, SumScores, ShownTotal, OncePerSlot, IntJoin;
    ScoreIsWorth(t, DiscussionsAt(t.schedule, s), ds);
    ShownVersusScheduled(t, s, ds);
  }

  method SumInterest(rows: set<IntRow>) returns (sum: int)
    ensures sum == SumSet(rows, InterestOf())
  {
    sum := 0;
    var left := rows;
    while left != {}
      invariant left <= rows && sum + SumSet(left, InterestOf()) == SumSet(rows, InterestOf())
      decreases |left|
    {
      var x :| x in left;
      SumRemove(left, InterestOf(), x);
      sum := sum + x.interest;
      left := left - {x};
    }
  }

  lemma JoinedDiscsExist(t: Database, day: DayID, idx: int)
    ensures forall d :: d in Discs(MaxInt(IntJoin(t, day, idx))) ==> d in t.discussions
  {}

  method SelectEntries(t: Database, day: DayID, idx: int) returns (es: seq<Entry>)
    ensures ShowsSlot(t, day, idx, es)
  {
    var rows := IntJoin(t, day, idx);
    var top := MaxInt(rows);
    JoinedDiscsExist(t, day, idx);
    hide IntJoin, MaxInt, Integrity;
    var ids := SelectOrdered(Discs(top), (a, b) => |DiscGroup(top, a)| >= |DiscGroup(top, b)|);
    es := [];
    for i := 0 to |ids|
      invariant |es| == i
      invariant forall j :: 0 <= j < i ==>
        && es[j].id == ids[j] && ids[j] in t.discussions && es[j].title == t.discussions[ids[j]].title
        && es[j].attendees == |DiscGroup(top, ids[j])| && es[j].score == ShownScore(rows)(ids[j])
    {
      assert ids[i] in ids;
      var score := SumInterest(DiscGroup(top, ids[i]));
      es := es + [Entry(ids[i], t.discussions[ids[i]].title, |DiscGroup(top, ids[i])|, score)];
    }
    forall d | d in Discs(top) ensures exists e :: e in es && e.id == d {
      assert d in ids;
      var i :| 0 <= i < |ids| && ids[i] == d;
      assert es[i] in es;
    }
    forall e | e in es ensures e.id in Discs(top) {
      var i :| 0 <= i < |es| && es[i] == e;
      assert ids[i] in ids;
    }
  }

  // ----- what is read, whatever the stored ids are

  /** rs lists the slots q of day d by their index; the j-th shows the entries of the position with index j + 1. */
  ghost predicate ReadsSlots(t: Tables, d: DayID, q: seq<SlotID>, rs: seq<ReadSlot>) {
    && Lists(q, SlotsOf(t.slots, d)) && |q| == |rs|
    && (forall i, j :: 0 <= i < j < |q| ==> IndexLeq(t.slots, q[i], q[j]))
    && (forall j :: 0 <= j < |q| ==>
      q[j] in t.slots && rs[j].time == t.slots[q[j]].time && rs[j].isBreak == t.slots[q[j]].isBreak)
    && (forall j :: 0 <= j < |rs| ==> ShowsSlot(t, d, j + 1, rs[j].discussions))
  }

  ghost predicate ReadsDaySlots(t: Tables, d: DayID, rs: seq<ReadSlot>) {
    exists q :: ReadsSlots(t, d, q, rs)
  }

  /** No slot of the day is both unlocked and not a break. */
  predicate IsFinalDay(t: Tables, d: DayID) {
    !exists s :: s in t.slots && t.slots[s].dayID == d && !t.slots[s].isBreak && !t.slots[s].isLocked
  }

  /** Final means that there is nothing left to schedule into. */
  lemma FinalMeansNothingToSchedule(t: Tables, d: DayID)
    ensures IsFinalDay(t, d) <==> forall s :: s in SchedulableSlots(t) ==> t.slots[s].dayID != d
  {
    assert forall s :: s in SchedulableSlots(t) <==> s in t.slots && !t.slots[s].isBreak && !t.slots[s].isLocked;
  }

  /** rd has the name of day named, but finality and slots of day d. */
  ghost predicate ReadsDay(t: Tables, named: DayID, d: DayID, rd: ReadDay) {
    && named in t.days && rd.dayName == t.days[named]
    && (rd.isFinal <==> forall s :: s in SchedulableSlots(t) ==> t.slots[s].dayID != d)
    && ReadsDaySlots(t, d, rd.slots)
  }

  /** Names come from the stored days in order of their ids; everything else from the day with that number. */
  ghost predicate ReadsDays(t: Tables, order: seq<DayID>, days: seq<ReadDay>) {
    && Lists(order, t.days.Keys) && |order| == |days|
    && (forall i, j :: 0 <= i < j < |order| ==> order[i] <= order[j])
    && (forall i :: 0 <= i < |days| ==> ReadsDay(t, order[i], i + 1, days[i]))
  }

  method ReadDaySlots(t: Database, d: DayID) returns (rs: seq<ReadSlot>)
    ensures ReadsDaySlots(t, d, rs)
  {
    hide Integrity, ShowsSlot;
    var q := SelectDaySlots(t, d);
    assert forall j :: 0 <= j < |q| ==> q[j] in q;
    rs := [];
    for j := 0 to |q|
      invariant |rs| == j
      invariant forall i :: 0 <= i < j ==> rs[i].time == t.slots[q[i]].time && rs[i].isBreak == t.slots[q[i]].isBreak
      invariant forall i :: 0 <= i < j ==> ShowsSlot(t, d, i + 1, rs[i].discussions)
    {
      var entries := SelectEntries(t, d, j + 1);
      rs := rs + [ReadSlot(t.slots[q[j]].time, t.slots[q[j]].isBreak, entries)];
    }
    assert ReadsSlots(t, d, q, rs);
  }

  // ----- what is read when ids and indices are contiguous

  /** rs shows the slots of day d by position. */
  ghost predicate ShowsDaySlots(t: Tables, d: DayID, rs: seq<ReadSlot>) {
    && SlotsAre(t.slots, d, |rs|)
    && (forall s :: s in t.slots && t.slots[s].dayID == d && 1 <= t.slots[s].slotIdx <= |rs| ==>
      rs[t.slots[s].slotIdx - 1].time == t.slots[s].time && rs[t.slots[s].slotIdx - 1].isBreak == t.slots[s].isBreak)
    && (forall j :: 0 <= j < |rs| ==> ShowsSlot(t, d, j + 1, rs[j].discussions))
  }

  ghost predicate ShowsDay(t: Tables, d: DayID, rd: ReadDay) {
    && d in t.days && rd.dayName == t.days[d]
    && (rd.isFinal <==> forall s :: s in SchedulableSlots(t) ==> t.slots[s].dayID != d)
    && ShowsDaySlots(t, d, rd.slots)
  }

  /** days are the stored days, each with its own name and slots. */
  ghost predicate ShowsTimetable(t: Tables, days: seq<ReadDay>) {
    DaysAre(t.days, |days|) && forall i :: 0 <= i < |days| ==> ShowsDay(t, i + 1, days[i])
  }

  lemma SlotsByPosition(t: Database, d: DayID, q: seq<SlotID>, rs: seq<ReadSlot>)
    requires ReadsSlots(t, d, q, rs) && exists m: nat :: SlotsAre(t.slots, d, m)
    ensures ShowsDaySlots(t, d, rs)
  {
    hide Integrity, ShowsSlot;
    var m: nat :| SlotsAre(t.slots, d, m);
    OrderIsIndex(t, d, m, q);
    forall s | s in t.slots && t.slots[s].dayID == d && 1 <= t.slots[s].slotIdx <= m
      ensures rs[t.slots[s].slotIdx - 1].time == t.slots[s].time && rs[t.slots[s].slotIdx - 1].isBreak == t.slots[s].isBreak
    {
      assert s in q;
    }
  }

  /** With contiguous ids, every day gets its own name and slots. */
  lemma ReadingIsShowing(t: Database, order: seq<DayID>, days: seq<ReadDay>)
    requires Contiguous(t) && ReadsDays(t, order, days)
    ensures ShowsTimetable(t, days)
  {
    hide Integrity, ReadsSlots, ShowsDaySlots, SlotsAre, SchedulableSlots;
    var n: nat :| DaysAre(t.days, n);
    assert Counts(order, n);
    Counting(order, n);
    forall i | 0 <= i < |days| ensures ShowsDay(t, i + 1, days[i]) {
      var q :| ReadsSlots(t, i + 1, q, days[i].slots);
      SlotsByPosition(t, i + 1, q, days[i].slots);
    }
  }

  /** Reads the day names by id, and slots by counting; order says which day each name belongs to. */
  method GetTimetable(t: Database) returns (days: seq<ReadDay>, ghost order: seq<DayID>)
    ensures ReadsDays(t, order, days)
    ensures Contiguous(t) ==> ShowsTimetable(t, days)
  {
    hide Integrity, ReadsDaySlots, ShowsTimetable, Contiguous, IsFinalDay;
    var ids := SelectOrdered(t.days.Keys, (a, b) => a <= b);
    order := ids;
    days := [];
    for i := 0 to |ids|
      invariant |days| == i
      invariant forall j :: 0 <= j < i ==> ReadsDay(t, ids[j], j + 1, days[j])
    {
      assert ids[i] in ids;
      var dayID := i + 1;
      var slots := ReadDaySlots(t, dayID);
      FinalMeansNothingToSchedule(t, dayID);
      days := days + [ReadDay(t.days[ids[i]], IsFinalDay(t, dayID), slots)];
    }
    if Contiguous(t) {
      ReadingIsShowing(t, order, days);
    }
  }

  /** The same for the whole timetable that is returned: every slot, found by its position. */
  lemma TimetableVersusWorth(t: Database, days: seq<ReadDay>, s: SlotID)
    requires PositiveInterest(t) && OncePerSlot(t, s) && s in t.slots && ShowsTimetable(t, days)
    ensures 1 <= t.slots[s].dayID <= |days| && 1 <= t.slots[s].slotIdx <= |days[t.slots[s].dayID - 1].slots|
    ensures
      var es := days[t.slots[s].dayID - 1].slots[t.slots[s].slotIdx - 1].discussions;
      && SlotWorth(t, DiscussionsAt(t.schedule, s)) <= SumScores(es)
      && (SlotWorth(t, DiscussionsAt(t.schedule, s)) == SumScores(es) <==> !TopShared(RowsOf(t, s)))
  {
    DaysOfSlots(t);
    hide Integrity, ShowsSlot, TopShared, SlotWorth, SumScores, OncePerSlot, RowsOf, PositiveInterest;
    var d, idx := t.slots[s].dayID, t.slots[s].slotIdx;
    assert ShowsDay(t, d - 1 + 1, days[d - 1]);
    assert ShowsSlot(t, d, idx - 1 + 1, days[d - 1].slots[idx - 1].discussions);
    EntriesVersusWorth(t, s, days[d - 1].slots[idx - 1].discussions);
  }

  /** What a day that is shown as final holds, no later scheduling changes. */
  lemma FinalDayStays(t: Database, days: seq<ReadDay>, after: Tables, k: RowKey)
    requires ShowsTimetable(t, days) && SafeReschedule(t, after)
    requires k.0 in t.slots && 1 <= t.slots[k.0].dayID <= |days| && days[t.slots[k.0].dayID - 1].isFinal
    ensures k in after.schedule <==> k in t.schedule
    ensures k in after.schedule ==> after.schedule[k] == t.schedule[k]
  {
    hide Integrity, ShowsDaySlots, DaysAre, RespectsRestrictions, LeavesOutOnlyWhenFull, AtMostOnce, NoBreakScheduled,
      NoUnlockedBreakScheduled, DemandFits;
    var d := t.slots[k.0].dayID;
    assert ShowsDay(t, d - 1 + 1, days[d - 1]);
    assert k.0 !in SchedulableSlots(t);
    assert SameRow(after.schedule, t.schedule, k);
  }

  /** What was requested: names, times and breaks. */
  function PlainSlot(rs: ReadSlot): TimetableSlot {
    TimetableSlot(rs.time, rs.isBreak)
  }

  function Plain(rd: ReadDay): TimetableDay {
    TimetableDay(rd.dayName, seq(|rd.slots|, j requires 0 <= j < |rd.slots| => PlainSlot(rd.slots[j])))
  }

  lemma DaySlotsRoundTrip(t: Tables, tt: seq<TimetableDay>, after: Tables, d: DayID, rs: seq<ReadSlot>)
    requires DayIsDone(t.slots, after.slots, tt, d) && ShowsDaySlots(after, d, rs)
    ensures |rs| == |tt[d - 1].slots|
    ensures forall j :: 0 <= j < |rs| ==> PlainSlot(rs[j]) == tt[d - 1].slots[j]
  {
    hide ShowsSlot;
    var want := tt[d - 1].slots;
    assert |rs| < |want| ==> Occupied(after.slots, d, |rs| + 1);
    assert |want| < |rs| ==> Occupied(after.slots, d, |want| + 1);
    forall j | 0 <= j < |rs| ensures PlainSlot(rs[j]) == want[j] {
      assert Occupied(after.slots, d, j + 1);
      var s :| s in after.slots && after.slots[s].dayID == d && after.slots[s].slotIdx == j + 1;
    }
  }

  /** After a successful TimetableSet, GetTimetable returns exactly what was requested, in order. */
  lemma TimetableRoundTrip(t: Tables, tt: seq<TimetableDay>, after: Tables, days: seq<ReadDay>)
    requires Reconciled(t, tt, after)
    requires ShowsTimetable(after, days)
    ensures seq(|days|, i requires 0 <= i < |days| => Plain(days[i])) == tt
  {
    hide ShowsDaySlots, DayDone;
    assert |days| < |tt| ==> |tt| in after.days;
    assert |tt| < |days| ==> |days| in after.days;
    forall i | 0 <= i < |days| ensures Plain(days[i]) == tt[i] {
      assert ShowsDay(after, i + 1, days[i]) && DayIsDone(t.slots, after.slots, tt, i + 1);
      DaySlotsRoundTrip(t, tt, after, i + 1, days[i].slots);
      assert Plain(days[i]).slots == tt[i].slots;
    }
  }
}
