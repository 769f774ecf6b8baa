/**
 Reconciliation of the stored days and slots with a requested timetable, in place: surviving
 positions keep their slot, their lock and their schedule rows.
 */
module Timetable {
  import opened Ids
  import opened Store
  import opened Queries

  datatype TimetableSlot = TimetableSlot(time: int, isBreak: bool)
  datatype TimetableDay = TimetableDay(dayName: string, slots: seq<TimetableSlot>)

  type Slots = map<SlotID, Slot>

  /** Times count nanoseconds. */
  const DAY_LENGTH := 24 * 60 * 60 * 1_000_000_000

  // ----- shape of the stored timetable

  ghost predicate Occupied(slots: Slots, d: DayID, i: int) {
    exists s :: s in slots && slots[s].dayID == d && slots[s].slotIdx == i
  }

  /** Day d has slots at exactly the indices 1 to m. */
  ghost predicate SlotsAre(slots: Slots, d: DayID, m: nat) {
    && (forall s :: s in slots && slots[s].dayID == d ==> 1 <= slots[s].slotIdx <= m)
    && (forall i :: 1 <= i <= m ==> Occupied(slots, d, i))
  }

  ghost predicate DaysAre(days: map<DayID, string>, n: nat) {
    forall d :: d in days <==> 1 <= d <= n
  }

  /** Day ids and, within each day, slot indices run from 1 without gaps. */
  ghost predicate Contiguous(t: Tables) {
    && (exists n: nat :: DaysAre(t.days, n))
    && (forall d :: d in t.days ==> exists m: nat :: SlotsAre(t.slots, d, m))
  }

  // ----- statements

  predicate InTail(slot: Slot, d: DayID, first: int) {
    slot.dayID == d && slot.slotIdx >= first
  }

  function Tail(slots: Slots, d: DayID, first: int): set<SlotID> {
    set s | s in slots && InTail(slots[s], d, first)
  }

  function Named(t: Tables): set<SlotID> {
    set p | p in t.possible :: p.1
  }

  function WithoutRows(schedule: map<RowKey, DiscussionID>, gone: set<SlotID>): map<RowKey, DiscussionID> {
    map k | k in schedule && k.0 !in gone :: schedule[k]
  }

  function UpdateAt(slots: Slots, d: DayID, i: int, ts: TimetableSlot): Slots {
    map s | s in slots :: if slots[s].dayID == d && slots[s].slotIdx == i
                          then slots[s].(time := ts.time, isBreak := ts.isBreak) else slots[s]
  }

  /** Slots that may be deleted: neither locked nor named in a possible-slots row. */
  predicate Deletable(t: Tables, s: SlotID) {
    s in t.slots && !t.slots[s].isLocked && s !in Named(t)
  }

  lemma DropRowsIsFine(t: Database, gone: set<SlotID>)
    ensures Integrity(t.(schedule := WithoutRows(t.schedule, gone)))
  {}

  /** Slots without schedule rows can go unless a possible-slots row names one of them. */
  lemma DropSlotsIsFine(t: Database, gone: set<SlotID>)
    requires gone <= t.slots.Keys && forall k :: k in t.schedule ==> k.0 !in gone
    ensures Integrity(t.(slots := t.slots - gone)) <==> gone !! Named(t)
  {
    if Integrity(t.(slots := t.slots - gone)) {
      forall s | s in gone ensures s !in Named(t) {}
    }
  }

  method DaySlotsDeleteTx(tx: Transaction, d: DayID, first: int) returns (r: Outcome<()>)
    modifies tx
    ensures r.Ok? <==> forall s :: s in Tail(old(tx.t).slots, d, first) ==> Deletable(old(tx.t), s)
    ensures r.Ok? ==> tx.t == old(tx.t).(
      slots := old(tx.t).slots - Tail(old(tx.t).slots, d, first),
      schedule := WithoutRows(old(tx.t).schedule, Tail(old(tx.t).slots, d, first)))
  {
    var gone := Tail(tx.t.slots, d, first);
    if exists s :: s in gone && tx.t.slots[s].isLocked {
      return Err(Refused);
    }
    DropRowsIsFine(tx.t, gone);
    hide Integrity;
    var ok := tx.Exec(tx.t.(schedule := WithoutRows(tx.t.schedule, gone)));
    assert ok;
    DropSlotsIsFine(tx.t, gone);
    assert Named(tx.t) == Named(old(tx.t));
    ok := tx.Exec(tx.t.(slots := tx.t.slots - gone));
    if !ok {
      return Err(ConstraintViolated);
    }
    return Ok(());
  }

  /** Slots that deletion from index 1 on does not reach keep their day from being deleted. */
  predicate NumberedFromOne(slots: Slots, d: DayID) {
    forall s :: s in slots && slots[s].dayID == d ==> 1 <= slots[s].slotIdx
  }

  /** A day can go once no slot refers to it. */
  lemma DropDayIsFine(t: Database, d: DayID)
    ensures Integrity(t.(days := t.days - {d})) <==> forall s :: s in t.slots ==> t.slots[s].dayID != d
  {
    var next := t.(days := t.days - {d});
    assert forall s :: s in t.slots && t.slots[s].dayID != d ==> t.slots[s].dayID in next.days;
    if Integrity(next) {
      assert forall s :: s in next.slots ==> next.slots[s].dayID in next.days;
    }
  }

  lemma DaysOfSlots(t: Database)
    ensures forall s :: s in t.slots ==> t.slots[s].dayID in t.days
  {}

  method DeleteDayTx(tx: Transaction, d: DayID) returns (r: Outcome<()>)
    modifies tx
    ensures r.Ok? <==>
      && d in old(tx.t).days && NumberedFromOne(old(tx.t).slots, d)
      && forall s :: s in Tail(old(tx.t).slots, d, 1) ==> Deletable(old(tx.t), s)
    ensures d !in old(tx.t).days ==> r == Err(NotFound)
    ensures r.Ok? ==> tx.t == old(tx.t).(
      days := old(tx.t).days - {d},
      slots := old(tx.t).slots - Tail(old(tx.t).slots, d, 1),
      schedule := WithoutRows(old(tx.t).schedule, Tail(old(tx.t).slots, d, 1)))
  {
    DaysOfSlots(tx.t);
    hide Integrity, Deletable, WithoutRows;
    ghost var t := tx.t;
    r := DaySlotsDeleteTx(tx, d, 1);
    if r.Ok? {
      var found := d in tx.t.days;
      DropDayIsFine(tx.t, d);
      assert NumberedFromOne(t.slots, d) <==> forall s :: s in tx.t.slots ==> tx.t.slots[s].dayID != d by {
        assert forall s :: s in tx.t.slots <==> s in t.slots && !InTail(t.slots[s], d, 1);
      }
      var ok := tx.Exec(tx.t.(days := tx.t.days - {d}));
      if !ok {
        return Err(ConstraintViolated);
      }
      if !found {
        return Err(NotFound);
      }
    }
  }

  lemma PutSlotIsFine(t: Database, id: SlotID, slot: Slot)
    requires id !in t.slots
    ensures Integrity(t.(slots := t.slots[id := slot])) <==>
            slot.dayID in t.days && !Occupied(t.slots, slot.dayID, slot.slotIdx)
  {
    var slots := t.slots[id := slot];
    if Occupied(t.slots, slot.dayID, slot.slotIdx) {
      var s :| s in t.slots && t.slots[s].dayID == slot.dayID && t.slots[s].slotIdx == slot.slotIdx;
      assert SamePosition(slots[s], slots[id]);
    }
    assert slots[id].dayID == slot.dayID;
  }

  /** Inserts an unlocked slot under a generated id; the day must exist, and id and position must be free. */
  method TimetableSlotAddTx(tx: Transaction, d: DayID, i: int, ts: TimetableSlot, id: SlotID) returns (r: Outcome<()>)
    modifies tx
    ensures r.Ok? <==> id !in old(tx.t).slots && d in old(tx.t).days && !Occupied(old(tx.t).slots, d, i)
    ensures r.Ok? ==> tx.t == old(tx.t).(slots := old(tx.t).slots[id := Slot(d, i, ts.time, ts.isBreak, false)])
    ensures r.Err? ==> r.error == ConstraintViolated && tx.t == old(tx.t)
  {
    hide Integrity, Occupied;
    if id in tx.t.slots {
      return Err(ConstraintViolated);
    }
    PutSlotIsFine(tx.t, id, Slot(d, i, ts.time, ts.isBreak, false));
    var ok := tx.Exec(tx.t.(slots := tx.t.slots[id := Slot(d, i, ts.time, ts.isBreak, false)]));
    return if ok then Ok(()) else Err(ConstraintViolated);
  }

  method TimetableSlotUpdateTx(tx: Transaction, d: DayID, i: int, ts: TimetableSlot)
    modifies tx
    ensures tx.t == old(tx.t).(slots := UpdateAt(old(tx.t).slots, d, i, ts))
    ensures tx.t.slots.Keys == old(tx.t).slots.Keys
  {
    var ok := tx.Exec(tx.t.(slots := UpdateAt(tx.t.slots, d, i, ts)));
    assert ok;
  }

  // ----- one day

  /** The slots of day d at indices up to n have the requested times and break flags. */
  ghost predicate MatchesDay(slots: Slots, d: DayID, want: seq<TimetableSlot>, n: nat)
    requires n <= |want|
  {
    forall s :: s in slots && slots[s].dayID == d && 1 <= slots[s].slotIdx <= n ==>
      slots[s].time == want[slots[s].slotIdx - 1].time && slots[s].isBreak == want[slots[s].slotIdx - 1].isBreak
  }

  /** Every old slot of day d at an index up to n is still there, at its place and with its lock. */
  ghost predicate KeepsDay(old_: Slots, slots: Slots, d: DayID, n: int) {
    forall s :: s in old_ && old_[s].dayID == d && old_[s].slotIdx <= n ==>
      s in slots && SamePosition(slots[s], old_[s]) && slots[s].isLocked == old_[s].isLocked
  }

  /** A locked slot of day d was there, locked, before. */
  ghost predicate NoNewLocks(old_: Slots, slots: Slots, d: DayID) {
    forall s :: s in slots && slots[s].dayID == d && slots[s].isLocked ==>
      s in old_ && SamePosition(slots[s], old_[s]) && old_[s].isLocked
  }

  ghost predicate SameOn(old_: Slots, slots: Slots, d: DayID) {
    && (forall s :: s in old_ && old_[s].dayID == d ==> s in slots && slots[s] == old_[s])
    && (forall s :: s in slots && slots[s].dayID == d ==> s in old_ && slots[s] == old_[s])
  }

  ghost predicate OthersSame(old_: Slots, slots: Slots, d: DayID) {
    forall e :: e != d ==> SameOn(old_, slots, e)
  }

  /** Day d has been reconciled with want. */
  ghost predicate DayDone(old_: Slots, slots: Slots, d: DayID, want: seq<TimetableSlot>) {
    && SlotsAre(slots, d, |want|)
    && MatchesDay(slots, d, want, |want|)
    && KeepsDay(old_, slots, d, |want|)
    && NoNewLocks(old_, slots, d)
  }

  /** Day d after its first i slots: base has kept slots there, and indices beyond kept are being added. */
  ghost predicate Progress(base: Slots, slots: Slots, d: DayID, want: seq<TimetableSlot>, kept: nat, i: nat)
    requires i <= |want|
  {
    && SlotsAre(slots, d, if i < kept then kept else i)
    && MatchesDay(slots, d, want, i)
    && KeepsDay(base, slots, d, kept)
    && NoNewLocks(base, slots, d)
    && OthersSame(base, slots, d)
  }

  lemma ProgressUpdate(base: Slots, slots: Slots, d: DayID, want: seq<TimetableSlot>, kept: nat, i: nat)
    requires i < |want| && i < kept && Progress(base, slots, d, want, kept, i)
    ensures Progress(base, UpdateAt(slots, d, i + 1, want[i]), d, want, kept, i + 1)
  {
    var after := UpdateAt(slots, d, i + 1, want[i]);
    forall j | 1 <= j <= kept ensures Occupied(after, d, j) {
      assert Occupied(slots, d, j);
      var s :| s in slots && slots[s].dayID == d && slots[s].slotIdx == j;
      assert s in after && after[s].dayID == d && after[s].slotIdx == j;
    }
    forall e | e != d ensures SameOn(base, after, e) {
      assert SameOn(base, slots, e);
    }
  }

  lemma ProgressAdd(base: Slots, slots: Slots, d: DayID, want: seq<TimetableSlot>, kept: nat, i: nat, id: SlotID)
    requires SlotsAre(base, d, kept)
    requires kept <= i < |want| && Progress(base, slots, d, want, kept, i) && id !in slots
    ensures Progress(base, slots[id := Slot(d, i + 1, want[i].time, want[i].isBreak, false)], d, want, kept, i + 1)
  {
    var after := slots[id := Slot(d, i + 1, want[i].time, want[i].isBreak, false)];
    forall j | 1 <= j <= i + 1 ensures Occupied(after, d, j) {
      if j <= i {
        assert Occupied(slots, d, j);
        var s :| s in slots && slots[s].dayID == d && slots[s].slotIdx == j;
        assert s in after && after[s].dayID == d && after[s].slotIdx == j;
      } else {
        assert after[id].dayID == d && after[id].slotIdx == j;
      }
    }
    forall e | e != d ensures SameOn(base, after, e) {
      assert SameOn(base, slots, e);
    }
  }

  lemma ProgressStart(base: Slots, d: DayID, want: seq<TimetableSlot>, kept: nat)
    requires SlotsAre(base, d, kept)
    ensures Progress(base, base, d, want, kept, 0)
  {}

  /** Day d keeps exactly its first n slots, as they were; other days are unchanged. */
  ghost predicate Trimmed(old_: Slots, base: Slots, d: DayID, n: nat) {
    SlotsAre(base, d, n) && OthersSame(old_, base, d) && KeepsDay(old_, base, d, n) && NoNewLocks(old_, base, d)
  }

  /** Dropping the tail leaves a day with the first indices and other days alone. */
  lemma TailDropped(slots: Slots, d: DayID, m: nat, n: nat)
    requires SlotsAre(slots, d, m) && n <= m
    ensures Trimmed(slots, slots - Tail(slots, d, n + 1), d, n)
  {
    var base := slots - Tail(slots, d, n + 1);
    forall j | 1 <= j <= n ensures Occupied(base, d, j) {
      assert Occupied(slots, d, j);
      var s :| s in slots && slots[s].dayID == d && slots[s].slotIdx == j;
      assert s in base && base[s].dayID == d && base[s].slotIdx == j;
    }
  }

  /** Progress measured from the trimmed day is progress measured from the day before trimming. */
  lemma ProgressDone(old_: Slots, base: Slots, slots: Slots, d: DayID, want: seq<TimetableSlot>, m: nat, kept: nat)
    requires SlotsAre(old_, d, m) && kept == (if m < |want| then m else |want|)
    requires Trimmed(old_, base, d, kept)
    requires Progress(base, slots, d, want, kept, |want|)
    ensures DayDone(old_, slots, d, want) && OthersSame(old_, slots, d)
  {
    forall e | e != d ensures SameOn(old_, slots, e) {
      assert SameOn(old_, base, e) && SameOn(base, slots, e);
    }
  }

  lemma NextIsFree(base: Slots, slots: Slots, d: DayID, want: seq<TimetableSlot>, kept: nat, i: nat)
    requires kept <= i <= |want| && Progress(base, slots, d, want, kept, i)
    ensures !Occupied(slots, d, i + 1)
  {}

  // ----- generated ids

  /** The ids with numbers from lo up to hi. */
  ghost function Drawn(ids: nat -> SlotID, lo: nat, hi: nat): set<SlotID> {
    set j: nat | lo <= j < hi :: ids(j)
  }

  /** The n ids from number c on are not in use and differ from each other. */
  ghost predicate FreshDraws(used: set<SlotID>, ids: nat -> SlotID, c: nat, n: nat) {
    forall j: nat :: c <= j < c + n ==> ids(j) !in used + Drawn(ids, c, j)
  }

  /** How many ids a day takes that has m slots and shall have those of want. */
  function Needed(m: nat, want: seq<TimetableSlot>): nat {
    if m < |want| then |want| - m else 0
  }

  lemma DrawOne(used: set<SlotID>, ids: nat -> SlotID, c: nat, n: nat)
    requires FreshDraws(used, ids, c, n)
    ensures FreshDraws(used, ids, c, n + 1) <==> ids(c + n) !in used + Drawn(ids, c, c + n)
    ensures Drawn(ids, c, c + n + 1) == Drawn(ids, c, c + n) + {ids(c + n)}
  {}

  lemma FreshPrefix(used: set<SlotID>, ids: nat -> SlotID, c: nat, n: nat, all: nat)
    requires n <= all && FreshDraws(used, ids, c, all)
    ensures FreshDraws(used, ids, c, n)
  {}

  /**
   Updates the slots that the day already has and adds the rest under the ids from number c on; kept of
   the m old ones are left.
   */
  method FillDayTx(tx: Transaction, d: DayID, want: seq<TimetableSlot>, m: nat, ghost kept: nat,
                   ids: nat -> SlotID, c: nat)
    returns (r: Outcome<()>, c': nat)
    requires d in tx.t.days
    requires kept == (if m < |want| then m else |want|) && SlotsAre(tx.t.slots, d, kept)
    modifies tx
    ensures r.Ok? <==> FreshDraws(old(tx.t).slots.Keys, ids, c, Needed(m, want))
    ensures r.Ok? ==> c' == c + Needed(m, want) && tx.t.slots.Keys == old(tx.t).slots.Keys + Drawn(ids, c, c')
    ensures r.Ok? ==> tx.t == old(tx.t).(slots := tx.t.slots)
    ensures r.Ok? ==> Progress(old(tx.t).slots, tx.t.slots, d, want, kept, |want|)
  {
    hide Integrity, FreshDraws, Progress, SlotsAre, Occupied, UpdateAt, Drawn;
    ghost var base := tx.t;
    c' := c;
    ProgressStart(base.slots, d, want, kept);
    NothingDrawn(base.slots.Keys, ids, c);
    for i := 0 to |want|
      invariant tx.t == base.(slots := tx.t.slots)
      invariant Progress(base.slots, tx.t.slots, d, want, kept, i)
      invariant c' == c + if i < kept then 0 else i - kept
      invariant FreshDraws(base.slots.Keys, ids, c, c' - c)
      invariant tx.t.slots.Keys == base.slots.Keys + Drawn(ids, c, c')
    {
      ghost var slots := tx.t.slots;
      if i < m {
        ProgressUpdate(base.slots, slots, d, want, kept, i);
        TimetableSlotUpdateTx(tx, d, i + 1, want[i]);
      } else {
        NextIsFree(base.slots, slots, d, want, kept, i);
        DrawOne(base.slots.Keys, ids, c, c' - c);
        r := TimetableSlotAddTx(tx, d, i + 1, want[i], ids(c'));
        if r.Err? {
          if FreshDraws(base.slots.Keys, ids, c, Needed(m, want)) {
            FreshPrefix(base.slots.Keys, ids, c, c' - c + 1, Needed(m, want));
          }
          return;
        }
        ProgressAdd(base.slots, slots, d, want, kept, i, ids(c'));
        c' := c' + 1;
      }
    }
    r := Ok(());
  }

  lemma NothingDrawn(used: set<SlotID>, ids: nat -> SlotID, c: nat)
    ensures FreshDraws(used, ids, c, 0) && Drawn(ids, c, c) == {}
  {}

  lemma NoTail(slots: Slots, schedule: map<RowKey, DiscussionID>, d: DayID, m: nat, n: nat)
    requires SlotsAre(slots, d, m) && m <= n
    ensures Tail(slots, d, n + 1) == {}
    ensures Trimmed(slots, slots, d, m)
    ensures WithoutRows(schedule, Tail(slots, d, n + 1)) == schedule
  {}

  /** Removes the slots of day d beyond index n, if there are any; m is how many it has. */
  method TrimDayTx(tx: Transaction, d: DayID, m: nat, n: nat) returns (r: Outcome<()>)
    requires SlotsAre(tx.t.slots, d, m)
    modifies tx
    ensures r.Ok? <==> forall s :: s in Tail(old(tx.t).slots, d, n + 1) ==> Deletable(old(tx.t), s)
    ensures r.Ok? ==> Trimmed(old(tx.t).slots, tx.t.slots, d, if m < n then m else n)
    ensures r.Ok? ==> tx.t.slots.Keys == old(tx.t).slots.Keys - Tail(old(tx.t).slots, d, n + 1)
    ensures r.Ok? ==> tx.t == old(tx.t).(
      slots := tx.t.slots,
      schedule := WithoutRows(old(tx.t).schedule, Tail(old(tx.t).slots, d, n + 1)))
  {
    hide Integrity;
    if m > n {
      TailDropped(tx.t.slots, d, m, n);
      r := DaySlotsDeleteTx(tx, d, n + 1);
    } else {
      NoTail(tx.t.slots, tx.t.schedule, d, m, n);
      r := Ok(());
    }
  }

  /** Day d can be reconciled with want, drawing from number c on: its tail may go and the ids are free. */
  ghost predicate DayFits(t: Tables, d: DayID, m: nat, want: seq<TimetableSlot>, ids: nat -> SlotID, c: nat) {
    && (forall s :: s in Tail(t.slots, d, |want| + 1) ==> Deletable(t, s))
    && FreshDraws(t.slots.Keys - Tail(t.slots, d, |want| + 1), ids, c, Needed(m, want))
  }

  /** What reconciling the slots of day d changes. */
  ghost predicate SlotsReconciled(t: Tables, d: DayID, m: nat, want: seq<TimetableSlot>, ids: nat -> SlotID,
                                  c: nat, c': nat, after: Slots)
  {
    && c' == c + Needed(m, want)
    && after.Keys == t.slots.Keys - Tail(t.slots, d, |want| + 1) + Drawn(ids, c, c')
    && DayDone(t.slots, after, d, want)
    && OthersSame(t.slots, after, d)
  }

  /** Brings the m slots of day d in line with want. */
  method ReconcileSlotsTx(tx: Transaction, d: DayID, m: nat, want: seq<TimetableSlot>, ids: nat -> SlotID, c: nat)
    returns (r: Outcome<()>, c': nat)
    requires d in tx.t.days && SlotsAre(tx.t.slots, d, m)
    modifies tx
    ensures r.Ok? <==> DayFits(old(tx.t), d, m, want, ids, c)
    ensures r.Ok? ==> SlotsReconciled(old(tx.t), d, m, want, ids, c, c', tx.t.slots)
    ensures r.Ok? ==> tx.t == old(tx.t).(
      slots := tx.t.slots,
      schedule := WithoutRows(old(tx.t).schedule, Tail(old(tx.t).slots, d, |want| + 1)))
  {
    hide Integrity, FreshDraws, DayDone;
    c' := c;
    ghost var before := tx.t.slots;
    r := TrimDayTx(tx, d, m, |want|);
    if r.Err? {
      return;
    }
    ghost var base, kept := tx.t.slots, if m < |want| then m else |want|;
    r, c' := FillDayTx(tx, d, want, m, kept, ids, c);
    if r.Ok? {
      ProgressDone(before, base, tx.t.slots, d, want, m, kept);
    }
  }

  method DayUpdateTx(tx: Transaction, d: DayID, name: string)
    requires d in tx.t.days
    modifies tx
    ensures tx.t == old(tx.t).(days := old(tx.t).days[d := name])
    ensures forall s :: Deletable(tx.t, s) <==> Deletable(old(tx.t), s)
  {
    PutDayIsFine(tx.t, d, name);
    hide Integrity;
    var ok := tx.Exec(tx.t.(days := tx.t.days[d := name]));
    assert ok;
  }

  /** The number of slots of day d. */
  ghost function DaySize(slots: Slots, d: DayID): nat {
    |SlotsOf(slots, d)|
  }

  lemma {:induction false} DaySizeIs(slots: Slots, d: DayID, m: nat)
    requires UniquePositions(slots) && SlotsAre(slots, d, m)
    ensures DaySize(slots, d) == m
    decreases m
  {
    if m == 0 {
      assert SlotsOf(slots, d) == {};
    } else {
      assert Occupied(slots, d, m);
      var s :| s in slots && slots[s].dayID == d && slots[s].slotIdx == m;
      var rest := slots - {s};
      forall i | 1 <= i <= m - 1 ensures Occupied(rest, d, i) {
        assert Occupied(slots, d, i);
        var r :| r in slots && slots[r].dayID == d && slots[r].slotIdx == i;
        assert r in rest && rest[r].dayID == d && rest[r].slotIdx == i;
      }
      forall r | r in rest && rest[r].dayID == d ensures 1 <= rest[r].slotIdx <= m - 1 {
        assert SamePosition(slots[r], slots[s]) ==> r == s;
      }
      DaySizeIs(rest, d, m - 1);
      assert SlotsOf(slots, d) == SlotsOf(rest, d) + {s};
    }
  }

  /** Updates day d to name and want, drawing ids from number c on. */
  method TimetableDayUpdateTx(tx: Transaction, d: DayID, name: string, want: seq<TimetableSlot>,
                              ids: nat -> SlotID, c: nat)
    returns (r: Outcome<()>, c': nat)
    requires d in tx.t.days && exists m: nat :: SlotsAre(tx.t.slots, d, m)
    modifies tx
    ensures r.Ok? <==> DayFits(old(tx.t), d, DaySize(old(tx.t).slots, d), want, ids, c)
    ensures r.Ok? ==> SlotsReconciled(old(tx.t), d, DaySize(old(tx.t).slots, d), want, ids, c, c', tx.t.slots)
    ensures r.Ok? ==> tx.t == old(tx.t).(
      days := old(tx.t).days[d := name],
      slots := tx.t.slots,
      schedule := WithoutRows(old(tx.t).schedule, Tail(old(tx.t).slots, d, |want| + 1)))
  {
    DayUpdateTx(tx, d, name);
    var m := GetMaxSlotIdx(tx.t.slots, d);
    DaySizeIs(tx.t.slots, d, m);
    hide Integrity, FreshDraws, DayDone, DaySize;
    r, c' := ReconcileSlotsTx(tx, d, m, want, ids, c);
  }

  /** Adds day d, which does not exist yet, with its slots. */
  method TimetableDayAddTx(tx: Transaction, d: DayID, name: string, want: seq<TimetableSlot>,
                           ids: nat -> SlotID, c: nat)
    returns (r: Outcome<()>, c': nat)
    requires d !in tx.t.days
    modifies tx
    ensures r.Ok? <==> DayFits(old(tx.t), d, DaySize(old(tx.t).slots, d), want, ids, c)
    ensures r.Ok? ==> SlotsReconciled(old(tx.t), d, DaySize(old(tx.t).slots, d), want, ids, c, c', tx.t.slots)
    ensures r.Ok? ==> tx.t == old(tx.t).(days := old(tx.t).days[d := name], slots := tx.t.slots)
  {
    hide Integrity, FreshDraws, DayDone, DaySize, SlotsAre, Tail;
    ghost var before := tx.t.slots;
    NoSlotsYet(tx.t, d, |want| + 1);
    PutDayIsFine(tx.t, d, name);
    var ok := tx.Exec(tx.t.(days := tx.t.days[d := name]));
    assert ok;
    r, c' := FillDayTx(tx, d, want, 0, 0, ids, c);
    if r.Ok? {
      ProgressDone(before, before, tx.t.slots, d, want, 0, 0);
    }
  }

  lemma NoSlotsYet(t: Database, d: DayID, first: int)
    requires d !in t.days
    ensures Tail(t.slots, d, first) == {} && DaySize(t.slots, d) == 0
    ensures WithoutRows(t.schedule, Tail(t.slots, d, first)) == t.schedule
    ensures t.slots.Keys - Tail(t.slots, d, first) == t.slots.Keys
    ensures SlotsAre(t.slots, d, 0) && Trimmed(t.slots, t.slots, d, 0)
  {
    assert SlotsOf(t.slots, d) == {};
  }

  lemma PutDayIsFine(t: Database, d: DayID, name: string)
    ensures Integrity(t.(days := t.days[d := name]))
  {}

  /** The highest element, or zero when there is none. */
  method MaxOrZero(s: set<int>, ghost n: nat) returns (m: int)
    requires forall x :: x in s ==> 1 <= x <= n
    requires n > 0 ==> n in s
    ensures m == n
  {
    var r := SelectOrdered(s, (a, b) => a <= b);
    if r == [] {
      assert n !in s;
      return 0;
    }
    assert r[|r| - 1] in r;
    assert n in r;
    return r[|r| - 1];
  }

  method GetMaxSlotIdx(slots: Slots, d: DayID) returns (m: nat)
    requires exists m: nat :: SlotsAre(slots, d, m)
    ensures SlotsAre(slots, d, m)
  {
    ghost var n: nat :| SlotsAre(slots, d, n);
    var indices := set s | s in slots && slots[s].dayID == d :: slots[s].slotIdx;
    if n > 0 {
      assert Occupied(slots, d, n);
    }
    m := MaxOrZero(indices, n);
  }

  method GetMaxDay(days: map<DayID, string>) returns (m: nat)
    requires exists n: nat :: DaysAre(days, n)
    ensures DaysAre(days, m)
  {
    ghost var n: nat :| DaysAre(days, n);
    m := MaxOrZero(days.Keys, n);
  }

  // ----- the whole timetable

  /** The position of this slot does not exist in the requested timetable. */
  predicate Vanishes(tt: seq<TimetableDay>, slot: Slot) {
    slot.dayID < 1 || slot.dayID > |tt| || slot.slotIdx > |tt[slot.dayID - 1].slots|
  }

  predicate SpansADay(want: seq<TimetableSlot>) {
    |want| > 2 ==> want[|want| - 1].time - want[0].time <= DAY_LENGTH
  }

  /** Last minus first is at most 24 hours. */
  predicate EndsWithinADay(want: seq<TimetableSlot>) {
    want != [] ==> want[|want| - 1].time - want[0].time <= DAY_LENGTH
  }

  predicate InTimeOrder(want: seq<TimetableSlot>) {
    forall i, j :: 0 <= i < j < |want| ==> want[i].time <= want[j].time
  }

  /** All slots lie within 24 hours of each other. */
  predicate WithinADay(want: seq<TimetableSlot>) {
    forall i, j :: 0 <= i < |want| && 0 <= j < |want| ==> want[j].time - want[i].time <= DAY_LENGTH
  }

  /**
   What the span check gives: it bounds the distance from first to last for every day except those of
   two slots, and for a day in time order, other than those, it is the same as all slots lying within
   24 hours.
   */
  lemma SpanCheckBounds(want: seq<TimetableSlot>)
    ensures SpansADay(want) <==> EndsWithinADay(want) || |want| == 2
    ensures InTimeOrder(want) && |want| != 2 ==> (SpansADay(want) <==> WithinADay(want))
    ensures InTimeOrder(want) && |want| == 2 ==> SpansADay(want) && (EndsWithinADay(want) <==> WithinADay(want))
  {
    if InTimeOrder(want) && want != [] && EndsWithinADay(want) {
      forall i, j | 0 <= i < |want| && 0 <= j < |want| ensures want[j].time - want[i].time <= DAY_LENGTH {
        assert want[0].time <= want[i].time && want[j].time <= want[|want| - 1].time;
      }
    }
  }

  /** Both exceptions occur: two slots far apart, and a later slot between two early ones. */
  lemma SpanCheckExceptions()
    ensures exists far: seq<TimetableSlot> :: SpansADay(far) && InTimeOrder(far) && !WithinADay(far)
    ensures exists mixed: seq<TimetableSlot> :: SpansADay(mixed) && |mixed| > 2 && !WithinADay(mixed)
  {
    var far := [TimetableSlot(0, false), TimetableSlot(2 * DAY_LENGTH, false)];
    assert SpansADay(far) && InTimeOrder(far) && far[1].time - far[0].time > DAY_LENGTH;
    var mixed := [TimetableSlot(0, false), TimetableSlot(5 * DAY_LENGTH, false), TimetableSlot(1, false)];
    assert SpansADay(mixed) && mixed[1].time - mixed[0].time > DAY_LENGTH;
  }

  predicate WellFormedDay(td: TimetableDay) {
    td.dayName != "" && SpansADay(td.slots)
  }

  /** Day d has been reconciled with the requested timetable. */
  ghost predicate DayIsDone(old_: Slots, slots: Slots, tt: seq<TimetableDay>, d: DayID) {
    1 <= d <= |tt| && DayDone(old_, slots, d, tt[d - 1].slots)
  }

  /** Exactly what makes a request succeed, short of a collision of generated ids. */
  ghost predicate Acceptable(t: Tables, tt: seq<TimetableDay>) {
    && (forall td :: td in tt ==> WellFormedDay(td))
    && (forall s :: s in t.slots && Vanishes(tt, t.slots[s]) ==> Deletable(t, s))
  }

  /** The slots whose positions vanish, on days beyond the timetable or among its first n days. */
  ghost function VanishedUpTo(slots: Slots, tt: seq<TimetableDay>, n: nat): set<SlotID> {
    set s | s in slots && Vanishes(tt, slots[s]) && !(n < slots[s].dayID <= |tt|)
  }

  /** How many ids the first i days draw. */
  ghost function DrawsBefore(t: Tables, tt: seq<TimetableDay>, i: nat): nat
    requires i <= |tt|
  {
    if i == 0 then 0 else DrawsBefore(t, tt, i - 1) + Needed(DaySize(t.slots, i), tt[i - 1].slots)
  }

  /** The ids in use when slots are added to day i + 1: slots not deleted by then, and ids drawn for earlier days. */
  ghost function InUse(t: Tables, tt: seq<TimetableDay>, ids: nat -> SlotID, i: nat): set<SlotID>
    requires i < |tt|
  {
    t.slots.Keys - VanishedUpTo(t.slots, tt, i + 1) + Drawn(ids, 0, DrawsBefore(t, tt, i))
  }

  /** The ids drawn for day i + 1 are new. */
  ghost predicate FreshForDay(t: Tables, tt: seq<TimetableDay>, ids: nat -> SlotID, i: nat)
    requires i < |tt|
  {
    FreshDraws(InUse(t, tt, ids, i), ids, DrawsBefore(t, tt, i), Needed(DaySize(t.slots, i + 1), tt[i].slots))
  }

  /** No generated id collides with one that is in use when it is drawn. */
  ghost predicate IdsFresh(t: Tables, tt: seq<TimetableDay>, ids: nat -> SlotID) {
    forall i :: 0 <= i < |tt| ==> FreshForDay(t, tt, ids, i)
  }

  /** Stored state after a successful request. */
  ghost predicate Reconciled(t: Tables, tt: seq<TimetableDay>, after: Tables) {
    && after == t.(days := after.days, slots := after.slots, schedule := after.schedule)
    && DaysAre(after.days, |tt|)
    && (forall d :: 1 <= d <= |tt| ==> after.days[d] == tt[d - 1].dayName && DayIsDone(t.slots, after.slots, tt, d))
    && after.schedule == WithoutRows(t.schedule, VanishedUpTo(t.slots, tt, |tt|))
  }

  // ----- the main loops

  /** Days beyond the timetable are being removed: those from |tt| + 1 to gone are no more. */
  ghost predicate Trimming(t: Tables, tt: seq<TimetableDay>, now: Tables, gone: nat) {
    && now == t.(days := now.days, slots := now.slots, schedule := now.schedule)
    && (forall d :: d in now.days <==> d in t.days && !(|tt| < d <= gone))
    && (forall d :: d in now.days ==> now.days[d] == t.days[d])
    && now.slots == t.slots - OnDays(t.slots, |tt|, gone)
    && now.schedule == WithoutRows(t.schedule, OnDays(t.slots, |tt|, gone))
    && (forall s :: s in OnDays(t.slots, |tt|, gone) ==> Deletable(t, s))
  }

  /** The slots of days lo + 1 to hi. */
  ghost function OnDays(slots: Slots, lo: int, hi: int): set<SlotID> {
    set s | s in slots && lo < slots[s].dayID <= hi
  }

  lemma TrimmingStep(t: Database, tt: seq<TimetableDay>, now: Tables, n: nat, d: nat)
    requires DaysAre(t.days, n) && |tt| < d <= n && Trimming(t, tt, now, d - 1)
    requires NumberedFromOne(t.slots, d)
    ensures d in now.days && Tail(now.slots, d, 1) == Tail(t.slots, d, 1)
    ensures NumberedFromOne(now.slots, d)
    ensures forall s :: s in Tail(t.slots, d, 1) ==> (Deletable(now, s) <==> Deletable(t, s))
    ensures (forall s :: s in Tail(t.slots, d, 1) ==> Deletable(t, s)) ==> Trimming(t, tt, now.(
      days := now.days - {d},
      slots := now.slots - Tail(now.slots, d, 1),
      schedule := WithoutRows(now.schedule, Tail(now.slots, d, 1))), d)
  {
    hide Integrity;
    assert OnDays(t.slots, |tt|, d) == OnDays(t.slots, |tt|, d - 1) + Tail(t.slots, d, 1);
    assert Named(now) == Named(t);
  }

  /** The first i days are reconciled and later ones are as they were. */
  ghost predicate Updating(t: Tables, tt: seq<TimetableDay>, now: Tables, n: nat, i: nat)
    requires i <= |tt|
  {
    && now == t.(days := now.days, slots := now.slots, schedule := now.schedule)
    && (forall d :: d in now.days <==> 1 <= d <= i || (1 <= d <= n && d <= |tt|))
    && (forall d :: 1 <= d <= i ==> now.days[d] == tt[d - 1].dayName)
    && (forall d :: 1 <= d <= i ==> DayIsDone(t.slots, now.slots, tt, d))
    && (forall d :: i < d <= |tt| ==> SameOn(t.slots, now.slots, d))
    && now.schedule == WithoutRows(t.schedule, VanishedUpTo(t.slots, tt, i))
    && (forall s :: s in VanishedUpTo(t.slots, tt, i) ==> Deletable(t, s))
  }

  lemma DayDoneFrame(old_: Slots, mid: Slots, after: Slots, d: DayID, want: seq<TimetableSlot>)
    requires DayDone(old_, mid, d, want) && SameOn(mid, after, d)
    ensures DayDone(old_, after, d, want)
  {
    forall i | 1 <= i <= |want| ensures Occupied(after, d, i) {
      assert Occupied(mid, d, i);
    }
  }

  lemma DayDoneRebase(old_: Slots, mid: Slots, after: Slots, d: DayID, want: seq<TimetableSlot>)
    requires SameOn(old_, mid, d) && DayDone(mid, after, d, want)
    ensures DayDone(old_, after, d, want)
  {}

  lemma SameTail(old_: Slots, mid: Slots, d: DayID, first: int)
    requires SameOn(old_, mid, d)
    ensures Tail(mid, d, first) == Tail(old_, d, first)
  {}

  lemma WithoutBoth(schedule: map<RowKey, DiscussionID>, a: set<SlotID>, b: set<SlotID>)
    ensures WithoutRows(WithoutRows(schedule, a), b) == WithoutRows(schedule, a + b)
  {}

  lemma VanishedStep(slots: Slots, tt: seq<TimetableDay>, i: nat)
    requires i < |tt|
    ensures VanishedUpTo(slots, tt, i + 1) == VanishedUpTo(slots, tt, i) + Tail(slots, i + 1, |tt[i].slots| + 1)
  {}

  /** One more day reconciled. */
  lemma UpdatingStep(t: Tables, tt: seq<TimetableDay>, now: Tables, after: Tables, n: nat, i: nat)
    requires i < |tt| && Updating(t, tt, now, n, i)
    requires after == now.(
      days := now.days[i + 1 := tt[i].dayName],
      slots := after.slots,
      schedule := WithoutRows(now.schedule, Tail(now.slots, i + 1, |tt[i].slots| + 1)))
    requires DayDone(now.slots, after.slots, i + 1, tt[i].slots) && OthersSame(now.slots, after.slots, i + 1)
    requires forall s :: s in Tail(now.slots, i + 1, |tt[i].slots| + 1) ==> Deletable(t, s)
    ensures Updating(t, tt, after, n, i + 1)
  {
    hide DayDone, Vanishes, VanishedUpTo;
    var d, want := i + 1, tt[i].slots;
    DayDoneRebase(t.slots, now.slots, after.slots, d, want);
    forall e | 1 <= e <= d ensures DayIsDone(t.slots, after.slots, tt, e) {
      if e < d {
        assert DayIsDone(t.slots, now.slots, tt, e);
        DayDoneFrame(t.slots, now.slots, after.slots, e, tt[e - 1].slots);
      }
    }
    forall e | d < e <= |tt| ensures SameOn(t.slots, after.slots, e) {
      assert SameOn(t.slots, now.slots, e) && SameOn(now.slots, after.slots, e);
    }
    SameTail(t.slots, now.slots, d, |want| + 1);
    VanishedStep(t.slots, tt, i);
    WithoutBoth(t.schedule, VanishedUpTo(t.slots, tt, i), Tail(t.slots, d, |want| + 1));
  }

  /** Once the surplus days are gone, no day has been reconciled yet and the rest is as it was. */
  lemma UpdatingStart(t: Database, tt: seq<TimetableDay>, now: Tables, n: nat)
    requires DaysAre(t.days, n) && Trimming(t, tt, now, if n < |tt| then |tt| else n)
    ensures Updating(t, tt, now, n, 0)
  {
    var gone := if n < |tt| then |tt| else n;
    assert VanishedUpTo(t.slots, tt, 0) == OnDays(t.slots, |tt|, gone);
  }

  lemma UpdatingEnd(t: Tables, tt: seq<TimetableDay>, now: Tables, n: nat)
    requires Updating(t, tt, now, n, |tt|)
    ensures Reconciled(t, tt, now)
    ensures forall s :: s in t.slots && Vanishes(tt, t.slots[s]) ==> Deletable(t, s)
  {
    forall s | s in t.slots && Vanishes(tt, t.slots[s]) ensures Deletable(t, s) {
      assert s in VanishedUpTo(t.slots, tt, |tt|);
    }
  }

  lemma TrimmingStart(t: Tables, tt: seq<TimetableDay>)
    ensures Trimming(t, tt, t, |tt|)
  {
    assert OnDays(t.slots, |tt|, |tt|) == {};
  }

  lemma SurplusVanishes(t: Tables, tt: seq<TimetableDay>, d: DayID)
    requires |tt| < d && Acceptable(t, tt)
    ensures forall s :: s in Tail(t.slots, d, 1) ==> Deletable(t, s)
  {}

  lemma IndicesFromOne(t: Tables, d: DayID)
    requires Contiguous(t) && d in t.days
    ensures NumberedFromOne(t.slots, d)
  {}

  /** Deletes the days that the timetable no longer has. */
  method DeleteSurplusDaysTx(tx: Transaction, tt: seq<TimetableDay>, n: nat) returns (r: Outcome<()>)
    requires DaysAre(tx.t.days, n) && Contiguous(tx.t)
    modifies tx
    ensures r.Ok? ==> Trimming(old(tx.t), tt, tx.t, if n < |tt| then |tt| else n)
    ensures r.Err? ==> !Acceptable(old(tx.t), tt)
  {
    hide Integrity, Contiguous, Trimming, Acceptable, Tail, Deletable, NumberedFromOne;
    ghost var t := tx.t;
    TrimmingStart(t, tt);
    var d := |tt| + 1;
    while d <= n
      invariant |tt| < d <= (if n < |tt| then |tt| else n) + 1
      invariant Trimming(t, tt, tx.t, d - 1)
    {
      IndicesFromOne(t, d);
      TrimmingStep(t, tt, tx.t, n, d);
      r := DeleteDayTx(tx, d);
      if r.Err? {
        if Acceptable(t, tt) {
          SurplusVanishes(t, tt, d);
        }
        return;
      }
      d := d + 1;
    }
    r := Ok(());
  }

  lemma PendingDayIsContiguous(t: Tables, slots: Slots, d: DayID)
    requires Contiguous(t) && d in t.days && SameOn(t.slots, slots, d)
    ensures exists m: nat :: SlotsAre(slots, d, m)
  {
    var m: nat :| SlotsAre(t.slots, d, m);
    forall i | 1 <= i <= m ensures Occupied(slots, d, i) {
      assert Occupied(t.slots, d, i);
    }
    assert SlotsAre(slots, d, m);
  }

  lemma TailVanishes(t: Tables, tt: seq<TimetableDay>, now: Tables, i: nat)
    requires i < |tt| && SameOn(t.slots, now.slots, i + 1) && now.possible == t.possible
    ensures forall s :: s in Tail(now.slots, i + 1, |tt[i].slots| + 1) ==>
      s in t.slots && Vanishes(tt, t.slots[s]) && (Deletable(now, s) <==> Deletable(t, s))
  {
    assert Named(now) == Named(t);
  }

  /** The ids drawn for the first i days, and what the stored slot ids are then. */
  ghost predicate Drawing(t: Tables, tt: seq<TimetableDay>, ids: nat -> SlotID, now: Slots, i: nat, c: nat)
    requires i <= |tt|
  {
    && c == DrawsBefore(t, tt, i)
    && now.Keys == t.slots.Keys - VanishedUpTo(t.slots, tt, i) + Drawn(ids, 0, c)
    && (forall s :: s in Drawn(ids, 0, c) && s in t.slots ==> !(i < t.slots[s].dayID <= |tt|))
  }

  /** With the tail of the next day gone, the stored ids are those in use. */
  lemma StoredIsInUse(t: Tables, tt: seq<TimetableDay>, ids: nat -> SlotID, now: Slots, i: nat, c: nat)
    requires i < |tt| && Drawing(t, tt, ids, now, i, c) && SameOn(t.slots, now, i + 1)
    ensures now.Keys - Tail(now, i + 1, |tt[i].slots| + 1) == InUse(t, tt, ids, i)
    ensures DaySize(now, i + 1) == DaySize(t.slots, i + 1)
  {
    var tail := Tail(t.slots, i + 1, |tt[i].slots| + 1);
    SameTail(t.slots, now, i + 1, |tt[i].slots| + 1);
    VanishedStep(t.slots, tt, i);
    assert forall s :: s in tail ==> s in t.slots && t.slots[s].dayID == i + 1;
    assert SlotsOf(now, i + 1) == SlotsOf(t.slots, i + 1);
  }

  lemma DrawnOn(ids: nat -> SlotID, c: nat, c': nat)
    requires c <= c'
    ensures Drawn(ids, 0, c') == Drawn(ids, 0, c) + Drawn(ids, c, c')
  {}

  lemma DrawnAreNew(used: set<SlotID>, ids: nat -> SlotID, c: nat, n: nat)
    requires FreshDraws(used, ids, c, n)
    ensures Drawn(ids, c, c + n) !! used
  {}

  /** The slots of later days are still there while day i + 1 is filled. */
  lemma LaterSlotsAreInUse(t: Tables, tt: seq<TimetableDay>, ids: nat -> SlotID, i: nat, s: SlotID)
    requires i < |tt| && s in t.slots && i + 1 < t.slots[s].dayID <= |tt|
    ensures s in InUse(t, tt, ids, i)
  {}

  lemma DrawingStep(t: Tables, tt: seq<TimetableDay>, ids: nat -> SlotID, now: Slots, after: Slots,
                    i: nat, c: nat, c': nat)
    requires i < |tt| && Drawing(t, tt, ids, now, i, c)
    requires FreshForDay(t, tt, ids, i) && c' == c + Needed(DaySize(t.slots, i + 1), tt[i].slots)
    requires after.Keys == InUse(t, tt, ids, i) + Drawn(ids, c, c')
    ensures Drawing(t, tt, ids, after, i + 1, c')
  {
    DrawnOn(ids, c, c');
    DrawnAreNew(InUse(t, tt, ids, i), ids, c, Needed(DaySize(t.slots, i + 1), tt[i].slots));
    hide DaySize, VanishedUpTo, Vanishes, Drawn, FreshDraws, Needed;
    forall s | s in Drawn(ids, c, c') && s in t.slots ensures !(i + 1 < t.slots[s].dayID <= |tt|) {
      if i + 1 < t.slots[s].dayID <= |tt| {
        LaterSlotsAreInUse(t, tt, ids, i, s);
      }
    }
  }

  /** Updates or adds one day, whichever applies. */
  method SetDayTx(tx: Transaction, ghost t: Database, tt: seq<TimetableDay>, n: nat, i: nat, ids: nat -> SlotID, c: nat)
    returns (r: Outcome<()>, c': nat)
    requires DaysAre(t.days, n) && Contiguous(t)
    requires i < |tt| && Updating(t, tt, tx.t, n, i) && Drawing(t, tt, ids, tx.t.slots, i, c)
    modifies tx
    ensures r.Ok? ==> Updating(t, tt, tx.t, n, i + 1) && Drawing(t, tt, ids, tx.t.slots, i + 1, c')
    ensures r.Ok? ==> FreshForDay(t, tt, ids, i)
    ensures r.Err? ==> !FreshForDay(t, tt, ids, i) || !Acceptable(t, tt)
  {
    hide Integrity, DayDone, VanishedUpTo, Drawing, FreshDraws, InUse, DaySize;
    var d, want := i + 1, tt[i].slots;
    ghost var now := tx.t;
    assert SameOn(t.slots, now.slots, d);
    TailVanishes(t, tt, now, i);
    StoredIsInUse(t, tt, ids, now.slots, i, c);
    DrawnSoFar(t, tt, ids, now.slots, i, c);
    if i < n {
      PendingDayIsContiguous(t, now.slots, d);
      r, c' := TimetableDayUpdateTx(tx, d, tt[i].dayName, want, ids, c);
    } else {
      NoSlotsYet(now, d, |want| + 1);
      r, c' := TimetableDayAddTx(tx, d, tt[i].dayName, want, ids, c);
    }
    if r.Ok? {
      UpdatingStep(t, tt, now, tx.t, n, i);
      DrawingStep(t, tt, ids, now.slots, tx.t.slots, i, c, c');
    }
  }

  lemma DrawnSoFar(t: Tables, tt: seq<TimetableDay>, ids: nat -> SlotID, now: Slots, i: nat, c: nat)
    requires i <= |tt| && Drawing(t, tt, ids, now, i, c)
    ensures c == DrawsBefore(t, tt, i)
  {}

  lemma DrawingStart(t: Database, tt: seq<TimetableDay>, ids: nat -> SlotID, now: Tables, n: nat)
    requires DaysAre(t.days, n) && Trimming(t, tt, now, if n < |tt| then |tt| else n)
    ensures Drawing(t, tt, ids, now.slots, 0, 0)
  {
    var gone := if n < |tt| then |tt| else n;
    assert VanishedUpTo(t.slots, tt, 0) == OnDays(t.slots, |tt|, gone);
    assert Drawn(ids, 0, 0) == {};
  }

  /** The body of the transaction; ids are what the id generator returns, in order. */
  method TimetableSetTx(tx: Transaction, tt: seq<TimetableDay>, ids: nat -> SlotID) returns (r: Outcome<()>)
    requires Contiguous(tx.t)
    modifies tx
    ensures r.Ok? <==> Acceptable(old(tx.t), tt) && IdsFresh(old(tx.t), tt, ids)
    ensures r.Ok? ==> Reconciled(old(tx.t), tt, tx.t)
  {
    hide Integrity, DayIsDone, Updating, Drawing, Vanishes, Reconciled, FreshForDay, Trimming;
    ghost var t := tx.t;
    var n := GetMaxDay(tx.t.days);
    r := DeleteSurplusDaysTx(tx, tt, n);
    if r.Err? {
      return;
    }
    UpdatingStart(t, tt, tx.t, n);
    DrawingStart(t, tt, ids, tx.t, n);
    var c := 0;
    for i := 0 to |tt|
      invariant Updating(t, tt, tx.t, n, i) && Drawing(t, tt, ids, tx.t.slots, i, c)
      invariant forall td :: td in tt[..i] ==> WellFormedDay(td)
      invariant forall j :: 0 <= j < i ==> FreshForDay(t, tt, ids, j)
    {
      assert tt[i] in tt;
      if tt[i].dayName == "" {
        return Err(Invalid);
      }
      if !SpansADay(tt[i].slots) {
        return Err(Invalid);
      }
      r, c := SetDayTx(tx, t, tt, n, i, ids, c);
      if r.Err? {
        return;
      }
    }
    assert tt[..|tt|] == tt;
    UpdatingEnd(t, tt, tx.t, n);
    r := Ok(());
  }

  lemma DaysFromOne(t: Database)
    requires Contiguous(t)
    ensures forall s :: s in t.slots ==> 1 <= t.slots[s].dayID
  {
    var n: nat :| DaysAre(t.days, n);
    DaysOfSlots(t);
  }

  lemma AcceptableMeans(t: Database, tt: seq<TimetableDay>)
    requires Contiguous(t)
    ensures forall s :: s in t.slots ==> 1 <= t.slots[s].dayID
    ensures Acceptable(t, tt) <==>
            && (forall td :: td in tt ==> td.dayName != "")
            && (forall td :: td in tt && |td.slots| > 2 ==> td.slots[|td.slots| - 1].time - td.slots[0].time <= DAY_LENGTH)
            && forall s :: s in t.slots ==>
              || (t.slots[s].dayID <= |tt| && t.slots[s].slotIdx <= |tt[t.slots[s].dayID - 1].slots|)
              || (!t.slots[s].isLocked && forall p :: p in t.possible ==> p.1 != s)
  {
    DaysFromOne(t);
    hide Integrity, Contiguous;
    assert forall s :: s in Named(t) <==> exists p :: p in t.possible && p.1 == s;
    assert forall s :: s in t.slots ==>
      (Deletable(t, s) <==> !t.slots[s].isLocked && forall p :: p in t.possible ==> p.1 != s);
  }

  /** Ids that differ from each other and from all stored ones are enough. */
  lemma NewIdsSuffice(t: Tables, tt: seq<TimetableDay>, ids: nat -> SlotID)
    requires forall i, j :: ids(i) == ids(j) ==> i == j
    requires forall i :: ids(i) !in t.slots
    ensures IdsFresh(t, tt, ids)
  {}

  /** Commits the reconciliation, or leaves the database as it was. */
  method TimetableSet(db: EventStore, tt: seq<TimetableDay>, ids: nat -> SlotID) returns (r: Outcome<()>)
    requires Contiguous(db.t)
    modifies db
    ensures r.Ok? <==> Acceptable(old(db.t), tt) && IdsFresh(old(db.t), tt, ids)
    // Days are named and pass the span check, and whatever loses its position is neither locked nor named.
    ensures r.Ok? <==>
      && (forall td :: td in tt ==> td.dayName != "")
      && (forall td :: td in tt && |td.slots| > 2 ==> td.slots[|td.slots| - 1].time - td.slots[0].time <= DAY_LENGTH)
      && (forall s :: s in old(db.t).slots ==>
        || (old(db.t).slots[s].dayID <= |tt| && old(db.t).slots[s].slotIdx <= |tt[old(db.t).slots[s].dayID - 1].slots|)
        || (!old(db.t).slots[s].isLocked && forall p :: p in old(db.t).possible ==> p.1 != s))
      && IdsFresh(old(db.t), tt, ids)
    ensures r.Ok? ==> Reconciled(old(db.t), tt, db.t) && Contiguous(db.t)
    ensures r.Err? ==> db.t == old(db.t)
  {
    AcceptableMeans(db.t, tt);
    hide Integrity, Reconciled, Acceptable, IdsFresh, Contiguous;
    var tx := new Transaction(db.t);
    r := TimetableSetTx(tx, tt, ids);
    if r.Ok? {
      ReconciledIsContiguous(db.t, tt, tx.t);
      db.t := tx.t;
    }
  }

  lemma ReconciledIsContiguous(t: Tables, tt: seq<TimetableDay>, after: Tables)
    requires Reconciled(t, tt, after)
    ensures Contiguous(after)
  {
    forall d | d in after.days ensures exists m: nat :: SlotsAre(after.slots, d, m) {
      assert DayIsDone(t.slots, after.slots, tt, d);
    }
  }

  /** A surviving position keeps its slot, its lock and its schedule rows; a vanished one loses its rows. */
  lemma ReconciledKeepsIdentity(t: Database, tt: seq<TimetableDay>, after: Tables, s: SlotID)
    requires Reconciled(t, tt, after) && s in t.slots && 1 <= t.slots[s].dayID
    ensures !Vanishes(tt, t.slots[s]) ==>
      s in after.slots && SamePosition(after.slots[s], t.slots[s]) && after.slots[s].isLocked == t.slots[s].isLocked
    ensures forall k: RowKey :: k.0 == s ==>
      (k in after.schedule <==> k in t.schedule && !Vanishes(tt, t.slots[s]))
      && (k in after.schedule ==> after.schedule[k] == t.schedule[k])
  {
    if !Vanishes(tt, t.slots[s]) {
      assert DayIsDone(t.slots, after.slots, tt, t.slots[s].dayID);
    }
  }

  /** Slots that are new have the requested time and break flag and are not locked. */
  lemma NewSlotsAreUnlocked(t: Tables, tt: seq<TimetableDay>, after: Tables, s: SlotID)
    requires Reconciled(t, tt, after) && s in after.slots && 1 <= after.slots[s].dayID <= |tt| && s !in t.slots
    ensures !after.slots[s].isLocked && 1 <= after.slots[s].slotIdx <= |tt[after.slots[s].dayID - 1].slots|
    ensures
      var want := tt[after.slots[s].dayID - 1].slots[after.slots[s].slotIdx - 1];
      after.slots[s].time == want.time && after.slots[s].isBreak == want.isBreak
  {
    assert DayIsDone(t.slots, after.slots, tt, after.slots[s].dayID);
  }

  // ----- locks

  /** after differs from t only in locks, and exactly the slots in locked are locked. */
  ghost predicate OnlyLocksChanged(t: Tables, locked: set<SlotID>, after: Tables) {
    && after == t.(slots := after.slots) && after.slots.Keys == t.slots.Keys
    && forall s :: s in t.slots ==>
      && (after.slots[s].isLocked <==> s in locked)
      && SamePosition(after.slots[s], t.slots[s])
      && after.slots[s].time == t.slots[s].time && after.slots[s].isBreak == t.slots[s].isBreak
  }

  lemma LocksKeepShape(t: Database, locked: set<SlotID>, after: Tables)
    requires OnlyLocksChanged(t, locked, after)
    ensures Integrity(after)
    ensures Contiguous(t) ==> Contiguous(after)
  {
    if Contiguous(t) {
      forall d | d in after.days ensures exists m: nat :: SlotsAre(after.slots, d, m) {
        var m: nat :| SlotsAre(t.slots, d, m);
        forall i | 1 <= i <= m ensures Occupied(after.slots, d, i) {
          assert Occupied(t.slots, d, i);
          var s :| s in t.slots && t.slots[s].dayID == d && t.slots[s].slotIdx == i;
          assert s in after.slots && after.slots[s].dayID == d && after.slots[s].slotIdx == i;
        }
        assert SlotsAre(after.slots, d, m);
      }
    }
  }

  /** Locks exactly the given slots and unlocks all others; ids of no slot are ignored. */
  method TimetableSetLockedSlots(db: EventStore, pslots: seq<SlotID>)
    modifies db
    ensures OnlyLocksChanged(old(db.t), (set s | s in pslots), db.t)
    ensures db.t == old(db.t).(slots := db.t.slots) && db.t.slots.Keys == old(db.t).slots.Keys
    ensures forall s :: s in db.t.slots ==> db.t.slots[s] == old(db.t).slots[s].(isLocked := s in pslots)
    ensures Contiguous(old(db.t)) ==> Contiguous(db.t)
  {
    var after := db.t.(slots := map s | s in db.t.slots :: db.t.slots[s].(isLocked := s in pslots));
    LocksKeepShape(db.t, (set s | s in pslots), after);
    hide Integrity;
    db.t := after;
  }

  // ----- reading back

  ghost predicate Counts(q: seq<int>, m: nat) {
    && (forall i, j :: 0 <= i < j < |q| ==> q[i] < q[j])
    && (forall x :: x in q <==> 1 <= x <= m)
  }

  lemma {:induction false} CountingAt(q: seq<int>, m: nat, j: nat)
    requires Counts(q, m) && j < |q|
    ensures q[j] == j + 1
  {
    forall k | 0 <= k < j ensures q[k] == k + 1 {
      CountingAt(q, m, k);
    }
    assert q[j] in q;
    assert j > 0 ==> q[j - 1] == j;
    assert j + 1 in q;
    var p :| 0 <= p < |q| && q[p] == j + 1;
  }

  /** The only increasing list of exactly 1 to m is the obvious one. */
  lemma Counting(q: seq<int>, m: nat)
    requires Counts(q, m)
    ensures |q| == m && forall j :: 0 <= j < m ==> q[j] == j + 1
  {
    assert |q| < m ==> |q| + 1 in q;
    assert |q| > 0 ==> q[|q| - 1] in q;
    forall j | 0 <= j < |q| ensures q[j] == j + 1 {
      CountingAt(q, m, j);
    }
  }

  function SlotsOf(slots: Slots, d: DayID): set<SlotID> {
    set s | s in slots && slots[s].dayID == d
  }

  predicate IndexLeq(slots: Slots, a: SlotID, b: SlotID) {
    a in slots && b in slots && slots[a].slotIdx <= slots[b].slotIdx
  }

  method SelectDaySlots(t: Database, d: DayID) returns (q: seq<SlotID>)
    ensures Lists(q, SlotsOf(t.slots, d))
    ensures forall i, j :: 0 <= i < j < |q| ==> IndexLeq(t.slots, q[i], q[j])
  {
    q := SelectOrdered(SlotsOf(t.slots, d), (a, b) => IndexLeq(t.slots, a, b));
  }

  /** On a contiguous day, the j-th slot in order is the one with index j + 1. */
  lemma OrderIsIndex(t: Database, d: DayID, m: nat, q: seq<SlotID>)
    requires SlotsAre(t.slots, d, m)
    requires Lists(q, SlotsOf(t.slots, d)) && forall i, j :: 0 <= i < j < |q| ==> IndexLeq(t.slots, q[i], q[j])
    ensures |q| == m
    ensures forall j :: 0 <= j < m ==> q[j] in t.slots && t.slots[q[j]].dayID == d && t.slots[q[j]].slotIdx == j + 1
  {
    assert forall i :: 0 <= i < |q| ==> q[i] in q;
    var idx := seq(|q|, i requires 0 <= i < |q| => t.slots[q[i]].slotIdx);
    forall i, j | 0 <= i < j < |q| ensures idx[i] < idx[j] {
      assert IndexLeq(t.slots, q[i], q[j]) && q[i] != q[j];
      assert !SamePosition(t.slots[q[i]], t.slots[q[j]]);
    }
    forall x | 1 <= x <= m ensures x in idx {
      assert Occupied(t.slots, d, x);
      var s :| s in t.slots && t.slots[s].dayID == d && t.slots[s].slotIdx == x;
      assert s in q;
      var i :| 0 <= i < |q| && q[i] == s;
      assert idx[i] == x;
    }
    Counting(idx, m);
    forall j | 0 <= j < m
      ensures q[j] in t.slots && t.slots[q[j]].dayID == d && t.slots[q[j]].slotIdx == j + 1
    {
      assert q[j] in q && idx[j] == j + 1;
    }
  }
}
