/** Storing a placed schedule: the transaction that replaces the rows of each scheduled slot. */
module ScheduleRows {
  import opened Ids
  import opened Scheduler
  import opened Store
  import opened Snapshot

  datatype ScheduleRow = ScheduleRow(id: DiscussionID, slotID: SlotID, locationID: LocationID) {
    function Key(): RowKey {
      (slotID, locationID)
    }
  }

  /** A slot to rewrite, and the rows that the discussion objects assigned to it carry. */
  datatype PlanSlot = PlanSlot(slotID: SlotID, rows: seq<ScheduleRow>)

  function RowOf(d: SearchDiscussion): ScheduleRow
    reads d
  {
    ScheduleRow(d.info.id, d.slotID, d.locationID)
  }

  function PlanSlotOf(s: ScheduleSlot): PlanSlot
    reads s.discussions
  {
    var ds := s.discussions;
    PlanSlot(s.slotID, seq(|ds|, j requires 0 <= j < |ds| reads ds => RowOf(ds[j])))
  }

  predicate DistinctKeys(rows: seq<ScheduleRow>) {
    forall i, j :: 0 <= i < j < |rows| ==> rows[i].Key() != rows[j].Key()
  }

  function RowMap(rows: seq<ScheduleRow>): map<RowKey, DiscussionID>
    requires DistinctKeys(rows)
  {
    map i | 0 <= i < |rows| :: rows[i].Key() := rows[i].id
  }

  function DropSlot(t: Tables, s: SlotID): Tables {
    t.(schedule := map k | k in t.schedule && k.0 != s :: t.schedule[k])
  }

  predicate Insertable(t: Tables, rows: seq<ScheduleRow>) {
    DistinctKeys(rows) && forall r :: r in rows ==> r.Key() !in t.schedule
  }

  function InsertRows(t: Tables, rows: seq<ScheduleRow>): Tables
    requires Insertable(t, rows)
  {
    t.(schedule := t.schedule + RowMap(rows))
  }

  /** Check one slot, drop its rows and insert the new ones. */
  function SetSlot(t: Tables, p: PlanSlot): Outcome<Tables> {
    if p.slotID !in t.slots then Err(NotFound)
    else if t.slots[p.slotID].isLocked || t.slots[p.slotID].isBreak then Err(Refused)
    else
      var cleared := DropSlot(t, p.slotID);
      if Insertable(cleared, p.rows) && Integrity(InsertRows(cleared, p.rows)) then Ok(InsertRows(cleared, p.rows))
      else Err(ConstraintViolated)
  }

  /** The first n slots of the plan, one after the other. */
  function SetSlots(t: Tables, plan: seq<PlanSlot>, n: nat): Outcome<Tables>
    requires n <= |plan|
  {
    if n == 0 then Ok(t)
    else
      match SetSlots(t, plan, n - 1)
      case Err(e) => Err(e)
      case Ok(t') => SetSlot(t', plan[n - 1])
  }

  /** Rewrites the planned slots, one after the other. */
  method StorePlanTx(tx: Transaction, plan: seq<PlanSlot>) returns (r: Outcome<()>)
    modifies tx
    ensures
      match SetSlots(old(tx.t), plan, |plan|)
      case Ok(t') => r == Ok(()) && tx.t == t'
      case Err(e) => r == Err(e)
  {
    hide SetSlot, Integrity;
    for i := 0 to |plan|
      invariant SetSlots(old(tx.t), plan, i) == Ok(tx.t)
    {
      var e := SetSlotTx(tx, plan[i]);
      if e.Some? {
        SetSlotsStops(old(tx.t), plan, i + 1, |plan|);
        return Err(e.value);
      }
    }
    r := Ok(());
  }

  /** The body of the transaction that stores a schedule; plan is what the discussion objects currently say. */
  method ScheduleSetTx(tx: Transaction, slots: seq<ScheduleSlot>, ghost plan: seq<PlanSlot>) returns (r: Outcome<()>)
    requires |plan| == |slots| && forall i :: 0 <= i < |slots| ==> plan[i] == PlanSlotOf(slots[i])
    modifies tx
    ensures
      match SetSlots(old(tx.t), plan, |plan|)
      case Ok(t') => r == Ok(()) && tx.t == t'
      case Err(e) => r == Err(e)
  {
    var said := seq(|slots|, i requires 0 <= i < |slots| reads Objects(slots) => PlanSlotOf(slots[i]));
    assert said == plan;
    r := StorePlanTx(tx, said);
  }

  method SetSlotTx(tx: Transaction, p: PlanSlot) returns (e: Option<Error>)
    modifies tx
    ensures
      match SetSlot(old(tx.t), p)
      case Ok(t') => e == None && tx.t == t'
      case Err(err) => e == Some(err)
  {
    if p.slotID !in tx.t.slots {
      return Some(NotFound);
    }
    var info := tx.t.slots[p.slotID];
    if info.isLocked || info.isBreak {
      return Some(Refused);
    }
    var ok := tx.Exec(DropSlot(tx.t, p.slotID));
    assert ok;
    if !Insertable(tx.t, p.rows) {
      return Some(ConstraintViolated);
    }
    ok := tx.Exec(InsertRows(tx.t, p.rows));
    if !ok {
      return Some(ConstraintViolated);
    }
    return None;
  }

  lemma {:induction false} SetSlotsStops(t: Tables, plan: seq<PlanSlot>, i: nat, n: nat)
    requires i <= n <= |plan| && SetSlots(t, plan, i).Err?
    ensures SetSlots(t, plan, n) == SetSlots(t, plan, i)
    decreases n
  {
    hide SetSlot;
    if i < n {
      SetSlotsStops(t, plan, i, n - 1);
    }
  }

  // ----- what storing a placed plan amounts to

  /** Each row is in its own slot, and no two rows share a location. */
  ghost predicate WellPlaced(p: PlanSlot) {
    && (forall r :: r in p.rows ==> r.slotID == p.slotID)
    && (forall i, j :: 0 <= i < j < |p.rows| ==> p.rows[i].locationID != p.rows[j].locationID)
  }

  ghost predicate WellPlacedPlan(plan: seq<PlanSlot>) {
    && (forall i, j :: 0 <= i < j < |plan| ==> plan[i].slotID != plan[j].slotID)
    && (forall p :: p in plan ==> WellPlaced(p))
  }

  /** The slot may be written, and its rows refer to something. */
  ghost predicate Storable(t: Tables, p: PlanSlot) {
    && p.slotID in t.slots && Schedulable(t.slots[p.slotID])
    && forall r :: r in p.rows ==> r.id in t.discussions && r.locationID in t.locations
  }

  /** The schedule holds exactly the planned rows in the planned slot. */
  ghost predicate SlotStored(schedule: map<RowKey, DiscussionID>, p: PlanSlot) {
    && (forall r :: r in p.rows ==> r.Key() in schedule && schedule[r.Key()] == r.id)
    && (forall k :: k in schedule && k.0 == p.slotID ==> ScheduleRow(schedule[k], k.0, k.1) in p.rows)
  }

  ghost predicate SameRow(m: map<RowKey, DiscussionID>, n: map<RowKey, DiscussionID>,
                          k: RowKey)
  {
    (k in m <==> k in n) && (k in m ==> m[k] == n[k])
  }

  ghost predicate Targets(plan: seq<PlanSlot>, s: SlotID) {
    exists p :: p in plan && p.slotID == s
  }

  /** after has exactly the planned rows in the planned slots, and everything else as in before. */
  ghost predicate Stored(before: Tables, plan: seq<PlanSlot>, after: Tables) {
    && after == before.(schedule := after.schedule)
    && (forall p :: p in plan ==> SlotStored(after.schedule, p))
    && (forall k: RowKey :: !Targets(plan, k.0) ==> SameRow(after.schedule, before.schedule, k))
  }

  /** after differs from t only in the rows of p's slot, which are now exactly p's. */
  ghost predicate Replaced(t: Tables, p: PlanSlot, after: Tables) {
    && after == t.(schedule := after.schedule)
    && SlotStored(after.schedule, p)
    && (forall k: RowKey :: k.0 != p.slotID ==> SameRow(after.schedule, t.schedule, k))
  }

  lemma DropThenInsert(t: Tables, p: PlanSlot)
    requires WellPlaced(p)
    ensures Insertable(DropSlot(t, p.slotID), p.rows)
    ensures Replaced(t, p, InsertRows(DropSlot(t, p.slotID), p.rows))
  {
    var cleared := DropSlot(t, p.slotID);
    assert forall i :: 0 <= i < |p.rows| ==> p.rows[i] in p.rows;
    InsertedRows(cleared, p.rows);
    var after := InsertRows(cleared, p.rows).schedule;
    forall k: RowKey | k.0 != p.slotID ensures SameRow(after, t.schedule, k) {
      assert SameRow(cleared.schedule, t.schedule, k);
    }
  }

  lemma ReplacedIntegrity(t: Tables, p: PlanSlot, after: Tables)
    requires Integrity(t) && Replaced(t, p, after) && p.slotID in t.slots
    requires forall r :: r in p.rows ==> r.slotID == p.slotID
    ensures Integrity(after) <==> forall r :: r in p.rows ==> r.id in t.discussions && r.locationID in t.locations
  {
    if Integrity(after) {
      forall r | r in p.rows ensures r.id in t.discussions && r.locationID in t.locations {
        assert r.Key() in after.schedule;
      }
    }
    if forall r :: r in p.rows ==> r.id in t.discussions && r.locationID in t.locations {
      forall k | k in after.schedule
        ensures k.0 in t.slots && k.1 in t.locations && after.schedule[k] in t.discussions
      {
        if k.0 == p.slotID {
          assert ScheduleRow(after.schedule[k], k.0, k.1) in p.rows;
        } else {
          assert SameRow(after.schedule, t.schedule, k);
        }
      }
    }
  }

  lemma SetSlotStores(t: Tables, p: PlanSlot)
    requires Integrity(t) && WellPlaced(p)
    ensures SetSlot(t, p).Ok? <==> Storable(t, p)
    ensures SetSlot(t, p).Ok? ==> Integrity(SetSlot(t, p).value) && Replaced(t, p, SetSlot(t, p).value)
  {
    if p.slotID in t.slots {
      DropThenInsert(t, p);
      ReplacedIntegrity(t, p, InsertRows(DropSlot(t, p.slotID), p.rows));
    }
  }

  lemma InsertedRows(t: Tables, rows: seq<ScheduleRow>)
    requires Insertable(t, rows)
    ensures
      var next := InsertRows(t, rows).schedule;
      && (forall r :: r in rows ==> r.Key() in next && next[r.Key()] == r.id)
      && (forall k :: k in next ==> SameRow(next, t.schedule, k) || ScheduleRow(next[k], k.0, k.1) in rows)
      && (forall k :: k in t.schedule ==> SameRow(next, t.schedule, k))
  {
    var m, next := RowMap(rows), InsertRows(t, rows).schedule;
    forall r | r in rows ensures r.Key() in next && next[r.Key()] == r.id {
      var i :| 0 <= i < |rows| && rows[i] == r;
      assert rows[i].Key() in m;
    }
    forall k | k in m ensures k !in t.schedule && ScheduleRow(m[k], k.0, k.1) in rows {
      var i :| 0 <= i < |rows| && rows[i].Key() == k;
      assert rows[i] in rows;
    }
  }

  /** Rewriting one more slot keeps what was stored before it. */
  lemma StoredStep(t: Tables, front: seq<PlanSlot>, mid: Tables, p: PlanSlot, after: Tables)
    requires Stored(t, front, mid) && Replaced(mid, p, after)
    requires forall q :: q in front ==> WellPlaced(q) && q.slotID != p.slotID
    ensures Stored(t, front + [p], after)
  {
    forall q | q in front ensures SlotStored(after.schedule, q) {
      StaysStored(mid.schedule, after.schedule, q, p.slotID);
    }
    forall k: RowKey | !Targets(front + [p], k.0) ensures SameRow(after.schedule, t.schedule, k) {
      assert p in front + [p];
      assert forall q :: q in front ==> q in front + [p];
      assert SameRow(mid.schedule, t.schedule, k);
      assert SameRow(after.schedule, mid.schedule, k);
    }
  }

  /** The outcome is success exactly when every planned slot is storable, and then the plan is stored. */
  ghost predicate StoresOrFails(t: Tables, plan: seq<PlanSlot>, r: Outcome<Tables>) {
    && (r.Ok? <==> forall p :: p in plan ==> Storable(t, p))
    && (r.Ok? ==> Integrity(r.value) && Stored(t, plan, r.value))
  }

  lemma SetSlotsStep(t: Tables, front: seq<PlanSlot>, r: Outcome<Tables>, p: PlanSlot)
    requires StoresOrFails(t, front, r) && WellPlaced(p)
    requires forall q :: q in front ==> WellPlaced(q) && q.slotID != p.slotID
    ensures StoresOrFails(t, front + [p], if r.Err? then r else SetSlot(r.value, p))
  {
    if r.Ok? {
      SetSlotStores(r.value, p);
      assert Storable(r.value, p) <==> Storable(t, p);
      if SetSlot(r.value, p).Ok? {
        StoredStep(t, front, r.value, p, SetSlot(r.value, p).value);
      }
    }
  }

  lemma NothingToStore(t: Tables)
    requires Integrity(t)
    ensures StoresOrFails(t, [], Ok(t))
  {}

  /** Storing a placed plan succeeds exactly when every slot is writable and every row refers to something. */
  lemma {:induction false} SetSlotsStores(t: Tables, plan: seq<PlanSlot>, n: nat)
    requires Integrity(t) && WellPlacedPlan(plan) && n <= |plan|
    ensures StoresOrFails(t, plan[..n], SetSlots(t, plan, n))
  {
    hide StoresOrFails, SetSlot, Integrity;
    if n == 0 {
      NothingToStore(t);
    } else {
      SetSlotsStores(t, plan, n - 1);
      assert plan[..n] == plan[..n - 1] + [plan[n - 1]];
      SetSlotsStep(t, plan[..n - 1], SetSlots(t, plan, n - 1), plan[n - 1]);
    }
  }

  lemma StaysStored(m: map<RowKey, DiscussionID>, n: map<RowKey, DiscussionID>,
                    q: PlanSlot, s: SlotID)
    requires SlotStored(m, q) && WellPlaced(q) && q.slotID != s
    requires forall k: RowKey :: k.0 != s ==> SameRow(n, m, k)
    ensures SlotStored(n, q)
  {
    forall r | r in q.rows ensures r.Key() in n && n[r.Key()] == r.id {
      assert SameRow(n, m, r.Key());
    }
    forall k | k in n && k.0 == q.slotID ensures ScheduleRow(n[k], k.0, k.1) in q.rows {
      assert SameRow(n, m, k);
    }
  }
}
