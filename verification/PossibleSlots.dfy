/**
 Possible slots: stored as a list in which "none" means "all", and decoded twice, once for display
 and once for the scheduler.
 */
module PossibleSlots {
  import opened Ids
  import opened Store
  import opened Queries
  import opened Snapshot

  datatype DisplaySlot = DisplaySlot(slotID: SlotID, slotTime: int, checked: bool)

  function NonBreak(t: Tables): set<SlotID> {
    set s | s in t.slots && !t.slots[s].isBreak
  }

  /** What the discussion's form shows as checked. */
  function Displayed(t: Tables, d: DiscussionID): set<SlotID> {
    if Restriction(t, d) * NonBreak(t) == {} then NonBreak(t) else Restriction(t, d) * NonBreak(t)
  }

  /** No entry checked means that all entries are. */
  method PossibleSlotsDBToDisplay(pslots: array<DisplaySlot>)
    modifies pslots
    ensures var none := !exists j :: 0 <= j < pslots.Length && old(pslots[j].checked);
      forall i :: 0 <= i < pslots.Length ==> pslots[i] == old(pslots[i]).(checked := old(pslots[i].checked) || none)
  {
    var anyTrue := false;
    for i := 0 to pslots.Length
      invariant anyTrue <==> exists j :: 0 <= j < i && pslots[j].checked
    {
      anyTrue := anyTrue || pslots[i].checked;
    }
    if !anyTrue {
      for i := 0 to pslots.Length
        invariant forall j :: 0 <= j < i ==> pslots[j] == old(pslots[j]).(checked := true)
        invariant forall j :: i <= j < pslots.Length ==> pslots[j] == old(pslots[j])
      {
        pslots[i] := pslots[i].(checked := true);
      }
    }
  }

  function SlotIDs(ds: seq<DisplaySlot>): seq<SlotID> {
    seq(|ds|, i requires 0 <= i < |ds| => ds[i].slotID)
  }

  lemma AnyChecked(t: Tables, d: DiscussionID, q: seq<SlotID>)
    requires Lists(q, NonBreak(t))
    ensures (exists j :: 0 <= j < |q| && q[j] in Restriction(t, d)) <==> Restriction(t, d) * NonBreak(t) != {}
  {
    if Restriction(t, d) * NonBreak(t) != {} {
      var s :| s in Restriction(t, d) * NonBreak(t);
      assert s in q;
    }
    if exists j :: 0 <= j < |q| && q[j] in Restriction(t, d) {
      var j :| 0 <= j < |q| && q[j] in Restriction(t, d);
      assert q[j] in q;
      assert q[j] in Restriction(t, d) * NonBreak(t);
    }
  }

  lemma RestrictionRows(t: Tables, d: DiscussionID, s: SlotID)
    ensures s in Restriction(t, d) <==> (d, s) in t.possible
  {
    if (d, s) in t.possible {
      assert (d, s).0 == d;
    }
  }

  /** Displayed as checked: what is stored for the discussion, or all that is not a break if none of it is stored. */
  lemma DisplayedRows(t: Tables, d: DiscussionID, s: SlotID)
    ensures s in NonBreak(t) <==> s in t.slots && !t.slots[s].isBreak
    ensures s in Displayed(t, d) <==>
            && s in t.slots && !t.slots[s].isBreak
            && ((d, s) in t.possible || forall r :: r in t.slots && !t.slots[r].isBreak ==> (d, r) !in t.possible)
  {
    forall r ensures r in Restriction(t, d) <==> (d, r) in t.possible {
      RestrictionRows(t, d, r);
    }
    hide Restriction;
    assert forall r :: r in NonBreak(t) <==> r in t.slots && !t.slots[r].isBreak;
    assert forall r :: r in Restriction(t, d) * NonBreak(t) <==> r in NonBreak(t) && (d, r) in t.possible;
  }

  /** The slots that are not breaks, in order, each checked or not. */
  method DiscussionGetPossibleSlots(t: Database, d: DiscussionID) returns (ds: array<DisplaySlot>)
    ensures fresh(ds)
    ensures Lists(SlotIDs(ds[..]), NonBreak(t))
    ensures forall i :: 0 <= i < ds.Length ==> ds[i].slotID in t.slots && ds[i].slotTime == t.slots[ds[i].slotID].time
    ensures forall i, j :: 0 <= i < j < ds.Length ==> t.slots[ds[i].slotID].dayID <= t.slots[ds[j].slotID].dayID
    ensures forall i, j :: 0 <= i < j < ds.Length && t.slots[ds[i].slotID].dayID == t.slots[ds[j].slotID].dayID ==>
      t.slots[ds[i].slotID].slotIdx <= t.slots[ds[j].slotID].slotIdx
    ensures forall i :: 0 <= i < ds.Length ==> (ds[i].checked <==> ds[i].slotID in Displayed(t, d))
  {
    hide Integrity;
    var q := SelectByPosition(t.slots, NonBreak(t));
    assert forall i :: 0 <= i < |q| ==> q[i] in q;
    AnyChecked(t, d, q);
    var stored := seq(|q|, i requires 0 <= i < |q| => DisplaySlot(q[i], t.slots[q[i]].time, q[i] in Restriction(t, d)));
    hide Restriction, NonBreak;
    ds := new DisplaySlot[|q|](i requires 0 <= i < |q| => stored[i]);
    PossibleSlotsDBToDisplay(ds);
    assert SlotIDs(ds[..]) == q;
  }

  // ----- storing

  function SetOf(pslots: seq<SlotID>): set<SlotID> {
    set i | 0 <= i < |pslots| :: pslots[i]
  }

  /** Whether the list is stored at all: a list as long as the number of slots lifts the restriction. */
  predicate Restricts(t: Tables, pslots: seq<SlotID>) {
    |pslots| < |NonBreak(t)|
  }

  predicate ListStorable(t: Tables, d: DiscussionID, pslots: seq<SlotID>) {
    pslots != [] && NoDup(pslots) && d in t.discussions && SetOf(pslots) <= t.slots.Keys
  }

  function WithRestriction(t: Tables, d: DiscussionID, slots: set<SlotID>): Tables {
    t.(possible := (set p | p in t.possible && p.0 != d) + (set s | s in slots :: (d, s)))
  }

  lemma RestrictionIs(t: Tables, d: DiscussionID, slots: set<SlotID>)
    ensures Restriction(WithRestriction(t, d, slots), d) == slots
    ensures forall e :: e != d ==> Restriction(WithRestriction(t, d, slots), e) == Restriction(t, e)
  {
    var after := WithRestriction(t, d, slots);
    forall s | s in slots ensures s in Restriction(after, d) {
      assert (d, s) in after.possible;
    }
    forall e | e != d ensures Restriction(after, e) == Restriction(t, e) {
      forall s | s in Restriction(t, e) ensures s in Restriction(after, e) {
        var p :| p in t.possible && p.0 == e && p.1 == s;
        assert p in after.possible;
      }
    }
  }

  lemma RestrictionIntegrity(t: Database, d: DiscussionID, slots: set<SlotID>)
    ensures Integrity(WithRestriction(t, d, slots)) <==> slots == {} || (d in t.discussions && slots <= t.slots.Keys)
  {
    var after := WithRestriction(t, d, slots);
    if Integrity(after) {
      forall s | s in slots ensures d in t.discussions && s in t.slots {
        assert (d, s) in after.possible;
      }
    }
  }

  /** Drops the old list and stores the new one unless it lifts the restriction; the driver refuses an empty insert. */
  method SetPossibleSlotsTx(tx: Transaction, d: DiscussionID, pslots: seq<SlotID>) returns (r: Outcome<()>)
    modifies tx
    ensures r.Ok? <==> !Restricts(old(tx.t), pslots) || ListStorable(old(tx.t), d, pslots)
    ensures r.Ok? ==> tx.t == WithRestriction(old(tx.t), d, if Restricts(old(tx.t), pslots) then SetOf(pslots) else {})
    // Row by row: others keep theirs, and d has the list, unless that is as long as the number of slots.
    ensures r.Ok? ==> tx.t == old(tx.t).(possible := tx.t.possible)
    ensures r.Ok? ==> forall e, s :: e != d ==> ((e, s) in tx.t.possible <==> (e, s) in old(tx.t).possible)
    ensures r.Ok? ==> forall s :: (d, s) in tx.t.possible <==>
      s in pslots && |pslots| < |set x | x in old(tx.t).slots && !old(tx.t).slots[x].isBreak|
    ensures |pslots| >= |set x | x in old(tx.t).slots && !old(tx.t).slots[x].isBreak| ==> r.Ok?
  {
    hide Integrity;
    var nslots := |NonBreak(tx.t)|;
    RestrictionIntegrity(tx.t, d, {});
    var ok := tx.Exec(WithRestriction(tx.t, d, {}));
    assert ok;
    assert WithRestriction(tx.t, d, SetOf(pslots)) == WithRestriction(old(tx.t), d, SetOf(pslots));
    if |pslots| < nslots {
      if pslots == [] {
        return Err(Invalid);
      }
      if !NoDup(pslots) {
        return Err(ConstraintViolated);
      }
      assert SetOf(pslots) != {} by { assert pslots[0] in SetOf(pslots); }
      RestrictionIntegrity(tx.t, d, SetOf(pslots));
      ok := tx.Exec(WithRestriction(tx.t, d, SetOf(pslots)));
      if !ok {
        return Err(ConstraintViolated);
      }
    }
    return Ok(());
  }

  // ----- reading back

  lemma SizeOfDistinct(p: seq<SlotID>)
    requires NoDup(p)
    ensures |SetOf(p)| == |p|
  {
    assert forall x :: x in p <==> x in SetOf(p);
    ListLength(p, SetOf(p));
  }

  lemma SubsetOfSameSize<T>(a: set<T>, b: set<T>)
    requires a <= b && |b| <= |a|
    ensures a == b
  {
    assert |b| == |a| + |b - a| by {
      assert b == a + (b - a);
    }
  }

  /** A non-empty list of distinct slots reads back as itself if and only if none of them is a break. */
  lemma PossibleSlotsRoundTrip(t: Database, d: DiscussionID, pslots: seq<SlotID>)
    requires pslots != [] && NoDup(pslots)
    ensures
      var after := WithRestriction(t, d, if Restricts(t, pslots) then SetOf(pslots) else {});
      Displayed(after, d) == SetOf(pslots) <==> SetOf(pslots) <= NonBreak(t)
  {
    hide Integrity;
    var stored := if Restricts(t, pslots) then SetOf(pslots) else {};
    var after := WithRestriction(t, d, stored);
    RestrictionIs(t, d, stored);
    assert NonBreak(after) == NonBreak(t);
    assert pslots[0] in SetOf(pslots);
    if SetOf(pslots) <= NonBreak(t) {
      SizeOfDistinct(pslots);
      if Restricts(t, pslots) {
        assert SetOf(pslots) * NonBreak(t) == SetOf(pslots);
      } else {
        SubsetOfSameSize(SetOf(pslots), NonBreak(t));
      }
    }
  }

  // ----- the two decodings

  function Locked(t: Tables): set<SlotID> {
    set s | s in t.slots && t.slots[s].isLocked
  }

  /** The scheduler may use what is displayed, minus locked slots, and fails exactly when that is empty. */
  ghost predicate DecodingsAgree(t: Tables, d: DiscussionID) {
    match SnapshotPossible(t, d)
    case Ok(slots) => slots == Displayed(t, d) - Locked(t)
    case Err(_) => Displayed(t, d) - Locked(t) == {}
  }

  /** Given something to schedule into: they agree unless the restriction names breaks only. */
  lemma DecodingsAgreeIff(t: Tables, d: DiscussionID)
    requires SchedulableSlots(t) != {}
    ensures DecodingsAgree(t, d) <==> Restriction(t, d) == {} || Restriction(t, d) * NonBreak(t) != {}
  {
    assert SchedulableSlots(t) == NonBreak(t) - Locked(t);
    assert Restriction(t, d) * SchedulableSlots(t) == Restriction(t, d) * NonBreak(t) - Locked(t);
  }
}
