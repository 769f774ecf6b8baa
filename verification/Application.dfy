/**
 The application as a whole: every operation of a history, carried out by the component it belongs to,
 does what the history says it does, and succeeds exactly when it can be foreseen to.
 */
module Application {
  import opened Ids
  import opened Store
  import opened Discussions
  import Users
  import Locations
  import PossibleSlots
  import Timetable
  import opened Snapshot
  import opened ScheduleRows
  import Pipeline
  import Quality
  import Scheduling
  import opened Occupancy
  import opened History

  /** Exactly when the operation succeeds. */
  ghost predicate Succeeds(t: Database, op: Op) {
    match op
    case NewUser(u, user) =>
      Users.ValidUsername(user.username) && u !in t.users && Users.UsernameFree(t, user.username)
    case SetVerified(_, _) => true
    case DeleteUser(u) => u in t.users
    case SetInterest(u, d, level) => Users.MaySetInterest(t, u, d, level)
    case NewDiscussion(d, draft) => ValidText(draft.row.title, draft.row.description) && Creatable(t, draft, d)
    case UpdateDiscussion(d, owner, title, description) =>
      ValidText(title, description) && d in t.discussions && owner in t.users && TitleFree(t, title, {d})
    case SetPublic(d, _) => d in t.discussions
    case SetPossibleSlots(d, pslots) => !PossibleSlots.Restricts(t, pslots) || PossibleSlots.ListStorable(t, d, pslots)
    case DeleteDiscussion(d) => d in t.discussions
    case SetTimetable(tt, ids) => Timetable.Acceptable(t, tt) && Timetable.IdsFresh(t, tt, ids)
    case SetLockedSlots(_) => true
    case MakeSchedule => !SnapshotFails(t)
    case StoreSchedule(plan) => forall p :: p in plan ==> Storable(t, p)
    case NewLocation(name, capacity) => Locations.ValidLocation(name, capacity)
    case DeleteLocation(l) => l in t.locations && !Locations.HoldsRows(t, l)
  }

  /** r and t' are what op must give on t. */
  ghost predicate Performed(t: Database, op: Op, r: Outcome<()>, t': Database) {
    && (r.Ok? <==> Succeeds(t, op))
    && (if r.Ok? then Effect(t, op, t') else t' == t)
  }

  // ----- operations that are one transaction

  method CreateDiscussion(db: EventStore, id: DiscussionID, draft: Draft) returns (r: Outcome<()>)
    modifies db
    ensures Performed(old(db.t), Op.NewDiscussion(id, draft), r, db.t)
  {
    hide Integrity, ValidText, Creatable, CreateOnce, WhyNotCreated, Filled;
    if !ValidText(draft.row.title, draft.row.description) {
      return Err(Invalid);
    }
    var tx := new Transaction(db.t);
    var d;
    r, d := NewDiscussionTx(tx, draft, id);
    if r.Ok? {
      db.t := tx.t;
    }
  }

  method EditDiscussion(db: EventStore, id: DiscussionID, owner: UserID, title: string, description: string)
    returns (r: Outcome<()>)
    modifies db
    ensures Performed(old(db.t), Op.UpdateDiscussion(id, owner, title, description), r, db.t)
  {
    hide Integrity, ValidText, TitleFree, Edited;
    if !ValidText(title, description) {
      return Err(Invalid);
    }
    var tx := new Transaction(db.t);
    r := DiscussionUpdateTx(tx, id, owner, title, description);
    if r.Ok? {
      db.t := tx.t;
    }
  }

  method RemoveDiscussion(db: EventStore, id: DiscussionID) returns (r: Outcome<()>)
    modifies db
    ensures Performed(old(db.t), Op.DeleteDiscussion(id), r, db.t)
  {
    hide Integrity, WithoutDiscussions;
    var tx := new Transaction(db.t);
    r := DeleteDiscussionTx(tx, id);
    if r.Ok? {
      db.t := tx.t;
    }
  }

  method RemoveUser(db: EventStore, u: UserID) returns (r: Outcome<()>)
    modifies db
    ensures Performed(old(db.t), Op.DeleteUser(u), r, db.t)
  {
    hide Integrity, WithoutUser;
    var tx := new Transaction(db.t);
    r := DeleteUserTx(tx, u);
    if r.Ok? {
      db.t := tx.t;
    }
  }

  method RestrictDiscussion(db: EventStore, id: DiscussionID, pslots: seq<SlotID>) returns (r: Outcome<()>)
    modifies db
    ensures Performed(old(db.t), Op.SetPossibleSlots(id, pslots), r, db.t)
  {
    hide Integrity, PossibleSlots.WithRestriction, PossibleSlots.ListStorable, PossibleSlots.Restricts;
    var tx := new Transaction(db.t);
    r := PossibleSlots.SetPossibleSlotsTx(tx, id, pslots);
    if r.Ok? {
      db.t := tx.t;
    }
  }

  method StorePlan(db: EventStore, plan: seq<PlanSlot>) returns (r: Outcome<()>)
    requires WellPlacedPlan(plan)
    modifies db
    ensures Performed(old(db.t), Op.StoreSchedule(plan), r, db.t)
  {
    hide Integrity, SetSlots, Stored, WellPlacedPlan, Storable;
    SetSlotsStores(db.t, plan, |plan|);
    assert plan[..|plan|] == plan;
    var tx := new Transaction(db.t);
    r := StorePlanTx(tx, plan);
    if r.Ok? {
      db.t := tx.t;
    }
  }

  // ----- dispatch

  method PerformPlanning(db: EventStore, op: Op) returns (r: Outcome<()>)
    requires IsPlanning(op) && Timetable.Contiguous(db.t)
    requires op.StoreSchedule? ==> WellPlacedPlan(op.plan)
    modifies db
    ensures Performed(old(db.t), op, r, db.t)
  {
    hide Integrity, Timetable.Contiguous, Timetable.Acceptable, Timetable.IdsFresh, Timetable.Reconciled,
      Timetable.OnlyLocksChanged, Locations.HoldsRows, SnapshotFails, Pipeline.SafeReschedule, Quality.NearOptimal,
      WellPlacedPlan;
    match op
    case SetTimetable(tt, ids) =>
      r := Timetable.TimetableSet(db, tt, ids);
    case SetLockedSlots(pslots) =>
      Timetable.TimetableSetLockedSlots(db, pslots);
      r := Ok(());
    case MakeSchedule =>
      r := Scheduling.MakeSchedule(db);
    case StoreSchedule(plan) =>
      r := StorePlan(db, plan);
    case NewLocation(name, capacity) =>
      var l := Locations.NewLocation(db, name, capacity);
      r := if l.Ok? then Ok(()) else Err(l.error);
    case DeleteLocation(l) =>
      r := Locations.DeleteLocation(db, l);
  }

  method PerformPeople(db: EventStore, op: Op) returns (r: Outcome<()>)
    requires !IsPlanning(op)
    modifies db
    ensures Performed(old(db.t), op, r, db.t)
  {
    match op
    case NewUser(u, user) =>
      hide Integrity, Users.ValidUsername, Users.UsernameFree;
      r := Users.NewUser(db, u, user);
    case SetVerified(u, verified) =>
      hide Integrity, Users.OnlyVerifiedChanged;
      Users.SetVerified(db, u, verified);
      r := Ok(());
    case DeleteUser(u) =>
      hide *;
      r := RemoveUser(db, u);
    case SetInterest(u, d, level) =>
      hide Integrity, Users.WithInterest, Users.MaySetInterest;
      r := Users.SetInterest(db, u, d, level);
    case NewDiscussion(d, draft) =>
      hide *;
      r := CreateDiscussion(db, d, draft);
    case UpdateDiscussion(d, owner, title, description) =>
      hide *;
      r := EditDiscussion(db, d, owner, title, description);
    case SetPublic(d, public) =>
      hide Integrity, WithPublic;
      r := DiscussionSetPublic(db, d, public);
    case SetPossibleSlots(d, pslots) =>
      hide *;
      r := RestrictDiscussion(db, d, pslots);
    case DeleteDiscussion(d) =>
      hide *;
      r := RemoveDiscussion(db, d);
  }

  /** Takes a snapshot and makes a plan from it, which may be stored later in the history. */
  method MakePlan(db: EventStore, ghost tr: Trace) returns (r: Outcome<seq<PlanSlot>>)
    requires Valid(tr) && Now(tr) == db.t
    ensures r.Err? <==> SnapshotFails(db.t)
    ensures r.Ok? ==> PlannedFrom(db.t, r.value) && Planned(tr, r.value)
  {
    hide Integrity, Valid, SnapshotFails, PlannedFrom;
    r := Scheduling.PlanSchedule(db.t);
  }

  lemma {:induction false} PlannedIsWellPlaced(tr: Trace, plan: seq<PlanSlot>)
    requires Planned(tr, plan)
    ensures WellPlacedPlan(plan)
  {
    hide WellPlacedPlan;
    if !PlannedFrom(Now(tr), plan) {
      PlannedIsWellPlaced(tr.before, plan);
    }
  }

  /**
   Carries out one operation. The database is where the history tr has led, and afterwards it is where
   tr continued by this step leads, so that whatever holds of every history holds of the application.
   A plan to be stored is one that was made earlier in the history.
   */
  method Perform(db: EventStore, op: Op, ghost tr: Trace) returns (r: Outcome<()>, ghost tr': Trace)
    requires Valid(tr) && Now(tr) == db.t
    requires op.StoreSchedule? ==> Planned(tr, op.plan)
    modifies db
    ensures r.Ok? <==> Succeeds(old(db.t), op)
    ensures r.Ok? ==> Effect(old(db.t), op, db.t)
    ensures r.Err? ==> db.t == old(db.t)
    ensures tr' == Then(tr, op, r.Ok?, db.t) && Valid(tr') && Now(tr') == db.t
  {
    hide Integrity, Effect, Succeeds, Timetable.Contiguous, WellPlacedPlan, Planned;
    ReachableInvariant(tr);
    if op.StoreSchedule? {
      PlannedIsWellPlaced(tr, op.plan);
    }
    if IsPlanning(op) {
      r := PerformPlanning(db, op);
    } else {
      r := PerformPeople(db, op);
    }
    tr' := Then(tr, op, r.Ok?, db.t);
  }
}
