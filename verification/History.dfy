/**
 Histories of the database: every interleaving of committed and failed operations, what all reachable
 states satisfy, and what the history says about the text that the public may see.
 */
module History {
  import opened Ids
  import opened Scoring
  import opened Store
  import opened Discussions
  import opened Users
  import opened Locations
  import opened PossibleSlots
  import opened Timetable
  import opened ScheduleRows
  import opened Snapshot
  import opened Pipeline
  import opened Worth
  import opened Quality
  import opened Occupancy
  import opened Display

  datatype Op =
    | NewUser(uid: UserID, user: User)
    | SetVerified(uid: UserID, verified: bool)
    | DeleteUser(uid: UserID)
    | SetInterest(uid: UserID, id: DiscussionID, level: int)
    | NewDiscussion(id: DiscussionID, draft: Draft)
    | UpdateDiscussion(id: DiscussionID, owner: UserID, title: string, description: string)
    | SetPublic(id: DiscussionID, public: bool)
    | SetPossibleSlots(id: DiscussionID, pslots: seq<SlotID>)
    | DeleteDiscussion(id: DiscussionID)
    | SetTimetable(tt: seq<TimetableDay>, ids: nat -> SlotID)   // ids are what the generator returns
    | SetLockedSlots(pslots: seq<SlotID>)
    | MakeSchedule                          // snapshot and storage with nothing in between
    | StoreSchedule(plan: seq<PlanSlot>)    // storage of a plan made from some earlier snapshot
    | NewLocation(name: string, capacity: int)
    | DeleteLocation(lid: LocationID)

  /** Operations on timetable, locks, locations and schedule. */
  predicate IsPlanning(op: Op) {
    op.SetTimetable? || op.SetLockedSlots? || op.MakeSchedule? || op.StoreSchedule? || op.NewLocation? || op.DeleteLocation?
  }

  /** What a successful operation does, as the contracts of the operations state it. */
  ghost predicate Effect(t: Database, op: Op, t': Database) {
    if IsPlanning(op) then PlanningEffect(t, op, t') else PeopleEffect(t, op, t')
  }

  ghost predicate PlanningEffect(t: Database, op: Op, t': Database)
    requires IsPlanning(op)
  {
    match op
    case SetTimetable(tt, ids) => Acceptable(t, tt) && IdsFresh(t, tt, ids) && Reconciled(t, tt, t')
    case SetLockedSlots(pslots) => OnlyLocksChanged(t, (set s | s in pslots), t')
    case MakeSchedule => !SnapshotFails(t) && SafeReschedule(t, t') && NearOptimal(t, t')
    case StoreSchedule(plan) =>
      WellPlacedPlan(plan) && (forall p :: p in plan ==> Storable(t, p)) && Stored(t, plan, t')
    case NewLocation(name, capacity) => ValidLocation(name, capacity) && exists l :: LocationAdded(t, l, t')
    case DeleteLocation(l) => l in t.locations && t' == t.(locations := t.locations - {l})
  }

  ghost predicate PeopleEffect(t: Database, op: Op, t': Database)
    requires !IsPlanning(op)
  {
    match op
    case NewUser(u, user) =>
      ValidUsername(user.username) && u !in t.users && t' == t.(users := t.users[u := user])
    case SetVerified(u, v) => OnlyVerifiedChanged(t, u, v, t')
    case DeleteUser(u) => u in t.users && t' == WithoutUser(t, u)
    case SetInterest(u, d, level) => MaySetInterest(t, u, d, level) && t' == WithInterest(t, u, d, level)
    case NewDiscussion(d, draft) =>
      && ValidText(draft.row.title, draft.row.description) && Creatable(t, draft, d)
      && t' == WithDiscussion(t, Filled(draft, d, t.users[draft.row.owner].isVerified))
    case UpdateDiscussion(d, owner, title, description) =>
      && ValidText(title, description) && d in t.discussions && owner in t.users
      && t' == WithEdit(t, d, owner, title, description)
    case SetPublic(d, public) =>
      d in t.discussions && t' == t.(discussions := t.discussions[d := WithPublic(t.discussions[d], public)])
    case SetPossibleSlots(d, pslots) =>
      if Restricts(t, pslots) then ListStorable(t, d, pslots) && t' == WithRestriction(t, d, SetOf(pslots))
      else t' == WithRestriction(t, d, {})
    case DeleteDiscussion(d) => d in t.discussions && t' == WithoutDiscussions(t, {d})
  }

  /** A history, newest step last; a step that is not ok has failed and been rolled back. */
  datatype Trace = Start | Then(before: Trace, op: Op, ok: bool, now: Database)

  ghost function Now(tr: Trace): Database {
    match tr
    case Start => Tables(map[], map[], map[], {}, map[], map[], {}, map[])
    case Then(_, _, _, now) => now
  }

  /** The plan was made from a snapshot of some state of the history. */
  ghost predicate Planned(tr: Trace, plan: seq<PlanSlot>) {
    PlannedFrom(Now(tr), plan) || (tr.Then? && Planned(tr.before, plan))
  }

  ghost predicate Valid(tr: Trace) {
    match tr
    case Start => true
    case Then(b, op, ok, now) =>
      && Valid(b)
      && (op.StoreSchedule? ==> Planned(b, op.plan))
      && (if ok then Effect(Now(b), op, now) else now == Now(b))
  }

  // ----- invariants of all reachable states

  ghost predicate InterestInRange(t: Tables) {
    forall k :: k in t.interest ==> 1 <= t.interest[k] <= INTEREST_MAX
  }

  ghost predicate TextsValid(t: Tables) {
    forall d :: d in t.discussions ==> NotBlank(t.discussions[d].title) && NotBlank(t.discussions[d].description)
  }

  ghost predicate SubSchedule(t: Tables, t': Tables) {
    forall k :: k in t'.schedule ==> k in t.schedule && t'.schedule[k] == t.schedule[k]
  }

  lemma PlanningKeepsPeople(t: Database, op: Op, t': Database)
    requires Effect(t, op, t') && IsPlanning(op)
    ensures t'.users == t.users && t'.discussions == t.discussions && t'.interest == t.interest
  {
    hide Integrity;
  }

  ghost predicate SubDiscussions(t: Tables, t': Tables) {
    forall d :: d in t'.discussions ==> d in t.discussions && t'.discussions[d] == t.discussions[d]
  }

  /** Deletions leave the timetable, and what they do not delete, as it was. */
  lemma DeletionsOnlyDelete(t: Tables, u: UserID, gone: set<DiscussionID>)
    ensures WithoutUser(t, u).days == t.days && WithoutUser(t, u).slots == t.slots
    ensures SubSchedule(t, WithoutUser(t, u)) && SubDiscussions(t, WithoutUser(t, u))
    ensures InterestInRange(t) ==> InterestInRange(WithoutUser(t, u)) && InterestInRange(WithoutDiscussions(t, gone))
    ensures WithoutDiscussions(t, gone).days == t.days && WithoutDiscussions(t, gone).slots == t.slots
    ensures SubSchedule(t, WithoutDiscussions(t, gone)) && SubDiscussions(t, WithoutDiscussions(t, gone))
  {}

  lemma PeopleKeepTimetable(t: Database, op: Op, t': Database)
    requires Effect(t, op, t') && !IsPlanning(op)
    ensures t'.days == t.days && t'.slots == t.slots
    ensures SubSchedule(t, t')
  {
    hide Integrity, PlanningEffect, Restricts, SetOf, ValidText, ValidUsername, Filled, Edited, Creatable, ListStorable,
      WithoutUser, WithoutDiscussions;
    if op.DeleteUser? {
      DeletionsOnlyDelete(t, op.uid, {});
    } else if op.DeleteDiscussion? {
      DeletionsOnlyDelete(t, UserID(""), {op.id});
    }
  }

  lemma EffectKeepsInterest(t: Database, op: Op, t': Database)
    requires Effect(t, op, t') && InterestInRange(t)
    ensures InterestInRange(t')
  {
    hide Integrity, Edited, Restricts, SetOf, PlanningEffect, ValidUsername, ValidText, ListStorable, WithoutUser,
      WithoutDiscussions, WithRestriction, OnlyVerifiedChanged;
    if IsPlanning(op) {
      PlanningKeepsPeople(t, op, t');
    } else if op.DeleteUser? {
      DeletionsOnlyDelete(t, op.uid, {});
    } else if op.DeleteDiscussion? {
      DeletionsOnlyDelete(t, UserID(""), {op.id});
    } else if !op.SetInterest? && !op.NewDiscussion? && !op.UpdateDiscussion? {
      OthersKeepInterest(t, op, t');
    }
  }

  lemma OthersKeepInterest(t: Database, op: Op, t': Database)
    requires Effect(t, op, t') && !IsPlanning(op) && !op.DeleteUser? && !op.DeleteDiscussion?
    requires !op.SetInterest? && !op.NewDiscussion? && !op.UpdateDiscussion?
    ensures t'.interest == t.interest
  {
    hide Integrity, PlanningEffect, Restricts, SetOf, ValidUsername, ListStorable;
  }

  predicate IsWriting(op: Op) {
    op.NewDiscussion? || op.UpdateDiscussion? || op.SetPublic?
  }

  /** Every step writes at most one discussion's row, and otherwise at most deletes. */
  lemma EffectOnDiscussions(t: Database, op: Op, t': Database)
    requires Effect(t, op, t')
    ensures IsWriting(op) ==> op.id in t'.discussions && t'.discussions == t.discussions[op.id := t'.discussions[op.id]]
    ensures !IsWriting(op) ==> SubDiscussions(t, t')
  {
    hide Integrity, ValidText, ValidUsername, Restricts, SetOf, PlanningEffect, WithoutUser, WithoutDiscussions;
    if IsPlanning(op) {
      PlanningKeepsPeople(t, op, t');
    } else if op.DeleteUser? {
      DeletionsOnlyDelete(t, op.uid, {});
    } else if op.DeleteDiscussion? {
      DeletionsOnlyDelete(t, UserID(""), {op.id});
    }
  }

  lemma WrittenTextIsValid(t: Database, op: Op, t': Database)
    requires Effect(t, op, t') && IsWriting(op) && TextsValid(t)
    ensures op.id in t'.discussions
    ensures NotBlank(t'.discussions[op.id].title) && NotBlank(t'.discussions[op.id].description)
  {
    hide Integrity, ValidText, NotBlank, PlanningEffect;
    if op.NewDiscussion? {
      ValidTextMeans(op.draft.row.title, op.draft.row.description);
    } else if op.UpdateDiscussion? {
      ValidTextMeans(op.title, op.description);
    }
  }

  lemma EffectKeepsTexts(t: Database, op: Op, t': Database)
    requires Effect(t, op, t') && TextsValid(t)
    ensures TextsValid(t')
  {
    hide Integrity, NotBlank, Effect;
    EffectOnDiscussions(t, op, t');
    if IsWriting(op) {
      WrittenTextIsValid(t, op, t');
    }
  }

  lemma OthersKeepTimetable(t: Database, op: Op, t': Database)
    requires Effect(t, op, t') && !op.SetTimetable? && !op.SetLockedSlots?
    ensures t'.days == t.days && t'.slots == t.slots
  {
    hide Integrity, PeopleEffect;
    if !IsPlanning(op) {
      PeopleKeepTimetable(t, op, t');
    }
  }

  lemma EffectKeepsContiguity(t: Database, op: Op, t': Database)
    requires Effect(t, op, t') && Contiguous(t)
    ensures Contiguous(t')
  {
    hide Integrity, SlotsAre;
    if op.SetTimetable? {
      ReconciledIsContiguous(t, op.tt, t');
    } else if op.SetLockedSlots? {
      LocksKeepShape(t, (set s | s in op.pslots), t');
    } else {
      OthersKeepTimetable(t, op, t');
    }
  }

  /** Every state that any history reaches. */
  lemma {:induction false} ReachableInvariant(tr: Trace)
    requires Valid(tr)
    ensures InterestInRange(Now(tr)) && TextsValid(Now(tr)) && Contiguous(Now(tr))
  {
    hide Integrity, Effect;
    match tr
    case Start =>
      assert DaysAre(Now(tr).days, 0);
    case Then(b, op, ok, now) =>
      ReachableInvariant(b);
      if ok {
        EffectKeepsInterest(Now(b), op, now);
        EffectKeepsTexts(Now(b), op, now);
        EffectKeepsContiguity(Now(b), op, now);
      }
  }

  /** In every reachable state, whatever a snapshot records is well formed and agrees with the discussion's page. */
  lemma ReachableSnapshotsAgree(tr: Trace, d: DiscussionID, x: Disc)
    requires Valid(tr) && Records(Now(tr), d, x)
    ensures WellFormed(x) && x.maxInterest == MaxScore(Now(tr), d)
  {
    ReachableInvariant(tr);
    MaxInterestIsMaxScore(Now(tr), d, x);
  }

  /** In every history, each schedule that is made is near-optimal among all that could have been stored. */
  lemma ReachableScheduleIsNearOptimal(tr: Trace, rows: Rows)
    requires Valid(tr) && tr.Then? && tr.ok && tr.op.MakeSchedule? && Candidate(Now(tr.before), rows)
    ensures
      var t := Now(tr.before);
      && ScheduleWorth(t, rows) <= (|t.locations| + 2) * ScheduleWorth(t, tr.now.schedule) + BonusLoss(t)
      && (DemandFits(t) ==> ScheduleWorth(t, rows) <= 2 * ScheduleWorth(t, tr.now.schedule) + BonusLoss(t))
  {
    hide Integrity, ForeignKeys, Candidate, SafeReschedule, SnapshotFails, ScheduleWorth, BonusLoss, DemandFits,
      Contiguous;
    ReachableInvariant(tr.before);
    assert NonNegativeInterest(Now(tr.before));
  }

  // ----- at most once, over whole histories

  ghost predicate InOrder(t: Database) {
    AtMostOnce(t) && NoBreakScheduled(t)
  }

  /** At every point of the history, no discussion is scheduled twice and no break holds one. */
  ghost predicate AlwaysInOrder(tr: Trace) {
    InOrder(Now(tr)) && (tr.Then? ==> AlwaysInOrder(tr.before))
  }

  /**
   No plan that was stored later than it was made schedules a discussion with a row in a slot that the
   plan does not rewrite, and no timetable turns a slot that holds a discussion into a break: both can
   be checked beforehand.
   */
  ghost predicate Orderly(tr: Trace) {
    tr.Then? ==>
      && Orderly(tr.before)
      && (tr.ok && tr.op.StoreSchedule? ==> NothingKeptIsPlanned(Now(tr.before), tr.op.plan))
      && (tr.ok && tr.op.SetTimetable? ==> ClearOfBreaks(Now(tr.before), tr.op.tt))
  }

  /** Only the two scheduling operations add schedule rows, and only a timetable changes breaks. */
  lemma OnlySchedulingAddsRows(t: Database, op: Op, t': Database)
    requires Effect(t, op, t') && !op.MakeSchedule? && !op.StoreSchedule?
    ensures SubSchedule(t, t')
    ensures !op.SetTimetable? ==> forall s :: s in t.slots ==> s in t'.slots && t'.slots[s].isBreak == t.slots[s].isBreak
  {
    hide Integrity, PeopleEffect, VanishedUpTo;
    if !IsPlanning(op) {
      PeopleKeepTimetable(t, op, t');
    }
  }

  lemma SubScheduleKeepsOnce(t: Tables, t': Tables)
    requires AtMostOnce(t) && SubSchedule(t, t')
    ensures AtMostOnce(t')
  {}

  lemma SubScheduleKeepsBreaksFree(t: Database, t': Database)
    requires NoBreakScheduled(t) && SubSchedule(t, t')
    requires forall s :: s in t.slots ==> s in t'.slots && t'.slots[s].isBreak == t.slots[s].isBreak
    ensures NoBreakScheduled(t')
  {}

  lemma FreeBreaksAreFreeUnlocked(t: Database)
    requires NoBreakScheduled(t)
    ensures NoUnlockedBreakScheduled(t)
  {}

  /** What a step needs to keep order: nothing, unless it stores a plan or changes the timetable. */
  ghost predicate KeepsOrder(t: Database, op: Op) {
    (op.StoreSchedule? ==> NothingKeptIsPlanned(t, op.plan)) && (op.SetTimetable? ==> ClearOfBreaks(t, op.tt))
  }

  /** earlier is the state that the plan was made from, if the step stores one. */
  lemma StepKeepsOrderIff(t: Database, op: Op, t': Database, earlier: Database)
    requires Contiguous(t) && Effect(t, op, t') && InOrder(t)
    requires op.StoreSchedule? ==> PlannedFrom(earlier, op.plan) && InOrder(earlier)
    ensures InOrder(t') <==> KeepsOrder(t, op)
  {
    hide Integrity, AtMostOnce, NoBreakScheduled, SubSchedule, Contiguous, Stored, WellPlacedPlan, PlannedFrom,
      NearOptimal, NothingKeptIsPlanned, IdsFresh, ClearOfBreaks, Reconciled, Acceptable, PeopleEffect, SnapshotFails,
      KeepsOtherSlots, RespectsRestrictions, LeavesOutOnlyWhenFull, DemandFits, NoUnlockedBreakScheduled;
    if op.MakeSchedule? {
      FreeBreaksAreFreeUnlocked(t);
    } else if op.StoreSchedule? {
      StalePlanIff(earlier, op.plan, t, t');
      StoringKeepsBreaks(t, op.plan, t');
    } else {
      OnlySchedulingAddsRows(t, op, t');
      SubScheduleKeepsOnce(t, t');
      if op.SetTimetable? {
        TimetableKeepsBreaksFreeIff(t, op.tt, t');
      } else {
        SubScheduleKeepsBreaksFree(t, t');
      }
    }
  }

  lemma StartsInOrder()
    ensures InOrder(Now(Start))
  {}

  /**
   Over every history: no discussion is ever scheduled twice and no break ever holds one, if and only
   if every plan stored and every timetable set was harmless in the state it met.
   */
  lemma {:induction false} ScheduledOnceThroughout(tr: Trace)
    requires Valid(tr)
    ensures AlwaysInOrder(tr) <==> Orderly(tr)
  {
    hide Integrity, Effect, InOrder, NothingKeptIsPlanned, ClearOfBreaks, Contiguous, PlannedFrom, Planned;
    match tr
    case Start =>
      StartsInOrder();
    case Then(b, op, ok, now) =>
      ScheduledOnceThroughout(b);
      HeadInOrder(b);
      if ok && AlwaysInOrder(b) {
        ReachableInvariant(b);
        var earlier := Now(b);
        if op.StoreSchedule? {
          earlier := MadeInOrder(b, op.plan);
        }
        StepKeepsOrderIff(Now(b), op, now, earlier);
      }
  }

  lemma HeadInOrder(tr: Trace)
    ensures AlwaysInOrder(tr) ==> InOrder(Now(tr))
  {}

  /** In a history that has always been in order, so was the state that a plan was made from. */
  lemma {:induction false} MadeInOrder(tr: Trace, plan: seq<PlanSlot>) returns (earlier: Database)
    requires Planned(tr, plan) && AlwaysInOrder(tr)
    ensures PlannedFrom(earlier, plan) && InOrder(earlier)
  {
    hide InOrder, PlannedFrom;
    if PlannedFrom(Now(tr), plan) {
      HeadInOrder(tr);
      earlier := Now(tr);
    } else {
      earlier := MadeInOrder(tr.before, plan);
    }
  }

  // ----- only what is public gets scheduled

  /** Every discussion that a plan names was public, at a time in the history, when the plan was made. */
  lemma {:induction false} PlannedWasPublic(tr: Trace, plan: seq<PlanSlot>) returns (earlier: Trace)
    requires Planned(tr, plan)
    ensures EarlierIn(earlier, tr)
    ensures forall k, d :: Plans(plan, k, d) ==> d in Now(earlier).discussions && Now(earlier).discussions[d].isPublic
  {
    hide Plans;
    if PlannedFrom(Now(tr), plan) {
      earlier := tr;
    } else {
      earlier := PlannedWasPublic(tr.before, plan);
    }
  }

  ghost predicate EarlierIn(p: Trace, tr: Trace) {
    p == tr || (tr.Then? && EarlierIn(p, tr.before))
  }

  /** Whenever a schedule is made, every discussion is public, by its last write. */
  lemma MadeWhilePublic(tr: Trace, d: DiscussionID)
    requires Valid(tr) && tr.Then? && tr.ok && tr.op.MakeSchedule? && d in tr.now.discussions
    ensures tr.now.discussions[d].isPublic && LastMadePublic(tr, d)
  {
    HistoryIsFaithful(tr, d);
    hide Integrity, Faithful, SafeReschedule, NearOptimal;
    PlanningKeepsPeople(Now(tr.before), tr.op, tr.now);
  }

  // ----- moderation

  datatype Text = Text(title: string, description: string)

  /** The text last written for d, read off the history alone. */
  ghost function LastText(tr: Trace, d: DiscussionID): Text {
    match tr
    case Start => Text("", "")
    case Then(b, op, ok, _) =>
      if ok && op.NewDiscussion? && op.id == d then Text(op.draft.row.title, op.draft.row.description)
      else if ok && op.UpdateDiscussion? && op.id == d then Text(op.title, op.description)
      else LastText(b, d)
  }

  ghost predicate IsVerified(t: Tables, u: UserID) {
    u in t.users && t.users[u].isVerified
  }

  /** The owner last written for d. */
  ghost function LastOwner(tr: Trace, d: DiscussionID): UserID {
    match tr
    case Start => UserID("")
    case Then(b, op, ok, _) =>
      if ok && op.NewDiscussion? && op.id == d then op.draft.row.owner
      else if ok && op.UpdateDiscussion? && op.id == d then op.owner
      else LastOwner(b, d)
  }

  /** Whether the last write of d was for an owner who was verified then, or made d public. */
  ghost predicate LastMadePublic(tr: Trace, d: DiscussionID) {
    match tr
    case Start => false
    case Then(b, op, ok, _) =>
      if ok && op.NewDiscussion? && op.id == d then IsVerified(Now(b), op.draft.row.owner)
      else if ok && op.UpdateDiscussion? && op.id == d then IsVerified(Now(b), op.owner)
      else if ok && op.SetPublic? && op.id == d then op.public
      else LastMadePublic(b, d)
  }

  /**
   The most recent approval of d since it was last hidden: a write on behalf of a verified owner, or
   making it public, which approves the text last written.
   */
  ghost function LastApproval(tr: Trace, d: DiscussionID): Option<Text> {
    match tr
    case Start => None
    case Then(b, op, ok, _) =>
      if !ok then LastApproval(b, d)
      else if op.NewDiscussion? && op.id == d then
        if IsVerified(Now(b), op.draft.row.owner) then Some(LastText(tr, d)) else None
      else if op.UpdateDiscussion? && op.id == d && IsVerified(Now(b), op.owner) then Some(LastText(tr, d))
      else if op.SetPublic? && op.id == d then (if op.public then Some(LastText(b, d)) else None)
      else LastApproval(b, d)
  }

  function Current(row: Discussion): Text {
    Text(row.title, row.description)
  }

  function Approved(row: Discussion): Text {
    Text(row.approvedTitle, row.approvedDescription)
  }

  /** The stored columns are what the history says. */
  ghost predicate Faithful(tr: Trace, d: DiscussionID, row: Discussion) {
    && Current(row) == LastText(tr, d) && row.owner == LastOwner(tr, d)
    && (row.isPublic <==> LastMadePublic(tr, d))
    && Approved(row) == (match LastApproval(tr, d) case Some(x) => x case None => Text("", ""))
    && (row.isPublic ==> LastApproval(tr, d) == Some(Current(row)))
    && (LastApproval(tr, d).Some? ==> LastApproval(tr, d).value.title != "")
  }

  lemma {:induction false} HistoryIsFaithful(tr: Trace, d: DiscussionID)
    requires Valid(tr) && d in Now(tr).discussions
    ensures Faithful(tr, d, Now(tr).discussions[d])
  {
    hide Integrity, PlanningEffect, WithoutUser, WithoutDiscussions, Restricts, SetOf, ValidUsername, WithRestriction;
    match tr
    case Then(b, op, ok, now) =>
      if !ok {
        HistoryIsFaithful(b, d);
      } else if op.NewDiscussion? && op.id == d {
      } else if (op.UpdateDiscussion? || op.SetPublic?) && op.id == d {
        HistoryIsFaithful(b, d);
        ReachableInvariant(b);
      } else {
        EffectOnDiscussions(Now(b), op, now);
        HistoryIsFaithful(b, d);
      }
  }

  /**
   What an outsider gets to see of a discussion, in any history: nothing if nothing is approved, and
   otherwise exactly the most recently approved text.
   */
  lemma OutsiderSeesLastApproval(tr: Trace, d: DiscussionID, cur: Option<Viewer>, r: Option<DiscussionDisplay>)
    requires Valid(tr) && d in Now(tr).discussions
    requires Outsider(Now(tr).discussions[d], cur) && Shows(Now(tr).discussions[d], cur, r)
    ensures r == None <==> LastApproval(tr, d) == None
    ensures r.Some? ==> LastApproval(tr, d) == Some(Text(r.value.full.title, r.value.descriptionRaw))
  {
    HistoryIsFaithful(tr, d);
  }
}
