/** Creating a discussion through the retry loop, with the caller's record shared by all attempts. */
module NewDiscussions {
  import opened Ids
  import opened Store
  import opened Discussions
  import opened Transactions

  /** An attempt that is interrupted when faults says so, and creates the discussion otherwise. */
  function CreateBody(ids: nat -> DiscussionID, faults: nat -> Option<Error>, leftover: (nat, Draft) -> Draft): Body<Draft> {
    (k: nat, d: Draft, t: Database) =>
      if faults(k).Some? then Attempt(faults(k), leftover(k, d), t) else CreateOnce(t, d, ids(k), leftover(k, d))
  }

  lemma {:induction false} InputSurvives(env: Environment, ids: nat -> DiscussionID, faults: nat -> Option<Error>,
                                         leftover: (nat, Draft) -> Draft, d: Draft, t: Database, n: nat)
    requires forall k, e :: SameInput(leftover(k, e), e)
    ensures SameInput(LocalAfter(env, CreateBody(ids, faults, leftover), d, t, n), d)
  {
    hide Integrity;
    if n > 0 {
      InputSurvives(env, ids, faults, leftover, d, t, n - 1);
    }
  }

  /** The record f was created from d as a new row of t, giving after. */
  ghost predicate Created(t: Tables, d: Draft, f: Draft, after: Tables) {
    && SameInput(f, d) && f.id !in t.discussions && d.row.owner in t.users
    && (f.row.isPublic <==> t.users[d.row.owner].isVerified)
    && f.row.approvedTitle == (if f.row.isPublic then d.row.title else "")
    && f.row.approvedDescription == (if f.row.isPublic then d.row.description else "")
    && after == t.(
      discussions := t.discussions[f.id := f.row],
      interest := t.interest[(d.row.owner, f.id) := INTEREST_MAX])
  }

  lemma CreateOnceCreates(t: Database, d: Draft, id: DiscussionID, leftover: Draft)
    ensures CreateOnce(t, d, id, leftover).error == None ==>
      && Created(t, d, CreateOnce(t, d, id, leftover).local, CreateOnce(t, d, id, leftover).t)
      && CreateOnce(t, d, id, leftover).local.id == id
  {}

  lemma CreatedFromSameInput(t: Tables, d: Draft, e: Draft, f: Draft, after: Tables)
    requires Created(t, e, f, after) && SameInput(e, d)
    ensures Created(t, d, f, after)
  {}

  /** How the k-th attempt ends: begun, uninterrupted, allowed by what it finds, committed, or which error. */
  ghost function CreationEnding(env: Environment, ids: nat -> DiscussionID, faults: nat -> Option<Error>,
                                draft: Draft, t: Database, k: nat): Option<Error> {
    if env.begin(k).Some? then env.begin(k)
    else if faults(k).Some? then faults(k)
    else if !Creatable(Seen(env, t, k), draft, ids(k)) then Some(WhyNotCreated(Seen(env, t, k), draft))
    else env.commit(k)
  }

  lemma SameInputSameOutcome(t: Database, d: Draft, e: Draft, id: DiscussionID, leftover: Draft)
    requires SameInput(d, e)
    ensures CreateOnce(t, d, id, leftover).error ==
      if Creatable(t, e, id) then None else Some(WhyNotCreated(t, e))
  {
    hide Integrity;
  }

  /** What earlier attempts left in the record has no influence on how an attempt ends. */
  lemma EndingIsCreationEnding(env: Environment, ids: nat -> DiscussionID, faults: nat -> Option<Error>,
                               leftover: (nat, Draft) -> Draft, d: Draft, t: Database, k: nat)
    requires forall j, e :: SameInput(leftover(j, e), e)
    requires 0 < k
    ensures Ending(env, CreateBody(ids, faults, leftover), d, t, k) == CreationEnding(env, ids, faults, d, t, k)
  {
    hide Integrity, CreateOnce, SameInput, Creatable, WhyNotCreated;
    InputSurvives(env, ids, faults, leftover, d, t, k - 1);
    var l := LocalAfter(env, CreateBody(ids, faults, leftover), d, t, k - 1);
    SameInputSameOutcome(Seen(env, t, k), l, d, ids(k), leftover(k, l));
  }

  /**
   However many attempts it takes and whatever the interrupted ones leave in the caller's record: the
   outcome is that of the first attempt that is not busy, and on success the record is the row that was
   committed, with the text and owner it came with.
   */
  method NewDiscussion(db: EventStore, env: Environment, ids: nat -> DiscussionID, faults: nat -> Option<Error>,
                       leftover: (nat, Draft) -> Draft, draft: Draft, ghost deadline: nat)
    returns (err: Option<Error>, d: Draft, n: nat, gaveUp: bool)
    requires forall k :: deadline <= k ==> Late(env, k)
    requires forall k, e :: SameInput(leftover(k, e), e)
    modifies db
    ensures !ValidText(draft.row.title, draft.row.description) ==>
      err == Some(Invalid) && n == 0 && !gaveUp && d == draft && db.t == old(db.t)
    ensures ValidText(draft.row.title, draft.row.description) ==> 0 < n
    ensures forall k :: 1 <= k < n ==> ShouldRetry(CreationEnding(env, ids, faults, draft, old(db.t), k))
    ensures 0 < n ==> (gaveUp <==> ShouldRetry(CreationEnding(env, ids, faults, draft, old(db.t), n)))
    ensures 0 < n ==> err == if gaveUp then Some(TooLong) else CreationEnding(env, ids, faults, draft, old(db.t), n)
    ensures gaveUp ==> MIN_TX_RETRIES <= n && Late(env, n + 1)
    ensures err == None ==> Created(Seen(env, old(db.t), n), draft, d, db.t) && d.id == ids(n)
    ensures err != None ==> db.t == Seen(env, old(db.t), n)
  {
    hide Integrity, Created, CreateOnce, SameInput, Creatable, WhyNotCreated;
    if !ValidText(draft.row.title, draft.row.description) {
      return Some(Invalid), draft, 0, false;
    }
    ghost var t0, body := db.t, CreateBody(ids, faults, leftover);
    ghost var commits;
    forall k | 0 < k ensures Ending(env, body, draft, t0, k) == CreationEnding(env, ids, faults, draft, t0, k) {
      EndingIsCreationEnding(env, ids, faults, leftover, draft, t0, k);
    }
    err, d, n, gaveUp, commits := TxLoop(db, env, CreateBody(ids, faults, leftover), draft, deadline);
    if err == None {
      InputSurvives(env, ids, faults, leftover, draft, t0, n - 1);
      ghost var l := LocalAfter(env, body, draft, t0, n - 1);
      CreateOnceCreates(Seen(env, t0, n), l, ids(n), leftover(n, l));
      CreatedFromSameInput(Seen(env, t0, n), draft, l, d, db.t);
    }
  }
}
