/** Operations on discussions: creation, editing, approval, deletion and possible slots. */
module Discussions {
  import opened Ids
  import opened Store
  import opened Snapshot
  import opened Transactions

  const INTEREST_MAX := 100
  const MAX_DISCUSSIONS_PER_USER := 12

  /** White space as Unicode defines it. */
  predicate IsSpace(c: char) {
    || '\U{9}' <= c <= '\U{d}' || c == ' ' || c == '\U{85}' || c == '\U{a0}' || c == '\U{1680}'
    || '\U{2000}' <= c <= '\U{200a}' || c == '\U{2028}' || c == '\U{2029}' || c == '\U{202f}'
    || c == '\U{205f}' || c == '\U{3000}'
  }

  predicate AllWhitespace(s: string) {
    forall i :: 0 <= i < |s| ==> IsSpace(s[i])
  }

  predicate ValidText(title: string, description: string) {
    title != "" && !AllWhitespace(title) && description != "" && !AllWhitespace(description)
  }

  ghost predicate NotBlank(s: string) {
    exists i :: 0 <= i < |s| && !IsSpace(s[i])
  }

  /** A valid text has something other than white space in its title and in its description. */
  lemma ValidTextMeans(title: string, description: string)
    ensures ValidText(title, description) <==> NotBlank(title) && NotBlank(description)
  {}

  function Owned(t: Tables, u: UserID): set<DiscussionID> {
    set d | d in t.discussions && t.discussions[d].owner == u
  }

  // ----- creation and editing

  /** The caller's record, which the transaction fills in. */
  datatype Draft = Draft(id: DiscussionID, row: Discussion)

  /** The draft as it is inserted: public and approved exactly when the owner is verified. */
  function Filled(d: Draft, id: DiscussionID, verified: bool): Draft {
    Draft(id, d.row.(
      isPublic := verified,
      approvedTitle := if verified then d.row.title else "",
      approvedDescription := if verified then d.row.description else ""))
  }

  predicate TitleFree(t: Tables, title: string, except: set<DiscussionID>) {
    forall d :: d in t.discussions && d !in except ==> t.discussions[d].title != title
  }

  predicate MayCreate(t: Tables, owner: UserID) {
    owner in t.users && (|Owned(t, owner)| < MAX_DISCUSSIONS_PER_USER || t.users[owner].isAdmin)
  }

  predicate Creatable(t: Tables, d: Draft, generated: DiscussionID) {
    MayCreate(t, d.row.owner) && generated !in t.discussions && TitleFree(t, d.row.title, {})
  }

  function WhyNotCreated(t: Tables, d: Draft): Error {
    if d.row.owner !in t.users then NotFound
    else if !MayCreate(t, d.row.owner) then Refused
    else ConstraintViolated
  }

  /** Tables with one more discussion, in which its owner has the highest interest. */
  function WithDiscussion(t: Tables, d: Draft): Tables {
    t.(discussions := t.discussions[d.id := d.row],
       interest := t.interest[(d.row.owner, d.id) := INTEREST_MAX])
  }

  /** Storing a row with an existing owner violates at most the uniqueness of titles. */
  lemma PutDiscussion(t: Database, id: DiscussionID, row: Discussion)
    requires row.owner in t.users
    ensures Integrity(t.(discussions := t.discussions[id := row])) <==> TitleFree(t, row.title, {id})
  {
    var next := t.discussions[id := row];
    if UniqueTitles(next) {
      forall e | e in t.discussions && e !in {id} ensures t.discussions[e].title != row.title {
        assert next[e] == t.discussions[e] && next[id] == row;
      }
    }
  }

  lemma OwnersAreUsers(t: Database)
    ensures forall d :: d in t.discussions ==> t.discussions[d].owner in t.users
  {}

  lemma CreationKeepsIntegrity(t: Database, d: Draft, id: DiscussionID)
    requires Creatable(t, d, id)
    ensures Integrity(WithDiscussion(t, Filled(d, id, t.users[d.row.owner].isVerified)))
  {
    var f := Filled(d, id, t.users[d.row.owner].isVerified);
    PutDiscussion(t, id, f.row);
  }

  /** The outcome of one uninterrupted attempt; a refused one leaves something else in the caller's record. */
  function CreateOnce(t: Database, d: Draft, id: DiscussionID, leftover: Draft): Attempt<Draft> {
    if Creatable(t, d, id) then
      var f := Filled(d, id, t.users[d.row.owner].isVerified);
      CreationKeepsIntegrity(t, d, id);
      Attempt(None, f, WithDiscussion(t, f))
    else
      Attempt(Some(WhyNotCreated(t, d)), leftover, t)
  }

  /** What no attempt changes in the caller's record. */
  ghost predicate SameInput(d: Draft, e: Draft) {
    d.row.owner == e.row.owner && d.row.title == e.row.title && d.row.description == e.row.description
  }

  /** One attempt at creating a discussion under the generated id; also what becomes of the caller's record. */
  method NewDiscussionTx(tx: Transaction, draft: Draft, generated: DiscussionID) returns (r: Outcome<()>, d: Draft)
    modifies tx
    ensures r.Ok? <==> Creatable(old(tx.t), draft, generated)
    ensures r.Err? ==> r.error == WhyNotCreated(old(tx.t), draft) && SameInput(d, draft)
    ensures r.Ok? ==> d == Filled(draft, generated, old(tx.t).users[draft.row.owner].isVerified)
    ensures r.Ok? ==> tx.t == WithDiscussion(old(tx.t), d)
    // Column by column.
    ensures r.Ok? <==>
      && draft.row.owner in old(tx.t).users && generated !in old(tx.t).discussions
      && (forall e :: e in old(tx.t).discussions ==> old(tx.t).discussions[e].title != draft.row.title)
      && (|set e | e in old(tx.t).discussions && old(tx.t).discussions[e].owner == draft.row.owner| < 12
        || old(tx.t).users[draft.row.owner].isAdmin)
    ensures draft.row.owner !in old(tx.t).users ==> r == Err(NotFound)
    ensures draft.row.owner in old(tx.t).users && !old(tx.t).users[draft.row.owner].isAdmin ==>
      (r == Err(Refused) <==>
       |set e | e in old(tx.t).discussions && old(tx.t).discussions[e].owner == draft.row.owner| >= 12)
    ensures r.Ok? ==> d.id == generated && d.row.owner == draft.row.owner
    ensures r.Ok? ==> d.row.title == draft.row.title && d.row.description == draft.row.description
    ensures r.Ok? ==> (d.row.isPublic <==> old(tx.t).users[draft.row.owner].isVerified)
    ensures r.Ok? ==> d.row.approvedTitle == if d.row.isPublic then draft.row.title else ""
    ensures r.Ok? ==> d.row.approvedDescription == if d.row.isPublic then draft.row.description else ""
    ensures r.Ok? ==> tx.t == old(tx.t).(
      discussions := old(tx.t).discussions[generated := d.row],
      interest := old(tx.t).interest[(draft.row.owner, generated) := 100])
    ensures CreateOnce(old(tx.t), draft, generated, d) ==
      Attempt(if r.Ok? then None else Some(r.error), d, if r.Ok? then tx.t else old(tx.t))
  {
    hide Integrity;
    d := draft;
    var owner := draft.row.owner;
    if |Owned(tx.t, owner)| >= MAX_DISCUSSIONS_PER_USER {
      if owner !in tx.t.users {
        return Err(NotFound), d;
      }
      if !tx.t.users[owner].isAdmin {
        return Err(Refused), d;
      }
    }
    d := d.(id := generated);
    if owner !in tx.t.users {
      return Err(NotFound), d;
    }
    d := d.(row := d.row.(isPublic := tx.t.users[owner].isVerified));
    if d.row.isPublic {
      d := d.(row := d.row.(approvedTitle := d.row.title, approvedDescription := d.row.description));
    } else {
      d := d.(row := d.row.(approvedTitle := "", approvedDescription := ""));
    }
    if generated in tx.t.discussions {
      return Err(ConstraintViolated), d;
    }
    PutDiscussion(tx.t, d.id, d.row);
    assert TitleFree(tx.t, draft.row.title, {}) <==> TitleFree(tx.t, draft.row.title, {d.id});
    var ok := tx.Exec(tx.t.(discussions := tx.t.discussions[d.id := d.row]));
    if !ok {
      return Err(ConstraintViolated), d;
    }
    var e := SetInterestTx(tx, owner, d.id, INTEREST_MAX);
    return Ok(()), d;
  }

  /** Inserts or replaces an interest row; fails exactly when user or discussion does not exist. */
  method SetInterestTx(tx: Transaction, u: UserID, d: DiscussionID, level: int) returns (ok: bool)
    modifies tx
    ensures ok <==> u in old(tx.t).users && d in old(tx.t).discussions
    ensures tx.t == if ok then old(tx.t).(interest := old(tx.t).interest[(u, d) := level]) else old(tx.t)
  {
    ghost var next := tx.t.(interest := tx.t.interest[(u, d) := level]);
    assert (u, d) in next.interest;
    ok := tx.Exec(tx.t.(interest := tx.t.interest[(u, d) := level]));
  }

  /** The stored row after an edit: approved text follows only if the (new) owner is verified. */
  function Edited(row: Discussion, owner: UserID, title: string, description: string, verified: bool): Discussion {
    var r := row.(owner := owner, title := title, description := description, isPublic := verified);
    if verified then r.(approvedTitle := title, approvedDescription := description) else r
  }

  /** A change of owner gives the new owner the highest interest. */
  function WithEdit(t: Tables, id: DiscussionID, owner: UserID, title: string, description: string): Tables
    requires id in t.discussions && owner in t.users
  {
    t.(discussions := t.discussions[id := Edited(t.discussions[id], owner, title, description, t.users[owner].isVerified)],
       interest := if owner == t.discussions[id].owner then t.interest else t.interest[(owner, id) := INTEREST_MAX])
  }

  method DiscussionUpdateTx(tx: Transaction, id: DiscussionID, owner: UserID, title: string, description: string)
    returns (r: Outcome<()>)
    modifies tx
    ensures r.Ok? <==> id in old(tx.t).discussions && owner in old(tx.t).users && TitleFree(old(tx.t), title, {id})
    ensures r.Err? ==> r.error == if id in old(tx.t).discussions then ConstraintViolated else NotFound
    ensures r.Ok? ==> tx.t == WithEdit(old(tx.t), id, owner, title, description)
    // Column by column.
    ensures r.Ok? <==>
      && id in old(tx.t).discussions && owner in old(tx.t).users
      && forall e :: e in old(tx.t).discussions && e != id ==> old(tx.t).discussions[e].title != title
    ensures r.Ok? ==> tx.t == old(tx.t).(discussions := tx.t.discussions, interest := tx.t.interest)
    ensures r.Ok? ==> tx.t.discussions.Keys == old(tx.t).discussions.Keys
    ensures r.Ok? ==> forall e :: e in tx.t.discussions && e != id ==> tx.t.discussions[e] == old(tx.t).discussions[e]
    ensures r.Ok? ==>
      var was, row := old(tx.t).discussions[id], tx.t.discussions[id];
      && row.owner == owner && row.title == title && row.description == description
      && (row.isPublic <==> old(tx.t).users[owner].isVerified)
      && row.approvedTitle == (if row.isPublic then title else was.approvedTitle)
      && row.approvedDescription == (if row.isPublic then description else was.approvedDescription)
    ensures r.Ok? ==> forall k :: (k in tx.t.interest <==>
      k in old(tx.t).interest || (k == (owner, id) && owner != old(tx.t).discussions[id].owner))
    ensures r.Ok? ==> forall k :: k in tx.t.interest ==>
      tx.t.interest[k] == if k == (owner, id) && owner != old(tx.t).discussions[id].owner then INTEREST_MAX
                          else old(tx.t).interest[k]
  {
    hide Integrity;
    if id !in tx.t.discussions {
      return Err(NotFound);
    }
    OwnersAreUsers(tx.t);
    var row := tx.t.discussions[id];
    var verified := tx.t.users[row.owner].isVerified;
    if owner != row.owner {
      var ok := SetInterestTx(tx, owner, id, INTEREST_MAX);
      if !ok {
        return Err(ConstraintViolated);
      }
      verified := tx.t.users[owner].isVerified;
    }
    var row' := row.(owner := owner, title := title, description := description, isPublic := verified);
    if verified {
      row' := row'.(approvedTitle := title, approvedDescription := description);
    }
    PutDiscussion(tx.t, id, row');
    var ok := tx.Exec(tx.t.(discussions := tx.t.discussions[id := row']));
    return if ok then Ok(()) else Err(ConstraintViolated);
  }

  /** Approving copies the current text; hiding also forgets what was approved. */
  function WithPublic(row: Discussion, public: bool): Discussion {
    if public then row.(approvedTitle := row.title, approvedDescription := row.description, isPublic := true)
    else row.(approvedTitle := "", approvedDescription := "", isPublic := false)
  }

  lemma ApprovalKeepsIntegrity(t: Database, id: DiscussionID, public: bool)
    requires id in t.discussions
    ensures Integrity(t.(discussions := t.discussions[id := WithPublic(t.discussions[id], public)]))
  {}

  method DiscussionSetPublic(db: EventStore, id: DiscussionID, public: bool) returns (r: Outcome<()>)
    modifies db
    ensures r.Ok? <==> id in old(db.t).discussions
    ensures r.Err? ==> db.t == old(db.t)
    ensures r.Ok? ==> db.t == old(db.t).(
      discussions := old(db.t).discussions[id := WithPublic(old(db.t).discussions[id], public)])
    // Column by column.
    ensures r.Ok? ==> db.t == old(db.t).(discussions := db.t.discussions)
    ensures r.Ok? ==> db.t.discussions.Keys == old(db.t).discussions.Keys
    ensures r.Ok? ==> forall e :: e in db.t.discussions && e != id ==> db.t.discussions[e] == old(db.t).discussions[e]
    ensures r.Ok? ==>
      var was, row := old(db.t).discussions[id], db.t.discussions[id];
      && row.owner == was.owner && row.title == was.title && row.description == was.description
      && (row.isPublic <==> public)
      && row.approvedTitle == (if public then was.title else "")
      && row.approvedDescription == (if public then was.description else "")
  {
    if id !in db.t.discussions {
      return Err(NotFound);
    }
    ApprovalKeepsIntegrity(db.t, id, public);
    hide Integrity;
    db.t := db.t.(discussions := db.t.discussions[id := WithPublic(db.t.discussions[id], public)]);
    return Ok(());
  }

  // ----- deletion

  /** Everything except the given discussions and what refers to them. */
  function WithoutDiscussions(t: Tables, gone: set<DiscussionID>): Tables {
    t.(discussions := t.discussions - gone,
       interest := map k | k in t.interest && k.1 !in gone :: t.interest[k],
       possible := (set p | p in t.possible && p.0 !in gone),
       schedule := map k | k in t.schedule && t.schedule[k] !in gone :: t.schedule[k])
  }

  function DropInterest(t: Tables, gone: set<DiscussionID>): Tables {
    t.(interest := map k | k in t.interest && k.1 !in gone :: t.interest[k])
  }

  function DropInterestOf(t: Tables, u: UserID): Tables {
    t.(interest := map k | k in t.interest && k.0 != u :: t.interest[k])
  }

  function DropPossible(t: Tables, gone: set<DiscussionID>): Tables {
    t.(possible := set p | p in t.possible && p.0 !in gone)
  }

  function DropRows(t: Tables, gone: set<DiscussionID>): Tables {
    t.(schedule := map k | k in t.schedule && t.schedule[k] !in gone :: t.schedule[k])
  }

  /** Nothing refers to the given discussions. */
  predicate Unreferenced(t: Tables, gone: set<DiscussionID>) {
    && (forall k :: k in t.interest ==> k.1 !in gone)
    && (forall p :: p in t.possible ==> p.0 !in gone)
    && (forall k :: k in t.schedule ==> t.schedule[k] !in gone)
  }

  /** Dropping rows that nothing refers to keeps every constraint. */
  lemma DropInterestKeeps(t: Database, gone: set<DiscussionID>)
    ensures Integrity(DropInterest(t, gone))
  {}

  lemma DropInterestOfKeeps(t: Database, u: UserID)
    ensures Integrity(DropInterestOf(t, u))
  {}

  lemma DropPossibleKeeps(t: Database, gone: set<DiscussionID>)
    ensures Integrity(DropPossible(t, gone))
  {}

  lemma DropRowsKeeps(t: Database, gone: set<DiscussionID>)
    ensures Integrity(DropRows(t, gone))
  {}

  lemma DropDiscussionsKeeps(t: Database, gone: set<DiscussionID>)
    requires Unreferenced(t, gone)
    ensures Integrity(t.(discussions := t.discussions - gone))
  {}

  lemma DropAll(t: Tables, gone: set<DiscussionID>)
    ensures
      var bare := DropRows(DropPossible(DropInterest(t, gone), gone), gone);
      && Unreferenced(bare, gone) && bare.discussions == t.discussions
      && bare.(discussions := bare.discussions - gone) == WithoutDiscussions(t, gone)
  {}

  /** Row by row: exactly the given discussions and what refers to them is gone, and all else is as it was. */
  lemma DeletionIsExact(t: Tables, gone: set<DiscussionID>)
    ensures
      var after := WithoutDiscussions(t, gone);
      && after.users == t.users && after.locations == t.locations && after.days == t.days && after.slots == t.slots
      && (forall d :: d in after.discussions <==> d in t.discussions && d !in gone)
      && (forall d :: d in after.discussions ==> after.discussions[d] == t.discussions[d])
      && (forall k :: k in after.interest <==> k in t.interest && k.1 !in gone)
      && (forall k :: k in after.interest ==> after.interest[k] == t.interest[k])
      && (forall p :: p in after.possible <==> p in t.possible && p.0 !in gone)
      && (forall k :: k in after.schedule <==> k in t.schedule && t.schedule[k] !in gone)
      && (forall k :: k in after.schedule ==> after.schedule[k] == t.schedule[k])
  {}

  /** Other discussions keep their restrictions. */
  lemma DeletionKeepsRestrictions(t: Tables, gone: set<DiscussionID>, d: DiscussionID)
    requires d !in gone
    ensures Restriction(WithoutDiscussions(t, gone), d) == Restriction(t, d)
  {
    var after := WithoutDiscussions(t, gone);
    forall s | s in Restriction(t, d) ensures s in Restriction(after, d) {
      var p :| p in t.possible && p.0 == d && p.1 == s;
      assert p in after.possible;
    }
  }

  /** Child rows first, so that no statement can break a foreign key. */
  method DeleteDiscussionCommon(tx: Transaction, gone: set<DiscussionID>) returns (count: nat)
    modifies tx
    ensures tx.t == WithoutDiscussions(old(tx.t), gone)
    // Row by row: what is one of them or refers to one is gone, and all else is as it was.
    ensures forall d :: d in tx.t.discussions <==> d in old(tx.t).discussions && d !in gone
    ensures forall d :: d in tx.t.discussions ==> tx.t.discussions[d] == old(tx.t).discussions[d]
    ensures forall k :: k in tx.t.interest <==> k in old(tx.t).interest && k.1 !in gone
    ensures forall k :: k in tx.t.interest ==> tx.t.interest[k] == old(tx.t).interest[k]
    ensures forall p :: p in tx.t.possible <==> p in old(tx.t).possible && p.0 !in gone
    ensures forall k :: k in tx.t.schedule <==> k in old(tx.t).schedule && old(tx.t).schedule[k] !in gone
    ensures forall k :: k in tx.t.schedule ==> tx.t.schedule[k] == old(tx.t).schedule[k]
    ensures tx.t == old(tx.t).(discussions := tx.t.discussions, interest := tx.t.interest, possible := tx.t.possible,
      schedule := tx.t.schedule)
    ensures count == |gone * old(tx.t).discussions.Keys|
  {
    DropAll(tx.t, gone);
    DeletionIsExact(tx.t, gone);
    hide Integrity, WithoutDiscussions, Unreferenced;
    DropInterestKeeps(tx.t, gone);
    var ok := tx.Exec(DropInterest(tx.t, gone));
    assert ok;
    DropPossibleKeeps(tx.t, gone);
    ok := tx.Exec(DropPossible(tx.t, gone));
    assert ok;
    DropRowsKeeps(tx.t, gone);
    ok := tx.Exec(DropRows(tx.t, gone));
    assert ok;
    count := |gone * tx.t.discussions.Keys|;
    DropDiscussionsKeeps(tx.t, gone);
    ok := tx.Exec(tx.t.(discussions := tx.t.discussions - gone));
    assert ok;
  }

  method DeleteDiscussionTx(tx: Transaction, id: DiscussionID) returns (r: Outcome<()>)
    modifies tx
    ensures r == if id in old(tx.t).discussions then Ok(()) else Err(NotFound)
    ensures tx.t == WithoutDiscussions(old(tx.t), {id})
    // Row by row: what is the discussion or refers to it is gone, and all else is as it was.
    ensures forall d :: d in tx.t.discussions <==> d in old(tx.t).discussions && d != id
    ensures forall d :: d in tx.t.discussions ==> tx.t.discussions[d] == old(tx.t).discussions[d]
    ensures forall k :: k in tx.t.interest <==> k in old(tx.t).interest && k.1 != id
    ensures forall k :: k in tx.t.interest ==> tx.t.interest[k] == old(tx.t).interest[k]
    ensures forall p :: p in tx.t.possible <==> p in old(tx.t).possible && p.0 != id
    ensures forall k :: k in tx.t.schedule <==> k in old(tx.t).schedule && old(tx.t).schedule[k] != id
    ensures forall k :: k in tx.t.schedule ==> tx.t.schedule[k] == old(tx.t).schedule[k]
    ensures tx.t == old(tx.t).(discussions := tx.t.discussions, interest := tx.t.interest, possible := tx.t.possible,
      schedule := tx.t.schedule)
  {
    DeletionIsExact(tx.t, {id});
    hide Integrity, WithoutDiscussions;
    var count := DeleteDiscussionCommon(tx, {id});
    assert {id} * old(tx.t).discussions.Keys == if id in old(tx.t).discussions then {id} else {};
    return if count == 0 then Err(NotFound) else Ok(());
  }

  /** Everything except the user, the discussions it owns and what refers to either. */
  function WithoutUser(t: Tables, u: UserID): Tables {
    var gone := Owned(t, u);
    t.(users := t.users - {u},
       discussions := t.discussions - gone,
       interest := map k | k in t.interest && k.0 != u && k.1 !in gone :: t.interest[k],
       possible := (set p | p in t.possible && p.0 !in gone),
       schedule := map k | k in t.schedule && t.schedule[k] !in gone :: t.schedule[k])
  }

  /** What is left once the user's interest and the interest in its discussions are gone. */
  function WithoutInterest(t: Tables, u: UserID): Tables {
    DropInterest(DropInterestOf(t, u), Owned(t, u))
  }

  lemma OwnedIsStable(t: Tables, u: UserID)
    ensures Owned(DropInterestOf(t, u), u) == Owned(t, u) == Owned(WithoutInterest(t, u), u)
  {}

  /** Removing the owned discussions after that, and then the user, removes exactly what it should. */
  lemma DropUser(t: Tables, u: UserID)
    ensures
      var bare := WithoutDiscussions(WithoutInterest(t, u), Owned(t, u));
      bare.(users := bare.users - {u}) == WithoutUser(t, u)
  {
    var bare := WithoutDiscussions(WithoutInterest(t, u), Owned(t, u));
    assert bare.interest == WithoutUser(t, u).interest;
  }

  lemma DropUserKeeps(t: Tables, u: UserID, bare: Database)
    requires bare == WithoutDiscussions(WithoutInterest(t, u), Owned(t, u))
    ensures Integrity(bare.(users := bare.users - {u}))
  {}

  lemma ReferencesExist(t: Database)
    ensures forall k :: k in t.interest ==> k.1 in t.discussions
    ensures forall p :: p in t.possible ==> p.0 in t.discussions
    ensures forall k :: k in t.schedule ==> t.schedule[k] in t.discussions
  {}

  /** Row by row: what belongs to the user or refers to the user's discussions is gone, and all else is as it was. */
  lemma UserDeletionIsExact(t: Tables, u: UserID)
    ensures
      var after := WithoutUser(t, u);
      && after.locations == t.locations && after.days == t.days && after.slots == t.slots
      && (forall v :: v in after.users <==> v in t.users && v != u)
      && (forall v :: v in after.users ==> after.users[v] == t.users[v])
      && (forall d :: d in after.discussions <==> d in t.discussions && t.discussions[d].owner != u)
      && (forall d :: d in after.discussions ==> after.discussions[d] == t.discussions[d])
  {}

  lemma UserDeletionIsExactOnRows(t: Tables, u: UserID)
    requires forall k :: k in t.interest ==> k.1 in t.discussions
    requires forall p :: p in t.possible ==> p.0 in t.discussions
    requires forall k :: k in t.schedule ==> t.schedule[k] in t.discussions
    ensures
      var after := WithoutUser(t, u);
      && (forall k :: k in after.interest <==> k in t.interest && k.0 != u && t.discussions[k.1].owner != u)
      && (forall k :: k in after.interest ==> after.interest[k] == t.interest[k])
      && (forall p :: p in after.possible <==> p in t.possible && t.discussions[p.0].owner != u)
      && (forall k :: k in after.schedule <==> k in t.schedule && t.discussions[t.schedule[k]].owner != u)
      && (forall k :: k in after.schedule ==> after.schedule[k] == t.schedule[k])
  {}

  lemma UserDeletionKeepsRestrictions(t: Tables, u: UserID, d: DiscussionID)
    requires d in t.discussions && t.discussions[d].owner != u
    ensures Restriction(WithoutUser(t, u), d) == Restriction(t, d)
  {
    DeletionKeepsRestrictions(t, Owned(t, u), d);
    assert WithoutUser(t, u).possible == WithoutDiscussions(t, Owned(t, u)).possible;
  }

  method DeleteUserTx(tx: Transaction, u: UserID) returns (r: Outcome<()>)
    modifies tx
    ensures r == if u in old(tx.t).users then Ok(()) else Err(NotFound)
    ensures tx.t == WithoutUser(old(tx.t), u)
    // Row by row: what belongs to the user or refers to a discussion of the user's is gone, and all else is as it was.
    ensures forall v :: v in tx.t.users <==> v in old(tx.t).users && v != u
    ensures forall v :: v in tx.t.users ==> tx.t.users[v] == old(tx.t).users[v]
    ensures tx.t.locations == old(tx.t).locations && tx.t.days == old(tx.t).days && tx.t.slots == old(tx.t).slots
    ensures forall d :: d in tx.t.discussions <==> d in old(tx.t).discussions && old(tx.t).discussions[d].owner != u
    ensures forall d :: d in tx.t.discussions ==> tx.t.discussions[d] == old(tx.t).discussions[d]
    ensures forall k :: k in tx.t.interest <==>
      k in old(tx.t).interest && k.0 != u && old(tx.t).discussions[k.1].owner != u
    ensures forall k :: k in tx.t.interest ==> tx.t.interest[k] == old(tx.t).interest[k]
    ensures forall p :: p in tx.t.possible <==> p in old(tx.t).possible && old(tx.t).discussions[p.0].owner != u
    ensures forall k :: k in tx.t.schedule <==>
      k in old(tx.t).schedule && old(tx.t).discussions[old(tx.t).schedule[k]].owner != u
    ensures forall k :: k in tx.t.schedule ==> tx.t.schedule[k] == old(tx.t).schedule[k]
  {
    ReferencesExist(tx.t);
    UserDeletionIsExact(tx.t, u);
    UserDeletionIsExactOnRows(tx.t, u);
    OwnedIsStable(tx.t, u);
    DropUser(tx.t, u);
    assert WithoutDiscussions(WithoutInterest(tx.t, u), Owned(tx.t, u)).users == tx.t.users;
    hide Integrity, WithoutUser, Owned, WithoutDiscussions;
    DropInterestOfKeeps(tx.t, u);
    var ok := tx.Exec(DropInterestOf(tx.t, u));
    assert ok;
    DropInterestKeeps(tx.t, Owned(tx.t, u));
    ok := tx.Exec(DropInterest(tx.t, Owned(tx.t, u)));
    assert ok;
    var _ := DeleteDiscussionCommon(tx, Owned(tx.t, u));
    var count := |{u} * tx.t.users.Keys|;
    assert {u} * tx.t.users.Keys == if u in tx.t.users then {u} else {};
    DropUserKeeps(old(tx.t), u, tx.t);
    ok := tx.Exec(tx.t.(users := tx.t.users - {u}));
    assert ok;
    return if count == 0 then Err(NotFound) else Ok(());
  }
}
