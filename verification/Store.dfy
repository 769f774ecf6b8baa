/**
 The event database: its tables, the constraints of its schema, and statements that either keep the
 constraints or fail.
 */
module Store {
  import opened Ids

  datatype User = User(username: string, isAdmin: bool, isVerified: bool)

  datatype Discussion = Discussion(
    owner: UserID,
    title: string,
    description: string,
    approvedTitle: string,
    approvedDescription: string,
    isPublic: bool)

  datatype Slot = Slot(dayID: DayID, slotIdx: int, time: int, isBreak: bool, isLocked: bool)

  /** The unique columns of a schedule row. */
  type RowKey = (SlotID, LocationID)

  /** Each table is keyed by its primary key, or by its unique columns when it has none. */
  datatype Tables = Tables(
    users: map<UserID, User>,
    discussions: map<DiscussionID, Discussion>,
    interest: map<(UserID, DiscussionID), int>,
    locations: set<LocationID>,
    days: map<DayID, string>,
    slots: map<SlotID, Slot>,
    possible: set<(DiscussionID, SlotID)>,
    schedule: map<RowKey, DiscussionID>)

  predicate UniqueUsernames(users: map<UserID, User>) {
    forall u, v :: u in users && v in users && users[u].username == users[v].username ==> u == v
  }

  predicate UniqueTitles(discussions: map<DiscussionID, Discussion>) {
    forall d, e :: d in discussions && e in discussions && discussions[d].title == discussions[e].title ==> d == e
  }

  predicate SamePosition(a: Slot, b: Slot) {
    a.dayID == b.dayID && a.slotIdx == b.slotIdx
  }

  predicate UniquePositions(slots: map<SlotID, Slot>) {
    forall r, s :: r in slots && s in slots && SamePosition(slots[r], slots[s]) ==> r == s
  }

  /** Every reference names an existing row. */
  predicate ForeignKeys(t: Tables) {
    && (forall d :: d in t.discussions ==> t.discussions[d].owner in t.users)
    && (forall k :: k in t.interest ==> k.0 in t.users && k.1 in t.discussions)
    && (forall s :: s in t.slots ==> t.slots[s].dayID in t.days)
    && (forall p :: p in t.possible ==> p.0 in t.discussions && p.1 in t.slots)
    && (forall k :: k in t.schedule ==> k.0 in t.slots && k.1 in t.locations && t.schedule[k] in t.discussions)
  }

  predicate Integrity(t: Tables) {
    && ForeignKeys(t)
    && UniqueUsernames(t.users)
    && UniqueTitles(t.discussions)
    && UniquePositions(t.slots)
  }

  /** Tables that satisfy the schema: the only states that a statement can leave behind. */
  type Database = t: Tables | Integrity(t) witness Tables(map[], map[], map[], {}, map[], map[], {}, map[])

  /** The committed state. */
  class EventStore {
    var t: Database

    constructor ()
      ensures t == Tables(map[], map[], map[], {}, map[], map[], {}, map[])
    {
      t := Tables(map[], map[], map[], {}, map[], map[], {}, map[]);
    }
  }

  /** An open transaction: statements see and change its view of the tables. */
  class Transaction {
    var t: Database

    constructor (t: Database)
      ensures this.t == t
    {
      this.t := t;
    }

    /** Runs a statement whose effect would be next; constraints are checked at its end. */
    method Exec(next: Tables) returns (ok: bool)
      modifies this
      ensures ok <==> Integrity(next)
      ensures t == if ok then next else old(t)
    {
      ok := Integrity(next);
      if ok {
        t := next;
      }
    }
  }
}
