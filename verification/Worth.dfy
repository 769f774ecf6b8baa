/**
 What a schedule is worth, read off the tables alone: the sum, over slots and users, of each user's
 highest interest among the discussions of the slot.
 */
module Worth {
  import opened Ids
  import opened Sums
  import opened Scoring
  import opened Store
  import opened Queries
  import opened Snapshot

  type Rows = map<RowKey, DiscussionID>

  /** User u's highest interest among the given discussions; zero when there is none. */
  ghost function Best(t: Tables, ids: set<DiscussionID>, u: UserID): (b: int)
    ensures 0 <= b
    decreases |ids|
  {
    if ids == {} then 0
    else
      var d := Pick(ids);
      Max(Best(t, ids - {d}, u), InterestIn(t, d)(u))
  }

  ghost function BestOf(t: Tables, ids: set<DiscussionID>): UserID -> int {
    u => Best(t, ids, u)
  }

  /** What the given discussions are worth in one slot. */
  ghost function SlotWorth(t: Tables, ids: set<DiscussionID>): int {
    SumSet(t.users.Keys, BestOf(t, ids))
  }

  /** The discussions with a row in slot s. */
  function DiscussionsAt(rows: Rows, s: SlotID): set<DiscussionID> {
    set k | k in rows && k.0 == s :: rows[k]
  }

  ghost function WorthAt(t: Tables, rows: Rows): SlotID -> int {
    s => SlotWorth(t, DiscussionsAt(rows, s))
  }

  /** What the rows in schedulable slots are worth. */
  ghost function ScheduleWorth(t: Tables, rows: Rows): int {
    SumSet(SchedulableSlots(t), WorthAt(t, rows))
  }

  lemma {:induction false} BestWitness(t: Tables, ids: set<DiscussionID>, u: UserID)
    ensures forall d :: d in ids ==> InterestIn(t, d)(u) <= Best(t, ids, u)
    ensures Best(t, ids, u) == 0 || exists d :: d in ids && InterestIn(t, d)(u) == Best(t, ids, u)
    decreases |ids|
  {
    if ids != {} {
      var d := Pick(ids);
      BestWitness(t, ids - {d}, u);
      assert forall e :: e in ids ==> e == d || e in ids - {d};
    }
  }

  /** ds records exactly the given discussions, in any order and as often as it likes. */
  ghost predicate RecordsAll(t: Tables, ids: set<DiscussionID>, ds: seq<Disc>) {
    && (forall d :: d in ds ==> d.id in ids && ListsInterest(t, d.id, d.interest))
    && (forall id :: id in ids ==> exists d :: d in ds && d.id == id)
  }

  lemma LevelIsBest(t: Tables, ids: set<DiscussionID>, ds: seq<Disc>, u: UserID)
    requires RecordsAll(t, ids, ds) && NonNegativeInterest(t)
    ensures Level(ds, u) == Best(t, ids, u)
  {
    LevelWitness(ds, u);
    BestWitness(t, ids, u);
    forall d | d in ds ensures Top(d.interest, u) == InterestIn(t, d.id)(u) {
      TopIsInterest(t, d.id, d.interest, u);
    }
    hide ListsInterest, InterestIn;
    forall id | id in ids ensures InterestIn(t, id)(u) <= Level(ds, u) {
      var d :| d in ds && d.id == id;
    }
  }

  lemma RecordedUsers(t: Tables, ids: set<DiscussionID>, ds: seq<Disc>)
    requires ForeignKeys(t) && RecordsAll(t, ids, ds)
    ensures Scoring.Users(ds) <= t.users.Keys
  {
    forall i, j | 0 <= i < |ds| && 0 <= j < |ds[i].interest| ensures ds[i].interest[j].user in t.users {
      assert ds[i] in ds && ds[i].interest[j] in ds[i].interest;
    }
  }

  /** The scheduler's score of recorded discussions is what they are worth. */
  lemma ScoreIsWorth(t: Tables, ids: set<DiscussionID>, ds: seq<Disc>)
    requires ForeignKeys(t) && RecordsAll(t, ids, ds) && NonNegativeInterest(t)
    ensures Score(ds) == SlotWorth(t, ids)
  {
    RecordedUsers(t, ids, ds);
    ScoreOver(ds, t.users.Keys);
    forall u ensures LevelOf(ds)(u) == BestOf(t, ids)(u) {
      LevelIsBest(t, ids, ds, u);
    }
    SumCong(t.users.Keys, LevelOf(ds), BestOf(t, ids));
  }

  lemma WorthNonNegative(t: Tables, rows: Rows)
    ensures 0 <= ScheduleWorth(t, rows)
  {
    forall s ensures 0 <= WorthAt(t, rows)(s) {
      var best := BestOf(t, DiscussionsAt(rows, s));
      SumZero(t.users.Keys, _ => 0);
      SumMono(t.users.Keys, _ => 0, best);
    }
    SumZero(SchedulableSlots(t), _ => 0);
    SumMono(SchedulableSlots(t), _ => 0, WorthAt(t, rows));
  }

  lemma NothingIsWorthNothing(t: Tables)
    ensures ScheduleWorth(t, map[]) == 0
  {
    forall s ensures WorthAt(t, map[])(s) == 0 {
      assert DiscussionsAt(map[], s) == {};
      SumZero(t.users.Keys, BestOf(t, {}));
    }
    SumZero(SchedulableSlots(t), WorthAt(t, map[]));
  }

  /** A sum over a listing, index by index, is the sum over what is listed. */
  lemma {:induction false} SumOverListing<T(!new)>(q: seq<T>, s: set<T>, f: int -> int, g: T -> int)
    requires Lists(q, s) && forall i :: 0 <= i < |q| ==> f(i) == g(q[i])
    ensures SumTo(|q|, f) == SumSet(s, g)
  {
    if q == [] {
      assert s == {};
    } else {
      var front, last := q[..|q| - 1], q[|q| - 1];
      ListFront(q, s);
      SumOverListing(front, s - {last}, f, g);
      SumRemove(s, g, last);
    }
  }

  // ----- recordings exist

  lemma {:induction false} ListingExists<T(!new)>(s: set<T>) returns (q: seq<T>)
    ensures Lists(q, s)
    decreases |s|
  {
    q := [];
    if s != {} {
      var x :| x in s;
      q := ListingExists(s - {x});
      q := q + [x];
    }
  }

  lemma RecordingOfOne(t: Tables, id: DiscussionID) returns (d: Disc)
    ensures d.id == id && ListsInterest(t, id, d.interest)
  {
    var keys := ListingExists(set k | k in t.interest && k.1 == id);
    assert forall i :: 0 <= i < |keys| ==> keys[i] in keys;
    var rows := seq(|keys|, i requires 0 <= i < |keys| => InterestRow(t, keys[i]));
    InterestListed(t, id, keys, rows);
    d := Disc(id, UserID(""), {}, rows, 0);
  }

  lemma {:induction false} RecordingExists(t: Tables, ids: set<DiscussionID>) returns (ds: seq<Disc>)
    ensures RecordsAll(t, ids, ds)
    decreases |ids|
  {
    hide ListsInterest;
    ds := [];
    if ids != {} {
      var id :| id in ids;
      var front := RecordingExists(t, ids - {id});
      var d := RecordingOfOne(t, id);
      ds := front + [d];
      assert d in ds;
      forall e | e in ids ensures exists x :: x in ds && x.id == e {
        if e != id {
          assert e in ids - {id};
          var x :| x in front && x.id == e;
          assert x in ds;
        }
      }
    }
  }
}
