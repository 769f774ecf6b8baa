/**
 The heuristic itself: discussions are shared objects, the schedule holds pointers to them, and
 placement writes through those pointers.
 */
module Scheduler {
  import opened Ids
  import opened Scoring
  import opened GreedyRuns

  class SearchDiscussion {
    const info: Disc
    // Where the discussion has been put, once it has been placed
    var slotID: SlotID
    var locationID: LocationID

    constructor (info: Disc)
      ensures this.info == info
    {
      this.info := info;
      slotID, locationID := SlotID(""), 0;
    }
  }

  datatype ScheduleSlot = ScheduleSlot(slotID: SlotID, discussions: seq<SearchDiscussion>)

  class Schedule {
    var slots: seq<ScheduleSlot>
    var unplaced: seq<SearchDiscussion>

    constructor ()
      ensures slots == [] && unplaced == []
    {
      slots, unplaced := [], [];
    }
  }

  /** The part of the snapshot that scheduling reads. */
  datatype SearchStore = SearchStore(
    slots: seq<SlotID>,
    discussions: seq<SearchDiscussion>,
    locations: seq<LocationID>)

  ghost function AllObjects(ss: SearchStore): set<SearchDiscussion> {
    set d | d in ss.discussions
  }

  function BoardOf(ss: SearchStore): Board {
    Board(ss.slots, |ss.locations|)
  }

  function Infos(ds: seq<SearchDiscussion>): seq<Disc> {
    seq(|ds|, i requires 0 <= i < |ds| => ds[i].info)
  }

  /** A run over objects, seen as a run over what the objects record. */
  function View(r: Run<SearchDiscussion>): Run<Disc> {
    match r
    case Start => Start
    case Step(b, d, s) => Step(View(b), d.info, s)
  }

  lemma {:induction false} ViewContents(r: Run<SearchDiscussion>, i: int)
    ensures Contents(View(r), i) == Infos(Contents(r, i))
  {
    if r.Step? {
      ViewContents(r.before, i);
    }
  }

  lemma {:induction false} ViewOrder(r: Run<SearchDiscussion>)
    ensures Order(View(r)) == Infos(Order(r))
  {
    if r.Step? {
      ViewOrder(r.before);
    }
  }

  lemma {:induction false} ViewInRange(n: nat, r: Run<SearchDiscussion>)
    requires InRange(n, View(r))
    ensures InRange(n, r)
  {
    if r.Step? {
      ViewInRange(n, r.before);
    }
  }

  /** The slot lists are exactly what the run put there. */
  ghost predicate Holds(slots: seq<ScheduleSlot>, slotIDs: seq<SlotID>, r: Run<SearchDiscussion>) {
    && |slots| == |slotIDs|
    && forall i :: 0 <= i < |slots| ==> slots[i].slotID == slotIDs[i] && slots[i].discussions == Contents(r, i)
  }

  predicate Sorted(ds: seq<SearchDiscussion>) {
    forall i, j :: 0 <= i < j < |ds| ==> ds[i].info.maxInterest >= ds[j].info.maxInterest
  }

  // ----- building and sorting

  method ScheduleMakeEmpty(ss: SearchStore) returns (sched: Schedule)
    ensures fresh(sched)
    ensures Holds(sched.slots, ss.slots, Start)
    ensures sched.unplaced == ss.discussions
  {
    sched := new Schedule();
    for i := 0 to |ss.slots|
      invariant fresh(sched) && sched.unplaced == []
      invariant Holds(sched.slots, ss.slots[..i], Start)
    {
      sched.slots := sched.slots + [ScheduleSlot(ss.slots[i], [])];
    }
    for i := 0 to |ss.discussions|
      invariant fresh(sched) && sched.unplaced == ss.discussions[..i]
      invariant Holds(sched.slots, ss.slots, Start)
    {
      sched.unplaced := sched.unplaced + [ss.discussions[i]];
    }
  }

  lemma {:induction false} HighestExists(ds: seq<SearchDiscussion>) returns (i: nat)
    requires ds != []
    ensures i < |ds| && forall j :: 0 <= j < |ds| ==> ds[j].info.maxInterest <= ds[i].info.maxInterest
  {
    i := 0;
    for k := 1 to |ds|
      invariant i < |ds| && forall j :: 0 <= j < k ==> ds[j].info.maxInterest <= ds[i].info.maxInterest
    {
      if ds[i].info.maxInterest < ds[k].info.maxInterest {
        i := k;
      }
    }
  }

  lemma RemoveAt<T>(s: seq<T>, i: nat)
    requires i < |s|
    ensures multiset(s[..i] + s[i + 1..]) + multiset{s[i]} == multiset(s)
    ensures forall x :: x in s[..i] + s[i + 1..] ==> x in s
  {
    assert s == s[..i] + [s[i]] + s[i + 1..];
  }

  /** An unstable sort: discussions of equal interest may come out in any order. */
  method SortByInterest(ds: seq<SearchDiscussion>) returns (sorted: seq<SearchDiscussion>)
    ensures multiset(sorted) == multiset(ds)
    ensures Sorted(sorted)
  {
    sorted := [];
    var rest := ds;
    while rest != []
      invariant multiset(sorted) + multiset(rest) == multiset(ds)
      invariant Sorted(sorted)
      invariant forall i, y :: 0 <= i < |sorted| && y in rest ==> sorted[i].info.maxInterest >= y.info.maxInterest
      decreases |rest|
    {
      ghost var _ := HighestExists(rest);
      var i :| 0 <= i < |rest| && forall j :: 0 <= j < |rest| ==> rest[j].info.maxInterest <= rest[i].info.maxInterest;
      RemoveAt(rest, i);
      sorted := sorted + [rest[i]];
      rest := rest[..i] + rest[i + 1..];
    }
  }

  // ----- choosing slots

  method FindBestSlot(ss: SearchStore, slots: seq<ScheduleSlot>, disc: SearchDiscussion, ghost run: Run<SearchDiscussion>)
    returns (index: int)
    requires Holds(slots, ss.slots, run)
    ensures IsChoice(BoardOf(ss), View(run), disc.info, index) && -1 <= index < |slots|
    ensures index == -1 <==>
      forall o :: 0 <= o < |slots| && slots[o].slotID in disc.info.possible ==> |ss.locations| <= |slots[o].discussions|
    ensures index != -1 ==>
      slots[index].slotID in disc.info.possible && |slots[index].discussions| < |ss.locations|
    // Gain first, with a point for every discussion fewer; then the earlier slot.
    ensures index != -1 ==>
      forall o :: 0 <= o < |slots| && slots[o].slotID in disc.info.possible && |slots[o].discussions| < |ss.locations| ==>
        var there, here := Infos(slots[o].discussions), Infos(slots[index].discussions);
        && Score(there + [disc.info]) - Score(there) - |there| <= Score(here + [disc.info]) - Score(here) - |here|
        && (o < index ==>
          Score(there + [disc.info]) - Score(there) - |there| < Score(here + [disc.info]) - Score(here) - |here|)
  {
    ghost var board, r, d := BoardOf(ss), View(run), disc.info;
    var best := 0;
    index := -1;
    for i := 0 to |slots|
      invariant -1 <= index < i
      invariant index == -1 ==> best == 0 && forall j :: 0 <= j < i ==> !Open(board, r, d, j)
      invariant index != -1 ==> Open(board, r, d, index) && best == Value(board, r, d, index)
      invariant index != -1 ==> forall j :: 0 <= j < i && Open(board, r, d, j) ==>
        Value(board, r, d, j) <= best && (j < index ==> Value(board, r, d, j) < best)
    {
      ViewContents(run, i);
      if slots[i].slotID !in disc.info.possible {
        continue;
      }
      if |slots[i].discussions| >= |ss.locations| {
        continue;
      }
      var score := ScoreSlotDelta(Infos(slots[i].discussions), disc.info);
      score := score + |ss.locations| - |slots[i].discussions|;
      if score > best {
        best, index := score, i;
      }
    }
    ViewSlots(ss, slots, run);
    assert forall o :: 0 <= o < |slots| ==>
      (Open(board, r, d, o) <==> slots[o].slotID in d.possible && |slots[o].discussions| < |ss.locations|);
  }

  lemma ViewSlots(ss: SearchStore, slots: seq<ScheduleSlot>, run: Run<SearchDiscussion>)
    requires Holds(slots, ss.slots, run)
    ensures forall o :: 0 <= o < |slots| ==> Contents(View(run), o) == Infos(slots[o].discussions)
  {
    forall o | 0 <= o < |slots| ensures Contents(View(run), o) == Infos(slots[o].discussions) {
      ViewContents(run, o);
    }
  }

  /** Choosing greedily for a discussion of no higher interest extends a greedy, descending run. */
  lemma ExtendRun(board: Board, run: Run<SearchDiscussion>, disc: SearchDiscussion, index: int)
    requires IsGreedy(board, View(run)) && Descending(View(run))
    requires IsChoice(board, View(run), disc.info, index)
    requires forall x :: x in Order(run) ==> x.info.maxInterest >= disc.info.maxInterest
    ensures IsGreedy(board, View(Step(run, disc, index))) && Descending(View(Step(run, disc, index)))
  {
    ViewOrder(run);
  }

  /** Appends disc to the list of the chosen slot. */
  function Put(slots: seq<ScheduleSlot>, disc: SearchDiscussion, index: int): seq<ScheduleSlot>
    requires 0 <= index < |slots|
  {
    slots[index := slots[index].(discussions := slots[index].discussions + [disc])]
  }

  /** Finds the slot for the next discussion and puts it there, if there is one. */
  method PutIntoBest(ss: SearchStore, slots: seq<ScheduleSlot>, disc: SearchDiscussion,
                     ghost run: Run<SearchDiscussion>)
    returns (index: int, slots': seq<ScheduleSlot>)
    requires Holds(slots, ss.slots, run) && IsGreedy(BoardOf(ss), View(run)) && Descending(View(run))
    requires forall x :: x in Order(run) ==> x.info.maxInterest >= disc.info.maxInterest
    ensures -1 <= index < |slots| && Holds(slots', ss.slots, Step(run, disc, index))
    ensures IsGreedy(BoardOf(ss), View(Step(run, disc, index))) && Descending(View(Step(run, disc, index)))
  {
    hide IsGreedy, Descending, IsChoice, Score, Infos;
    index := FindBestSlot(ss, slots, disc, run);
    ExtendRun(BoardOf(ss), run, disc, index);
    slots' := if index < 0 then slots else Put(slots, disc, index);
  }

  method MakeScheduleHeuristic(ss: SearchStore) returns (sched: Schedule, ghost run: Run<SearchDiscussion>)
    ensures fresh(sched)
    ensures Holds(sched.slots, ss.slots, run) && sched.unplaced == Contents(run, -1)
    ensures multiset(Order(run)) == multiset(ss.discussions)
    ensures IsGreedy(BoardOf(ss), View(run)) && Descending(View(run))
    ensures BagOf(sched.slots) + multiset(sched.unplaced) == multiset(ss.discussions)
  {
    sched := ScheduleMakeEmpty(ss);
    var order := SortByInterest(sched.unplaced);
    var unplaced := [];
    run := Start;
    assert IsGreedy(BoardOf(ss), View(run)) && Descending(View(run));
    hide IsGreedy, Descending, BagOf;
    for k := 0 to |order|
      invariant fresh(sched) && Holds(sched.slots, ss.slots, run) && unplaced == Contents(run, -1)
      invariant Order(run) == order[..k]
      invariant IsGreedy(BoardOf(ss), View(run)) && Descending(View(run))
    {
      var disc := order[k];
      var index, slots := PutIntoBest(ss, sched.slots, disc, run);
      sched.slots := slots;
      if index < 0 {
        unplaced := unplaced + [disc];
      }
      run := Step(run, disc, index);
    }
    assert order[..|order|] == order;
    sched.unplaced := unplaced;
    HeuristicConserves(ss, sched.slots, run);
  }

  // ----- placement

  /** Every discussion object occurs at one position only. */
  ghost predicate Unshared(slots: seq<ScheduleSlot>) {
    forall i, j, k, l ::
      && 0 <= i < |slots| && 0 <= j < |slots[i].discussions|
      && 0 <= k < |slots| && 0 <= l < |slots[k].discussions|
      && slots[i].discussions[j] == slots[k].discussions[l]
      ==> i == k && j == l
  }

  ghost function Objects(slots: seq<ScheduleSlot>): set<SearchDiscussion> {
    set i, j | 0 <= i < |slots| && 0 <= j < |slots[i].discussions| :: slots[i].discussions[j]
  }

  /** Position (i, j) has been given slot i and location j. */
  ghost predicate PlacedAt(slots: seq<ScheduleSlot>, locations: seq<LocationID>, i: nat, j: nat)
    requires i < |slots| && j < |slots[i].discussions| && j < |locations|
    reads slots[i].discussions[j]
  {
    slots[i].discussions[j].slotID == slots[i].slotID && slots[i].discussions[j].locationID == locations[j]
  }

  /** Fails exactly when some slot holds more discussions than there are locations. */
  method PlaceDiscussions(slots: seq<ScheduleSlot>, locations: seq<LocationID>) returns (ok: bool)
    modifies Objects(slots)
    ensures ok <==> forall i :: 0 <= i < |slots| ==> |slots[i].discussions| <= |locations|
    ensures ok && Unshared(slots) ==>
      forall i, j :: 0 <= i < |slots| && 0 <= j < |slots[i].discussions| ==> PlacedAt(slots, locations, i, j)
  {
    for i := 0 to |slots|
      invariant forall k :: 0 <= k < i ==> |slots[k].discussions| <= |locations|
      invariant Unshared(slots) ==>
        forall k, j :: 0 <= k < i && 0 <= j < |slots[k].discussions| ==> PlacedAt(slots, locations, k, j)
    {
      if |slots[i].discussions| > |locations| {
        return false;
      }
      for j := 0 to |slots[i].discussions|
        invariant Unshared(slots) ==>
          forall k, l :: 0 <= k < i && 0 <= l < |slots[k].discussions| ==> PlacedAt(slots, locations, k, l)
        invariant Unshared(slots) ==> forall l :: 0 <= l < j ==> PlacedAt(slots, locations, i, l)
      {
        var d := slots[i].discussions[j];
        assert d in Objects(slots);
        d.slotID := slots[i].slotID;
        d.locationID := locations[j];
      }
    }
    return true;
  }

  // ----- the heuristic never shares an object and never overfills a slot

  lemma {:induction false} NoDupBag<T>(s: seq<T>)
    ensures NoDup(s) <==> forall x :: multiset(s)[x] <= 1
  {
    if s != [] {
      var front, last := s[..|s| - 1], s[|s| - 1];
      assert s == front + [last];
      NoDupBag(front);
      if NoDup(s) {
        assert NoDup(front) && last !in front;
        assert last !in multiset(front);
      } else if NoDup(front) {
        assert last in multiset(front);
        assert multiset(s)[last] >= 2;
      } else {
        var x :| multiset(front)[x] > 1;
        assert multiset(s)[x] > 1;
      }
    }
  }

  lemma SameBagMember<T>(s: seq<T>, r: seq<T>, x: T)
    requires multiset(s) == multiset(r) && x in s
    ensures x in r
  {
    assert x in multiset(s);
  }

  lemma {:induction false} ContentsUnshared<T>(r: Run<T>, i: int, j: int, k: int, l: int)
    requires NoDup(Order(r))
    requires 0 <= j < |Contents(r, i)| && 0 <= l < |Contents(r, k)|
    requires Contents(r, i)[j] == Contents(r, k)[l]
    ensures i == k && j == l
  {
    var b, d := r.before, r.disc;
    assert Order(r)[..|Order(b)|] == Order(b);
    forall m | 0 <= m < |Order(b)| ensures Order(b)[m] != d {
      assert Order(r)[m] != Order(r)[|Order(b)|];
    }
    ContentsInOrder(b, i);
    ContentsInOrder(b, k);
    assert j < |Contents(b, i)| ==> Contents(b, i)[j] in Order(b);
    assert l < |Contents(b, k)| ==> Contents(b, k)[l] in Order(b);
    if j < |Contents(b, i)| && l < |Contents(b, k)| {
      ContentsUnshared(b, i, j, k, l);
    }
  }

  /** So placement after the heuristic cannot fail, and it gives every object its own (slot, location). */
  lemma HeuristicIsPlaceable(ss: SearchStore, slots: seq<ScheduleSlot>, run: Run<SearchDiscussion>)
    requires NoDup(ss.discussions) && multiset(Order(run)) == multiset(ss.discussions)
    requires Holds(slots, ss.slots, run) && IsGreedy(BoardOf(ss), View(run))
    ensures Unshared(slots)
    ensures forall i :: 0 <= i < |slots| ==> |slots[i].discussions| <= |ss.locations|
  {
    NoDupBag(ss.discussions);
    NoDupBag(Order(run));
    GreedyIsFeasible(BoardOf(ss), View(run));
    forall i | 0 <= i < |slots| ensures |slots[i].discussions| <= |ss.locations| {
      ViewContents(run, i);
    }
    forall i, j, k, l |
      0 <= i < |slots| && 0 <= j < |slots[i].discussions| && 0 <= k < |slots| && 0 <= l < |slots[k].discussions|
      && slots[i].discussions[j] == slots[k].discussions[l]
      ensures i == k && j == l
    {
      ContentsUnshared(run, i, j, k, l);
    }
  }

  /** Everything in the slot lists. */
  ghost function BagOf(slots: seq<ScheduleSlot>): multiset<SearchDiscussion> {
    if slots == [] then multiset{} else BagOf(slots[..|slots| - 1]) + multiset(slots[|slots| - 1].discussions)
  }

  lemma {:induction false} BagIsPlaced(slots: seq<ScheduleSlot>, run: Run<SearchDiscussion>)
    requires forall i :: 0 <= i < |slots| ==> slots[i].discussions == Contents(run, i)
    ensures BagOf(slots) == Placed(|slots|, run)
  {
    if slots != [] {
      BagIsPlaced(slots[..|slots| - 1], run);
    }
  }

  /** The final slot lists and the unplaced list are, together, exactly the snapshot's discussions. */
  lemma HeuristicConserves(ss: SearchStore, slots: seq<ScheduleSlot>, run: Run<SearchDiscussion>)
    requires multiset(Order(run)) == multiset(ss.discussions)
    requires Holds(slots, ss.slots, run) && IsGreedy(BoardOf(ss), View(run))
    ensures BagOf(slots) + multiset(Contents(run, -1)) == multiset(ss.discussions)
  {
    GreedyIsFeasible(BoardOf(ss), View(run));
    ViewInRange(|ss.slots|, run);
    Conservation(|ss.slots|, run);
    BagIsPlaced(slots, run);
  }
}
