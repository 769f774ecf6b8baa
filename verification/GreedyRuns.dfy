/**
 Runs of the greedy heuristic as values, and what every such run guarantees.

 A run records, in processing order, each discussion and the index of the slot that it got, or -1
 when it was left unplaced.
 */
module GreedyRuns {
  import opened Ids
  import opened Sums
  import opened Scoring

  datatype Run<T> = Start | Step(before: Run<T>, disc: T, slot: int)

  /** The schedulable slots in order, and how many locations each of them offers. */
  datatype Board = Board(slotIDs: seq<SlotID>, capacity: nat)

  /** The discussions that the run put at index i, in the order they were put there. */
  function Contents<T>(r: Run<T>, i: int): seq<T> {
    match r
    case Start => []
    case Step(b, d, s) => if s == i then Contents(b, i) + [d] else Contents(b, i)
  }

  /** All the discussions that the run handled, in order. */
  function Order<T>(r: Run<T>): seq<T> {
    match r
    case Start => []
    case Step(b, d, _) => Order(b) + [d]
  }

  predicate Permits(board: Board, d: Disc, i: int) {
    0 <= i < |board.slotIDs| && board.slotIDs[i] in d.possible
  }

  predicate Open(board: Board, r: Run<Disc>, d: Disc, i: int) {
    Permits(board, d, i) && |Contents(r, i)| < board.capacity
  }

  /** The marginal score of putting d at i, plus the bonus for an emptier slot. */
  ghost function Value(board: Board, r: Run<Disc>, d: Disc, i: int): int {
    Delta(Contents(r, i), d) + board.capacity - |Contents(r, i)|
  }

  /** s is the first of the open slots of greatest value, or -1 when no slot is open to d. */
  ghost predicate IsChoice(board: Board, r: Run<Disc>, d: Disc, s: int) {
    if s == -1 then
      forall i :: !Open(board, r, d, i)
    else
      && Open(board, r, d, s)
      && forall i :: Open(board, r, d, i) ==>
        && Value(board, r, d, i) <= Value(board, r, d, s)
        && (i < s ==> Value(board, r, d, i) < Value(board, r, d, s))
  }

  ghost predicate IsGreedy(board: Board, r: Run<Disc>) {
    r.Step? ==> IsGreedy(board, r.before) && IsChoice(board, r.before, r.disc, r.slot)
  }

  ghost predicate Descending(r: Run<Disc>) {
    r.Step? ==> Descending(r.before) && forall d :: d in Order(r.before) ==> d.maxInterest >= r.disc.maxInterest
  }

  ghost function SlotScore(r: Run<Disc>): int -> int {
    i => Score(Contents(r, i))
  }

  /** The score of the whole schedule. */
  ghost function Total(board: Board, r: Run<Disc>): int {
    SumTo(|board.slotIDs|, SlotScore(r))
  }

  // ----- conservation, capacity, permission

  ghost predicate InRange<T>(n: nat, r: Run<T>) {
    r.Step? ==> InRange(n, r.before) && -1 <= r.slot < n
  }

  /** The bag of everything placed at indices below n. */
  ghost function Placed<T>(n: nat, r: Run<T>): multiset<T> {
    if n == 0 then multiset{} else Placed(n - 1, r) + multiset(Contents(r, n - 1))
  }

  lemma {:induction false} PlacedStep<T>(n: nat, b: Run<T>, d: T, s: int)
    requires -1 <= s
    ensures Placed(n, Step(b, d, s)) == Placed(n, b) + if 0 <= s < n then multiset{d} else multiset{}
  {
    if n > 0 {
      PlacedStep(n - 1, b, d, s);
    }
  }

  /** Nothing is lost and nothing is duplicated. */
  lemma {:induction false} Conservation<T>(n: nat, r: Run<T>)
    requires InRange(n, r)
    ensures Placed(n, r) + multiset(Contents(r, -1)) == multiset(Order(r))
  {
    match r
    case Start =>
      PlacedNothing<T>(n);
    case Step(b, d, s) =>
      Conservation(n, b);
      PlacedStep(n, b, d, s);
  }

  lemma {:induction false} PlacedNothing<T>(n: nat)
    ensures Placed<T>(n, Start) == multiset{}
  {
    if n > 0 {
      PlacedNothing<T>(n - 1);
    }
  }

  /** Greedy runs use only slots of the board, respect permissions and never overfill a slot. */
  lemma {:induction false} GreedyIsFeasible(board: Board, r: Run<Disc>)
    requires IsGreedy(board, r)
    ensures InRange(|board.slotIDs|, r)
    ensures forall i :: 0 <= i ==> |Contents(r, i)| <= board.capacity
    ensures forall i, d :: 0 <= i && d in Contents(r, i) ==> Permits(board, d, i)
  {
    if r.Step? {
      GreedyIsFeasible(board, r.before);
    }
  }

  lemma {:induction false} ContentsInOrder<T>(r: Run<T>, i: int)
    ensures forall d :: d in Contents(r, i) ==> d in Order(r)
  {
    if r.Step? {
      ContentsInOrder(r.before, i);
    }
  }

  // ----- what each step prefers

  /** p is what the run was like after some of its steps. */
  ghost predicate PrefixOf<T>(p: Run<T>, r: Run<T>) {
    p == r || (r.Step? && PrefixOf(p, r.before))
  }

  lemma {:induction false} PrefixIsGreedy(board: Board, p: Run<Disc>, r: Run<Disc>)
    requires IsGreedy(board, r) && PrefixOf(p, r)
    ensures IsGreedy(board, p)
  {
    if p != r {
      PrefixIsGreedy(board, p, r.before);
    }
  }

  /**
   At every step of every greedy run: no slot with room that the discussion permits would have gained
   more, counting one point for each discussion fewer that it holds, and none before the chosen one as
   much. A discussion is left out only when there is no such slot.
   */
  lemma StepPrefersGainThenEmptier(board: Board, r: Run<Disc>, p: Run<Disc>, o: int)
    requires IsGreedy(board, r) && PrefixOf(p, r) && p.Step?
    requires 0 <= o < |board.slotIDs| && board.slotIDs[o] in p.disc.possible
    requires |Contents(p.before, o)| < board.capacity
    ensures 0 <= p.slot < |board.slotIDs| && board.slotIDs[p.slot] in p.disc.possible
    ensures |Contents(p.before, p.slot)| < board.capacity
    ensures
      var there, here := Contents(p.before, o), Contents(p.before, p.slot);
      && Score(there + [p.disc]) - Score(there) - |there| <= Score(here + [p.disc]) - Score(here) - |here|
      && (o < p.slot ==>
        Score(there + [p.disc]) - Score(there) - |there| < Score(here + [p.disc]) - Score(here) - |here|)
  {
    PrefixIsGreedy(board, p, r);
    assert Open(board, p.before, p.disc, o);
  }

  /** Nobody is interested in d. */
  ghost predicate Unwanted(d: Disc) {
    forall i :: 0 <= i < |d.interest| ==> d.interest[i].level <= 0
  }

  lemma {:induction false} UnwantedTop(rows: seq<Interest>, u: UserID)
    requires forall i :: 0 <= i < |rows| ==> rows[i].level <= 0
    ensures Top(rows, u) == 0
  {
    if rows != [] {
      UnwantedTop(rows[..|rows| - 1], u);
    }
  }

  lemma UnwantedAddsNothing(ds: seq<Disc>, d: Disc)
    requires Unwanted(d)
    ensures Score(ds + [d]) == Score(ds)
  {
    forall u ensures Level(ds + [d], u) == Level(ds, u) {
      LevelSnoc(ds, d, u);
      UnwantedTop(d.interest, u);
    }
    ScoreDiff(ds + [d], ds, [], []);
    ScoreDiff(ds, ds + [d], [], []);
  }

  /**
   Discussions that nobody is interested in and that all permit the same slots are dealt out evenly, in
   the order of the slots: of two such slots the earlier one has as many as the later one, or one more.
   */
  lemma {:induction false} UnwantedAreBalanced(board: Board, r: Run<Disc>, permitted: set<SlotID>, i: int, j: int)
    requires IsGreedy(board, r)
    requires forall d :: d in Order(r) ==> Unwanted(d) && d.possible == permitted
    requires 0 <= i < j < |board.slotIDs| && board.slotIDs[i] in permitted && board.slotIDs[j] in permitted
    ensures |Contents(r, j)| <= |Contents(r, i)| <= |Contents(r, j)| + 1
  {
    if r.Step? {
      var b, d := r.before, r.disc;
      assert d in Order(r) && forall x :: x in Order(b) ==> x in Order(r);
      UnwantedAreBalanced(board, b, permitted, i, j);
      GreedyIsFeasible(board, b);
      forall o | 0 <= o < |board.slotIDs| ensures Score(Contents(b, o) + [d]) == Score(Contents(b, o)) {
        UnwantedAddsNothing(Contents(b, o), d);
      }
      if |Contents(b, i)| < board.capacity {
        StepPrefersGainThenEmptier(board, r, r, i);
      }
      if |Contents(b, j)| < board.capacity {
        StepPrefersGainThenEmptier(board, r, r, j);
      }
    }
  }

  // ----- maximality

  /** A discussion is left out only when every slot it permits is, in the final schedule, exactly full. */
  lemma {:induction false} Maximality(board: Board, r: Run<Disc>, d: Disc, i: int)
    requires IsGreedy(board, r)
    requires d in Contents(r, -1) && Permits(board, d, i)
    ensures |Contents(r, i)| == board.capacity
  {
    GreedyIsFeasible(board, r);
    if d in Contents(r.before, -1) {
      Maximality(board, r.before, d, i);
    } else {
      assert d == r.disc && !Open(board, r.before, d, i);
    }
  }

  lemma {:induction false} TwoContentsFit<T>(r: Run<T>, i: int, j: int)
    requires i != j
    ensures |Contents(r, i)| + |Contents(r, j)| <= |Order(r)|
  {
    if r.Step? {
      TwoContentsFit(r.before, i, j);
    }
  }

  /** With no more discussions than locations, everything that has a permitted slot is placed. */
  lemma NothingLeftOut(board: Board, r: Run<Disc>, d: Disc, i: int)
    requires IsGreedy(board, r)
    requires |Order(r)| <= board.capacity
    requires d in Order(r) && Permits(board, d, i)
    ensures d !in Contents(r, -1)
  {
    if d in Contents(r, -1) {
      Maximality(board, r, d, i);
      TwoContentsFit(r, i, -1);
    }
  }

  // ----- score accounting

  ghost function SumOfDeltas(r: Run<Disc>): int {
    match r
    case Start => 0
    case Step(b, d, s) => SumOfDeltas(b) + if s == -1 then 0 else Delta(Contents(b, s), d)
  }

  ghost function SumOfMaxInterest(r: Run<Disc>): int {
    match r
    case Start => 0
    case Step(b, d, s) => SumOfMaxInterest(b) + if s == -1 then 0 else d.maxInterest
  }

  lemma TotalStep(board: Board, b: Run<Disc>, d: Disc, s: int)
    requires -1 <= s < |board.slotIDs|
    ensures Total(board, Step(b, d, s)) == Total(board, b) + if s == -1 then 0 else Delta(Contents(b, s), d)
  {
    var r := Step(b, d, s);
    var gain := if s == -1 then 0 else Delta(Contents(b, s), d);
    SumToBump(|board.slotIDs|, SlotScore(r), SlotScore(b), s, gain, -1, 0);
    SumToBump(|board.slotIDs|, SlotScore(b), SlotScore(r), s, -gain, -1, 0);
  }

  lemma {:induction false} TotalStart(n: nat)
    ensures SumTo(n, SlotScore(Start)) == 0
  {
    ScoreEmpty();
    if n > 0 {
      TotalStart(n - 1);
    }
  }

  /** The total telescopes into the deltas of the placements made. */
  lemma {:induction false} TotalTelescopes(board: Board, r: Run<Disc>)
    requires InRange(|board.slotIDs|, r)
    ensures Total(board, r) == SumOfDeltas(r)
  {
    match r
    case Start => TotalStart(|board.slotIDs|);
    case Step(b, d, s) =>
      TotalTelescopes(board, b);
      TotalStep(board, b, d, s);
  }

  lemma {:induction false} TotalAtMostMaxInterest(board: Board, r: Run<Disc>)
    requires InRange(|board.slotIDs|, r)
    requires forall d :: d in Order(r) ==> WellFormed(d)
    ensures 0 <= Total(board, r) <= SumOfMaxInterest(r)
  {
    match r
    case Start => TotalStart(|board.slotIDs|);
    case Step(b, d, s) =>
      assert d in Order(r);
      TotalAtMostMaxInterest(board, b);
      TotalStep(board, b, d, s);
      if s != -1 {
        DeltaAtMostMaxInterest(Contents(b, s), d);
      }
  }

  // ----- how far greedy can be from any other assignment

  /** alt gives the same discussions, one by one, slots of its own choosing. */
  ghost predicate SameOrder(r: Run<Disc>, alt: Run<Disc>) {
    match r
    case Start => alt.Start?
    case Step(b, d, _) => alt.Step? && alt.disc == d && SameOrder(b, alt.before)
  }

  /** Every discussion is unplaced or in a slot that it permits; capacities are not considered. */
  ghost predicate Assignment(board: Board, r: Run<Disc>) {
    r.Step? ==> Assignment(board, r.before) && (r.slot == -1 || Permits(board, r.disc, r.slot))
  }

  /** No step found a permitted slot full. */
  ghost predicate NeverSkipsFull(board: Board, r: Run<Disc>) {
    r.Step? ==>
      && NeverSkipsFull(board, r.before)
      && forall i :: Permits(board, r.disc, i) ==> |Contents(r.before, i)| < board.capacity
  }

  /** Scores of the slots when both schedules are overlaid. */
  ghost function Overlay(r: Run<Disc>, alt: Run<Disc>): int -> int {
    i => Score(Contents(r, i) + Contents(alt, i))
  }

  ghost function OverlayTotal(board: Board, r: Run<Disc>, alt: Run<Disc>): int {
    SumTo(|board.slotIDs|, Overlay(r, alt))
  }

  /** What d adds to the run's slot i, or nothing if i is -1. */
  ghost function Gain(r: Run<Disc>, d: Disc, i: int): int {
    if i == -1 then 0 else Delta(Contents(r, i), d)
  }

  /** One more discussion raises the overlay by at most its two marginal values to the run. */
  lemma OverlayStep(board: Board, r: Run<Disc>, alt: Run<Disc>)
    requires r.Step? && alt.Step? && r.disc == alt.disc
    requires -1 <= r.slot < |board.slotIDs| && -1 <= alt.slot < |board.slotIDs|
    ensures OverlayTotal(board, r, alt)
         <= OverlayTotal(board, r.before, alt.before) + Gain(r.before, r.disc, r.slot) + Gain(r.before, r.disc, alt.slot)
  {
    var d := r.disc;
    var a, b := Gain(r.before, d, r.slot), Gain(r.before, d, alt.slot);
    forall i | 0 <= i < |board.slotIDs|
      ensures Overlay(r, alt)(i)
           <= Overlay(r.before, alt.before)(i) + (if i == r.slot then a else 0) + (if i == alt.slot then b else 0)
    {
      var base, over := Contents(r.before, i), Contents(r.before, i) + Contents(alt.before, i);
      if i == r.slot || i == alt.slot {
        AppendBound(base, over, Contents(r, i) + Contents(alt, i), d);
        DiminishingReturns(base, base, d);
      }
    }
    SumToBump(|board.slotIDs|, Overlay(r, alt), Overlay(r.before, alt.before), r.slot, a, alt.slot, b);
  }

  lemma OverlayCovers(board: Board, r: Run<Disc>, alt: Run<Disc>)
    ensures Total(board, alt) <= OverlayTotal(board, r, alt)
  {
    forall i | 0 <= i < |board.slotIDs| ensures SlotScore(alt)(i) <= Overlay(r, alt)(i) {
      ScoreMonotone(Contents(alt, i), Contents(r, i) + Contents(alt, i));
    }
    SumToMono(|board.slotIDs|, SlotScore(alt), Overlay(r, alt));
  }

  lemma {:induction false} OverlayStart(n: nat)
    ensures SumTo(n, Overlay(Start, Start)) == 0
  {
    ScoreEmpty();
    if n > 0 {
      assert Contents<Disc>(Start, n - 1) + Contents<Disc>(Start, n - 1) == [];
      OverlayStart(n - 1);
    }
  }

  /** Greedy's choice is worth any other open slot, up to what the emptier-slot bonus can distort. */
  lemma ChoiceIsNearBest(board: Board, r: Run<Disc>, d: Disc, s: int, o: int)
    requires IsChoice(board, r, d, s) && Open(board, r, d, o)
    ensures s != -1 && Gain(r, d, o) <= Gain(r, d, s) + board.capacity - 1
  {
    assert o != -1 && s != -1;
    assert Value(board, r, d, o) <= Value(board, r, d, s);
  }

  /** The extra term of the bounds below: one bonus distortion per discussion. */
  function Slack(board: Board, r: Run<Disc>): int
    requires 1 <= board.capacity
  {
    |Order(r)| * (board.capacity - 1)
  }

  lemma SlackStep(board: Board, b: Run<Disc>, d: Disc, s: int)
    requires 1 <= board.capacity
    ensures Slack(board, Step(b, d, s)) == Slack(board, b) + board.capacity - 1
  {
    var n, c := |Order(b)|, board.capacity - 1;
    assert (n + 1) * c == n * c + c;
  }

  lemma {:induction false} OverlayBound(board: Board, r: Run<Disc>, alt: Run<Disc>)
    requires 1 <= board.capacity
    requires IsGreedy(board, r) && NeverSkipsFull(board, r)
    requires SameOrder(r, alt) && Assignment(board, alt)
    ensures OverlayTotal(board, r, alt) <= 2 * Total(board, r) + Slack(board, r)
  {
    match r
    case Start =>
      OverlayStart(|board.slotIDs|);
      TotalStart(|board.slotIDs|);
    case Step(b, d, s) =>
      OverlayBound(board, b, alt.before);
      GreedyIsFeasible(board, r);
      OverlayStep(board, r, alt);
      TotalStep(board, b, d, s);
      SlackStep(board, b, d, s);
      if alt.slot != -1 {
        assert Open(board, b, d, alt.slot);
        ChoiceIsNearBest(board, b, d, s, alt.slot);
      } else if s != -1 {
        DiminishingReturns(Contents(b, s), Contents(b, s), d);
      }
  }

  /**
   Factor two: if no permitted slot was ever skipped as full, then no assignment of the discussions to
   permitted slots, even one that ignores capacities, scores more than twice the greedy schedule plus
   the slack of the emptier-slot bonus.
   */
  lemma FactorTwo(board: Board, r: Run<Disc>, alt: Run<Disc>)
    requires 1 <= board.capacity
    requires IsGreedy(board, r) && NeverSkipsFull(board, r)
    requires SameOrder(r, alt) && Assignment(board, alt)
    ensures Total(board, alt) <= 2 * Total(board, r) + |Order(r)| * (board.capacity - 1)
  {
    OverlayBound(board, r, alt);
    OverlayCovers(board, r, alt);
  }

  /** How many of the discussions handled permit slot i. */
  ghost function Demand(board: Board, r: Run<Disc>, i: int): nat {
    match r
    case Start => 0
    case Step(b, d, _) => Demand(board, b, i) + if Permits(board, d, i) then 1 else 0
  }

  lemma {:induction false} ContentsWithinDemand(board: Board, r: Run<Disc>, i: nat)
    requires IsGreedy(board, r)
    ensures |Contents(r, i)| <= Demand(board, r, i)
  {
    if r.Step? {
      ContentsWithinDemand(board, r.before, i);
    }
  }

  /** If no slot is permitted by more discussions than it can hold, none is ever skipped as full. */
  lemma {:induction false} DemandMeansNoSkips(board: Board, r: Run<Disc>)
    requires IsGreedy(board, r)
    requires forall i :: 0 <= i < |board.slotIDs| ==> Demand(board, r, i) <= board.capacity
    ensures NeverSkipsFull(board, r)
  {
    if r.Step? {
      assert forall i :: 0 <= i < |board.slotIDs| ==> Demand(board, r.before, i) <= Demand(board, r, i);
      DemandMeansNoSkips(board, r.before);
      forall i | Permits(board, r.disc, i) ensures |Contents(r.before, i)| < board.capacity {
        ContentsWithinDemand(board, r.before, i);
      }
    }
  }

  /** Where no slot is skipped as full, everything that has a permitted slot is placed. */
  lemma {:induction false} NoSkipsPlaceAll(board: Board, r: Run<Disc>, d: Disc, i: int)
    requires IsGreedy(board, r) && NeverSkipsFull(board, r)
    requires Permits(board, d, i)
    ensures d !in Contents(r, -1)
  {
    if r.Step? {
      NoSkipsPlaceAll(board, r.before, d, i);
      assert r.disc == d ==> Open(board, r.before, d, i);
    }
  }

  /** With no more discussions than locations, no slot is ever full when a discussion looks at it. */
  lemma {:induction false} RoomMeansNoSkips(board: Board, r: Run<Disc>)
    requires |Order(r)| <= board.capacity
    ensures NeverSkipsFull(board, r)
  {
    if r.Step? {
      RoomMeansNoSkips(board, r.before);
      forall i | Permits(board, r.disc, i) ensures |Contents(r.before, i)| < board.capacity {
        TwoContentsFit(r.before, i, -1);
      }
    }
  }

  // ----- the bound without any hypothesis on full slots

  /** n copies of x, as a sum, so that the proofs below stay linear. */
  ghost function Copies(n: nat, x: int): int {
    if n == 0 then 0 else Copies(n - 1, x) + x
  }

  lemma {:induction false} CopiesMono(n: nat, x: int, m: nat, y: int)
    requires n <= m && 0 <= x <= y
    ensures 0 <= Copies(n, x) <= Copies(m, y)
    decreases m
  {
    if n < m {
      CopiesMono(n, x, m - 1, y);
    } else if n > 0 {
      CopiesMono(n - 1, x, m - 1, y);
    }
  }

  lemma {:induction false} CopiesAdd(n: nat, x: int, y: int)
    ensures Copies(n, x + y) == Copies(n, x) + Copies(n, y)
  {
    if n > 0 {
      CopiesAdd(n - 1, x, y);
    }
  }

  lemma {:induction false} CopiesIsProduct(n: nat, x: int)
    ensures Copies(n, x) == n * x
  {
    if n > 0 {
      CopiesIsProduct(n - 1, x);
      assert n * x == (n - 1) * x + x;
    }
  }

  /** One copy of the run's slot score for every discussion that alt puts there. */
  ghost function Rent(r: Run<Disc>, alt: Run<Disc>): int -> int {
    i => Copies(|Contents(alt, i)|, Score(Contents(r, i)))
  }

  ghost function RentTotal(board: Board, r: Run<Disc>, alt: Run<Disc>): int {
    SumTo(|board.slotIDs|, Rent(r, alt))
  }

  /** A full slot already scores at least as much as any later discussion could. */
  lemma FullSlotPays(board: Board, r: Run<Disc>, d: Disc, i: int)
    requires |Contents(r, i)| > 0 && WellFormed(d)
    requires forall x :: x in Order(r) ==> WellFormed(x) && x.maxInterest >= d.maxInterest
    ensures Delta(Contents(r, i), d) <= Score(Contents(r, i))
  {
    var first := Contents(r, i)[0];
    ContentsInOrder(r, i);
    ScoreAlone(first);
    ScoreMonotone([first], Contents(r, i));
    DeltaAtMostMaxInterest(Contents(r, i), d);
  }

  /** Rent never falls, and rises by the slot's score where alt adds a discussion. */
  lemma RentStep(board: Board, r: Run<Disc>, alt: Run<Disc>)
    requires r.Step? && alt.Step?
    requires -1 <= r.slot < |board.slotIDs| && -1 <= alt.slot < |board.slotIDs|
    ensures RentTotal(board, r.before, alt.before) + (if alt.slot == -1 then 0 else Score(Contents(r.before, alt.slot)))
         <= RentTotal(board, r, alt)
  {
    var o := alt.slot;
    var due := if o == -1 then 0 else Score(Contents(r.before, o));
    forall i | 0 <= i < |board.slotIDs|
      ensures Rent(r.before, alt.before)(i) <= Rent(r, alt)(i) + (if i == o then -due else 0)
    {
      var n := |Contents(alt.before, i)|;
      ScoreMonotone(Contents(r.before, i), Contents(r, i));
      CopiesMono(n, Score(Contents(r.before, i)), n, Score(Contents(r, i)));
    }
    SumToBump(|board.slotIDs|, Rent(r.before, alt.before), Rent(r, alt), o, -due, -1, 0);
  }

  lemma {:induction false} RentStart(n: nat)
    ensures SumTo(n, Rent(Start, Start)) == 0
  {
    if n > 0 {
      RentStart(n - 1);
    }
  }

  lemma {:induction false} OverlayBoundWithRent(board: Board, r: Run<Disc>, alt: Run<Disc>)
    requires 1 <= board.capacity
    requires IsGreedy(board, r) && Descending(r)
    requires forall d :: d in Order(r) ==> WellFormed(d)
    requires SameOrder(r, alt) && Assignment(board, alt)
    ensures OverlayTotal(board, r, alt) <= 2 * Total(board, r) + Slack(board, r) + RentTotal(board, r, alt)
  {
    match r
    case Start =>
      OverlayStart(|board.slotIDs|);
      TotalStart(|board.slotIDs|);
      RentStart(|board.slotIDs|);
    case Step(b, d, s) =>
      var o := alt.slot;
      assert d in Order(r) && forall x :: x in Order(b) ==> x in Order(r);
      OverlayBoundWithRent(board, b, alt.before);
      GreedyIsFeasible(board, r);
      OverlayStep(board, r, alt);
      TotalStep(board, b, d, s);
      SlackStep(board, b, d, s);
      RentStep(board, r, alt);
      if s != -1 {
        DiminishingReturns(Contents(b, s), Contents(b, s), d);
      }
      if o != -1 {
        ScoreNonNegative(Contents(b, o));
        if Open(board, b, d, o) {
          ChoiceIsNearBest(board, b, d, s, o);
        } else {
          FullSlotPays(board, b, d, o);
        }
      }
  }

  lemma {:induction false} SumToCapped(n: nat, capacity: nat, rent: int -> int, score: int -> int)
    requires forall i :: 0 <= i < n ==> rent(i) <= Copies(capacity, score(i))
    ensures SumTo(n, rent) <= Copies(capacity, SumTo(n, score))
  {
    if n == 0 {
      CopiesMono(0, 0, capacity, 0);
    } else {
      SumToCapped(n - 1, capacity, rent, score);
      CopiesAdd(capacity, SumTo(n - 1, score), score(n - 1));
    }
  }

  lemma RentCapped(board: Board, r: Run<Disc>, alt: Run<Disc>)
    requires forall i :: 0 <= i < |board.slotIDs| ==> |Contents(alt, i)| <= board.capacity
    ensures RentTotal(board, r, alt) <= Copies(board.capacity, Total(board, r))
  {
    forall i | 0 <= i < |board.slotIDs| ensures Rent(r, alt)(i) <= Copies(board.capacity, SlotScore(r)(i)) {
      ScoreNonNegative(Contents(r, i));
      CopiesMono(|Contents(alt, i)|, SlotScore(r)(i), board.capacity, SlotScore(r)(i));
    }
    SumToCapped(|board.slotIDs|, board.capacity, Rent(r, alt), SlotScore(r));
  }

  lemma CopiesPlusTwo(n: nat, x: int)
    ensures Copies(n, x) + 2 * x == (n + 2) * x
  {
    CopiesIsProduct(n + 2, x);
  }

  /**
   Every run that handles discussions from high to low interest: whatever slots were skipped as full,
   no assignment within the capacities scores more than (capacity + 2) times the greedy schedule plus
   the slack. This is where sorting matters: whatever fills a slot outweighs whatever it keeps out.
   */
  lemma CapacityBound(board: Board, r: Run<Disc>, alt: Run<Disc>)
    requires 1 <= board.capacity
    requires IsGreedy(board, r) && Descending(r)
    requires forall d :: d in Order(r) ==> WellFormed(d)
    requires SameOrder(r, alt) && Assignment(board, alt)
    requires forall i :: 0 <= i < |board.slotIDs| ==> |Contents(alt, i)| <= board.capacity
    ensures Total(board, alt) <= (board.capacity + 2) * Total(board, r) + |Order(r)| * (board.capacity - 1)
  {
    hide Total, OverlayTotal, RentTotal, IsGreedy, Descending, SameOrder, Assignment, WellFormed;
    OverlayBoundWithRent(board, r, alt);
    OverlayCovers(board, r, alt);
    RentCapped(board, r, alt);
    CopiesPlusTwo(board.capacity, Total(board, r));
  }
}
