/** Why the factor-two bound needs its hypothesis: full slots can cost more than that. */
module GreedyLimits {
  import opened Ids
  import opened Sums
  import opened Scoring
  import opened GreedyRuns

  const HALL := SlotID("hall")

  /** One slot with three locations. */
  const BOARD := Board([HALL], 3)

  /** A discussion in which only u is interested, with level 100. */
  function Solo(name: string, u: UserID): Disc {
    Disc(DiscussionID(name), u, {HALL}, [Interest(u, 100)], 100)
  }

  const A := UserID("a")
  const B := UserID("b")
  const C := UserID("c")
  const D := UserID("d")

  function ThreeSteps(r: Run<Disc>, x: Disc, y: Disc, z: Disc, slot: int): Run<Disc> {
    Step(Step(Step(r, x, slot), y, slot), z, slot)
  }

  function Six(first: int, second: int): Run<Disc> {
    ThreeSteps(ThreeSteps(Start, Solo("1", A), Solo("2", A), Solo("3", A), first),
      Solo("4", B), Solo("5", C), Solo("6", D), second)
  }

  /** Greedy fills the slot with three discussions for the same user, and has no room for the rest. */
  function Crowded(): Run<Disc> {
    Six(0, -1)
  }

  /** Three discussions for three users would have fitted as well. */
  function Spread(): Run<Disc> {
    Six(-1, 0)
  }

  lemma ThreeMore(r: Run<Disc>, x: Disc, y: Disc, z: Disc, slot: int)
    requires -1 <= slot <= 0 && InRange(1, r) && Assignment(BOARD, r)
    requires HALL in x.possible && HALL in y.possible && HALL in z.possible
    ensures InRange(1, ThreeSteps(r, x, y, z, slot)) && Assignment(BOARD, ThreeSteps(r, x, y, z, slot))
    ensures Order(ThreeSteps(r, x, y, z, slot)) == Order(r) + [x, y, z]
    ensures Contents(ThreeSteps(r, x, y, z, slot), 0) == if slot == 0 then Contents(r, 0) + [x, y, z] else Contents(r, 0)
  {
    var r1 := Step(r, x, slot);
    var r2 := Step(r1, y, slot);
    assert InRange(1, r1) && Assignment(BOARD, r1) && Order(r1) == Order(r) + [x];
    assert InRange(1, r2) && Assignment(BOARD, r2) && Order(r2) == Order(r) + [x, y];
    assert Contents(r1, 0) == if slot == 0 then Contents(r, 0) + [x] else Contents(r, 0);
    assert Contents(r2, 0) == if slot == 0 then Contents(r, 0) + [x, y] else Contents(r, 0);
  }

  function Half(first: int): Run<Disc> {
    ThreeSteps(Start, Solo("1", A), Solo("2", A), Solo("3", A), first)
  }

  lemma SixIsAssignment(first: int, second: int)
    requires -1 <= first <= 0 && -1 <= second <= 0
    ensures InRange(1, Six(first, second)) && Assignment(BOARD, Six(first, second)) && |Order(Six(first, second))| == 6
    ensures |Contents(Half(first), 0)| == if first == 0 then 3 else 0
    ensures |Contents(Six(first, second), 0)| <= if first == second == 0 then 6 else 3
    ensures Order(Six(first, second)) == [Solo("1", A), Solo("2", A), Solo("3", A), Solo("4", B), Solo("5", C), Solo("6", D)]
  {
    ThreeMore(Start, Solo("1", A), Solo("2", A), Solo("3", A), first);
    ThreeMore(Half(first), Solo("4", B), Solo("5", C), Solo("6", D), second);
  }

  lemma SoloLevel(ds: seq<Disc>, name: string, u: UserID, v: UserID)
    ensures Level(ds + [Solo(name, u)], v) == Max(Level(ds, v), if u == v then 100 else 0)
  {
    LevelSnoc(ds, Solo(name, u), v);
    assert Top([Interest(u, 100)], v) == if u == v then 100 else 0;
  }

  /** A discussion for a user who has nothing else in the slot adds 100, and nothing if the user has. */
  lemma SoloDelta(ds: seq<Disc>, name: string, u: UserID)
    requires Level(ds, u) == 0 || Level(ds, u) == 100
    ensures Delta(ds, Solo(name, u)) == 100 - Level(ds, u)
  {
    var x := Solo(name, u);
    var us := Users(ds + [x]) + Users(ds) + {u};
    ScoreOver(ds, us);
    ScoreOver(ds + [x], us);
    SumRemove(us, LevelOf(ds), u);
    SumRemove(us, LevelOf(ds + [x]), u);
    forall v ensures Level(ds + [x], v) == Max(Level(ds, v), if u == v then 100 else 0) {
      SoloLevel(ds, name, u, v);
    }
    SumCong(us - {u}, LevelOf(ds), LevelOf(ds + [x]));
  }

  /** With a single slot, the choice is that slot while there is room. */
  lemma OnlyChoice(r: Run<Disc>, d: Disc)
    requires HALL in d.possible
    ensures IsChoice(BOARD, r, d, if |Contents(r, 0)| < 3 then 0 else -1)
  {
    hide Delta, Contents;
    assert forall i :: Open(BOARD, r, d, i) <==> i == 0 && |Contents(r, 0)| < 3;
  }

  lemma CrowdedIsGreedy()
    ensures IsGreedy(BOARD, Crowded())
  {
    SixIsAssignment(0, -1);
    hide IsChoice;
    var r3 := Half(0);
    var r4 := Step(r3, Solo("4", B), -1);
    var r5 := Step(r4, Solo("5", C), -1);
    OnlyChoice(Start, Solo("1", A));
    OnlyChoice(r3.before.before, Solo("2", A));
    OnlyChoice(r3.before, Solo("3", A));
    assert IsGreedy(BOARD, r3.before.before);
    assert IsGreedy(BOARD, r3);
    OnlyChoice(r3, Solo("4", B));
    OnlyChoice(r4, Solo("5", C));
    OnlyChoice(r5, Solo("6", D));
    assert |Contents(r5, 0)| == |Contents(r4, 0)| == 3;
    assert IsGreedy(BOARD, r5);
  }

  lemma CrowdedIsSorted()
    ensures Descending(Crowded()) && forall d :: d in Order(Crowded()) ==> WellFormed(d)
  {
    SixIsAssignment(0, -1);
    var r4 := Step(Half(0), Solo("4", B), -1);
    assert Descending(Half(0).before);
    assert forall d :: d in Order(Half(0)) ==> d.maxInterest == 100;
    assert forall d :: d in Order(r4) ==> d.maxInterest == 100;
    assert Descending(r4);
    forall d | d in Order(Crowded()) ensures WellFormed(d) {
      assert SumRows(d.interest) == 100;
    }
  }

  lemma CrowdedTotal()
    ensures Total(BOARD, Crowded()) == 100
  {
    hide Delta, Total;
    var a1, a2 := [Solo("1", A)], [Solo("1", A), Solo("2", A)];
    SoloDelta([], "1", A);
    SoloLevel([], "1", A, A);
    assert [] + [Solo("1", A)] == a1;
    SoloDelta(a1, "2", A);
    SoloLevel(a1, "2", A, A);
    assert a1 + [Solo("2", A)] == a2;
    SoloDelta(a2, "3", A);
    SixIsAssignment(0, -1);
    TotalTelescopes(BOARD, Crowded());
    assert SumOfDeltas(Crowded().before.before.before) == 100;
    assert SumOfDeltas(Crowded().before) == 100;
  }

  lemma SpreadTotal()
    ensures Total(BOARD, Spread()) == 300
  {
    hide Delta, Total;
    var b1, b2 := [Solo("4", B)], [Solo("4", B), Solo("5", C)];
    SoloDelta([], "4", B);
    SoloLevel([], "4", B, C);
    SoloLevel([], "4", B, D);
    assert [] + [Solo("4", B)] == b1;
    SoloDelta(b1, "5", C);
    SoloLevel(b1, "5", C, D);
    assert b1 + [Solo("5", C)] == b2;
    SoloDelta(b2, "6", D);
    SixIsAssignment(-1, 0);
    TotalTelescopes(BOARD, Spread());
    var half := Spread().before.before.before;
    assert SumOfDeltas(half) == 0 && Contents(half, 0) == [];
    assert SumOfDeltas(Spread().before) == 200;
  }

  /**
   A greedy run on well-formed discussions, from high to low interest, and another assignment within
   the capacities that scores three times as much: more than twice plus the slack.
   */
  lemma FullSlotsDefeatFactorTwo()
    ensures IsGreedy(BOARD, Crowded()) && Descending(Crowded()) && !NeverSkipsFull(BOARD, Crowded())
    ensures SameOrder(Crowded(), Spread()) && Assignment(BOARD, Spread())
    ensures |Contents(Spread(), 0)| <= BOARD.capacity
    ensures Total(BOARD, Spread()) > 2 * Total(BOARD, Crowded()) + |Order(Crowded())| * (BOARD.capacity - 1)
  {
    hide IsGreedy, Descending, Total, Assignment;
    CrowdedIsGreedy();
    CrowdedIsSorted();
    CrowdedTotal();
    SpreadTotal();
    SixIsAssignment(0, -1);
    SixIsAssignment(-1, 0);
    var r, alt := Crowded(), Spread();
    assert SameOrder(Half(0), Half(-1));
    assert SameOrder(r.before, alt.before);
    assert Permits(BOARD, r.disc, 0) && |Contents(r.before.before, 0)| == |Contents(r.before, 0)| == 3;
  }
}
