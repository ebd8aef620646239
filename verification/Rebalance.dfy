/** The balanced plan of a datacenter: evenly spaced positions, existing nodes
    in ring order with the fewest moves, new nodes on the positions left. */
module Rebalance {
  import opened Lists
  import opened Options
  import opened Arith
  import opened Ring
  import opened RoundRobin
  import opened Shares
  import opened Balanced
  import opened Assignment
  import opened Spacing
  import opened Evenness
  import opened Placement
  import opened PlaceSearch
  import opened PlaceChoice
  import opened MoveOrder

  const MAX_NODES := 256

  /** A node within tol of its target stays where it is. */
  predicate Stays(p: int, target: int, size: nat, tol: nat)
    requires size > 0
  {
    Distance(p, target, size) <= tol
  }

  ghost predicate Matched(pts: seq<Node>, targets: seq<int>, picks: seq<int>) {
    |picks| == |pts| && forall i :: 0 <= i < |picks| ==> 0 <= picks[i] < |targets|
  }

  /** Where node i ends. */
  function Goal(pts: seq<Node>, targets: seq<int>, picks: seq<int>, size: nat, tol: nat, i: nat): int
    requires size > 0 && Matched(pts, targets, picks) && i < |pts|
  {
    if Stays(pts[i].pos, targets[picks[i]], size, tol) then pts[i].pos else targets[picks[i]]
  }

  /** The existing nodes once they have moved. */
  function Settled(pts: seq<Node>, targets: seq<int>, picks: seq<int>, size: nat, tol: nat): (r: seq<Node>)
    requires size > 0 && Matched(pts, targets, picks)
    ensures |r| == |pts|
    ensures forall i :: 0 <= i < |pts| ==>
        r[i] == Node(Goal(pts, targets, picks, size, tol, i), pts[i].name, pts[i].rack)
  {
    seq(|pts|, i requires 0 <= i < |pts| => Node(Goal(pts, targets, picks, size, tol, i), pts[i].name, pts[i].rack))
  }

  /** The moves of the first k nodes: one for each that does not stay. */
  function MovesOf(pts: seq<Node>, targets: seq<int>, picks: seq<int>, size: nat, tol: nat, k: nat): seq<Move>
    requires size > 0 && Matched(pts, targets, picks) && k <= |pts|
  {
    if k == 0 then []
    else
      MovesOf(pts, targets, picks, size, tol, k - 1)
      + if Stays(pts[k - 1].pos, targets[picks[k - 1]], size, tol) then []
        else [Move(pts[k - 1].name, pts[k - 1].pos, targets[picks[k - 1]])]
  }

  /** The targets among the first k no existing node is given. */
  function FreeTargets(targets: seq<int>, picks: seq<int>, k: nat): seq<int>
    requires k <= |targets|
  {
    if k == 0 then []
    else FreeTargets(targets, picks, k - 1) + if (k - 1) in picks then [] else [targets[k - 1]]
  }

  // ----- targets are well apart -----

  lemma {:induction false} TargetsApart(m: nat, size: nat, off: int, i: nat, j: nat)
    requires i < m && j < m && i != j && 0 <= off < size / m
    ensures Distance(Target(i, m, size, off), Target(j, m, size, off), size) >= size / m
  {
    if i < j {
      SpotAbove(i, j, m, size);
      SpotTurn(i, m, size);
      SpotAbove(j, i + m, m, size);
      ModOfGap(Target(i, m, size, off), Target(j, m, size, off), size);
    } else {
      SpotAbove(j, i, m, size);
      SpotTurn(j, m, size);
      SpotAbove(i, j + m, m, size);
      ModOfGap(Target(j, m, size, off), Target(i, m, size, off), size);
    }
  }

  lemma {:induction false} ModOfGap(a: int, b: int, size: nat)
    requires a < b < a + size
    ensures Distance(a, b, size) == Distance(b, a, size)
    ensures Distance(a, b, size) == if b - a <= size - (b - a) then b - a else size - (b - a)
  {
    SmallMod(b - a, size);
    ModIs(a - b, size, -1);
  }

  /** The tolerance is at most half the spacing. */
  lemma {:induction false} ToleranceFits(m: nat, size: nat)
    requires m > 0 && 2 * m <= size
    ensures 1 <= Tolerance(m, size) && 2 * Tolerance(m, size) <= size / m
  {
    var q := size / (m * 10000);
    DivAtLeast(size, m, 2);
    if q >= 1 {
      assert q * (m * 10000) <= size;
      assert (2 * q) * m <= q * (m * 10000) by {
        MulLe(2, 10000, q * m);
        assert (q * m) * 2 == (2 * q) * m && (q * m) * 10000 == q * (m * 10000);
      }
      DivAtLeast(size, m, 2 * q);
    }
  }

  lemma {:induction false} DivAtLeast(x: nat, m: nat, k: nat)
    requires m > 0 && k * m <= x
    ensures x / m >= k
  {
    DivIs(k * m, m, k);
    FloorMono(k * m, x, m);
  }

  lemma {:induction false} PicksDiffer(picks: seq<int>, m: nat, i: nat, j: nat)
    requires KeepsOrder(picks, m) && i < j < |picks|
    ensures picks[i] != picks[j]
  {
    assert Turned(picks, i, m) < Turned(picks, j, m);
  }

  /** The plan found by the search, on a sorted ring. */
  ghost predicate Found(p: Plan, pts: seq<Node>, m: nat, size: nat, tol: nat) {
    && Valid(pts, size) && 0 < m && 2 * m <= size && tol == Tolerance(m, size)
    && PlanOn(p, Positions(pts), m, size, tol)
    && NoneCheaper(p.cost, Away(p.rank), Positions(pts), p.off, p.rank, m, size, tol)
  }

  function Targets(p: Plan, m: nat, size: nat): (r: seq<int>)
    requires 0 < m && 0 <= p.off < size / m
    ensures |r| == m && forall i :: 0 <= i < m ==> r[i] == Target(i, m, size, p.off)
  {
    BalancedPositions(m, size, p.off).value
  }

  /** No node ends on another node's place, nor on a target left for a new node. */
  lemma {:induction false} GoalsApart(p: Plan, pts: seq<Node>, m: nat, size: nat, tol: nat, i: nat, j: nat)
    requires Found(p, pts, m, size, tol) && i < |pts| && j < m && p.picks[i] != j
    ensures Goal(pts, Targets(p, m, size), p.picks, size, tol, i) != Target(j, m, size, p.off)
  {
    ToleranceFits(m, size);
    TargetsApart(m, size, p.off, p.picks[i], j);
    if Goal(pts, Targets(p, m, size), p.picks, size, tol, i) == Target(j, m, size, p.off) {
      DistanceSame(Target(p.picks[i], m, size, p.off), Target(j, m, size, p.off), size);
    }
  }

  lemma {:induction false} DistanceSame(a: int, b: int, size: nat)
    requires size > 0
    ensures Distance(a, b, size) == Distance(b, a, size)
    ensures Distance(a, a, size) == 0
  {
    SmallMod(0, size);
    var d, q := (b - a) % size, (b - a) / size;
    assert b - a == q * size + d;
    if d == 0 {
      assert a - b == (-q) * size;
      ModIs(a - b, size, -q);
    } else {
      assert (-q - 1) * size == -(q * size) - size;
      ModIs(a - b, size, -q - 1);
    }
  }

  lemma {:induction false} SettledApart(p: Plan, pts: seq<Node>, m: nat, size: nat, tol: nat)
    requires Found(p, pts, m, size, tol)
    ensures var settled := Settled(pts, Targets(p, m, size), p.picks, size, tol);
            Distinct(Positions(settled)) && OnCircle(Positions(settled), size) && Names(settled) == Names(pts)
  {
    var targets := Targets(p, m, size);
    var settled := Settled(pts, targets, p.picks, size, tol);
    BalancedValid(m, size, p.off);
    forall i, j | 0 <= i < j < |settled| ensures settled[i].pos != settled[j].pos {
      PicksDiffer(p.picks, m, i, j);
      GoalsApart(p, pts, m, size, tol, i, p.picks[j]);
      GoalsApart(p, pts, m, size, tol, j, p.picks[i]);
      assert Positions(pts)[i] < Positions(pts)[j];
    }
    forall i | 0 <= i < |settled| ensures 0 <= settled[i].pos < size {
      assert Positions(pts)[i] == pts[i].pos;
      assert targets[p.picks[i]] == BalancedPositions(m, size, p.off).value[p.picks[i]];
    }
  }

  // ----- the targets left -----

  lemma {:induction false} FreeIsUnused(targets: seq<int>, picks: seq<int>, k: nat)
    requires k <= |targets|
    ensures forall t :: t in FreeTargets(targets, picks, k) ==> exists j :: 0 <= j < k && j !in picks && targets[j] == t
  {
    if k > 0 { FreeIsUnused(targets, picks, k - 1); }
  }

  lemma {:induction false} FreeDistinct(targets: seq<int>, picks: seq<int>, k: nat)
    requires k <= |targets| && Increasing(targets)
    ensures Distinct(FreeTargets(targets, picks, k))
  {
    if k > 0 {
      FreeDistinct(targets, picks, k - 1);
      FreeIsUnused(targets, picks, k - 1);
      var before := FreeTargets(targets, picks, k - 1);
      forall i | 0 <= i < |before| ensures before[i] != targets[k - 1] {
        assert before[i] in before;
        var j :| 0 <= j < k - 1 && j !in picks && targets[j] == before[i];
      }
    }
  }

  function UsedBelow(picks: seq<int>, k: nat): set<int> {
    set j | j in picks && 0 <= j < k
  }

  lemma {:induction false} FreeCount(targets: seq<int>, picks: seq<int>, k: nat)
    requires k <= |targets|
    ensures |FreeTargets(targets, picks, k)| == k - |UsedBelow(picks, k)|
  {
    if k == 0 {
      assert UsedBelow(picks, 0) == {};
    } else {
      FreeCount(targets, picks, k - 1);
      if (k - 1) in picks {
        assert UsedBelow(picks, k) == UsedBelow(picks, k - 1) + {k - 1};
      } else {
        assert UsedBelow(picks, k) == UsedBelow(picks, k - 1);
      }
    }
  }

  lemma {:induction false} FreeForAll(p: Plan, pts: seq<Node>, m: nat, size: nat, tol: nat)
    requires Found(p, pts, m, size, tol)
    ensures |FreeTargets(Targets(p, m, size), p.picks, m)| == m - |pts|
  {
    FreeCount(Targets(p, m, size), p.picks, m);
    forall i, j | 0 <= i < j < |p.picks| ensures p.picks[i] != p.picks[j] { PicksDiffer(p.picks, m, i, j); }
    DistinctSize(p.picks);
    assert UsedBelow(p.picks, m) == SetOf(p.picks);
  }

  /** Beside the settled nodes there is room for the new ones on the targets left. */
  lemma {:induction false} RoomLeft(p: Plan, pts: seq<Node>, m: nat, size: nat, tol: nat, nodes: seq<NewNode>)
    requires Found(p, pts, m, size, tol) && m == |pts| + |nodes|
    requires Distinct(NewNames(nodes)) && forall b, x :: b in pts && x in nodes ==> b.name != x.name
    ensures var targets := Targets(p, m, size);
            Room(Settled(pts, targets, p.picks, size, tol), FreeTargets(targets, p.picks, m), nodes, size)
  {
    var targets := Targets(p, m, size);
    var settled, free := Settled(pts, targets, p.picks, size, tol), FreeTargets(targets, p.picks, m);
    SettledApart(p, pts, m, size, tol);
    BalancedValid(m, size, p.off);
    FreeForAll(p, pts, m, size, tol);
    FreeDistinct(targets, p.picks, m);
    FreeIsUnused(targets, p.picks, m);
    forall b, t | b in settled && t in free ensures b.pos != t {
      var i :| 0 <= i < |settled| && settled[i] == b;
      var j :| 0 <= j < m && j !in p.picks && targets[j] == t;
      assert p.picks[i] in p.picks;
      GoalsApart(p, pts, m, size, tol, i, j);
    }
    forall i | 0 <= i < |free| ensures 0 <= free[i] < size {
      assert free[i] in free;
      var j :| 0 <= j < m && j !in p.picks && targets[j] == free[i];
    }
    forall b, x | b in settled && x in nodes ensures b.name != x.name {
      var i :| 0 <= i < |settled| && settled[i] == b;
      assert pts[i] in pts;
    }
  }

  // ----- the plan -----

  datatype BalancedPlan = BalancedPlan(ring: seq<Node>, moves: seq<Move>, added: seq<Node>)

  /** What a balanced plan is: the optimum of the search carried out. */
  ghost predicate Carries(plan: BalancedPlan, p: Plan, pts: seq<Node>, nodes: seq<NewNode>, size: nat, tol: nat) {
    && Found(p, pts, |pts| + |nodes|, size, tol)
    && var targets := Targets(p, |pts| + |nodes|, size);
       && plan.moves == MovesOf(pts, targets, p.picks, size, tol, |pts|)
       && plan.ring == Settled(pts, targets, p.picks, size, tol) + plan.added
       && IsPlacement(plan.added, FreeTargets(targets, p.picks, |targets|), nodes)
  }

  method CollectMoves(pts: seq<Node>, targets: seq<int>, picks: seq<int>, size: nat, tol: nat)
      returns (moves: seq<Move>)
    requires size > 0 && Matched(pts, targets, picks)
    ensures moves == MovesOf(pts, targets, picks, size, tol, |pts|)
  {
    moves := [];
    var i := 0;
    while i < |pts|
      invariant 0 <= i <= |pts| && moves == MovesOf(pts, targets, picks, size, tol, i)
    {
      if !Stays(pts[i].pos, targets[picks[i]], size, tol) {
        moves := moves + [Move(pts[i].name, pts[i].pos, targets[picks[i]])];
      }
      i := i + 1;
    }
  }

  method CollectFree(targets: seq<int>, picks: seq<int>) returns (free: seq<int>)
    ensures free == FreeTargets(targets, picks, |targets|)
  {
    free := [];
    var j := 0;
    while j < |targets|
      invariant 0 <= j <= |targets| && free == FreeTargets(targets, picks, j)
    {
      if j !in picks { free := free + [targets[j]]; }
      j := j + 1;
    }
  }

  /** The best plan over every spacing tried. */
  method FindPlan(pts: seq<Node>, m: nat, size: nat, offset: int, tol: nat) returns (p: Plan, ghost offs: seq<int>)
    requires Valid(pts, size) && 0 < m && 2 * m <= size && |pts| <= m && tol == Tolerance(m, size)
    ensures size / m > 0 && Spacings(offs, Positions(pts), offset, size / m, tol)
    ensures Found(p, pts, m, size, tol) && p.rank < |offs| && p.off == offs[p.rank]
    ensures forall r :: 0 <= r < |offs| ==>
              NoneCheaper(p.cost, Away(p.rank), Positions(pts), offs[r], r, m, size, tol)
  {
    DivAtLeast(size, m, 2);
    var tries := Offsets(Positions(pts), offset, size / m, tol);
    p := SearchSpacings(tries, Positions(pts), m, size, tol);
    offs := tries;
  }

  /** The new nodes on the positions left, in rack round robin, placed as evenly as found. */
  method AddNodes(p: Plan, pts: seq<Node>, m: nat, size: nat, tol: nat, rf: nat, nodes: seq<NewNode>)
    returns (settled: seq<Node>, added: seq<Node>)
    requires Found(p, pts, m, size, tol) && m == |pts| + |nodes|
    requires Distinct(NewNames(nodes)) && forall b, x :: b in pts && x in nodes ==> b.name != x.name
    ensures settled == Settled(pts, Targets(p, m, size), p.picks, size, tol)
    ensures IsPlacement(added, FreeTargets(Targets(p, m, size), p.picks, m), nodes)
    ensures WellPlaced(added, settled, FreeTargets(Targets(p, m, size), p.picks, m), Rounds(Queues(nodes)), size, rf)
  {
    var targets := Targets(p, m, size);
    settled := Settled(pts, targets, p.picks, size, tol);
    var free := CollectFree(targets, p.picks);
    RoomLeft(p, pts, m, size, tol, nodes);
    RoomRounds(settled, free, nodes, size);
    var order := RackOrder(nodes);
    added := Place(settled, free, order, size, rf, None);
    SameNodesPlacement(added, free, nodes);
  }

  /** The plan is the cheapest over every spacing tried: one per node and the convention. */
  ghost predicate Cheapest(p: Plan, pts: seq<Node>, m: nat, size: nat, offset: int, tol: nat) {
    size > 0 && m > 0 && size / m > 0 &&
    exists offs ::
      && Spacings(offs, Positions(pts), offset, size / m, tol) && p.rank < |offs| && p.off == offs[p.rank]
      && forall r :: 0 <= r < |offs| ==> NoneCheaper(p.cost, Away(p.rank), Positions(pts), offs[r], r, m, size, tol)
  }

  /** A plan for a sorted ring: the cheapest, carried out, the new nodes as evenly as
      found, with no token or name twice. */
  ghost predicate GoodPlan(plan: BalancedPlan, p: Plan, pts: seq<Node>, nodes: seq<NewNode>, size: nat, rf: nat,
        offset: int) {
    && 0 < |pts| + |nodes|
    && Carries(plan, p, pts, nodes, size, Tolerance(|pts| + |nodes|, size))
    && Cheapest(p, pts, |pts| + |nodes|, size, offset, Tolerance(|pts| + |nodes|, size))
    && Sound(plan.ring, size)
    && WellAdded(plan, p, pts, nodes, size, rf)
  }

  /** The new nodes are on the targets left, in rack round robin, their racks placed as evenly as found. */
  ghost predicate WellAdded(plan: BalancedPlan, p: Plan, pts: seq<Node>, nodes: seq<NewNode>, size: nat, rf: nat)
    requires 0 < |pts| + |nodes| && Carries(plan, p, pts, nodes, size, Tolerance(|pts| + |nodes|, size))
  {
    var m, tol := |pts| + |nodes|, Tolerance(|pts| + |nodes|, size);
    var targets := Targets(p, m, size);
    WellPlaced(plan.added, Settled(pts, targets, p.picks, size, tol), FreeTargets(targets, p.picks, m),
               Rounds(Queues(nodes)), size, rf)
  }

  lemma {:induction false} CarriedIsSound(plan: BalancedPlan, p: Plan, pts: seq<Node>, nodes: seq<NewNode>, size: nat,
        tol: nat)
    requires Carries(plan, p, pts, nodes, size, tol) && Distinct(NewNames(nodes))
    requires forall b, x :: b in pts && x in nodes ==> b.name != x.name
    ensures Sound(plan.ring, size)
  {
    var m := |pts| + |nodes|;
    var targets := Targets(p, m, size);
    RoomLeft(p, pts, m, size, tol, nodes);
    PlacementSound(Settled(pts, targets, p.picks, size, tol), plan.added, FreeTargets(targets, p.picks, m), nodes,
        size);
  }

  method PlanSorted(pts: seq<Node>, nodes: seq<NewNode>, size: nat, rf: nat, offset: int)
    returns (plan: BalancedPlan, ghost p: Plan)
    requires Valid(pts, size) && 0 < |pts| + |nodes| && 2 * (|pts| + |nodes|) <= size && Distinct(NewNames(nodes))
    requires forall b, x :: b in pts && x in nodes ==> b.name != x.name
    ensures GoodPlan(plan, p, pts, nodes, size, rf, offset)
  {
    var m := |pts| + |nodes|;
    var tol := Tolerance(m, size);
    var found, offs := FindPlan(pts, m, size, offset, tol);
    var settled, added := AddNodes(found, pts, m, size, tol, rf, nodes);
    var moves := CollectMoves(pts, Targets(found, m, size), found.picks, size, tol);
    plan := BalancedPlan(settled + added, moves, added);
    p := found;
    CarriedIsSound(plan, p, pts, nodes, size, tol);
  }

  /** The datacenter's ring with its new nodes balanced: refused for more than
      MAX_NODES nodes or a token held twice, else the cheapest plan over every
      spacing tried, carried out; no two nodes of its ring share a token or a name. */
  method PlanBalanced(ring: seq<Node>, nodes: seq<NewNode>, size: nat, rf: nat, offset: int)
    returns (r: Result<BalancedPlan>, ghost p: Plan)
    requires 0 < |ring| + |nodes| && 2 * (|ring| + |nodes|) <= size
    requires Distinct(Names(ring)) && Distinct(NewNames(nodes))
    requires forall b, x :: b in ring && x in nodes ==> b.name != x.name
    ensures r.Ok? <==> |ring| + |nodes| <= MAX_NODES && SortedRing(ring, size).Ok?
    ensures r.Ok? ==> GoodPlan(r.value, p, SortedRing(ring, size).value, nodes, size, rf, offset)
  {
    p := Plan(Cost(0, 0), 0, 0, []);
    if |ring| + |nodes| > MAX_NODES || SortedRing(ring, size).TokenError? { return TokenError, p; }
    var pts := SortedRing(ring, size).value;
    SortedValid(ring, size);
    NamesStayApart(ring, pts, nodes, size);
    var plan, found := PlanSorted(pts, nodes, size, rf, offset);
    return Ok(plan), found;
  }

  lemma {:induction false} NamesStayApart(ring: seq<Node>, pts: seq<Node>, nodes: seq<NewNode>, size: nat)
    requires size > 0 && SortedRing(ring, size) == Ok(pts)
    requires forall b, x :: b in ring && x in nodes ==> b.name != x.name
    ensures forall b, x :: b in pts && x in nodes ==> b.name != x.name
  {
    var red := Reduced(ring, size);
    forall b, x | b in pts && x in nodes ensures b.name != x.name {
      assert b in multiset(pts);
      assert b in red;
      var i :| 0 <= i < |red| && red[i] == b;
      assert ring[i] in ring;
    }
  }
}
