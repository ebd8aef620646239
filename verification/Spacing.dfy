/** The search over spacings of a balanced ring: a lower bound on the moves of
    each, the cheapest bound first, stopped once no other can move fewer nodes. */
module Spacing {
  import opened Sorting
  import opened Arith
  import opened Balanced
  import opened Assignment

  // ----- distance round the circle -----

  function Abs(x: int): nat {
    if x >= 0 then x else -x
  }

  /** The distance is the length of the shortest way, over every number of turns. */
  lemma {:induction false} DistanceIsLeast(a: int, b: int, k: int, size: nat)
    requires size > 0
    ensures Distance(a, b, size) <= Abs(b + k * size - a)
  {
    var d, q := (b - a) % size, (b - a) / size;
    assert b - a == q * size + d;
    assert b + k * size - a == (q + k) * size + d by { assert (q + k) * size == q * size + k * size; }
    if q + k >= 0 {
      MulNonNegative(q + k, size);
    } else {
      MulLe(q + k, -1, size);
    }
  }

  lemma {:induction false} DistanceIsReached(a: int, b: int, size: nat) returns (k: int)
    requires size > 0
    ensures Distance(a, b, size) == Abs(b + k * size - a)
  {
    var d, q := (b - a) % size, (b - a) / size;
    assert b - a == q * size + d;
    k := if d <= size - d then -q else -q - 1;
    assert (-q) * size == -(q * size);
    assert (-q - 1) * size == -(q * size) - size;
  }

  // ----- the lower bound -----

  /** Target j of the spacing that starts at off, for any j round the circle. */
  function Target(j: int, m: nat, size: nat, off: int): int
    requires m > 0
  {
    Spot(j, m, size) + off
  }

  function Near(p: int, off: int, m: nat, size: nat): int
    requires size > 0
  {
    ((p - off) * m + size / 2) / size
  }

  /** The planner's test: none of the three targets about p is within tol. */
  predicate Far(p: int, off: int, m: nat, size: nat, tol: nat)
    requires size > 0 && m > 0
  {
    var near := Near(p, off, m, size);
    && Distance(p, Target((near - 1) % m, m, size, off), size) > tol
    && Distance(p, Target(near % m, m, size, off), size) > tol
    && Distance(p, Target((near + 1) % m, m, size, off), size) > tol
  }

  lemma {:induction false} TargetTurns(j: int, k: int, m: nat, size: nat, off: int)
    requires m > 0
    ensures Target(j + k * m, m, size, off) == Target(j, m, size, off) + k * size
  {
    assert (j + k * m) * size == j * size + (k * size) * m;
    FloorShift(j * size, k * size, m);
  }

  /** The targets beside the rounded index hold p between them, despite the floors. */
  lemma {:induction false} NearHolds(p: int, off: int, m: nat, size: nat)
    requires size > 0 && m > 0
    ensures Target(Near(p, off, m, size) - 1, m, size, off) <= p <= Target(Near(p, off, m, size) + 1, m, size, off)
  {
    var near, x := Near(p, off, m, size), p - off;
    assert near * size <= x * m + size / 2 < near * size + size;
    assert (near - 1) * size == near * size - size;
    assert (near + 1) * size == near * size + size;
    DivIs(x * m, m, x);
    FloorMono((near - 1) * size, x * m, m);
    FloorMono(x * m, (near + 1) * size, m);
  }

  lemma {:induction false} TargetsRise(i: int, j: int, m: nat, size: nat, off: int)
    requires m > 0 && i <= j
    ensures Target(i, m, size, off) <= Target(j, m, size, off)
  {
    MulLe(i, j, size);
    FloorMono(i * size, j * size, m);
  }

  lemma {:induction false} NeighbourFar(p: int, j: int, off: int, m: nat, size: nat, tol: nat)
    requires size > 0 && m > 0 && Distance(p, Target(j % m, m, size, off), size) > tol
    ensures Abs(Target(j, m, size, off) - p) > tol
  {
    var k := j / m;
    assert j == j % m + k * m;
    TargetTurns(j % m, k, m, size, off);
    DistanceIsLeast(p, Target(j % m, m, size, off), k, size);
  }

  /** Looking at three neighbours is enough: when they are far, every target is. */
  lemma {:induction false} FarFromAll(p: int, off: int, m: nat, size: nat, tol: nat, j: int)
    requires size > 0 && m > 0 && Far(p, off, m, size, tol)
    ensures Distance(p, Target(j, m, size, off), size) > tol
  {
    var near := Near(p, off, m, size);
    NearHolds(p, off, m, size);
    NeighbourFar(p, near - 1, off, m, size, tol);
    NeighbourFar(p, near, off, m, size, tol);
    NeighbourFar(p, near + 1, off, m, size, tol);
    var k := DistanceIsReached(p, Target(j, m, size, off), size);
    TargetTurns(j, k, m, size, off);
    var i := j + k * m;
    if i <= near - 1 {
      TargetsRise(i, near - 1, m, size, off);
    } else if i >= near + 1 {
      TargetsRise(near + 1, i, m, size, off);
    }
  }

  /** How many of the first k nodes have no target of the spacing within tol. */
  function FarCount(existing: seq<int>, off: int, m: nat, size: nat, tol: nat, k: nat): nat
    requires size > 0 && m > 0 && k <= |existing|
  {
    if k == 0 then 0
    else FarCount(existing, off, m, size, tol, k - 1) + if Far(existing[k - 1], off, m, size, tol) then 1 else 0
  }

  method AtLeast(existing: seq<int>, off: int, m: nat, size: nat, tol: nat) returns (far: nat)
    requires size > 0 && m > 0
    ensures far == FarCount(existing, off, m, size, tol, |existing|)
  {
    far := 0;
    var i := 0;
    while i < |existing|
      invariant 0 <= i <= |existing| && far == FarCount(existing, off, m, size, tol, i)
    {
      if Far(existing[i], off, m, size, tol) { far := far + 1; }
      i := i + 1;
    }
  }

  /** d is the distance of p to some target of the spacing. */
  ghost predicate OnTarget(p: int, d: nat, off: int, m: nat, size: nat)
    requires size > 0 && m > 0
  {
    exists j :: d == Distance(p, Target(j, m, size, off), size)
  }

  /** Every far node moves, whatever targets the nodes are given. */
  lemma {:induction false} FarNodesMove(existing: seq<int>, off: int, m: nat, size: nat, tol: nat, ds: seq<nat>)
    requires size > 0 && m > 0 && |ds| <= |existing|
    requires forall i :: 0 <= i < |ds| ==> OnTarget(existing[i], ds[i], off, m, size)
    ensures FarCount(existing, off, m, size, tol, |ds|) <= Moves(ds, tol)
  {
    if ds != [] {
      var i := |ds| - 1;
      assert OnTarget(existing[i], ds[i], off, m, size);
      FarNodesMove(existing, off, m, size, tol, ds[..i]);
      var j :| ds[i] == Distance(existing[i], Target(j, m, size, off), size);
      if Far(existing[i], off, m, size, tol) { FarFromAll(existing[i], off, m, size, tol, j); }
    }
  }

  /** The bound is true: no plan on the spacing moves fewer nodes. */
  lemma {:induction false} BoundIsTrue(existing: seq<int>, off: int, m: nat, size: nat, tol: nat, q: seq<int>)
    requires size > 0 && m > 0 && 0 <= off < size / m && |q| == |existing| && KeepsOrder(q, m)
    ensures FarCount(existing, off, m, size, tol, |existing|)
            <= Moves(Distances(existing, BalancedPositions(m, size, off).value, size, q), tol)
  {
    var targets := BalancedPositions(m, size, off).value;
    var ds := Distances(existing, targets, size, q);
    forall i | 0 <= i < |ds| ensures OnTarget(existing[i], ds[i], off, m, size) {
      assert targets[q[i]] == Target(q[i], m, size, off);
    }
    FarNodesMove(existing, off, m, size, tol, ds);
  }

  // ----- the spacings tried -----

  predicate Close(a: int, b: int, spacing: nat, tol: nat)
    requires spacing > 0
  {
    (a - b) % spacing <= tol || (b - a) % spacing <= tol
  }

  /** Some offset kept is within tol of x. */
  ghost predicate Covered(x: int, offs: seq<int>, spacing: nat, tol: nat)
    requires spacing > 0
  {
    exists i :: 0 <= i < |offs| && Close(x, offs[i], spacing, tol)
  }

  ghost predicate Spread(offs: seq<int>, spacing: nat, tol: nat)
    requires spacing > 0
  {
    forall i, j :: 0 <= i < j < |offs| ==> !Close(offs[j], offs[i], spacing, tol)
  }

  /** An offset kept when none before it is within tol. */
  method KeepOffset(offs: seq<int>, off: int, spacing: nat, tol: nat) returns (r: seq<int>)
    requires spacing > 0 && Spread(offs, spacing, tol)
    ensures r == offs || r == offs + [off]
    ensures Spread(r, spacing, tol)
    ensures 0 <= off < spacing ==> Covered(off, r, spacing, tol)
  {
    if forall i :: 0 <= i < |offs| ==> !Close(off, offs[i], spacing, tol) {
      r := offs + [off];
      SmallMod(0, spacing);
      assert Close(off, r[|offs|], spacing, tol);
    } else {
      r := offs;
    }
  }

  /** The spacing puts a target on some node. */
  ghost predicate IsOwn(off: int, existing: seq<int>, spacing: nat)
    requires spacing > 0
  {
    exists i :: 0 <= i < |existing| && existing[i] % spacing == off
  }

  /** The spacings a plan may start at: the convention first, then nodes' own, none
      within tol of another, every node's covered. */
  ghost predicate Spacings(offs: seq<int>, existing: seq<int>, offset: int, spacing: nat, tol: nat)
    requires spacing > 0
  {
    && offs != [] && offs[0] == offset % spacing
    && (forall o :: o in offs ==> 0 <= o < spacing)
    && (forall o :: o in offs ==> o == offset % spacing || IsOwn(o, existing, spacing))
    && Spread(offs, spacing, tol)
    && forall i :: 0 <= i < |existing| ==> Covered(existing[i] % spacing, offs, spacing, tol)
  }

  /** The convention first, then one per node, but not two within tol of each other. */
  method Offsets(existing: seq<int>, offset: int, spacing: nat, tol: nat) returns (offs: seq<int>)
    requires spacing > 0
    ensures Spacings(offs, existing, offset, spacing, tol)
  {
    offs := [offset % spacing];
    var sorted := SortInts(seq(|existing|, i requires 0 <= i < |existing| => existing[i] % spacing));
    SortedOffsets(existing, spacing, sorted);
    var k := 0;
    while k < |sorted|
      invariant 0 <= k <= |sorted|
      invariant offs != [] && offs[0] == offset % spacing
      invariant forall o :: o in offs ==> o == offset % spacing || o in sorted
      invariant forall i :: 0 <= i < k ==> Covered(sorted[i], offs, spacing, tol)
      invariant Spread(offs, spacing, tol)
    {
      ghost var was := offs;
      assert sorted[k] in sorted;
      offs := KeepOffset(offs, sorted[k], spacing, tol);
      StillCovered(sorted, k, was, offs, spacing, tol);
      k := k + 1;
    }
  }

  lemma {:induction false} StillCovered(sorted: seq<int>, k: nat, was: seq<int>, offs: seq<int>, spacing: nat, tol: nat)
    requires spacing > 0 && k <= |sorted| && was <= offs
    requires forall i :: 0 <= i < k ==> Covered(sorted[i], was, spacing, tol)
    ensures forall i :: 0 <= i < k ==> Covered(sorted[i], offs, spacing, tol)
  {
    forall i | 0 <= i < k ensures Covered(sorted[i], offs, spacing, tol) {
      var j :| 0 <= j < |was| && Close(sorted[i], was[j], spacing, tol);
      assert Close(sorted[i], offs[j], spacing, tol);
    }
  }

  lemma {:induction false} SortedOffsets(existing: seq<int>, spacing: nat, sorted: seq<int>)
    requires spacing > 0
    requires multiset(sorted) == multiset(seq(|existing|, i requires 0 <= i < |existing| => existing[i] % spacing))
    ensures forall i :: 0 <= i < |existing| ==> existing[i] % spacing in sorted
    ensures forall o :: o in sorted ==> 0 <= o < spacing && IsOwn(o, existing, spacing)
  {
    var mods := seq(|existing|, i requires 0 <= i < |existing| => existing[i] % spacing);
    forall i | 0 <= i < |existing| ensures existing[i] % spacing in sorted {
      assert mods[i] in multiset(mods);
      assert mods[i] in multiset(sorted);
    }
    forall o | o in sorted ensures IsOwn(o, existing, spacing) {
      assert o in multiset(sorted);
      var i :| 0 <= i < |mods| && mods[i] == o;
      assert existing[i] % spacing == o;
    }
  }

  // ----- the search -----

  /** A spacing to try: a lower bound on its moves, its rank (0: the convention), its offset. */
  datatype Try = Try(bound: nat, rank: nat, off: int)

  predicate TryBefore(a: Try, b: Try) {
    a.bound < b.bound || (a.bound == b.bound && a.rank <= b.rank)
  }

  function SortTries(s: seq<Try>): (r: seq<Try>)
    ensures multiset(r) == multiset(s)
  {
    SortBy(s, TryBefore)
  }

  ghost predicate ByBound(s: seq<Try>) {
    forall i, j :: 0 <= i < j < |s| ==> s[i].bound <= s[j].bound
  }

  lemma {:induction false} SortTriesByBound(s: seq<Try>)
    ensures ByBound(SortTries(s))
  {
    SortSorted(s, TryBefore);
    forall i, j | 0 <= i < j < |SortTries(s)| ensures SortTries(s)[i].bound <= SortTries(s)[j].bound {
      assert TryBefore(SortBy(s, TryBefore)[i], SortBy(s, TryBefore)[j]);
    }
  }

  /** 0 for the convention, 1 for any other spacing. */
  function Away(rank: nat): nat {
    if rank == 0 then 0 else 1
  }

  /** Fewer moves, then less distance, then the convention. */
  predicate Cheaper(a: Cost, aw: nat, b: Cost, bw: nat) {
    || a.moves < b.moves
    || (a.moves == b.moves && (a.distance < b.distance || (a.distance == b.distance && aw < bw)))
  }

  ghost predicate Spaced(existing: seq<int>, off: int, m: nat, size: nat) {
    size > 0 && m > 0 && 0 <= off < size / m && |existing| <= m
  }

  /** The cost of a plan on a spacing. */
  ghost function CostOn(existing: seq<int>, off: int, m: nat, size: nat, tol: nat, q: seq<int>): Cost
    requires Spaced(existing, off, m, size) && |q| == |existing| && KeepsOrder(q, m)
  {
    CostOf(Distances(existing, BalancedPositions(m, size, off).value, size, q), tol)
  }

  /** No order-keeping plan on the spacing is cheaper. */
  ghost predicate NoneCheaper(cost: Cost, away: nat, existing: seq<int>, off: int, rank: nat, m: nat, size: nat,
        tol: nat) {
    Spaced(existing, off, m, size) &&
    forall q :: KeepsOrder(q, m) && |q| == |existing| ==>
      !Cheaper(CostOn(existing, off, m, size, tol, q), Away(rank), cost, away)
  }

  datatype Plan = Plan(cost: Cost, rank: nat, off: int, picks: seq<int>)

  ghost predicate PlanOn(p: Plan, existing: seq<int>, m: nat, size: nat, tol: nat) {
    && Spaced(existing, p.off, m, size)
    && |p.picks| == |existing| && KeepsOrder(p.picks, m)
    && p.cost == CostOn(existing, p.off, m, size, tol, p.picks)
  }

  /** The best plan on one spacing. */
  method BestOn(existing: seq<int>, c: Try, m: nat, size: nat, tol: nat) returns (p: Plan)
    requires Spaced(existing, c.off, m, size)
    ensures PlanOn(p, existing, m, size, tol) && p.off == c.off && p.rank == c.rank
    ensures NoneCheaper(p.cost, Away(p.rank), existing, c.off, c.rank, m, size, tol)
  {
    var targets := BalancedPositions(m, size, c.off).value;
    if existing == [] {
      p := Plan(Cost(0, 0), c.rank, c.off, []);
    } else {
      var cost, picks := Assign(existing, targets, size, tol);
      p := Plan(cost, c.rank, c.off, picks);
      forall q | KeepsOrder(q, m) && |q| == |existing|
        ensures !Cheaper(CostOn(existing, c.off, m, size, tol, q), Away(c.rank), cost, Away(c.rank))
      {
        assert NoWorse(cost, CostOf(Distances(existing, targets, size, q), tol));
      }
    }
  }

  lemma {:induction false} StillNoneCheaper(low: Plan, p: Plan, existing: seq<int>, c: Try, m: nat, size: nat, tol: nat)
    requires NoneCheaper(p.cost, Away(p.rank), existing, c.off, c.rank, m, size, tol)
    requires !Cheaper(p.cost, Away(p.rank), low.cost, Away(low.rank))
    ensures NoneCheaper(low.cost, Away(low.rank), existing, c.off, c.rank, m, size, tol)
  {
    forall q | KeepsOrder(q, m) && |q| == |existing|
      ensures !Cheaper(CostOn(existing, c.off, m, size, tol, q), Away(c.rank), low.cost, Away(low.rank))
    {
      assert !Cheaper(CostOn(existing, c.off, m, size, tol, q), Away(c.rank), p.cost, Away(p.rank));
    }
  }

  /** A spacing whose bound is above the best plan's moves has no better plan. */
  lemma {:induction false} PrunedIsWorse(best: Plan, existing: seq<int>, c: Try, m: nat, size: nat, tol: nat)
    requires Spaced(existing, c.off, m, size)
    requires c.bound == FarCount(existing, c.off, m, size, tol, |existing|) && c.bound > best.cost.moves
    ensures NoneCheaper(best.cost, Away(best.rank), existing, c.off, c.rank, m, size, tol)
  {
    forall q | KeepsOrder(q, m) && |q| == |existing|
      ensures !Cheaper(CostOn(existing, c.off, m, size, tol, q), Away(c.rank), best.cost, Away(best.rank))
    {
      BoundIsTrue(existing, c.off, m, size, tol, q);
    }
  }

  ghost predicate GoodTry(c: Try, existing: seq<int>, m: nat, size: nat, tol: nat) {
    Spaced(existing, c.off, m, size) && c.bound == FarCount(existing, c.off, m, size, tol, |existing|)
  }

  /** No plan on the first k spacings is cheaper. */
  ghost predicate BestOfTries(best: Plan, tries: seq<Try>, k: nat, existing: seq<int>, m: nat, size: nat, tol: nat)
    requires k <= |tries|
  {
    forall i :: 0 <= i < k ==>
      NoneCheaper(best.cost, Away(best.rank), existing, tries[i].off, tries[i].rank, m, size, tol)
  }

  lemma {:induction false} BestOfMore(best: Plan, p: Plan, low: Plan, tries: seq<Try>, k: nat, existing: seq<int>,
        m: nat, size: nat, tol: nat)
    requires k < |tries|
    requires k > 0 ==> BestOfTries(best, tries, k, existing, m, size, tol)
    requires NoneCheaper(p.cost, Away(p.rank), existing, tries[k].off, tries[k].rank, m, size, tol)
    requires low == if k == 0 || Cheaper(p.cost, Away(p.rank), best.cost, Away(best.rank)) then p else best
    ensures BestOfTries(low, tries, k + 1, existing, m, size, tol)
  {
    forall i | 0 <= i < k
      ensures NoneCheaper(low.cost, Away(low.rank), existing, tries[i].off, tries[i].rank, m, size, tol)
    {
      StillNoneCheaper(low, best, existing, tries[i], m, size, tol);
    }
    StillNoneCheaper(low, p, existing, tries[k], m, size, tol);
  }

  /** Cheapest bound first, until no spacing left can move fewer nodes: no plan on any of the spacings is cheaper. */
  method SearchTries(tries: seq<Try>, existing: seq<int>, m: nat, size: nat, tol: nat) returns (best: Plan)
    requires tries != [] && ByBound(tries)
    requires forall i :: 0 <= i < |tries| ==> GoodTry(tries[i], existing, m, size, tol)
    ensures PlanOn(best, existing, m, size, tol)
    ensures exists c :: c in tries && c.off == best.off && c.rank == best.rank
    ensures BestOfTries(best, tries, |tries|, existing, m, size, tol)
  {
    var first := BestOn(existing, tries[0], m, size, tol);
    best := first;
    BestOfMore(best, best, best, tries, 0, existing, m, size, tol);
    assert tries[0] in tries;
    var k := 1;
    while k < |tries|
      invariant 1 <= k <= |tries|
      invariant PlanOn(best, existing, m, size, tol)
      invariant exists c :: c in tries && c.off == best.off && c.rank == best.rank
      invariant BestOfTries(best, tries, k, existing, m, size, tol)
    {
      if tries[k].bound > best.cost.moves {
        forall i | k <= i < |tries|
          ensures NoneCheaper(best.cost, Away(best.rank), existing, tries[i].off, tries[i].rank, m, size, tol)
        {
          PrunedIsWorse(best, existing, tries[i], m, size, tol);
        }
        return;
      }
      var p := BestOn(existing, tries[k], m, size, tol);
      BestOfMore(best, p, if Cheaper(p.cost, Away(p.rank), best.cost, Away(best.rank)) then p
          else best, tries, k, existing, m, size, tol);
      assert tries[k] in tries;
      if Cheaper(p.cost, Away(p.rank), best.cost, Away(best.rank)) { best := p; }
      k := k + 1;
    }
  }

  /** The spacings with their bounds. */
  method Bounded(offs: seq<int>, existing: seq<int>, m: nat, size: nat, tol: nat) returns (tries: seq<Try>)
    requires forall o :: o in offs ==> Spaced(existing, o, m, size)
    ensures |tries| == |offs|
    ensures forall i :: 0 <= i < |tries| ==>
        tries[i].rank == i && tries[i].off == offs[i] && GoodTry(tries[i], existing, m, size, tol)
  {
    tries := [];
    while |tries| < |offs|
      invariant |tries| <= |offs|
      invariant forall i :: 0 <= i < |tries| ==>
          tries[i].rank == i && tries[i].off == offs[i] && GoodTry(tries[i], existing, m, size, tol)
    {
      var k := |tries|;
      assert offs[k] in offs;
      var bound := AtLeast(existing, offs[k], m, size, tol);
      tries := tries + [Try(bound, k, offs[k])];
    }
  }

  /** The pruned search finds the optimum over every spacing and every
      order-keeping plan: fewest moves, least distance, convention first. */
  method SearchSpacings(offs: seq<int>, existing: seq<int>, m: nat, size: nat, tol: nat) returns (best: Plan)
    requires offs != [] && forall o :: o in offs ==> Spaced(existing, o, m, size)
    ensures PlanOn(best, existing, m, size, tol)
    ensures best.rank < |offs| && best.off == offs[best.rank]
    ensures forall r :: 0 <= r < |offs| ==> NoneCheaper(best.cost, Away(best.rank), existing, offs[r], r, m, size, tol)
  {
    var bounded := Bounded(offs, existing, m, size, tol);
    var tries := SortTries(bounded);
    SortTriesByBound(bounded);
    forall i | 0 <= i < |tries|
      ensures GoodTry(tries[i], existing, m, size, tol) && tries[i].rank < |offs| && tries[i].off == offs[tries[i].rank]
    {
      assert tries[i] in multiset(tries);
      assert tries[i] in bounded;
    }
    assert bounded[0] in multiset(bounded);
    assert bounded[0] in multiset(tries);
    best := SearchTries(tries, existing, m, size, tol);
    forall r | 0 <= r < |offs| ensures NoneCheaper(best.cost, Away(best.rank), existing, offs[r], r, m, size, tol) {
      assert bounded[r] in multiset(bounded);
      assert bounded[r] in multiset(tries);
      var i :| 0 <= i < |tries| && tries[i] == bounded[r];
    }
  }
}
