/** The plan that moves no node: three greedy plans, their racks rearranged, the
    most even of the three. */
module BisectPlan {
  import opened Lists
  import opened Options
  import opened Arith
  import opened Ring
  import opened RoundRobin
  import opened Evenness
  import opened Placement
  import opened PlaceSearch
  import opened PlaceChoice
  import opened Bisect

  /** The new nodes, each once and on a position of its own that no node of the ring holds. */
  ghost predicate NewPlan(ring: seq<Node>, placed: seq<Node>, nodes: seq<NewNode>, size: nat) {
    && multiset(NewOf(placed)) == multiset(nodes)
    && Distinct(Positions(placed)) && OnCircle(Positions(placed), size)
    && forall b, n :: b in ring && n in placed ==> b.pos != n.pos
  }

  /** A whole plan of the greedy choice by shares. */
  ghost predicate GreedyPlan(ring: seq<Node>, plan: seq<Node>, nodes: seq<NewNode>, size: nat, rf: nat,
        onlyLargest: bool) {
    |plan| == |nodes| && plan == Placed(Positions(plan), nodes)
    && BestInTurn(ring, Positions(plan), nodes, size, rf, onlyLargest)
  }

  /** A whole plan of splits of the largest range. */
  ghost predicate SplitPlan(ring: seq<Node>, plan: seq<Node>, nodes: seq<NewNode>, size: nat)
    requires size > 0
  {
    |plan| == |nodes| && plan == Placed(Positions(plan), nodes) && SortedRing(ring, size).Ok?
    && SplitsInTurn(Positions(SortedRing(ring, size).value), Positions(plan), size)
  }

  /** A plan on free positions, one each. */
  ghost predicate Fits(ring: seq<Node>, plan: seq<Node>, nodes: seq<NewNode>, size: nat) {
    Room(ring, Positions(plan), nodes, size) && IsPlacement(plan, Positions(plan), nodes)
  }

  lemma {:induction false} GrownFits(ring: seq<Node>, spots: seq<int>, nodes: seq<NewNode>, size: nat)
    requires Grown(ring, spots, nodes, size) && |spots| == |nodes|
    ensures Fits(ring, Placed(spots, nodes), nodes, size) && Positions(Placed(spots, nodes)) == spots
  {
    assert Positions(Placed(spots, nodes)) == spots;
    assert NewOf(Placed(spots, nodes)) == nodes;
  }

  lemma {:induction false} ApartInBoth(a: seq<int>, b: seq<int>)
    requires Distinct(a + b)
    ensures Distinct(b) && forall x, y :: x in a && y in b ==> x != y
  {
    forall i, j | 0 <= i < j < |b| ensures b[i] != b[j] {
      assert (a + b)[|a| + i] != (a + b)[|a| + j];
    }
    forall x, y | x in a && y in b ensures x != y {
      var i :| 0 <= i < |a| && a[i] == x;
      var j :| 0 <= j < |b| && b[j] == y;
      assert (a + b)[i] != (a + b)[|a| + j];
    }
  }

  /** Splits of the largest ranges are on free positions, one each. */
  lemma {:induction false} SplitsApart(ps: seq<int>, spots: seq<int>, size: nat)
    requires size > 0 && Increasing(ps) && OnCircle(ps, size) && SplitsInTurn(ps, spots, size)
    ensures Distinct(spots) && OnCircle(spots, size) && forall x, y :: x in ps && y in spots ==> x != y
  {
    var after := AfterSplits(ps, spots);
    SplitsKeepNearEven(ps, spots, size, false);
    AfterSplitsAre(ps, spots);
    assert multiset(after) == multiset(ps + spots);
    DistinctOfMultiset(after, ps + spots);
    ApartInBoth(ps, spots);
    forall i | 0 <= i < |spots| ensures 0 <= spots[i] < size {
      assert spots[i] in multiset(after);
    }
  }

  lemma {:induction false} SplitGrown(ring: seq<Node>, spots: seq<int>, nodes: seq<NewNode>, size: nat)
    requires Joining(ring, nodes, size) && Distinct(Positions(ring)) && |spots| <= |nodes|
    requires SortedRing(ring, size).Ok? && SplitsInTurn(Positions(SortedRing(ring, size).value), spots, size)
    ensures Grown(ring, spots, nodes, size)
  {
    var ps := Positions(SortedRing(ring, size).value);
    InSortedRing(ring, size);
    SplitsApart(ps, spots, size);
    forall b, p | b in ring && p in spots ensures b.pos != p {
      assert b.pos in ps;
    }
  }

  lemma {:induction false} InSortedRing(ring: seq<Node>, size: nat)
    requires size > 0 && OnCircle(Positions(ring), size) && SortedRing(ring, size).Ok?
    ensures var ps := Positions(SortedRing(ring, size).value);
            Increasing(ps) && OnCircle(ps, size) && forall b :: b in ring ==> b.pos in ps
  {
    SameReduced(ring, size);
    SortedRingSpec(ring, size);
    var pts := SortedRing(ring, size).value;
    forall b | b in ring ensures b.pos in Positions(pts) {
      assert b in multiset(pts);
      var i :| 0 <= i < |pts| && pts[i] == b;
      assert Positions(pts)[i] == b.pos;
    }
  }

  lemma {:induction false} SameReduced(ring: seq<Node>, size: nat)
    requires size > 0 && OnCircle(Positions(ring), size)
    ensures Reduced(ring, size) == ring
  {
    forall i | 0 <= i < |ring| ensures Reduced(ring, size)[i] == ring[i] {
      assert 0 <= Positions(ring)[i] < size;
      SmallMod(ring[i].pos, size);
    }
  }

  /** At least as even as a greedy plan and, for few nodes, as every placement on its positions. */
  ghost predicate BestOf(ring: seq<Node>, placed: seq<Node>, plan: seq<Node>, nodes: seq<NewNode>, size: nat, rf: nat) {
    && NoLessEven(ring, placed, plan, size, rf)
    && (|nodes| <= PLACE_SEARCH ==>
          forall p :: IsPlacement(p, Positions(plan), nodes) ==> NoLessEven(ring, placed, p, size, rf))
  }

  /** What holds of a plan holds of one with the same racks on the same positions. */
  lemma {:induction false} SameBaresSameBest(ring: seq<Node>, placed: seq<Node>, plan: seq<Node>, other: seq<Node>,
        nodes: seq<NewNode>, size: nat, rf: nat)
    requires Fits(ring, plan, nodes, size) && Fits(ring, other, nodes, size)
    requires multiset(Bares(plan)) == multiset(Bares(other)) && BestOf(ring, placed, plan, nodes, size, rf)
    ensures BestOf(ring, placed, other, nodes, size, rf)
  {
    PlacementSound(ring, plan, Positions(plan), nodes, size);
    PlacementSound(ring, other, Positions(other), nodes, size);
    SameBaresSameKey(ring, plan, other, size, rf);
    BaresPositions(plan, other);
    SamePlacements(plan, other, nodes);
  }

  lemma {:induction false} BaresPositions(a: seq<Node>, b: seq<Node>)
    requires multiset(Bares(a)) == multiset(Bares(b))
    ensures multiset(Positions(a)) == multiset(Positions(b))
  {
    PositionsMultiset(Bares(a), Bares(b));
    assert Positions(Bares(a)) == Positions(a) && Positions(Bares(b)) == Positions(b);
  }

  lemma {:induction false} SamePlacements(plan: seq<Node>, other: seq<Node>, nodes: seq<NewNode>)
    requires multiset(Positions(plan)) == multiset(Positions(other))
    ensures forall p :: IsPlacement(p, Positions(other), nodes) ==> IsPlacement(p, Positions(plan), nodes)
  {
  }

  lemma {:induction false} LowerIsBest(ring: seq<Node>, lower: seq<Node>, placed: seq<Node>, plan: seq<Node>,
        nodes: seq<NewNode>, size: nat, rf: nat)
    requires Sound(ring + lower, size) && NoLessEven(ring, lower, placed, size, rf)
    requires BestOf(ring, placed, plan, nodes, size, rf)
    ensures BestOf(ring, lower, plan, nodes, size, rf)
  {
    LowerStill(ring, lower, placed, plan, size, rf);
    if |nodes| <= PLACE_SEARCH {
      forall p | IsPlacement(p, Positions(plan), nodes) ensures NoLessEven(ring, lower, p, size, rf) {
        LowerStill(ring, lower, placed, p, size, rf);
      }
    }
  }

  lemma {:induction false} LowerStill(ring: seq<Node>, lower: seq<Node>, placed: seq<Node>, p: seq<Node>, size: nat,
        rf: nat)
    requires NoLessEven(ring, lower, placed, size, rf) && NoLessEven(ring, placed, p, size, rf)
    ensures NoLessEven(ring, lower, p, size, rf)
  {
    if Sound(ring + p, size) {
      AtMostTrans(PlacedKey(ring, lower, size, rf), PlacedKey(ring, placed, size, rf), PlacedKey(ring, p, size, rf));
    }
  }

  /** The best so far, after the first i greedy plans. */
  ghost predicate BestSoFar(ring: seq<Node>, best: seq<Node>, plans: seq<seq<Node>>, i: nat, nodes: seq<NewNode>,
        size: nat, rf: nat)
    requires i <= |plans|
  {
    && NewPlan(ring, best, nodes, size) && Sound(ring + best, size)
    && forall j :: 0 <= j < i ==> BestOf(ring, best, plans[j], nodes, size, rf)
  }

  ghost predicate SeenAs(m: multiset<Node>, plans: seq<seq<Node>>, i: nat)
    requires i <= |plans|
  {
    exists j :: 0 <= j < i && multiset(Bares(plans[j])) == m
  }

  /** The plans already placed, as racks on positions. */
  ghost predicate SeenSoFar(seen: set<multiset<Node>>, plans: seq<seq<Node>>, i: nat)
    requires i <= |plans|
  {
    forall m :: m in seen ==> SeenAs(m, plans, i)
  }

  lemma {:induction false} SeenLater(m: multiset<Node>, plans: seq<seq<Node>>, i: nat)
    requires i < |plans| && (SeenAs(m, plans, i) || m == multiset(Bares(plans[i])))
    ensures SeenAs(m, plans, i + 1)
  {
    if SeenAs(m, plans, i) {
      var j :| 0 <= j < i && multiset(Bares(plans[j])) == m;
      assert j < i + 1;
    } else {
      assert i < i + 1;
    }
  }

  lemma {:induction false} SeenMore(seen: set<multiset<Node>>, plans: seq<seq<Node>>, i: nat)
    requires i < |plans| && SeenSoFar(seen, plans, i)
    ensures SeenSoFar(seen, plans, i + 1)
    ensures SeenSoFar(seen + {multiset(Bares(plans[i]))}, plans, i + 1)
  {
    forall m | m in seen + {multiset(Bares(plans[i]))} ensures SeenAs(m, plans, i + 1) {
      SeenLater(m, plans, i);
    }
  }

  /** A plan skipped because it was seen: nothing is lost. */
  lemma {:induction false} SeenBefore(ring: seq<Node>, best: seq<Node>, plans: seq<seq<Node>>, i: nat,
        nodes: seq<NewNode>, size: nat, rf: nat)
    requires i < |plans| && forall j :: 0 <= j < |plans| ==> Fits(ring, plans[j], nodes, size)
    requires BestSoFar(ring, best, plans, i, nodes, size, rf) && SeenAs(multiset(Bares(plans[i])), plans, i)
    ensures BestSoFar(ring, best, plans, i + 1, nodes, size, rf)
  {
    var j :| 0 <= j < i && multiset(Bares(plans[j])) == multiset(Bares(plans[i]));
    SameBaresSameBest(ring, best, plans[j], plans[i], nodes, size, rf);
    OneMore(ring, best, plans, i, nodes, size, rf);
  }

  lemma {:induction false} OneMore(ring: seq<Node>, best: seq<Node>, plans: seq<seq<Node>>, i: nat,
        nodes: seq<NewNode>, size: nat, rf: nat)
    requires i < |plans| && BestSoFar(ring, best, plans, i, nodes, size, rf) &&
        BestOf(ring, best, plans[i], nodes, size, rf)
    ensures BestSoFar(ring, best, plans, i + 1, nodes, size, rf)
  {
  }

  lemma {:induction false} PlacedIsNew(ring: seq<Node>, placed: seq<Node>, plan: seq<Node>, nodes: seq<NewNode>,
        size: nat)
    requires Fits(ring, plan, nodes, size) && IsPlacement(placed, Positions(plan), nodes)
    ensures NewPlan(ring, placed, nodes, size) && Sound(ring + placed, size)
  {
    PlacementSound(ring, placed, Positions(plan), nodes, size);
    PlacementIsPart(placed, Positions(plan), nodes);
    forall i | 0 <= i < |placed| ensures 0 <= Positions(placed)[i] < size {
      assert Positions(placed)[i] in multiset(Positions(plan));
    }
    forall b, n | b in ring && n in placed ensures b.pos != n.pos {
      var i :| 0 <= i < |placed| && placed[i] == n;
      assert Positions(placed)[i] in multiset(Positions(plan));
    }
  }

  /** The new placement is kept, or the one before: the more even of the two. */
  lemma {:induction false} BetterOfTwo(ring: seq<Node>, best: seq<Node>, placed: seq<Node>, plans: seq<seq<Node>>,
        i: nat, nodes: seq<NewNode>, size: nat, rf: nat)
    requires i < |plans| && BestSoFar(ring, best, plans, i, nodes, size, rf)
    requires NewPlan(ring, placed, nodes, size) && Sound(ring + placed, size)
    requires BestOf(ring, placed, plans[i], nodes, size, rf)
    ensures Less(PlacedKey(ring, placed, size, rf), PlacedKey(ring, best, size, rf)) ==>
              BestSoFar(ring, placed, plans, i + 1, nodes, size, rf)
    ensures !Less(PlacedKey(ring, placed, size, rf), PlacedKey(ring, best, size, rf)) ==>
              BestSoFar(ring, best, plans, i + 1, nodes, size, rf)
  {
    var keyPlaced, keyBest := PlacedKey(ring, placed, size, rf), PlacedKey(ring, best, size, rf);
    LessIsAtMost(keyPlaced, keyBest);
    KeyTotal(keyPlaced, keyBest);
    LessIsAtMost(keyBest, keyPlaced);
    if Less(keyPlaced, keyBest) {
      KeepPlaced(ring, best, placed, plans, i, nodes, size, rf);
    } else {
      LowerIsBest(ring, best, placed, plans[i], nodes, size, rf);
      OneMore(ring, best, plans, i, nodes, size, rf);
    }
  }

  lemma {:induction false} KeepPlaced(ring: seq<Node>, best: seq<Node>, placed: seq<Node>, plans: seq<seq<Node>>,
        i: nat, nodes: seq<NewNode>, size: nat, rf: nat)
    requires i < |plans| && BestSoFar(ring, best, plans, i, nodes, size, rf)
    requires NewPlan(ring, placed, nodes, size) && Sound(ring + placed, size)
    requires BestOf(ring, placed, plans[i], nodes, size, rf) && NoLessEven(ring, placed, best, size, rf)
    ensures BestSoFar(ring, placed, plans, i + 1, nodes, size, rf)
  {
    forall j | 0 <= j < i ensures BestOf(ring, placed, plans[j], nodes, size, rf) {
      LowerIsBest(ring, placed, best, plans[j], nodes, size, rf);
    }
    OneMore(ring, placed, plans, i, nodes, size, rf);
  }

  /** The racks of a greedy plan reordered on its positions. */
  method PlaceAgain(ring: seq<Node>, plan: seq<Node>, nodes: seq<NewNode>, size: nat, rf: nat)
      returns (placed: seq<Node>)
    requires Fits(ring, plan, nodes, size)
    ensures NewPlan(ring, placed, nodes, size) && Sound(ring + placed, size) &&
        BestOf(ring, placed, plan, nodes, size, rf)
  {
    placed := Place(ring, Positions(plan), nodes, size, rf, Some(plan));
    PlacedIsNew(ring, placed, plan, nodes, size);
  }

  lemma {:induction false} FirstBest(ring: seq<Node>, best: seq<Node>, plans: seq<seq<Node>>, nodes: seq<NewNode>,
        size: nat, rf: nat)
    requires plans != [] && NewPlan(ring, best, nodes, size) && Sound(ring + best, size)
    requires BestOf(ring, best, plans[0], nodes, size, rf)
    ensures BestSoFar(ring, best, plans, 1, nodes, size, rf)
  {
  }

  method BestPlan(ring: seq<Node>, plans: seq<seq<Node>>, nodes: seq<NewNode>, size: nat, rf: nat)
      returns (best: seq<Node>)
    requires plans != [] && forall j :: 0 <= j < |plans| ==> Fits(ring, plans[j], nodes, size)
    ensures BestSoFar(ring, best, plans, |plans|, nodes, size, rf)
  {
    best := PlaceAgain(ring, plans[0], nodes, size, rf);
    FirstBest(ring, best, plans, nodes, size, rf);
    var bestKey := BalanceKey(ring + best, size, rf);
    var seen := {} + {multiset(Bares(plans[0]))};
    SeenMore({}, plans, 0);
    var i := 1;
    while i < |plans|
      invariant 1 <= i <= |plans|
      invariant BestSoFar(ring, best, plans, i, nodes, size, rf) && bestKey == PlacedKey(ring, best, size, rf)
      invariant SeenSoFar(seen, plans, i)
    {
      SeenMore(seen, plans, i);
      if multiset(Bares(plans[i])) in seen {
        SeenBefore(ring, best, plans, i, nodes, size, rf);
      } else {
        seen := seen + {multiset(Bares(plans[i]))};
        var placed := PlaceAgain(ring, plans[i], nodes, size, rf);
        var key := BalanceKey(ring + placed, size, rf);
        BetterOfTwo(ring, best, placed, plans, i, nodes, size, rf);
        if Less(key, bestKey) { best, bestKey := placed, key; }
      }
      i := i + 1;
    }
  }

  /** New nodes beside a ring, no node moved: refused exactly when two nodes share
      a token or the circle is too small; else each new node on a free position,
      and never less even than any of the three greedy plans. */
  method PlanBisect(ring: seq<Node>, nodes: seq<NewNode>, size: nat, rf: nat)
    returns (r: Result<seq<Node>>, ghost first: seq<Node>, ghost second: seq<Node>, ghost third: seq<Node>)
    requires Joining(ring, nodes, size)
    ensures r.TokenError? <==> !Distinct(Positions(ring)) || |ring| + |nodes| > size
    ensures r.Ok? ==> NewPlan(ring, r.value, nodes, size)
    ensures r.Ok? ==> GreedyPlan(ring, first, nodes, size, rf, false) && BestOf(ring, r.value, first, nodes, size, rf)
    ensures r.Ok? ==> GreedyPlan(ring, second, nodes, size, rf, true) && BestOf(ring, r.value, second, nodes, size, rf)
    ensures r.Ok? ==> SplitPlan(ring, third, nodes, size) && BestOf(ring, r.value, third, nodes, size, rf)
  {
    first, second, third := [], [], [];
    RefusedTwice(ring, size);
    if SortedRing(ring, size).TokenError? { return TokenError, first, second, third; }
    ghost var spots: seq<int>;
    var evenMost, largestOnly, largestRange: Result<seq<Node>>;
    evenMost, spots := GreedyBisect(ring, nodes, size, rf, false);
    if evenMost.TokenError? { return TokenError, first, second, third; }
    GrownFits(ring, spots, nodes, size);
    largestOnly, spots := GreedyBisect(ring, nodes, size, rf, true);
    if largestOnly.TokenError? { return TokenError, first, second, third; }
    GrownFits(ring, spots, nodes, size);
    largestRange, spots := SplitLargest(ring, nodes, size);
    if largestRange.TokenError? { return TokenError, first, second, third; }
    SplitGrown(ring, spots, nodes, size);
    GrownFits(ring, spots, nodes, size);
    first, second, third := evenMost.value, largestOnly.value, largestRange.value;
    var plans := [evenMost.value, largestOnly.value, largestRange.value];
    var best := BestPlan(ring, plans, nodes, size, rf);
    assert plans[0] == first && plans[1] == second && plans[2] == third;
    r := Ok(best);
  }

  lemma {:induction false} RefusedTwice(ring: seq<Node>, size: nat)
    requires size > 0 && OnCircle(Positions(ring), size)
    ensures SortedRing(ring, size).Ok? <==> Distinct(Positions(ring))
  {
    SameReduced(ring, size);
    SortedRingSpec(ring, size);
  }
}
