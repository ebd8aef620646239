/** Beside datacenters whose nodes have several tokens: from the cluster and the targets
    alone, when a plan puts two nodes on one token. */
module HiddenTokens {
  import opened Arith
  import opened Lists
  import opened Ring
  import opened Balanced
  import opened Placement
  import opened FreeSpots
  import opened Spacing
  import opened Rebalance
  import opened MoveOrder
  import opened RebalanceOrder
  import opened Cluster
  import opened OperatorMoves
  import opened EvenOut
  import opened MovePlan

  // ----- targets of the operator -----

  /** The moves of a datacenter that run: those asked for and not refused, or none. */
  ghost function RunSet(dc: Datacenter, where: Places, targets: map<Name, Result<int>>, size: nat): set<Move>
    requires size > 0
  {
    var moves := WantedSet(where, Members(dc), targets);
    if Plannable(dc) && !Blocks(PlacesOf(dc.ring), moves, size) then moves else {}
  }

  /** Nodes with a move are on their targets, the others where they were. */
  ghost function MovedAll(where: Places, moves: set<Move>, targets: map<Name, Result<int>>): Places {
    map n | n in where ::
      if n in targets && targets[n].Ok? && Move(n, where[n], targets[n].value) in moves then targets[n].value
      else where[n]
  }

  /** Where the planner believes the nodes are when it comes to datacenter k. */
  ghost function WhereBefore(dcs: seq<Datacenter>, targets: map<Name, Result<int>>, size: nat, k: nat): Places
    requires size > 0 && k <= |dcs|
  {
    if k == 0 then WhereOf(dcs)
    else
      var where := WhereBefore(dcs, targets, size, k - 1);
      MovedAll(where, RunSet(dcs[k - 1], where, targets, size), targets)
  }

  /** Some move that runs is onto a token the planner does not see. */
  ghost predicate HitsHidden(dcs: seq<Datacenter>, targets: map<Name, Result<int>>, size: nat)
    requires size > 0
  {
    exists i, mv: Move :: 0 <= i < |dcs| && mv.dst in Hidden(Entries(dcs))
                    && mv in RunSet(dcs[i], WhereBefore(dcs, targets, size, i), targets, size)
  }

  /** Every move of the run is the one its node's target asks for. */
  ghost predicate AsAsked(run: seq<Move>, targets: map<Name, Result<int>>, size: nat)
    requires size > 0
  {
    forall mv :: mv in run ==> mv.name in targets && targets[mv.name] == Ok(mv.dst) && mv.dst % size == mv.dst
  }

  lemma {:induction false} AfterRun(where: Places, run: seq<Move>, targets: map<Name, Result<int>>, size: nat)
    requires size > 0 && AsAsked(run, targets, size) && forall mv :: mv in run ==> mv.name in where
    ensures var after := After(where, run, size);
            && after.Keys == where.Keys
            && (forall mv :: mv in run ==> after[mv.name] == mv.dst)
            && forall n :: n in where && (forall mv :: mv in run ==> mv.name != n) ==> after[n] == where[n]
    decreases |run|
  {
    if run != [] {
      assert run == [run[0]] + run[1..];
      AfterRun(Apply(where, run[0], size), run[1..], targets, size);
      var after := After(where, run, size);
      if exists mv :: mv in run[1..] && mv.name == run[0].name {
        var mv :| mv in run[1..] && mv.name == run[0].name;
        assert after[mv.name] == mv.dst == run[0].dst;
      }
    }
  }

  lemma {:induction false} AfterIsMovedAll(where: Places, run: seq<Move>, moves: set<Move>,
        targets: map<Name, Result<int>>, size: nat)
    requires size > 0 && AsAsked(run, targets, size) && SetOf(run) == moves
    requires forall mv :: mv in moves ==> mv.name in where && mv.src == where[mv.name]
    ensures After(where, run, size) == MovedAll(where, moves, targets)
  {
    forall mv | mv in run ensures mv.name in where { assert mv in moves; }
    AfterRun(where, run, targets, size);
    var after := After(where, run, size);
    forall n | n in where ensures after[n] == MovedAll(where, moves, targets)[n] {
      if exists mv :: mv in run && mv.name == n {
        var mv :| mv in run && mv.name == n;
        assert mv in moves && mv == Move(n, where[n], targets[n].value);
      } else if n in targets && targets[n].Ok? {
        assert Move(n, where[n], targets[n].value) !in moves;
      }
    }
  }

  /** What a datacenter's plan is when the operator gives targets. */
  lemma {:induction false} PlanRunSet(plan: DcPlan, dc: Datacenter, where: Places, targets: map<Name, Result<int>>,
        size: nat)
    requires size > 0 && OnTheCircle(targets, size) && targets != map[] && IsDcPlan(plan, dc, where, targets, size)
    ensures SetOf(plan.steps) == RunSet(dc, where, targets, size)
    ensures AsAsked(plan.steps, targets, size)
    ensures After(where, plan.steps, size) == MovedAll(where, RunSet(dc, where, targets, size), targets)
  {
    var moves := WantedSet(where, Members(dc), targets);
    forall mv: Move ensures mv in moves ==> IsWanted(mv, where, Members(dc), targets) {
      WantedSetIs(where, Members(dc), targets, mv);
    }
    if !Asked(dc, targets) {
      assert moves == {};
    }
    forall mv | mv in plan.steps
      ensures mv in moves && mv.name in targets && targets[mv.name] == Ok(mv.dst) && mv.dst % size == mv.dst
    {
      assert mv in SetOf(plan.steps);
      SmallMod(mv.dst, size);
    }
    AfterIsMovedAll(where, plan.steps, RunSet(dc, where, targets, size), targets, size);
  }

  lemma {:induction false} WhereMore(dcs: seq<Datacenter>, plans: seq<DcPlan>, k: nat, size: nat)
    requires size > 0 && k < |plans|
    ensures WhereAfter(dcs, plans, k + 1, size) == After(WhereAfter(dcs, plans, k, size), plans[k].steps, size)
  {
    StepsMore(plans, k);
    AfterBoth(WhereOf(dcs), AllSteps(plans[..k]), plans[k].steps, size);
  }

  lemma {:induction false} BeforeMore(dcs: seq<Datacenter>, targets: map<Name, Result<int>>, size: nat, k: nat,
        plan: DcPlan, where: Places)
    requires size > 0 && OnTheCircle(targets, size) && targets != map[] && k < |dcs|
    requires where == WhereBefore(dcs, targets, size, k) && IsDcPlan(plan, dcs[k], where, targets, size)
    ensures After(where, plan.steps, size) == WhereBefore(dcs, targets, size, k + 1)
  {
    PlanRunSet(plan, dcs[k], where, targets, size);
  }

  ghost predicate AsBefore(dcs: seq<Datacenter>, plans: seq<DcPlan>, targets: map<Name, Result<int>>, size: nat, k: nat)
    requires size > 0 && k <= |plans| <= |dcs|
  {
    WhereAfter(dcs, plans, k, size) == WhereBefore(dcs, targets, size, k)
  }

  lemma {:induction false} WhereIsMore(dcs: seq<Datacenter>, plans: seq<DcPlan>, targets: map<Name, Result<int>>,
        size: nat, k: nat)
    requires size > 0 && OnTheCircle(targets, size) && PlannedBy(plans, dcs, targets, size) && targets != map[]
    requires k < |plans| && AsBefore(dcs, plans, targets, size, k)
    ensures AsBefore(dcs, plans, targets, size, k + 1)
  {
    WhereMore(dcs, plans, k, size);
    BeforeMore(dcs, targets, size, k, plans[k], WhereAfter(dcs, plans, k, size));
  }

  lemma {:induction false} WhereIsBefore(dcs: seq<Datacenter>, plans: seq<DcPlan>, targets: map<Name, Result<int>>,
        size: nat, k: nat)
    requires size > 0 && OnTheCircle(targets, size) && PlannedBy(plans, dcs, targets, size) && targets != map[]
    requires k <= |plans|
    ensures AsBefore(dcs, plans, targets, size, k)
    decreases k
  {
    if k == 0 {
      assert plans[..0] == [];
    } else {
      WhereIsBefore(dcs, plans, targets, size, k - 1);
      WhereIsMore(dcs, plans, targets, size, k - 1);
    }
  }

  lemma {:induction false} StepOf(plans: seq<DcPlan>, mv: Move, k: nat)
    requires k <= |plans|
    ensures mv in AllSteps(plans[..k]) <==> exists i :: 0 <= i < k && mv in plans[i].steps
  {
    if k > 0 {
      StepOf(plans, mv, k - 1);
      StepsMore(plans, k - 1);
    }
  }

  /** With targets of the operator, two nodes come to share a token exactly when some move
      that runs is onto a token of a several-token node other than its last one. */
  lemma {:induction false} TargetsAreExact(dcs: seq<Datacenter>, plans: seq<DcPlan>, targets: map<Name, Result<int>>,
        size: nat)
    requires Running(dcs, size) && OnTheCircle(targets, size) && targets != map[]
    requires PlannedBy(plans, dcs, targets, size) && |plans| == |dcs|
    ensures NeverShared(TokensOf(Entries(dcs)), AllSteps(plans), size) <==> !HitsHidden(dcs, targets, size)
  {
    UniqueUnlessHidden(dcs, plans, targets, size);
    assert plans[..|plans|] == plans;
    forall mv: Move ensures mv in AllSteps(plans) <==>
        exists i :: 0 <= i < |dcs| && mv in RunSet(dcs[i], WhereBefore(dcs, targets, size, i), targets, size)
    {
      StepOf(plans, mv, |plans|);
      forall i | 0 <= i < |dcs|
        ensures mv in plans[i].steps <==>
                mv in RunSet(dcs[i], WhereBefore(dcs, targets, size, i), targets, size)
      {
        StepIs(dcs, plans, targets, size, i, mv);
      }
    }
    forall mv | mv in AllSteps(plans) ensures mv.dst % size == mv.dst {
      StepOf(plans, mv, |plans|);
      var i :| 0 <= i < |plans| && mv in plans[i].steps;
      StepIs(dcs, plans, targets, size, i, mv);
    }
  }

  lemma {:induction false} StepIs(dcs: seq<Datacenter>, plans: seq<DcPlan>, targets: map<Name, Result<int>>, size: nat,
        i: nat, mv: Move)
    requires size > 0 && OnTheCircle(targets, size) && PlannedBy(plans, dcs, targets, size) && targets != map[]
    requires i < |plans|
    ensures mv in plans[i].steps <==> mv in RunSet(dcs[i], WhereBefore(dcs, targets, size, i), targets, size)
    ensures mv in plans[i].steps ==> mv.dst % size == mv.dst
  {
    WhereIsBefore(dcs, plans, targets, size, i);
    PlanRunSet(plans[i], dcs[i], WhereAfter(dcs, plans, i, size), targets, size);
    assert mv in plans[i].steps <==> mv in SetOf(plans[i].steps);
  }

  // ----- targets worked out -----

  /** A spacing the search may choose starts there: at the convention or at a node. */
  ghost predicate MayStart(off: int, dc: Datacenter, size: nat)
    requires dc.ring != [] && |dc.ring| <= size
  {
    BigEnough(dc, size);
    off == dc.offset % (size / |dc.ring|) || IsOwn(off, Positions(dc.ring), size / |dc.ring|)
  }

  lemma {:induction false} BigEnough(dc: Datacenter, size: nat)
    requires dc.ring != [] && |dc.ring| <= size
    ensures size / |dc.ring| > 0
  {
    DivAtLeast(size, |dc.ring|, 1);
  }

  /** The position is a target of the datacenter, or one of the n - 1 after it. */
  ghost predicate WithinReach(t: int, dc: Datacenter, n: nat, size: nat)
    requires dc.ring != [] && |dc.ring| <= size
  {
    exists off, j, d: nat ::
      MayStart(off, dc, size) && 0 <= j < |dc.ring| && d < n && t == On(Target(j, |dc.ring|, size, off), d, size)
  }

  /** No token the planner does not see is within reach of a datacenter it plans. */
  ghost predicate HiddenFar(dcs: seq<Datacenter>, size: nat)
    requires Running(dcs, size)
  {
    forall i, t :: 0 <= i < |dcs| && Plannable(dcs[i]) && t in Hidden(Entries(dcs)) ==>
      !WithinReach(t, dcs[i], |WhereOf(dcs)|, size)
  }

  /** A target of a balanced plan, on the sorted ring. */
  lemma {:induction false} PlanTargetOf(plan: BalancedPlan, p: Plan, pts: seq<Node>, size: nat, rf: nat, offset: int,
        mv: Move)
      returns (j: int)
    requires GoodPlan(plan, p, pts, [], size, rf, offset) && mv in plan.moves
    ensures 0 <= j < |pts| && mv.dst == Target(j, |pts|, size, p.off)
  {
    var m, tol := |pts|, Tolerance(|pts|, size);
    var i := MoverOf(pts, Targets(p, m, size), p.picks, size, tol, mv);
    j := p.picks[i];
  }

  lemma {:induction false} PlanStart(p: Plan, pts: seq<Node>, m: nat, size: nat, offset: int, tol: nat)
    requires Cheapest(p, pts, m, size, offset, tol)
    ensures p.off == offset % (size / m) || IsOwn(p.off, Positions(pts), size / m)
  {
    var offs :| Spacings(offs, Positions(pts), offset, size / m, tol) && p.rank < |offs| && p.off == offs[p.rank];
    assert offs[p.rank] in offs;
  }

  /** A target of a balanced plan is one of a spacing that may be chosen. */
  lemma {:induction false} TargetOf(plan: BalancedPlan, p: Plan, dc: Datacenter, pts: seq<Node>, size: nat, mv: Move)
      returns (j: int)
    requires dc.ring != [] && |dc.ring| <= size && multiset(pts) == multiset(dc.ring) && |pts| == |dc.ring|
    requires GoodPlan(plan, p, pts, [], size, dc.rf, dc.offset) && mv in plan.moves
    ensures MayStart(p.off, dc, size) && 0 <= j < |dc.ring| && mv.dst == Target(j, |dc.ring|, size, p.off)
  {
    BigEnough(dc, size);
    j := PlanTargetOf(plan, p, pts, size, dc.rf, dc.offset, mv);
    PlanStart(p, pts, |pts|, size, dc.offset, Tolerance(|pts|, size));
    if IsOwn(p.off, Positions(pts), size / |pts|) { SameOwn(pts, dc.ring, p.off, size / |pts|); }
  }

  lemma {:induction false} SameOwn(a: seq<Node>, b: seq<Node>, off: int, spacing: nat)
    requires spacing > 0 && multiset(a) == multiset(b) && IsOwn(off, Positions(a), spacing)
    ensures IsOwn(off, Positions(b), spacing)
  {
    var i :| 0 <= i < |a| && Positions(a)[i] % spacing == off;
    assert a[i] in multiset(b);
    var k :| 0 <= k < |b| && b[k] == a[i];
    assert Positions(b)[k] % spacing == off;
  }

  lemma {:induction false} SpotReach(planned: seq<Move>, dc: Datacenter, where: Places, size: nat, mv: Move, spot: int,
        n: nat)
    requires Standing(dc, where, size) && Inside(where, size) && AllApart(where) && IsEvenPlan(planned, dc, size)
    requires size > 0 && mv in planned && NearTarget(spot, mv, size, n)
    ensures WithinReach(spot, dc, n, size)
  {
    StandingSound(dc, where, size);
    SortedRingSpec(dc.ring, size);
    var pts := SortedRing(dc.ring, size).value;
    var plan, p :| GoodPlan(plan, p, pts, [], size, dc.rf, dc.offset) && plan.moves == planned;
    assert |multiset(pts)| == |pts| && |multiset(dc.ring)| == |dc.ring|;
    var j := TargetOf(plan, p, dc, pts, size, mv);
    var d: nat :| d < n && spot == On(mv.dst, d, size);
  }

  lemma {:induction false} NudgedReach(moves: seq<Move>, planned: seq<Move>, spots: seq<int>, dc: Datacenter,
        where: Places, size: nat, mv: Move)
    requires Standing(dc, where, size) && Inside(where, size) && AllApart(where) && size > 0
    requires NudgedPlan(moves, planned, spots, dc, where, size) && mv in moves
    ensures WithinReach(mv.dst % size, dc, |where|, size)
  {
    var k :| 0 <= k < |moves| && moves[k] == mv;
    EvenPlanTargets(planned, dc, where, size);
    NudgeIsNear(planned, spots, dc, where, size, |where|);
    assert NearTarget(spots[k], planned[k], size, |where|);
    SpotReach(planned, dc, where, size, planned[k], spots[k], |where|);
    NudgedSmall(planned[k], spots[k], size, |where|);
  }

  lemma {:induction false} NudgedSmall(mv: Move, spot: int, size: nat, n: nat)
    requires size > 0 && NearTarget(spot, mv, size, n)
    ensures spot % size == spot
  {
    SmallMod(spot, size);
  }

  lemma {:induction false} EvenedReach(plan: DcPlan, dc: Datacenter, where: Places, size: nat, mv: Move)
    requires Standing(dc, where, size) && Inside(where, size) && AllApart(where) && size > 0
    requires IsEvened(plan, dc, where, size) && mv in plan.steps
    ensures WithinReach(mv.dst % size, dc, |where|, size)
  {
    var moves: seq<Move>, planned: seq<Move>, spots: seq<int> :|
      NudgedPlan(moves, planned, spots, dc, where, size) && IsEvenStep(plan, moves, dc, size);
    StepIsMove(plan, moves, dc, size, mv);
    NudgedReach(moves, planned, spots, dc, where, size, mv);
  }

  lemma {:induction false} StepIsMove(plan: DcPlan, moves: seq<Move>, dc: Datacenter, size: nat, mv: Move)
    requires size > 0 && IsEvenStep(plan, moves, dc, size) && mv in plan.steps
    ensures mv in moves
  {
    assert mv in SetOf(plan.steps);
    assert mv in SetOf(moves);
  }

  /** Worked out, no two nodes ever share a token when no token the planner does not see is
      within reach: at a target or fewer positions after it than the cluster has nodes. */
  lemma {:induction false} FarIsEnough(dcs: seq<Datacenter>, plans: seq<DcPlan>, size: nat)
    requires Running(dcs, size) && PlannedBy(plans, dcs, map[], size) && HiddenFar(dcs, size)
    ensures NeverShared(TokensOf(Entries(dcs)), AllSteps(plans), size)
  {
    UniqueUnlessHidden(dcs, plans, map[], size);
    assert plans[..|plans|] == plans;
    forall mv | mv in AllSteps(plans) ensures mv.dst % size !in Hidden(Entries(dcs)) {
      StepOf(plans, mv, |plans|);
      var i :| 0 <= i < |plans| && mv in plans[i].steps;
      StepReach(dcs, plans, size, i, mv);
    }
  }

  lemma {:induction false} StepReach(dcs: seq<Datacenter>, plans: seq<DcPlan>, size: nat, i: nat, mv: Move)
    requires Running(dcs, size) && PlannedBy(plans, dcs, map[], size) && i < |plans| && mv in plans[i].steps
    ensures Plannable(dcs[i]) && WithinReach(mv.dst % size, dcs[i], |WhereOf(dcs)|, size)
  {
    var where := WhereAfter(dcs, plans, i, size);
    PlannedIsSafe(dcs, plans, i, map[], size);
    assert IsDcPlan(plans[i], dcs[i], where, map[], size);
    assert |where.Keys| == |WhereOf(dcs).Keys|;
    EvenedReach(plans[i], dcs[i], where, size, mv);
  }
}
