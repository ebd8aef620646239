/** The move plan of a whole cluster: datacenter by datacenter, worked out or
    given by the operator, and when it never puts two nodes on one token. */
module MovePlan {
  import opened Lists
  import opened Arith
  import opened Ring
  import opened Shares
  import opened Balanced
  import opened Evenness
  import opened Placement
  import opened MoveOrder
  import opened MoveSafety
  import opened Rebalance
  import opened RebalanceOrder
  import opened Cluster
  import opened OperatorMoves
  import opened EvenOut

  /** The steps of a datacenter and whether it has a problem. */
  datatype DcPlan = DcPlan(steps: seq<Move>, problem: bool)

  // ----- what the plan of a datacenter is -----

  /** All the moves, in the one order there is; no step, and a problem, when they block each other. */
  ghost predicate RunsOrBlocks(plan: DcPlan, moves: set<Move>, dc: Datacenter, refused: bool, size: nat)
    requires size > 0
  {
    if Blocks(PlacesOf(dc.ring), moves, size) then plan == DcPlan([], true)
    else Completes(PlacesOf(dc.ring), moves, plan.steps, size) && plan.problem == refused
  }

  /** The operator's part: the moves asked for that are not refused. */
  ghost predicate IsWantedPlan(plan: DcPlan, dc: Datacenter, where: Places, targets: map<Name, Result<int>>, size: nat)
    requires size > 0
  {
    RunsOrBlocks(plan, WantedSet(where, Members(dc), targets), dc, SomeRefused(where, Members(dc), targets), size)
  }

  ghost predicate SomeRefused(where: Places, members: set<Name>, targets: map<Name, Result<int>>) {
    exists n :: IsRefused(n, where, members, targets)
  }

  /** The moves bring the shares of the datacenter closer, for some replication factor. */
  ghost predicate Helps(moves: seq<Move>, dc: Datacenter, size: nat) {
    && Sound(dc.ring, size) && Sound(Moved(dc.ring, moves), size)
    && Improves(Moved(dc.ring, moves), dc.ring, size, dc.rfs)
  }

  /** The worked out part: the moves, or none when there are none or they do not help. */
  ghost predicate IsEvenStep(plan: DcPlan, moves: seq<Move>, dc: Datacenter, size: nat)
    requires size > 0
  {
    && (moves == [] || Sound(Moved(dc.ring, moves), size))
    && if moves == [] || !Helps(moves, dc, size) then plan == DcPlan([], false)
       else RunsOrBlocks(plan, SetOf(moves), dc, false, size)
  }

  ghost predicate IsEvened(plan: DcPlan, dc: Datacenter, where: Places, size: nat)
    requires size > 0
  {
    exists moves, planned, spots ::
        NudgedPlan(moves, planned, spots, dc, where, size) && IsEvenStep(plan, moves, dc, size)
  }

  /** Some member of the datacenter is asked to move. */
  predicate Asked(dc: Datacenter, targets: map<Name, Result<int>>) {
    exists n :: n in targets && n in Members(dc)
  }

  /** The plan of one datacenter: none when the targets are of others, when a node has
      several tokens, or when one is joining or leaving. */
  ghost predicate IsDcPlan(plan: DcPlan, dc: Datacenter, where: Places, targets: map<Name, Result<int>>, size: nat)
    requires size > 0
  {
    if targets != map[] && !Asked(dc, targets) then plan == DcPlan([], false)
    else if !Single(dc) then plan == DcPlan([], Asked(dc, targets))
    else if !dc.normal then plan == DcPlan([], true)
    else if Asked(dc, targets) then IsWantedPlan(plan, dc, where, targets, size)
    else IsEvened(plan, dc, where, size)
  }

  // ----- the plan of a datacenter, worked out -----

  /** Steps of a datacenter that are safe for the whole cluster as the planner believes it. */
  ghost predicate SafeSteps(steps: seq<Move>, dc: Datacenter, where: Places, size: nat)
    requires size > 0
  {
    && SafeReplay(where, steps, size)
    && Inside(After(where, steps, size), size) && AllApart(After(where, steps, size))
    && OnlyMoves(where, After(where, steps, size), Members(dc))
    && forall mv :: mv in steps ==> mv.name in Members(dc)
  }

  /** Targets of the operator, where they can be read, are positions of the circle. */
  ghost predicate OnTheCircle(targets: map<Name, Result<int>>, size: nat) {
    forall n :: n in targets && targets[n].Ok? ==> 0 <= targets[n].value < size
  }

  /** The moves of a datacenter in order; a problem exactly when they block each other. */
  method OrderInCluster(dc: Datacenter, moves: seq<Move>, refused: bool, size: nat) returns (plan: DcPlan)
    requires size > 0 && DistinctMovers(moves)
    ensures RunsOrBlocks(plan, SetOf(moves), dc, refused, size)
  {
    var r, done := OrderMoves(PlacesOf(dc.ring), moves, size);
    plan := if r.Ok? then DcPlan(r.value, refused) else DcPlan([], true);
  }

  /** Whether the moves bring the shares closer; an error exactly when two nodes would share a token. */
  method HelpsAtAll(dc: Datacenter, moves: seq<Move>, ghost where: Places, size: nat) returns (r: Result<bool>)
    requires Standing(dc, where, size) && Inside(where, size) && AllApart(where)
    ensures r.Ok? <==> Sound(Moved(dc.ring, moves), size)
    ensures r.Ok? ==> (r.value <==> Helps(moves, dc, size))
  {
    StandingSound(dc, where, size);
    if SortedRing(Moved(dc.ring, moves), size).TokenError? { return TokenError; }
    var better := Better(Moved(dc.ring, moves), dc.ring, size, dc.rfs);
    return Ok(better);
  }

  /** The worked out part of the plan, for one datacenter: refused exactly for too many
      nodes or when two of them would end on one token. Neither that nor a block can
      happen while the cluster has no more nodes than the tolerance, or no target is held
      elsewhere. */
  method PlanEven(dc: Datacenter, where: Places, size: nat)
    returns (r: Result<DcPlan>, ghost moves: seq<Move>, ghost planned: seq<Move>, ghost spots: seq<int>)
    requires Standing(dc, where, size) && Inside(where, size) && AllApart(where)
    ensures |dc.ring| <= MAX_NODES ==> NudgedPlan(moves, planned, spots, dc, where, size)
    ensures r.TokenError? <==> |dc.ring| > MAX_NODES || (moves != [] && !Sound(Moved(dc.ring, moves), size))
    ensures r.Ok? ==> IsEvenStep(r.value, moves, dc, size)
    ensures |dc.ring| <= MAX_NODES && Undisturbed(planned, dc, where, size) ==> r.Ok? && !r.value.problem
  {
    var found: Result<seq<Move>>;
    found, planned, spots := EvenMoves(dc, where, size);
    moves := [];
    if found.TokenError? { return TokenError, moves, planned, spots; }
    moves := found.value;
    NudgedPlanMoves(moves, planned, spots, dc, where, size);
    if Undisturbed(planned, dc, where, size) {
      UndisturbedIsNear(planned, spots, dc, where, size);
      NudgedPlanRuns(planned, spots, dc, where, size);
    }
    if found.value == [] { return Ok(DcPlan([], false)), moves, planned, spots; }
    var helps := HelpsAtAll(dc, found.value, where, size);
    if helps.TokenError? { return TokenError, moves, planned, spots; }
    if !helps.value { return Ok(DcPlan([], false)), moves, planned, spots; }
    var plan := OrderInCluster(dc, found.value, false, size);
    return Ok(plan), moves, planned, spots;
  }

  lemma {:induction false} SortedNames(names: seq<Name>)
    requires Distinct(names)
    ensures Distinct(SortUp(names)) && SetOf(SortUp(names)) == SetOf(names)
  {
    DistinctOfMultiset(names, SortUp(names));
    forall n ensures n in SortUp(names) <==> n in names {
      assert n in SortUp(names) <==> n in multiset(SortUp(names));
    }
  }

  lemma {:induction false} MembersStand(dc: Datacenter, where: Places, size: nat)
    requires Standing(dc, where, size)
    ensures forall n :: n in Members(dc) ==> n in where
  {
    forall n | n in Members(dc) ensures n in where {
      var i :| 0 <= i < |dc.ring| && Names(dc.ring)[i] == n;
      assert dc.ring[i] in dc.ring;
    }
  }

  /** The operator's part of the plan, for one datacenter: exactly the moves asked for that
      are not refused; none exactly when there are none or they block each other. */
  method PlanWanted(dc: Datacenter, where: Places, targets: map<Name, Result<int>>, size: nat) returns (plan: DcPlan)
    requires size > 0 && Standing(dc, where, size)
    ensures IsWantedPlan(plan, dc, where, targets, size)
  {
    SortedNames(Names(dc.ring));
    MembersStand(dc, where, size);
    assert forall n :: n in SortUp(Names(dc.ring)) ==> n in SetOf(SortUp(Names(dc.ring)));
    var moves, refused := WantedMoves(SortUp(Names(dc.ring)), where, targets);
    assert refused != [] ==> refused[0] in refused;
    plan := OrderInCluster(dc, moves, refused != [], size);
  }

  /** The worked out part fails: too many nodes, or two of them would end on one token. */
  ghost predicate EvenFails(dc: Datacenter, where: Places, size: nat) {
    || |dc.ring| > MAX_NODES
    || exists moves, planned, spots :: NudgedPlan(moves, planned, spots, dc, where, size)
                                       && moves != [] && !Sound(Moved(dc.ring, moves), size)
  }

  /** A datacenter that is planned at all. */
  predicate Plannable(dc: Datacenter) {
    Single(dc) && dc.normal
  }

  /** One token per node, and a node joining or leaving. */
  predicate Busy(dc: Datacenter) {
    Single(dc) && !dc.normal
  }

  /** Small enough for the balanced plan, in a cluster with no more nodes than the tolerance. */
  ghost predicate Moderate(dc: Datacenter, where: Places, size: nat) {
    0 < |dc.ring| <= MAX_NODES && |where| <= Tolerance(|dc.ring|, size)
  }

  /** The plan of one datacenter. */
  method PlanDatacenter(dc: Datacenter, where: Places, targets: map<Name, Result<int>>, size: nat)
      returns (r: Result<DcPlan>)
    requires size > 0 && (Single(dc) ==> Standing(dc, where, size)) && Inside(where, size) && AllApart(where)
    ensures r.Ok? ==> IsDcPlan(r.value, dc, where, targets, size)
    ensures r.TokenError? ==> targets == map[] && Plannable(dc) && EvenFails(dc, where, size)
    ensures targets == map[] && (Plannable(dc) ==> Moderate(dc, where, size)) ==>
        r.Ok? && (r.value.problem ==> Busy(dc))
  {
    if targets != map[] && !Asked(dc, targets) { return Ok(DcPlan([], false)); }
    if !Single(dc) { return Ok(DcPlan([], Asked(dc, targets))); }
    if !dc.normal { return Ok(DcPlan([], true)); }
    if Asked(dc, targets) {
      var plan := PlanWanted(dc, where, targets, size);
      return Ok(plan);
    }
    ghost var moves, planned, spots;
    r, moves, planned, spots := PlanEven(dc, where, size);
  }

  // ----- the plan of a datacenter is safe for the cluster as the planner believes it -----

  /** Moves of members onto tokens held nowhere else: a plan of them is safe. */
  lemma {:induction false} OrderIsSafe(plan: DcPlan, moves: set<Move>, dc: Datacenter, refused: bool, where: Places,
        size: nat)
    requires size > 0 && Standing(dc, where, size) && Inside(where, size) && AllApart(where)
    requires Pending(PlacesOf(dc.ring), moves, size) && AvoidOthers(moves, where, Members(dc), size)
    requires RunsOrBlocks(plan, moves, dc, refused, size)
    ensures SafeSteps(plan.steps, dc, where, size)
  {
    RingIsPart(dc, where, size);
    if !Blocks(PlacesOf(dc.ring), moves, size) {
      ClusterRun(PlacesOf(dc.ring), where, moves, plan.steps, size);
      forall mv | mv in plan.steps ensures mv.name in Members(dc) {
        assert mv in SetOf(plan.steps);
      }
    }
  }

  lemma {:induction false} WantedPending(dc: Datacenter, where: Places, targets: map<Name, Result<int>>, size: nat)
    requires size > 0 && Standing(dc, where, size) && Inside(where, size) && OnTheCircle(targets, size)
    ensures Pending(PlacesOf(dc.ring), WantedSet(where, Members(dc), targets), size)
    ensures AvoidOthers(WantedSet(where, Members(dc), targets), where, Members(dc), size)
  {
    RingIsPart(dc, where, size);
    forall mv | mv in WantedSet(where, Members(dc), targets)
      ensures mv.name in PlacesOf(dc.ring) && mv.src % size == PlacesOf(dc.ring)[mv.name]
      ensures mv.dst % size !in Elsewhere(where, Members(dc))
    {
      WantedSetIs(where, Members(dc), targets, mv);
      SmallMod(mv.src, size);
      SmallMod(mv.dst, size);
    }
  }

  lemma {:induction false} EvenedIsSafe(plan: DcPlan, moves: seq<Move>, planned: seq<Move>, spots: seq<int>,
        dc: Datacenter, where: Places, size: nat)
    requires size > 0 && Standing(dc, where, size) && Inside(where, size) && AllApart(where)
    requires NudgedPlan(moves, planned, spots, dc, where, size) && IsEvenStep(plan, moves, dc, size)
    ensures SafeSteps(plan.steps, dc, where, size)
  {
    NudgedPlanMoves(moves, planned, spots, dc, where, size);
    MovesArePending(moves, dc, where, size);
    if moves != [] && Helps(moves, dc, size) { OrderIsSafe(plan, SetOf(moves), dc, false, where, size); }
  }

  lemma {:induction false} DcPlanIsSafe(plan: DcPlan, dc: Datacenter, where: Places, targets: map<Name, Result<int>>,
        size: nat)
    requires size > 0 && (Single(dc) ==> Standing(dc, where, size)) && Inside(where, size) && AllApart(where)
    requires OnTheCircle(targets, size) && IsDcPlan(plan, dc, where, targets, size)
    ensures SafeSteps(plan.steps, dc, where, size) && (plan.steps != [] ==> Plannable(dc))
  {
    if Plannable(dc) && Asked(dc, targets) {
      WantedPending(dc, where, targets, size);
      OrderIsSafe(plan, WantedSet(where, Members(dc), targets), dc, SomeRefused(where, Members(dc), targets), where,
          size);
    } else if plan.steps != [] {
      var moves, planned, spots :| NudgedPlan(moves, planned, spots, dc, where, size) &&
          IsEvenStep(plan, moves, dc, size);
      EvenedIsSafe(plan, moves, planned, spots, dc, where, size);
    }
  }

  // ----- the cluster -----

  /** The steps of the datacenters, one after the other. */
  function AllSteps(plans: seq<DcPlan>): seq<Move> {
    if plans == [] then [] else AllSteps(plans[..|plans| - 1]) + plans[|plans| - 1].steps
  }

  /** Where the planner believes the nodes are after the steps of the first k datacenters. */
  ghost function WhereAfter(dcs: seq<Datacenter>, plans: seq<DcPlan>, k: nat, size: nat): Places
    requires size > 0 && k <= |plans|
  {
    After(WhereOf(dcs), AllSteps(plans[..k]), size)
  }

  /** A plan for each of the first datacenters, each from where the steps before it leave the cluster. */
  ghost predicate PlannedBy(plans: seq<DcPlan>, dcs: seq<Datacenter>, targets: map<Name, Result<int>>, size: nat)
    requires size > 0
  {
    |plans| <= |dcs| && forall i :: 0 <= i < |plans| ==>
        IsDcPlan(plans[i], dcs[i], WhereAfter(dcs, plans, i, size), targets, size)
  }

  /** The datacenters from one on are where the planner believes them. */
  ghost predicate StandFrom(dcs: seq<Datacenter>, from: nat, where: Places, size: nat) {
    forall i :: from <= i < |dcs| && Single(dcs[i]) ==> Standing(dcs[i], where, size)
  }

  /** Moving the nodes of one datacenter leaves the ones after it where they were. */
  lemma {:induction false} OthersStand(dcs: seq<Datacenter>, i: nat, where: Places, where': Places, size: nat)
    requires i < |dcs| && Separate(dcs) && StandFrom(dcs, i, where, size)
    requires OnlyMoves(where, where', Members(dcs[i]))
    ensures StandFrom(dcs, i + 1, where', size)
  {
    forall j | i + 1 <= j < |dcs| && Single(dcs[j]) ensures Standing(dcs[j], where', size) {
      assert Standing(dcs[j], where, size);
      forall n | n in dcs[j].ring ensures n.name in where' && where'[n.name] == n.pos {
        NamedIn(dcs[j].ring, n);
        assert n.name !in Members(dcs[i]);
      }
    }
  }

  /** After some datacenters: the steps so far are safe, the datacenters left stand, only
      nodes with one token have moved. */
  ghost predicate SafeSoFar(dcs: seq<Datacenter>, plans: seq<DcPlan>, k: nat, size: nat)
    requires size > 0 && k <= |plans|
  {
    var steps, where := AllSteps(plans[..k]), WhereAfter(dcs, plans, k, size);
    && SafeReplay(WhereOf(dcs), steps, size) && Inside(where, size) && AllApart(where)
    && where.Keys == WhereOf(dcs).Keys && StandFrom(dcs, k, where, size)
    && forall mv :: mv in steps ==> mv.name in Movers(dcs)
  }

  lemma {:induction false} SafeAtStart(dcs: seq<Datacenter>, plans: seq<DcPlan>, size: nat)
    requires Running(dcs, size)
    ensures SafeSoFar(dcs, plans, 0, size)
  {
    WhereApart(Entries(dcs), size);
    forall i | 0 <= i < |dcs| && Single(dcs[i]) ensures Standing(dcs[i], WhereOf(dcs), size) {
      SingleStands(dcs, i, size);
    }
  }

  lemma {:induction false} StepsMore(plans: seq<DcPlan>, k: nat)
    requires k < |plans|
    ensures AllSteps(plans[..k + 1]) == AllSteps(plans[..k]) + plans[k].steps
  {
    assert plans[..k + 1][..k] == plans[..k];
  }

  lemma {:induction false} SafeMore(dcs: seq<Datacenter>, plans: seq<DcPlan>, k: nat, targets: map<Name, Result<int>>,
        size: nat)
    requires Running(dcs, size) && OnTheCircle(targets, size) && k < |plans| <= |dcs| && SafeSoFar(dcs, plans, k, size)
    requires IsDcPlan(plans[k], dcs[k], WhereAfter(dcs, plans, k, size), targets, size)
    ensures SafeSoFar(dcs, plans, k + 1, size)
  {
    var where, steps := WhereAfter(dcs, plans, k, size), AllSteps(plans[..k]);
    DcPlanIsSafe(plans[k], dcs[k], where, targets, size);
    StepsMore(plans, k);
    ReplayAppend(WhereOf(dcs), steps, plans[k].steps, size);
    OthersStand(dcs, k, where, After(where, plans[k].steps, size), size);
    forall mv | mv in AllSteps(plans[..k + 1]) ensures mv.name in Movers(dcs) {
      if mv !in steps { assert mv in plans[k].steps; }
    }
  }

  /** The steps of a cluster's plan are safe as the planner believes the cluster. */
  lemma {:induction false} PlannedIsSafe(dcs: seq<Datacenter>, plans: seq<DcPlan>, k: nat,
        targets: map<Name, Result<int>>, size: nat)
    requires Running(dcs, size) && OnTheCircle(targets, size) && PlannedBy(plans, dcs, targets, size) && k <= |plans|
    ensures SafeSoFar(dcs, plans, k, size)
  {
    if k == 0 {
      SafeAtStart(dcs, plans, size);
    } else {
      var i: nat := k - 1;
      PlannedIsSafe(dcs, plans, i, targets, size);
      SafeMore(dcs, plans, i, targets, size);
      assert i + 1 == k;
    }
  }

  /** No step lands on a token of a several-token node other than its last one. */
  ghost predicate OffHidden(steps: seq<Move>, dcs: seq<Datacenter>, size: nat)
    requires size > 0
  {
    forall mv :: mv in steps ==> mv.dst % size !in Hidden(Entries(dcs))
  }

  /** From a cluster with pairwise distinct tokens, no two nodes of any datacenters share
      one after any step of a plan, exactly when no step lands on a token the planner does
      not see: one of a node with several, other than its last. */
  lemma {:induction false} UniqueUnlessHidden(dcs: seq<Datacenter>, plans: seq<DcPlan>,
        targets: map<Name, Result<int>>, size: nat)
    requires Running(dcs, size) && OnTheCircle(targets, size) && PlannedBy(plans, dcs, targets, size)
    ensures NeverShared(TokensOf(Entries(dcs)), AllSteps(plans), size) <==> OffHidden(AllSteps(plans), dcs, size)
  {
    PlannedIsSafe(dcs, plans, |plans|, targets, size);
    assert plans[..|plans|] == plans;
    StartTracks(dcs, size);
    SafeUnlessHidden(WhereOf(dcs), TokensOf(Entries(dcs)), Hidden(Entries(dcs)), Movers(dcs), AllSteps(plans), size);
  }

  /** No two nodes of the cluster share a token once all has run, as the planner checks it at the end. */
  lemma {:induction false} NothingLeftToCheck(dcs: seq<Datacenter>, plans: seq<DcPlan>,
        targets: map<Name, Result<int>>, size: nat)
    requires Running(dcs, size) && OnTheCircle(targets, size) && PlannedBy(plans, dcs, targets, size)
    ensures AllApart(After(WhereOf(dcs), AllSteps(plans), size))
  {
    PlannedIsSafe(dcs, plans, |plans|, targets, size);
    assert plans[..|plans|] == plans;
  }

  method RunOn(where: Places, steps: seq<Move>, size: nat) returns (where': Places)
    requires size > 0
    ensures where' == After(where, steps, size)
  {
    where' := where;
    var i := 0;
    while i < |steps|
      invariant 0 <= i <= |steps|
      invariant After(where, steps, size) == After(where', steps[i..], size)
    {
      assert steps[i..][1..] == steps[i + 1..];
      where' := Apply(where', steps[i], size);
      i := i + 1;
    }
  }

  /** A name asked for is in no datacenter, or some datacenter has a problem. */
  ghost predicate HasProblem(plans: seq<DcPlan>, dcs: seq<Datacenter>, targets: map<Name, Result<int>>) {
    (exists n :: n in targets && n !in WhereOf(dcs)) || exists i :: 0 <= i < |plans| && plans[i].problem
  }

  /** The planner's loop: the plans so far, and what it carries along. */
  ghost predicate PlannedTo(plans: seq<DcPlan>, steps: seq<Move>, where: Places, problem: bool, dcs: seq<Datacenter>,
                            targets: map<Name, Result<int>>, size: nat)
    requires size > 0
  {
    && PlannedBy(plans, dcs, targets, size)
    && steps == AllSteps(plans) && where == After(WhereOf(dcs), steps, size)
    && (problem <==> HasProblem(plans, dcs, targets))
  }

  lemma {:induction false} PlannedByMore(plans: seq<DcPlan>, plan: DcPlan, dcs: seq<Datacenter>,
        targets: map<Name, Result<int>>, size: nat)
    requires size > 0 && |plans| < |dcs| && PlannedBy(plans, dcs, targets, size)
    requires IsDcPlan(plan, dcs[|plans|], After(WhereOf(dcs), AllSteps(plans), size), targets, size)
    ensures PlannedBy(plans + [plan], dcs, targets, size)
  {
    var more := plans + [plan];
    forall i | 0 <= i < |more| ensures IsDcPlan(more[i], dcs[i], WhereAfter(dcs, more, i, size), targets, size) {
      assert more[..i] == plans[..i];
      if i == |plans| { assert plans[..i] == plans; }
    }
  }

  lemma {:induction false} AfterBoth(where: Places, steps: seq<Move>, more: seq<Move>, size: nat)
    requires size > 0
    ensures After(where, steps + more, size) == After(After(where, steps, size), more, size)
    decreases |steps|
  {
    if steps == [] {
      assert steps + more == more;
    } else {
      assert (steps + more)[1..] == steps[1..] + more;
      AfterBoth(Apply(where, steps[0], size), steps[1..], more, size);
    }
  }

  lemma {:induction false} PlannedMore(plans: seq<DcPlan>, steps: seq<Move>, where: Places, problem: bool, plan: DcPlan,
                     dcs: seq<Datacenter>, targets: map<Name, Result<int>>, size: nat)
    requires size > 0 && |plans| < |dcs| && PlannedTo(plans, steps, where, problem, dcs, targets, size)
    requires IsDcPlan(plan, dcs[|plans|], where, targets, size)
    ensures PlannedTo(plans + [plan], steps + plan.steps, After(where, plan.steps, size), problem || plan.problem,
        dcs, targets, size)
  {
    PlannedByMore(plans, plan, dcs, targets, size);
    AfterBoth(WhereOf(dcs), steps, plan.steps, size);
    ProblemMore(plans, plan, dcs, targets);
    assert (plans + [plan])[..|plans|] == plans;
  }

  /** What the planner carries along is where the next datacenter stands. */
  lemma {:induction false} NextStands(plans: seq<DcPlan>, steps: seq<Move>, where: Places, problem: bool,
        dcs: seq<Datacenter>, targets: map<Name, Result<int>>, size: nat)
    requires Running(dcs, size) && OnTheCircle(targets, size) && |plans| < |dcs|
    requires PlannedTo(plans, steps, where, problem, dcs, targets, size)
    ensures Inside(where, size) && AllApart(where) && |where| == |WhereOf(dcs)|
    ensures Single(dcs[|plans|]) ==> Standing(dcs[|plans|], where, size)
    ensures AllModerate(dcs, size) && Plannable(dcs[|plans|]) ==> Moderate(dcs[|plans|], where, size)
    ensures where == WhereAfter(dcs, plans, |plans|, size)
  {
    PlannedIsSafe(dcs, plans, |plans|, targets, size);
    assert plans[..|plans|] == plans;
    assert |where.Keys| == |WhereOf(dcs).Keys|;
  }

  lemma {:induction false} ProblemMore(plans: seq<DcPlan>, plan: DcPlan, dcs: seq<Datacenter>,
        targets: map<Name, Result<int>>)
    ensures HasProblem(plans + [plan], dcs, targets) <==> HasProblem(plans, dcs, targets) || plan.problem
  {
    var more := plans + [plan];
    if i :| 0 <= i < |plans| && plans[i].problem { assert more[i].problem; }
    if plan.problem { assert more[|plans|].problem; }
  }

  /** Every datacenter that is planned is small enough for it, in a cluster with no more
      nodes than the tolerance. */
  ghost predicate AllModerate(dcs: seq<Datacenter>, size: nat) {
    forall i :: 0 <= i < |dcs| && Plannable(dcs[i]) ==> Moderate(dcs[i], WhereOf(dcs), size)
  }

  /** A plan worked out in a moderate cluster has a problem for a node that is not normal only. */
  ghost predicate OnlyBusy(plans: seq<DcPlan>, dcs: seq<Datacenter>)
    requires |plans| <= |dcs|
  {
    forall i :: 0 <= i < |plans| && plans[i].problem ==> Busy(dcs[i])
  }

  lemma {:induction false} OnlyBusyMore(plans: seq<DcPlan>, plan: DcPlan, dcs: seq<Datacenter>)
    requires |plans| < |dcs| && OnlyBusy(plans, dcs) && (plan.problem ==> Busy(dcs[|plans|]))
    ensures OnlyBusy(plans + [plan], dcs)
  {
  }

  /** The whole plan: the steps of the datacenters' plans, one after the other. From a
      cluster where no two tokens are the same, none are after any step exactly when no
      step lands on a token of a several-token node other than its last one. With targets
      it is never refused; worked out, it is for a datacenter that cannot be evened, and
      has no problem but nodes that are not normal, in a moderate cluster. */
  method PlanCluster(dcs: seq<Datacenter>, targets: map<Name, Result<int>>, size: nat)
    returns (r: Result<seq<Move>>, problem: bool, ghost plans: seq<DcPlan>)
    requires Running(dcs, size) && OnTheCircle(targets, size)
    ensures PlannedBy(plans, dcs, targets, size)
    ensures r.Ok? ==> |plans| == |dcs| && r.value == AllSteps(plans) && (problem <==> HasProblem(plans, dcs, targets))
    ensures r.TokenError? ==> targets == map[] && |plans| < |dcs| && Plannable(dcs[|plans|])
                              && EvenFails(dcs[|plans|], WhereAfter(dcs, plans, |plans|, size), size)
    ensures r.Ok? ==> (NeverShared(TokensOf(Entries(dcs)), r.value, size) <==> OffHidden(r.value, dcs, size))
    ensures targets == map[] && AllModerate(dcs, size) ==> r.Ok? && OnlyBusy(plans, dcs)
  {
    var where := WhereOf(dcs);
    var steps := [];
    problem := exists n :: n in targets && n !in where;
    plans := [];
    var i := 0;
    while i < |dcs|
      invariant 0 <= i == |plans| <= |dcs| && PlannedTo(plans, steps, where, problem, dcs, targets, size)
      invariant targets == map[] && AllModerate(dcs, size) ==> OnlyBusy(plans, dcs)
    {
      NextStands(plans, steps, where, problem, dcs, targets, size);
      var plan := PlanDatacenter(dcs[i], where, targets, size);
      if plan.TokenError? { return TokenError, problem, plans; }
      PlannedMore(plans, steps, where, problem, plan.value, dcs, targets, size);
      if targets == map[] && AllModerate(dcs, size) { OnlyBusyMore(plans, plan.value, dcs); }
      where := RunOn(where, plan.value.steps, size);
      steps, problem, plans := steps + plan.value.steps, problem || plan.value.problem, plans + [plan.value];
      i := i + 1;
    }
    UniqueUnlessHidden(dcs, plans, targets, size);
    return Ok(steps), problem, plans;
  }
}
