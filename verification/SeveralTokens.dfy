/** Nodes with several tokens beside a datacenter that is planned: when a plan can put
    another node on one of their tokens, and when it cannot. */
module SeveralTokens {
  import opened Lists
  import opened Arith
  import opened Ring
  import opened Shares
  import opened MoveOrder
  import opened MoveSafety
  import opened RebalanceOrder
  import opened Cluster
  import opened OperatorMoves
  import opened MovePlan

  /** The operator asks one node of a planned datacenter to move, onto a hidden token. */
  ghost predicate Onto(dcs: seq<Datacenter>, i: nat, name: Name, t: int, size: nat) {
    && Running(dcs, size) && i < |dcs| && Plannable(dcs[i]) && name in Members(dcs[i])
    && t in Hidden(Entries(dcs))
  }

  function OnlyTarget(name: Name, t: int): (targets: map<Name, Result<int>>)
    ensures targets != map[]
  {
    var targets := map[name := Ok(t)];
    assert name in targets;
    targets
  }

  /** Nobody is believed to be on a hidden token, which is a position of the circle. */
  lemma {:induction false} HiddenUnseen(dcs: seq<Datacenter>, size: nat, t: int)
    requires Running(dcs, size) && t in Hidden(Entries(dcs))
    ensures 0 <= t < size && forall n :: n in WhereOf(dcs) ==> WhereOf(dcs)[n] != t
  {
    var ring := Entries(dcs);
    var e :| e in ring && e.name in PlacesOf(ring) && PlacesOf(ring)[e.name] != e.pos && e.pos == t;
    OnePosition(ring, e, size);
    forall n | n in WhereOf(dcs) ensures WhereOf(dcs)[n] != t {
      var last := LastLine(ring, n);
      if last.pos == t { SamePosition(ring, last, e); }
    }
  }

  /** The move asked for is not refused: the planner sees no holder. */
  lemma {:induction false} NotRefused(dcs: seq<Datacenter>, i: nat, name: Name, t: int, size: nat)
    requires Onto(dcs, i, name, t, size)
    ensures name in WhereOf(dcs)
    ensures WantedSet(WhereOf(dcs), Members(dcs[i]), OnlyTarget(name, t)) == {Move(name, WhereOf(dcs)[name], t)}
    ensures !SomeRefused(WhereOf(dcs), Members(dcs[i]), OnlyTarget(name, t))
  {
    SingleStands(dcs, i, size);
    MembersStand(dcs[i], WhereOf(dcs), size);
    HiddenUnseen(dcs, size, t);
    var where, members, targets := WhereOf(dcs), Members(dcs[i]), OnlyTarget(name, t);
    assert !Taken(where, members, targets, name, t);
    forall mv ensures mv in WantedSet(where, members, targets) <==> mv == Move(name, where[name], t) {
      WantedSetIs(where, members, targets, mv);
    }
  }

  /** The one move runs. */
  lemma {:induction false} OneMoveRuns(dcs: seq<Datacenter>, i: nat, name: Name, t: int, size: nat)
    requires Onto(dcs, i, name, t, size) && name in WhereOf(dcs)
    ensures var mv := Move(name, WhereOf(dcs)[name], t); Completes(PlacesOf(dcs[i].ring), {mv}, [mv], size)
  {
    var mv, pos := Move(name, WhereOf(dcs)[name], t), PlacesOf(dcs[i].ring);
    SingleStands(dcs, i, size);
    RingIsPart(dcs[i], WhereOf(dcs), size);
    HiddenUnseen(dcs, size, t);
    SmallMod(t, size);
    assert Free(pos, mv, size);
    assert IsNext(pos, {mv}, mv, size);
    assert [mv][1..] == [];
  }

  lemma {:induction false} DistinctCount(run: seq<Move>, all: set<Move>)
    requires Distinct(run) && SetOf(run) <= all
    ensures |run| <= |all|
  {
    if run != [] {
      var init, last := run[..|run| - 1], run[|run| - 1];
      assert last in SetOf(run);
      forall mv | mv in init ensures mv in all - {last} { assert mv in SetOf(run); }
      DistinctCount(init, all - {last});
    }
  }

  lemma {:induction false} OneMoveOnly(pos: Places, mv: Move, run: seq<Move>, size: nat)
    requires size > 0 && Completes(pos, {mv}, run, size)
    ensures run == [mv]
  {
    RunTakesOnce(pos, {mv}, run, size);
    DistinctCount(run, {mv});
    assert mv in SetOf(run);
    forall k | 0 <= k < |run| ensures run[k] == mv { assert run[k] in SetOf(run); }
  }

  lemma {:induction false} AskedInOne(dcs: seq<Datacenter>, i: nat, j: nat, name: Name, t: int, size: nat)
    requires Onto(dcs, i, name, t, size) && j < |dcs|
    ensures Asked(dcs[j], OnlyTarget(name, t)) <==> j == i
  {
    if name in Members(dcs[j]) { SameDatacenter(dcs, i, j, name); }
  }

  /** The plan of each datacenter: the move in its own, nothing in the others. */
  ghost predicate OneMovePlan(plan: DcPlan, dcs: seq<Datacenter>, i: nat, j: nat, name: Name, t: int)
    requires name in WhereOf(dcs)
  {
    plan == DcPlan(if j == i then [Move(name, WhereOf(dcs)[name], t)] else [], false)
  }

  lemma {:induction false} WantedPlanIs(dcs: seq<Datacenter>, i: nat, name: Name, t: int, size: nat, plan: DcPlan)
    requires Onto(dcs, i, name, t, size) && name in WhereOf(dcs)
    ensures IsWantedPlan(plan, dcs[i], WhereOf(dcs), OnlyTarget(name, t), size) <==>
            plan == DcPlan([Move(name, WhereOf(dcs)[name], t)], false)
  {
    var mv, pos := Move(name, WhereOf(dcs)[name], t), PlacesOf(dcs[i].ring);
    NotRefused(dcs, i, name, t, size);
    OneMoveRuns(dcs, i, name, t, size);
    CompleteOrBlocked(pos, {mv}, [mv], size);
    if Completes(pos, {mv}, plan.steps, size) { OneMoveOnly(pos, mv, plan.steps, size); }
  }

  lemma {:induction false} DcPlanIs(dcs: seq<Datacenter>, i: nat, j: nat, name: Name, t: int, size: nat, where: Places,
        plan: DcPlan)
    requires Onto(dcs, i, name, t, size) && name in WhereOf(dcs) && j < |dcs| && (j == i ==> where == WhereOf(dcs))
    ensures IsDcPlan(plan, dcs[j], where, OnlyTarget(name, t), size) <==> OneMovePlan(plan, dcs, i, j, name, t)
  {
    AskedInOne(dcs, i, j, name, t, size);
    if j == i {
      WantedPlanIs(dcs, i, name, t, size, plan);
      AskedPlan(plan, dcs[j], where, OnlyTarget(name, t), size);
    } else {
      UnaskedPlan(plan, dcs[j], where, OnlyTarget(name, t), size);
    }
  }

  lemma {:induction false} AskedPlan(plan: DcPlan, dc: Datacenter, where: Places, targets: map<Name, Result<int>>,
        size: nat)
    requires size > 0 && Asked(dc, targets) && Plannable(dc)
    ensures IsDcPlan(plan, dc, where, targets, size) <==> IsWantedPlan(plan, dc, where, targets, size)
  {
  }

  lemma {:induction false} UnaskedPlan(plan: DcPlan, dc: Datacenter, where: Places, targets: map<Name, Result<int>>,
        size: nat)
    requires size > 0 && !Asked(dc, targets) && targets != map[]
    ensures IsDcPlan(plan, dc, where, targets, size) <==> plan == DcPlan([], false)
  {
  }

  lemma {:induction false} StepsBefore(plans: seq<DcPlan>, dcs: seq<Datacenter>, i: nat, name: Name, t: int, k: nat)
    requires name in WhereOf(dcs) && k <= |plans| && forall j :: 0 <= j < k ==>
        OneMovePlan(plans[j], dcs, i, j, name, t)
    ensures AllSteps(plans[..k]) == if i < k then [Move(name, WhereOf(dcs)[name], t)] else []
  {
    if k > 0 {
      StepsBefore(plans, dcs, i, name, t, k - 1);
      StepsMore(plans, k - 1);
      assert OneMovePlan(plans[k - 1], dcs, i, k - 1, name, t);
    }
  }

  /** Any plan for such a target starts with that move only. */
  lemma {:induction false} PlansAre(plans: seq<DcPlan>, dcs: seq<Datacenter>, i: nat, name: Name, t: int, size: nat,
        k: nat)
    requires Onto(dcs, i, name, t, size) && name in WhereOf(dcs) && k <= |plans|
    requires PlannedBy(plans, dcs, OnlyTarget(name, t), size)
    ensures forall j :: 0 <= j < k ==> OneMovePlan(plans[j], dcs, i, j, name, t)
  {
    if k > 0 {
      PlansAre(plans, dcs, i, name, t, size, k - 1);
      StepsBefore(plans, dcs, i, name, t, k - 1);
      DcPlanIs(dcs, i, k - 1, name, t, size, WhereAfter(dcs, plans, k - 1, size), plans[k - 1]);
    }
  }

  /** Asked to move a node onto a hidden token, the planner does: the step is there, and
      after it two nodes have that token. */
  lemma {:induction false} HiddenTargetCollides(dcs: seq<Datacenter>, i: nat, name: Name, t: int, size: nat,
        plans: seq<DcPlan>)
    requires Onto(dcs, i, name, t, size) && PlannedBy(plans, dcs, OnlyTarget(name, t), size) && |plans| == |dcs|
    ensures name in WhereOf(dcs) && AllSteps(plans) == [Move(name, WhereOf(dcs)[name], t)]
    ensures !NeverShared(TokensOf(Entries(dcs)), AllSteps(plans), size)
  {
    NotRefused(dcs, i, name, t, size);
    HiddenUnseen(dcs, size, t);
    PlansAre(plans, dcs, i, name, t, size, |plans|);
    StepsBefore(plans, dcs, i, name, t, |plans|);
    assert plans[..|plans|] == plans;
    UniqueUnlessHidden(dcs, plans, OnlyTarget(name, t), size);
    SmallMod(t, size);
    assert AllSteps(plans)[0] in AllSteps(plans);
  }

  /** There is such a plan. */
  lemma {:induction false} PlanFor(dcs: seq<Datacenter>, i: nat, name: Name, t: int, size: nat)
      returns (plans: seq<DcPlan>)
    requires Onto(dcs, i, name, t, size)
    ensures PlannedBy(plans, dcs, OnlyTarget(name, t), size) && |plans| == |dcs|
  {
    NotRefused(dcs, i, name, t, size);
    var mv := Move(name, WhereOf(dcs)[name], t);
    plans := seq(|dcs|, j requires 0 <= j < |dcs| => DcPlan(if j == i then [mv] else [], false));
    forall j | 0 <= j < |plans|
        ensures IsDcPlan(plans[j], dcs[j], WhereAfter(dcs, plans, j, size), OnlyTarget(name, t), size) {
      StepsBefore(plans, dcs, i, name, t, j);
      DcPlanIs(dcs, i, j, name, t, size, WhereAfter(dcs, plans, j, size), plans[j]);
    }
  }

  // ----- the guard -----

  /** Every node of the cluster has one token, or no datacenter is planned. */
  ghost predicate Guarded(dcs: seq<Datacenter>) {
    Hidden(Entries(dcs)) == {} || forall i :: 0 <= i < |dcs| ==> !Plannable(dcs[i])
  }

  /** Whatever is asked for, no two nodes ever share a token. */
  ghost predicate AlwaysUnique(dcs: seq<Datacenter>, size: nat)
    requires size > 0
  {
    forall targets, plans :: OnTheCircle(targets, size) && PlannedBy(plans, dcs, targets, size) ==>
      NeverShared(TokensOf(Entries(dcs)), AllSteps(plans), size)
  }

  lemma {:induction false} NothingPlanned(dcs: seq<Datacenter>, plans: seq<DcPlan>, targets: map<Name, Result<int>>,
        size: nat, k: nat)
    requires size > 0 && PlannedBy(plans, dcs, targets, size) && k <= |plans|
    requires forall i :: 0 <= i < |dcs| ==> !Plannable(dcs[i])
    ensures AllSteps(plans[..k]) == []
  {
    if k > 0 {
      NothingPlanned(dcs, plans, targets, size, k - 1);
      StepsMore(plans, k - 1);
      assert IsDcPlan(plans[k - 1], dcs[k - 1], WhereAfter(dcs, plans, k - 1, size), targets, size);
    }
  }

  /** Hidden tokens are those of nodes with several: there are none exactly when every node has one. */
  lemma {:induction false} NoneHidden(dcs: seq<Datacenter>, size: nat)
    requires Running(dcs, size)
    ensures Hidden(Entries(dcs)) == {} <==> forall i :: 0 <= i < |dcs| ==> Single(dcs[i])
  {
    var ring := Entries(dcs);
    if forall i :: 0 <= i < |dcs| ==> Single(dcs[i]) {
      forall e | e in ring && e.name in PlacesOf(ring) ensures PlacesOf(ring)[e.name] == e.pos {
        EntryOf(dcs, e);
        var i :| 0 <= i < |dcs| && e in dcs[i].ring;
        SingleStands(dcs, i, size);
      }
    }
    if i :| 0 <= i < |dcs| && !Single(dcs[i]) {
      var a, b :| 0 <= a < b < |dcs[i].ring| && dcs[i].ring[a].name == dcs[i].ring[b].name;
      TwoLines(dcs, i, a, b, size);
    }
  }

  lemma {:induction false} TwoLines(dcs: seq<Datacenter>, i: nat, a: nat, b: nat, size: nat)
    requires Running(dcs, size) && i < |dcs| && a < b < |dcs[i].ring| && dcs[i].ring[a].name == dcs[i].ring[b].name
    ensures Hidden(Entries(dcs)) != {}
  {
    var ring, x, y := Entries(dcs), dcs[i].ring[a], dcs[i].ring[b];
    EntryOf(dcs, x);
    EntryOf(dcs, y);
    EveryLine(ring, x);
    EveryLine(ring, y);
    LinesApart(dcs, i, a, b);
    assert x.pos in Hidden(ring) || y.pos in Hidden(ring);
  }

  lemma {:induction false} LinesApart(dcs: seq<Datacenter>, i: nat, a: nat, b: nat)
    requires Distinct(Positions(Entries(dcs))) && i < |dcs| && a < b < |dcs[i].ring|
    ensures dcs[i].ring[a].pos != dcs[i].ring[b].pos
  {
    var init, last := dcs[..|dcs| - 1], dcs[|dcs| - 1];
    var front := Entries(init);
    if i == |dcs| - 1 {
      assert Positions(Entries(dcs))[|front| + a] != Positions(Entries(dcs))[|front| + b];
    } else {
      forall k, l | 0 <= k < l < |front| ensures Positions(front)[k] != Positions(front)[l] {
        assert Positions(Entries(dcs))[k] != Positions(Entries(dcs))[l];
      }
      LinesApart(init, i, a, b);
    }
  }

  /** What a caller can test before asking: a cluster's plans never put two nodes on one
      token, whatever the targets, exactly when every node has one token or no datacenter
      is planned at all. */
  lemma {:induction false} GuardIsExact(dcs: seq<Datacenter>, size: nat)
    requires Running(dcs, size)
    ensures AlwaysUnique(dcs, size) <==> Guarded(dcs)
    ensures Guarded(dcs) <==>
        (forall i :: 0 <= i < |dcs| ==> Single(dcs[i])) || forall i :: 0 <= i < |dcs| ==> !Plannable(dcs[i])
  {
    NoneHidden(dcs, size);
    if Guarded(dcs) {
      forall targets, plans | OnTheCircle(targets, size) && PlannedBy(plans, dcs, targets, size)
        ensures NeverShared(TokensOf(Entries(dcs)), AllSteps(plans), size)
      {
        GuardedIsUnique(dcs, plans, targets, size);
      }
    } else {
      NotGuarded(dcs, size);
    }
  }

  lemma {:induction false} GuardedIsUnique(dcs: seq<Datacenter>, plans: seq<DcPlan>, targets: map<Name, Result<int>>,
        size: nat)
    requires Running(dcs, size) && Guarded(dcs) && OnTheCircle(targets, size) && PlannedBy(plans, dcs, targets, size)
    ensures NeverShared(TokensOf(Entries(dcs)), AllSteps(plans), size)
  {
    UniqueUnlessHidden(dcs, plans, targets, size);
    if Hidden(Entries(dcs)) != {} {
      NothingPlanned(dcs, plans, targets, size, |plans|);
      assert plans[..|plans|] == plans;
    }
  }

  lemma {:induction false} NotGuarded(dcs: seq<Datacenter>, size: nat)
    requires Running(dcs, size) && !Guarded(dcs)
    ensures !AlwaysUnique(dcs, size)
  {
    var t :| t in Hidden(Entries(dcs));
    var i :| 0 <= i < |dcs| && Plannable(dcs[i]);
    var name := dcs[i].ring[0].name;
    NamedIn(dcs[i].ring, dcs[i].ring[0]);
    HiddenUnseen(dcs, size, t);
    var plans := PlanFor(dcs, i, name, t, size);
    HiddenTargetCollides(dcs, i, name, t, size, plans);
    assert OnTheCircle(OnlyTarget(name, t), size);
  }

  /** With targets, it is enough to test those: none on a hidden token. */
  lemma {:induction false} TargetsOffHidden(dcs: seq<Datacenter>, plans: seq<DcPlan>, targets: map<Name, Result<int>>,
        size: nat)
    requires Running(dcs, size) && OnTheCircle(targets, size) && PlannedBy(plans, dcs, targets, size) &&
        targets != map[]
    requires forall n :: n in targets && targets[n].Ok? ==> targets[n].value !in Hidden(Entries(dcs))
    ensures NeverShared(TokensOf(Entries(dcs)), AllSteps(plans), size)
  {
    UniqueUnlessHidden(dcs, plans, targets, size);
    StepsAreTargets(dcs, plans, targets, size, |plans|);
    assert plans[..|plans|] == plans;
  }

  lemma {:induction false} StepsAreTargets(dcs: seq<Datacenter>, plans: seq<DcPlan>, targets: map<Name, Result<int>>,
        size: nat, k: nat)
    requires size > 0 && OnTheCircle(targets, size) && PlannedBy(plans, dcs, targets, size) && targets != map[] &&
        k <= |plans|
    ensures forall mv :: mv in AllSteps(plans[..k]) ==>
        mv.name in targets && targets[mv.name] == Ok(mv.dst) && mv.dst % size == mv.dst
  {
    if k > 0 {
      StepsAreTargets(dcs, plans, targets, size, k - 1);
      StepsMore(plans, k - 1);
      var where := WhereAfter(dcs, plans, k - 1, size);
      assert IsDcPlan(plans[k - 1], dcs[k - 1], where, targets, size);
      forall mv | mv in plans[k - 1].steps
        ensures mv.name in targets && targets[mv.name] == Ok(mv.dst) && mv.dst % size == mv.dst
      {
        assert mv in SetOf(plans[k - 1].steps);
        WantedSetIs(where, Members(dcs[k - 1]), targets, mv);
        SmallMod(mv.dst, size);
      }
    }
  }

  // ----- the failing input -----

  const A: Name := 0
  const V: Name := 1

  /** Node A on 0, alone in its datacenter; node V, in another, on 10 and on 20. */
  function Two(rf: nat): seq<Datacenter> {
    [Datacenter([Node(0, A, 0)], true, rf, [rf], 0), Datacenter([Node(10, V, 0), Node(20, V, 0)], true, rf, [rf], 0)]
  }

  lemma {:induction false} TwoEntries(rf: nat)
    ensures Entries(Two(rf)) == [Node(0, A, 0), Node(10, V, 0), Node(20, V, 0)]
    ensures WhereOf(Two(rf)) == map[A := 0, V := 20] && 10 in Hidden(Entries(Two(rf)))
  {
    var dcs := Two(rf);
    assert dcs[..1] == [dcs[0]] && dcs[..1][..0] == [];
    assert Entries(dcs[..1]) == dcs[0].ring;
    var ring := Entries(dcs);
    assert ring == [Node(0, A, 0), Node(10, V, 0), Node(20, V, 0)];
    assert ring[..2] == [Node(0, A, 0), Node(10, V, 0)] && ring[..2][..1] == [Node(0, A, 0)];
    assert ring[..2][..1][..0] == [];
    assert PlacesOf(ring[..2][..1]) == map[A := 0];
    assert PlacesOf(ring[..2]) == map[A := 0, V := 10];
    assert ring[1] in ring;
  }

  lemma {:induction false} TwoRunning(rf: nat, size: nat)
    requires size >= 21
    ensures Running(Two(rf), size)
  {
    TwoEntries(rf);
    assert Names(Two(rf)[0].ring) == [A] && Names(Two(rf)[1].ring) == [V, V];
  }

  /** The three tokens are different. A is asked to move to 10: the planner believes V is
      on 20, plans the step, and A and V both have 10. */
  lemma {:induction false} SeveralTokensCollide(rf: nat, size: nat, plans: seq<DcPlan>)
    requires size >= 21 && PlannedBy(plans, Two(rf), map[A := Ok(10)], size) && |plans| == 2
    ensures Running(Two(rf), size) && AllSteps(plans) == [Move(A, 0, 10)]
    ensures !NeverShared(TokensOf(Entries(Two(rf))), AllSteps(plans), size)
  {
    TwoEntries(rf);
    TwoRunning(rf, size);
    NamedIn(Two(rf)[0].ring, Two(rf)[0].ring[0]);
    HiddenTargetCollides(Two(rf), 0, A, 10, size, plans);
  }
}
