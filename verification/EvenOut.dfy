/** Evening out one datacenter of a cluster: whether moves bring its shares closer, and
    the moves of its balanced plan, their targets moved on past the tokens held elsewhere. */
module EvenOut {
  import opened Lists
  import opened Arith
  import opened Ring
  import opened Shares
  import opened Balanced
  import opened Spacing
  import opened Assignment
  import opened Evenness
  import opened Placement
  import opened MoveOrder
  import opened MoveSafety
  import opened Rebalance
  import opened RebalanceOrder
  import opened FreeSpots
  import opened Cluster

  // ----- how close the shares are -----

  /** The largest of some shares, listed largest first, minus the smallest. */
  function Widest(down: seq<nat>): int {
    if down == [] then 0 else down[0] as int - down[|down| - 1]
  }

  /** How far apart the effective shares are. */
  ghost function Spread(ring: seq<Node>, size: nat, rf: nat): int
    requires Sound(ring, size)
  {
    Widest(RingKey(ring, size, rf).effective)
  }

  lemma {:induction false} WidestBounds(shares: seq<nat>, k: nat)
    requires k < |shares|
    ensures var down := SortDown(shares); down != [] && down[|down| - 1] <= shares[k] <= down[0]
  {
    SortDownSorted(shares);
    assert shares[k] in multiset(SortDown(shares));
    Extremes(SortDown(shares), shares[k]);
  }

  lemma {:induction false} Extremes(down: seq<nat>, x: nat)
    requires x in down && forall i, j :: 0 <= i < j < |down| ==> down[i] >= down[j]
    ensures down[|down| - 1] <= x <= down[0]
  {
  }

  lemma {:induction false} WidestThere(shares: seq<nat>, i: nat)
    requires i < |SortDown(shares)|
    ensures SortDown(shares)[i] in shares
  {
    assert SortDown(shares)[i] in multiset(shares);
  }

  /** No two shares are farther apart than the spread, and two are that far. */
  lemma {:induction false} WidestIs(shares: seq<nat>)
    requires shares != []
    ensures var widest := Widest(SortDown(shares));
            && (forall a, b :: a in shares && b in shares ==> a <= b + widest)
            && exists a, b :: a in shares && b in shares && a == b + widest
  {
    var down := SortDown(shares);
    WidestBounds(shares, 0);
    WidestThere(shares, 0);
    WidestThere(shares, |down| - 1);
    assert down[0] in shares && down[|down| - 1] in shares && down[0] == down[|down| - 1] + Widest(down);
    forall a, b | a in shares && b in shares ensures a <= b + Widest(down) {
      var i :| 0 <= i < |shares| && shares[i] == a;
      var j :| 0 <= j < |shares| && shares[j] == b;
      WidestBounds(shares, i);
      WidestBounds(shares, j);
    }
  }

  /** The shares are closer to each other after, for some replication factor. */
  ghost predicate Improves(after: seq<Node>, before: seq<Node>, size: nat, rfs: seq<nat>)
    requires Sound(after, size) && Sound(before, size)
  {
    exists rf :: rf in rfs && Spread(after, size, rf) < Spread(before, size, rf)
  }

  method SpreadOf(ring: seq<Node>, size: nat, rf: nat) returns (spread: int)
    requires Sound(ring, size)
    ensures spread == Spread(ring, size, rf)
  {
    var key := BalanceKey(ring, size, rf);
    spread := Widest(key.effective);
  }

  ghost predicate NotCloser(after: seq<Node>, before: seq<Node>, size: nat, rfs: seq<nat>, i: nat)
    requires Sound(after, size) && Sound(before, size) && i <= |rfs|
  {
    forall k :: 0 <= k < i ==> Spread(after, size, rfs[k]) >= Spread(before, size, rfs[k])
  }

  method Better(after: seq<Node>, before: seq<Node>, size: nat, rfs: seq<nat>) returns (better: bool)
    requires Sound(after, size) && Sound(before, size)
    ensures better <==> Improves(after, before, size, rfs)
  {
    var i := 0;
    while i < |rfs|
      invariant 0 <= i <= |rfs| && NotCloser(after, before, size, rfs, i)
    {
      var a := SpreadOf(after, size, rfs[i]);
      var b := SpreadOf(before, size, rfs[i]);
      if a < b { return true; }
      CloserMore(after, before, size, rfs, i);
      i := i + 1;
    }
    return false;
  }

  lemma {:induction false} CloserMore(after: seq<Node>, before: seq<Node>, size: nat, rfs: seq<nat>, i: nat)
    requires Sound(after, size) && Sound(before, size) && i < |rfs| && NotCloser(after, before, size, rfs, i)
    requires Spread(after, size, rfs[i]) >= Spread(before, size, rfs[i])
    ensures NotCloser(after, before, size, rfs, i + 1)
  {
  }

  function Dest(moves: seq<Move>, name: Name, p: int): int {
    if moves == [] then p else if moves[0].name == name then moves[0].dst else Dest(moves[1..], name, p)
  }

  /** The ring once the moves have run. */
  function Moved(ring: seq<Node>, moves: seq<Move>): (r: seq<Node>)
    ensures |r| == |ring| && Names(r) == Names(ring)
  {
    var r := seq(|ring|, i requires 0 <= i < |ring| => ring[i].(pos := Dest(moves, ring[i].name, ring[i].pos)));
    assert Names(r) == Names(ring);
    r
  }

  function Targeted(moves: seq<Move>): (r: seq<int>)
    ensures |r| == |moves| && forall i :: 0 <= i < |moves| ==> r[i] == moves[i].dst
  {
    seq(|moves|, i requires 0 <= i < |moves| => moves[i].dst)
  }

  function Retargeted(moves: seq<Move>, spots: seq<int>): (r: seq<Move>)
    requires |spots| == |moves|
    ensures |r| == |moves| && forall i :: 0 <= i < |moves| ==> r[i] == moves[i].(dst := spots[i])
  {
    seq(|moves|, i requires 0 <= i < |moves| => moves[i].(dst := spots[i]))
  }

  // ----- the moves of the balanced plan -----

  /** Moves of different nodes of the ring, each from where it is to a position of the circle. */
  ghost predicate MovesFrom(moves: seq<Move>, ring: seq<Node>, size: nat) {
    && DistinctMovers(moves)
    && forall mv :: mv in moves ==> 0 <= mv.dst < size && exists i ::
        0 <= i < |ring| && ring[i].name == mv.name && ring[i].pos == mv.src
  }

  /** What a balanced plan asks of the nodes of a ring. */
  lemma {:induction false} PlanMoves(plan: BalancedPlan, p: Plan, pts: seq<Node>, size: nat, rf: nat, offset: int)
    requires GoodPlan(plan, p, pts, [], size, rf, offset)
    ensures MovesFrom(plan.moves, pts, size)
  {
    var m, tol := |pts|, Tolerance(|pts|, size);
    var targets := Targets(p, m, size);
    MoversDiffer(pts, targets, p.picks, size, tol, |pts|);
    BalancedValid(m, size, p.off);
    forall mv | mv in plan.moves
      ensures 0 <= mv.dst < size && exists i :: 0 <= i < |pts| && pts[i].name == mv.name && pts[i].pos == mv.src
    {
      MovesAre(pts, targets, p.picks, size, tol, |pts|, mv);
      var i :| 0 <= i < |pts| && IsMove(pts, targets, p.picks, size, tol, i, mv);
      assert targets[p.picks[i]] == BalancedPositions(m, size, p.off).value[p.picks[i]];
    }
  }

  /** A ring is on the circle, each node on a position of its own. */
  lemma {:induction false} StandingSound(dc: Datacenter, where: Places, size: nat)
    requires Standing(dc, where, size) && Inside(where, size) && AllApart(where)
    ensures Distinct(Positions(dc.ring)) && OnCircle(Positions(dc.ring), size)
    ensures Sound(dc.ring, size) && Reduced(dc.ring, size) == dc.ring
  {
    forall i | 0 <= i < |dc.ring| ensures 0 <= Positions(dc.ring)[i] < size {
      assert dc.ring[i] in dc.ring;
    }
    forall i, j | 0 <= i < j < |dc.ring| ensures Positions(dc.ring)[i] != Positions(dc.ring)[j] {
      assert dc.ring[i] in dc.ring && dc.ring[j] in dc.ring;
      assert Names(dc.ring)[i] != Names(dc.ring)[j];
    }
    SoundRing(dc.ring, size);
  }

  /** Moves of members, each from where it is: what an order of moves needs. */
  lemma {:induction false} MovesArePending(moves: seq<Move>, dc: Datacenter, where: Places, size: nat)
    requires Standing(dc, where, size) && Inside(where, size) && MovesFrom(moves, dc.ring, size)
    ensures Pending(PlacesOf(dc.ring), SetOf(moves), size)
  {
    PlacesAre(dc.ring);
    forall mv | mv in moves ensures mv.name in PlacesOf(dc.ring) && mv.src % size == PlacesOf(dc.ring)[mv.name] {
      var i :| 0 <= i < |dc.ring| && dc.ring[i].name == mv.name && dc.ring[i].pos == mv.src;
      assert dc.ring[i] in dc.ring;
      SmallMod(mv.src, size);
    }
  }

  lemma {:induction false} CountApart(held: set<int>, from: seq<int>, size: nat)
    requires Distinct(from) && OnCircle(from, size) && forall p :: p in held ==> 0 <= p < size && p !in from
    ensures |held| + |from| <= size
  {
    var circle := Tokens(0, size);
    DistinctSize(from);
    assert held + SetOf(from) <= circle;
    assert circle == (held + SetOf(from)) + (circle - (held + SetOf(from)));
    assert held !! SetOf(from);
  }

  /** The circle has room for what is held elsewhere and for the moves of a datacenter. */
  lemma {:induction false} RoomForMoves(moves: seq<Move>, dc: Datacenter, where: Places, size: nat)
    requires Standing(dc, where, size) && Inside(where, size) && AllApart(where) && MovesFrom(moves, dc.ring, size)
    ensures |Elsewhere(where, Members(dc))| + |moves| <= size
  {
    var from := seq(|moves|, i requires 0 <= i < |moves| => moves[i].src);
    forall i | 0 <= i < |moves| ensures 0 <= from[i] < size && from[i] !in Elsewhere(where, Members(dc)) {
      MoverIsMember(moves, dc, where, size, i);
    }
    forall i, j | 0 <= i < j < |moves| ensures from[i] != from[j] {
      MoverIsMember(moves, dc, where, size, i);
      MoverIsMember(moves, dc, where, size, j);
    }
    CountApart(Elsewhere(where, Members(dc)), from, size);
  }

  lemma {:induction false} MoverIsMember(moves: seq<Move>, dc: Datacenter, where: Places, size: nat, i: nat)
    requires Standing(dc, where, size) && MovesFrom(moves, dc.ring, size) && i < |moves|
    ensures moves[i].name in where && where[moves[i].name] == moves[i].src && moves[i].name in Members(dc)
  {
    assert moves[i] in moves;
    var k :| 0 <= k < |dc.ring| && dc.ring[k].name == moves[i].name && dc.ring[k].pos == moves[i].src;
    assert dc.ring[k] in dc.ring;
    NamedIn(dc.ring, dc.ring[k]);
  }

  /** The moves of a balanced plan of the datacenter as it stands. */
  ghost predicate IsEvenPlan(moves: seq<Move>, dc: Datacenter, size: nat) {
    Sound(dc.ring, size) &&
    exists plan, p :: GoodPlan(plan, p, SortedRing(dc.ring, size).value, [], size, dc.rf, dc.offset) &&
        plan.moves == moves
  }

  /** The node a move of the plan is of. */
  lemma {:induction false} MoverOf(pts: seq<Node>, targets: seq<int>, picks: seq<int>, size: nat, tol: nat, mv: Move)
      returns (i: nat)
    requires size > 0 && Matched(pts, targets, picks) && mv in MovesOf(pts, targets, picks, size, tol, |pts|)
    ensures i < |pts| && mv.name == pts[i].name && mv.dst == targets[picks[i]]
  {
    MovesAre(pts, targets, picks, size, tol, |pts|, mv);
    i :| 0 <= i < |pts| && IsMove(pts, targets, picks, size, tol, i, mv);
  }

  lemma {:induction false} MoversApart(pts: seq<Node>, targets: seq<int>, picks: seq<int>, size: nat, tol: nat,
        a: Move, b: Move)
    requires size > 0 && Matched(pts, targets, picks) && Increasing(targets) && KeepsOrder(picks, |targets|)
    requires a in MovesOf(pts, targets, picks, size, tol, |pts|) && b in MovesOf(pts, targets, picks, size, tol, |pts|)
    requires a.name != b.name
    ensures a.dst != b.dst
  {
    var i := MoverOf(pts, targets, picks, size, tol, a);
    var j := MoverOf(pts, targets, picks, size, tol, b);
    if i < j { PicksDiffer(picks, |targets|, i, j); } else { PicksDiffer(picks, |targets|, j, i); }
  }

  lemma {:induction false} AllMoversApart(pts: seq<Node>, targets: seq<int>, picks: seq<int>, size: nat, tol: nat)
    requires size > 0 && Matched(pts, targets, picks) && Increasing(targets) && KeepsOrder(picks, |targets|)
    requires Distinct(Names(pts))
    ensures Distinct(Targeted(MovesOf(pts, targets, picks, size, tol, |pts|)))
  {
    var moves := MovesOf(pts, targets, picks, size, tol, |pts|);
    MoversDiffer(pts, targets, picks, size, tol, |pts|);
    forall k, l | 0 <= k < l < |moves| ensures moves[k].dst != moves[l].dst {
      MoversApart(pts, targets, picks, size, tol, moves[k], moves[l]);
    }
  }

  lemma {:induction false} PlanTargets(plan: BalancedPlan, p: Plan, pts: seq<Node>, size: nat, rf: nat, offset: int)
    requires GoodPlan(plan, p, pts, [], size, rf, offset)
    ensures Distinct(Targeted(plan.moves))
  {
    var m, tol := |pts|, Tolerance(|pts|, size);
    BalancedValid(m, size, p.off);
    AllMoversApart(pts, Targets(p, m, size), p.picks, size, tol);
  }

  lemma {:induction false} SameMovers(moves: seq<Move>, pts: seq<Node>, ring: seq<Node>, size: nat)
    requires MovesFrom(moves, pts, size) && multiset(pts) == multiset(ring)
    ensures MovesFrom(moves, ring, size) && OnCircle(Targeted(moves), size)
  {
    forall mv | mv in moves ensures exists i :: 0 <= i < |ring| && ring[i].name == mv.name && ring[i].pos == mv.src {
      var i :| 0 <= i < |pts| && pts[i].name == mv.name && pts[i].pos == mv.src;
      assert pts[i] in multiset(ring);
    }
    forall i | 0 <= i < |moves| ensures 0 <= moves[i].dst < size {
      assert moves[i] in moves;
    }
  }

  lemma {:induction false} EvenPlanMoves(plan: BalancedPlan, p: Plan, dc: Datacenter, where: Places, size: nat)
    requires Standing(dc, where, size) && Inside(where, size) && AllApart(where) && Sound(dc.ring, size)
    requires GoodPlan(plan, p, SortedRing(dc.ring, size).value, [], size, dc.rf, dc.offset)
    ensures MovesFrom(plan.moves, dc.ring, size) && IsEvenPlan(plan.moves, dc, size)
    ensures OnCircle(Targeted(plan.moves), size) && Distinct(Targeted(plan.moves))
  {
    StandingSound(dc, where, size);
    SortedRingSpec(dc.ring, size);
    var pts := SortedRing(dc.ring, size).value;
    PlanMoves(plan, p, pts, size, dc.rf, dc.offset);
    PlanTargets(plan, p, pts, size, dc.rf, dc.offset);
    SameMovers(plan.moves, pts, dc.ring, size);
  }

  /** The moves of the cheapest balanced plan, as they are before any token held elsewhere is avoided. */
  method PlannedMoves(dc: Datacenter, ghost where: Places, size: nat) returns (r: Result<seq<Move>>)
    requires Standing(dc, where, size) && Inside(where, size) && AllApart(where)
    ensures r.Ok? <==> |dc.ring| <= MAX_NODES
    ensures r.Ok? ==> MovesFrom(r.value, dc.ring, size) && IsEvenPlan(r.value, dc, size)
                      && OnCircle(Targeted(r.value), size) && Distinct(Targeted(r.value))
  {
    StandingSound(dc, where, size);
    var plan, p := PlanBalanced(dc.ring, [], size, dc.rf, dc.offset);
    if plan.TokenError? { return TokenError; }
    EvenPlanMoves(plan.value, p, dc, where, size);
    return Ok(plan.value.moves);
  }

  /** The moves of a balanced plan, each target moved on past the tokens held elsewhere. */
  ghost predicate NudgedPlan(moves: seq<Move>, planned: seq<Move>, spots: seq<int>, dc: Datacenter, where: Places,
        size: nat) {
    && size > 0 && IsEvenPlan(planned, dc, size)
    && Nudged(spots, Targeted(planned), Elsewhere(where, Members(dc)), size)
    && moves == Retargeted(planned, spots)
  }

  /** The moves that even out a datacenter: those of its cheapest balanced plan, each
      target moved on past the tokens held elsewhere. */
  method EvenMoves(dc: Datacenter, where: Places, size: nat)
    returns (r: Result<seq<Move>>, ghost planned: seq<Move>, ghost spots: seq<int>)
    requires Standing(dc, where, size) && Inside(where, size) && AllApart(where)
    ensures r.Ok? <==> |dc.ring| <= MAX_NODES
    ensures r.Ok? ==> NudgedPlan(r.value, planned, spots, dc, where, size)
  {
    r := PlannedMoves(dc, where, size);
    planned, spots := [], [];
    if r.Ok? {
      var moves := r.value;
      RoomForMoves(moves, dc, where, size);
      var out, taken := Nudge(Targeted(moves), Elsewhere(where, Members(dc)), size);
      planned, spots := moves, out;
      r := Ok(Retargeted(moves, out));
    }
  }

  /** What the nudged moves are: moves of the datacenter's nodes, onto no token held elsewhere. */
  lemma {:induction false} NudgedPlanMoves(moves: seq<Move>, planned: seq<Move>, spots: seq<int>, dc: Datacenter,
        where: Places, size: nat)
    requires Standing(dc, where, size) && Inside(where, size) && AllApart(where)
    requires NudgedPlan(moves, planned, spots, dc, where, size)
    ensures MovesFrom(moves, dc.ring, size) && AvoidOthers(SetOf(moves), where, Members(dc), size)
  {
    EvenPlanTargets(planned, dc, where, size);
    NudgedMoves(planned, spots, dc, where, size);
  }

  lemma {:induction false} UnheldStay(moves: seq<Move>, spots: seq<int>, dc: Datacenter, where: Places, size: nat)
    requires size > 0 && OnCircle(Targeted(moves), size) && Distinct(Targeted(moves))
    requires Nudged(spots, Targeted(moves), Elsewhere(where, Members(dc)), size)
    ensures AvoidOthers(SetOf(moves), where, Members(dc), size) ==> Retargeted(moves, spots) == moves
  {
    if AvoidOthers(SetOf(moves), where, Members(dc), size) {
      forall t | t in Targeted(moves) ensures t !in Elsewhere(where, Members(dc)) {
        var i :| 0 <= i < |moves| && Targeted(moves)[i] == t;
        assert moves[i] in SetOf(moves);
        SmallMod(t, size);
      }
      NudgeKeepsFree(spots, Targeted(moves), Elsewhere(where, Members(dc)), size);
      assert spots == Targeted(moves);
    }
  }

  lemma {:induction false} NudgedMoves(moves: seq<Move>, spots: seq<int>, dc: Datacenter, where: Places, size: nat)
    requires size > 0 && MovesFrom(moves, dc.ring, size) && OnCircle(Targeted(moves), size)
    requires Nudged(spots, Targeted(moves), Elsewhere(where, Members(dc)), size)
    ensures MovesFrom(Retargeted(moves, spots), dc.ring, size)
    ensures AvoidOthers(SetOf(Retargeted(moves, spots)), where, Members(dc), size)
  {
    var others, nudged := Elsewhere(where, Members(dc)), Retargeted(moves, spots);
    NudgedApart(spots, Targeted(moves), others, size);
    forall mv | mv in nudged
      ensures 0 <= mv.dst < size && mv.dst % size !in others
      ensures exists i :: 0 <= i < |dc.ring| && dc.ring[i].name == mv.name && dc.ring[i].pos == mv.src
    {
      var k :| 0 <= k < |nudged| && nudged[k] == mv;
      var far := NudgedNear(spots, Targeted(moves), others, size, k);
      OnIs(Targeted(moves)[k], far, size);
      SmallMod(spots[k], size);
      assert moves[k] in moves && spots[k] in spots;
    }
  }

  lemma {:induction false} SamePlaces(a: seq<Node>, b: seq<Node>)
    requires Distinct(Names(a)) && Distinct(Names(b)) && multiset(a) == multiset(b)
    ensures PlacesOf(a) == PlacesOf(b)
  {
    PlacesAre(a);
    PlacesAre(b);
    forall n: Name ensures n in PlacesOf(a) <==> n in PlacesOf(b) {
      if n in PlacesOf(a) { SamePlace(a, b, n); }
      if n in PlacesOf(b) { SamePlace(b, a, n); }
    }
    forall n | n in PlacesOf(a) ensures PlacesOf(a)[n] == PlacesOf(b)[n] {
      SamePlace(a, b, n);
    }
  }

  lemma {:induction false} SamePlace(a: seq<Node>, b: seq<Node>, n: Name)
    requires Distinct(Names(a)) && Distinct(Names(b)) && multiset(a) == multiset(b) && n in PlacesOf(a)
    ensures n in PlacesOf(b) && PlacesOf(a)[n] == PlacesOf(b)[n]
  {
    var i := NodeAt(a, n);
    assert a[i] in multiset(b);
    var j :| 0 <= j < |b| && b[j] == a[i];
    PlacesAre(b);
  }

  // ----- moved on by a token or two, the moves still never block each other -----

  lemma {:induction false} DestIs(moves: seq<Move>, k: nat, p: int)
    requires DistinctMovers(moves) && k < |moves|
    ensures Dest(moves, moves[k].name, p) == moves[k].dst
  {
    if k > 0 {
      assert moves[0].name != moves[k].name;
      forall i, j | 0 <= i < j < |moves| - 1 ensures moves[1..][i].name != moves[1..][j].name {
        assert moves[i + 1].name != moves[j + 1].name;
      }
      DestIs(moves[1..], k - 1, p);
    }
  }

  lemma {:induction false} DestNone(moves: seq<Move>, name: Name, p: int)
    requires forall mv :: mv in moves ==> mv.name != name
    ensures Dest(moves, name, p) == p
  {
    if moves != [] {
      assert moves[0] in moves;
      DestNone(moves[1..], name, p);
    }
  }

  /** Each spot is less than tol past the target it was moved on from. */
  ghost predicate NearTargets(spots: seq<int>, moves: seq<Move>, size: nat, tol: nat)
    requires size > 0
  {
    |spots| == |moves| && forall k :: 0 <= k < |spots| ==> NearTarget(spots[k], moves[k], size, tol)
  }

  ghost predicate NearTarget(spot: int, mv: Move, size: nat, tol: nat)
    requires size > 0
  {
    exists d: nat :: d < tol && spot == On(mv.dst, d, size)
  }

  /** The move of a node that does not stay, in the plan's list. */
  lemma {:induction false} MoveOfNode(p: Plan, pts: seq<Node>, m: nat, size: nat, tol: nat, i: nat) returns (k: nat)
    requires Found(p, pts, m, size, tol) && i < |pts| && !Stayer(p, pts, m, size, tol, i)
    ensures var moves := MovesOf(pts, Targets(p, m, size), p.picks, size, tol, |pts|);
            k < |moves| && moves[k] == Move(pts[i].name, pts[i].pos, Target(p.picks[i], m, size, p.off))
  {
    var targets := Targets(p, m, size);
    var mv := Move(pts[i].name, pts[i].pos, targets[p.picks[i]]);
    MovesAre(pts, targets, p.picks, size, tol, |pts|, mv);
    assert IsMove(pts, targets, p.picks, size, tol, i, mv);
    var moves := MovesOf(pts, targets, p.picks, size, tol, |pts|);
    k :| 0 <= k < |moves| && moves[k] == mv;
  }

  /** The node of a move of the plan, by the move's place in the list. */
  lemma {:induction false} NodeOfMove(p: Plan, pts: seq<Node>, m: nat, size: nat, tol: nat, k: nat) returns (i: nat)
    requires Found(p, pts, m, size, tol) && k < |MovesOf(pts, Targets(p, m, size), p.picks, size, tol, |pts|)|
    ensures i < |pts| && !Stayer(p, pts, m, size, tol, i)
    ensures MovesOf(pts, Targets(p, m, size), p.picks, size, tol, |pts|)[k]
            == Move(pts[i].name, pts[i].pos, Target(p.picks[i], m, size, p.off))
  {
    var targets := Targets(p, m, size);
    var moves := MovesOf(pts, targets, p.picks, size, tol, |pts|);
    assert moves[k] in moves;
    MovesAre(pts, targets, p.picks, size, tol, |pts|, moves[k]);
    i :| 0 <= i < |pts| && IsMove(pts, targets, p.picks, size, tol, i, moves[k]);
  }

  /** Where a node ends once the plan's moves, their targets moved on, have run. */
  lemma {:induction false} NudgedGoal(p: Plan, pts: seq<Node>, m: nat, size: nat, tol: nat, spots: seq<int>, i: nat)
    requires Found(p, pts, m, size, tol) && i < |pts|
    requires NearTargets(spots, MovesOf(pts, Targets(p, m, size), p.picks, size, tol, |pts|), size, tol)
    ensures var nudged := Retargeted(MovesOf(pts, Targets(p, m, size), p.picks, size, tol, |pts|), spots);
            AimedAt(Dest(nudged, pts[i].name, pts[i].pos), p, pts, m, size, tol, i)
  {
    var moves := MovesOf(pts, Targets(p, m, size), p.picks, size, tol, |pts|);
    var nudged := Retargeted(moves, spots);
    MoversDiffer(pts, Targets(p, m, size), p.picks, size, tol, |pts|);
    if Stayer(p, pts, m, size, tol, i) {
      forall mv | mv in nudged ensures mv.name != pts[i].name {
        var k :| 0 <= k < |nudged| && nudged[k] == mv;
        var j := NodeOfMove(p, pts, m, size, tol, k);
        if mv.name == pts[i].name { SameNameSameNode(pts, i, j); }
      }
      DestNone(nudged, pts[i].name, pts[i].pos);
    } else {
      var k := MoveOfNode(p, pts, m, size, tol, i);
      DestIs(nudged, k, pts[i].pos);
      assert NearTarget(spots[k], moves[k], size, tol);
    }
  }

  /** The plan's moves with their targets moved on by less than the tolerance aim at goals of the plan. */
  lemma {:induction false} NudgedIsAimed(p: Plan, pts: seq<Node>, m: nat, size: nat, tol: nat, spots: seq<int>)
    requires Found(p, pts, m, size, tol)
    requires NearTargets(spots, MovesOf(pts, Targets(p, m, size), p.picks, size, tol, |pts|), size, tol)
    ensures var nudged := Retargeted(MovesOf(pts, Targets(p, m, size), p.picks, size, tol, |pts|), spots);
            var goals := Positions(Moved(pts, nudged));
            Aimed(goals, p, pts, m, size, tol) && AimedMoves(goals, p, pts, m, size, tol) == SetOf(nudged)
  {
    var nudged := Retargeted(MovesOf(pts, Targets(p, m, size), p.picks, size, tol, |pts|), spots);
    var goals := Positions(Moved(pts, nudged));
    forall i | 0 <= i < |pts| ensures AimedAt(goals[i], p, pts, m, size, tol, i) {
      NudgedGoal(p, pts, m, size, tol, spots, i);
    }
    forall mv ensures mv in AimedMoves(goals, p, pts, m, size, tol) <==> mv in nudged {
      if mv in AimedMoves(goals, p, pts, m, size, tol) { LeftIsNudged(p, pts, m, size, tol, spots, goals, mv); }
      if mv in nudged { NudgedIsLeft(p, pts, m, size, tol, spots, goals, mv); }
    }
  }

  lemma {:induction false} LeftIsNudged(p: Plan, pts: seq<Node>, m: nat, size: nat, tol: nat, spots: seq<int>,
        goals: seq<int>, mv: Move)
    requires Aimed(goals, p, pts, m, size, tol) && mv in AimedMoves(goals, p, pts, m, size, tol)
    requires |spots| == |MovesOf(pts, Targets(p, m, size), p.picks, size, tol, |pts|)|
    requires goals == Positions(Moved(pts,
        Retargeted(MovesOf(pts, Targets(p, m, size), p.picks, size, tol, |pts|), spots)))
    ensures mv in Retargeted(MovesOf(pts, Targets(p, m, size), p.picks, size, tol, |pts|), spots)
  {
    var nudged := Retargeted(MovesOf(pts, Targets(p, m, size), p.picks, size, tol, |pts|), spots);
    MoversDiffer(pts, Targets(p, m, size), p.picks, size, tol, |pts|);
    var i := AimedMovesAre(goals, p, pts, m, size, tol, mv);
    var k := MoveOfNode(p, pts, m, size, tol, i);
    DestIs(nudged, k, pts[i].pos);
    assert nudged[k] == mv;
  }

  lemma {:induction false} NudgedIsLeft(p: Plan, pts: seq<Node>, m: nat, size: nat, tol: nat, spots: seq<int>,
        goals: seq<int>, mv: Move)
    requires Aimed(goals, p, pts, m, size, tol)
    requires |spots| == |MovesOf(pts, Targets(p, m, size), p.picks, size, tol, |pts|)|
    requires goals == Positions(Moved(pts,
        Retargeted(MovesOf(pts, Targets(p, m, size), p.picks, size, tol, |pts|), spots)))
    requires mv in Retargeted(MovesOf(pts, Targets(p, m, size), p.picks, size, tol, |pts|), spots)
    ensures mv in AimedMoves(goals, p, pts, m, size, tol)
  {
    var nudged := Retargeted(MovesOf(pts, Targets(p, m, size), p.picks, size, tol, |pts|), spots);
    MoversDiffer(pts, Targets(p, m, size), p.picks, size, tol, |pts|);
    var k :| 0 <= k < |nudged| && nudged[k] == mv;
    var i := NodeOfMove(p, pts, m, size, tol, k);
    DestIs(nudged, k, pts[i].pos);
    MoverIsLeft(goals, p, pts, m, size, tol, i);
  }

  lemma {:induction false} ImageAtMost(where: Places, names: set<Name>)
    requires forall n :: n in names ==> n in where
    ensures |set n | n in names :: where[n]| <= |names|
  {
    if names != {} {
      var n :| n in names;
      var rest := names - {n};
      ImageAtMost(where, rest);
      assert (set o | o in names :: where[o]) == (set o | o in rest :: where[o]) + {where[n]};
    }
  }

  lemma {:induction false} MoversAtMost(moves: seq<Move>, names: set<Name>)
    requires DistinctMovers(moves) && forall mv :: mv in moves ==> mv.name in names
    ensures |moves| <= |names|
  {
    if moves != [] {
      var init, last := moves[..|moves| - 1], moves[|moves| - 1];
      assert last in moves;
      forall mv | mv in init ensures mv.name in names - {last.name} {
        assert mv in moves;
      }
      MoversAtMost(init, names - {last.name});
    }
  }

  /** Positions held elsewhere and moves of a datacenter: no more than the nodes of the cluster. */
  lemma {:induction false} CountCluster(moves: seq<Move>, dc: Datacenter, where: Places, size: nat)
    requires Standing(dc, where, size) && MovesFrom(moves, dc.ring, size)
    ensures |Elsewhere(where, Members(dc))| + |moves| <= |where|
  {
    var inside := set n | n in where && n in Members(dc);
    var outside := set n | n in where && n !in Members(dc);
    ImageAtMost(where, outside);
    assert Elsewhere(where, Members(dc)) == set n | n in outside :: where[n];
    forall mv | mv in moves ensures mv.name in inside {
      var i :| 0 <= i < |moves| && moves[i] == mv;
      MoverIsMember(moves, dc, where, size, i);
    }
    MoversAtMost(moves, inside);
    assert where.Keys == inside + outside;
  }

  /** In a cluster of no more nodes than the tolerance, no target is moved on by the tolerance or more. */
  lemma {:induction false} NudgeIsNear(moves: seq<Move>, spots: seq<int>, dc: Datacenter, where: Places, size: nat,
        tol: nat)
    requires Standing(dc, where, size) && MovesFrom(moves, dc.ring, size) && OnCircle(Targeted(moves), size)
    requires size > 0 && |where| <= tol && Nudged(spots, Targeted(moves), Elsewhere(where, Members(dc)), size)
    ensures NearTargets(spots, moves, size, tol)
  {
    CountCluster(moves, dc, where, size);
    forall k | 0 <= k < |spots| ensures NearTarget(spots[k], moves[k], size, tol) {
      var d := NudgedNear(spots, Targeted(moves), Elsewhere(where, Members(dc)), size, k);
    }
  }

  /** Moved the same way, the same nodes in another order end on the same positions. */
  lemma {:induction false} MovedApart(a: seq<Node>, b: seq<Node>, moves: seq<Move>, size: nat)
    requires size > 0 && Distinct(Names(a)) && multiset(a) == multiset(b)
    requires Distinct(Positions(Moved(a, moves))) && OnCircle(Positions(Moved(a, moves)), size)
    ensures Sound(Moved(b, moves), size)
  {
    var f := (n: Node) => n.(pos := Dest(moves, n.name, n.pos));
    MapMultiset(f, a, b);
    assert Map(f, a) == Moved(a, moves) && Map(f, b) == Moved(b, moves);
    PositionsMultiset(Moved(a, moves), Moved(b, moves));
    DistinctOfMultiset(Positions(Moved(a, moves)), Positions(Moved(b, moves)));
    NamesMultiset(a, b);
    DistinctOfMultiset(Names(a), Names(b));
    var qs := Positions(Moved(b, moves));
    forall i | 0 <= i < |qs| ensures 0 <= qs[i] < size {
      assert qs[i] in multiset(qs);
      assert qs[i] in Positions(Moved(a, moves));
    }
    SoundRing(Moved(b, moves), size);
  }

  /** Everyone moves, or a node stays. */
  lemma {:induction false} SomeoneLeft(p: Plan, pts: seq<Node>, m: nat, size: nat, tol: nat)
    requires Found(p, pts, m, size, tol) && |MovesOf(pts, Targets(p, m, size), p.picks, size, tol, |pts|)| < |pts|
    ensures SomeoneStays(p, pts, m, size, tol)
  {
    if forall i: nat :: i < |pts| ==> !Stayer(p, pts, m, size, tol, i) { EveryoneMoves(p, pts, m, size, tol, |pts|); }
  }

  lemma {:induction false} EveryoneMoves(p: Plan, pts: seq<Node>, m: nat, size: nat, tol: nat, k: nat)
    requires Found(p, pts, m, size, tol) && k <= |pts| && forall i: nat :: i < |pts| ==>
        !Stayer(p, pts, m, size, tol, i)
    ensures |MovesOf(pts, Targets(p, m, size), p.picks, size, tol, k)| == k
  {
    if k > 0 {
      EveryoneMoves(p, pts, m, size, tol, k - 1);
      assert !Stayer(p, pts, m, size, tol, k - 1);
    }
  }

  /** The plan found behind the moves, on the sorted ring. */
  lemma {:induction false} PlanBehind(moves: seq<Move>, dc: Datacenter, where: Places, size: nat)
      returns (p: Plan, pts: seq<Node>)
    requires Standing(dc, where, size) && Inside(where, size) && AllApart(where) && IsEvenPlan(moves, dc, size)
    ensures |pts| == |dc.ring| && multiset(pts) == multiset(dc.ring) && PlacesOf(pts) == PlacesOf(dc.ring)
    ensures Found(p, pts, |pts|, size, Tolerance(|pts|, size))
    ensures moves == MovesOf(pts, Targets(p, |pts|, size), p.picks, size, Tolerance(|pts|, size), |pts|)
  {
    StandingSound(dc, where, size);
    SortedRingSpec(dc.ring, size);
    SortedValid(dc.ring, size);
    pts := SortedRing(dc.ring, size).value;
    SamePlaces(dc.ring, pts);
    var plan: BalancedPlan, q: Plan :| GoodPlan(plan, q, pts, [], size, dc.rf, dc.offset) && plan.moves == moves;
    p := q;
    assert |multiset(pts)| == |pts| && |multiset(dc.ring)| == |dc.ring|;
  }

  lemma {:induction false} EvenPlanTargets(moves: seq<Move>, dc: Datacenter, where: Places, size: nat)
    requires Standing(dc, where, size) && Inside(where, size) && AllApart(where) && IsEvenPlan(moves, dc, size)
    ensures MovesFrom(moves, dc.ring, size) && OnCircle(Targeted(moves), size) && Distinct(Targeted(moves))
  {
    var plan, p :| GoodPlan(plan, p, SortedRing(dc.ring, size).value, [], size, dc.rf, dc.offset) &&
        plan.moves == moves;
    EvenPlanMoves(plan, p, dc, where, size);
  }

  /** Targets moved on by less than the tolerance do no harm: no two nodes of the
      datacenter end on one token, the moves never block each other, and while a node
      stays every step keeps the cyclic order of the ring. */
  lemma {:induction false} NudgedPlanRuns(moves: seq<Move>, spots: seq<int>, dc: Datacenter, where: Places, size: nat)
    requires Standing(dc, where, size) && Inside(where, size) && AllApart(where) && IsEvenPlan(moves, dc, size)
    requires size > 0 && NearTargets(spots, moves, size, Tolerance(|dc.ring|, size))
    ensures Sound(Moved(dc.ring, Retargeted(moves, spots)), size)
    ensures !Blocks(PlacesOf(dc.ring), SetOf(Retargeted(moves, spots)), size)
    ensures |moves| < |dc.ring| ==> forall run ::
        Runs(PlacesOf(dc.ring), SetOf(Retargeted(moves, spots)), run, size) ==>
              EveryStepKeepsOrder(PlacesOf(dc.ring), run, size)
  {
    var p, pts := PlanBehind(moves, dc, where, size);
    PlanRuns(p, pts, dc.ring, |pts|, size, Tolerance(|pts|, size), spots);
  }

  /** The cluster has no more nodes than the tolerance, or no target of the plan is held elsewhere. */
  ghost predicate Undisturbed(planned: seq<Move>, dc: Datacenter, where: Places, size: nat)
    requires size > 0 && dc.ring != []
  {
    |where| <= Tolerance(|dc.ring|, size) || AvoidOthers(SetOf(planned), where, Members(dc), size)
  }

  /** Then no target is moved on by the tolerance or more. */
  lemma {:induction false} UndisturbedIsNear(planned: seq<Move>, spots: seq<int>, dc: Datacenter, where: Places,
        size: nat)
    requires Standing(dc, where, size) && Inside(where, size) && AllApart(where) && IsEvenPlan(planned, dc, size)
    requires size > 0 && Nudged(spots, Targeted(planned), Elsewhere(where, Members(dc)), size)
    requires Undisturbed(planned, dc, where, size)
    ensures NearTargets(spots, planned, size, Tolerance(|dc.ring|, size))
  {
    EvenPlanTargets(planned, dc, where, size);
    if |where| <= Tolerance(|dc.ring|, size) {
      NudgeIsNear(planned, spots, dc, where, size, Tolerance(|dc.ring|, size));
    } else {
      UnheldStay(planned, spots, dc, where, size);
      ToleranceFits(|dc.ring|, size);
      forall k | 0 <= k < |spots| ensures NearTarget(spots[k], planned[k], size, Tolerance(|dc.ring|, size)) {
        assert Retargeted(planned, spots)[k] == planned[k];
        OnIs(Targeted(planned)[k], 0, size);
      }
    }
  }

  lemma {:induction false} PlanRuns(p: Plan, pts: seq<Node>, ring: seq<Node>, m: nat, size: nat, tol: nat,
        spots: seq<int>)
    requires Found(p, pts, m, size, tol) && multiset(pts) == multiset(ring)
    requires NearTargets(spots, MovesOf(pts, Targets(p, m, size), p.picks, size, tol, |pts|), size, tol)
    ensures var moves := MovesOf(pts, Targets(p, m, size), p.picks, size, tol, |pts|);
            var nudged := Retargeted(moves, spots);
            && Sound(Moved(ring, nudged), size)
            && !Blocks(PlacesOf(pts), SetOf(nudged), size)
            && (|moves| < |pts| ==> forall run :: Runs(PlacesOf(pts), SetOf(nudged), run, size) ==>
                 EveryStepKeepsOrder(PlacesOf(pts), run, size))
  {
    var moves := MovesOf(pts, Targets(p, m, size), p.picks, size, tol, |pts|);
    var nudged := Retargeted(moves, spots);
    var goals := Positions(Moved(pts, nudged));
    NudgedIsAimed(p, pts, m, size, tol, spots);
    LandedApart(goals, p, pts, m, size, tol);
    MovedApart(pts, ring, nudged, size);
    forall run | Runs(PlacesOf(pts), SetOf(nudged), run, size)
      ensures !Stuck(After(PlacesOf(pts), run, size), SetOf(nudged) - SetOf(run), size)
      ensures |moves| < |pts| ==> EveryStepKeepsOrder(PlacesOf(pts), run, size)
    {
      AimedMovesCanRun(goals, p, pts, m, size, tol, run);
      if |moves| < |pts| { SomeoneLeft(p, pts, m, size, tol); }
    }
  }
}
