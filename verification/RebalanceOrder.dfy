/** The moves of a balanced plan can always be run one at a time. */
module RebalanceOrder {
  import opened Lists
  import opened Arith
  import opened Ring
  import opened Balanced
  import opened Assignment
  import opened Spacing
  import opened MoveOrder
  import opened MoveSafety
  import opened Rebalance
  import opened FreeSpots
  import opened RoundRobin

  /** Where each node of a ring is. */
  function PlacesOf(ring: seq<Node>): Places {
    if ring == [] then map[]
    else PlacesOf(ring[..|ring| - 1])[ring[|ring| - 1].name := ring[|ring| - 1].pos]
  }

  /** The places are exactly those of the ring's nodes. */
  ghost predicate PlacesFit(places: Places, ring: seq<Node>) {
    && (forall n :: n in places ==> exists i :: 0 <= i < |ring| && ring[i].name == n)
    && forall i :: 0 <= i < |ring| ==> ring[i].name in places && places[ring[i].name] == ring[i].pos
  }

  lemma {:induction false} PlacesAre(ring: seq<Node>)
    requires Distinct(Names(ring))
    ensures PlacesFit(PlacesOf(ring), ring)
  {
    if ring != [] {
      var init, last := ring[..|ring| - 1], ring[|ring| - 1];
      DistinctFront(ring);
      PlacesAre(init);
      PlacesMore(PlacesOf(init), init, last);
      assert ring == init + [last];
    }
  }

  lemma {:induction false} DistinctFront(ring: seq<Node>)
    requires ring != [] && Distinct(Names(ring))
    ensures Distinct(Names(ring[..|ring| - 1]))
    ensures forall i :: 0 <= i < |ring| - 1 ==> ring[i].name != ring[|ring| - 1].name
  {
    var init := ring[..|ring| - 1];
    forall i, j | 0 <= i < j < |init| ensures Names(init)[i] != Names(init)[j] {
      assert Names(ring)[i] != Names(ring)[j];
    }
    forall i | 0 <= i < |ring| - 1 ensures ring[i].name != ring[|ring| - 1].name {
      assert Names(ring)[i] != Names(ring)[|ring| - 1];
    }
  }

  lemma {:induction false} PlacesMore(places: Places, init: seq<Node>, last: Node)
    requires PlacesFit(places, init) && forall i :: 0 <= i < |init| ==> init[i].name != last.name
    ensures PlacesFit(places[last.name := last.pos], init + [last])
  {
    var ring, more := init + [last], places[last.name := last.pos];
    forall n | n in more ensures exists i :: 0 <= i < |ring| && ring[i].name == n {
      if n == last.name {
        assert ring[|init|].name == n;
      } else {
        var i :| 0 <= i < |init| && init[i].name == n;
        assert ring[i].name == n;
      }
    }
  }

  /** The index of a node. */
  lemma {:induction false} NodeAt(ring: seq<Node>, n: Name) returns (i: nat)
    requires Distinct(Names(ring)) && n in PlacesOf(ring)
    ensures i < |ring| && ring[i].name == n && PlacesOf(ring)[n] == ring[i].pos
  {
    PlacesAre(ring);
    i :| 0 <= i < |ring| && ring[i].name == n;
  }

  // ----- what the moves of a plan are -----

  lemma {:induction false} MovesAre(pts: seq<Node>, targets: seq<int>, picks: seq<int>, size: nat, tol: nat, k: nat,
        mv: Move)
    requires size > 0 && Matched(pts, targets, picks) && k <= |pts|
    ensures mv in MovesOf(pts, targets, picks, size, tol, k) <==>
            exists i :: 0 <= i < k && IsMove(pts, targets, picks, size, tol, i, mv)
  {
    if k > 0 {
      MovesAre(pts, targets, picks, size, tol, k - 1, mv);
      assert IsMove(pts, targets, picks, size, tol, k - 1, mv) ==> mv in MovesOf(pts, targets, picks, size, tol, k);
      if mv in MovesOf(pts, targets, picks, size, tol, k) && mv !in MovesOf(pts, targets, picks, size, tol, k - 1) {
        assert IsMove(pts, targets, picks, size, tol, k - 1, mv);
      }
    }
  }

  ghost predicate IsMove(pts: seq<Node>, targets: seq<int>, picks: seq<int>, size: nat, tol: nat, i: nat, mv: Move)
    requires size > 0 && Matched(pts, targets, picks) && i < |pts|
  {
    !Stays(pts[i].pos, targets[picks[i]], size, tol) && mv == Move(pts[i].name, pts[i].pos, targets[picks[i]])
  }

  lemma {:induction false} MoversDiffer(pts: seq<Node>, targets: seq<int>, picks: seq<int>, size: nat, tol: nat, k: nat)
    requires size > 0 && Matched(pts, targets, picks) && k <= |pts| && Distinct(Names(pts))
    ensures DistinctMovers(MovesOf(pts, targets, picks, size, tol, k))
  {
    if k > 0 {
      MoversDiffer(pts, targets, picks, size, tol, k - 1);
      var before := MovesOf(pts, targets, picks, size, tol, k - 1);
      forall i | 0 <= i < |before| ensures before[i].name != pts[k - 1].name {
        MovesAre(pts, targets, picks, size, tol, k - 1, before[i]);
        var j :| 0 <= j < k - 1 && IsMove(pts, targets, picks, size, tol, j, before[i]);
        assert Names(pts)[j] != Names(pts)[k - 1];
      }
    }
  }

  ghost predicate Stayer(p: Plan, pts: seq<Node>, m: nat, size: nat, tol: nat, i: nat)
    requires Found(p, pts, m, size, tol)
  {
    i < |pts| && Stays(pts[i].pos, Target(p.picks[i], m, size, p.off), size, tol)
  }

  ghost predicate SomeoneStays(p: Plan, pts: seq<Node>, m: nat, size: nat, tol: nat)
    requires Found(p, pts, m, size, tol)
  {
    exists s: nat :: Stayer(p, pts, m, size, tol, s)
  }

  /** Node i ends where it is when it stays, else less than tol past its target. */
  ghost predicate AimedAt(goal: int, p: Plan, pts: seq<Node>, m: nat, size: nat, tol: nat, i: nat)
    requires Found(p, pts, m, size, tol) && i < |pts|
  {
    if Stayer(p, pts, m, size, tol, i) then goal == pts[i].pos
    else exists d: nat :: d < tol && goal == On(Target(p.picks[i], m, size, p.off), d, size)
  }

  /** Goals that carry out the plan, its targets moved on by less than tol or left as they are. */
  ghost predicate Aimed(goals: seq<int>, p: Plan, pts: seq<Node>, m: nat, size: nat, tol: nat) {
    && Found(p, pts, m, size, tol) && |goals| == |pts|
    && forall i :: 0 <= i < |pts| ==> AimedAt(goals[i], p, pts, m, size, tol, i)
  }

  /** The nodes on their goals. */
  function Landed(pts: seq<Node>, goals: seq<int>): (r: seq<Node>)
    requires |goals| == |pts|
    ensures |r| == |pts| && Names(r) == Names(pts) && Positions(r) == goals
    ensures forall i :: 0 <= i < |pts| ==> r[i] == pts[i].(pos := goals[i])
  {
    var r := seq(|pts|, i requires 0 <= i < |pts| => pts[i].(pos := goals[i]));
    assert Names(r) == Names(pts) && Positions(r) == goals;
    r
  }

  ghost function GoalPlaces(goals: seq<int>, pts: seq<Node>): Places
    requires |goals| == |pts|
  {
    PlacesOf(Landed(pts, goals))
  }

  /** The moves onto the goals: one for each node that does not stay. */
  ghost function AimedMoves(goals: seq<int>, p: Plan, pts: seq<Node>, m: nat, size: nat, tol: nat): set<Move>
    requires Aimed(goals, p, pts, m, size, tol)
  {
    set i | 0 <= i < |pts| && !Stayer(p, pts, m, size, tol, i) :: Move(pts[i].name, pts[i].pos, goals[i])
  }

  lemma {:induction false} AimedMovesAre(goals: seq<int>, p: Plan, pts: seq<Node>, m: nat, size: nat, tol: nat,
        mv: Move)
    returns (i: nat)
    requires Aimed(goals, p, pts, m, size, tol) && mv in AimedMoves(goals, p, pts, m, size, tol)
    ensures i < |pts| && !Stayer(p, pts, m, size, tol, i) && mv == Move(pts[i].name, pts[i].pos, goals[i])
  {
    i :| 0 <= i < |pts| && !Stayer(p, pts, m, size, tol, i) && mv == Move(pts[i].name, pts[i].pos, goals[i]);
  }

  lemma {:induction false} MoverIsLeft(goals: seq<int>, p: Plan, pts: seq<Node>, m: nat, size: nat, tol: nat, i: nat)
    requires Aimed(goals, p, pts, m, size, tol) && i < |pts| && !Stayer(p, pts, m, size, tol, i)
    ensures Move(pts[i].name, pts[i].pos, goals[i]) in AimedMoves(goals, p, pts, m, size, tol)
  {
  }

  /** The triangle inequality round the circle. */
  lemma {:induction false} Triangle(a: int, b: int, c: int, size: nat)
    requires size > 0
    ensures Distance(a, c, size) <= Distance(a, b, size) + Distance(b, c, size)
  {
    var k := DistanceIsReached(a, b, size);
    var l := DistanceIsReached(b, c, size);
    assert (k + l) * size == k * size + l * size;
    DistanceIsLeast(a, c, k + l, size);
  }

  /** A goal is on the circle, within tol of its target, and less than that when the node moves. */
  lemma {:induction false} GoalNear(goals: seq<int>, p: Plan, pts: seq<Node>, m: nat, size: nat, tol: nat, i: nat)
    requires Aimed(goals, p, pts, m, size, tol) && i < |pts|
    ensures 0 <= goals[i] < size
    ensures var off := Distance(goals[i], Target(p.picks[i], m, size, p.off), size);
            if Stayer(p, pts, m, size, tol, i) then off <= tol else off < tol
  {
    assert AimedAt(goals[i], p, pts, m, size, tol, i);
    if Stayer(p, pts, m, size, tol, i) {
      assert Positions(pts)[i] == pts[i].pos;
    } else {
      var t := Target(p.picks[i], m, size, p.off);
      var d: nat :| d < tol && goals[i] == On(t, d, size);
      OnNear(p, pts, m, size, tol, i, d);
    }
  }

  lemma {:induction false} OnNear(p: Plan, pts: seq<Node>, m: nat, size: nat, tol: nat, i: nat, d: nat)
    requires Found(p, pts, m, size, tol) && i < |pts| && d < tol
    ensures var t := Target(p.picks[i], m, size, p.off);
            0 <= t < size && 0 <= On(t, d, size) < size && Distance(On(t, d, size), t, size) < tol
  {
    var t := Target(p.picks[i], m, size, p.off);
    TargetOnCircle(p, pts, m, size, tol, i);
    ToleranceIsSmall(m, size);
    OnIs(t, d, size);
    DistanceIsLeast(On(t, d, size), t, if t + d < size then 0 else -1, size);
  }

  lemma {:induction false} ToleranceIsSmall(m: nat, size: nat)
    requires m > 0 && 2 * m <= size
    ensures 1 <= Tolerance(m, size) <= size / m <= size && 2 * Tolerance(m, size) <= size / m
  {
    ToleranceFits(m, size);
    DivAtMost(size, m);
  }

  lemma {:induction false} DivAtMost(x: nat, m: nat)
    requires m > 0
    ensures x / m <= x
  {
    var q := x / m;
    assert x == q * m + x % m;
    MulLe(1, m, q);
  }

  /** No two nodes end on one position: one that stays is never met by one that moves. */
  lemma {:induction false} GoalsDiffer(goals: seq<int>, p: Plan, pts: seq<Node>, m: nat, size: nat, tol: nat, i: nat,
        j: nat)
    requires Aimed(goals, p, pts, m, size, tol) && i < |pts| && j < |pts| && i != j
    ensures goals[i] != goals[j]
  {
    var t, u := Target(p.picks[i], m, size, p.off), Target(p.picks[j], m, size, p.off);
    GoalNear(goals, p, pts, m, size, tol, i);
    GoalNear(goals, p, pts, m, size, tol, j);
    if goals[i] == goals[j] {
      if Stayer(p, pts, m, size, tol, i) && Stayer(p, pts, m, size, tol, j) {
        assert AimedAt(goals[i], p, pts, m, size, tol, i) && AimedAt(goals[j], p, pts, m, size, tol, j);
        IndexIsPlace(pts, size, i, j);
        IndexIsPlace(pts, size, j, i);
      } else {
        TargetsFar(p, pts, m, size, tol, i, j);
        DistanceSame(goals[i], t, size);
        Triangle(t, goals[i], u, size);
      }
    }
  }

  lemma {:induction false} TargetsFar(p: Plan, pts: seq<Node>, m: nat, size: nat, tol: nat, i: nat, j: nat)
    requires Found(p, pts, m, size, tol) && i < |pts| && j < |pts| && i != j
    ensures Distance(Target(p.picks[i], m, size, p.off), Target(p.picks[j], m, size, p.off), size) >= 2 * tol
  {
    ToleranceIsSmall(m, size);
    if i < j { PicksDiffer(p.picks, m, i, j); } else { PicksDiffer(p.picks, m, j, i); }
    TargetsApart(m, size, p.off, p.picks[i], p.picks[j]);
  }

  /** The nodes on their goals: no two on one position. */
  lemma {:induction false} LandedApart(goals: seq<int>, p: Plan, pts: seq<Node>, m: nat, size: nat, tol: nat)
    requires Aimed(goals, p, pts, m, size, tol)
    ensures Distinct(goals) && OnCircle(goals, size)
  {
    forall i, j | 0 <= i < j < |goals| ensures goals[i] != goals[j] { GoalsDiffer(goals, p, pts, m, size, tol, i, j); }
    forall i | 0 <= i < |goals| ensures 0 <= goals[i] < size { GoalNear(goals, p, pts, m, size, tol, i); }
  }

  /** The places at the start and at the end, node by node. */
  lemma {:induction false} PlacesOfPlan(goals: seq<int>, p: Plan, pts: seq<Node>, m: nat, size: nat, tol: nat)
    requires Aimed(goals, p, pts, m, size, tol)
    ensures var origin, goal := PlacesOf(pts), GoalPlaces(goals, pts);
            && Inside(origin, size) && Inside(goal, size) && AllApart(origin) && AllApart(goal) &&
                origin.Keys == goal.Keys
            && forall i :: 0 <= i < |pts| ==>
                pts[i].name in origin && origin[pts[i].name] == pts[i].pos && goal[pts[i].name] == goals[i]
  {
    var landed := Landed(pts, goals);
    LandedApart(goals, p, pts, m, size, tol);
    RingPlaces(pts, size);
    RingPlaces(landed, size);
    SamePlacesKeys(pts, landed);
    PlacesAre(pts);
    PlacesAre(landed);
    forall i | 0 <= i < |pts| ensures GoalPlaces(goals, pts)[pts[i].name] == goals[i] {
      assert landed[i].name == pts[i].name;
    }
  }

  lemma {:induction false} SamePlacesKeys(a: seq<Node>, b: seq<Node>)
    requires Distinct(Names(a)) && Names(a) == Names(b)
    ensures PlacesOf(a).Keys == PlacesOf(b).Keys
  {
    PlacesAre(a);
    PlacesAre(b);
    forall n: Name ensures n in PlacesOf(a) <==> n in PlacesOf(b) {
      if n in PlacesOf(a) {
        var i :| 0 <= i < |a| && a[i].name == n;
        assert Names(b)[i] == n;
      }
      if n in PlacesOf(b) {
        var i :| 0 <= i < |b| && b[i].name == n;
        assert Names(a)[i] == n;
      }
    }
  }

  lemma {:induction false} RingPlaces(ring: seq<Node>, size: nat)
    requires Distinct(Names(ring)) && Distinct(Positions(ring)) && OnCircle(Positions(ring), size)
    ensures Inside(PlacesOf(ring), size) && AllApart(PlacesOf(ring))
  {
    forall u | u in PlacesOf(ring) ensures 0 <= PlacesOf(ring)[u] < size {
      var i := NodeAt(ring, u);
      assert Positions(ring)[i] == ring[i].pos;
    }
    forall u, v | u in PlacesOf(ring) && v in PlacesOf(ring) && u != v ensures PlacesOf(ring)[u] != PlacesOf(ring)[v] {
      var i := NodeAt(ring, u);
      var j := NodeAt(ring, v);
      if i < j {
        assert Positions(ring)[i] != Positions(ring)[j];
      } else {
        assert Positions(ring)[j] != Positions(ring)[i];
      }
    }
  }

  lemma {:induction false} MovesPending(goals: seq<int>, p: Plan, pts: seq<Node>, m: nat, size: nat, tol: nat)
    requires Aimed(goals, p, pts, m, size, tol)
    ensures Pending(PlacesOf(pts), AimedMoves(goals, p, pts, m, size, tol), size)
    ensures forall mv :: mv in AimedMoves(goals, p, pts, m, size, tol) ==>
              mv.name in PlacesOf(pts) && mv.name in GoalPlaces(goals, pts)
              && GoalPlaces(goals, pts)[mv.name] == mv.dst % size
  {
    PlacesOfPlan(goals, p, pts, m, size, tol);
    var left, goal := AimedMoves(goals, p, pts, m, size, tol), GoalPlaces(goals, pts);
    forall mv | mv in left
      ensures mv.name in PlacesOf(pts) && mv.src % size == PlacesOf(pts)[mv.name] && goal[mv.name] == mv.dst % size
    {
      var i := AimedMovesAre(goals, p, pts, m, size, tol, mv);
      SmallMod(PlacesOf(pts)[mv.name], size);
      SmallMod(goal[mv.name], size);
    }
    forall a, b | a in left && b in left && a != b ensures a.name != b.name {
      var i := AimedMovesAre(goals, p, pts, m, size, tol, a);
      var j := AimedMovesAre(goals, p, pts, m, size, tol, b);
      if a.name == b.name { SameNameSameNode(pts, i, j); }
    }
  }

  lemma {:induction false} SameNameSameNode(pts: seq<Node>, i: nat, j: nat)
    requires Distinct(Names(pts)) && i < |pts| && j < |pts| && pts[i].name == pts[j].name
    ensures i == j
  {
    assert Names(pts)[i] == Names(pts)[j];
  }

  lemma {:induction false} StayersStay(goals: seq<int>, p: Plan, pts: seq<Node>, m: nat, size: nat, tol: nat)
    requires Aimed(goals, p, pts, m, size, tol)
    ensures var origin, goal, left := PlacesOf(pts), GoalPlaces(goals, pts), AimedMoves(goals, p, pts, m, size, tol);
            forall n :: n in origin && (forall mv :: mv in left ==> mv.name != n) ==> n in goal && origin[n] == goal[n]
  {
    PlacesOfPlan(goals, p, pts, m, size, tol);
    var origin, left := PlacesOf(pts), AimedMoves(goals, p, pts, m, size, tol);
    forall n | n in origin && (forall mv :: mv in left ==> mv.name != n)
        ensures origin[n] == GoalPlaces(goals, pts)[n] {
      var i := NodeAt(pts, n);
      assert AimedAt(goals[i], p, pts, m, size, tol, i);
      if !Stayer(p, pts, m, size, tol, i) { MoverIsLeft(goals, p, pts, m, size, tol, i); }
    }
  }

  // ----- no node stays: no target is occupied -----

  /** A plan with node b on target j, the others on the targets after it. */
  function Shifted(n: nat, b: nat, j: nat, m: nat): (q: seq<int>)
    requires m > 0
    ensures |q| == n && forall i :: 0 <= i < n ==> q[i] == (j + i - b) % m
  {
    seq(n, i requires 0 <= i < n => (j + i - b) % m)
  }

  lemma {:induction false} ShiftedKeepsOrder(n: nat, b: nat, j: nat, m: nat)
    requires n <= m && m > 0
    ensures KeepsOrder(Shifted(n, b, j, m), m)
  {
    var q := Shifted(n, b, j, m);
    forall i | 0 <= i < n ensures Turned(q, i, m) == i {
      ModMinus(j + i - b, j - b, m);
      SmallMod(i, m);
    }
  }

  lemma {:induction false} ModMinus(x: int, y: int, m: nat)
    requires m > 0
    ensures (x % m - y % m) % m == (x - y) % m
  {
    var a, b := x / m, y / m;
    assert x == a * m + x % m && y == b * m + y % m;
    assert (b - a) * m == b * m - a * m;
    ModShift(x - y, b - a, m);
  }

  lemma {:induction false} FewerMoves(ds: seq<nat>, tol: nat, b: nat)
    requires b < |ds| && ds[b] <= tol
    ensures Moves(ds, tol) < |ds|
  {
    var init := ds[..|ds| - 1];
    if b < |init| {
      FewerMoves(init, tol, b);
    } else {
      MovesAtMost(init, tol);
    }
  }

  lemma {:induction false} MovesAtMost(ds: seq<nat>, tol: nat)
    ensures Moves(ds, tol) <= |ds|
    ensures (forall i :: 0 <= i < |ds| ==> ds[i] > tol) ==> Moves(ds, tol) == |ds|
  {
    if ds != [] { MovesAtMost(ds[..|ds| - 1], tol); }
  }

  /** A target a node is near gives a plan in which that node stays. */
  lemma {:induction false} NearTargetSavesAMove(existing: seq<int>, m: nat, size: nat, off: int, tol: nat, b: nat,
        j: nat)
    returns (q: seq<int>)
    requires Spaced(existing, off, m, size) && b < |existing| && j < m
    requires Distance(existing[b], Target(j, m, size, off), size) <= tol
    ensures |q| == |existing| && KeepsOrder(q, m) && CostOn(existing, off, m, size, tol, q).moves < |existing|
  {
    q := Shifted(|existing|, b, j, m);
    ShiftedKeepsOrder(|existing|, b, j, m);
    SmallMod(j, m);
    FewerMoves(Distances(existing, BalancedPositions(m, size, off).value, size, q), tol, b);
  }

  lemma {:induction false} AllMove(p: Plan, pts: seq<Node>, m: nat, size: nat, tol: nat)
    requires Found(p, pts, m, size, tol) && forall i :: 0 <= i < |pts| ==> !Stayer(p, pts, m, size, tol, i)
    ensures p.cost.moves == |pts|
  {
    var ds := Distances(Positions(pts), BalancedPositions(m, size, p.off).value, size, p.picks);
    forall i | 0 <= i < |ds| ensures ds[i] > tol {
      assert !Stayer(p, pts, m, size, tol, i);
    }
    MovesAtMost(ds, tol);
  }

  /** When every node moves, fewest moves means no node is within tol of any target. */
  lemma {:induction false} NoTargetHeld(p: Plan, pts: seq<Node>, m: nat, size: nat, tol: nat, b: nat, j: nat)
    requires Found(p, pts, m, size, tol) && forall i :: 0 <= i < |pts| ==> !Stayer(p, pts, m, size, tol, i)
    requires b < |pts| && j < m
    ensures Distance(pts[b].pos, Target(j, m, size, p.off), size) > tol
  {
    AllMove(p, pts, m, size, tol);
    if Distance(pts[b].pos, Target(j, m, size, p.off), size) <= tol {
      var q := NearTargetSavesAMove(Positions(pts), m, size, p.off, tol, b, j);
    }
  }

  lemma {:induction false} FreshStart(goals: seq<int>, p: Plan, pts: seq<Node>, m: nat, size: nat, tol: nat)
    requires Aimed(goals, p, pts, m, size, tol) && forall i :: 0 <= i < |pts| ==> !Stayer(p, pts, m, size, tol, i)
    ensures OnFreshTargets(PlacesOf(pts), GoalPlaces(goals, pts), AimedMoves(goals, p, pts, m, size, tol), size)
  {
    PlacesOfPlan(goals, p, pts, m, size, tol);
    MovesPending(goals, p, pts, m, size, tol);
    StayersStay(goals, p, pts, m, size, tol);
    var origin, left := PlacesOf(pts), AimedMoves(goals, p, pts, m, size, tol);
    forall u, mv | u in origin && mv in left ensures origin[u] != mv.dst % size {
      var b := NodeAt(pts, u);
      var i := AimedMovesAre(goals, p, pts, m, size, tol, mv);
      NoTargetHeld(p, pts, m, size, tol, b, p.picks[i]);
      GoalNear(goals, p, pts, m, size, tol, i);
      SmallMod(goals[i], size);
    }
  }

  // ----- a node stays: the plan keeps the order seen from it -----

  lemma {:induction false} RelIs(g: int, c: int, w: int, k: int, size: nat)
    requires 0 <= g < size && 0 <= c < size && 0 <= w < size && g - c == w + k * size
    ensures Rel(g, c, size) == w
  {
    if k >= 1 { MulLe(1, k, size); }
    if k <= -2 { MulLe(k, -2, size); }
  }

  /** A position as its target, the distance between them one way or the other, and some turns. */
  lemma {:induction false} OffTarget(p: int, t: int, size: nat) returns (e: int, k: int)
    requires size > 0
    ensures Abs(e) == Distance(p, t, size) && p == t + e + k * size
  {
    var turns := DistanceIsReached(p, t, size);
    e := p - t - turns * size;
    k := turns;
  }

  /** How many targets past node s's the target of node i is, going round. */
  function Steps(picks: seq<int>, m: nat, s: nat, i: nat): int
    requires m > 0 && s < |picks| && i < |picks|
  {
    Turned(picks, i, m) - Turned(picks, s, m) + if i < s then m else 0
  }

  lemma {:induction false} StepsInRange(picks: seq<int>, m: nat, s: nat, i: nat)
    requires KeepsOrder(picks, m) && s < |picks| && i < |picks|
    ensures if i == s then Steps(picks, m, s, i) == 0 else 0 < Steps(picks, m, s, i) < m
  {
  }

  lemma {:induction false} StepsAreTurns(picks: seq<int>, m: nat, s: nat, i: nat) returns (k: int)
    requires KeepsOrder(picks, m) && s < |picks| && i < |picks|
    ensures picks[i] == picks[s] + Steps(picks, m, s, i) + k * m
  {
    var a, b := (picks[i] - picks[0]) / m, (picks[s] - picks[0]) / m;
    assert picks[i] - picks[0] == a * m + Turned(picks, i, m);
    assert picks[s] - picks[0] == b * m + Turned(picks, s, m);
    k := a - b - if i < s then 1 else 0;
    assert (a - b) * m == a * m - b * m;
    assert (a - b - 1) * m == (a - b) * m - m;
  }

  /** How far past a target the one some steps on is. */
  function Past(j: int, steps: int, m: nat, size: nat, off: int): int
    requires m > 0
  {
    Target(j + steps, m, size, off) - Target(j, m, size, off)
  }

  /** How far past node s's target that of node i is. */
  ghost function Reach(p: Plan, pts: seq<Node>, m: nat, size: nat, tol: nat, s: nat, i: nat): int
    requires Found(p, pts, m, size, tol) && s < |pts| && i < |pts|
  {
    Past(p.picks[s], Steps(p.picks, m, s, i), m, size, p.off)
  }

  /** A target u steps on from another is at least a spacing past it, and a spacing short of a turn. */
  lemma {:induction false} SpotReach(j: int, u: int, m: nat, size: nat)
    requires 0 < u < m && size / m >= 1
    ensures Spot(j, m, size) + size / m <= Spot(j + u, m, size) <= Spot(j, m, size) + size - size / m
  {
    SpotAbove(j, j + u, m, size);
    SpotAbove(j + u, j + m, m, size);
    SpotTurn(j, m, size);
  }

  lemma {:induction false} StepsReach(picks: seq<int>, m: nat, size: nat, s: nat, i: nat, off: int)
    requires KeepsOrder(picks, m) && s < |picks| && i < |picks| && i != s && size / m >= 1
    ensures size / m <= Past(picks[s], Steps(picks, m, s, i), m, size, off) <= size - size / m
  {
    StepsInRange(picks, m, s, i);
    SpotReach(picks[s], Steps(picks, m, s, i), m, size);
  }

  lemma {:induction false} SpacedOut(p: Plan, pts: seq<Node>, m: nat, size: nat, tol: nat)
    requires Found(p, pts, m, size, tol)
    ensures size / m >= 1 && KeepsOrder(p.picks, m) && |p.picks| == |pts|
  {
    DivAtLeast(size, m, 2);
  }

  lemma {:induction false} ReachBounds(p: Plan, pts: seq<Node>, m: nat, size: nat, tol: nat, s: nat, i: nat)
    requires Found(p, pts, m, size, tol) && s < |pts| && i < |pts| && i != s
    ensures size / m <= Reach(p, pts, m, size, tol, s, i) <= size - size / m
  {
    SpacedOut(p, pts, m, size, tol);
    StepsReach(p.picks, m, size, s, i, p.off);
  }

  lemma {:induction false} ReachRises(p: Plan, pts: seq<Node>, m: nat, size: nat, tol: nat, s: nat, i: nat, j: nat)
    requires Found(p, pts, m, size, tol) && s < |pts| && i < |pts| && j < |pts|
    requires Steps(p.picks, m, s, i) < Steps(p.picks, m, s, j)
    ensures Reach(p, pts, m, size, tol, s, j) >= Reach(p, pts, m, size, tol, s, i) + size / m
  {
    SpacedOut(p, pts, m, size, tol);
    PastRises(p.picks[s], Steps(p.picks, m, s, i), Steps(p.picks, m, s, j), m, size, p.off);
  }

  lemma {:induction false} PastRises(j: int, u: int, v: int, m: nat, size: nat, off: int)
    requires m > 0 && u < v && size / m >= 1
    ensures Past(j, v, m, size, off) >= Past(j, u, m, size, off) + size / m
  {
    SpotAbove(j + u, j + v, m, size);
  }

  lemma {:induction false} TargetIsReach(p: Plan, pts: seq<Node>, m: nat, size: nat, tol: nat, s: nat, i: nat)
      returns (k: int)
    requires Found(p, pts, m, size, tol) && s < |pts| && i < |pts|
    ensures Target(p.picks[i], m, size, p.off)
            == Target(p.picks[s], m, size, p.off) + Reach(p, pts, m, size, tol, s, i) + k * size
  {
    SpacedOut(p, pts, m, size, tol);
    k := StepsAreTurns(p.picks, m, s, i);
    PastTurns(p.picks[s], Steps(p.picks, m, s, i), p.picks[i], k, m, size, p.off);
  }

  lemma {:induction false} PastTurns(j: int, steps: int, i: int, k: int, m: nat, size: nat, off: int)
    requires m > 0 && size > 0 && i == j + steps + k * m
    ensures Target(i, m, size, off) == Target(j, m, size, off) + Past(j, steps, m, size, off) + k * size
  {
    TargetTurns(j + steps, k, m, size, off);
  }

  /** Nodes farther round from node s are given targets farther round from its own. */
  lemma {:induction false} StepsFollowOrder(p: Plan, pts: seq<Node>, m: nat, size: nat, tol: nat, s: nat, i: nat,
        j: nat)
    requires Found(p, pts, m, size, tol) && s < |pts| && i < |pts| && j < |pts|
    requires Rel(pts[i].pos, pts[s].pos, size) < Rel(pts[j].pos, pts[s].pos, size)
    ensures Steps(p.picks, m, s, i) < Steps(p.picks, m, s, j)
  {
    IndexIsPlace(pts, size, i, s);
    IndexIsPlace(pts, size, j, s);
    IndexIsPlace(pts, size, i, j);
    TurnedRises(p.picks, m, i, j);
  }

  lemma {:induction false} IndexIsPlace(pts: seq<Node>, size: nat, i: nat, j: nat)
    requires Valid(pts, size) && i < |pts| && j < |pts|
    ensures i < j <==> pts[i].pos < pts[j].pos
    ensures 0 <= pts[i].pos < size && 0 <= pts[j].pos < size
  {
    var ps := Positions(pts);
    assert ps[i] == pts[i].pos && ps[j] == pts[j].pos;
  }

  lemma {:induction false} TurnedRises(picks: seq<int>, m: nat, i: nat, j: nat)
    requires KeepsOrder(picks, m) && i < |picks| && j < |picks|
    ensures i < j <==> Turned(picks, i, m) < Turned(picks, j, m)
  {
  }

  lemma {:induction false} MoverSeen(p: Plan, pts: seq<Node>, m: nat, size: nat, tol: nat, s: nat, i: nat, e: int,
        turns: int, d: nat, goal: int)
    requires Found(p, pts, m, size, tol) && s < |pts| && i < |pts| && i != s
    requires d < tol && goal == On(Target(p.picks[i], m, size, p.off), d, size)
    requires Abs(e) <= tol && 2 * tol <= size / m && pts[s].pos == Target(p.picks[s], m, size, p.off) + e + turns * size
    ensures var w := Reach(p, pts, m, size, tol, s, i) - e; 0 < w && Rel(goal, pts[s].pos, size) == w + d
  {
    ReachBounds(p, pts, m, size, tol, s, i);
    IndexIsPlace(pts, size, i, s);
    IndexIsPlace(pts, size, s, i);
    var k := TargetIsReach(p, pts, m, size, tol, s, i);
    TargetOnCircle(p, pts, m, size, tol, i);
    ToleranceIsSmall(m, size);
    var lap := OnLaps(Target(p.picks[i], m, size, p.off), d, size);
    GapIs(goal, pts[s].pos, Target(p.picks[i], m, size, p.off), Target(p.picks[s], m, size, p.off),
          Reach(p, pts, m, size, tol, s, i), e, d, k, lap, turns, size);
    RelIs(goal, pts[s].pos, Reach(p, pts, m, size, tol, s, i) - e + d, k - lap - turns, size);
  }

  lemma {:induction false} GapIs(goal: int, c: int, t: int, u: int, r: int, e: int, d: int, k: int, lap: int,
        turns: int, size: nat)
    requires goal == t + d - lap * size && t == u + r + k * size && c == u + e + turns * size
    ensures goal - c == r - e + d + (k - lap - turns) * size
  {
    RoundsOnce(k, -lap, turns, size);
  }

  lemma {:induction false} OnLaps(t: int, d: nat, size: nat) returns (lap: int)
    requires 0 <= t < size && d <= size
    ensures On(t, d, size) == t + d - lap * size && 0 <= On(t, d, size) < size
  {
    OnIs(t, d, size);
    lap := if t + d < size then 0 else 1;
  }

  lemma {:induction false} StayerSeen(p: Plan, pts: seq<Node>, m: nat, size: nat, tol: nat, s: nat, i: nat, e: int,
        turns: int)
    requires Found(p, pts, m, size, tol) && s < |pts| && i < |pts| && i != s && Stayer(p, pts, m, size, tol, i)
    requires Abs(e) <= tol && 2 * tol <= size / m && pts[s].pos == Target(p.picks[s], m, size, p.off) + e + turns * size
    ensures var w, y := Reach(p, pts, m, size, tol, s, i) - e, Rel(pts[i].pos, pts[s].pos, size);
            0 < y && w - tol <= y <= w + tol
  {
    ReachBounds(p, pts, m, size, tol, s, i);
    IndexIsPlace(pts, size, i, s);
    IndexIsPlace(pts, size, s, i);
    var k := TargetIsReach(p, pts, m, size, tol, s, i);
    var e', k' := OffTarget(pts[i].pos, Target(p.picks[i], m, size, p.off), size);
    RoundsOnce(k, k', turns, size);
    NearbySeen(pts[i].pos, pts[s].pos, Reach(p, pts, m, size, tol, s, i) - e, e', k + k' - turns, size);
  }

  /** Where a node ends, seen from the anchor: less than tol past its target when it
      moves, within tol of it when it stays. */
  lemma {:induction false} GoalSeen(goals: seq<int>, p: Plan, pts: seq<Node>, m: nat, size: nat, tol: nat, s: nat,
        i: nat, e: int, turns: int)
    requires Aimed(goals, p, pts, m, size, tol) && s < |pts| && i < |pts| && i != s
    requires Abs(e) <= tol && pts[s].pos == Target(p.picks[s], m, size, p.off) + e + turns * size
    ensures var w, y := Reach(p, pts, m, size, tol, s, i) - e, Rel(goals[i], pts[s].pos, size);
            0 < y && if Stayer(p, pts, m, size, tol, i) then w - tol <= y <= w + tol else w <= y < w + tol
  {
    ToleranceFits(m, size);
    assert AimedAt(goals[i], p, pts, m, size, tol, i);
    if Stayer(p, pts, m, size, tol, i) {
      StayerSeen(p, pts, m, size, tol, s, i, e, turns);
    } else {
      var d: nat :| d < tol && goals[i] == On(Target(p.picks[i], m, size, p.off), d, size);
      MoverSeen(p, pts, m, size, tol, s, i, e, turns, d, goals[i]);
    }
  }

  lemma {:induction false} RoundsOnce(a: int, b: int, c: int, size: nat)
    ensures (a + b - c) * size == a * size + b * size - c * size
  {
  }

  lemma {:induction false} NearbySeen(g: int, c: int, w: int, e: int, k: int, size: nat)
    requires 0 <= g < size && 0 <= c < size && g != c && 0 <= w + e <= size && g - c == w + e + k * size
    ensures Rel(g, c, size) == w + e && w + e > 0
  {
    if w + e == size {
      assert (k + 1) * size == k * size + size;
      RelIs(g, c, 0, k + 1, size);
    } else {
      RelIs(g, c, w + e, k, size);
    }
  }

  lemma {:induction false} TargetOnCircle(p: Plan, pts: seq<Node>, m: nat, size: nat, tol: nat, i: nat)
    requires Found(p, pts, m, size, tol) && i < |pts|
    ensures 0 <= Target(p.picks[i], m, size, p.off) < size
  {
    BalancedValid(m, size, p.off);
    assert BalancedPositions(m, size, p.off).value[p.picks[i]] == Target(p.picks[i], m, size, p.off);
  }

  /** Seen from a node that stays, the nodes end in the order they started in. */
  lemma {:induction false} GoalsInOrder(goals: seq<int>, p: Plan, pts: seq<Node>, m: nat, size: nat, tol: nat, s: nat,
        i: nat, j: nat)
    requires Aimed(goals, p, pts, m, size, tol) && Stayer(p, pts, m, size, tol, s) && i < |pts| && j < |pts|
    requires Rel(pts[i].pos, pts[s].pos, size) < Rel(pts[j].pos, pts[s].pos, size)
    ensures Rel(goals[i], pts[s].pos, size) < Rel(goals[j], pts[s].pos, size)
  {
    ToleranceFits(m, size);
    IndexIsPlace(pts, size, i, s);
    IndexIsPlace(pts, size, j, s);
    var e, turns := OffTarget(pts[s].pos, Target(p.picks[s], m, size, p.off), size);
    assert j != s;
    GoalSeen(goals, p, pts, m, size, tol, s, j, e, turns);
    assert AimedAt(goals[i], p, pts, m, size, tol, i) && AimedAt(goals[j], p, pts, m, size, tol, j);
    if i != s {
      GoalSeen(goals, p, pts, m, size, tol, s, i, e, turns);
      StepsFollowOrder(p, pts, m, size, tol, s, i, j);
      ReachRises(p, pts, m, size, tol, s, i, j);
    }
  }

  lemma {:induction false} GoalKeepsOrder(goals: seq<int>, p: Plan, pts: seq<Node>, m: nat, size: nat, tol: nat, s: nat)
    requires Aimed(goals, p, pts, m, size, tol) && Stayer(p, pts, m, size, tol, s)
    ensures InOrder(PlacesOf(pts), GoalPlaces(goals, pts), pts[s].pos, size)
  {
    PlacesOfPlan(goals, p, pts, m, size, tol);
    var origin, goal, c := PlacesOf(pts), GoalPlaces(goals, pts), pts[s].pos;
    forall u, v | u in origin && v in origin && Rel(origin[u], c, size) < Rel(origin[v], c, size)
      ensures Rel(goal[u], c, size) < Rel(goal[v], c, size)
    {
      var i := NodeAt(pts, u);
      var j := NodeAt(pts, v);
      GoalsInOrder(goals, p, pts, m, size, tol, s, i, j);
    }
  }

  lemma {:induction false} AnchoredStart(goals: seq<int>, p: Plan, pts: seq<Node>, m: nat, size: nat, tol: nat, s: nat)
    requires Aimed(goals, p, pts, m, size, tol) && Stayer(p, pts, m, size, tol, s)
    ensures OnTheWay(PlacesOf(pts), PlacesOf(pts), GoalPlaces(goals, pts), AimedMoves(goals, p, pts, m, size, tol),
        pts[s].name, size)
  {
    PlacesOfPlan(goals, p, pts, m, size, tol);
    MovesPending(goals, p, pts, m, size, tol);
    StayersStay(goals, p, pts, m, size, tol);
    var origin, goal, left := PlacesOf(pts), GoalPlaces(goals, pts), AimedMoves(goals, p, pts, m, size, tol);
    GoalKeepsOrder(goals, p, pts, m, size, tol, s);
    assert AimedAt(goals[s], p, pts, m, size, tol, s);
    forall mv | mv in left ensures mv.name != pts[s].name {
      StayerIsNoMover(goals, p, pts, m, size, tol, s, mv);
    }
  }

  lemma {:induction false} StayerIsNoMover(goals: seq<int>, p: Plan, pts: seq<Node>, m: nat, size: nat, tol: nat,
        s: nat, mv: Move)
    requires Aimed(goals, p, pts, m, size, tol) && Stayer(p, pts, m, size, tol, s) &&
        mv in AimedMoves(goals, p, pts, m, size, tol)
    ensures mv.name != pts[s].name
  {
    var i := AimedMovesAre(goals, p, pts, m, size, tol, mv);
    if mv.name == pts[s].name { SameNameSameNode(pts, i, s); }
  }

  // ----- the theorems -----

  /** The moves of a balanced plan, their targets moved on by less than the tolerance,
      never block each other, and whenever a node stays, every step also keeps the
      cyclic order of the ring. */
  lemma {:induction false} AimedMovesCanRun(goals: seq<int>, p: Plan, pts: seq<Node>, m: nat, size: nat, tol: nat,
        run: seq<Move>)
    requires Aimed(goals, p, pts, m, size, tol)
    requires Runs(PlacesOf(pts), AimedMoves(goals, p, pts, m, size, tol), run, size)
    ensures !Stuck(After(PlacesOf(pts), run, size), AimedMoves(goals, p, pts, m, size, tol) - SetOf(run), size)
    ensures SomeoneStays(p, pts, m, size, tol) ==> EveryStepKeepsOrder(PlacesOf(pts), run, size)
  {
    var left, goal := AimedMoves(goals, p, pts, m, size, tol), GoalPlaces(goals, pts);
    if SomeoneStays(p, pts, m, size, tol) {
      var s: nat :| Stayer(p, pts, m, size, tol, s);
      AnchoredStart(goals, p, pts, m, size, tol, s);
      AnchoredRunIsSafe(PlacesOf(pts), PlacesOf(pts), goal, left, pts[s].name, run, size);
    } else {
      FreshStart(goals, p, pts, m, size, tol);
      FreshRunIsSafe(PlacesOf(pts), goal, left, run, size);
    }
  }

  /** The moves of a plan as it is. */
  ghost function MovesOfPlan(p: Plan, pts: seq<Node>, m: nat, size: nat, tol: nat): set<Move>
    requires Found(p, pts, m, size, tol)
  {
    SetOf(MovesOf(pts, Targets(p, m, size), p.picks, size, tol, |pts|))
  }

  /** Targets as they are aim at themselves. */
  lemma {:induction false} PlanIsAimed(p: Plan, pts: seq<Node>, m: nat, size: nat, tol: nat) returns (goals: seq<int>)
    requires Found(p, pts, m, size, tol)
    ensures Aimed(goals, p, pts, m, size, tol)
    ensures AimedMoves(goals, p, pts, m, size, tol) == MovesOfPlan(p, pts, m, size, tol)
  {
    var targets := Targets(p, m, size);
    goals := Positions(Settled(pts, targets, p.picks, size, tol));
    ToleranceFits(m, size);
    forall i | 0 <= i < |pts| ensures AimedAt(goals[i], p, pts, m, size, tol, i) {
      var t := Target(p.picks[i], m, size, p.off);
      TargetOnCircle(p, pts, m, size, tol, i);
      OnIs(t, 0, size);
    }
    var left, moves := AimedMoves(goals, p, pts, m, size, tol), MovesOf(pts, targets, p.picks, size, tol, |pts|);
    forall mv ensures mv in left <==> mv in moves {
      MovesAre(pts, targets, p.picks, size, tol, |pts|, mv);
      if mv in left {
        var i := AimedMovesAre(goals, p, pts, m, size, tol, mv);
        assert IsMove(pts, targets, p.picks, size, tol, i, mv);
      }
      if mv in moves {
        var i :| 0 <= i < |pts| && IsMove(pts, targets, p.picks, size, tol, i, mv);
        assert !Stayer(p, pts, m, size, tol, i);
      }
    }
  }

  /** The moves of a balanced plan never block each other, and whenever a node
      stays, every step also keeps the cyclic order of the ring. */
  lemma {:induction false} BalancedMovesCanRun(p: Plan, pts: seq<Node>, m: nat, size: nat, tol: nat, run: seq<Move>)
    requires Found(p, pts, m, size, tol) && Runs(PlacesOf(pts), MovesOfPlan(p, pts, m, size, tol), run, size)
    ensures !Stuck(After(PlacesOf(pts), run, size), MovesOfPlan(p, pts, m, size, tol) - SetOf(run), size)
    ensures SomeoneStays(p, pts, m, size, tol) ==> EveryStepKeepsOrder(PlacesOf(pts), run, size)
  {
    var goals := PlanIsAimed(p, pts, m, size, tol);
    AimedMovesCanRun(goals, p, pts, m, size, tol, run);
  }

  /** Ordering the moves of a balanced plan never fails: every move is there, and
      no step puts a node on a token another one holds. */
  method OrderBalanced(plan: BalancedPlan, ghost p: Plan, pts: seq<Node>, nodes: seq<NewNode>, size: nat)
    returns (r: Result<seq<Move>>)
    requires 0 < |pts| + |nodes| && Carries(plan, p, pts, nodes, size, Tolerance(|pts| + |nodes|, size))
    ensures r.Ok? && Distinct(r.value) && SetOf(r.value) == SetOf(plan.moves)
    ensures Runs(PlacesOf(pts), SetOf(plan.moves), r.value, size)
    ensures SomeoneStays(p, pts, |pts| + |nodes|, size, Tolerance(|pts| + |nodes|, size)) ==>
              EveryStepKeepsOrder(PlacesOf(pts), r.value, size)
  {
    ghost var m, tol := |pts| + |nodes|, Tolerance(|pts| + |nodes|, size);
    MoversDiffer(pts, Targets(p, m, size), p.picks, size, tol, |pts|);
    ghost var done;
    r, done := OrderMoves(PlacesOf(pts), plan.moves, size);
    BalancedMovesCanRun(p, pts, m, size, tol, done);
    RunTakesOnce(PlacesOf(pts), SetOf(plan.moves), done, size);
  }
}
