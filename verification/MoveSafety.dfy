/** What the order of moves guarantees over a whole run. */
module MoveSafety {
  import opened Lists
  import opened Ring
  import opened MoveOrder

  // ----- any moves -----

  /** The moves left are of different nodes of the ring, each from where it is. */
  ghost predicate Pending(pos: Places, left: set<Move>, size: nat)
    requires size > 0
  {
    && (forall mv :: mv in left ==> mv.name in pos && mv.src % size == pos[mv.name])
    && forall a, b :: a in left && b in left && a != b ==> a.name != b.name
  }

  lemma {:induction false} StepKeepsApart(pos: Places, left: set<Move>, mv: Move, size: nat)
    requires size > 0 && Inside(pos, size) && AllApart(pos) && Pending(pos, left, size)
    requires mv in left && Free(pos, mv, size)
    ensures Inside(Apply(pos, mv, size), size) && AllApart(Apply(pos, mv, size))
    ensures Pending(Apply(pos, mv, size), left - {mv}, size)
  {
  }

  /** No two nodes share a token after any step of any run. */
  lemma {:induction false} RunKeepsApart(pos: Places, left: set<Move>, run: seq<Move>, k: nat, size: nat)
    requires size > 0 && Inside(pos, size) && AllApart(pos) && Pending(pos, left, size)
    requires Runs(pos, left, run, size) && k <= |run|
    ensures var now := After(pos, run[..k], size);
            && Inside(now, size) && AllApart(now) && now.Keys == pos.Keys
            && Pending(now, left - SetOf(run[..k]), size)
    decreases k
  {
    if k == 0 {
      assert left - SetOf(run[..0]) == left;
    } else {
      StepKeepsApart(pos, left, run[0], size);
      RunKeepsApart(Apply(pos, run[0], size), left - {run[0]}, run[1..], k - 1, size);
      assert run[..k][1..] == run[1..][..k - 1];
      assert SetOf(run[..k]) == {run[0]} + SetOf(run[1..][..k - 1]);
      assert left - {run[0]} - SetOf(run[1..][..k - 1]) == left - SetOf(run[..k]);
    }
  }

  /** A run takes each move once. */
  lemma {:induction false} RunTakesOnce(pos: Places, left: set<Move>, run: seq<Move>, size: nat)
    requires size > 0 && Runs(pos, left, run, size)
    ensures Distinct(run) && SetOf(run) <= left
    decreases |run|
  {
    if run != [] {
      RunTakesOnce(Apply(pos, run[0], size), left - {run[0]}, run[1..], size);
      forall i | 1 <= i < |run| ensures run[i] != run[0] {
        assert run[1..][i - 1] in SetOf(run[1..]);
      }
      assert run == [run[0]] + run[1..];
      SetOfCons(run);
    }
  }

  lemma {:induction false} SetOfCons(run: seq<Move>)
    requires run != []
    ensures SetOf(run) == {run[0]} + SetOf(run[1..])
  {
    assert run == [run[0]] + run[1..];
  }

  // ----- a plan that keeps the ring order, with a node that stays -----

  /** How far round from c a position is. */
  function Rel(p: int, c: int, size: nat): int {
    if p >= c then p - c else p - c + size
  }

  /** Going round from c, the nodes are in the order they started in. */
  ghost predicate InOrder(origin: Places, pos: Places, c: int, size: nat) {
    && pos.Keys == origin.Keys
    && forall u, v :: u in origin && v in origin && Rel(origin[u], c, size) < Rel(origin[v], c, size) ==>
         Rel(pos[u], c, size) < Rel(pos[v], c, size)
  }

  /** Part of the way from origin to goal: the nodes still to move are where they
      started, the others where they end, and the anchor stays. */
  ghost predicate OnTheWay(origin: Places, pos: Places, goal: Places, left: set<Move>, anchor: Name, size: nat)
    requires size > 0
  {
    && Inside(origin, size) && Inside(pos, size) && Inside(goal, size) && AllApart(origin)
    && anchor in origin && anchor in pos && anchor in goal && origin[anchor] == pos[anchor] == goal[anchor]
    && InOrder(origin, pos, origin[anchor], size) && InOrder(origin, goal, origin[anchor], size)
    && Pending(pos, left, size)
    && (forall mv :: mv in left ==>
        mv.name != anchor && pos[mv.name] == origin[mv.name] && goal[mv.name] == mv.dst % size)
    && forall n :: n in pos && (forall mv :: mv in left ==> mv.name != n) ==> pos[n] == goal[n]
  }

  lemma {:induction false} InOrderApart(origin: Places, pos: Places, c: int, size: nat)
    requires InOrder(origin, pos, c, size) && AllApart(origin) && Inside(origin, size) && Inside(pos, size) &&
        0 <= c < size
    ensures AllApart(pos)
  {
    forall u, v | u in pos && v in pos && u != v ensures pos[u] != pos[v] {
      assert Rel(origin[u], c, size) < Rel(origin[v], c, size) || Rel(origin[v], c, size) < Rel(origin[u], c, size);
    }
  }

  /** Seen from c, o is on the same side of a and of b exactly when the arc
      between them that has o is also the one that has c, or neither has. */
  lemma {:induction false} SameSide(o: int, a: int, b: int, c: int, size: nat)
    requires 0 <= o < size && 0 <= a < size && 0 <= b < size && 0 <= c < size
    requires o != a && o != b && c != a && c != b
    ensures (Rel(o, c, size) < Rel(a, c, size) <==> Rel(o, c, size) < Rel(b, c, size)) <==>
            (Between(o, a, b) <==> Between(c, a, b))
  {
  }

  /** Seen from c, every other node is on the same side of the move's two ends. */
  ghost predicate Sides(pos: Places, mv: Move, c: int, size: nat)
    requires size > 0
  {
    forall o :: o in Others(pos, mv.name) ==>
      (Rel(o, c, size) < Rel(mv.src % size, c, size) <==> Rel(o, c, size) < Rel(mv.dst % size, c, size))
  }

  lemma {:induction false} SidesArePasses(pos: Places, mv: Move, c: int, size: nat)
    requires size > 0 && Inside(pos, size) && AllApart(pos) && c in Others(pos, mv.name)
    requires mv.name in pos && mv.src % size == pos[mv.name] && Free(pos, mv, size)
    ensures Passes(pos, mv, size) <==> Sides(pos, mv, c, size)
  {
    var a, b, others := mv.src % size, mv.dst % size, Others(pos, mv.name);
    assert a !in others && b !in others;
    GapMeans(a, b, others);
    forall o | o in others
      ensures (Rel(o, c, size) < Rel(a, c, size) <==> Rel(o, c, size) < Rel(b, c, size)) <==>
          (Between(o, a, b) <==> Between(c, a, b))
    {
      SameSide(o, a, b, c, size);
    }
  }

  /** The side another node is on, seen from c, is its place in the order. */
  lemma {:induction false} SideIsPlace(origin: Places, pos: Places, x: Name, n: Name, c: int, size: nat)
    requires 0 <= c < size && Inside(origin, size) && AllApart(origin) && InOrder(origin, pos, c, size)
    requires x in origin && n in origin && n != x
    ensures Rel(pos[n], c, size) < Rel(pos[x], c, size) <==> Rel(origin[n], c, size) < Rel(origin[x], c, size)
  {
    assert Rel(origin[n], c, size) != Rel(origin[x], c, size);
  }

  lemma {:induction false} OrderGivesSides(origin: Places, pos: Places, mv: Move, c: int, size: nat)
    requires size > 0 && 0 <= c < size && Inside(origin, size) && AllApart(origin) && InOrder(origin, pos, c, size)
    requires mv.name in pos && mv.src % size == pos[mv.name]
    requires InOrder(origin, Apply(pos, mv, size), c, size)
    ensures Sides(pos, mv, c, size)
  {
    var pos' := Apply(pos, mv, size);
    forall o | o in Others(pos, mv.name)
      ensures Rel(o, c, size) < Rel(mv.src % size, c, size) <==> Rel(o, c, size) < Rel(mv.dst % size, c, size)
    {
      var n :| n in pos && n != mv.name && pos[n] == o;
      SideIsPlace(origin, pos, mv.name, n, c, size);
      SideIsPlace(origin, pos', mv.name, n, c, size);
    }
  }

  lemma {:induction false} SidesGiveOrder(origin: Places, pos: Places, mv: Move, c: int, size: nat)
    requires size > 0 && 0 <= c < size && Inside(origin, size) && AllApart(origin) && InOrder(origin, pos, c, size)
    requires Inside(pos, size) && mv.name in pos && mv.src % size == pos[mv.name] && Free(pos, mv, size)
    requires Sides(pos, mv, c, size)
    ensures InOrder(origin, Apply(pos, mv, size), c, size)
  {
    var pos', x := Apply(pos, mv, size), mv.name;
    forall u, v | u in origin && v in origin && Rel(origin[u], c, size) < Rel(origin[v], c, size)
      ensures Rel(pos'[u], c, size) < Rel(pos'[v], c, size)
    {
      if v == x {
        assert pos[u] in Others(pos, x);
      } else if u == x {
        assert pos[v] in Others(pos, x);
        SideIsPlace(origin, pos, x, v, c, size);
      }
    }
  }

  /** A move left is free and passes no node exactly when the order seen from the anchor stays. */
  lemma {:induction false} PassesIsInOrder(origin: Places, pos: Places, goal: Places, left: set<Move>, anchor: Name,
        mv: Move, size: nat)
    requires size > 0 && OnTheWay(origin, pos, goal, left, anchor, size) && mv in left
    ensures Eligible(pos, mv, size) <==> InOrder(origin, Apply(pos, mv, size), origin[anchor], size)
  {
    var c, pos' := origin[anchor], Apply(pos, mv, size);
    InOrderApart(origin, pos, c, size);
    assert pos[anchor] in Others(pos, mv.name);
    if InOrder(origin, pos', c, size) {
      InOrderApart(origin, pos', c, size);
      OrderGivesSides(origin, pos, mv, c, size);
      ApartIsFree(pos, mv, size);
      SidesArePasses(pos, mv, c, size);
    } else if Free(pos, mv, size) {
      SidesArePasses(pos, mv, c, size);
      if Sides(pos, mv, c, size) { SidesGiveOrder(origin, pos, mv, c, size); }
    }
  }

  lemma {:induction false} ApartIsFree(pos: Places, mv: Move, size: nat)
    requires size > 0 && AllApart(Apply(pos, mv, size))
    ensures Free(pos, mv, size)
  {
    var pos' := Apply(pos, mv, size);
    forall n | n in pos && n != mv.name ensures pos[n] != mv.dst % size {
      assert n in pos' && mv.name in pos' && pos'[n] != pos'[mv.name];
    }
  }

  /** A mover that goes clockwise. */
  predicate Ahead(pos: Places, goal: Places, mv: Move, c: int, size: nat)
    requires mv.name in pos && mv.name in goal
  {
    Rel(pos[mv.name], c, size) < Rel(goal[mv.name], c, size)
  }

  /** The mover farthest round from c, or the nearest. */
  lemma {:induction false} Extreme(pos: Places, movers: set<Move>, c: int, size: nat, farthest: bool) returns (mv: Move)
    requires movers != {} && forall o :: o in movers ==> o.name in pos
    ensures mv in movers
    ensures forall o :: o in movers ==>
              if farthest then Rel(pos[o.name], c, size) <= Rel(pos[mv.name], c, size)
              else Rel(pos[mv.name], c, size) <= Rel(pos[o.name], c, size)
  {
    mv :| mv in movers;
    var first, rest := mv, movers - {mv};
    if rest != {} {
      var best := Extreme(pos, rest, c, size, farthest);
      var r, s := Rel(pos[best.name], c, size), Rel(pos[mv.name], c, size);
      if (farthest && r > s) || (!farthest && r < s) { mv := best; }
    }
    forall o | o in movers
      ensures if farthest then Rel(pos[o.name], c, size) <= Rel(pos[mv.name], c, size)
              else Rel(pos[mv.name], c, size) <= Rel(pos[o.name], c, size)
    {
      assert o == first || o in rest;
    }
  }

  lemma {:induction false} FarthestPasses(origin: Places, pos: Places, goal: Places, left: set<Move>, anchor: Name,
        size: nat, ahead: set<Move>)
    requires size > 0 && OnTheWay(origin, pos, goal, left, anchor, size) && ahead != {}
    requires forall mv :: mv in ahead <==> mv in left && Ahead(pos, goal, mv, origin[anchor], size)
    ensures exists mv :: mv in left && Eligible(pos, mv, size)
  {
    var mv := Extreme(pos, ahead, origin[anchor], size, true);
    FarthestIsClear(origin, pos, goal, left, anchor, mv, size);
    PassesIsInOrder(origin, pos, goal, left, anchor, mv, size);
  }

  lemma {:induction false} NearestPasses(origin: Places, pos: Places, goal: Places, left: set<Move>, anchor: Name,
        size: nat)
    requires size > 0 && OnTheWay(origin, pos, goal, left, anchor, size) && left != {}
    requires forall o :: o in left ==> !Ahead(pos, goal, o, origin[anchor], size)
    ensures exists mv :: mv in left && Eligible(pos, mv, size)
  {
    var mv := Extreme(pos, left, origin[anchor], size, false);
    NearestIsClear(origin, pos, goal, left, anchor, mv, size);
    PassesIsInOrder(origin, pos, goal, left, anchor, mv, size);
  }

  /** Some mover always has a clear path: of those going clockwise the farthest
      round, or when none does the nearest. */
  lemma {:induction false} SomeMoverPasses(origin: Places, pos: Places, goal: Places, left: set<Move>, anchor: Name,
        size: nat)
    requires size > 0 && OnTheWay(origin, pos, goal, left, anchor, size) && left != {}
    ensures exists mv :: mv in left && Eligible(pos, mv, size)
  {
    var ahead := set mv | mv in left && Ahead(pos, goal, mv, origin[anchor], size);
    if ahead != {} {
      FarthestPasses(origin, pos, goal, left, anchor, size, ahead);
    } else {
      forall o | o in left ensures !Ahead(pos, goal, o, origin[anchor], size) { assert o !in ahead; }
      NearestPasses(origin, pos, goal, left, anchor, size);
    }
  }

  /** A node beside one that moves, seen from the anchor: its own place is where it
      started, or where it ends. */
  lemma {:induction false} StartedOrEnded(origin: Places, pos: Places, goal: Places, left: set<Move>, anchor: Name,
        w: Name, size: nat)
    requires size > 0 && OnTheWay(origin, pos, goal, left, anchor, size) && w in origin
    ensures pos[w] == goal[w] || exists o :: o in left && o.name == w && pos[w] == origin[w]
  {
    if forall o :: o in left ==> o.name != w { assert pos[w] == goal[w]; }
  }

  lemma {:induction false} ClearBeyond(origin: Places, pos: Places, goal: Places, left: set<Move>, anchor: Name,
        mv: Move, size: nat, w: Name)
    requires size > 0 && OnTheWay(origin, pos, goal, left, anchor, size) && mv in left
    requires forall o :: o in left && Ahead(pos, goal, o, origin[anchor], size) ==>
               Rel(pos[o.name], origin[anchor], size) <= Rel(pos[mv.name], origin[anchor], size)
    requires w in origin && Rel(origin[mv.name], origin[anchor], size) < Rel(origin[w], origin[anchor], size)
    ensures Rel(goal[mv.name], origin[anchor], size) < Rel(pos[w], origin[anchor], size)
  {
    StartedOrEnded(origin, pos, goal, left, anchor, w, size);
    if pos[w] != goal[w] {
      var o :| o in left && o.name == w && pos[w] == origin[w];
      assert !Ahead(pos, goal, o, origin[anchor], size);
    }
  }

  /** A move keeps the order when every other node stays on its side. */
  lemma {:induction false} ClearKeepsOrder(origin: Places, pos: Places, c: int, mv: Move, size: nat)
    requires size > 0 && InOrder(origin, pos, c, size) && mv.name in pos
    requires forall w :: w in origin && w != mv.name && Rel(origin[mv.name], c, size) < Rel(origin[w], c, size) ==>
               Rel(mv.dst % size, c, size) < Rel(pos[w], c, size)
    requires forall w :: w in origin && w != mv.name && Rel(origin[w], c, size) < Rel(origin[mv.name], c, size) ==>
               Rel(pos[w], c, size) < Rel(mv.dst % size, c, size)
    ensures InOrder(origin, Apply(pos, mv, size), c, size)
  {
  }

  lemma {:induction false} FarthestIsClear(origin: Places, pos: Places, goal: Places, left: set<Move>, anchor: Name,
        mv: Move, size: nat)
    requires size > 0 && OnTheWay(origin, pos, goal, left, anchor, size) && mv in left
    requires Ahead(pos, goal, mv, origin[anchor], size)
    requires forall o :: o in left && Ahead(pos, goal, o, origin[anchor], size) ==>
               Rel(pos[o.name], origin[anchor], size) <= Rel(pos[mv.name], origin[anchor], size)
    ensures InOrder(origin, Apply(pos, mv, size), origin[anchor], size)
  {
    var c, x := origin[anchor], mv.name;
    forall w | w in origin && w != x && Rel(origin[x], c, size) < Rel(origin[w], c, size)
      ensures Rel(mv.dst % size, c, size) < Rel(pos[w], c, size)
    {
      ClearBeyond(origin, pos, goal, left, anchor, mv, size, w);
    }
    forall w | w in origin && w != x && Rel(origin[w], c, size) < Rel(origin[x], c, size)
      ensures Rel(pos[w], c, size) < Rel(mv.dst % size, c, size)
    {
      assert Rel(pos[w], c, size) < Rel(pos[x], c, size);
    }
    ClearKeepsOrder(origin, pos, c, mv, size);
  }

  lemma {:induction false} ClearBefore(origin: Places, pos: Places, goal: Places, left: set<Move>, anchor: Name,
        mv: Move, size: nat, w: Name)
    requires size > 0 && OnTheWay(origin, pos, goal, left, anchor, size) && mv in left
    requires forall o :: o in left ==> Rel(pos[mv.name], origin[anchor], size) <= Rel(pos[o.name], origin[anchor], size)
    requires w in origin && Rel(origin[w], origin[anchor], size) < Rel(origin[mv.name], origin[anchor], size)
    ensures Rel(pos[w], origin[anchor], size) < Rel(goal[mv.name], origin[anchor], size)
  {
    StartedOrEnded(origin, pos, goal, left, anchor, w, size);
    assert Rel(pos[w], origin[anchor], size) < Rel(pos[mv.name], origin[anchor], size);
    forall o | o in left ensures !(o.name == w && pos[w] == origin[w]) {
      assert Rel(pos[mv.name], origin[anchor], size) <= Rel(pos[o.name], origin[anchor], size);
    }
  }

  lemma {:induction false} NearestIsClear(origin: Places, pos: Places, goal: Places, left: set<Move>, anchor: Name,
        mv: Move, size: nat)
    requires size > 0 && OnTheWay(origin, pos, goal, left, anchor, size) && mv in left
    requires forall o :: o in left ==> !Ahead(pos, goal, o, origin[anchor], size)
    requires forall o :: o in left ==> Rel(pos[mv.name], origin[anchor], size) <= Rel(pos[o.name], origin[anchor], size)
    ensures InOrder(origin, Apply(pos, mv, size), origin[anchor], size)
  {
    var c, x := origin[anchor], mv.name;
    forall w | w in origin && w != x && Rel(origin[w], c, size) < Rel(origin[x], c, size)
      ensures Rel(pos[w], c, size) < Rel(mv.dst % size, c, size)
    {
      ClearBefore(origin, pos, goal, left, anchor, mv, size, w);
    }
    assert !Ahead(pos, goal, mv, c, size);
    forall w | w in origin && w != x && Rel(origin[x], c, size) < Rel(origin[w], c, size)
      ensures Rel(mv.dst % size, c, size) < Rel(pos[w], c, size)
    {
      assert Rel(pos[x], c, size) < Rel(pos[w], c, size);
    }
    ClearKeepsOrder(origin, pos, c, mv, size);
  }

  /** The move run next leaves the order seen from the anchor, and the cyclic order. */
  lemma {:induction false} ChosenKeepsOrder(origin: Places, pos: Places, goal: Places, left: set<Move>, anchor: Name,
        mv: Move, size: nat)
    requires size > 0 && OnTheWay(origin, pos, goal, left, anchor, size) && IsNext(pos, left, mv, size)
    ensures InOrder(origin, Apply(pos, mv, size), origin[anchor], size)
    ensures SameCyclicOrder(pos, Apply(pos, mv, size), size)
  {
    SomeMoverPasses(origin, pos, goal, left, anchor, size);
    assert Eligible(pos, mv, size);
    PassesIsInOrder(origin, pos, goal, left, anchor, mv, size);
    InOrderApart(origin, pos, origin[anchor], size);
    GapTestIsExact(pos, mv, size);
  }

  lemma {:induction false} WayStep(origin: Places, pos: Places, goal: Places, left: set<Move>, anchor: Name, mv: Move,
        size: nat)
    requires size > 0 && OnTheWay(origin, pos, goal, left, anchor, size) && IsNext(pos, left, mv, size)
    ensures OnTheWay(origin, Apply(pos, mv, size), goal, left - {mv}, anchor, size)
  {
    ChosenKeepsOrder(origin, pos, goal, left, anchor, mv, size);
    InOrderApart(origin, pos, origin[anchor], size);
    StepKeepsApart(pos, left, mv, size);
    StepFollows(pos, goal, left, mv, size);
  }

  lemma {:induction false} StepFollows(pos: Places, goal: Places, left: set<Move>, mv: Move, size: nat)
    requires size > 0 && mv in left && mv.name in goal && goal[mv.name] == mv.dst % size && pos.Keys == goal.Keys
    requires forall n :: n in pos && (forall o :: o in left ==> o.name != n) ==> pos[n] == goal[n]
    ensures var pos', left' := Apply(pos, mv, size), left - {mv};
            forall n :: n in pos' && (forall o :: o in left' ==> o.name != n) ==> pos'[n] == goal[n]
  {
    var pos', left' := Apply(pos, mv, size), left - {mv};
    forall n | n in pos' && (forall o :: o in left' ==> o.name != n) ensures pos'[n] == goal[n] {
      if n != mv.name {
        forall o | o in left ensures o.name != n { assert o == mv || o in left'; }
      }
    }
  }

  /** The steps of a run, each after the ones before it. */
  ghost predicate EveryStepKeepsOrder(pos: Places, run: seq<Move>, size: nat)
    requires size > 0
    decreases |run|
  {
    run == [] ||
    (SameCyclicOrder(pos, Apply(pos, run[0], size), size) &&
        EveryStepKeepsOrder(Apply(pos, run[0], size), run[1..], size))
  }

  /** With a node that stays, the moves never block each other, and every step
      leaves the cyclic order of the ring as it is. */
  lemma {:induction false} AnchoredRunIsSafe(origin: Places, pos: Places, goal: Places, left: set<Move>, anchor: Name,
        run: seq<Move>, size: nat)
    requires size > 0 && OnTheWay(origin, pos, goal, left, anchor, size) && Runs(pos, left, run, size)
    ensures !Stuck(After(pos, run, size), left - SetOf(run), size)
    ensures EveryStepKeepsOrder(pos, run, size)
    decreases |run|
  {
    if run == [] {
      assert left - SetOf(run) == left;
      if left != {} { SomeMoverPasses(origin, pos, goal, left, anchor, size); }
    } else {
      WayStep(origin, pos, goal, left, anchor, run[0], size);
      ChosenKeepsOrder(origin, pos, goal, left, anchor, run[0], size);
      AnchoredRunIsSafe(origin, Apply(pos, run[0], size), goal, left - {run[0]}, anchor, run[1..], size);
      LeftAfter(left, run);
    }
  }

  lemma {:induction false} LeftAfter(left: set<Move>, run: seq<Move>)
    requires run != []
    ensures left - SetOf(run) == left - {run[0]} - SetOf(run[1..])
  {
    SetOfCons(run);
  }

  // ----- a plan where every node moves, onto tokens none of them holds -----

  /** Every node is where it started or on its own target; no target is a place a node started from. */
  ghost predicate OnFreshTargets(pos: Places, goal: Places, left: set<Move>, size: nat)
    requires size > 0
  {
    && Inside(pos, size) && AllApart(pos) && AllApart(goal) && pos.Keys == goal.Keys
    && Pending(pos, left, size)
    && (forall mv :: mv in left ==> goal[mv.name] == mv.dst % size)
    && (forall n :: n in pos && (forall mv :: mv in left ==> mv.name != n) ==> pos[n] == goal[n])
    && forall u, mv :: u in pos && mv in left && mv.name != u && (exists o :: o in left && o.name == u) ==>
        pos[u] != mv.dst % size
  }

  /** When no target is occupied, nothing blocks. */
  lemma {:induction false} FreshRunIsSafe(pos: Places, goal: Places, left: set<Move>, run: seq<Move>, size: nat)
    requires size > 0 && OnFreshTargets(pos, goal, left, size) && Runs(pos, left, run, size)
    ensures !Stuck(After(pos, run, size), left - SetOf(run), size)
    decreases |run|
  {
    if run == [] {
      assert left - SetOf(run) == left;
      if left != {} {
        var mv :| mv in left;
        FreshIsFree(pos, goal, left, mv, size);
      }
    } else {
      FreshStep(pos, goal, left, run[0], size);
      FreshRunIsSafe(Apply(pos, run[0], size), goal, left - {run[0]}, run[1..], size);
      LeftAfter(left, run);
    }
  }

  lemma {:induction false} FreshIsFree(pos: Places, goal: Places, left: set<Move>, mv: Move, size: nat)
    requires size > 0 && OnFreshTargets(pos, goal, left, size) && mv in left
    ensures Free(pos, mv, size)
  {
    forall n | n in pos && n != mv.name ensures pos[n] != mv.dst % size {
      if forall o :: o in left ==> o.name != n { assert pos[n] == goal[n] != goal[mv.name]; }
    }
  }

  lemma {:induction false} FreshStep(pos: Places, goal: Places, left: set<Move>, mv: Move, size: nat)
    requires size > 0 && OnFreshTargets(pos, goal, left, size) && mv in left
    ensures OnFreshTargets(Apply(pos, mv, size), goal, left - {mv}, size)
  {
    FreshIsFree(pos, goal, left, mv, size);
    StepKeepsApart(pos, left, mv, size);
    StepFollows(pos, goal, left, mv, size);
  }
}
