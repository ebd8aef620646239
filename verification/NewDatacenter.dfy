/** A new datacenter whose racks all have the same number of nodes: its balanced
    ring in rack round robin gives every node the same share, to one token. */
module NewDatacenter {
  import opened Lists
  import opened Arith
  import opened Ring
  import opened RoundRobin
  import opened Replication
  import opened Shares
  import opened Balanced

  /** The planner's test that shares are even: a few tolerances per replica. */
  ghost predicate Even(pts: seq<Node>, size: nat, rf: nat)
    requires Increasing(Positions(pts))
  {
    |pts| < 2 ||
    forall a, b :: a in SetOf(Names(pts)) && b in SetOf(Names(pts)) ==>
      |Held(HolderMap(pts, size, rf), a)| - |Held(HolderMap(pts, size, rf), b)|
        <= EVEN_TOLERANCES * rf * Tolerance(|pts|, size)
  }

  /** The ring of a new datacenter: the round robin on the balanced positions. */
  function NewRing(nodes: seq<NewNode>, size: nat, offset: int): Result<seq<Node>> {
    var order := Rounds(Queues(nodes));
    var spots := BalancedPositions(|order|, size, offset);
    if spots.TokenError? then TokenError
    else Ok(seq(|order|, i requires 0 <= i < |order| => Node(spots.value[i], order[i].name, order[i].rack)))
  }

  /** The rack whose turn it is at step i. */
  function Turn(racks: seq<Rack>, i: nat): Rack
    requires racks != []
  {
    racks[i % |racks|]
  }

  /** Racks in turn all the way round. */
  ghost predicate Turns(pts: seq<Node>, racks: seq<Rack>, each: nat) {
    && racks != [] && Distinct(racks) && |pts| == each * |racks|
    && forall i :: 0 <= i < |pts| ==> pts[i].rack == Turn(racks, i)
  }

  lemma {:induction false} WalkTurns(pts: seq<Node>, racks: seq<Rack>, each: nat, index: nat, k: nat)
    requires Turns(pts, racks, each) && index < |pts| && k < |pts|
    ensures Walk(pts, index)[k].rack == Turn(racks, index + k)
  {
    WalkAt(pts, index, k);
    var n, r := |pts|, |racks|;
    if index + k < n {
      SmallMod(index + k, n);
    } else {
      ModShift(index + k - n, 1, n);
      SmallMod(index + k - n, n);
      ModShift(index + k - n, each, r);
    }
  }

  lemma {:induction false} SameTurn(racks: seq<Rack>, i: nat)
    requires racks != []
    ensures Turn(racks, i + |racks|) == Turn(racks, i)
  {
    ModShift(i, 1, |racks|);
  }

  lemma {:induction false} OtherTurn(racks: seq<Rack>, i: nat, j: nat)
    requires racks != [] && Distinct(racks) && i < j < i + |racks|
    ensures Turn(racks, i) != Turn(racks, j)
  {
    var r := |racks|;
    if i % r + (j - i) < r {
      ModIs(j, r, i / r);
    } else {
      ModIs(j, r, i / r + 1);
    }
  }

  /** The racks among the first k steps of a walk: those whose turn it was. */
  ghost predicate MetInTurn(met: set<Rack>, racks: seq<Rack>, index: nat, k: nat)
    requires racks != []
  {
    forall x :: x in met <==> exists i :: index <= i < index + k && Turn(racks, i) == x
  }

  /** A rack is new in its turn during the first round of a walk, and known after it. */
  lemma {:induction false} NewInTurn(met: set<Rack>, racks: seq<Rack>, index: nat, k: nat)
    requires racks != [] && Distinct(racks) && MetInTurn(met, racks, index, k)
    ensures Turn(racks, index + k) in met <==> k >= |racks|
    ensures MetInTurn(met + {Turn(racks, index + k)}, racks, index, k + 1)
  {
    if k >= |racks| {
      SameTurn(racks, index + k - |racks|);
    } else {
      forall i | index <= i < index + k ensures Turn(racks, i) != Turn(racks, index + k) {
        OtherTurn(racks, i, index + k);
      }
    }
  }

  /** A walk that takes the racks in turn, from turn index on. */
  ghost predicate WalksInTurn(walk: seq<Node>, racks: seq<Rack>, index: nat) {
    && racks != [] && Distinct(racks)
    && forall k :: 0 <= k < |walk| ==> walk[k].rack == Turn(racks, index + k)
  }

  lemma {:induction false} TurnsMet(walk: seq<Node>, racks: seq<Rack>, index: nat, k: nat)
    requires WalksInTurn(walk, racks, index) && k <= |walk|
    ensures MetInTurn(RacksUpTo(walk, k), racks, index, k)
    ensures |RacksUpTo(walk, k)| == Min(k, |racks|)
  {
    if k > 0 {
      TurnsMet(walk, racks, index, k - 1);
      TurnsMetStep(walk, racks, index, k - 1);
    }
  }

  lemma {:induction false} TurnsMetStep(walk: seq<Node>, racks: seq<Rack>, index: nat, k: nat)
    requires WalksInTurn(walk, racks, index) && k < |walk|
    requires MetInTurn(RacksUpTo(walk, k), racks, index, k)
    ensures MetInTurn(RacksUpTo(walk, k + 1), racks, index, k + 1)
    ensures |RacksUpTo(walk, k + 1)| == |RacksUpTo(walk, k)| + if k >= |racks| then 0 else 1
    ensures walk[k].rack in RacksUpTo(walk, k) <==> k >= |racks|
  {
    NewInTurn(RacksUpTo(walk, k), racks, index, k);
    AddOne(RacksUpTo(walk, k), walk[k].rack);
  }

  /** The replicas of every range are exactly the next min(rf, nodes) nodes. */
  lemma {:induction false} NextNodesReplicate(pts: seq<Node>, racks: seq<Rack>, each: nat, index: nat, rf: nat)
    requires Turns(pts, racks, each) && index < |pts|
    ensures ReplicaNodes(pts, index, rf) == Walk(pts, index)[..Min(rf, |pts|)]
  {
    NextChosen(pts, racks, each, index, rf, |pts|);
  }

  lemma {:induction false} NextChosen(pts: seq<Node>, racks: seq<Rack>, each: nat, index: nat, rf: nat, k: nat)
    requires Turns(pts, racks, each) && index < |pts| && k <= |pts|
    ensures Chosen(Walk(pts, index), k, rf) == Walk(pts, index)[..Min(rf, k)]
  {
    if k > 0 {
      NextChosen(pts, racks, each, index, rf, k - 1);
      NextCounts(pts, racks, each, index, rf, k - 1);
      TakeMore(Walk(pts, index), rf, k - 1);
    }
  }

  lemma {:induction false} TakeMore(walk: seq<Node>, rf: nat, k: nat)
    requires k < |walk|
    ensures walk[..Min(rf, k + 1)] == walk[..Min(rf, k)] + if k < rf then [walk[k]] else []
  {
  }

  lemma {:induction false} NextCounts(pts: seq<Node>, racks: seq<Rack>, each: nat, index: nat, rf: nat, k: nat)
    requires Turns(pts, racks, each) && index < |pts| && k < |pts|
    ensures Counts(Walk(pts, index), k, rf) <==> k < rf
  {
    WalkInTurn(pts, racks, each, index);
    TurnCounts(Walk(pts, index), racks, index, rf, k);
  }

  lemma {:induction false} WalkInTurn(pts: seq<Node>, racks: seq<Rack>, each: nat, index: nat)
    requires Turns(pts, racks, each) && index < |pts|
    ensures WalksInTurn(Walk(pts, index), racks, index)
    ensures |Walk(pts, index)| >= |racks|
  {
    forall j | 0 <= j < |pts| ensures Walk(pts, index)[j].rack == Turn(racks, index + j) {
      WalkTurns(pts, racks, each, index, j);
    }
    AllRacksMet(each, |racks|, |pts|);
  }

  lemma {:induction false} TurnCounts(walk: seq<Node>, racks: seq<Rack>, index: nat, rf: nat, k: nat)
    requires WalksInTurn(walk, racks, index) && k < |walk| && |walk| >= |racks|
    ensures Counts(walk, k, rf) <==> k < rf
  {
    TurnsMet(walk, racks, index, k);
    TurnsMetStep(walk, racks, index, k);
    TurnsMet(walk, racks, index, |walk|);
  }

  lemma {:induction false} AllRacksMet(each: nat, r: nat, n: nat)
    requires n == each * r && n > 0
    ensures n >= r
  {
    if each > 0 { MulLe(1, each, r); }
  }

  // ----- shares -----

  /** The tokens whose owner is at most w - 1 nodes before node p. */
  ghost function Behind(pts: seq<Node>, size: nat, p: nat, w: nat): set<int>
    requires pts != []
  {
    set t | 0 <= t < size && (p - Owner(Positions(pts), t)) % |pts| < w
  }

  lemma {:induction false} BehindSize(pts: seq<Node>, size: nat, offset: int, p: nat, w: nat)
    requires p < |pts| && w <= |pts| && 0 <= offset < size / |pts|
    requires Positions(pts) == BalancedPositions(|pts|, size, offset).value
    ensures |Behind(pts, size, p, w)| == Spot(p, |pts|, size) - Spot(p - w, |pts|, size)
  {
    if w == 0 {
      assert Behind(pts, size, p, 0) == {};
    } else {
      BehindSize(pts, size, offset, p, w - 1);
      BehindStep(pts, size, offset, p, w - 1);
    }
  }

  lemma {:induction false} BehindStep(pts: seq<Node>, size: nat, offset: int, p: nat, w: nat)
    requires p < |pts| && w < |pts| && 0 <= offset < size / |pts|
    requires Positions(pts) == BalancedPositions(|pts|, size, offset).value
    ensures |Behind(pts, size, p, w + 1)| ==
            |Behind(pts, size, p, w)| + Spot(p - w, |pts|, size) - Spot(p - w - 1, |pts|, size)
  {
    var n := |pts|;
    var o := if p >= w then p - w else p - w + n;
    var range := Range(Positions(pts), o, size);
    BalancedValid(n, size, offset);
    RangeSize(Positions(pts), o, size);
    BalancedLength(n, size, offset, o);
    SpotTurn(p - w, n, size);
    SpotTurn(p - w - 1, n, size);
    forall t | 0 <= t < size
      ensures (p - Owner(Positions(pts), t)) % n == w <==> t in range
    {
      OwnerSpec(Positions(pts), t, 0);
      TurnsBack(p, Owner(Positions(pts), t), w, n);
    }
    assert Behind(pts, size, p, w + 1) == Behind(pts, size, p, w) + range;
    assert Behind(pts, size, p, w) !! range;
  }

  lemma {:induction false} TurnsBack(p: nat, o: nat, d: nat, n: nat)
    requires p < n && o < n && d < n
    ensures (p - o) % n == d <==> o == if p >= d then p - d else p - d + n
  {
    if p >= o {
      SmallMod(p - o, n);
    } else {
      ModIs(p - o, n, -1);
    }
  }

  /** A node holds the ranges of the min(rf, nodes) owners up to itself. */
  lemma {:induction false} HeldIsBehind(pts: seq<Node>, racks: seq<Rack>, each: nat, size: nat, rf: nat, p: nat)
    requires Turns(pts, racks, each) && Valid(pts, size) && p < |pts|
    ensures Held(HolderMap(pts, size, rf), pts[p].name) == Behind(pts, size, p, Min(rf, |pts|))
  {
    forall t | 0 <= t < size
      ensures pts[p].name in Holders(pts, rf, t) <==> (p - Owner(Positions(pts), t)) % |pts| < Min(rf, |pts|)
    {
      OwnerSpec(Positions(pts), t, 0);
      var o := Owner(Positions(pts), t);
      NextNodesReplicate(pts, racks, each, o, rf);
      InWindow(pts, o, p, Min(rf, |pts|));
    }
  }

  lemma {:induction false} InWindow(pts: seq<Node>, o: nat, p: nat, w: nat)
    requires o < |pts| && p < |pts| && w <= |pts| && Distinct(Names(pts))
    ensures pts[p].name in Names(Walk(pts, o)[..w]) <==> (p - o) % |pts| < w
  {
    var n, walk := |pts|, Walk(pts, o);
    var d := if p >= o then p - o else p - o + n;
    TurnsBack(p, o, d, n);
    assert walk[d] == pts[p];
    WalkNodes(pts, o);
    if d < w {
      assert Names(walk[..w])[d] == pts[p].name;
    }
    if pts[p].name in Names(walk[..w]) {
      var j :| 0 <= j < w && Names(walk[..w])[j] == pts[p].name;
      assert Names(walk)[j] == Names(walk)[d];
    }
  }

  lemma {:induction false} HeldSize(pts: seq<Node>, racks: seq<Rack>, each: nat, size: nat, offset: int, rf: nat,
        p: nat)
    requires Turns(pts, racks, each) && Distinct(Names(pts)) && p < |pts| && 0 <= offset < size / |pts|
    requires Positions(pts) == BalancedPositions(|pts|, size, offset).value
    ensures Increasing(Positions(pts))
    ensures var w := Min(rf, |pts|);
            (w * size) / |pts| <= |Held(HolderMap(pts, size, rf), pts[p].name)| <= (w * size) / |pts| + Min(rf, 1)
  {
    var w := Min(rf, |pts|);
    BalancedValid(|pts|, size, offset);
    HeldIsBehind(pts, racks, each, size, rf, p);
    BehindSize(pts, size, offset, p, w);
    SpotWindow(p - w, w, |pts|, size);
    if rf == 0 { SpotZero(|pts|, size); }
  }

  /** Racks in turn on a balanced ring: any two effective shares differ by one
      token at most, whatever rf and the racks. */
  lemma {:induction false} TurnsAreEven(pts: seq<Node>, racks: seq<Rack>, each: nat, size: nat, offset: int, rf: nat,
        a: Name, b: Name)
    requires Turns(pts, racks, each) && Distinct(Names(pts)) && pts != [] && 0 <= offset < size / |pts|
    requires Positions(pts) == BalancedPositions(|pts|, size, offset).value
    requires a in SetOf(Names(pts)) && b in SetOf(Names(pts))
    ensures Increasing(Positions(pts))
    ensures |Held(HolderMap(pts, size, rf), a)| - |Held(HolderMap(pts, size, rf), b)| <= Min(rf, 1)
  {
    var p :| 0 <= p < |pts| && Names(pts)[p] == a;
    var q :| 0 <= q < |pts| && Names(pts)[q] == b;
    HeldSize(pts, racks, each, size, offset, rf, p);
    HeldSize(pts, racks, each, size, offset, rf, q);
  }

  lemma {:induction false} SpareTolerance(rf: nat, tol: nat)
    requires tol >= 1
    ensures Min(rf, 1) <= EVEN_TOLERANCES * rf * tol
  {
    MulLe(1, tol, EVEN_TOLERANCES * rf);
  }

  /** A new datacenter with as many nodes in every rack gets an even ring. */
  lemma {:induction false} NewDatacenterIsEven(nodes: seq<NewNode>, each: nat, size: nat, offset: int, rf: nat)
    requires nodes != [] && forall rack :: rack in SortedRacks(nodes) ==> |NamesOf(nodes, rack)| == each
    requires forall i, j :: 0 <= i < j < |nodes| ==> nodes[i].name != nodes[j].name
    requires NewRing(nodes, size, offset).Ok?
    ensures var pts := NewRing(nodes, size, offset).value;
            && Valid(pts, size)
            && Even(pts, size, rf)
            && forall a, b :: a in SetOf(Names(pts)) && b in SetOf(Names(pts)) ==>
                 |Held(HolderMap(pts, size, rf), a)| - |Held(HolderMap(pts, size, rf), b)| <= 1
  {
    var pts, racks := NewRing(nodes, size, offset).value, SortedRacks(nodes);
    RackOrderAlternates(nodes, each);
    NewNames(nodes, pts, size, offset);
    BalancedValid(|pts|, size, offset);
    assert Positions(pts) == BalancedPositions(|pts|, size, offset).value;
    assert Turns(pts, racks, each) by {
      forall i | 0 <= i < |pts| ensures pts[i].rack == Turn(racks, i) { }
    }
    SpareTolerance(rf, Tolerance(|pts|, size));
    forall a, b | a in SetOf(Names(pts)) && b in SetOf(Names(pts))
      ensures |Held(HolderMap(pts, size, rf), a)| - |Held(HolderMap(pts, size, rf), b)| <= Min(rf, 1)
    {
      TurnsAreEven(pts, racks, each, size, offset, rf, a, b);
    }
  }

  lemma {:induction false} NewNames(nodes: seq<NewNode>, pts: seq<Node>, size: nat, offset: int)
    requires forall i, j :: 0 <= i < j < |nodes| ==> nodes[i].name != nodes[j].name
    requires NewRing(nodes, size, offset) == Ok(pts)
    ensures Distinct(Names(pts)) && |pts| == |nodes|
  {
    var order := Rounds(Queues(nodes));
    RackOrderPermutes(nodes);
    var f := (n: NewNode) => n.name;
    MapMultiset(f, nodes, order);
    DistinctOfMultiset(Map(f, nodes), Map(f, order));
    assert |multiset(order)| == |order|;
    assert Names(pts) == Map(f, order);
  }
}
