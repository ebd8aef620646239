/** The search for the most even placement of new nodes on given positions. */
module PlaceSearch {
  import opened Ring
  import opened RoundRobin
  import opened Evenness
  import opened Placement

  /** The even-ness of a ring with some new nodes placed. */
  ghost function PlacedKey(base: seq<Node>, part: seq<Node>, size: nat, rf: nat): Key
    requires Sound(base + part, size)
  {
    RingKey(base + part, size, rf)
  }

  ghost predicate AllSound(base: seq<Node>, candidates: seq<seq<Node>>, size: nat) {
    forall i :: 0 <= i < |candidates| ==> Sound(base + candidates[i], size)
  }

  ghost predicate IsKey(key: Key, base: seq<Node>, candidate: seq<Node>, size: nat, rf: nat) {
    Sound(base + candidate, size) && key == PlacedKey(base, candidate, size, rf)
  }

  ghost predicate KeysSoFar(keys: seq<Key>, base: seq<Node>, candidates: seq<seq<Node>>, size: nat, rf: nat) {
    && |keys| <= |candidates| && AllSound(base, candidates, size)
    && forall i :: 0 <= i < |keys| ==> IsKey(keys[i], base, candidates[i], size, rf)
  }

  lemma {:induction false} KeysMore(keys: seq<Key>, key: Key, base: seq<Node>, candidates: seq<seq<Node>>, size: nat,
        rf: nat)
    requires KeysSoFar(keys, base, candidates, size, rf) && |keys| < |candidates|
    requires key == PlacedKey(base, candidates[|keys|], size, rf)
    ensures KeysSoFar(keys + [key], base, candidates, size, rf)
  {
    var more := keys + [key];
    forall i | 0 <= i < |more| ensures IsKey(more[i], base, candidates[i], size, rf) {
      if i < |keys| { assert more[i] == keys[i]; }
    }
  }

  /** The first of the most even candidates. */
  method MostEven(base: seq<Node>, candidates: seq<seq<Node>>, size: nat, rf: nat) returns (best: nat)
    requires candidates != [] && AllSound(base, candidates, size)
    ensures best < |candidates|
    ensures forall i :: 0 <= i < |candidates| ==>
              AtMost(PlacedKey(base, candidates[best], size, rf), PlacedKey(base, candidates[i], size, rf))
  {
    var keys: seq<Key> := [];
    while |keys| < |candidates|
      invariant KeysSoFar(keys, base, candidates, size, rf)
    {
      var key := BalanceKey(base + candidates[|keys|], size, rf);
      KeysMore(keys, key, base, candidates, size, rf);
      keys := keys + [key];
    }
    best := FirstLeast(keys);
  }

  // ----- any placement is as even as the one built from its racks -----

  function RacksOf(ring: seq<Node>): (r: seq<Rack>)
    ensures |r| == |ring|
    ensures forall i :: 0 <= i < |ring| ==> r[i] == ring[i].rack
  {
    seq(|ring|, i requires 0 <= i < |ring| => ring[i].rack)
  }

  lemma {:induction false} SortedSpots(placed: seq<Node>, spots: seq<int>)
    requires Increasing(spots) && multiset(Positions(placed)) == multiset(spots)
    ensures Positions(Sort(placed)) == spots
  {
    SortNonDecreasing(placed);
    PositionsMultiset(placed, Sort(placed));
    SameSorted(Positions(Sort(placed)), spots);
  }

  lemma {:induction false} SameSorted(a: seq<int>, b: seq<int>)
    requires multiset(a) == multiset(b) && Increasing(b)
    requires forall i, j :: 0 <= i < j < |a| ==> a[i] <= a[j]
    ensures a == b
    decreases |a|
  {
    if a == [] {
      assert |multiset(b)| == 0;
    } else {
      LeastFirst(a, b);
      SameTails(a, b);
      SameSorted(a[1..], b[1..]);
      assert a == [a[0]] + a[1..];
      assert b == [b[0]] + b[1..];
    }
  }

  lemma {:induction false} LeastFirst(a: seq<int>, b: seq<int>)
    requires multiset(a) == multiset(b) && Increasing(b) && a != []
    requires forall i, j :: 0 <= i < j < |a| ==> a[i] <= a[j]
    ensures b != [] && a[0] == b[0]
  {
    assert a[0] in multiset(b);
    var i :| 0 <= i < |b| && b[i] == a[0];
    assert b[0] in multiset(a);
    var j :| 0 <= j < |a| && a[j] == b[0];
  }

  /** The order of racks that builds a placement, up to names. */
  lemma {:induction false} PlacementOrder(placed: seq<Node>, spots: seq<int>, nodes: seq<NewNode>)
      returns (racks: seq<Rack>)
    requires IsPlacement(placed, spots, nodes) && Increasing(spots)
    ensures multiset(racks) == multiset(RackSeq(nodes)) && |racks| <= |spots|
    ensures multiset(Bares(Built(nodes, spots, racks))) == multiset(Bares(placed))
  {
    var sorted := Sort(placed);
    racks := RacksOf(sorted);
    SortedSpots(placed, spots);
    assert RacksOf(placed) == RackSeq(NewOf(placed));
    var f := (n: Node) => n.rack;
    MapMultiset(f, sorted, placed);
    assert Map(f, sorted) == racks && Map(f, placed) == RacksOf(placed);
    SameNewNames(NewOf(placed), nodes);
    var built := Built(nodes, spots, racks);
    forall i | 0 <= i < |built| ensures Bares(built)[i] == Bares(sorted)[i] {
      BuiltAt(nodes, spots, racks, i);
      assert Positions(sorted)[i] == spots[i];
    }
    assert Bares(built) == Bares(sorted);
    MapMultiset(Bare, sorted, placed);
  }

  lemma {:induction false} SameBaresSameKey(base: seq<Node>, a: seq<Node>, b: seq<Node>, size: nat, rf: nat)
    requires Sound(base + a, size) && Reduced(base + a, size) == base + a
    requires Sound(base + b, size) && Reduced(base + b, size) == base + b
    requires multiset(Bares(a)) == multiset(Bares(b))
    ensures PlacedKey(base, a, size, rf) == PlacedKey(base, b, size, rf)
  {
    assert Bares(base + a) == Bares(base) + Bares(a);
    assert Bares(base + b) == Bares(base) + Bares(b);
    KeyIgnoresNames(base + a, base + b, size, rf);
  }

  /** Room for a placement: the ring with the new nodes on the spots can be sorted. */
  lemma {:induction false} PlacementSound(base: seq<Node>, placed: seq<Node>, spots: seq<int>, nodes: seq<NewNode>,
        size: nat)
    requires Room(base, spots, nodes, size) && IsPlacement(placed, spots, nodes)
    ensures Sound(base + placed, size) && Reduced(base + placed, size) == base + placed
  {
    PlacementIsPart(placed, spots, nodes);
    PartSound(base, placed, spots, nodes, size);
  }

  // ----- the two candidates beyond the search -----

  lemma {:induction false} RoomRounds(base: seq<Node>, spots: seq<int>, nodes: seq<NewNode>, size: nat)
    requires Room(base, spots, nodes, size)
    ensures Room(base, spots, Rounds(Queues(nodes)), size)
    ensures multiset(RackSeq(Rounds(Queues(nodes)))) == multiset(RackSeq(nodes))
  {
    RackOrderPermutes(nodes);
    SameNewNames(nodes, Rounds(Queues(nodes)));
  }

  lemma {:induction false} SameNodesPlacement(placed: seq<Node>, spots: seq<int>, nodes: seq<NewNode>)
    ensures IsPlacement(placed, spots, nodes) <==> IsPlacement(placed, spots, Rounds(Queues(nodes)))
  {
    RackOrderPermutes(nodes);
  }

  /** The even-ness of the ring with the first racks placed. */
  ghost function TryKey(base: seq<Node>, spots: seq<int>, nodes: seq<NewNode>, size: nat, rf: nat,
        racks: seq<Rack>): Key
    requires Room(base, spots, nodes, size) && multiset(racks) <= multiset(RackSeq(nodes)) && |racks| <= |spots|
  {
    TrySound(base, spots, nodes, size, racks);
    PlacedKey(base, Built(Rounds(Queues(nodes)), spots, racks), size, rf)
  }

  lemma {:induction false} TrySound(base: seq<Node>, spots: seq<int>, nodes: seq<NewNode>, size: nat, racks: seq<Rack>)
    requires Room(base, spots, nodes, size) && multiset(racks) <= multiset(RackSeq(nodes)) && |racks| <= |spots|
    ensures multiset(racks) <= multiset(RackSeq(Rounds(Queues(nodes))))
    ensures Sound(base + Built(Rounds(Queues(nodes)), spots, racks), size)
  {
    RoomRounds(base, spots, nodes, size);
    BuiltIsPart(Rounds(Queues(nodes)), spots, racks);
    PartSound(base, Built(Rounds(Queues(nodes)), spots, racks), spots, Rounds(Queues(nodes)), size);
  }

  /** The racks can be a start of an order of the new nodes' racks. */
  ghost predicate Starts(racks: seq<Rack>, spots: seq<int>, nodes: seq<NewNode>) {
    multiset(racks) <= multiset(RackSeq(nodes)) && |racks| <= |spots|
  }

  lemma {:induction false} TryFits(nodes: seq<NewNode>, spots: seq<int>, order: seq<Rack>, left: seq<Rack>, i: nat)
    requires |spots| == |nodes| && multiset(order) + multiset(left) == multiset(RackSeq(nodes)) && i < |left|
    ensures Starts(order + [left[i]], spots, nodes)
  {
    assert left[i] in multiset(left);
    assert |multiset(order + [left[i]])| == |order| + 1;
    assert |multiset(order) + multiset(left)| == |order| + |left|;
    assert |multiset(RackSeq(nodes))| == |nodes|;
  }

  /** The rack is at least as even, next in the order, as each of the racks left. */
  ghost predicate BestNext(base: seq<Node>, spots: seq<int>, nodes: seq<NewNode>, size: nat, rf: nat,
                           order: seq<Rack>, left: seq<Rack>, best: Rack)
    requires Room(base, spots, nodes, size)
  {
    && Starts(order + [best], spots, nodes)
    && forall r :: r in left && Starts(order + [r], spots, nodes) ==>
         AtMost(TryKey(base, spots, nodes, size, rf, order + [best]), TryKey(base, spots, nodes, size, rf, order + [r]))
  }

  /** The placement with each rack left next. */
  method Tries(base: seq<Node>, spots: seq<int>, nodes: seq<NewNode>, ghost size: nat, order: seq<Rack>,
        left: seq<Rack>)
    returns (tries: seq<seq<Node>>)
    requires Room(base, spots, nodes, size)
    requires multiset(order) + multiset(left) == multiset(RackSeq(nodes))
    ensures multiset(RackSeq(Rounds(Queues(nodes)))) == multiset(RackSeq(nodes))
    ensures |tries| == |left|
    ensures AllTried(tries, order, left, spots, nodes)
  {
    RoomRounds(base, spots, nodes, size);
    tries := [];
    while |tries| < |left|
      invariant |tries| <= |left| && AllTried(tries, order, left, spots, nodes)
    {
      var placed := TryOne(spots, nodes, order, left, |tries|);
      TriedMore(tries, placed, order, left, spots, nodes);
      tries := tries + [placed];
    }
  }

  ghost predicate AllTried(tries: seq<seq<Node>>, order: seq<Rack>, left: seq<Rack>, spots: seq<int>,
        nodes: seq<NewNode>)
    requires |tries| <= |left|
  {
    forall i :: 0 <= i < |tries| ==> Tried(tries[i], order + [left[i]], spots, nodes)
  }

  lemma {:induction false} TriedMore(tries: seq<seq<Node>>, placed: seq<Node>, order: seq<Rack>, left: seq<Rack>,
        spots: seq<int>, nodes: seq<NewNode>)
    requires |tries| < |left| && AllTried(tries, order, left, spots, nodes)
    requires Tried(placed, order + [left[|tries|]], spots, nodes)
    ensures AllTried(tries + [placed], order, left, spots, nodes)
  {
  }

  method TryOne(spots: seq<int>, nodes: seq<NewNode>, order: seq<Rack>, left: seq<Rack>, i: nat)
      returns (placed: seq<Node>)
    requires |spots| == |nodes| && multiset(order) + multiset(left) == multiset(RackSeq(nodes)) && i < |left|
    ensures Tried(placed, order + [left[i]], spots, nodes)
  {
    TryFits(nodes, spots, order, left, i);
    placed := Build(nodes, spots, order + [left[i]]);
  }

  /** The placement built from a start of an order. */
  ghost predicate Tried(placed: seq<Node>, racks: seq<Rack>, spots: seq<int>, nodes: seq<NewNode>) {
    && multiset(RackSeq(Rounds(Queues(nodes)))) == multiset(RackSeq(nodes))
    && Starts(racks, spots, nodes) && placed == Built(Rounds(Queues(nodes)), spots, racks)
  }

  /** The first rack left that leaves the ring the most even. */
  method BestRack(base: seq<Node>, spots: seq<int>, nodes: seq<NewNode>, size: nat, rf: nat, order: seq<Rack>,
        left: seq<Rack>)
    returns (best: nat)
    requires Room(base, spots, nodes, size) && left != []
    requires multiset(order) + multiset(left) == multiset(RackSeq(nodes))
    ensures best < |left|
    ensures BestNext(base, spots, nodes, size, rf, order, left, left[best])
  {
    var tries := Tries(base, spots, nodes, size, order, left);
    forall i | 0 <= i < |tries| ensures Sound(base + tries[i], size) {
      TrySound(base, spots, nodes, size, order + [left[i]]);
    }
    best := MostEven(base, tries, size, rf);
  }

  /** Slot by slot: at each one, the rack that keeps the ring placed so far the most even. */
  ghost predicate SlotGreedy(base: seq<Node>, spots: seq<int>, nodes: seq<NewNode>, size: nat, rf: nat,
        order: seq<Rack>)
    requires Room(base, spots, nodes, size)
  {
    order == [] ||
    (&& SlotGreedy(base, spots, nodes, size, rf, order[..|order| - 1])
     && var before, last := order[..|order| - 1], order[|order| - 1];
        && Starts(before + [last], spots, nodes)
        && forall r: Rack :: Starts(before + [r], spots, nodes) ==>
             AtMost(TryKey(base, spots, nodes, size, rf, before + [last]),
                 TryKey(base, spots, nodes, size, rf, before + [r])))
  }

  lemma {:induction false} SlotGreedyMore(base: seq<Node>, spots: seq<int>, nodes: seq<NewNode>, size: nat, rf: nat,
                       order: seq<Rack>, left: seq<Rack>, best: Rack)
    requires Room(base, spots, nodes, size) && SlotGreedy(base, spots, nodes, size, rf, order)
    requires multiset(order) + multiset(left) == multiset(RackSeq(nodes))
    requires BestNext(base, spots, nodes, size, rf, order, left, best)
    ensures SlotGreedy(base, spots, nodes, size, rf, order + [best])
  {
    assert (order + [best])[..|order|] == order;
    forall r: Rack | Starts(order + [r], spots, nodes)
      ensures AtMost(TryKey(base, spots, nodes, size, rf, order + [best]),
          TryKey(base, spots, nodes, size, rf, order + [r]))
    {
      assert multiset(order + [r])[r] == multiset(order)[r] + 1;
      assert r in multiset(left);
    }
  }

  method NextSlot(base: seq<Node>, spots: seq<int>, nodes: seq<NewNode>, size: nat, rf: nat, order: seq<Rack>,
        left: seq<Rack>)
    returns (order': seq<Rack>, left': seq<Rack>)
    requires Room(base, spots, nodes, size) && left != [] && SlotGreedy(base, spots, nodes, size, rf, order)
    requires multiset(order) + multiset(left) == multiset(RackSeq(nodes))
    ensures multiset(order') + multiset(left') == multiset(RackSeq(nodes))
    ensures SlotGreedy(base, spots, nodes, size, rf, order')
    ensures |left'| == |left| - 1
  {
    var i := BestRack(base, spots, nodes, size, rf, order, left);
    SlotGreedyMore(base, spots, nodes, size, rf, order, left, left[i]);
    WithoutOne(left, i);
    order' := order + [left[i]];
    left' := left[..i] + left[i + 1..];
  }

  method SlotBySlot(base: seq<Node>, spots: seq<int>, nodes: seq<NewNode>, size: nat, rf: nat)
      returns (order: seq<Rack>)
    requires Room(base, spots, nodes, size)
    ensures multiset(order) == multiset(RackSeq(nodes))
    ensures SlotGreedy(base, spots, nodes, size, rf, order)
  {
    order := [];
    var left := SortUp(RackSeq(nodes));
    while left != []
      invariant multiset(order) + multiset(left) == multiset(RackSeq(nodes))
      invariant SlotGreedy(base, spots, nodes, size, rf, order)
      decreases |left|
    {
      order, left := NextSlot(base, spots, nodes, size, rf, order, left);
    }
  }

  /** The rack of the last node before a position, round the ring; none on an empty ring. */
  function RackBefore(before: seq<Node>, t: int): (r: int)
    ensures before == [] ==> r == -1
  {
    if before == [] then -1
    else if before[0].pos >= t then before[|before| - 1].rack
    else LastBefore(before, t)
  }

  function LastBefore(before: seq<Node>, t: int): Rack
    requires before != []
  {
    if |before| == 1 || before[|before| - 1].pos < t then before[|before| - 1].rack
    else LastBefore(before[..|before| - 1], t)
  }

  method PickOther(left: seq<NewNode>, rack: int) returns (i: nat)
    requires left != []
    ensures i < |left|
    ensures (exists k :: 0 <= k < |left| && left[k].rack != rack) ==> left[i].rack != rack
    ensures forall k :: 0 <= k < i ==> left[k].rack == rack
  {
    i := 0;
    while i < |left|
      invariant 0 <= i <= |left|
      invariant forall k :: 0 <= k < i ==> left[k].rack == rack
    {
      if left[i].rack != rack { return; }
      i := i + 1;
    }
    i := 0;
  }

  /** Node i was placed after a node of its own rack. */
  ghost predicate Follows(base: seq<Node>, placed: seq<Node>, i: nat)
    requires i < |placed|
  {
    placed[i].rack == RackBefore(Sort(base + placed[..i]), placed[i].pos)
  }

  /** Each node is of a rack other than the one before it, unless only that rack was left. */
  ghost predicate Alternates(base: seq<Node>, placed: seq<Node>) {
    forall i, j :: 0 <= i < j < |placed| && Follows(base, placed, i) ==> placed[j].rack == placed[i].rack
  }

  /** Once a node had to follow one of its own rack, only that rack is left. */
  ghost predicate AlternatesSoFar(base: seq<Node>, placed: seq<Node>, left: seq<NewNode>) {
    && Alternates(base, placed)
    && forall i, x :: 0 <= i < |placed| && x in left && Follows(base, placed, i) ==> x.rack == placed[i].rack
  }

  lemma {:induction false} AlternatesMore(base: seq<Node>, placed: seq<Node>, left: seq<NewNode>, k: nat, node: Node)
    requires AlternatesSoFar(base, placed, left) && k < |left| && left[k].rack == node.rack
    requires node.rack == RackBefore(Sort(base + placed), node.pos) ==> forall x :: x in left ==> x.rack == node.rack
    ensures AlternatesSoFar(base, placed + [node], left[..k] + left[k + 1..])
  {
    var placed', left' := placed + [node], left[..k] + left[k + 1..];
    forall x | x in left' ensures x in left { }
    forall i, x | 0 <= i < |placed'| && x in left' + [left[k]] && Follows(base, placed', i)
      ensures x.rack == placed'[i].rack
    {
      assert placed'[..i] == placed[..i];
      assert i < |placed| ==> Follows(base, placed, i);
    }
    forall i, j | 0 <= i < j < |placed'| && Follows(base, placed', i) ensures placed'[j].rack == placed'[i].rack {
      assert placed'[..i] == placed[..i];
      assert Follows(base, placed, i);
      assert left[k] in left;
    }
  }

  /** Racks alternating along the ring, as far as they can. */
  method Alternate(base: seq<Node>, spots: seq<int>, nodes: seq<NewNode>) returns (placed: seq<Node>)
    requires |spots| == |nodes|
    ensures IsPlacement(placed, spots, nodes)
    ensures Alternates(base, placed)
  {
    var order := RackOrder(nodes);
    RackOrderPermutes(nodes);
    SameNewNames(nodes, order);
    placed := AlternateAll(base, spots, order);
  }

  method AlternateAll(base: seq<Node>, spots: seq<int>, order: seq<NewNode>) returns (placed: seq<Node>)
    requires |spots| == |order|
    ensures Positions(placed) == spots && multiset(NewOf(placed)) == multiset(order)
    ensures Alternates(base, placed)
  {
    var left := order;
    placed := [];
    while |placed| < |spots|
      invariant |placed| + |left| == |spots|
      invariant Positions(placed) == spots[..|placed|]
      invariant multiset(NewOf(placed)) + multiset(left) == multiset(order)
      invariant AlternatesSoFar(base, placed, left)
    {
      placed, left := AlternateOne(base, placed, left, spots[|placed|]);
    }
  }

  method AlternateOne(base: seq<Node>, placed: seq<Node>, left: seq<NewNode>, t: int)
    returns (placed': seq<Node>, left': seq<NewNode>)
    requires left != [] && AlternatesSoFar(base, placed, left)
    ensures AlternatesSoFar(base, placed', left') && |left'| == |left| - 1
    ensures Positions(placed') == Positions(placed) + [t]
    ensures multiset(NewOf(placed')) + multiset(left') == multiset(NewOf(placed)) + multiset(left)
  {
    var k := PickOther(left, RackBefore(Sort(base + placed), t));
    var node := Node(t, left[k].name, left[k].rack);
    PlaceOne(placed, left, k, t);
    AlternatesMore(base, placed, left, k, node);
    placed' := placed + [node];
    left' := left[..k] + left[k + 1..];
  }

  lemma {:induction false} PlaceOne(placed: seq<Node>, left: seq<NewNode>, k: nat, t: int)
    requires k < |left|
    ensures var placed' := placed + [Node(t, left[k].name, left[k].rack)];
            && multiset(NewOf(placed')) + multiset(left[..k] + left[k + 1..]) ==
                multiset(NewOf(placed)) + multiset(left)
            && Positions(placed') == Positions(placed) + [t]
  {
    WithoutOne(left, k);
    assert NewOf(placed + [Node(t, left[k].name, left[k].rack)]) == NewOf(placed) + [left[k]];
  }
}
