/** The placement chosen for new nodes: the best of every rack order when there
    are few, of three candidates when there are many. */
module PlaceChoice {
  import opened Lists
  import opened Sorting
  import opened Options
  import opened Ring
  import opened RoundRobin
  import opened Evenness
  import opened Placement
  import opened PlaceSearch

  // ----- sorted spots -----

  lemma {:induction false} SortedRoom(base: seq<Node>, spots: seq<int>, nodes: seq<NewNode>, size: nat)
    requires Room(base, spots, nodes, size)
    ensures Room(base, SortInts(spots), nodes, size) && Increasing(SortInts(spots))
  {
    var sorted := SortInts(spots);
    SortIncreasing(spots);
    DistinctOfMultiset(spots, sorted);
    assert |multiset(sorted)| == |sorted| && |multiset(spots)| == |spots|;
    forall p | p in sorted ensures p in spots { assert p in multiset(sorted); }
    forall i | 0 <= i < |sorted| ensures 0 <= sorted[i] < size {
      assert sorted[i] in spots;
    }
  }

  // ----- candidates -----

  ghost predicate AllPlacements(candidates: seq<seq<Node>>, spots: seq<int>, nodes: seq<NewNode>) {
    forall i :: 0 <= i < |candidates| ==> IsPlacement(candidates[i], spots, nodes)
  }

  /** The racks of the new nodes, in some order. */
  ghost predicate IsOrder(racks: seq<Rack>, spots: seq<int>, nodes: seq<NewNode>) {
    multiset(racks) == multiset(RackSeq(nodes)) && |racks| <= |spots|
  }

  /** The placement built from an order of the racks. */
  ghost function Ordered(spots: seq<int>, nodes: seq<NewNode>, racks: seq<Rack>): seq<Node>
    requires IsOrder(racks, spots, nodes)
  {
    RackOrderPermutes(nodes);
    SameNewNames(nodes, Rounds(Queues(nodes)));
    Built(Rounds(Queues(nodes)), spots, racks)
  }

  lemma {:induction false} OrderedPlaces(base: seq<Node>, spots: seq<int>, nodes: seq<NewNode>, size: nat,
        racks: seq<Rack>)
    requires Room(base, spots, nodes, size) && multiset(racks) == multiset(RackSeq(nodes))
    ensures IsOrder(racks, spots, nodes) && IsPlacement(Ordered(spots, nodes, racks), spots, nodes)
  {
    RoomRounds(base, spots, nodes, size);
    BuiltIsPlacement(Rounds(Queues(nodes)), spots, racks);
    SameNodesPlacement(Built(Rounds(Queues(nodes)), spots, racks), spots, nodes);
  }

  method BuildOrder(base: seq<Node>, spots: seq<int>, nodes: seq<NewNode>, ghost size: nat, racks: seq<Rack>)
      returns (placed: seq<Node>)
    requires Room(base, spots, nodes, size) && multiset(racks) == multiset(RackSeq(nodes))
    ensures IsOrder(racks, spots, nodes) && placed == Ordered(spots, nodes, racks)
    ensures IsPlacement(placed, spots, nodes)
  {
    OrderedPlaces(base, spots, nodes, size, racks);
    placed := Build(nodes, spots, racks);
  }

  /** The placement of every order of the racks. */
  method BuildAll(base: seq<Node>, spots: seq<int>, nodes: seq<NewNode>, ghost size: nat)
      returns (candidates: seq<seq<Node>>)
    requires Room(base, spots, nodes, size)
    ensures AllPlacements(candidates, spots, nodes)
    ensures forall racks: seq<Rack> :: IsOrder(racks, spots, nodes) ==> Ordered(spots, nodes, racks) in candidates
  {
    var orders := Orders(SortUp(RackSeq(nodes)));
    forall i | 0 <= i < |orders| ensures multiset(orders[i]) == multiset(RackSeq(nodes)) {
      OrdersAre(SortUp(RackSeq(nodes)), orders[i]);
    }
    candidates := BuildEach(base, spots, nodes, size, orders);
    forall racks: seq<Rack> | IsOrder(racks, spots, nodes) ensures Ordered(spots, nodes, racks) in candidates {
      OrdersHasAll(SortUp(RackSeq(nodes)), racks);
      var i :| 0 <= i < |orders| && orders[i] == racks;
      assert candidates[i] == Ordered(spots, nodes, racks);
    }
  }

  method BuildEach(base: seq<Node>, spots: seq<int>, nodes: seq<NewNode>, ghost size: nat, orders: seq<seq<Rack>>)
    returns (candidates: seq<seq<Node>>)
    requires Room(base, spots, nodes, size)
    requires forall i :: 0 <= i < |orders| ==> multiset(orders[i]) == multiset(RackSeq(nodes))
    ensures |candidates| == |orders| && AllPlacements(candidates, spots, nodes)
    ensures forall i :: 0 <= i < |orders| ==>
        IsOrder(orders[i], spots, nodes) && candidates[i] == Ordered(spots, nodes, orders[i])
  {
    candidates := [];
    while |candidates| < |orders|
      invariant |candidates| <= |orders|
      invariant AllPlacements(candidates, spots, nodes)
      invariant forall i :: 0 <= i < |candidates| ==>
          IsOrder(orders[i], spots, nodes) && candidates[i] == Ordered(spots, nodes, orders[i])
    {
      var placed := BuildOrder(base, spots, nodes, size, orders[|candidates|]);
      candidates := candidates + [placed];
    }
  }

  ghost predicate HasGreedy(candidates: seq<seq<Node>>, base: seq<Node>, spots: seq<int>, nodes: seq<NewNode>,
        size: nat, rf: nat)
    requires Room(base, spots, nodes, size)
  {
    exists racks: seq<Rack> :: IsOrder(racks, spots, nodes)
      && SlotGreedy(base, spots, nodes, size, rf, racks) && Ordered(spots, nodes, racks) in candidates
  }

  ghost predicate HasAlternating(candidates: seq<seq<Node>>, base: seq<Node>) {
    exists c :: c in candidates && Alternates(base, c)
  }

  /** The candidates of the search: every rack order for few nodes, two for many, and the placement given. */
  ghost predicate Covers(candidates: seq<seq<Node>>, base: seq<Node>, spots: seq<int>, nodes: seq<NewNode>, size: nat,
        rf: nat, given: Option<seq<Node>>)
    requires Room(base, spots, nodes, size)
  {
    && candidates != [] && AllPlacements(candidates, spots, nodes)
    && (given.Some? ==> given.value in candidates)
    && if |nodes| <= PLACE_SEARCH then
        forall racks: seq<Rack> :: IsOrder(racks, spots, nodes) ==> Ordered(spots, nodes, racks) in candidates
      else
        HasGreedy(candidates, base, spots, nodes, size, rf) && HasAlternating(candidates, base)
  }

  method Candidates(base: seq<Node>, spots: seq<int>, nodes: seq<NewNode>, size: nat, rf: nat, given: Option<seq<Node>>)
    returns (candidates: seq<seq<Node>>)
    requires Room(base, spots, nodes, size)
    requires given.Some? ==> IsPlacement(given.value, spots, nodes)
    ensures Covers(candidates, base, spots, nodes, size, rf, given)
  {
    if |nodes| <= PLACE_SEARCH {
      candidates := BuildAll(base, spots, nodes, size);
      OrderedPlaces(base, spots, nodes, size, RackSeq(nodes));
    } else {
      candidates := TwoCandidates(base, spots, nodes, size, rf);
    }
    if given.Some? { candidates := WithGiven(candidates, base, spots, nodes, size, rf, given.value); }
  }

  method WithGiven(candidates: seq<seq<Node>>, base: seq<Node>, spots: seq<int>, nodes: seq<NewNode>, ghost size: nat,
        ghost rf: nat, given: seq<Node>)
    returns (more: seq<seq<Node>>)
    requires Room(base, spots, nodes, size) && IsPlacement(given, spots, nodes)
    requires Covers(candidates, base, spots, nodes, size, rf, None)
    ensures Covers(more, base, spots, nodes, size, rf, Some(given))
  {
    more := candidates + [given];
    assert forall c :: c in candidates ==> c in more;
    assert given in more;
  }

  method TwoCandidates(base: seq<Node>, spots: seq<int>, nodes: seq<NewNode>, size: nat, rf: nat)
    returns (candidates: seq<seq<Node>>)
    requires Room(base, spots, nodes, size)
    ensures candidates != [] && AllPlacements(candidates, spots, nodes)
    ensures HasGreedy(candidates, base, spots, nodes, size, rf) && HasAlternating(candidates, base)
  {
    var order := SlotBySlot(base, spots, nodes, size, rf);
    var built := BuildOrder(base, spots, nodes, size, order);
    var alternate := Alternate(base, spots, nodes);
    candidates := [built, alternate];
    TwoCover(base, spots, nodes, size, rf, order, built, alternate);
    AlternateThere(base, built, alternate);
  }

  lemma {:induction false} AlternateThere(base: seq<Node>, built: seq<Node>, alternate: seq<Node>)
    requires Alternates(base, alternate)
    ensures HasAlternating([built, alternate], base)
  {
    assert alternate in [built, alternate];
  }

  lemma {:induction false} TwoCover(base: seq<Node>, spots: seq<int>, nodes: seq<NewNode>, size: nat, rf: nat,
                 order: seq<Rack>, built: seq<Node>, alternate: seq<Node>)
    requires Room(base, spots, nodes, size)
    requires IsOrder(order, spots, nodes) && SlotGreedy(base, spots, nodes, size, rf, order)
    requires built == Ordered(spots, nodes, order)
    ensures HasGreedy([built, alternate], base, spots, nodes, size, rf)
  {
    assert built in [built, alternate];
  }

  // ----- one rack -----

  lemma {:induction false} OneRackSeq(a: seq<Rack>, b: seq<Rack>, rack: Rack)
    requires multiset(a) == multiset(b) && forall x :: x in b ==> x == rack
    ensures a == b
  {
    assert |multiset(a)| == |a| && |multiset(b)| == |b|;
    forall i | 0 <= i < |a| ensures a[i] == b[i] {
      assert a[i] in multiset(a);
      assert a[i] in b;
      assert b[i] in b;
    }
  }

  /** With one rack, every placement is as even as any other. */
  lemma {:induction false} OneRackSameKey(base: seq<Node>, spots: seq<int>, nodes: seq<NewNode>, size: nat, rf: nat,
        rack: Rack, p: seq<Node>, q: seq<Node>)
    requires Room(base, spots, nodes, size) && Increasing(spots)
    requires forall x :: x in nodes ==> x.rack == rack
    requires IsPlacement(p, spots, nodes) && IsPlacement(q, spots, nodes)
    ensures Sound(base + p, size) && Sound(base + q, size)
    ensures PlacedKey(base, p, size, rf) == PlacedKey(base, q, size, rf)
  {
    var rp := PlacementOrder(p, spots, nodes);
    var rq := PlacementOrder(q, spots, nodes);
    OneRackSeq(rp, RackSeq(nodes), rack);
    OneRackSeq(rq, RackSeq(nodes), rack);
    PlacementSound(base, p, spots, nodes, size);
    PlacementSound(base, q, spots, nodes, size);
    SameBaresSameKey(base, p, q, size, rf);
  }

  // ----- the choice -----

  /** At least as even as a placement that may not be there. */
  ghost predicate NoLessEven(base: seq<Node>, placed: seq<Node>, other: seq<Node>, size: nat, rf: nat) {
    && Sound(base + placed, size)
    && (Sound(base + other, size) ==> AtMost(PlacedKey(base, placed, size, rf), PlacedKey(base, other, size, rf)))
  }

  /** Every placement is as even as one of the candidates for few nodes. */
  lemma {:induction false} CoversAll(candidates: seq<seq<Node>>, base: seq<Node>, spots: seq<int>, nodes: seq<NewNode>,
        size: nat, rf: nat, given: Option<seq<Node>>, best: nat, p: seq<Node>)
    requires Room(base, spots, nodes, size) && Increasing(spots) && |nodes| <= PLACE_SEARCH
    requires Covers(candidates, base, spots, nodes, size, rf, given) && AllSound(base, candidates, size) &&
        best < |candidates|
    requires forall i :: 0 <= i < |candidates| ==>
               AtMost(PlacedKey(base, candidates[best], size, rf), PlacedKey(base, candidates[i], size, rf))
    requires IsPlacement(p, spots, nodes)
    ensures NoLessEven(base, candidates[best], p, size, rf)
  {
    SameNodesPlacement(p, spots, nodes);
    RoomRounds(base, spots, nodes, size);
    var racks := PlacementOrder(p, spots, Rounds(Queues(nodes)));
    assert IsOrder(racks, spots, nodes);
    var built := Ordered(spots, nodes, racks);
    var i :| 0 <= i < |candidates| && candidates[i] == built;
    PlacementSound(base, built, spots, nodes, size);
    PlacementSound(base, p, spots, nodes, size);
    SameBaresSameKey(base, built, p, size, rf);
  }

  /** All the nodes are of one rack. */
  predicate OneRack(base: seq<Node>, nodes: seq<NewNode>) {
    |SetOf(RackSeq(nodes)) + SetOf(RacksOf(base))| < 2
  }

  /** At least as even as a slot by slot order of the racks. */
  ghost predicate BeatsGreedy(placed: seq<Node>, base: seq<Node>, spots: seq<int>, nodes: seq<NewNode>, size: nat,
        rf: nat)
    requires Room(base, spots, nodes, size)
  {
    exists racks: seq<Rack> :: IsOrder(racks, spots, nodes)
      && SlotGreedy(base, spots, nodes, size, rf, racks)
      && NoLessEven(base, placed, Ordered(spots, nodes, racks), size, rf)
  }

  /** At least as even as the racks alternating along the ring. */
  ghost predicate BeatsAlternating(placed: seq<Node>, base: seq<Node>, spots: seq<int>, nodes: seq<NewNode>, size: nat,
        rf: nat) {
    exists c :: IsPlacement(c, spots, nodes) && Alternates(base, c) && NoLessEven(base, placed, c, size, rf)
  }

  /** A placement of the nodes on the spots: for few of them or one rack as even as
      any there is, else as even as the slot by slot one and as the alternating one. */
  ghost predicate WellPlaced(placed: seq<Node>, base: seq<Node>, spots: seq<int>, nodes: seq<NewNode>, size: nat,
        rf: nat) {
    && Room(base, spots, nodes, size) && Room(base, SortInts(spots), nodes, size)
    && IsPlacement(placed, spots, nodes)
    && if |nodes| <= PLACE_SEARCH || OneRack(base, nodes) then
         forall p :: IsPlacement(p, spots, nodes) ==> NoLessEven(base, placed, p, size, rf)
       else
         && BeatsGreedy(placed, base, SortInts(spots), nodes, size, rf)
         && BeatsAlternating(placed, base, SortInts(spots), nodes, size, rf)
  }

  /** The best candidate is at least as even as both beyond the search. */
  lemma {:induction false} BestOfBoth(candidates: seq<seq<Node>>, base: seq<Node>, spots: seq<int>, nodes: seq<NewNode>,
        size: nat, rf: nat, given: Option<seq<Node>>, best: nat)
    requires Room(base, spots, nodes, size) && |nodes| > PLACE_SEARCH && best < |candidates|
    requires Covers(candidates, base, spots, nodes, size, rf, given) && AllSound(base, candidates, size)
    requires forall i :: 0 <= i < |candidates| ==>
               AtMost(PlacedKey(base, candidates[best], size, rf), PlacedKey(base, candidates[i], size, rf))
    ensures BeatsGreedy(candidates[best], base, spots, nodes, size, rf)
    ensures BeatsAlternating(candidates[best], base, spots, nodes, size, rf)
  {
    var racks: seq<Rack> :| IsOrder(racks, spots, nodes)
      && SlotGreedy(base, spots, nodes, size, rf, racks) && Ordered(spots, nodes, racks) in candidates;
    var i :| 0 <= i < |candidates| && candidates[i] == Ordered(spots, nodes, racks);
    assert NoLessEven(base, candidates[best], candidates[i], size, rf);
    var c :| c in candidates && Alternates(base, c);
    var j :| 0 <= j < |candidates| && candidates[j] == c;
    assert NoLessEven(base, candidates[best], candidates[j], size, rf);
  }

  method PlaceSorted(base: seq<Node>, spots: seq<int>, nodes: seq<NewNode>, size: nat, rf: nat,
        given: Option<seq<Node>>)
    returns (placed: seq<Node>)
    requires Room(base, spots, nodes, size) && Increasing(spots)
    requires given.Some? ==> IsPlacement(given.value, spots, nodes)
    ensures IsPlacement(placed, spots, nodes)
    ensures given.Some? ==> NoLessEven(base, placed, given.value, size, rf)
    ensures |nodes| <= PLACE_SEARCH ==> forall p :: IsPlacement(p, spots, nodes) ==>
        NoLessEven(base, placed, p, size, rf)
    ensures |nodes| > PLACE_SEARCH ==>
              BeatsGreedy(placed, base, spots, nodes, size, rf) &&
                  BeatsAlternating(placed, base, spots, nodes, size, rf)
  {
    var candidates := Candidates(base, spots, nodes, size, rf, given);
    forall i | 0 <= i < |candidates| ensures Sound(base + candidates[i], size) {
      PlacementSound(base, candidates[i], spots, nodes, size);
    }
    var best := MostEven(base, candidates, size, rf);
    placed := candidates[best];
    if |nodes| <= PLACE_SEARCH {
      forall p | IsPlacement(p, spots, nodes) ensures NoLessEven(base, placed, p, size, rf) {
        CoversAll(candidates, base, spots, nodes, size, rf, given, best, p);
      }
    } else {
      BestOfBoth(candidates, base, spots, nodes, size, rf, given, best);
    }
  }

  /** The new nodes on the spots, their racks in the order that leaves the ring
      the most even: of all placements there are for few nodes or one rack, of the
      slot by slot one and the alternating one for many; never less even than the
      one given for any number. */
  method Place(base: seq<Node>, spots: seq<int>, nodes: seq<NewNode>, size: nat, rf: nat, given: Option<seq<Node>>)
    returns (placed: seq<Node>)
    requires Room(base, spots, nodes, size)
    requires given.Some? ==> IsPlacement(given.value, spots, nodes)
    ensures WellPlaced(placed, base, spots, nodes, size, rf)
    ensures given.Some? ==> NoLessEven(base, placed, given.value, size, rf)
  {
    var sorted := SortInts(spots);
    SortedRoom(base, spots, nodes, size);
    if OneRack(base, nodes) {
      placed := if given.Some? && given.value != [] then given.value else Zip(sorted, nodes);
      ZipIsPlacement(sorted, nodes);
      assert given.Some? && given.value == [] ==> Zip(sorted, nodes) == [] by {
        if given.Some? { PlacementIsPart(given.value, sorted, nodes); }
      }
      OneRackBest(base, sorted, nodes, size, rf, placed);
    } else {
      placed := PlaceSorted(base, sorted, nodes, size, rf, given);
    }
  }

  function Zip(spots: seq<int>, nodes: seq<NewNode>): (r: seq<Node>)
    requires |spots| == |nodes|
    ensures |r| == |spots|
    ensures forall i :: 0 <= i < |r| ==> r[i] == Node(spots[i], nodes[i].name, nodes[i].rack)
  {
    seq(|spots|, i requires 0 <= i < |spots| => Node(spots[i], nodes[i].name, nodes[i].rack))
  }

  lemma {:induction false} ZipIsPlacement(spots: seq<int>, nodes: seq<NewNode>)
    requires |spots| == |nodes|
    ensures IsPlacement(Zip(spots, nodes), spots, nodes)
  {
    assert Positions(Zip(spots, nodes)) == spots;
    assert NewOf(Zip(spots, nodes)) == nodes;
  }

  lemma {:induction false} AtMostOne<T>(s: set<T>, x: T, y: T)
    requires |s| < 2 && x in s && y in s
    ensures x == y
  {
    if x != y { TwoMembers(s, x, y); }
  }

  lemma {:induction false} TwoMembers<T>(s: set<T>, x: T, y: T)
    requires x != y && x in s && y in s
    ensures |s| >= 2
  {
    assert s == {x, y} + (s - {x, y});
  }

  lemma {:induction false} OneRackBest(base: seq<Node>, spots: seq<int>, nodes: seq<NewNode>, size: nat, rf: nat,
        placed: seq<Node>)
    requires Room(base, spots, nodes, size) && Increasing(spots) && IsPlacement(placed, spots, nodes)
    requires OneRack(base, nodes)
    ensures forall p :: IsPlacement(p, spots, nodes) ==> NoLessEven(base, placed, p, size, rf)
  {
    var rack := if nodes == [] then 0 else nodes[0].rack;
    forall x | x in nodes ensures x.rack == rack {
      var i :| 0 <= i < |nodes| && nodes[i] == x;
      assert RackSeq(nodes)[i] in RackSeq(nodes) && RackSeq(nodes)[0] in RackSeq(nodes);
      AtMostOne(SetOf(RackSeq(nodes)) + SetOf(RacksOf(base)), x.rack, rack);
    }
    PlacementSound(base, placed, spots, nodes, size);
    forall p | IsPlacement(p, spots, nodes) ensures NoLessEven(base, placed, p, size, rf) {
      OneRackSameKey(base, spots, nodes, size, rf, rack, placed, p);
      LessIsAtMost(PlacedKey(base, placed, size, rf), PlacedKey(base, p, size, rf));
    }
  }
}
