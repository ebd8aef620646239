/** New nodes on given positions: the order of their racks that leaves the most
    even shares. */
module Placement {
  import opened Lists
  import opened Sorting
  import opened Arith
  import opened Ring
  import opened RoundRobin
  import opened Shares
  import opened Evenness

  /** New nodes whose rack orders are all tried; with more, one is built slot by slot. */
  const PLACE_SEARCH := 7

  function NewOf(placed: seq<Node>): (r: seq<NewNode>)
    ensures |r| == |placed|
    ensures forall i :: 0 <= i < |placed| ==> r[i] == NewNode(placed[i].name, placed[i].rack)
  {
    seq(|placed|, i requires 0 <= i < |placed| => NewNode(placed[i].name, placed[i].rack))
  }

  function NewNames(nodes: seq<NewNode>): (r: seq<Name>)
    ensures |r| == |nodes|
    ensures forall i :: 0 <= i < |nodes| ==> r[i] == nodes[i].name
  {
    seq(|nodes|, i requires 0 <= i < |nodes| => nodes[i].name)
  }

  function RackSeq(nodes: seq<NewNode>): (r: seq<Rack>)
    ensures |r| == |nodes|
    ensures forall i :: 0 <= i < |nodes| ==> r[i] == nodes[i].rack
  {
    seq(|nodes|, i requires 0 <= i < |nodes| => nodes[i].rack)
  }

  /** Free positions for new nodes beside a ring. */
  ghost predicate Room(base: seq<Node>, spots: seq<int>, nodes: seq<NewNode>, size: nat) {
    && size > 0 && |spots| == |nodes|
    && Distinct(Names(base)) && Distinct(NewNames(nodes))
    && (forall b, x :: b in base && x in nodes ==> b.name != x.name)
    && Distinct(Positions(base)) && Distinct(spots)
    && OnCircle(Positions(base), size) && OnCircle(spots, size)
    && forall b, p :: b in base && p in spots ==> b.pos != p
  }

  /** Some of the new nodes, each on a spot of its own. */
  ghost predicate Part(part: seq<Node>, spots: seq<int>, nodes: seq<NewNode>) {
    && Distinct(Names(part)) && Distinct(Positions(part))
    && forall n :: n in part ==> n.pos in spots && NewNode(n.name, n.rack) in nodes
  }

  /** All the new nodes, each once, on all the spots. */
  ghost predicate IsPlacement(placed: seq<Node>, spots: seq<int>, nodes: seq<NewNode>) {
    multiset(Positions(placed)) == multiset(spots) && multiset(NewOf(placed)) == multiset(nodes)
  }

  lemma {:induction false} SoundRing(ring: seq<Node>, size: nat)
    requires size > 0 && Distinct(Names(ring)) && Distinct(Positions(ring)) && OnCircle(Positions(ring), size)
    ensures Reduced(ring, size) == ring && Sound(ring, size)
  {
    forall i | 0 <= i < |ring| ensures Reduced(ring, size)[i] == ring[i] {
      assert 0 <= Positions(ring)[i] < size;
      SmallMod(ring[i].pos, size);
    }
    SortedRingSpec(ring, size);
  }

  lemma {:induction false} PartSound(base: seq<Node>, part: seq<Node>, spots: seq<int>, nodes: seq<NewNode>, size: nat)
    requires Room(base, spots, nodes, size) && Part(part, spots, nodes)
    ensures Sound(base + part, size) && Reduced(base + part, size) == base + part
  {
    var all := base + part;
    forall i, j | 0 <= i < j < |all| ensures Names(all)[i] != Names(all)[j] && Positions(all)[i] != Positions(all)[j] {
      if j < |base| {
        assert Names(base)[i] != Names(base)[j] && Positions(base)[i] != Positions(base)[j];
      } else if i >= |base| {
        var p, q := i - |base|, j - |base|;
        assert Names(part)[p] != Names(part)[q] && Positions(part)[p] != Positions(part)[q];
      } else {
        assert all[i] in base && all[j] in part;
        assert NewNode(all[j].name, all[j].rack) in nodes;
      }
    }
    forall i | 0 <= i < |all| ensures 0 <= Positions(all)[i] < size {
      if i < |base| {
        assert Positions(base)[i] == all[i].pos;
      } else {
        assert all[i] in part;
        var k :| 0 <= k < |spots| && spots[k] == all[i].pos;
      }
    }
    SoundRing(all, size);
  }

  lemma {:induction false} PlacementIsPart(placed: seq<Node>, spots: seq<int>, nodes: seq<NewNode>)
    requires IsPlacement(placed, spots, nodes) && Distinct(spots) && Distinct(NewNames(nodes))
    ensures Part(placed, spots, nodes) && |placed| == |nodes| == |spots|
  {
    DistinctOfMultiset(spots, Positions(placed));
    var f := (x: NewNode) => x.name;
    MapMultiset(f, nodes, NewOf(placed));
    assert Map(f, nodes) == NewNames(nodes) && Map(f, NewOf(placed)) == Names(placed);
    DistinctOfMultiset(NewNames(nodes), Names(placed));
    assert |multiset(NewOf(placed))| == |placed| && |multiset(spots)| == |spots|;
    forall n | n in placed ensures n.pos in spots && NewNode(n.name, n.rack) in nodes {
      var i :| 0 <= i < |placed| && placed[i] == n;
      assert Positions(placed)[i] in multiset(spots);
      assert NewOf(placed)[i] in multiset(nodes);
    }
  }

  // ----- building a placement from an order of racks -----

  /** How often the rack of slot i was used before it. */
  function Used(racks: seq<Rack>, i: nat): nat
    requires i < |racks|
  {
    multiset(racks[..i])[racks[i]]
  }

  lemma {:induction false} NamesCount(nodes: seq<NewNode>, rack: Rack)
    ensures |NamesOf(nodes, rack)| == multiset(RackSeq(nodes))[rack]
  {
    if nodes != [] {
      NamesCount(nodes[1..], rack);
      assert RackSeq(nodes) == [nodes[0].rack] + RackSeq(nodes[1..]);
    }
  }

  lemma {:induction false} NamesAreNodes(nodes: seq<NewNode>, rack: Rack)
    ensures forall k :: 0 <= k < |NamesOf(nodes, rack)| ==> NewNode(NamesOf(nodes, rack)[k], rack) in nodes
    ensures Distinct(NewNames(nodes)) ==> Distinct(NamesOf(nodes, rack))
  {
    if nodes != [] {
      var rest := NamesOf(nodes[1..], rack);
      NamesAreNodes(nodes[1..], rack);
      assert nodes == [nodes[0]] + nodes[1..];
      if Distinct(NewNames(nodes)) {
        forall i, j | 0 <= i < j < |nodes| - 1 ensures NewNames(nodes[1..])[i] != NewNames(nodes[1..])[j] {
          assert NewNames(nodes)[i + 1] != NewNames(nodes)[j + 1];
        }
        forall k | 0 <= k < |rest| ensures rest[k] != nodes[0].name {
          var i :| 0 <= i < |nodes| - 1 && nodes[1..][i] == NewNode(rest[k], rack);
          assert NewNames(nodes)[0] != NewNames(nodes)[i + 1];
        }
      }
    }
  }

  lemma {:induction false} UsedFits(racks: seq<Rack>, nodes: seq<NewNode>, i: nat)
    requires i < |racks| && multiset(racks) <= multiset(RackSeq(nodes))
    ensures Used(racks, i) < |NamesOf(nodes, racks[i])|
  {
    NamesCount(nodes, racks[i]);
    assert racks == racks[..i] + [racks[i]] + racks[i + 1..];
  }

  /** Slot i gets the next node of rack i, in the order of the nodes. */
  function Slot(nodes: seq<NewNode>, spots: seq<int>, racks: seq<Rack>, i: nat): Node
    requires multiset(racks) <= multiset(RackSeq(nodes)) && i < |racks| <= |spots|
  {
    UsedFits(racks, nodes, i);
    Node(spots[i], NamesOf(nodes, racks[i])[Used(racks, i)], racks[i])
  }

  function Built(nodes: seq<NewNode>, spots: seq<int>, racks: seq<Rack>): (r: seq<Node>)
    requires multiset(racks) <= multiset(RackSeq(nodes)) && |racks| <= |spots|
    ensures |r| == |racks|
    ensures forall i :: 0 <= i < |racks| ==> r[i] == Slot(nodes, spots, racks, i)
  {
    seq(|racks|, i requires 0 <= i < |racks| => Slot(nodes, spots, racks, i))
  }

  lemma {:induction false} BuiltAt(nodes: seq<NewNode>, spots: seq<int>, racks: seq<Rack>, i: nat)
    requires multiset(racks) <= multiset(RackSeq(nodes)) && |racks| <= |spots| && i < |racks|
    ensures Used(racks, i) < |NamesOf(nodes, racks[i])|
    ensures Built(nodes, spots, racks)[i] == Node(spots[i], NamesOf(nodes, racks[i])[Used(racks, i)], racks[i])
  {
    UsedFits(racks, nodes, i);
  }

  lemma {:induction false} UsedRises(racks: seq<Rack>, i: nat, j: nat)
    requires i < j < |racks| && racks[i] == racks[j]
    ensures Used(racks, i) < Used(racks, j)
  {
    assert racks[..j] == racks[..i] + [racks[i]] + racks[i + 1..j];
  }

  lemma {:induction false} BuiltDistinct(nodes: seq<NewNode>, spots: seq<int>, racks: seq<Rack>, i: nat, j: nat)
    requires multiset(racks) <= multiset(RackSeq(nodes)) && |racks| <= |spots| && Distinct(NewNames(nodes))
    requires i < j < |racks|
    ensures Built(nodes, spots, racks)[i].name != Built(nodes, spots, racks)[j].name
  {
    BuiltAt(nodes, spots, racks, i);
    BuiltAt(nodes, spots, racks, j);
    NamesAreNodes(nodes, racks[i]);
    NamesAreNodes(nodes, racks[j]);
    if racks[i] == racks[j] {
      UsedRises(racks, i, j);
    } else {
      var x, y := NewNode(Built(nodes, spots, racks)[i].name, racks[i]),
          NewNode(Built(nodes, spots, racks)[j].name, racks[j]);
      var k :| 0 <= k < |nodes| && nodes[k] == x;
      var l :| 0 <= l < |nodes| && nodes[l] == y;
      assert NewNames(nodes)[k] == x.name && NewNames(nodes)[l] == y.name;
    }
  }

  lemma {:induction false} BuiltIsPart(nodes: seq<NewNode>, spots: seq<int>, racks: seq<Rack>)
    requires multiset(racks) <= multiset(RackSeq(nodes)) && |racks| <= |spots|
    requires Distinct(NewNames(nodes)) && Distinct(spots)
    ensures Part(Built(nodes, spots, racks), spots, nodes)
  {
    var b := Built(nodes, spots, racks);
    forall i, j | 0 <= i < j < |b| ensures Names(b)[i] != Names(b)[j] {
      BuiltDistinct(nodes, spots, racks, i, j);
    }
    forall n | n in b ensures NewNode(n.name, n.rack) in nodes && n.pos in spots {
      var i :| 0 <= i < |b| && b[i] == n;
      BuiltAt(nodes, spots, racks, i);
      NamesAreNodes(nodes, racks[i]);
    }
  }

  /** As many different things as there are, all among them: the same things. */
  lemma {:induction false} SameThings<T(!new)>(a: seq<T>, b: seq<T>)
    requires Distinct(a) && Distinct(b) && |a| == |b| && forall x :: x in a ==> x in b
    ensures multiset(a) == multiset(b)
  {
    DistinctSize(a);
    DistinctSize(b);
    assert SetOf(a) <= SetOf(b);
    assert SetOf(b) == SetOf(a) + (SetOf(b) - SetOf(a));
    assert SetOf(a) == SetOf(b);
    forall x: T ensures multiset(a)[x] == multiset(b)[x] {
      DistinctMultiplicity(a, x);
      DistinctMultiplicity(b, x);
      assert x in a <==> x in SetOf(a);
      assert x in b <==> x in SetOf(b);
    }
  }

  lemma {:induction false} BuiltIsPlacement(nodes: seq<NewNode>, spots: seq<int>, racks: seq<Rack>)
    requires multiset(racks) == multiset(RackSeq(nodes)) && |nodes| == |spots|
    requires Distinct(NewNames(nodes)) && Distinct(spots)
    ensures |racks| == |nodes|
    ensures IsPlacement(Built(nodes, spots, racks), spots, nodes)
  {
    assert |multiset(racks)| == |racks| && |multiset(RackSeq(nodes))| == |RackSeq(nodes)|;
    var b := Built(nodes, spots, racks);
    BuiltIsPart(nodes, spots, racks);
    assert Positions(b) == spots;
    forall i, j | 0 <= i < j < |b| ensures NewOf(b)[i] != NewOf(b)[j] {
      assert Names(b)[i] != Names(b)[j];
    }
    forall i, j | 0 <= i < j < |nodes| ensures nodes[i] != nodes[j] {
      assert NewNames(nodes)[i] != NewNames(nodes)[j];
    }
    forall x | x in NewOf(b) ensures x in nodes {
      var i :| 0 <= i < |b| && NewOf(b)[i] == x;
      assert b[i] in b;
    }
    SameThings(NewOf(b), nodes);
  }

  lemma {:induction false} SameNewNames(a: seq<NewNode>, b: seq<NewNode>)
    requires multiset(a) == multiset(b)
    ensures multiset(RackSeq(a)) == multiset(RackSeq(b))
    ensures Distinct(NewNames(a)) ==> Distinct(NewNames(b))
    ensures |a| == |b| && forall x :: x in a <==> x in b
  {
    var f, g := (x: NewNode) => x.rack, (x: NewNode) => x.name;
    MapMultiset(f, a, b);
    assert Map(f, a) == RackSeq(a) && Map(f, b) == RackSeq(b);
    MapMultiset(g, a, b);
    assert Map(g, a) == NewNames(a) && Map(g, b) == NewNames(b);
    if Distinct(NewNames(a)) { DistinctOfMultiset(NewNames(a), NewNames(b)); }
    assert |multiset(a)| == |a| && |multiset(b)| == |b|;
    assert forall x :: x in a <==> x in multiset(a);
    assert forall x :: x in b <==> x in multiset(b);
  }

  /** The nodes' names by rack, in their order. */
  ghost predicate Queued(queues: map<Rack, seq<Name>>, nodes: seq<NewNode>) {
    && (forall r :: r in queues ==> queues[r] == NamesOf(nodes, r))
    && forall r :: r !in queues ==> NamesOf(nodes, r) == []
  }

  lemma {:induction false} QueuedMore(queues: map<Rack, seq<Name>>, nodes: seq<NewNode>, x: NewNode)
    requires Queued(queues, nodes)
    ensures Queued(queues[x.rack := (if x.rack in queues then queues[x.rack] else []) + [x.name]], nodes + [x])
  {
    forall r ensures NamesOf(nodes + [x], r) == NamesOf(nodes, r) + if x.rack == r then [x.name] else [] {
      NamesOfConcat(nodes, [x], r);
    }
  }

  method QueueUp(order: seq<NewNode>) returns (queues: map<Rack, seq<Name>>)
    ensures Queued(queues, order)
  {
    queues := map[];
    var i := 0;
    while i < |order|
      invariant 0 <= i <= |order|
      invariant Queued(queues, order[..i])
    {
      var x := order[i];
      QueuedMore(queues, order[..i], x);
      assert order[..i + 1] == order[..i] + [x];
      queues := queues[x.rack := (if x.rack in queues then queues[x.rack] else []) + [x.name]];
      i := i + 1;
    }
    assert order[..i] == order;
  }

  /** Queues with the first names of some racks taken. */
  ghost predicate Popped(queues: map<Rack, seq<Name>>, nodes: seq<NewNode>, taken: multiset<Rack>) {
    forall r :: PoppedAt(queues, nodes, taken, r)
  }

  ghost predicate PoppedAt(queues: map<Rack, seq<Name>>, nodes: seq<NewNode>, taken: multiset<Rack>, r: Rack) {
    && taken[r] <= |NamesOf(nodes, r)|
    && if r in queues then queues[r] == NamesOf(nodes, r)[taken[r]..] else NamesOf(nodes, r) == []
  }

  lemma {:induction false} QueuedIsPopped(queues: map<Rack, seq<Name>>, nodes: seq<NewNode>)
    requires Queued(queues, nodes)
    ensures Popped(queues, nodes, multiset{})
  {
  }

  lemma {:induction false} PoppedMore(queues: map<Rack, seq<Name>>, nodes: seq<NewNode>, taken: multiset<Rack>,
        rack: Rack)
    requires Popped(queues, nodes, taken) && taken[rack] < |NamesOf(nodes, rack)|
    ensures rack in queues && queues[rack] != [] && queues[rack][0] == NamesOf(nodes, rack)[taken[rack]]
    ensures Popped(queues[rack := queues[rack][1..]], nodes, taken + multiset{rack})
  {
    assert PoppedAt(queues, nodes, taken, rack);
    var queues', taken' := queues[rack := queues[rack][1..]], taken + multiset{rack};
    forall r ensures PoppedAt(queues', nodes, taken', r) {
      assert PoppedAt(queues, nodes, taken, r);
    }
  }

  /** The new nodes on the spots, the racks in the order given: names popped from per-rack queues. */
  method Build(nodes: seq<NewNode>, spots: seq<int>, racks: seq<Rack>) returns (placed: seq<Node>)
    requires multiset(racks) <= multiset(RackSeq(nodes)) && |racks| <= |spots|
    ensures multiset(RackSeq(nodes)) == multiset(RackSeq(Rounds(Queues(nodes))))
    ensures placed == Built(Rounds(Queues(nodes)), spots, racks)
  {
    var order := RackOrder(nodes);
    RackOrderPermutes(nodes);
    SameNewNames(nodes, order);
    placed := PopInto(order, spots, racks);
  }

  method PopInto(order: seq<NewNode>, spots: seq<int>, racks: seq<Rack>) returns (placed: seq<Node>)
    requires multiset(racks) <= multiset(RackSeq(order)) && |racks| <= |spots|
    ensures placed == Built(order, spots, racks)
  {
    var queues := QueueUp(order);
    QueuedIsPopped(queues, order);
    placed := [];
    var i := 0;
    while i < |racks|
      invariant 0 <= i <= |racks| && |placed| == i
      invariant Popped(queues, order, multiset(racks[..i]))
      invariant forall k :: 0 <= k < i ==> placed[k] == Slot(order, spots, racks, k)
    {
      var rack := racks[i];
      UsedFits(racks, order, i);
      PoppedMore(queues, order, multiset(racks[..i]), rack);
      TakeOne(racks, i);
      var node := Node(spots[i], queues[rack][0], rack);
      assert node == Slot(order, spots, racks, i);
      placed := placed + [node];
      queues := queues[rack := queues[rack][1..]];
      i := i + 1;
    }
  }

  lemma {:induction false} TakeOne(racks: seq<Rack>, i: nat)
    requires i < |racks|
    ensures multiset(racks[..i + 1]) == multiset(racks[..i]) + multiset{racks[i]}
  {
    assert racks[..i + 1] == racks[..i] + [racks[i]];
  }

  // ----- every order of the racks -----

  predicate RankLe(a: Rack, b: Rack) {
    a <= b
  }

  function SortUp(s: seq<Rack>): (r: seq<Rack>)
    ensures multiset(r) == multiset(s)
  {
    SortBy(s, RankLe)
  }

  function Prefixed(x: Rack, orders: seq<seq<Rack>>): (r: seq<seq<Rack>>)
    ensures |r| == |orders|
    ensures forall i :: 0 <= i < |orders| ==> r[i] == [x] + orders[i]
  {
    seq(|orders|, i requires 0 <= i < |orders| => [x] + orders[i])
  }

  /** The different orders of some racks; in alphabetical order when the racks are. */
  function Orders(racks: seq<Rack>): seq<seq<Rack>>
    decreases |racks|, |racks| + 1
  {
    if racks == [] then [[]] else OrdersFrom(racks, 0)
  }

  /** The orders that start with the rack at i or after. */
  function OrdersFrom(racks: seq<Rack>, i: nat): seq<seq<Rack>>
    requires i <= |racks|
    decreases |racks|, |racks| - i
  {
    if i == |racks| then []
    else (if racks[i] in racks[..i] then []
        else Prefixed(racks[i], Orders(racks[..i] + racks[i + 1..]))) + OrdersFrom(racks, i + 1)
  }

  lemma {:induction false} OrdersAre(racks: seq<Rack>, o: seq<Rack>)
    requires o in Orders(racks)
    ensures multiset(o) == multiset(racks)
    decreases |racks|, |racks| + 1
  {
    if racks != [] { OrdersFromAre(racks, 0, o); }
  }

  lemma {:induction false} OrdersFromAre(racks: seq<Rack>, i: nat, o: seq<Rack>)
    requires i <= |racks| && o in OrdersFrom(racks, i)
    ensures multiset(o) == multiset(racks)
    decreases |racks|, |racks| - i
  {
    if o in OrdersFrom(racks, i + 1) {
      OrdersFromAre(racks, i + 1, o);
    } else {
      var rest := racks[..i] + racks[i + 1..];
      var k :| 0 <= k < |Orders(rest)| && o == [racks[i]] + Orders(rest)[k];
      OrdersAre(rest, Orders(rest)[k]);
      WithoutOne(racks, i);
    }
  }

  lemma {:induction false} OrdersHasAll(racks: seq<Rack>, o: seq<Rack>)
    requires multiset(o) == multiset(racks)
    ensures o in Orders(racks)
    decreases |racks|, |racks| + 1
  {
    if racks == [] {
      assert |multiset(o)| == 0;
    } else {
      assert |multiset(o)| == |multiset(racks)| == |racks|;
      assert o[0] in multiset(racks);
      OrdersFromHasAll(racks, 0, o);
    }
  }

  lemma {:induction false} OrdersFromHasAll(racks: seq<Rack>, i: nat, o: seq<Rack>)
    requires i <= |racks| && o != [] && multiset(o) == multiset(racks)
    requires o[0] !in racks[..i] && o[0] in racks[i..]
    ensures o in OrdersFrom(racks, i)
    decreases |racks|, |racks| - i
  {
    if racks[i] == o[0] {
      var rest := racks[..i] + racks[i + 1..];
      WithoutOne(racks, i);
      WithoutOne(o, 0);
      assert o[..0] + o[1..] == o[1..];
      OrdersHasAll(rest, o[1..]);
      var k :| 0 <= k < |Orders(rest)| && Orders(rest)[k] == o[1..];
      assert Prefixed(racks[i], Orders(rest))[k] == o;
    } else {
      assert racks[..i + 1] == racks[..i] + [racks[i]];
      OrdersFromHasAll(racks, i + 1, o);
    }
  }
}
