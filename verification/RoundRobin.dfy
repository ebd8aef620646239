/** Nodes in rack round robin: racks in turn, each rack's nodes in inventory order. */
module RoundRobin {
  import opened Lists
  import opened Arith
  import opened Ring

  datatype NewNode = NewNode(name: Name, rack: Rack)
  datatype Queue = Queue(rack: Rack, names: seq<Name>)

  /** The names of one rack, in inventory order. */
  function NamesOf(nodes: seq<NewNode>, rack: Rack): seq<Name> {
    if nodes == [] then []
    else (if nodes[0].rack == rack then [nodes[0].name] else []) + NamesOf(nodes[1..], rack)
  }

  function InsertRack(rack: Rack, racks: seq<Rack>): seq<Rack> {
    if racks == [] || rack < racks[0] then [rack] + racks
    else if rack == racks[0] then racks
    else [racks[0]] + InsertRack(rack, racks[1..])
  }

  /** The racks of the nodes, sorted, each once. */
  function SortedRacks(nodes: seq<NewNode>): seq<Rack> {
    if nodes == [] then [] else InsertRack(nodes[0].rack, SortedRacks(nodes[1..]))
  }

  function Queues(nodes: seq<NewNode>): (qs: seq<Queue>)
    ensures |qs| == |SortedRacks(nodes)|
  {
    var racks := SortedRacks(nodes);
    seq(|racks|, i requires 0 <= i < |racks| => Queue(racks[i], NamesOf(nodes, racks[i])))
  }

  // ----- one round, all rounds -----

  /** The next node of each rack that has one left. */
  function Heads(qs: seq<Queue>): seq<NewNode> {
    if qs == [] then []
    else Heads(qs[..|qs| - 1]) + Head(qs[|qs| - 1])
  }

  function Head(q: Queue): seq<NewNode> {
    if q.names == [] then [] else [NewNode(q.names[0], q.rack)]
  }

  function Tail(q: Queue): Queue {
    if q.names == [] then q else q.(names := q.names[1..])
  }

  function Tails(qs: seq<Queue>): (r: seq<Queue>)
    ensures |r| == |qs|
    ensures forall i :: 0 <= i < |qs| ==> r[i] == Tail(qs[i])
  {
    seq(|qs|, i requires 0 <= i < |qs| => Tail(qs[i]))
  }

  function NodesLeft(qs: seq<Queue>): nat {
    if qs == [] then 0 else NodesLeft(qs[..|qs| - 1]) + |qs[|qs| - 1].names|
  }

  lemma {:induction false} LeftOfTails(qs: seq<Queue>)
    ensures NodesLeft(Tails(qs)) == NodesLeft(qs) - |Heads(qs)|
  {
    if qs != [] {
      LeftOfTails(qs[..|qs| - 1]);
      assert Tails(qs)[..|qs| - 1] == Tails(qs[..|qs| - 1]);
    }
  }

  lemma {:induction false} LeftNone(qs: seq<Queue>)
    ensures NodesLeft(qs) == 0 <==> forall i :: 0 <= i < |qs| ==> qs[i].names == []
    ensures NodesLeft(qs) > 0 ==> |Heads(qs)| > 0
  {
    if qs != [] {
      LeftNone(qs[..|qs| - 1]);
      assert qs == qs[..|qs| - 1] + [qs[|qs| - 1]];
    }
  }

  /** Racks taken in turn until no node is left. */
  function Rounds(qs: seq<Queue>): seq<NewNode>
    decreases NodesLeft(qs)
  {
    LeftOfTails(qs);
    LeftNone(qs);
    if NodesLeft(qs) == 0 then [] else Heads(qs) + Rounds(Tails(qs))
  }

  /** One turn of the racks: the next node of each queue popped onto the order. */
  method TakeRound(qs: seq<Queue>, order: seq<NewNode>) returns (qs': seq<Queue>, order': seq<NewNode>)
    ensures qs' == Tails(qs) && order' == order + Heads(qs)
  {
    qs', order' := qs, order;
    var i := 0;
    while i < |qs'|
      invariant 0 <= i <= |qs'| == |qs|
      invariant forall k :: 0 <= k < i ==> qs'[k] == Tail(qs[k])
      invariant forall k :: i <= k < |qs| ==> qs'[k] == qs[k]
      invariant order' == order + Heads(qs[..i])
    {
      HeadsStep(qs, i);
      if qs'[i].names != [] {
        order' := order' + [NewNode(qs'[i].names[0], qs'[i].rack)];
        qs' := qs'[i := qs'[i].(names := qs'[i].names[1..])];
      }
      i := i + 1;
    }
    assert qs[..|qs|] == qs;
  }

  /** The round robin as the planner runs it, popping its queues. */
  method RackOrder(nodes: seq<NewNode>) returns (order: seq<NewNode>)
    ensures order == Rounds(Queues(nodes))
  {
    var qs := Queues(nodes);
    order := [];
    while exists i :: 0 <= i < |qs| && qs[i].names != []
      invariant order + Rounds(qs) == Rounds(Queues(nodes))
      decreases NodesLeft(qs)
    {
      LeftNone(qs);
      LeftOfTails(qs);
      assert order + (Heads(qs) + Rounds(Tails(qs))) == (order + Heads(qs)) + Rounds(Tails(qs));
      qs, order := TakeRound(qs, order);
    }
    LeftNone(qs);
  }

  lemma {:induction false} HeadsStep(qs: seq<Queue>, i: nat)
    requires i < |qs|
    ensures Heads(qs[..i + 1]) == Heads(qs[..i]) + Head(qs[i])
  {
    assert qs[..i + 1][..i] == qs[..i];
  }

  // ----- every node once -----

  function NodesOf(q: Queue): (r: seq<NewNode>)
    ensures |r| == |q.names|
  {
    seq(|q.names|, i requires 0 <= i < |q.names| => NewNode(q.names[i], q.rack))
  }

  function Content(qs: seq<Queue>): multiset<NewNode> {
    if qs == [] then multiset{} else Content(qs[..|qs| - 1]) + multiset(NodesOf(qs[|qs| - 1]))
  }

  lemma {:induction false} ContentOfTails(qs: seq<Queue>)
    ensures Content(qs) == multiset(Heads(qs)) + Content(Tails(qs))
  {
    if qs != [] {
      var q := qs[|qs| - 1];
      ContentOfTails(qs[..|qs| - 1]);
      assert Tails(qs)[..|qs| - 1] == Tails(qs[..|qs| - 1]);
      ContentOfTail(q);
      assert multiset(Heads(qs)) == multiset(Heads(qs[..|qs| - 1])) + multiset(Head(q));
      assert Content(Tails(qs)) == Content(Tails(qs[..|qs| - 1])) + multiset(NodesOf(Tail(q)));
    }
  }

  lemma {:induction false} ContentOfTail(q: Queue)
    ensures multiset(NodesOf(q)) == multiset(Head(q)) + multiset(NodesOf(Tail(q)))
  {
    assert NodesOf(q) == Head(q) + NodesOf(Tail(q));
  }

  lemma {:induction false} ContentNone(qs: seq<Queue>)
    requires NodesLeft(qs) == 0
    ensures Content(qs) == multiset{}
  {
    if qs != [] { ContentNone(qs[..|qs| - 1]); }
  }

  lemma {:induction false} RoundsContent(qs: seq<Queue>)
    ensures multiset(Rounds(qs)) == Content(qs)
    decreases NodesLeft(qs)
  {
    LeftOfTails(qs);
    LeftNone(qs);
    if NodesLeft(qs) == 0 {
      ContentNone(qs);
    } else {
      ContentOfTails(qs);
      RoundsContent(Tails(qs));
    }
  }

  ghost predicate Rising(racks: seq<Rack>) {
    forall i, j :: 0 <= i < j < |racks| ==> racks[i] < racks[j]
  }

  lemma {:induction false} InsertRackSpec(rack: Rack, racks: seq<Rack>)
    requires Rising(racks)
    ensures Rising(InsertRack(rack, racks))
    ensures forall x :: x in InsertRack(rack, racks) <==> x == rack || x in racks
  {
    if racks != [] && rack > racks[0] {
      InsertRackSpec(rack, racks[1..]);
      var rest := InsertRack(rack, racks[1..]);
      assert racks == [racks[0]] + racks[1..];
      forall i | 0 <= i < |rest| ensures racks[0] < rest[i] {
        assert rest[i] in rest;
      }
    }
  }

  lemma {:induction false} SortedRacksSpec(nodes: seq<NewNode>)
    ensures Rising(SortedRacks(nodes))
    ensures forall x :: x in SortedRacks(nodes) <==> exists i :: 0 <= i < |nodes| && nodes[i].rack == x
  {
    if nodes != [] {
      SortedRacksSpec(nodes[1..]);
      InsertRackSpec(nodes[0].rack, SortedRacks(nodes[1..]));
      forall x | x in SortedRacks(nodes) ensures exists i :: 0 <= i < |nodes| && nodes[i].rack == x {
        if x != nodes[0].rack {
          var i :| 0 <= i < |nodes| - 1 && nodes[1..][i].rack == x;
          assert nodes[i + 1].rack == x;
        }
      }
      forall i | 0 <= i < |nodes| ensures nodes[i].rack in SortedRacks(nodes) {
        if i > 0 { assert nodes[1..][i - 1] == nodes[i]; }
      }
    }
  }

  /** The queues of some racks for some nodes. */
  function QueuesFor(nodes: seq<NewNode>, racks: seq<Rack>): (qs: seq<Queue>)
    ensures |qs| == |racks|
    ensures forall i :: 0 <= i < |racks| ==> qs[i] == Queue(racks[i], NamesOf(nodes, racks[i]))
  {
    seq(|racks|, i requires 0 <= i < |racks| => Queue(racks[i], NamesOf(nodes, racks[i])))
  }

  lemma {:induction false} ContentOne(nodes: seq<NewNode>, racks: seq<Rack>)
    requires nodes != [] && Rising(racks)
    ensures Content(QueuesFor(nodes, racks)) ==
            Content(QueuesFor(nodes[1..], racks)) + if nodes[0].rack in racks then multiset{nodes[0]} else multiset{}
  {
    if racks != [] {
      var init, last := racks[..|racks| - 1], racks[|racks| - 1];
      ContentOne(nodes, init);
      ContentSplit(nodes, racks);
      ContentSplit(nodes[1..], racks);
      assert racks == init + [last];
      assert last !in init;
      ContentOneQueue(nodes, last);
    }
  }

  lemma {:induction false} ContentSplit(nodes: seq<NewNode>, racks: seq<Rack>)
    requires racks != []
    ensures Content(QueuesFor(nodes, racks)) == Content(QueuesFor(nodes, racks[..|racks| - 1]))
                                             + multiset(NodesOf(Queue(racks[|racks| - 1],
                                                 NamesOf(nodes, racks[|racks| - 1]))))
  {
    assert QueuesFor(nodes, racks)[..|racks| - 1] == QueuesFor(nodes, racks[..|racks| - 1]);
  }

  lemma {:induction false} ContentOneQueue(nodes: seq<NewNode>, rack: Rack)
    requires nodes != []
    ensures multiset(NodesOf(Queue(rack, NamesOf(nodes, rack)))) ==
            multiset(NodesOf(Queue(rack, NamesOf(nodes[1..], rack)))) + if nodes[0].rack == rack then
                multiset{nodes[0]} else multiset{}
  {
    var rest := NamesOf(nodes[1..], rack);
    if nodes[0].rack == rack {
      assert NodesOf(Queue(rack, [nodes[0].name] + rest)) == [nodes[0]] + NodesOf(Queue(rack, rest));
    } else {
      assert NamesOf(nodes, rack) == rest;
    }
  }

  lemma {:induction false} ContentAll(nodes: seq<NewNode>, racks: seq<Rack>)
    requires Rising(racks) && forall i :: 0 <= i < |nodes| ==> nodes[i].rack in racks
    ensures Content(QueuesFor(nodes, racks)) == multiset(nodes)
  {
    if nodes == [] {
      ContentEmpty(racks);
    } else {
      ContentOne(nodes, racks);
      forall i | 0 <= i < |nodes| - 1 ensures nodes[1..][i].rack in racks { assert nodes[i + 1].rack in racks; }
      ContentAll(nodes[1..], racks);
      assert nodes == [nodes[0]] + nodes[1..];
    }
  }

  lemma {:induction false} ContentEmpty(racks: seq<Rack>)
    ensures Content(QueuesFor([], racks)) == multiset{}
  {
    if racks != [] {
      ContentEmpty(racks[..|racks| - 1]);
      assert QueuesFor([], racks)[..|racks| - 1] == QueuesFor([], racks[..|racks| - 1]);
    }
  }

  /** The round robin holds exactly the nodes given. */
  lemma {:induction false} RackOrderPermutes(nodes: seq<NewNode>)
    ensures multiset(Rounds(Queues(nodes))) == multiset(nodes)
  {
    RoundsContent(Queues(nodes));
    SortedRacksSpec(nodes);
    assert Queues(nodes) == QueuesFor(nodes, SortedRacks(nodes));
    ContentAll(nodes, SortedRacks(nodes));
  }

  // ----- each rack's nodes in inventory order -----

  lemma {:induction false} NamesOfConcat(a: seq<NewNode>, b: seq<NewNode>, rack: Rack)
    ensures NamesOf(a + b, rack) == NamesOf(a, rack) + NamesOf(b, rack)
  {
    if a == [] {
      assert a + b == b;
    } else {
      NamesOfConcat(a[1..], b, rack);
      assert (a + b)[0] == a[0] && (a + b)[1..] == a[1..] + b;
      NamesOfFirst(a, rack);
      NamesOfFirst(a + b, rack);
    }
  }

  lemma {:induction false} NamesOfFirst(a: seq<NewNode>, rack: Rack)
    requires a != []
    ensures NamesOf(a, rack) == (if a[0].rack == rack then [a[0].name] else []) + NamesOf(a[1..], rack)
  {
  }

  ghost predicate RacksDiffer(qs: seq<Queue>) {
    forall i, j :: 0 <= i < j < |qs| ==> qs[i].rack != qs[j].rack
  }

  lemma {:induction false} HeadsOfRack(qs: seq<Queue>, i: nat, n: nat)
    requires RacksDiffer(qs) && i < |qs| && n <= |qs|
    ensures NamesOf(Heads(qs[..n]), qs[i].rack) == if i < n && qs[i].names != [] then [qs[i].names[0]] else []
  {
    if n > 0 {
      HeadsOfRack(qs, i, n - 1);
      HeadsMore(qs, n - 1, qs[i].rack);
      assert i != n - 1 ==> qs[n - 1].rack != qs[i].rack;
    }
  }

  lemma {:induction false} HeadsMore(qs: seq<Queue>, n: nat, rack: Rack)
    requires n < |qs|
    ensures NamesOf(Heads(qs[..n + 1]), rack) ==
            NamesOf(Heads(qs[..n]), rack) + if qs[n].rack == rack && qs[n].names != [] then [qs[n].names[0]] else []
  {
    HeadsStep(qs, n);
    NamesOfConcat(Heads(qs[..n]), Head(qs[n]), rack);
    NamesOfHead(qs[n], rack);
  }

  lemma {:induction false} NamesOfHead(q: Queue, rack: Rack)
    ensures NamesOf(Head(q), rack) == if q.rack == rack && q.names != [] then [q.names[0]] else []
  {
  }

  lemma {:induction false} RoundsStep(qs: seq<Queue>)
    ensures NodesLeft(qs) > 0 ==> NodesLeft(Tails(qs)) < NodesLeft(qs) && Rounds(qs) == Heads(qs) + Rounds(Tails(qs))
    ensures NodesLeft(qs) == 0 ==> Rounds(qs) == [] && forall i :: 0 <= i < |qs| ==> qs[i].names == []
  {
    LeftNone(qs);
    LeftOfTails(qs);
  }

  lemma {:induction false} RoundsOfRack(qs: seq<Queue>, i: nat)
    requires RacksDiffer(qs) && i < |qs|
    ensures NamesOf(Rounds(qs), qs[i].rack) == qs[i].names
    decreases NodesLeft(qs)
  {
    RoundsStep(qs);
    if NodesLeft(qs) > 0 {
      RoundsOfRack(Tails(qs), i);
      HeadsThen(qs, i, Rounds(Tails(qs)));
    }
  }

  lemma {:induction false} HeadsThen(qs: seq<Queue>, i: nat, rest: seq<NewNode>)
    requires RacksDiffer(qs) && i < |qs| && NamesOf(rest, qs[i].rack) == Tail(qs[i]).names
    ensures NamesOf(Heads(qs) + rest, qs[i].rack) == qs[i].names
  {
    assert qs[..|qs|] == qs;
    HeadsOfRack(qs, i, |qs|);
    NamesOfConcat(Heads(qs), rest, qs[i].rack);
  }

  /** The round robin keeps each rack's nodes in inventory order. */
  lemma {:induction false} RackOrderKeepsInventoryOrder(nodes: seq<NewNode>, rack: Rack)
    requires rack in SortedRacks(nodes)
    ensures NamesOf(Rounds(Queues(nodes)), rack) == NamesOf(nodes, rack)
  {
    SortedRacksSpec(nodes);
    var i :| 0 <= i < |SortedRacks(nodes)| && SortedRacks(nodes)[i] == rack;
    RoundsOfRack(Queues(nodes), i);
  }

  // ----- racks of the same size alternate all the way round -----

  lemma {:induction false} FullHeads(qs: seq<Queue>)
    requires forall i :: 0 <= i < |qs| ==> qs[i].names != []
    ensures |Heads(qs)| == |qs|
    ensures forall i :: 0 <= i < |qs| ==> Heads(qs)[i].rack == qs[i].rack
  {
    if qs != [] { FullHeads(qs[..|qs| - 1]); }
  }

  ghost predicate InTurns(order: seq<NewNode>, qs: seq<Queue>)
    requires qs != []
  {
    forall i :: 0 <= i < |order| ==> order[i].rack == qs[i % |qs|].rack
  }

  lemma {:induction false} AlternateStep(heads: seq<NewNode>, rest: seq<NewNode>, qs: seq<Queue>, qs': seq<Queue>)
    requires |heads| == |qs| == |qs'| > 0
    requires forall i :: 0 <= i < |qs| ==> heads[i].rack == qs[i].rack == qs'[i].rack
    requires InTurns(rest, qs')
    ensures InTurns(heads + rest, qs)
  {
    forall i | 0 <= i < |heads + rest| ensures (heads + rest)[i].rack == qs[i % |qs|].rack {
      if i < |qs| {
        SmallMod(i, |qs|);
      } else {
        ModShift(i - |qs|, 1, |qs|);
        assert rest[i - |qs|].rack == qs'[(i - |qs|) % |qs|].rack;
      }
    }
  }

  lemma {:induction false} EqualQueues(qs: seq<Queue>, each: nat)
    requires qs != [] && forall i :: 0 <= i < |qs| ==> |qs[i].names| == each
    ensures |Rounds(qs)| == each * |qs|
    ensures InTurns(Rounds(qs), qs)
    decreases each
  {
    RoundsStep(qs);
    LeftNone(qs);
    if each > 0 {
      assert qs[0].names != [];
      EqualQueues(Tails(qs), each - 1);
      OneRoundMore(qs, Rounds(Tails(qs)), each);
    }
  }

  lemma {:induction false} OneRoundMore(qs: seq<Queue>, rest: seq<NewNode>, each: nat)
    requires qs != [] && each > 0 && forall i :: 0 <= i < |qs| ==> |qs[i].names| == each
    requires |rest| == (each - 1) * |qs| && InTurns(rest, Tails(qs))
    ensures |Heads(qs) + rest| == each * |qs| && InTurns(Heads(qs) + rest, qs)
  {
    FullHeads(qs);
    assert each * |qs| == (each - 1) * |qs| + |qs|;
    AlternateStep(Heads(qs), rest, qs, Tails(qs));
  }

  /** With as many nodes in every rack, position i of the round robin is of rack i modulo the racks. */
  lemma {:induction false} RackOrderAlternates(nodes: seq<NewNode>, each: nat)
    requires nodes != []
    requires forall rack :: rack in SortedRacks(nodes) ==> |NamesOf(nodes, rack)| == each
    ensures var racks, order := SortedRacks(nodes), Rounds(Queues(nodes));
            && racks != [] && Distinct(racks) && |order| == each * |racks|
            && forall i :: 0 <= i < |order| ==> order[i].rack == racks[i % |racks|]
  {
    SortedRacksSpec(nodes);
    assert nodes[0].rack in SortedRacks(nodes);
    EqualQueues(Queues(nodes), each);
  }
}
