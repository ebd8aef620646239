/** Which nodes replicate a range: the walk of the datacenter's ring from the
    range's end, in the way of NetworkTopologyStrategy. */
module Replication {
  import opened Lists
  import opened Ring

  function Min(a: int, b: int): int {
    if a <= b then a else b
  }

  /** The ring read once round, from index on. */
  function Walk(pts: seq<Node>, index: nat): seq<Node>
    requires index <= |pts|
  {
    pts[index..] + pts[..index]
  }

  /** The rule: the first node of each rack counts while fewer than rf racks are
      covered; a node of a rack already met counts only as one of the rf - racks
      repeats allowed when there are fewer racks than replicas. */
  predicate Counts(walk: seq<Node>, k: nat, rf: nat)
    requires k < |walk|
  {
    var met := RacksUpTo(walk, k);
    if walk[k].rack !in met then |met| < rf else k - |met| < rf - |Racks(walk)|
  }

  /** The replicas among the first k nodes of the walk. */
  function Chosen(walk: seq<Node>, k: nat, rf: nat): seq<Node>
    requires k <= |walk|
  {
    if k == 0 then []
    else Chosen(walk, k - 1, rf) + if Counts(walk, k - 1, rf) then [walk[k - 1]] else []
  }

  /** The replicas of the range ending at pts[index]. */
  function ReplicaNodes(pts: seq<Node>, index: nat, rf: nat): seq<Node>
    requires index < |pts|
  {
    Chosen(Walk(pts, index), |pts|, rf)
  }

  function ReplicaNames(pts: seq<Node>, index: nat, rf: nat): seq<Name>
    requires index < |pts|
  {
    Names(ReplicaNodes(pts, index, rf))
  }

  // ----- what the rule guarantees -----

  lemma {:induction false} AddOne<T>(s: set<T>, x: T)
    ensures |s + {x}| == |s| + if x in s then 0 else 1
    ensures x in s ==> s + {x} == s
  {
    if x in s { assert s + {x} == s; }
  }

  lemma {:induction false} RacksGrow(walk: seq<Node>, k: nat, l: nat)
    requires k <= l <= |walk|
    ensures RacksUpTo(walk, k) <= RacksUpTo(walk, l)
    ensures |RacksUpTo(walk, k)| <= |RacksUpTo(walk, l)|
    decreases l
  {
    if k < l {
      RacksGrow(walk, k, l - 1);
      AddOne(RacksUpTo(walk, l - 1), walk[l - 1].rack);
    }
  }

  function Repeats(walk: seq<Node>, rf: nat): nat {
    if rf > |Racks(walk)| then rf - |Racks(walk)| else 0
  }

  /** How many replicas the first k nodes of the walk give. */
  lemma {:induction false} ChosenCount(walk: seq<Node>, k: nat, rf: nat)
    requires k <= |walk|
    ensures |RacksUpTo(walk, k)| <= k
    ensures |Chosen(walk, k, rf)| ==
            Min(rf, |RacksUpTo(walk, k)|) + Min(k - |RacksUpTo(walk, k)|, Repeats(walk, rf))
  {
    if k > 0 {
      ChosenCount(walk, k - 1, rf);
      RacksGrow(walk, k, |walk|);
      AddOne(RacksUpTo(walk, k - 1), walk[k - 1].rack);
    }
  }

  /** The racks the replicas cover: every one met so far, up to rf of them. */
  lemma {:induction false} ChosenRacks(walk: seq<Node>, k: nat, rf: nat)
    requires k <= |walk|
    ensures Racks(Chosen(walk, k, rf)) <= RacksUpTo(walk, k)
    ensures |Racks(Chosen(walk, k, rf))| == Min(rf, |RacksUpTo(walk, k)|)
    ensures |RacksUpTo(walk, k)| <= rf ==> Racks(Chosen(walk, k, rf)) == RacksUpTo(walk, k)
  {
    if k > 0 {
      ChosenRacks(walk, k - 1, rf);
      AddOne(RacksUpTo(walk, k - 1), walk[k - 1].rack);
      if Counts(walk, k - 1, rf) {
        CountsCovers(walk, k - 1, rf);
      } else {
        assert Chosen(walk, k, rf) == Chosen(walk, k - 1, rf);
      }
    }
  }

  lemma {:induction false} CountsCovers(walk: seq<Node>, k: nat, rf: nat)
    requires k < |walk| && Counts(walk, k, rf)
    ensures |RacksUpTo(walk, k)| < rf
    ensures Racks(Chosen(walk, k + 1, rf)) == Racks(Chosen(walk, k, rf)) + {walk[k].rack}
  {
    ChosenCount(walk, k, rf);
    RacksGrow(walk, k, |walk|);
    RacksAppend(Chosen(walk, k, rf), walk[k]);
  }

  lemma {:induction false} ChosenFrom(walk: seq<Node>, k: nat, rf: nat)
    requires k <= |walk| && Distinct(Names(walk))
    ensures Distinct(Names(Chosen(walk, k, rf)))
    ensures forall n :: n in Chosen(walk, k, rf) ==> n in walk[..k]
    ensures k > 0 && rf > 0 ==> Chosen(walk, k, rf) != [] && Chosen(walk, k, rf)[0] == walk[0]
  {
    if k > 0 {
      ChosenFrom(walk, k - 1, rf);
      var before := Chosen(walk, k - 1, rf);
      assert walk[..k] == walk[..k - 1] + [walk[k - 1]];
      forall i | 0 <= i < |before| ensures before[i].name != walk[k - 1].name {
        assert before[i] in walk[..k - 1];
        var j :| 0 <= j < k - 1 && walk[j] == before[i];
        assert Names(walk)[j] != Names(walk)[k - 1];
      }
    }
  }

  lemma {:induction false} WalkNodes(pts: seq<Node>, index: nat)
    requires index <= |pts|
    ensures Racks(Walk(pts, index)) == Racks(pts)
    ensures Distinct(Names(pts)) ==> Distinct(Names(Walk(pts, index)))
    ensures forall n :: n in Walk(pts, index) <==> n in pts
  {
    assert pts == pts[..index] + pts[index..];
    RacksSame(Walk(pts, index), pts);
    if Distinct(Names(pts)) {
      var w := Walk(pts, index);
      forall i, j | 0 <= i < j < |w| ensures Names(w)[i] != Names(w)[j] {
        var i', j' := (if i < |pts| - index then i + index else i - (|pts| - index)),
                      (if j < |pts| - index then j + index else j - (|pts| - index));
        assert w[i] == pts[i'] && w[j] == pts[j'];
        assert Names(pts)[i'] != Names(pts)[j'];
      }
    }
  }

  /** Every range has min(rf, nodes) replicas: distinct nodes of the ring, its
      owner first, on min(rf, racks) different racks. */
  lemma {:induction false} ReplicasSpec(pts: seq<Node>, index: nat, rf: nat)
    requires index < |pts| && Distinct(Names(pts))
    ensures |ReplicaNodes(pts, index, rf)| == Min(rf, |pts|)
    ensures Distinct(ReplicaNames(pts, index, rf))
    ensures forall n :: n in ReplicaNodes(pts, index, rf) ==> n in pts
    ensures rf > 0 ==> ReplicaNodes(pts, index, rf)[0] == pts[index]
    ensures |Racks(ReplicaNodes(pts, index, rf))| == Min(rf, |Racks(pts)|)
  {
    var w := Walk(pts, index);
    WalkNodes(pts, index);
    ChosenCount(w, |w|, rf);
    ChosenRacks(w, |w|, rf);
    ChosenFrom(w, |w|, rf);
    RacksGrow(w, |w|, |w|);
  }

  lemma {:induction false} ChosenGrows(walk: seq<Node>, k: nat, l: nat, rf: nat)
    requires k <= l <= |walk|
    ensures Chosen(walk, k, rf) <= Chosen(walk, l, rf)
  {
    if k < l { ChosenGrows(walk, k, l - 1, rf); }
  }

  lemma {:induction false} ChosenEnough(walk: seq<Node>, k: nat, rf: nat)
    requires k <= |walk|
    requires k == |walk| || |Chosen(walk, k, rf)| >= Min(rf, |walk|)
    ensures Chosen(walk, k, rf) == Chosen(walk, |walk|, rf)
  {
    ChosenGrows(walk, k, |walk|, rf);
    ChosenCount(walk, |walk|, rf);
    RacksGrow(walk, k, |walk|);
  }

  lemma {:induction false} ChosenNamesStep(walk: seq<Node>, k: nat, rf: nat)
    requires k < |walk|
    ensures Names(Chosen(walk, k + 1, rf)) ==
            Names(Chosen(walk, k, rf)) + if Counts(walk, k, rf) then [walk[k].name] else []
  {
  }

  lemma {:induction false} WalkAt(pts: seq<Node>, index: nat, k: nat)
    requires index < |pts| && k < |pts|
    ensures Walk(pts, index)[k] == pts[(index + k) % |pts|]
  {
    if index + k < |pts| {
      assert (index + k) % |pts| == index + k;
    } else {
      assert (index + k) % |pts| == index + k - |pts|;
    }
  }

  /** Repeated racks still allowed after the first k nodes. */
  function RepeatsLeft(walk: seq<Node>, k: nat, rf: nat): int
    requires k <= |walk|
  {
    var allowed := rf - |Racks(walk)|;
    if allowed > 0 then allowed - Min(k - |RacksUpTo(walk, k)|, allowed) else allowed
  }

  /** The planner's variables after the first k nodes. */
  ghost predicate WalkState(walk: seq<Node>, k: nat, rf: nat, seen: set<Rack>, repeats: int, out: seq<Name>) {
    k <= |walk| && seen == RacksUpTo(walk, k) && out == Names(Chosen(walk, k, rf)) &&
        repeats == RepeatsLeft(walk, k, rf)
  }

  lemma {:induction false} WalkMore(walk: seq<Node>, k: nat, rf: nat, seen: set<Rack>, repeats: int, out: seq<Name>)
    requires WalkState(walk, k, rf, seen, repeats, out) && k < |walk| && |out| < Min(rf, |walk|)
    ensures var rack, name := walk[k].rack, walk[k].name;
            && (rack !in seen ==> WalkState(walk, k + 1, rf, seen + {rack}, repeats, out + [name]))
            && (rack in seen && repeats > 0 ==> WalkState(walk, k + 1, rf, seen, repeats - 1, out + [name]))
            && (rack in seen && repeats <= 0 ==> WalkState(walk, k + 1, rf, seen, repeats, out))
  {
    ChosenCount(walk, k, rf);
    RacksGrow(walk, k, |walk|);
    AddOne(seen, walk[k].rack);
    ChosenNamesStep(walk, k, rf);
  }

  /** The walk as the planner runs it: it stops once it has all the replicas. */
  method Replicas(pts: seq<Node>, index: nat, rf: nat, rackCount: nat) returns (out: seq<Name>)
    requires index < |pts| && rackCount == |Racks(pts)|
    ensures out == ReplicaNames(pts, index, rf)
  {
    var want := Min(rf, |pts|);
    var repeats := rf - rackCount;
    var seen: set<Rack> := {};
    out := [];
    ghost var w := Walk(pts, index);
    WalkNodes(pts, index);
    var k := 0;
    while k < |pts| && |out| < want
      invariant 0 <= k <= |pts| && WalkState(w, k, rf, seen, repeats, out)
    {
      WalkAt(pts, index, k);
      var node := pts[(index + k) % |pts|];
      WalkMore(w, k, rf, seen, repeats, out);
      if node.rack !in seen {
        seen := seen + {node.rack};
        out := out + [node.name];
      } else if repeats > 0 {
        repeats := repeats - 1;
        out := out + [node.name];
      }
      k := k + 1;
    }
    ChosenEnough(w, k, rf);
  }
}
