/** What a ring change streams and leaves behind: the tokens a node holds after
    and not before, and before and not after. */
module Transfer {
  import opened Lists
  import opened Ring
  import opened Replication
  import opened Shares

  datatype Flow = Flow(gained: nat, lost: nat)

  /** p added to the sorted positions s, unless it is there already. */
  function InsertPos(p: int, s: seq<int>): (r: seq<int>)
    requires Increasing(s)
    ensures Increasing(r)
    ensures forall x :: x in r <==> x == p || x in s
  {
    if s == [] then [p]
    else if p == s[0] then s
    else if p < s[0] then [p] + s
    else
      var rest := InsertPos(p, s[1..]);
      assert s == [s[0]] + s[1..];
      assert forall i :: 0 <= i < |rest| ==> rest[i] in rest;
      [s[0]] + rest
  }

  /** The positions of both rings, sorted, each once. */
  function Bounds(b: seq<int>, a: seq<int>): (r: seq<int>)
    requires Increasing(b)
    ensures Increasing(r)
    ensures forall x :: x in r <==> x in b || x in a
  {
    if a == [] then b
    else
      assert a == [a[0]] + a[1..];
      InsertPos(a[0], Bounds(b, a[1..]))
  }

  /** A ring's owners do not change inside a range of a finer ring. */
  lemma {:induction false} OwnerConstant(ps: seq<int>, bounds: seq<int>, t: int)
    requires ps != [] && Increasing(ps) && Increasing(bounds)
    requires forall x :: x in ps ==> x in bounds
    ensures bounds != [] && Owner(bounds, t) < |bounds|
    ensures Owner(ps, t) == Owner(ps, bounds[Owner(bounds, t)])
  {
    assert ps[0] in ps;
    OwnerSpec(bounds, t, 0);
    var k := Owner(bounds, t);
    OwnerSpec(bounds, t, k);
    OwnerSpec(ps, bounds[k], 0);
    var o := Owner(ps, bounds[k]);
    OwnerSpec(ps, bounds[k], o);
    forall j | 0 <= j < |ps| ensures ps[j] < bounds[k] ==> k > 0 && ps[j] <= bounds[k - 1] {
      assert ps[j] in bounds;
      var i :| 0 <= i < |bounds| && bounds[i] == ps[j];
    }
    forall j | 0 <= j < |ps| ensures ps[j] <= bounds[|bounds| - 1] {
      assert ps[j] in bounds;
    }
    OwnerSpec(ps, t, o);
  }

  lemma {:induction false} HoldersConstant(pts: seq<Node>, bounds: seq<int>, rf: nat, t: int)
    requires Increasing(Positions(pts)) && Increasing(bounds) && bounds != []
    requires forall x :: x in Positions(pts) ==> x in bounds
    ensures Owner(bounds, t) < |bounds|
    ensures Holders(pts, rf, t) == Holders(pts, rf, bounds[Owner(bounds, t)])
  {
    OwnerSpec(bounds, t, 0);
    if pts != [] { OwnerConstant(Positions(pts), bounds, t); }
  }

  /** The tokens of the first i ranges that a node holds in one map and not in the other. */
  ghost function Crossed(h: seq<set<Name>>, h': seq<set<Name>>, bounds: seq<int>, name: Name, i: nat): set<int> {
    set t | t in Held(h, name) - Held(h', name) && Owner(bounds, t) < i
  }

  lemma {:induction false} CrossedStep(h: seq<set<Name>>, h': seq<set<Name>>, bounds: seq<int>, name: Name, i: nat)
    requires |h| == |h'| > 0 && i < |bounds| && Increasing(bounds) && OnCircle(bounds, |h|)
    requires forall t :: t in Range(bounds, i, |h|) ==> h[t] == h[bounds[i]] && h'[t] == h'[bounds[i]]
    ensures |Crossed(h, h', bounds, name, i + 1)| ==
            |Crossed(h, h', bounds, name, i)|
            + if name in h[bounds[i]] - h'[bounds[i]] then Length(bounds, i, |h|) else 0
  {
    var range := Range(bounds, i, |h|);
    RangeSize(bounds, i, |h|);
    if name in h[bounds[i]] - h'[bounds[i]] {
      assert Crossed(h, h', bounds, name, i + 1) == Crossed(h, h', bounds, name, i) + range;
      assert Crossed(h, h', bounds, name, i) !! range;
    } else {
      assert Crossed(h, h', bounds, name, i + 1) == Crossed(h, h', bounds, name, i);
    }
  }

  lemma {:induction false} CrossedEnds(h: seq<set<Name>>, h': seq<set<Name>>, bounds: seq<int>, name: Name)
    requires Increasing(bounds)
    ensures Crossed(h, h', bounds, name, 0) == {}
    ensures bounds != [] ==> Crossed(h, h', bounds, name, |bounds|) == Held(h, name) - Held(h', name)
  {
    if bounds != [] {
      forall t ensures Owner(bounds, t) < |bounds| { OwnerSpec(bounds, t, 0); }
    }
  }

  /** The flows of the first i ranges. */
  ghost predicate FlowsUpTo(out: map<Name, Flow>, names: set<Name>, h: seq<set<Name>>, h': seq<set<Name>>,
        bounds: seq<int>, i: nat) {
    && out.Keys == names
    && forall name :: name in out ==>
        out[name] == Flow(|Crossed(h', h, bounds, name, i)|, |Crossed(h, h', bounds, name, i)|)
  }

  /** The flows between two rings: per node, the tokens it starts to hold and the tokens it stops holding. */
  ghost predicate IsTransfer(out: map<Name, Flow>, names: set<Name>, h: seq<set<Name>>, h': seq<set<Name>>) {
    && out.Keys == names
    && forall name :: name in out ==>
        out[name] == Flow(|Held(h', name) - Held(h, name)|, |Held(h, name) - Held(h', name)|)
  }

  ghost predicate AddedFlow(out: map<Name, Flow>, r: map<Name, Flow>, up: set<Name>, down: set<Name>, length: nat) {
    && r.Keys == out.Keys
    && forall x :: x in out ==>
        r[x] == Flow(out[x].gained + if x in up then length else 0, out[x].lost + if x in down then length else 0)
  }

  method AddGains(out: map<Name, Flow>, names: set<Name>, length: nat) returns (r: map<Name, Flow>)
    requires names <= out.Keys
    ensures AddedFlow(out, r, names, {}, length)
  {
    r := out;
    var todo := names;
    while todo != {}
      invariant todo <= names
      invariant AddedFlow(out, r, names - todo, {}, length)
    {
      var x :| x in todo;
      r := r[x := r[x].(gained := r[x].gained + length)];
      todo := todo - {x};
    }
  }

  method AddLosses(out: map<Name, Flow>, names: set<Name>, length: nat) returns (r: map<Name, Flow>)
    requires names <= out.Keys
    ensures AddedFlow(out, r, {}, names, length)
  {
    r := out;
    var todo := names;
    while todo != {}
      invariant todo <= names
      invariant AddedFlow(out, r, {}, names - todo, length)
    {
      var x :| x in todo;
      r := r[x := r[x].(lost := r[x].lost + length)];
      todo := todo - {x};
    }
  }

  /** One range added to the flows: its length gained by some nodes and lost by others. */
  method AddFlows(out: map<Name, Flow>, up: set<Name>, down: set<Name>, length: nat) returns (r: map<Name, Flow>)
    requires up <= out.Keys && down <= out.Keys
    ensures AddedFlow(out, r, up, down, length)
  {
    r := out;
    if length == 0 { return; }
    r := AddGains(r, up, length);
    r := AddLosses(r, down, length);
  }

  lemma {:induction false} FlowsStep(out: map<Name, Flow>, r: map<Name, Flow>, names: set<Name>, h: seq<set<Name>>,
        h': seq<set<Name>>, bounds: seq<int>, i: nat)
    requires |h| == |h'| > 0 && i < |bounds| && Increasing(bounds) && OnCircle(bounds, |h|)
    requires forall t :: t in Range(bounds, i, |h|) ==> h[t] == h[bounds[i]] && h'[t] == h'[bounds[i]]
    requires FlowsUpTo(out, names, h, h', bounds, i)
    requires AddedFlow(out, r, h'[bounds[i]] - h[bounds[i]], h[bounds[i]] - h'[bounds[i]], Length(bounds, i, |h|))
    ensures FlowsUpTo(r, names, h, h', bounds, i + 1)
  {
    forall name | name in out
      ensures r[name] == Flow(|Crossed(h', h, bounds, name, i + 1)|, |Crossed(h, h', bounds, name, i + 1)|)
    {
      CrossedStep(h, h', bounds, name, i);
      CrossedStep(h', h, bounds, name, i);
    }
  }

  /** The replicas of the range that holds a position, as a set; none in an empty ring. */
  method ReplicasAt(pts: seq<Node>, rf: nat, pos: int) returns (reps: set<Name>)
    requires Increasing(Positions(pts)) && Distinct(Names(pts))
    ensures reps == Holders(pts, rf, pos) <= SetOf(Names(pts))
  {
    HoldersSpec(pts, rf, pos);
    if pts == [] { return {}; }
    OwnerSpec(Positions(pts), pos, 0);
    var o := OwnerIndex(pts, pos);
    var names := Replicas(pts, o, rf, |Racks(pts)|);
    return SetOf(names);
  }

  lemma {:induction false} BoundsOf(b: seq<Node>, a: seq<Node>, size: nat)
    requires Valid(b, size) && Valid(a, size)
    ensures OnCircle(Bounds(Positions(b), Positions(a)), size)
    ensures b == [] == a <==> Bounds(Positions(b), Positions(a)) == []
  {
    var bounds := Bounds(Positions(b), Positions(a));
    forall i | 0 <= i < |bounds| ensures 0 <= bounds[i] < size {
      assert bounds[i] in bounds;
    }
    if b != [] { assert Positions(b)[0] in bounds; }
    if a != [] { assert Positions(a)[0] in bounds; }
    if bounds != [] { assert bounds[0] in bounds; }
  }

  lemma {:induction false} RangeHolders(pts: seq<Node>, bounds: seq<int>, size: nat, rf: nat, i: nat)
    requires Increasing(Positions(pts)) && Increasing(bounds) && OnCircle(bounds, size) && i < |bounds|
    requires forall x :: x in Positions(pts) ==> x in bounds
    ensures var h := HolderMap(pts, size, rf);
            forall t :: t in Range(bounds, i, size) ==> h[t] == h[bounds[i]]
  {
    forall t | t in Range(bounds, i, size) ensures Holders(pts, rf, t) == Holders(pts, rf, bounds[i]) {
      HoldersConstant(pts, bounds, rf, t);
    }
  }

  /** The flows of the first i ranges between two rings. */
  ghost predicate PlanUpTo(out: map<Name, Flow>, b: seq<Node>, a: seq<Node>, size: nat, rf: nat, bounds: seq<int>,
        i: nat) {
    && Increasing(Positions(b)) && Increasing(Positions(a))
    && FlowsUpTo(out, SetOf(Names(b)) + SetOf(Names(a)), HolderMap(b, size, rf), HolderMap(a, size, rf), bounds, i)
  }

  lemma {:induction false} PlanStep(out: map<Name, Flow>, r: map<Name, Flow>, b: seq<Node>, a: seq<Node>, size: nat,
        rf: nat, bounds: seq<int>, i: nat)
    requires Valid(b, size) && Valid(a, size) && size > 0
    requires bounds == Bounds(Positions(b), Positions(a)) && i < |bounds|
    requires PlanUpTo(out, b, a, size, rf, bounds, i)
    requires var hb, ha := Holders(b, rf, bounds[i]), Holders(a, rf, bounds[i]);
             AddedFlow(out, r, ha - hb, hb - ha, Length(bounds, i, size))
    ensures PlanUpTo(r, b, a, size, rf, bounds, i + 1)
  {
    BoundsOf(b, a, size);
    RangeHolders(b, bounds, size, rf, i);
    RangeHolders(a, bounds, size, rf, i);
    FlowsStep(out, r, SetOf(Names(b)) + SetOf(Names(a)), HolderMap(b, size, rf), HolderMap(a, size, rf), bounds, i);
  }

  lemma {:induction false} FlowsEnd(out: map<Name, Flow>, names: set<Name>, h: seq<set<Name>>, h': seq<set<Name>>,
        bounds: seq<int>)
    requires Increasing(bounds) && out.Keys == names
    ensures (forall name :: name in out ==> out[name] == Flow(0, 0)) ==> FlowsUpTo(out, names, h, h', bounds, 0)
    ensures bounds != [] && FlowsUpTo(out, names, h, h', bounds, |bounds|) ==> IsTransfer(out, names, h, h')
    ensures names == {} ==> IsTransfer(out, names, h, h')
  {
    forall name: Name
      ensures Crossed(h, h', bounds, name, 0) == {} == Crossed(h', h, bounds, name, 0)
      ensures bounds != [] ==> Crossed(h, h', bounds, name, |bounds|) == Held(h, name) - Held(h', name)
                               && Crossed(h', h, bounds, name, |bounds|) == Held(h', name) - Held(h, name)
    {
      CrossedEnds(h, h', bounds, name);
      CrossedEnds(h', h, bounds, name);
    }
  }

  /** The range ending at bounds[k], added to the flows. */
  method AddBound(out: map<Name, Flow>, b: seq<Node>, a: seq<Node>, size: nat, rf: nat, bounds: seq<int>, k: nat)
    returns (r: map<Name, Flow>)
    requires Valid(b, size) && Valid(a, size) && size > 0
    requires bounds == Bounds(Positions(b), Positions(a)) && k < |bounds|
    requires PlanUpTo(out, b, a, size, rf, bounds, k)
    ensures PlanUpTo(r, b, a, size, rf, bounds, k + 1)
  {
    var repsB := ReplicasAt(b, rf, bounds[k]);
    var repsA := ReplicasAt(a, rf, bounds[k]);
    r := AddFlows(out, repsA - repsB, repsB - repsA, Length(bounds, k, size));
    PlanStep(out, r, b, a, size, rf, bounds, k);
  }

  lemma {:induction false} PlanStart(out: map<Name, Flow>, b: seq<Node>, a: seq<Node>, size: nat, rf: nat)
    requires Valid(b, size) && Valid(a, size)
    requires out.Keys == SetOf(Names(b)) + SetOf(Names(a))
    requires forall name :: name in out ==> out[name] == Flow(0, 0)
    ensures PlanUpTo(out, b, a, size, rf, Bounds(Positions(b), Positions(a)), 0)
  {
    FlowsEnd(out, out.Keys, HolderMap(b, size, rf), HolderMap(a, size, rf), Bounds(Positions(b), Positions(a)));
  }

  lemma {:induction false} PlanEnd(out: map<Name, Flow>, b: seq<Node>, a: seq<Node>, size: nat, rf: nat,
        bounds: seq<int>)
    requires Valid(b, size) && Valid(a, size)
    requires bounds == Bounds(Positions(b), Positions(a))
    requires PlanUpTo(out, b, a, size, rf, bounds, |bounds|)
    ensures IsTransfer(out, SetOf(Names(b)) + SetOf(Names(a)), HolderMap(b, size, rf), HolderMap(a, size, rf))
  {
    BoundsOf(b, a, size);
    var names := SetOf(Names(b)) + SetOf(Names(a));
    if bounds == [] { assert names == {}; }
    FlowsEnd(out, names, HolderMap(b, size, rf), HolderMap(a, size, rf), bounds);
  }

  method Flows(b: seq<Node>, a: seq<Node>, size: nat, rf: nat) returns (out: map<Name, Flow>)
    requires Valid(b, size) && Valid(a, size) && size > 0
    ensures IsTransfer(out, SetOf(Names(b)) + SetOf(Names(a)), HolderMap(b, size, rf), HolderMap(a, size, rf))
  {
    var bounds := Bounds(Positions(b), Positions(a));
    out := map x | x in SetOf(Names(b)) + SetOf(Names(a)) :: Flow(0, 0);
    PlanStart(out, b, a, size, rf);
    var k := 0;
    while k < |bounds|
      invariant 0 <= k <= |bounds|
      invariant PlanUpTo(out, b, a, size, rf, bounds, k)
    {
      out := AddBound(out, b, a, size, rf, bounds, k);
      k := k + 1;
    }
    PlanEnd(out, b, a, size, rf, bounds);
  }

  /** The share of the ring each node gains and loses from one ring to another,
      range by range: exactly what it holds after and not before, and the reverse. */
  method TransferPlan(before: seq<Node>, after: seq<Node>, size: nat, rf: nat) returns (r: Result<map<Name, Flow>>)
    requires size > 0 && Distinct(Names(before)) && Distinct(Names(after))
    ensures r.Ok? <==> SortedRing(before, size).Ok? && SortedRing(after, size).Ok?
    ensures r.Ok? ==>
              var b, a := SortedRing(before, size).value, SortedRing(after, size).value;
              && Valid(b, size) && Valid(a, size)
              && IsTransfer(r.value, SetOf(Names(b)) + SetOf(Names(a)), HolderMap(b, size, rf), HolderMap(a, size, rf))
  {
    if SortedRing(before, size).TokenError? || SortedRing(after, size).TokenError? { return TokenError; }
    var b, a := SortedRing(before, size).value, SortedRing(after, size).value;
    SortedValid(before, size);
    SortedValid(after, size);
    var out := Flows(b, a, size, rf);
    return Ok(out);
  }

  // ----- conservation -----

  /** A node's effective share changes by exactly what it gains minus what it loses. */
  lemma {:induction false} GainMinusLoss(h: seq<set<Name>>, h': seq<set<Name>>, name: Name)
    ensures |Held(h', name) - Held(h, name)| - |Held(h, name) - Held(h', name)| == |Held(h', name)| - |Held(h, name)|
  {
    var x, y := Held(h, name), Held(h', name);
    assert x == (x - y) + (x * y);
    assert y == (y - x) + (x * y);
  }

  ghost function TotalGained(names: seq<Name>, h: seq<set<Name>>, h': seq<set<Name>>): nat {
    if names == [] then 0 else |Held(h', names[0]) - Held(h, names[0])| + TotalGained(names[1..], h, h')
  }

  lemma {:induction false} TotalsDiffer(names: seq<Name>, h: seq<set<Name>>, h': seq<set<Name>>)
    ensures TotalGained(names, h, h') - TotalGained(names, h', h) == SumHeld(names, h') - SumHeld(names, h)
  {
    if names != [] {
      TotalsDiffer(names[1..], h, h');
      GainMinusLoss(h, h', names[0]);
    }
  }

  /** Two rings with equally many nodes: what the nodes gain in all is what they lose in all. */
  lemma {:induction false} GainsEqualLosses(b: seq<Node>, a: seq<Node>, size: nat, rf: nat, names: seq<Name>)
    requires Valid(b, size) && Valid(a, size) && |b| == |a|
    requires Distinct(names) && SetOf(names) == SetOf(Names(b)) + SetOf(Names(a))
    ensures var h, h' := HolderMap(b, size, rf), HolderMap(a, size, rf);
            TotalGained(names, h, h') == TotalGained(names, h', h)
  {
    var h, h' := HolderMap(b, size, rf), HolderMap(a, size, rf);
    var copies := Min(rf, |b|);
    forall t | 0 <= t < size
      ensures h[t] <= SetOf(names) && |h[t]| == copies
      ensures h'[t] <= SetOf(names) && |h'[t]| == copies
    {
      HoldersSpec(b, rf, t);
      HoldersSpec(a, rf, t);
    }
    SharesAddUp(names, h, copies);
    SharesAddUp(names, h', copies);
    TotalsDiffer(names, h, h');
  }
}
