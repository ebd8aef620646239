/** Which tokens each node owns and replicates, token by token, and the interval
    arithmetic that counts them. Shares are numerators over the ring's size. */
module Shares {
  import opened Arith
  import opened Lists
  import opened Ring
  import opened Replication

  function OwnerFrom(ps: seq<int>, t: int, i: nat): nat
    requires i <= |ps|
    decreases |ps| - i
  {
    if i == |ps| then 0 else if ps[i] >= t then i else OwnerFrom(ps, t, i + 1)
  }

  /** The node whose range holds token t: the first position >= t, round the ring. */
  function Owner(ps: seq<int>, t: int): nat {
    OwnerFrom(ps, t, 0)
  }

  lemma {:induction false} OwnerFromSpec(ps: seq<int>, t: int, i: nat)
    requires i <= |ps| && forall j :: 0 <= j < i ==> ps[j] < t
    ensures var o := OwnerFrom(ps, t, i);
            || (o < |ps| && ps[o] >= t && forall j :: 0 <= j < o ==> ps[j] < t)
            || (o == 0 && forall j :: 0 <= j < |ps| ==> ps[j] < t)
    decreases |ps| - i
  {
    if i < |ps| && ps[i] < t { OwnerFromSpec(ps, t, i + 1); }
  }

  lemma {:induction false} OwnerSpec(ps: seq<int>, t: int, o: nat)
    requires Increasing(ps) && o < |ps|
    ensures Owner(ps, t) < |ps|
    ensures Owner(ps, t) == o <==>
            || (t <= ps[o] && (o > 0 ==> ps[o - 1] < t))
            || (o == 0 && ps[|ps| - 1] < t)
  {
    OwnerFromSpec(ps, t, 0);
    var w := Owner(ps, t);
    if w != o && 0 < w { assert ps[w - 1] < t; }
    if w < o { assert ps[w] <= ps[o - 1]; }
  }

  method OwnerIndex(pts: seq<Node>, pos: int) returns (i: nat)
    requires pts != []
    ensures i == Owner(Positions(pts), pos)
  {
    i := 0;
    while i < |pts|
      invariant 0 <= i <= |pts|
      invariant Owner(Positions(pts), pos) == OwnerFrom(Positions(pts), pos, i)
    {
      if pts[i].pos >= pos { return; }
      i := i + 1;
    }
    i := 0;
  }

  // ----- the range of each position -----

  function Tokens(a: int, b: int): (r: set<int>)
    ensures forall t :: t in r <==> a <= t < b
    ensures |r| == if a <= b then b - a else 0
    decreases b - a
  {
    if a >= b then {} else Tokens(a, b - 1) + {b - 1}
  }

  /** The length of the range that ends at ps[k], as the planner computes it. */
  function Length(ps: seq<int>, k: nat, size: nat): nat
    requires k < |ps| && size > 0
  {
    if |ps| == 1 then size else (ps[k] - ps[if k == 0 then |ps| - 1 else k - 1]) % size
  }

  ghost function Range(ps: seq<int>, k: nat, size: nat): set<int> {
    set t | 0 <= t < size && Owner(ps, t) == k
  }

  /** The arithmetic length is the number of tokens in the range. */
  lemma {:induction false} RangeSize(ps: seq<int>, k: nat, size: nat)
    requires k < |ps| && Increasing(ps) && OnCircle(ps, size) && size > 0
    ensures |Range(ps, k, size)| == Length(ps, k, size)
  {
    if k == 0 {
      FirstRange(ps, size);
    } else {
      LaterRange(ps, k, size);
    }
  }

  lemma {:induction false} FirstRange(ps: seq<int>, size: nat)
    requires ps != [] && Increasing(ps) && OnCircle(ps, size) && size > 0
    ensures |Range(ps, 0, size)| == Length(ps, 0, size)
  {
    var last := ps[|ps| - 1];
    var low, high := Tokens(0, ps[0] + 1), Tokens(last + 1, size);
    forall t | 0 <= t < size ensures t in Range(ps, 0, size) <==> t in low + high {
      OwnerSpec(ps, t, 0);
    }
    assert Range(ps, 0, size) == low + high;
    assert low !! high;
    assert |ps| > 1 ==> ps[0] < last;
    if |ps| > 1 { WrapAround(ps[0], last, size); }
  }

  lemma {:induction false} LaterRange(ps: seq<int>, k: nat, size: nat)
    requires 0 < k < |ps| && Increasing(ps) && OnCircle(ps, size) && size > 0
    ensures |Range(ps, k, size)| == Length(ps, k, size)
  {
    var span := Tokens(ps[k - 1] + 1, ps[k] + 1);
    forall t | 0 <= t < size ensures t in Range(ps, k, size) <==> t in span {
      OwnerSpec(ps, t, k);
    }
    assert Range(ps, k, size) == span;
    assert 0 <= ps[k - 1] < ps[k] < size;
    SmallMod(ps[k] - ps[k - 1], size);
  }

  lemma {:induction false} WrapAround(a: int, b: int, size: nat)
    requires 0 <= a < b < size
    ensures (a - b) % size == a - b + size
  {
    assert (a - b + size) % size == (a - b) % size;
  }

  // ----- shares, token by token -----

  /** The nodes that hold token t; none when the ring is empty. */
  ghost function Holders(pts: seq<Node>, rf: nat, t: int): set<Name>
    requires Increasing(Positions(pts))
  {
    if pts == [] then {}
    else
      OwnerSpec(Positions(pts), t, 0);
      SetOf(ReplicaNames(pts, Owner(Positions(pts), t), rf))
  }

  /** Per token of the circle, the nodes that hold it: the reference every share is counted against. */
  ghost function HolderMap(pts: seq<Node>, size: nat, rf: nat): (h: seq<set<Name>>)
    requires Increasing(Positions(pts))
    ensures |h| == size
    ensures forall t :: 0 <= t < size ==> h[t] == Holders(pts, rf, t)
  {
    seq(size, t requires 0 <= t < size => Holders(pts, rf, t))
  }

  /** The tokens a node holds. */
  ghost function Held(h: seq<set<Name>>, name: Name): set<int> {
    set t | 0 <= t < |h| && name in h[t]
  }

  /** The tokens a node is the primary owner of. */
  ghost function Owned(pts: seq<Node>, size: nat, name: Name): set<int>
    requires Increasing(Positions(pts))
  {
    set t | 0 <= t < size && pts != [] && OwnerName(pts, t) == name
  }

  ghost function OwnerName(pts: seq<Node>, t: int): Name
    requires pts != [] && Increasing(Positions(pts))
  {
    OwnerSpec(Positions(pts), t, 0);
    pts[Owner(Positions(pts), t)].name
  }

  ghost function SumHeld(names: seq<Name>, h: seq<set<Name>>): nat {
    if names == [] then 0 else |Held(h, names[0])| + SumHeld(names[1..], h)
  }

  /** A node holds the last token, or no more than without it. */
  lemma {:induction false} HeldLast(h: seq<set<Name>>, x: Name)
    requires h != []
    ensures |Held(h, x)| == |Held(h[..|h| - 1], x)| + if x in h[|h| - 1] then 1 else 0
  {
    var init, last := h[..|h| - 1], h[|h| - 1];
    assert Held(h, x) == Held(init, x) + if x in last then {|h| - 1} else {};
    assert |h| - 1 !in Held(init, x);
  }

  lemma {:induction false} NamesLess(names: seq<Name>, last: set<Name>)
    requires names != [] && Distinct(names)
    ensures |SetOf(names) * last| == |SetOf(names[1..]) * last| + if names[0] in last then 1 else 0
  {
    var x, rest := names[0], names[1..];
    assert names == [x] + rest;
    assert x !in rest;
    var here := SetOf(rest) * last;
    assert SetOf(names) * last == here + if x in last then {x} else {};
  }

  lemma {:induction false} SumHeldStep(names: seq<Name>, h: seq<set<Name>>)
    requires h != [] && Distinct(names)
    ensures SumHeld(names, h) == SumHeld(names, h[..|h| - 1]) + |SetOf(names) * h[|h| - 1]|
  {
    if names == [] {
      assert SetOf(names) * h[|h| - 1] == {};
    } else {
      SumHeldStep(names[1..], h);
      HeldLast(h, names[0]);
      NamesLess(names, h[|h| - 1]);
    }
  }

  lemma {:induction false} OneTokenMore(copies: nat, n: nat)
    requires n > 0
    ensures copies * n == copies * (n - 1) + copies
  {
  }

  /** Counting by node or by token is the same: the shares of all nodes add up to
      copies times the ring when every token has that many holders. */
  lemma {:induction false} SharesAddUp(names: seq<Name>, h: seq<set<Name>>, copies: nat)
    requires Distinct(names)
    requires forall t :: 0 <= t < |h| ==> h[t] <= SetOf(names) && |h[t]| == copies
    ensures SumHeld(names, h) == copies * |h|
  {
    if h == [] {
      NothingHeld(names);
    } else {
      var last := h[|h| - 1];
      SumHeldStep(names, h);
      SharesAddUp(names, h[..|h| - 1], copies);
      assert SetOf(names) * last == last;
      OneTokenMore(copies, |h|);
    }
  }

  lemma {:induction false} NothingHeld(names: seq<Name>)
    ensures SumHeld(names, []) == 0
  {
    if names != [] {
      NothingHeld(names[1..]);
      assert Held([], names[0]) == {};
    }
  }

  lemma {:induction false} DistinctSize<T(!new)>(s: seq<T>)
    requires Distinct(s)
    ensures |SetOf(s)| == |s|
  {
    if s == [] {
      assert SetOf(s) == {};
    } else {
      DistinctSize(s[1..]);
      assert SetOf(s) == {s[0]} + SetOf(s[1..]);
    }
  }

  lemma {:induction false} HoldersSpec(pts: seq<Node>, rf: nat, t: int)
    requires Increasing(Positions(pts)) && Distinct(Names(pts))
    ensures |Holders(pts, rf, t)| == Min(rf, |pts|)
    ensures Holders(pts, rf, t) <= SetOf(Names(pts))
  {
    if pts != [] {
      OwnerSpec(Positions(pts), t, 0);
      var o := Owner(Positions(pts), t);
      ReplicasSpec(pts, o, rf);
      DistinctSize(ReplicaNames(pts, o, rf));
      var nodes := ReplicaNodes(pts, o, rf);
      forall x | x in Holders(pts, rf, t) ensures x in SetOf(Names(pts)) {
        var i :| 0 <= i < |nodes| && nodes[i].name == x;
        NamedIn(pts, nodes[i]);
      }
    }
  }

  lemma {:induction false} NamedIn(pts: seq<Node>, n: Node)
    requires n in pts
    ensures n.name in SetOf(Names(pts))
  {
    var i :| 0 <= i < |pts| && pts[i] == n;
    assert Names(pts)[i] == n.name;
  }

  /** The effective shares of a datacenter add up to exactly min(rf, nodes) rings. */
  lemma {:induction false} EffectiveSharesAddUp(pts: seq<Node>, size: nat, rf: nat)
    requires Increasing(Positions(pts)) && Distinct(Names(pts))
    ensures SumHeld(Names(pts), HolderMap(pts, size, rf)) == Min(rf, |pts|) * size
  {
    var h := HolderMap(pts, size, rf);
    forall t | 0 <= t < size ensures h[t] <= SetOf(Names(pts)) && |h[t]| == Min(rf, |pts|) {
      HoldersSpec(pts, rf, t);
    }
    SharesAddUp(Names(pts), h, Min(rf, |pts|));
  }

  /** Per token, its primary owner alone. */
  ghost function OwnerMap(pts: seq<Node>, size: nat): (h: seq<set<Name>>)
    requires pts != [] && Increasing(Positions(pts))
    ensures |h| == size
    ensures forall t :: 0 <= t < size ==> h[t] == {OwnerName(pts, t)}
  {
    seq(size, t requires 0 <= t < size => {OwnerName(pts, t)})
  }

  /** The primary shares of a datacenter add up to exactly one ring. */
  lemma {:induction false} PrimarySharesAddUp(pts: seq<Node>, size: nat)
    requires pts != [] && Increasing(Positions(pts)) && Distinct(Names(pts))
    ensures SumHeld(Names(pts), OwnerMap(pts, size)) == size
    ensures forall name :: Held(OwnerMap(pts, size), name) == Owned(pts, size, name)
  {
    var h := OwnerMap(pts, size);
    forall t | 0 <= t < size ensures h[t] <= SetOf(Names(pts)) && |h[t]| == 1 {
      OwnerSpec(Positions(pts), t, 0);
      NamedIn(pts, pts[Owner(Positions(pts), t)]);
    }
    SharesAddUp(Names(pts), h, 1);
  }

  // ----- the planner's interval arithmetic -----

  /** A node's share of the ring as primary owner and as one of the replicas. */
  datatype Share = Share(primary: nat, effective: nat)

  /** The table gives every node the number of tokens it owns and the number it holds. */
  ghost predicate IsShares(own: map<Name, Share>, pts: seq<Node>, size: nat, rf: nat) {
    && Increasing(Positions(pts))
    && own.Keys == SetOf(Names(pts))
    && forall name :: name in own ==>
        own[name] == Share(|Owned(pts, size, name)|, |Held(HolderMap(pts, size, rf), name)|)
  }

  /** What the first i ranges add to a node's shares. */
  ghost function OwnedIn(pts: seq<Node>, size: nat, name: Name, i: nat): set<int>
    requires Increasing(Positions(pts))
  {
    set t | t in Owned(pts, size, name) && Owner(Positions(pts), t) < i
  }

  ghost function HeldIn(pts: seq<Node>, size: nat, rf: nat, name: Name, i: nat): set<int>
    requires Increasing(Positions(pts))
  {
    set t | t in Held(HolderMap(pts, size, rf), name) && Owner(Positions(pts), t) < i
  }

  lemma {:induction false} OwnedStep(pts: seq<Node>, size: nat, name: Name, i: nat)
    requires i < |pts| && Valid(pts, size) && size > 0
    ensures |OwnedIn(pts, size, name, i + 1)| ==
            |OwnedIn(pts, size, name, i)| + if pts[i].name == name then Length(Positions(pts), i, size) else 0
  {
    var range := Range(Positions(pts), i, size);
    RangeSize(Positions(pts), i, size);
    if pts[i].name == name {
      assert OwnedIn(pts, size, name, i + 1) == OwnedIn(pts, size, name, i) + range;
      assert OwnedIn(pts, size, name, i) !! range;
    } else {
      assert OwnedIn(pts, size, name, i + 1) == OwnedIn(pts, size, name, i);
    }
  }

  lemma {:induction false} HeldStep(pts: seq<Node>, size: nat, rf: nat, name: Name, i: nat)
    requires i < |pts| && Valid(pts, size) && size > 0
    ensures |HeldIn(pts, size, rf, name, i + 1)| ==
            |HeldIn(pts, size, rf, name, i)|
            + if name in ReplicaNames(pts, i, rf) then Length(Positions(pts), i, size) else 0
  {
    var range := Range(Positions(pts), i, size);
    RangeSize(Positions(pts), i, size);
    if name in ReplicaNames(pts, i, rf) {
      assert HeldIn(pts, size, rf, name, i + 1) == HeldIn(pts, size, rf, name, i) + range;
      assert HeldIn(pts, size, rf, name, i) !! range;
    } else {
      assert HeldIn(pts, size, rf, name, i + 1) == HeldIn(pts, size, rf, name, i);
    }
  }

  lemma {:induction false} AllRanges(pts: seq<Node>, size: nat, rf: nat, name: Name)
    requires Increasing(Positions(pts))
    ensures OwnedIn(pts, size, name, 0) == {} == HeldIn(pts, size, rf, name, 0)
    ensures OwnedIn(pts, size, name, |pts|) == Owned(pts, size, name)
    ensures HeldIn(pts, size, rf, name, |pts|) == Held(HolderMap(pts, size, rf), name)
  {
    if pts == [] {
      assert forall t :: Holders(pts, rf, t) == {};
    } else {
      forall t ensures Owner(Positions(pts), t) < |pts| { OwnerSpec(Positions(pts), t, 0); }
    }
  }

  ghost predicate Added(own: map<Name, Share>, r: map<Name, Share>, owner: Name, reps: set<Name>, length: nat) {
    && r.Keys == own.Keys
    && forall x :: x in own ==>
        r[x] == Share(own[x].primary + if x == owner then length else 0,
                      own[x].effective + if x in reps then length else 0)
  }

  /** A node's shares in the first i ranges. */
  ghost function ShareOf(pts: seq<Node>, size: nat, rf: nat, i: nat, name: Name): Share
    requires Increasing(Positions(pts))
  {
    Share(|OwnedIn(pts, size, name, i)|, |HeldIn(pts, size, rf, name, i)|)
  }

  /** The table after the first i ranges. */
  ghost function TableOf(pts: seq<Node>, size: nat, rf: nat, i: nat): map<Name, Share>
    requires Increasing(Positions(pts))
  {
    map name | name in SetOf(Names(pts)) :: ShareOf(pts, size, rf, i, name)
  }

  lemma {:induction false} ShareStep(pts: seq<Node>, size: nat, rf: nat, i: nat, name: Name)
    requires i < |pts| && Valid(pts, size) && size > 0
    ensures var share, length := ShareOf(pts, size, rf, i, name), Length(Positions(pts), i, size);
            ShareOf(pts, size, rf, i + 1, name) ==
            Share(share.primary + if name == pts[i].name then length else 0,
                  share.effective + if name in SetOf(ReplicaNames(pts, i, rf)) then length else 0)
  {
    OwnedStep(pts, size, name, i);
    HeldStep(pts, size, rf, name, i);
  }

  lemma {:induction false} AddedIsOne(own: map<Name, Share>, r: map<Name, Share>, next: map<Name, Share>, owner: Name,
        reps: set<Name>, length: nat)
    requires Added(own, r, owner, reps, length) && Added(own, next, owner, reps, length)
    ensures r == next
  {
    assert r.Keys == next.Keys;
  }

  lemma {:induction false} SharesStep(pts: seq<Node>, size: nat, rf: nat, i: nat)
    requires i < |pts| && Valid(pts, size) && size > 0
    ensures Added(TableOf(pts, size, rf, i), TableOf(pts, size, rf, i + 1), pts[i].name,
                SetOf(ReplicaNames(pts, i, rf)), Length(Positions(pts), i, size))
  {
    forall name { ShareStep(pts, size, rf, i, name); }
  }

  lemma {:induction false} SharesEnds(pts: seq<Node>, size: nat, rf: nat)
    requires Increasing(Positions(pts))
    ensures TableOf(pts, size, rf, 0) == map name | name in SetOf(Names(pts)) :: Share(0, 0)
    ensures IsShares(TableOf(pts, size, rf, |pts|), pts, size, rf)
  {
    forall name
      ensures OwnedIn(pts, size, name, 0) == {} == HeldIn(pts, size, rf, name, 0)
      ensures OwnedIn(pts, size, name, |pts|) == Owned(pts, size, name)
      ensures HeldIn(pts, size, rf, name, |pts|) == Held(HolderMap(pts, size, rf), name)
    {
      AllRanges(pts, size, rf, name);
    }
  }

  /** One range added to the table: its length to its owner and to each of its replicas. */
  method AddRange(own: map<Name, Share>, owner: Name, reps: seq<Name>, length: nat) returns (r: map<Name, Share>)
    requires owner in own && Distinct(reps) && forall x :: x in reps ==> x in own
    ensures Added(own, r, owner, SetOf(reps), length)
  {
    r := own[owner := own[owner].(primary := own[owner].primary + length)];
    var j := 0;
    while j < |reps|
      invariant 0 <= j <= |reps|
      invariant Added(own, r, owner, SetOf(reps[..j]), length)
    {
      var rep := reps[j];
      assert rep !in reps[..j];
      r := r[rep := r[rep].(effective := r[rep].effective + length)];
      j := j + 1;
      assert reps[..j] == reps[..j - 1] + [rep];
    }
    assert reps[..j] == reps;
  }

  lemma {:induction false} SortedValid(ring: seq<Node>, size: nat)
    requires size > 0 && Distinct(Names(ring)) && SortedRing(ring, size).Ok?
    ensures Valid(SortedRing(ring, size).value, size)
    ensures SetOf(Names(SortedRing(ring, size).value)) == SetOf(Names(ring))
    ensures |SortedRing(ring, size).value| == |ring|
  {
    SortedRingSpec(ring, size);
    var red, pts := Reduced(ring, size), SortedRing(ring, size).value;
    NamesMultiset(red, pts);
    assert Names(red) == Names(ring);
    DistinctOfMultiset(Names(red), Names(pts));
    assert forall x :: x in Names(pts) <==> x in multiset(Names(pts));
    assert forall x :: x in Names(ring) <==> x in multiset(Names(red));
    assert |multiset(pts)| == |pts|;
  }

  /** Range i added to the table. */
  method AddRangeAt(own: map<Name, Share>, pts: seq<Node>, size: nat, rf: nat, i: nat, racks: nat)
      returns (r: map<Name, Share>)
    requires Valid(pts, size) && size > 0 && i < |pts| && racks == |Racks(pts)|
    requires own == TableOf(pts, size, rf, i)
    ensures r == TableOf(pts, size, rf, i + 1)
  {
    var reps := Replicas(pts, i, rf, racks);
    ReplicasKnown(pts, i, rf);
    r := AddRange(own, pts[i].name, reps, Length(Positions(pts), i, size));
    SharesStep(pts, size, rf, i);
    AddedIsOne(own, r, TableOf(pts, size, rf, i + 1), pts[i].name, SetOf(reps), Length(Positions(pts), i, size));
  }

  /** Every node's primary and effective share: refused when two nodes share a
      token, else exactly the tokens it owns and holds. */
  method Ownership(ring: seq<Node>, size: nat, rf: nat) returns (r: Result<map<Name, Share>>)
    requires size > 0 && Distinct(Names(ring))
    ensures r.Ok? <==> SortedRing(ring, size).Ok?
    ensures r.Ok? ==> IsShares(r.value, SortedRing(ring, size).value, size, rf)
  {
    var sorted := SortedRing(ring, size);
    if sorted.TokenError? { return TokenError; }
    var pts := sorted.value;
    SortedValid(ring, size);
    var racks := |Racks(pts)|;
    var own := map name | name in SetOf(Names(pts)) :: Share(0, 0);
    SharesEnds(pts, size, rf);
    var i := 0;
    while i < |pts|
      invariant 0 <= i <= |pts|
      invariant own == TableOf(pts, size, rf, i)
    {
      own := AddRangeAt(own, pts, size, rf, i, racks);
      i := i + 1;
    }
    assert i == |pts|;
    return Ok(own);
  }

  lemma {:induction false} ReplicasKnown(pts: seq<Node>, i: nat, rf: nat)
    requires i < |pts| && Distinct(Names(pts))
    ensures Distinct(ReplicaNames(pts, i, rf))
    ensures forall x :: x in ReplicaNames(pts, i, rf) ==> x in SetOf(Names(pts))
    ensures pts[i].name in SetOf(Names(pts))
  {
    ReplicasSpec(pts, i, rf);
    var nodes := ReplicaNodes(pts, i, rf);
    forall x | x in ReplicaNames(pts, i, rf) ensures x in SetOf(Names(pts)) {
      var k :| 0 <= k < |nodes| && nodes[k].name == x;
      NamedIn(pts, nodes[k]);
    }
    NamedIn(pts, pts[i]);
  }
}
