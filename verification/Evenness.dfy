/** How even a ring is: its effective shares, largest first, then its primary
    shares. The names of the nodes play no part in it. */
module Evenness {
  import opened Lists
  import opened Sorting
  import opened Ring
  import opened Replication
  import opened Shares

  // ----- comparing -----

  predicate LexLess(a: seq<nat>, b: seq<nat>) {
    if b == [] then false
    else if a == [] then true
    else a[0] < b[0] || (a[0] == b[0] && LexLess(a[1..], b[1..]))
  }

  datatype Key = Key(effective: seq<nat>, primary: seq<nat>)

  /** a is more even than b. */
  predicate Less(a: Key, b: Key) {
    LexLess(a.effective, b.effective) || (a.effective == b.effective && LexLess(a.primary, b.primary))
  }

  predicate AtMost(a: Key, b: Key) {
    !Less(b, a)
  }

  lemma {:induction false} LexTrans(a: seq<nat>, b: seq<nat>, c: seq<nat>)
    requires LexLess(a, b) && LexLess(b, c)
    ensures LexLess(a, c)
  {
    if a != [] && a[0] == b[0] == c[0] { LexTrans(a[1..], b[1..], c[1..]); }
  }

  lemma {:induction false} LexTotal(a: seq<nat>, b: seq<nat>)
    ensures LexLess(a, b) || LexLess(b, a) || a == b
    ensures !(LexLess(a, b) && LexLess(b, a)) && !LexLess(a, a)
  {
    if a != [] && b != [] {
      LexTotal(a[1..], b[1..]);
      if a[0] == b[0] && a[1..] == b[1..] { assert a == [a[0]] + a[1..] == [b[0]] + b[1..] == b; }
    }
    if a != [] { LexTotal(a[1..], a[1..]); }
  }

  lemma {:induction false} AtMostTrans(a: Key, b: Key, c: Key)
    requires AtMost(a, b) && AtMost(b, c)
    ensures AtMost(a, c)
  {
    LexTotal(a.effective, b.effective);
    LexTotal(b.effective, c.effective);
    LexTotal(a.effective, c.effective);
    LexTotal(a.primary, b.primary);
    LexTotal(b.primary, c.primary);
    LexTotal(a.primary, c.primary);
    if LexLess(a.effective, b.effective) && LexLess(b.effective, c.effective) {
      LexTrans(a.effective, b.effective, c.effective);
    }
    if LexLess(a.primary, b.primary) && LexLess(b.primary, c.primary) {
      LexTrans(a.primary, b.primary, c.primary);
    }
  }

  lemma {:induction false} LessIsAtMost(a: Key, b: Key)
    ensures Less(a, b) ==> AtMost(a, b)
    ensures AtMost(a, a)
  {
    LexTotal(a.effective, b.effective);
    LexTotal(a.primary, b.primary);
    LexTotal(a.effective, a.effective);
    LexTotal(a.primary, a.primary);
  }

  /** key is at most each of the first k keys. */
  ghost predicate Least(key: Key, keys: seq<Key>, k: nat)
    requires k <= |keys|
  {
    forall i :: 0 <= i < k ==> AtMost(key, keys[i])
  }

  lemma {:induction false} LeastDown(low: Key, key: Key, keys: seq<Key>, k: nat)
    requires k <= |keys| && Less(low, key) && Least(key, keys, k)
    ensures Least(low, keys, k)
  {
    LessIsAtMost(low, key);
    forall i | 0 <= i < k ensures AtMost(low, keys[i]) {
      AtMostTrans(low, key, keys[i]);
    }
  }

  /** The first of the least keys. */
  method FirstLeast(keys: seq<Key>) returns (best: nat)
    requires keys != []
    ensures best < |keys| && Least(keys[best], keys, |keys|)
    ensures forall i :: 0 <= i < best ==> Less(keys[best], keys[i])
  {
    best := 0;
    LessIsAtMost(keys[0], keys[0]);
    var i := 1;
    while i < |keys|
      invariant 1 <= i <= |keys| && best < i
      invariant Least(keys[best], keys, i)
      invariant forall j :: 0 <= j < best ==> Less(keys[best], keys[j])
    {
      LessIsAtMost(keys[i], keys[i]);
      if Less(keys[i], keys[best]) {
        LeastDown(keys[i], keys[best], keys, i);
        forall j | 0 <= j < i ensures Less(keys[i], keys[j]) { LessAtMost(keys[i], keys[best], keys[j]); }
        best := i;
      }
      i := i + 1;
    }
  }

  lemma {:induction false} LessAtMost(a: Key, b: Key, c: Key)
    requires Less(a, b) && AtMost(b, c)
    ensures Less(a, c)
  {
    LexTotal(a.effective, b.effective);
    LexTotal(b.effective, c.effective);
    LexTotal(a.primary, b.primary);
    LexTotal(b.primary, c.primary);
    if LexLess(a.effective, b.effective) && LexLess(b.effective, c.effective) {
      LexTrans(a.effective, b.effective, c.effective);
    }
    if LexLess(a.primary, b.primary) && LexLess(b.primary, c.primary) {
      LexTrans(a.primary, b.primary, c.primary);
    }
  }

  // ----- the key of a ring -----

  predicate NoLess(a: nat, b: nat) {
    a >= b
  }

  /** Largest first. */
  function SortDown(s: seq<nat>): (r: seq<nat>)
    ensures multiset(r) == multiset(s)
  {
    SortBy(s, NoLess)
  }

  /** Largest first; so the first share is the largest one. */
  lemma {:induction false} SortDownSorted(s: seq<nat>)
    ensures forall i, j :: 0 <= i < j < |SortDown(s)| ==> SortDown(s)[i] >= SortDown(s)[j]
  {
    SortSorted(s, NoLess);
    forall i, j | 0 <= i < j < |SortDown(s)| ensures SortDown(s)[i] >= SortDown(s)[j] {
      assert NoLess(SortBy(s, NoLess)[i], SortBy(s, NoLess)[j]);
    }
  }

  ghost function EffectiveShares(pts: seq<Node>, size: nat, rf: nat): (r: seq<nat>)
    requires Increasing(Positions(pts))
    ensures |r| == |pts|
    ensures forall i :: 0 <= i < |pts| ==> r[i] == |Held(HolderMap(pts, size, rf), pts[i].name)|
  {
    seq(|pts|, i requires 0 <= i < |pts| => |Held(HolderMap(pts, size, rf), pts[i].name)|)
  }

  ghost function PrimaryShares(pts: seq<Node>, size: nat): (r: seq<nat>)
    requires Increasing(Positions(pts))
    ensures |r| == |pts|
    ensures forall i :: 0 <= i < |pts| ==> r[i] == |Owned(pts, size, pts[i].name)|
  {
    seq(|pts|, i requires 0 <= i < |pts| => |Owned(pts, size, pts[i].name)|)
  }

  /** The key of a ring in token order. */
  ghost function KeyOf(pts: seq<Node>, size: nat, rf: nat): Key
    requires Increasing(Positions(pts))
  {
    Key(SortDown(EffectiveShares(pts, size, rf)), SortDown(PrimaryShares(pts, size)))
  }

  /** A ring the planner can sort: no token and no name twice. */
  ghost predicate Sound(ring: seq<Node>, size: nat) {
    size > 0 && Distinct(Names(ring)) && SortedRing(ring, size).Ok?
  }

  ghost function RingKey(ring: seq<Node>, size: nat, rf: nat): Key
    requires Sound(ring, size)
  {
    SortedValid(ring, size);
    KeyOf(SortedRing(ring, size).value, size, rf)
  }

  lemma {:induction false} ShareAt(own: map<Name, Share>, pts: seq<Node>, size: nat, rf: nat, i: nat)
    requires IsShares(own, pts, size, rf) && i < |pts|
    ensures pts[i].name in own
    ensures own[pts[i].name] == Share(PrimaryShares(pts, size)[i], EffectiveShares(pts, size, rf)[i])
  {
    NamedIn(pts, pts[i]);
  }

  lemma {:induction false} ShareMore(own: map<Name, Share>, pts: seq<Node>, size: nat, rf: nat, i: nat,
        effective: seq<nat>, primary: seq<nat>)
    requires IsShares(own, pts, size, rf) && i < |pts|
    requires effective == EffectiveShares(pts, size, rf)[..i] && primary == PrimaryShares(pts, size)[..i]
    ensures pts[i].name in own
    ensures effective + [own[pts[i].name].effective] == EffectiveShares(pts, size, rf)[..i + 1]
    ensures primary + [own[pts[i].name].primary] == PrimaryShares(pts, size)[..i + 1]
  {
    ShareAt(own, pts, size, rf, i);
    TakeMore(EffectiveShares(pts, size, rf), i);
    TakeMore(PrimaryShares(pts, size), i);
  }

  lemma {:induction false} TakeMore(s: seq<nat>, i: nat)
    requires i < |s|
    ensures s[..i + 1] == s[..i] + [s[i]]
  {
  }

  /** The values of an ownership table, node by node. */
  method ShareLists(own: map<Name, Share>, pts: seq<Node>, ghost size: nat, ghost rf: nat)
    returns (effective: seq<nat>, primary: seq<nat>)
    requires IsShares(own, pts, size, rf)
    ensures effective == EffectiveShares(pts, size, rf) && primary == PrimaryShares(pts, size)
  {
    effective, primary := [], [];
    var i := 0;
    while i < |pts|
      invariant 0 <= i <= |pts| && |effective| == |primary| == i
      invariant effective == EffectiveShares(pts, size, rf)[..i] && primary == PrimaryShares(pts, size)[..i]
    {
      ShareMore(own, pts, size, rf, i, effective, primary);
      effective := effective + [own[pts[i].name].effective];
      primary := primary + [own[pts[i].name].primary];
      i := i + 1;
    }
  }

  method BalanceKey(ring: seq<Node>, size: nat, rf: nat) returns (key: Key)
    requires Sound(ring, size)
    ensures key == RingKey(ring, size, rf)
  {
    SortedValid(ring, size);
    var own := Ownership(ring, size, rf);
    var effective, primary := ShareLists(own.value, SortedRing(ring, size).value, size, rf);
    key := Key(SortDown(effective), SortDown(primary));
  }

  // ----- names play no part -----

  /** The same tokens on the same racks. */
  ghost predicate SameRacks(a: seq<Node>, b: seq<Node>) {
    |a| == |b| && forall i :: 0 <= i < |a| ==> a[i].pos == b[i].pos && a[i].rack == b[i].rack
  }

  lemma {:induction false} SameRacksUpTo(a: seq<Node>, b: seq<Node>, k: nat)
    requires SameRacks(a, b) && k <= |a|
    ensures RacksUpTo(a, k) == RacksUpTo(b, k)
  {
    if k > 0 { SameRacksUpTo(a, b, k - 1); }
  }

  lemma {:induction false} SameCounts(a: seq<Node>, b: seq<Node>, k: nat, rf: nat)
    requires SameRacks(a, b) && k < |a|
    ensures Counts(a, k, rf) <==> Counts(b, k, rf)
  {
    SameRacksUpTo(a, b, k);
    SameRacksUpTo(a, b, |a|);
  }

  lemma {:induction false} ChosenMeans(walk: seq<Node>, k: nat, rf: nat, d: nat)
    requires k <= |walk| && d < |walk| && Distinct(Names(walk))
    ensures walk[d].name in Names(Chosen(walk, k, rf)) <==> d < k && Counts(walk, d, rf)
  {
    if k > 0 {
      ChosenMeans(walk, k - 1, rf, d);
      ChosenNamesStep(walk, k - 1, rf);
      if d != k - 1 { assert Names(walk)[d] != Names(walk)[k - 1]; }
    }
  }

  /** Node i replicates the range ending at node o when its step of the walk counts. */
  lemma {:induction false} ReplicatesMeans(pts: seq<Node>, o: nat, i: nat, rf: nat)
    requires o < |pts| && i < |pts| && Distinct(Names(pts))
    ensures var d := if i >= o then i - o else i - o + |pts|;
            pts[i].name in ReplicaNames(pts, o, rf) <==> Counts(Walk(pts, o), d, rf)
  {
    var d := if i >= o then i - o else i - o + |pts|;
    WalkNodes(pts, o);
    assert Walk(pts, o)[d] == pts[i];
    ChosenMeans(Walk(pts, o), |pts|, rf, d);
  }

  lemma {:induction false} SameHolds(a: seq<Node>, b: seq<Node>, size: nat, rf: nat, i: nat)
    requires SameRacks(a, b) && Valid(a, size) && Valid(b, size) && i < |a|
    ensures Held(HolderMap(a, size, rf), a[i].name) == Held(HolderMap(b, size, rf), b[i].name)
    ensures Owned(a, size, a[i].name) == Owned(b, size, b[i].name)
  {
    forall t | 0 <= t < size
      ensures a[i].name in Holders(a, rf, t) <==> b[i].name in Holders(b, rf, t)
      ensures OwnerName(a, t) == a[i].name <==> OwnerName(b, t) == b[i].name
    {
      SameHoldsAt(a, b, size, rf, i, t);
    }
  }

  lemma {:induction false} SameHoldsAt(a: seq<Node>, b: seq<Node>, size: nat, rf: nat, i: nat, t: int)
    requires SameRacks(a, b) && Valid(a, size) && Valid(b, size) && i < |a|
    ensures a[i].name in Holders(a, rf, t) <==> b[i].name in Holders(b, rf, t)
    ensures OwnerName(a, t) == a[i].name <==> OwnerName(b, t) == b[i].name
  {
    assert Positions(a) == Positions(b);
    OwnerSpec(Positions(a), t, 0);
    var o := Owner(Positions(a), t);
    SameReplicates(a, b, o, i, rf);
    NameIsPlace(a, o, i);
    NameIsPlace(b, o, i);
  }

  lemma {:induction false} SameReplicates(a: seq<Node>, b: seq<Node>, o: nat, i: nat, rf: nat)
    requires SameRacks(a, b) && Distinct(Names(a)) && Distinct(Names(b)) && o < |a| && i < |a|
    ensures a[i].name in ReplicaNames(a, o, rf) <==> b[i].name in ReplicaNames(b, o, rf)
  {
    ReplicatesMeans(a, o, i, rf);
    ReplicatesMeans(b, o, i, rf);
    SameWalks(a, b, o);
    SameCounts(Walk(a, o), Walk(b, o), if i >= o then i - o else i - o + |a|, rf);
  }

  lemma {:induction false} SameWalks(a: seq<Node>, b: seq<Node>, o: nat)
    requires SameRacks(a, b) && o <= |a|
    ensures SameRacks(Walk(a, o), Walk(b, o))
  {
  }

  lemma {:induction false} NameIsPlace(pts: seq<Node>, o: nat, i: nat)
    requires o < |pts| && i < |pts| && Distinct(Names(pts))
    ensures pts[o].name == pts[i].name <==> o == i
  {
    if o != i { assert Names(pts)[o] != Names(pts)[i]; }
  }

  lemma {:induction false} SameKey(a: seq<Node>, b: seq<Node>, size: nat, rf: nat)
    requires SameRacks(a, b) && Valid(a, size) && Valid(b, size)
    ensures KeyOf(a, size, rf) == KeyOf(b, size, rf)
  {
    forall i | 0 <= i < |a|
      ensures EffectiveShares(a, size, rf)[i] == EffectiveShares(b, size, rf)[i]
      ensures PrimaryShares(a, size)[i] == PrimaryShares(b, size)[i]
    {
      SameHolds(a, b, size, rf, i);
    }
    assert EffectiveShares(a, size, rf) == EffectiveShares(b, size, rf);
    assert PrimaryShares(a, size) == PrimaryShares(b, size);
  }

  // ----- the same tokens and racks, in any order -----

  function Bare(n: Node): Node {
    n.(name := 0)
  }

  /** The ring without its names. */
  function Bares(ring: seq<Node>): seq<Node> {
    Map(Bare, ring)
  }

  lemma {:induction false} BareSame(a: seq<Node>, b: seq<Node>)
    requires Increasing(Positions(a)) && Increasing(Positions(b))
    requires multiset(Bares(a)) == multiset(Bares(b))
    ensures SameRacks(a, b)
  {
    assert Positions(Bares(a)) == Positions(a) && Positions(Bares(b)) == Positions(b);
    SameNodesSameRing(Bares(a), Bares(b));
    forall i | 0 <= i < |a| ensures a[i].pos == b[i].pos && a[i].rack == b[i].rack {
      assert Bares(a)[i] == Bares(b)[i];
    }
  }

  /** Rings with the same tokens on the same racks are equally even, whatever the names. */
  lemma {:induction false} KeyIgnoresNames(a: seq<Node>, b: seq<Node>, size: nat, rf: nat)
    requires Sound(a, size) && Sound(b, size)
    requires multiset(Bares(Reduced(a, size))) == multiset(Bares(Reduced(b, size)))
    ensures RingKey(a, size, rf) == RingKey(b, size, rf)
  {
    SortedValid(a, size);
    SortedValid(b, size);
    SortedRingSpec(a, size);
    SortedRingSpec(b, size);
    var pa, pb := SortedRing(a, size).value, SortedRing(b, size).value;
    MapMultiset(Bare, pa, Reduced(a, size));
    MapMultiset(Bare, pb, Reduced(b, size));
    BareSame(pa, pb);
    SameKey(pa, pb, size, rf);
  }
}
