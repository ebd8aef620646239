/** The circle of positions [0, size), the nodes on it and the ranges they own:
    the ground every token plan stands on. */
module Ring {
  import opened Lists
  import opened Sorting

  /** A host name, as its rank in alphabetical order. */
  type Name = nat
  /** A rack name, as its rank in alphabetical order. */
  type Rack = nat

  datatype Node = Node(pos: int, name: Name, rack: Rack)

  datatype Result<+T> = Ok(value: T) | TokenError

  ghost predicate Increasing(ps: seq<int>) {
    forall i, j :: 0 <= i < j < |ps| ==> ps[i] < ps[j]
  }

  ghost predicate OnCircle(ps: seq<int>, size: nat) {
    forall i :: 0 <= i < |ps| ==> 0 <= ps[i] < size
  }

  function Map<T, U>(f: T -> U, s: seq<T>): (r: seq<U>)
    ensures |r| == |s|
    ensures forall i :: 0 <= i < |s| ==> r[i] == f(s[i])
  {
    seq(|s|, i requires 0 <= i < |s| => f(s[i]))
  }

  function Positions(ring: seq<Node>): (ps: seq<int>)
    ensures |ps| == |ring|
    ensures forall i :: 0 <= i < |ring| ==> ps[i] == ring[i].pos
  {
    seq(|ring|, i requires 0 <= i < |ring| => ring[i].pos)
  }

  function Names(ring: seq<Node>): (ns: seq<Name>)
    ensures |ns| == |ring|
    ensures forall i :: 0 <= i < |ring| ==> ns[i] == ring[i].name
  {
    seq(|ring|, i requires 0 <= i < |ring| => ring[i].name)
  }

  /** The racks of the first k nodes. */
  function RacksUpTo(ring: seq<Node>, k: nat): set<Rack>
    requires k <= |ring|
  {
    if k == 0 then {} else RacksUpTo(ring, k - 1) + {ring[k - 1].rack}
  }

  function Racks(ring: seq<Node>): set<Rack> {
    RacksUpTo(ring, |ring|)
  }

  lemma {:induction false} RacksMembers(ring: seq<Node>, k: nat)
    requires k <= |ring|
    ensures forall i :: 0 <= i < k ==> ring[i].rack in RacksUpTo(ring, k)
    ensures forall x :: x in RacksUpTo(ring, k) ==> exists i :: 0 <= i < k && ring[i].rack == x
  {
    if k > 0 { RacksMembers(ring, k - 1); }
  }

  lemma {:induction false} RacksSame(a: seq<Node>, b: seq<Node>)
    requires forall n :: n in a <==> n in b
    ensures Racks(a) == Racks(b)
  {
    RacksMembers(a, |a|);
    RacksMembers(b, |b|);
    forall x | x in Racks(a) ensures x in Racks(b) {
      var i :| 0 <= i < |a| && a[i].rack == x;
      assert a[i] in b;
    }
    forall x | x in Racks(b) ensures x in Racks(a) {
      var i :| 0 <= i < |b| && b[i].rack == x;
      assert b[i] in a;
    }
  }

  lemma {:induction false} RacksPrefix(a: seq<Node>, b: seq<Node>, k: nat)
    requires k <= |a| && k <= |b| && a[..k] == b[..k]
    ensures RacksUpTo(a, k) == RacksUpTo(b, k)
  {
    if k > 0 {
      assert a[..k - 1] == a[..k][..k - 1] == b[..k][..k - 1] == b[..k - 1];
      assert a[k - 1] == a[..k][k - 1] == b[..k][k - 1];
      RacksPrefix(a, b, k - 1);
    }
  }

  lemma {:induction false} RacksAppend(s: seq<Node>, n: Node)
    ensures Racks(s + [n]) == Racks(s) + {n.rack}
  {
    assert (s + [n])[..|s|] == s == s[..|s|];
    RacksPrefix(s + [n], s, |s|);
  }

  /** A datacenter's ring in token order: no position and no name twice. */
  ghost predicate Valid(pts: seq<Node>, size: nat) {
    && Increasing(Positions(pts))
    && OnCircle(Positions(pts), size)
    && Distinct(Names(pts))
  }

  // ----- sorting a ring -----

  predicate PosLe(a: Node, b: Node) {
    a.pos <= b.pos
  }

  function Sort(ring: seq<Node>): (r: seq<Node>)
    ensures multiset(r) == multiset(ring)
  {
    SortBy(ring, PosLe)
  }

  function Reduced(ring: seq<Node>, size: nat): (r: seq<Node>)
    requires size > 0
    ensures |r| == |ring|
    ensures forall i :: 0 <= i < |ring| ==> r[i] == ring[i].(pos := ring[i].pos % size)
  {
    seq(|ring|, i requires 0 <= i < |ring| => ring[i].(pos := ring[i].pos % size))
  }

  predicate HasRepeat(pts: seq<Node>) {
    exists i :: 0 <= i < |pts| - 1 && pts[i].pos == pts[i + 1].pos
  }

  /** The ring in token order, or an error when a position is there twice. */
  function SortedRing(ring: seq<Node>, size: nat): Result<seq<Node>>
    requires size > 0
  {
    var pts := Sort(Reduced(ring, size));
    if HasRepeat(pts) then TokenError else Ok(pts)
  }

  ghost predicate NonDecreasing(pts: seq<Node>) {
    forall i, j :: 0 <= i < j < |pts| ==> pts[i].pos <= pts[j].pos
  }

  lemma {:induction false} SortNonDecreasing(ring: seq<Node>)
    ensures NonDecreasing(Sort(ring))
  {
    SortSorted(ring, PosLe);
    forall i, j | 0 <= i < j < |Sort(ring)| ensures Sort(ring)[i].pos <= Sort(ring)[j].pos {
      assert PosLe(SortBy(ring, PosLe)[i], SortBy(ring, PosLe)[j]);
    }
  }

  /** Equal as multisets: one is distinct when the other is. */
  lemma {:induction false} DistinctOfMultiset<T(!new)>(a: seq<T>, b: seq<T>)
    requires multiset(a) == multiset(b)
    requires Distinct(a)
    ensures Distinct(b)
  {
    forall x: T ensures multiset(a)[x] <= 1 { DistinctMultiplicity(a, x); }
    forall i, j | 0 <= i < j < |b| ensures b[i] != b[j] {
      if b[i] == b[j] { CountedTwice(b, i, j); }
    }
  }

  lemma {:induction false} CountedTwice<T>(b: seq<T>, i: nat, j: nat)
    requires i < j < |b| && b[i] == b[j]
    ensures multiset(b)[b[i]] >= 2
  {
    assert b == b[..j] + b[j..];
    assert b[i] in b[..j] && b[j] in b[j..];
    assert multiset(b[..j])[b[i]] >= 1 && multiset(b[j..])[b[i]] >= 1;
  }

  lemma {:induction false} DistinctMultiplicity<T(!new)>(a: seq<T>, x: T)
    requires Distinct(a)
    ensures multiset(a)[x] == if x in a then 1 else 0
  {
    if a == [] {
    } else {
      DistinctMultiplicity(a[1..], x);
      assert a == [a[0]] + a[1..];
      if a[0] == x { assert x !in a[1..]; }
    }
  }

  lemma {:induction false} SortIncreasing(s: seq<int>)
    requires Distinct(s)
    ensures Increasing(SortInts(s))
  {
    IntsSorted(s);
    DistinctOfMultiset(s, SortInts(s));
  }

  lemma {:induction false} InsertIncreasing(p: int, s: seq<int>)
    requires Increasing(s) && p !in s
    ensures Increasing(InsertInt(p, s))
  {
    if s != [] && p > s[0] {
      InsertIncreasing(p, s[1..]);
      var rest := InsertInt(p, s[1..]);
      forall i | 0 <= i < |rest| ensures s[0] < rest[i] {
        assert rest[i] in multiset(rest);
        assert rest[i] == p || rest[i] in s[1..];
      }
    }
  }

  /** Two increasing rings with the same nodes are the same ring. */
  lemma {:induction false} SameNodesSameRing(a: seq<Node>, b: seq<Node>)
    requires Increasing(Positions(a)) && Increasing(Positions(b))
    requires multiset(a) == multiset(b)
    ensures a == b
    decreases |a|
  {
    if a == [] {
      assert |multiset(b)| == 0;
    } else {
      LeastInFront(a, b);
      SameTails(a, b);
      TailIncreasing(a);
      TailIncreasing(b);
      SameNodesSameRing(a[1..], b[1..]);
      assert a == [a[0]] + a[1..];
      assert b == [b[0]] + b[1..];
    }
  }

  lemma {:induction false} SameTails<T>(a: seq<T>, b: seq<T>)
    requires a != [] && b != [] && a[0] == b[0]
    requires multiset(a) == multiset(b)
    ensures multiset(a[1..]) == multiset(b[1..])
  {
    assert a == [a[0]] + a[1..];
    assert b == [b[0]] + b[1..];
    assert multiset(a) - multiset{a[0]} == multiset(a[1..]);
    assert multiset(b) - multiset{b[0]} == multiset(b[1..]);
  }

  lemma {:induction false} LeastInFront(a: seq<Node>, b: seq<Node>)
    requires Increasing(Positions(a)) && Increasing(Positions(b))
    requires multiset(a) == multiset(b) && a != []
    ensures b != [] && a[0] == b[0]
  {
    assert a[0] in multiset(b);
    var i :| 0 <= i < |b| && b[i] == a[0];
    assert b[0] in multiset(a);
    var j :| 0 <= j < |a| && a[j] == b[0];
    assert Positions(b)[0] <= Positions(b)[i] && Positions(a)[0] <= Positions(a)[j];
  }

  lemma {:induction false} TailIncreasing(a: seq<Node>)
    requires a != [] && Increasing(Positions(a))
    ensures Increasing(Positions(a[1..]))
  {
    forall i, j | 0 <= i < j < |a| - 1 ensures Positions(a[1..])[i] < Positions(a[1..])[j] {
      assert Positions(a)[i + 1] < Positions(a)[j + 1];
    }
  }

  /** The ring is accepted exactly when no two nodes share a token, and it then
      holds the same nodes in token order. */
  lemma {:induction false} SortedRingSpec(ring: seq<Node>, size: nat)
    requires size > 0
    ensures SortedRing(ring, size).Ok? <==> Distinct(Positions(Reduced(ring, size)))
    ensures SortedRing(ring, size).Ok? ==>
              var pts := SortedRing(ring, size).value;
              && Increasing(Positions(pts)) && OnCircle(Positions(pts), size)
              && multiset(pts) == multiset(Reduced(ring, size))
  {
    var red := Reduced(ring, size);
    var pts := Sort(red);
    SortNonDecreasing(red);
    forall i | 0 <= i < |pts| ensures 0 <= pts[i].pos < size {
      assert pts[i] in multiset(red);
    }
    PositionsMultiset(red, pts);
    if HasRepeat(pts) {
      var i :| 0 <= i < |pts| - 1 && pts[i].pos == pts[i + 1].pos;
      assert Positions(pts)[i] == Positions(pts)[i + 1];
      if Distinct(Positions(red)) { DistinctOfMultiset(Positions(red), Positions(pts)); }
    } else {
      AdjacentIncreasing(pts);
      DistinctOfMultiset(Positions(pts), Positions(red));
    }
  }

  lemma {:induction false} AdjacentIncreasing(pts: seq<Node>)
    requires NonDecreasing(pts) && !HasRepeat(pts)
    ensures Increasing(Positions(pts))
  {
    forall i, j | 0 <= i < j < |pts| ensures Positions(pts)[i] < Positions(pts)[j] {
      assert pts[i].pos != pts[i + 1].pos;
    }
  }

  lemma {:induction false} WithoutOne<T>(s: seq<T>, i: nat)
    requires i < |s|
    ensures multiset(s[..i] + s[i + 1..]) == multiset(s) - multiset{s[i]}
  {
    assert s == s[..i] + [s[i]] + s[i + 1..];
  }

  lemma {:induction false} MapWithoutOne<T, U>(f: T -> U, s: seq<T>, i: nat)
    requires i < |s|
    ensures multiset(Map(f, s)) == multiset(Map(f, s[..i] + s[i + 1..])) + multiset{f(s[i])}
  {
    assert Map(f, s) == Map(f, s)[..i] + [f(s[i])] + Map(f, s)[i + 1..];
    assert Map(f, s[..i] + s[i + 1..]) == Map(f, s)[..i] + Map(f, s)[i + 1..];
  }

  lemma {:induction false} MapMultiset<T, U>(f: T -> U, a: seq<T>, b: seq<T>)
    requires multiset(a) == multiset(b)
    ensures multiset(Map(f, a)) == multiset(Map(f, b))
  {
    if a == [] {
      assert |multiset(b)| == 0;
    } else {
      var i := SameElsewhere(a, b);
      MapMultiset(f, a[..0] + a[1..], b[..i] + b[i + 1..]);
      MapWithoutOne(f, a, 0);
      MapWithoutOne(f, b, i);
    }
  }

  /** Where the first element of one list is in another with the same elements. */
  lemma {:induction false} SameElsewhere<T>(a: seq<T>, b: seq<T>) returns (i: nat)
    requires a != [] && multiset(a) == multiset(b)
    ensures i < |b| && b[i] == a[0] && multiset(a[..0] + a[1..]) == multiset(b[..i] + b[i + 1..])
  {
    assert a[0] in multiset(b);
    i :| 0 <= i < |b| && b[i] == a[0];
    WithoutOne(a, 0);
    WithoutOne(b, i);
  }

  lemma {:induction false} PositionsMultiset(a: seq<Node>, b: seq<Node>)
    requires multiset(a) == multiset(b)
    ensures multiset(Positions(a)) == multiset(Positions(b))
  {
    var f := (n: Node) => n.pos;
    MapMultiset(f, a, b);
    assert Map(f, a) == Positions(a) && Map(f, b) == Positions(b);
  }

  lemma {:induction false} NamesMultiset(a: seq<Node>, b: seq<Node>)
    requires multiset(a) == multiset(b)
    ensures multiset(Names(a)) == multiset(Names(b))
  {
    var f := (n: Node) => n.name;
    MapMultiset(f, a, b);
    assert Map(f, a) == Names(a) && Map(f, b) == Names(b);
  }
}
