/** The order to start the nodes of a new cluster in, so that the token allocator
    accepts each one as it joins. */
module StartOrder {
  import opened Lists
  import opened Ring
  import opened Shares

  /** The allocator's rule: a rack already in the ring is refused while the ring
      has more than one rack but fewer than the hint. */
  predicate Accepted(racks: set<Rack>, rack: Rack, hint: int) {
    rack !in racks || |racks| == 1 || |racks| >= hint
  }

  /** Nodes that join one after the other, by rack, all accepted. */
  ghost predicate Joins(racks: set<Rack>, order: seq<Rack>, hint: int)
    decreases |order|
  {
    order == [] || (Accepted(racks, order[0], hint) && Joins(racks + {order[0]}, order[1..], hint))
  }

  /** The nodes left can all join, in some order. */
  ghost predicate CanAll(racks: set<Rack>, remaining: multiset<Rack>, hint: int) {
    exists order: seq<Rack> :: multiset(order) == remaining && Joins(racks, order, hint)
  }

  function New(racks: set<Rack>, remaining: seq<Rack>): set<Rack> {
    set r | r in remaining && r !in racks
  }

  function Old(racks: set<Rack>, remaining: seq<Rack>): nat {
    if remaining == [] then 0
    else Old(racks, remaining[..|remaining| - 1]) + if remaining[|remaining| - 1] in racks then 1 else 0
  }

  /** Nodes of new racks beyond the first of each. */
  function Extra(racks: set<Rack>, remaining: seq<Rack>): int {
    |remaining| - Old(racks, remaining) - |New(racks, remaining)|
  }

  /** The planner's closed form of CanAll. */
  predicate Feasible(racks: set<Rack>, remaining: seq<Rack>, hint: int) {
    || hint <= 1 || |racks| >= hint
    || |racks| + |New(racks, remaining)| >= hint
    || (Extra(racks, remaining) == 0 && (|racks| == 1 || Old(racks, remaining) == 0))
  }

  // ----- counting in a loop -----

  /** The sum of the counts minus one, over some racks. */
  function Surplus(keys: seq<Rack>, count: map<Rack, nat>): int
    requires forall k :: k in keys ==> k in count
  {
    if keys == [] then 0 else Surplus(keys[..|keys| - 1], count) + count[keys[|keys| - 1]] - 1
  }

  lemma {:induction false} SurplusSame(keys: seq<Rack>, count: map<Rack, nat>, count': map<Rack, nat>)
    requires forall k :: k in keys ==> k in count && k in count' && count[k] == count'[k]
    ensures Surplus(keys, count) == Surplus(keys, count')
  {
    if keys != [] { SurplusSame(keys[..|keys| - 1], count, count'); }
  }

  lemma {:induction false} SurplusMore(keys: seq<Rack>, count: map<Rack, nat>, rack: Rack)
    requires Distinct(keys) && rack in keys && forall k :: k in keys ==> k in count
    ensures Surplus(keys, count[rack := count[rack] + 1]) == Surplus(keys, count) + 1
  {
    var init, last := keys[..|keys| - 1], keys[|keys| - 1];
    if last == rack {
      assert rack !in init;
      SurplusSame(init, count, count[rack := count[rack] + 1]);
    } else {
      SurplusMore(init, count, rack);
    }
  }

  /** The counts of the first nodes. */
  ghost predicate Counted(old': nat, keys: seq<Rack>, count: map<Rack, nat>, racks: set<Rack>, seen: seq<Rack>) {
    && old' == Old(racks, seen) && Distinct(keys)
    && SetOf(keys) == New(racks, seen) && count.Keys == New(racks, seen)
    && (forall k :: k in keys ==> k in count)
    && Surplus(keys, count) + |keys| == |seen| - old'
  }

  lemma {:induction false} CountedOld(old': nat, keys: seq<Rack>, count: map<Rack, nat>, racks: set<Rack>,
        seen: seq<Rack>, rack: Rack)
    requires Counted(old', keys, count, racks, seen) && rack in racks
    ensures Counted(old' + 1, keys, count, racks, seen + [rack])
  {
    assert (seen + [rack])[..|seen|] == seen;
    assert New(racks, seen + [rack]) == New(racks, seen);
  }

  lemma {:induction false} CountedAgain(old': nat, keys: seq<Rack>, count: map<Rack, nat>, racks: set<Rack>,
        seen: seq<Rack>, rack: Rack)
    requires Counted(old', keys, count, racks, seen) && rack !in racks && rack in count
    ensures Counted(old', keys, count[rack := count[rack] + 1], racks, seen + [rack])
  {
    assert (seen + [rack])[..|seen|] == seen;
    assert New(racks, seen + [rack]) == New(racks, seen) + {rack};
    assert rack in SetOf(keys);
    SurplusMore(keys, count, rack);
  }

  lemma {:induction false} CountedNew(old': nat, keys: seq<Rack>, count: map<Rack, nat>, racks: set<Rack>,
        seen: seq<Rack>, rack: Rack)
    requires Counted(old', keys, count, racks, seen) && rack !in racks && rack !in count
    ensures Counted(old', keys + [rack], count[rack := 1], racks, seen + [rack])
  {
    assert (seen + [rack])[..|seen|] == seen;
    assert New(racks, seen + [rack]) == New(racks, seen) + {rack};
    assert rack !in SetOf(keys);
    assert (keys + [rack])[..|keys|] == keys;
    SurplusSame(keys, count, count[rack := 1]);
    assert SetOf(keys + [rack]) == SetOf(keys) + {rack};
  }

  lemma {:induction false} CountedExtra(old': nat, keys: seq<Rack>, count: map<Rack, nat>, racks: set<Rack>,
        remaining: seq<Rack>)
    requires Counted(old', keys, count, racks, remaining)
    ensures old' == Old(racks, remaining) && |count| == |New(racks, remaining)| &&
        Surplus(keys, count) == Extra(racks, remaining)
  {
    DistinctSize(keys);
    assert |count| == |count.Keys|;
  }

  method CountOne(racks: set<Rack>, ghost seen: seq<Rack>, rack: Rack, joined: nat, keys: seq<Rack>,
        count: map<Rack, nat>)
    returns (joined': nat, keys': seq<Rack>, count': map<Rack, nat>)
    requires Counted(joined, keys, count, racks, seen)
    ensures Counted(joined', keys', count', racks, seen + [rack])
  {
    joined', keys', count' := joined, keys, count;
    if rack in racks {
      CountedOld(joined, keys, count, racks, seen, rack);
      joined' := joined + 1;
    } else if rack in count {
      CountedAgain(joined, keys, count, racks, seen, rack);
      count' := count[rack := count[rack] + 1];
    } else {
      CountedNew(joined, keys, count, racks, seen, rack);
      keys', count' := keys + [rack], count[rack := 1];
    }
  }

  method CountRacks(racks: set<Rack>, remaining: seq<Rack>)
      returns (joined: nat, keys: seq<Rack>, count: map<Rack, nat>)
    ensures Counted(joined, keys, count, racks, remaining)
  {
    joined, keys, count := 0, [], map[];
    assert New(racks, []) == {};
    var i := 0;
    while i < |remaining|
      invariant 0 <= i <= |remaining| && Counted(joined, keys, count, racks, remaining[..i])
    {
      assert remaining[..i + 1] == remaining[..i] + [remaining[i]];
      joined, keys, count := CountOne(racks, remaining[..i], remaining[i], joined, keys, count);
      i := i + 1;
    }
    assert remaining[..i] == remaining;
  }

  /** Whether the nodes left of a datacenter can all still join, from per-rack counts. */
  method TestFeasible(racks: set<Rack>, remaining: seq<Rack>, hint: int) returns (feasible: bool)
    ensures feasible <==> Feasible(racks, remaining, hint)
  {
    if hint <= 1 || |racks| >= hint { return true; }
    var joined, keys, count := CountRacks(racks, remaining);
    CountedExtra(joined, keys, count, racks, remaining);
    if |racks| + |count| >= hint { return true; }
    var extra := SumSurplus(keys, count);
    return extra == 0 && (|racks| == 1 || joined == 0);
  }

  method SumSurplus(keys: seq<Rack>, count: map<Rack, nat>) returns (extra: int)
    requires forall k :: k in keys ==> k in count
    ensures extra == Surplus(keys, count)
  {
    extra := 0;
    var i := 0;
    while i < |keys|
      invariant 0 <= i <= |keys| && extra == Surplus(keys[..i], count)
    {
      assert keys[..i + 1][..i] == keys[..i];
      extra := extra + count[keys[i]] - 1;
      i := i + 1;
    }
    assert keys[..i] == keys;
  }

  // ----- the closed form is exact -----

  lemma {:induction false} JoinsFirst(racks: set<Rack>, x: Rack, rest: seq<Rack>, hint: int)
    ensures Joins(racks, [x] + rest, hint) <==> Accepted(racks, x, hint) && Joins(racks + {x}, rest, hint)
  {
    assert ([x] + rest)[1..] == rest;
  }

  lemma {:induction false} JoinsAppend(racks: set<Rack>, a: seq<Rack>, b: seq<Rack>, hint: int)
    requires Joins(racks, a, hint) && Joins(racks + SetOf(a), b, hint)
    ensures Joins(racks, a + b, hint)
    decreases |a|
  {
    if a == [] {
      assert a + b == b && racks + SetOf(a) == racks;
    } else {
      FirstAside(racks, a);
      FirstOfBoth(a, b);
      JoinsAppend(racks + {a[0]}, a[1..], b, hint);
    }
  }

  lemma {:induction false} FirstOfBoth(a: seq<Rack>, b: seq<Rack>)
    requires a != []
    ensures (a + b)[0] == a[0] && (a + b)[1..] == a[1..] + b
  {
  }

  lemma {:induction false} FirstAside(racks: set<Rack>, a: seq<Rack>)
    requires a != []
    ensures racks + SetOf(a) == racks + {a[0]} + SetOf(a[1..])
  {
    assert a == [a[0]] + a[1..];
  }

  /** Once the ring has enough racks, every order is accepted. */
  lemma {:induction false} AnyOrder(racks: set<Rack>, order: seq<Rack>, hint: int)
    requires |racks| >= hint
    ensures Joins(racks, order, hint)
    decreases |order|
  {
    if order != [] {
      assert order[0] !in racks ==> |racks + {order[0]}| == |racks| + 1;
      assert order[0] in racks ==> racks + {order[0]} == racks;
      AnyOrder(racks + {order[0]}, order[1..], hint);
    }
  }

  /** The first node of each new rack, in order. */
  function Firsts(racks: set<Rack>, s: seq<Rack>): seq<Rack>
    decreases |s|
  {
    if s == [] then [] else if s[0] in racks then Firsts(racks, s[1..]) else [s[0]] + Firsts(racks + {s[0]}, s[1..])
  }

  /** The other nodes. */
  function Rest(racks: set<Rack>, s: seq<Rack>): seq<Rack>
    decreases |s|
  {
    if s == [] then [] else if s[0] in racks then [s[0]] + Rest(racks, s[1..]) else Rest(racks + {s[0]}, s[1..])
  }

  lemma {:induction false} FirstsAndRest(racks: set<Rack>, s: seq<Rack>)
    ensures multiset(Firsts(racks, s)) + multiset(Rest(racks, s)) == multiset(s)
    decreases |s|
  {
    if s != [] {
      FirstsAndRest(if s[0] in racks then racks else racks + {s[0]}, s[1..]);
      assert s == [s[0]] + s[1..];
    }
  }

  lemma {:induction false} FirstsAreNew(racks: set<Rack>, s: seq<Rack>)
    ensures SetOf(Firsts(racks, s)) == New(racks, s) && |Firsts(racks, s)| == |New(racks, s)|
    decreases |s|
  {
    if s != [] {
      var x, rest := s[0], s[1..];
      if x in racks {
        FirstsAreNew(racks, rest);
        assert New(racks, s) == New(racks, rest);
      } else {
        FirstsAreNew(racks + {x}, rest);
        assert New(racks, s) == New(racks + {x}, rest) + {x};
        assert SetOf(Firsts(racks, s)) == {x} + SetOf(Firsts(racks + {x}, rest));
      }
    }
  }

  /** The first nodes of new racks are always accepted. */
  lemma {:induction false} FirstsJoin(racks: set<Rack>, s: seq<Rack>, hint: int)
    ensures Joins(racks, Firsts(racks, s), hint)
    decreases |s|
  {
    if s != [] {
      FirstsJoin(if s[0] in racks then racks else racks + {s[0]}, s[1..], hint);
    }
  }

  lemma {:induction false} OldPrepend(racks: set<Rack>, x: Rack, s: seq<Rack>)
    ensures Old(racks, [x] + s) == Old(racks, s) + if x in racks then 1 else 0
  {
    if s == [] {
      assert ([x] + s)[..0] == [];
    } else {
      OldPrepend(racks, x, s[..|s| - 1]);
      assert ([x] + s)[..|s|] == [x] + s[..|s| - 1];
    }
  }

  /** No new rack twice and no old one left out: what is left after the firsts is of old racks. */
  lemma {:induction false} RestIsOld(racks: set<Rack>, s: seq<Rack>, k: nat)
    requires |Rest(racks, s)| == k
    ensures k >= Old(racks, s)
    ensures k == Old(racks, s) ==> forall r :: r in Rest(racks, s) ==> r in racks
    decreases |s|
  {
    if s != [] {
      assert s == [s[0]] + s[1..];
      OldPrepend(racks, s[0], s[1..]);
      if s[0] in racks {
        RestIsOld(racks, s[1..], k - 1);
      } else {
        RestIsOld(racks + {s[0]}, s[1..], k);
        OldGrows(racks, s[0], s[1..]);
        RestIsIn(racks + {s[0]}, s[1..]);
      }
    }
  }

  lemma {:induction false} RestIsIn(racks: set<Rack>, s: seq<Rack>)
    ensures forall r :: r in Rest(racks, s) ==> r in s
  {
    FirstsAndRest(racks, s);
    forall r | r in Rest(racks, s) ensures r in s { assert r in multiset(s); }
  }

  lemma {:induction false} OldGrows(racks: set<Rack>, x: Rack, s: seq<Rack>)
    requires x !in racks
    ensures Old(racks + {x}, s) >= Old(racks, s)
    ensures Old(racks + {x}, s) == Old(racks, s) <==> x !in s
  {
    if s != [] {
      OldGrows(racks, x, s[..|s| - 1]);
      assert s == s[..|s| - 1] + [s[|s| - 1]];
    }
  }

  lemma {:induction false} OldJoin(racks: set<Rack>, order: seq<Rack>, hint: int)
    requires |racks| == 1 && forall r :: r in order ==> r in racks
    ensures Joins(racks, order, hint) && racks + SetOf(order) == racks
    decreases |order|
  {
    if order != [] {
      assert racks + {order[0]} == racks;
      OldJoin(racks, order[1..], hint);
    }
  }

  lemma {:induction false} FeasibleOrder(racks: set<Rack>, remaining: seq<Rack>, hint: int)
    requires racks != {} && Feasible(racks, remaining, hint)
    ensures CanAll(racks, multiset(remaining), hint)
  {
    FirstsAndRest(racks, remaining);
    if hint <= 1 || |racks| >= hint {
      AnyOrder(racks, remaining, hint);
    } else if |racks| + |New(racks, remaining)| >= hint {
      NewFirst(racks, remaining, hint);
      assert multiset(Firsts(racks, remaining) + Rest(racks, remaining)) == multiset(remaining);
    } else {
      OldFirst(racks, remaining, hint);
      assert multiset(Rest(racks, remaining) + Firsts(racks, remaining)) == multiset(remaining);
    }
  }

  lemma {:induction false} NewFirst(racks: set<Rack>, remaining: seq<Rack>, hint: int)
    requires |racks| + |New(racks, remaining)| >= hint
    ensures Joins(racks, Firsts(racks, remaining) + Rest(racks, remaining), hint)
  {
    var firsts, rest := Firsts(racks, remaining), Rest(racks, remaining);
    FirstsAndRest(racks, remaining);
    FirstsAreNew(racks, remaining);
    FirstsJoin(racks, remaining, hint);
    assert |racks + SetOf(firsts)| == |racks| + |New(racks, remaining)|;
    AnyOrder(racks + SetOf(firsts), rest, hint);
    JoinsAppend(racks, firsts, rest, hint);
  }

  lemma {:induction false} OldFirst(racks: set<Rack>, remaining: seq<Rack>, hint: int)
    requires Extra(racks, remaining) == 0 && (|racks| == 1 || Old(racks, remaining) == 0)
    ensures Joins(racks, Rest(racks, remaining) + Firsts(racks, remaining), hint)
  {
    var firsts, rest := Firsts(racks, remaining), Rest(racks, remaining);
    FirstsAndRest(racks, remaining);
    FirstsAreNew(racks, remaining);
    FirstsJoin(racks, remaining, hint);
    assert |multiset(firsts)| + |multiset(rest)| == |multiset(remaining)|;
    RestIsOld(racks, remaining, |rest|);
    if |racks| == 1 {
      OldJoin(racks, rest, hint);
    } else {
      assert rest == [];
      assert racks + SetOf(rest) == racks;
    }
    JoinsAppend(racks, rest, firsts, hint);
  }

  /** What the ring's racks and the nodes left come to when the hint is never reached. */
  ghost predicate Sparse(racks: set<Rack>, order: seq<Rack>) {
    && |order| - Old(racks, order) == |New(racks, order)|
    && (|racks| == 1 || Old(racks, order) == 0)
  }

  lemma {:induction false} SparseOld(racks: set<Rack>, r: Rack, rest: seq<Rack>)
    requires r in racks && |racks| == 1 && Sparse(racks, rest)
    ensures Sparse(racks, [r] + rest)
  {
    OldPrepend(racks, r, rest);
    assert New(racks, [r] + rest) == New(racks, rest);
  }

  lemma {:induction false} SparseNew(racks: set<Rack>, r: Rack, rest: seq<Rack>)
    requires racks != {} && r !in racks && Sparse(racks + {r}, rest)
    ensures Sparse(racks, [r] + rest)
  {
    OldPrepend(racks, r, rest);
    OldGrows(racks, r, rest);
    assert |racks + {r}| == |racks| + 1;
    assert New(racks, [r] + rest) == New(racks + {r}, rest) + {r};
  }

  /** While the hint is never reached, only the nodes of the ring's one rack can
      join beside one node of each new rack. */
  lemma {:induction false} NeverReached(racks: set<Rack>, order: seq<Rack>, hint: int)
    requires racks != {} && Joins(racks, order, hint) && |racks + SetOf(order)| < hint
    ensures Sparse(racks, order)
    decreases |order|
  {
    if order == [] {
      assert New(racks, order) == {};
    } else {
      var r, rest := order[0], order[1..];
      assert order == [r] + rest;
      FirstAside(racks, order);
      Smaller(racks, racks + SetOf(order));
      JoinsFirst(racks, r, rest, hint);
      NeverReached(racks + {r}, rest, hint);
      if r in racks {
        assert racks + {r} == racks;
        SparseOld(racks, r, rest);
      } else {
        SparseNew(racks, r, rest);
      }
    }
  }

  lemma {:induction false} Smaller(a: set<Rack>, b: set<Rack>)
    requires a <= b
    ensures |a| <= |b|
  {
    assert b == a + (b - a);
  }

  lemma {:induction false} OldOfMultiset(racks: set<Rack>, a: seq<Rack>, b: seq<Rack>)
    requires multiset(a) == multiset(b)
    ensures Old(racks, a) == Old(racks, b) && New(racks, a) == New(racks, b) && |a| == |b|
    decreases |a|
  {
    assert |multiset(a)| == |a| && |multiset(b)| == |b|;
    if a != [] {
      assert a[0] in multiset(b);
      var i :| 0 <= i < |b| && b[i] == a[0];
      var b' := b[..i] + b[i + 1..];
      WithoutOne(b, i);
      assert a == [a[0]] + a[1..];
      OldOfMultiset(racks, a[1..], b');
      OldPrepend(racks, a[0], a[1..]);
      OldWithout(racks, b, i);
    }
    forall r ensures r in a <==> r in b { assert r in a <==> r in multiset(a); assert r in b <==> r in multiset(b); }
  }

  lemma {:induction false} OldWithout(racks: set<Rack>, b: seq<Rack>, i: nat)
    requires i < |b|
    ensures Old(racks, b) == Old(racks, b[..i] + b[i + 1..]) + if b[i] in racks then 1 else 0
    decreases |b|
  {
    var last := |b| - 1;
    if i == last {
      assert b[..i] + b[i + 1..] == b[..last];
    } else {
      OldWithout(racks, b[..last], i);
      assert (b[..i] + b[i + 1..])[..last - 1] == b[..last][..i] + b[..last][i + 1..];
    }
  }

  /** The look-ahead is exact: on a ring with a rack, it passes exactly when the
      nodes left can all join in some order. */
  lemma {:induction false} FeasibleIsExact(racks: set<Rack>, remaining: seq<Rack>, hint: int)
    requires racks != {}
    ensures Feasible(racks, remaining, hint) <==> CanAll(racks, multiset(remaining), hint)
  {
    if Feasible(racks, remaining, hint) {
      FeasibleOrder(racks, remaining, hint);
    } else if CanAll(racks, multiset(remaining), hint) {
      var order: seq<Rack> :| multiset(order) == multiset(remaining) && Joins(racks, order, hint);
      OldOfMultiset(racks, order, remaining);
      assert racks + SetOf(order) == racks + New(racks, order);
      NeverReached(racks, order, hint);
    }
  }

  /** On an empty ring it is not: two nodes of one rack can both join, and the look-ahead says no. */
  lemma {:induction false} EmptyRingDiffers()
    ensures !Feasible({}, [0, 0], 3) && CanAll({}, multiset([0, 0]), 3)
  {
    assert New({}, [0, 0]) == {0};
    assert [0, 0][..1] == [0] && [0][..0] == [];
    assert Old({}, []) == 0 && Old({}, [0]) == 0 && Old({}, [0, 0]) == 0;
    assert [0, 0][1..] == [0] && [0][1..] == [];
    assert {} + {0} == {0} && {0} + {0} == {0};
    assert Joins({0}, [0], 3);
    assert Joins({}, [0, 0], 3);
  }

  /** All but the one at place i. */
  function Without<T>(s: seq<T>, i: nat): (r: seq<T>)
    requires i < |s|
    ensures |r| == |s| - 1
  {
    s[..i] + s[i + 1..]
  }

  /** Only the rack of node i has more nodes than one. */
  predicate AloneCrowded(s: seq<Rack>, i: nat)
    requires i < |s|
  {
    Extra({s[i]}, Without(s, i)) == 0
  }

  /** What the look-ahead misses on an empty ring, exactly: nodes that can all join
      because one rack alone has several, its nodes first. */
  lemma {:induction false} EmptyRingExact(remaining: seq<Rack>, hint: int)
    ensures CanAll({}, multiset(remaining), hint) <==>
            Feasible({}, remaining, hint) || exists i :: 0 <= i < |remaining| && AloneCrowded(remaining, i)
  {
    assert Old({}, remaining) == 0 by { NoneOld(remaining); }
    if remaining == [] {
      assert Joins({}, [], hint);
      assert New({}, []) == {};
    } else {
      forall i | 0 <= i < |remaining|
        ensures CanAll({remaining[i]}, multiset(Without(remaining, i)), hint) <==>
                hint <= 1 || |New({}, remaining)| >= hint || AloneCrowded(remaining, i)
      {
        assert New({}, remaining) ==
            New({remaining[i]}, Without(remaining, i)) + {remaining[i]} by { WithoutNew(remaining, i); }
        FeasibleIsExact({remaining[i]}, Without(remaining, i), hint);
      }
      EmptyRingStarts(remaining, hint);
      if Feasible({}, remaining, hint) && !(hint <= 1 || |New({}, remaining)| >= hint) { NoneCrowded(remaining); }
    }
  }

  lemma {:induction false} NoneOld(s: seq<Rack>)
    ensures Old({}, s) == 0
  {
    if s != [] { NoneOld(s[..|s| - 1]); }
  }

  lemma {:induction false} WithoutNew(s: seq<Rack>, i: nat)
    requires i < |s|
    ensures New({}, s) == New({s[i]}, Without(s, i)) + {s[i]}
  {
    assert s == s[..i] + [s[i]] + s[i + 1..];
    forall r ensures r in s <==> r == s[i] || r in Without(s, i) { }
  }

  /** With no rack twice, none is crowded. */
  lemma {:induction false} NoneCrowded(s: seq<Rack>)
    requires s != [] && Extra({}, s) == 0
    ensures AloneCrowded(s, 0)
  {
    NoneOld(s);
    WithoutNew(s, 0);
    assert |New({}, s)| == |New({s[0]}, Without(s, 0))| + 1;
    NoLessThanNew({s[0]}, Without(s, 0));
  }

  lemma {:induction false} NoLessThanNew(racks: set<Rack>, s: seq<Rack>)
    ensures Extra(racks, s) >= 0
  {
    FirstsAndRest(racks, s);
    FirstsAreNew(racks, s);
    assert |multiset(Firsts(racks, s))| + |multiset(Rest(racks, s))| == |multiset(s)|;
    RestIsOld(racks, s, |Rest(racks, s)|);
  }

  lemma {:induction false} TakeFirst(order: seq<Rack>, all: seq<Rack>)
    requires all != [] && multiset(order) == multiset(all)
    ensures order != [] && order[0] in all && multiset(order[1..]) == multiset(all) - multiset{order[0]}
  {
    assert all[0] in multiset(order);
    assert order[0] in multiset(all);
    assert order == [order[0]] + order[1..];
  }

  /** Of nodes that can all join, one can join first. */
  lemma {:induction false} OneCanBeFirst(racks: set<Rack>, all: seq<Rack>, hint: int) returns (rack: Rack)
    requires all != [] && CanAll(racks, multiset(all), hint)
    ensures rack in all && Accepted(racks, rack, hint) && CanAll(racks + {rack}, multiset(all) - multiset{rack}, hint)
  {
    var order: seq<Rack> :| multiset(order) == multiset(all) && Joins(racks, order, hint);
    TakeFirst(order, all);
    rack := order[0];
    assert Joins(racks + {rack}, order[1..], hint);
  }

  lemma {:induction false} PutFirst(remaining: seq<Rack>, i: nat, rest: seq<Rack>)
    requires i < |remaining| && multiset(rest) == multiset(Without(remaining, i))
    ensures multiset([remaining[i]] + rest) == multiset(remaining)
  {
    WithoutOne(remaining, i);
  }

  lemma {:induction false} CanStart(racks: set<Rack>, remaining: seq<Rack>, i: nat, hint: int)
    requires i < |remaining| && Accepted(racks, remaining[i], hint)
    requires CanAll(racks + {remaining[i]}, multiset(Without(remaining, i)), hint)
    ensures CanAll(racks, multiset(remaining), hint)
  {
    var rest: seq<Rack> :| multiset(rest) == multiset(Without(remaining, i)) &&
        Joins(racks + {remaining[i]}, rest, hint);
    PutFirst(remaining, i, rest);
    JoinsFirst(racks, remaining[i], rest, hint);
  }

  lemma {:induction false} EmptyRingStarts(remaining: seq<Rack>, hint: int)
    requires remaining != []
    ensures CanAll({}, multiset(remaining), hint) <==>
            exists i :: 0 <= i < |remaining| && CanAll({remaining[i]}, multiset(Without(remaining, i)), hint)
  {
    if CanAll({}, multiset(remaining), hint) { var i := SomeoneStarts(remaining, hint); }
    forall i | 0 <= i < |remaining| && CanAll({remaining[i]}, multiset(Without(remaining, i)), hint)
      ensures CanAll({}, multiset(remaining), hint)
    {
      assert {} + {remaining[i]} == {remaining[i]};
      CanStart({}, remaining, i, hint);
    }
  }

  lemma {:induction false} SomeoneStarts(remaining: seq<Rack>, hint: int) returns (i: nat)
    requires remaining != [] && CanAll({}, multiset(remaining), hint)
    ensures i < |remaining| && CanAll({remaining[i]}, multiset(Without(remaining, i)), hint)
  {
    var rack := OneCanBeFirst({}, remaining, hint);
    i :| 0 <= i < |remaining| && remaining[i] == rack;
    WithoutOne(remaining, i);
    assert {} + {rack} == {remaining[i]};
  }

  // ----- the scheduler -----

  /** A datacenter's name, as its rank. */
  type Dc = nat

  datatype Host = Host(name: Name, dc: Dc, rack: Rack, seed: bool, running: bool)

  /** The racks each datacenter's ring has. */
  type Rings = map<Dc, set<Rack>>

  function RingOf(rings: Rings, dc: Dc): set<Rack> {
    if dc in rings then rings[dc] else {}
  }

  function Join(rings: Rings, host: Host): Rings {
    rings[host.dc := RingOf(rings, host.dc) + {host.rack}]
  }

  /** Every node of an order is accepted when it joins. */
  ghost predicate AllJoin(rings: Rings, order: seq<Host>, hint: int)
    decreases |order|
  {
    order == [] ||
    (Accepted(RingOf(rings, order[0].dc), order[0].rack, hint) && AllJoin(Join(rings, order[0]), order[1..], hint))
  }

  function RacksIn(hosts: seq<Host>, dc: Dc): seq<Rack> {
    if hosts == [] then []
    else RacksIn(hosts[..|hosts| - 1], dc) + if hosts[|hosts| - 1].dc == dc then [hosts[|hosts| - 1].rack] else []
  }

  /** Accepted now, and the others of its datacenter can still all join after it. */
  predicate Good(rings: Rings, left: seq<Host>, i: nat, hint: int)
    requires i < |left|
  {
    var racks := RingOf(rings, left[i].dc);
    && Accepted(racks, left[i].rack, hint)
    && Feasible(racks + {left[i].rack}, RacksIn(Without(left, i), left[i].dc), hint)
  }

  /** The first good node from number i on. */
  function FirstGood(rings: Rings, left: seq<Host>, i: nat, hint: int): (r: nat)
    requires i <= |left|
    ensures i <= r <= |left|
    ensures r < |left| ==> Good(rings, left, r, hint)
    ensures forall k :: i <= k < r ==> !Good(rings, left, k, hint)
    decreases |left| - i
  {
    if i == |left| || Good(rings, left, i, hint) then i else FirstGood(rings, left, i + 1, hint)
  }

  function FirstAccepted(rings: Rings, left: seq<Host>, i: nat, hint: int): (r: nat)
    requires i <= |left|
    ensures i <= r <= |left|
    ensures r < |left| ==> Accepted(RingOf(rings, left[r].dc), left[r].rack, hint)
    ensures forall k :: i <= k < r ==> !Accepted(RingOf(rings, left[k].dc), left[k].rack, hint)
    decreases |left| - i
  {
    if i == |left| || Accepted(RingOf(rings, left[i].dc), left[i].rack, hint) then i
        else FirstAccepted(rings, left, i + 1, hint)
  }

  /** The node to start next: the first good one, else the first accepted one, else the first one. */
  function Pick(rings: Rings, left: seq<Host>, hint: int): (i: nat)
    requires left != []
    ensures i < |left|
  {
    var good, accepted := FirstGood(rings, left, 0, hint), FirstAccepted(rings, left, 0, hint);
    if good < |left| then good else if accepted < |left| then accepted else 0
  }

  function Greedy(rings: Rings, left: seq<Host>, hint: int): seq<Host>
    decreases |left|
  {
    if left == [] then []
    else
      var i := Pick(rings, left, hint);
      [left[i]] + Greedy(Join(rings, left[i]), Without(left, i), hint)
  }

  // ----- datacenter by datacenter -----

  lemma {:induction false} RacksInConcat(a: seq<Host>, b: seq<Host>, dc: Dc)
    ensures RacksIn(a + b, dc) == RacksIn(a, dc) + RacksIn(b, dc)
    decreases |b|
  {
    if b == [] {
      assert a + b == a;
    } else {
      RacksInConcat(a, b[..|b| - 1], dc);
      assert (a + b)[..|a + b| - 1] == a + b[..|b| - 1];
    }
  }

  function RackIf(h: Host, dc: Dc): seq<Rack> {
    if h.dc == dc then [h.rack] else []
  }

  lemma {:induction false} RacksInPrepend(h: Host, hosts: seq<Host>, dc: Dc)
    ensures RacksIn([h] + hosts, dc) == RackIf(h, dc) + RacksIn(hosts, dc)
  {
    RacksInConcat([h], hosts, dc);
    assert [h][..0] == [];
  }

  lemma {:induction false} RacksInWithout(hosts: seq<Host>, i: nat, dc: Dc)
    requires i < |hosts|
    ensures multiset(RacksIn(hosts, dc)) == multiset(RacksIn(Without(hosts, i), dc)) + multiset(RackIf(hosts[i], dc))
  {
    var front, h, back := hosts[..i], hosts[i], hosts[i + 1..];
    assert hosts == front + ([h] + back);
    RacksInConcat(front, [h] + back, dc);
    RacksInPrepend(h, back, dc);
    RacksInConcat(front, back, dc);
  }

  lemma {:induction false} RacksInSame(a: seq<Host>, b: seq<Host>, dc: Dc)
    requires multiset(a) == multiset(b)
    ensures multiset(RacksIn(a, dc)) == multiset(RacksIn(b, dc))
    decreases |a|
  {
    assert |multiset(a)| == |a| && |multiset(b)| == |b|;
    if a != [] {
      assert a[0] in multiset(b);
      var i :| 0 <= i < |b| && b[i] == a[0];
      WithoutOne(b, i);
      assert a == [a[0]] + a[1..];
      RacksInSame(a[1..], Without(b, i), dc);
      RacksInWithout(b, i, dc);
      RacksInPrepend(a[0], a[1..], dc);
    }
  }

  /** An accepted order is, for each datacenter, an accepted order of its racks. */
  lemma {:induction false} AllJoinByDc(rings: Rings, order: seq<Host>, hint: int, dc: Dc)
    requires AllJoin(rings, order, hint)
    ensures Joins(RingOf(rings, dc), RacksIn(order, dc), hint)
    decreases |order|
  {
    if order != [] {
      var rest := RacksIn(order[1..], dc);
      AllJoinByDc(Join(rings, order[0]), order[1..], hint, dc);
      assert order == [order[0]] + order[1..];
      RacksInPrepend(order[0], order[1..], dc);
      if order[0].dc == dc {
        assert ([order[0].rack] + rest)[1..] == rest;
      } else {
        assert [] + rest == rest;
      }
    }
  }

  /** Every datacenter's nodes left can all still join. */
  ghost predicate EveryDcCan(rings: Rings, left: seq<Host>, hint: int) {
    forall dc :: DcCan(rings, left, hint, dc)
  }

  ghost predicate DcCan(rings: Rings, left: seq<Host>, hint: int, dc: Dc) {
    CanAll(RingOf(rings, dc), multiset(RacksIn(left, dc)), hint)
  }

  lemma {:induction false} HasRack(hosts: seq<Host>, dc: Dc, rack: Rack) returns (i: nat)
    requires rack in RacksIn(hosts, dc)
    ensures i < |hosts| && hosts[i].dc == dc && hosts[i].rack == rack
  {
    var last := |hosts| - 1;
    if hosts[last].dc == dc && hosts[last].rack == rack { i := last; } else { i := HasRack(hosts[..last], dc, rack); }
  }

  /** A node is good exactly when it is accepted and its datacenter can still go on after it. */
  lemma {:induction false} GoodMeans(rings: Rings, left: seq<Host>, i: nat, hint: int)
    requires i < |left|
    ensures Good(rings, left, i, hint) <==>
            Accepted(RingOf(rings, left[i].dc), left[i].rack, hint)
            && DcCan(Join(rings, left[i]), Without(left, i), hint, left[i].dc)
  {
    var racks := RingOf(rings, left[i].dc) + {left[i].rack};
    assert left[i].rack in racks;
    FeasibleIsExact(racks, RacksIn(Without(left, i), left[i].dc), hint);
  }

  /** While every datacenter can go on, some node is good. */
  lemma {:induction false} SomeoneIsGood(rings: Rings, left: seq<Host>, hint: int)
    requires left != [] && EveryDcCan(rings, left, hint)
    ensures exists i :: 0 <= i < |left| && Good(rings, left, i, hint)
  {
    var dc := left[0].dc;
    RacksInWithout(left, 0, dc);
    assert left[0].rack in multiset(RacksIn(left, dc));
    assert DcCan(rings, left, hint, dc);
    var rack := OneCanBeFirst(RingOf(rings, dc), RacksIn(left, dc), hint);
    var i := HasRack(left, dc, rack);
    FirstIsGood(rings, left, i, hint);
  }

  lemma {:induction false} FirstIsGood(rings: Rings, left: seq<Host>, i: nat, hint: int)
    requires i < |left|
    requires var h := left[i];
             && Accepted(RingOf(rings, h.dc), h.rack, hint)
             && CanAll(RingOf(rings, h.dc) + {h.rack}, multiset(RacksIn(left, h.dc)) - multiset{h.rack}, hint)
    ensures Good(rings, left, i, hint)
  {
    var h := left[i];
    RacksInWithout(left, i, h.dc);
    assert multiset(RacksIn(Without(left, i), h.dc)) == multiset(RacksIn(left, h.dc)) - multiset{h.rack};
    GoodMeans(rings, left, i, hint);
  }

  /** After a good node every datacenter can still go on. */
  lemma {:induction false} GoodKeeps(rings: Rings, left: seq<Host>, i: nat, hint: int)
    requires i < |left| && EveryDcCan(rings, left, hint) && Good(rings, left, i, hint)
    ensures EveryDcCan(Join(rings, left[i]), Without(left, i), hint)
  {
    GoodMeans(rings, left, i, hint);
    forall dc ensures DcCan(Join(rings, left[i]), Without(left, i), hint, dc) {
      if dc != left[i].dc {
        assert DcCan(rings, left, hint, dc);
        RacksInWithout(left, i, dc);
      }
    }
  }

  lemma {:induction false} GreedyJoins(rings: Rings, left: seq<Host>, hint: int)
    requires EveryDcCan(rings, left, hint)
    ensures AllJoin(rings, Greedy(rings, left, hint), hint)
    decreases |left|
  {
    if left != [] {
      SomeoneIsGood(rings, left, hint);
      var i := Pick(rings, left, hint);
      GoodKeeps(rings, left, i, hint);
      GreedyJoins(Join(rings, left[i]), Without(left, i), hint);
    }
  }

  lemma {:induction false} GreedyPermutes(rings: Rings, left: seq<Host>, hint: int)
    ensures multiset(Greedy(rings, left, hint)) == multiset(left)
    decreases |left|
  {
    if left != [] {
      var i := Pick(rings, left, hint);
      GreedyPermutes(Join(rings, left[i]), Without(left, i), hint);
      WithoutOne(left, i);
    }
  }

  /** Complete: when the nodes can all be accepted in any order at all, each is
      accepted in the order returned, and the other way round. */
  lemma {:induction false} GreedyIsComplete(rings: Rings, left: seq<Host>, hint: int)
    ensures AllJoin(rings, Greedy(rings, left, hint), hint) <==>
            exists order: seq<Host> :: multiset(order) == multiset(left) && AllJoin(rings, order, hint)
    ensures AllJoin(rings, Greedy(rings, left, hint), hint) <==> EveryDcCan(rings, left, hint)
  {
    GreedyPermutes(rings, left, hint);
    if EveryDcCan(rings, left, hint) { GreedyJoins(rings, left, hint); }
    forall order: seq<Host> | multiset(order) == multiset(left) && AllJoin(rings, order, hint)
      ensures EveryDcCan(rings, left, hint)
    {
      AnOrderIsEnough(rings, left, order, hint);
    }
  }

  lemma {:induction false} AnOrderIsEnough(rings: Rings, left: seq<Host>, order: seq<Host>, hint: int)
    requires multiset(order) == multiset(left) && AllJoin(rings, order, hint)
    ensures EveryDcCan(rings, left, hint)
  {
    forall dc ensures DcCan(rings, left, hint, dc) {
      AllJoinByDc(rings, order, hint, dc);
      RacksInSame(order, left, dc);
    }
  }

  // ----- the loop -----

  method PickNext(rings: Rings, left: seq<Host>, hint: int) returns (i: nat)
    requires left != []
    ensures i == Pick(rings, left, hint)
  {
    var k := 0;
    while k < |left|
      invariant 0 <= k <= |left| && FirstGood(rings, left, 0, hint) == FirstGood(rings, left, k, hint)
    {
      var racks := RingOf(rings, left[k].dc);
      if Accepted(racks, left[k].rack, hint) {
        var feasible := TestFeasible(racks + {left[k].rack}, RacksIn(Without(left, k), left[k].dc), hint);
        if feasible { return k; }
      }
      k := k + 1;
    }
    i := FirstAccepted(rings, left, 0, hint);
    if i == |left| { i := 0; }
  }

  function Those(hosts: seq<Host>, running: bool, seed: bool): seq<Host> {
    if hosts == [] then []
    else
      var h := hosts[|hosts| - 1];
      Those(hosts[..|hosts| - 1], running, seed) + if h.running == running && (running || h.seed == seed) then [h]
          else []
  }

  lemma {:induction false} GreedyStep(order: seq<Host>, now: Rings, left: seq<Host>, hint: int)
    requires left != []
    ensures var i := Pick(now, left, hint);
            order + Greedy(now, left, hint) == order + [left[i]] + Greedy(Join(now, left[i]), Without(left, i), hint)
  {
  }

  method StartOthers(rings: Rings, all: seq<Host>, hint: int) returns (order: seq<Host>)
    ensures order == Greedy(rings, all, hint)
  {
    order := [];
    var left, now := all, rings;
    while left != []
      invariant order + Greedy(now, left, hint) == Greedy(rings, all, hint)
      decreases |left|
    {
      var i := PickNext(now, left, hint);
      GreedyStep(order, now, left, hint);
      order, now, left := order + [left[i]], Join(now, left[i]), Without(left, i);
    }
  }

  /** The order to start the nodes in: those that run, then seeds and others as
      the scheduler picks them; each accepted when it joins if any order of them is. */
  method StartInOrder(nodes: seq<Host>, hint: int, rings: Rings) returns (order: seq<Host>, ghost first: nat)
    ensures multiset(order) == multiset(nodes)
    ensures first <= |order| && order[..first] == Those(nodes, true, false)
    ensures var left := Those(nodes, false, true) + Those(nodes, false, false);
            && order[first..] == Greedy(rings, left, hint)
            && (AllJoin(rings, order[first..], hint) <==>
                exists other: seq<Host> :: multiset(other) == multiset(left) && AllJoin(rings, other, hint))
  {
    var running := Those(nodes, true, false);
    var left := Those(nodes, false, true) + Those(nodes, false, false);
    var others := StartOthers(rings, left, hint);
    ThosePermute(nodes);
    GreedyPermutes(rings, left, hint);
    GreedyIsComplete(rings, left, hint);
    order, first := running + others, |running|;
    assert order[first..] == others;
  }

  function AllThree(nodes: seq<Host>): multiset<Host> {
    multiset(Those(nodes, true, false)) + multiset(Those(nodes, false, true)) + multiset(Those(nodes, false, false))
  }

  lemma {:induction false} AllThreeMore(init: seq<Host>, h: Host)
    ensures AllThree(init + [h]) == AllThree(init) + multiset{h}
  {
    ThoseMore(init, h, true, false);
    ThoseMore(init, h, false, true);
    ThoseMore(init, h, false, false);
    OneOfThree(h, multiset(Those(init, true, false)), multiset(Those(init, false, true)),
        multiset(Those(init, false, false)));
  }

  lemma {:induction false} ThosePermute(nodes: seq<Host>)
    ensures AllThree(nodes) == multiset(nodes)
  {
    if nodes != [] {
      var init, h := nodes[..|nodes| - 1], nodes[|nodes| - 1];
      ThosePermute(init);
      AllThreeMore(init, h);
      assert nodes == init + [h];
    }
  }

  lemma {:induction false} ThoseMore(init: seq<Host>, h: Host, running: bool, seed: bool)
    ensures multiset(Those(init + [h], running, seed)) ==
        multiset(Those(init, running, seed)) + IfThose(h, running, seed)
  {
    assert (init + [h])[..|init|] == init;
  }

  function IfThose(h: Host, running: bool, seed: bool): multiset<Host> {
    if h.running == running && (running || h.seed == seed) then multiset{h} else multiset{}
  }

  lemma {:induction false} OneOfThree(h: Host, a: multiset<Host>, b: multiset<Host>, c: multiset<Host>)
    ensures (a + IfThose(h, true, false)) + (b + IfThose(h, false, true)) + (c + IfThose(h, false, false)) ==
        a + b + c + multiset{h}
  {
  }
}
