/** New nodes without moving any: each at the middle of a range, picked greedily
    in three ways. */
module Bisect {
  import opened Lists
  import opened Options
  import opened Sorting
  import opened Ring
  import opened RoundRobin
  import opened Shares
  import opened Evenness
  import opened Placement
  import opened Middles

  // ----- the largest range, whatever the racks -----

  /** The spot is the middle of a largest range, the lowest of such middles; 0 on an empty ring. */
  ghost predicate IsLargestMiddle(ps: seq<int>, spot: int, size: nat)
    requires size > 0
  {
    if ps == [] then spot == 0
    else
      exists k :: 0 <= k < |ps| && Largest(ps, k, size) && Length(ps, k, size) >= 2 && spot == Middle(ps, k, size)
        && forall i :: 0 <= i < |ps| && Length(ps, i, size) == Length(ps, k, size) ==> spot <= Middle(ps, i, size)
  }

  ghost predicate NoRoom(ps: seq<int>, size: nat)
    requires size > 0
  {
    ps != [] && forall i :: 0 <= i < |ps| ==> Length(ps, i, size) < 2
  }

  method LargestMiddle(ps: seq<int>, size: nat) returns (r: Option<int>)
    requires size > 0
    ensures r.Some? ==> IsLargestMiddle(ps, r.value, size)
    ensures r.None? <==> NoRoom(ps, size)
  {
    if ps == [] { return Some(0); }
    var best := 0;
    var k := 1;
    while k < |ps|
      invariant 1 <= k <= |ps| && 0 <= best < k
      invariant forall i :: 0 <= i < k ==> Length(ps, i, size) <= Length(ps, best, size)
      invariant forall i :: 0 <= i < k && Length(ps, i, size) == Length(ps, best, size) ==>
          Middle(ps, best, size) <= Middle(ps, i, size)
    {
      if Length(ps, k, size) > Length(ps, best, size)
         || (Length(ps, k, size) == Length(ps, best, size) && Middle(ps, k, size) < Middle(ps, best, size)) {
        best := k;
      }
      k := k + 1;
    }
    return if Length(ps, best, size) < 2 then None else Some(Middle(ps, best, size));
  }

  /** The positions after some are put in, one after the other. */
  function AfterSplits(ps: seq<int>, spots: seq<int>): seq<int> {
    if spots == [] then ps else InsertInt(spots[|spots| - 1], AfterSplits(ps, spots[..|spots| - 1]))
  }

  /** Each spot splits a largest range of the ring as the ones before it left it. */
  ghost predicate SplitsInTurn(ps: seq<int>, spots: seq<int>, size: nat)
    requires size > 0
  {
    spots == [] ||
    var init := spots[..|spots| - 1];
    SplitsInTurn(ps, init, size) && IsLargestMiddle(AfterSplits(ps, init), spots[|spots| - 1], size)
  }

  lemma {:induction false} SplitOnce(ps: seq<int>, spot: int, size: nat)
    requires Increasing(ps) && OnCircle(ps, size) && size > 0 && IsLargestMiddle(ps, spot, size)
    ensures var ps' := InsertInt(spot, ps);
            spot !in ps && 0 <= spot < size && Increasing(ps') && OnCircle(ps', size) &&
                (NearEven(ps, size) ==> NearEven(ps', size))
  {
    if ps != [] {
      var k :| 0 <= k < |ps| && Largest(ps, k, size) && Length(ps, k, size) >= 2 && spot == Middle(ps, k, size);
      MiddleInRange(ps, k, size);
      var x := MiddleInserted(ps, k, size);
      if NearEven(ps, size) { SplitKeepsNearEven(ps, k, size); }
    }
  }

  /** A ring in order, and near even if it has to be. */
  ghost predicate SplitState(ps: seq<int>, size: nat, even: bool)
    requires size > 0
  {
    Increasing(ps) && OnCircle(ps, size) && (even ==> NearEven(ps, size))
  }

  lemma {:induction false} SplitStateStep(ps: seq<int>, spot: int, size: nat, even: bool)
    requires size > 0 && SplitState(ps, size, even) && IsLargestMiddle(ps, spot, size)
    ensures SplitState(InsertInt(spot, ps), size, even) && spot !in ps && 0 <= spot < size
  {
    SplitOnce(ps, spot, size);
  }

  /** Splitting largest ranges keeps a near even ring near even, however many nodes
      are put in, and no two nodes on one position. */
  lemma {:induction false} SplitsKeepNearEven(ps: seq<int>, spots: seq<int>, size: nat, even: bool)
    requires size > 0 && SplitState(ps, size, even) && SplitsInTurn(ps, spots, size)
    ensures SplitState(AfterSplits(ps, spots), size, even)
  {
    if spots != [] {
      var init := spots[..|spots| - 1];
      SplitsKeepNearEven(ps, init, size, even);
      SplitStateStep(AfterSplits(ps, init), spots[|spots| - 1], size, even);
    }
  }

  lemma {:induction false} AfterSplitsAre(ps: seq<int>, spots: seq<int>)
    ensures multiset(AfterSplits(ps, spots)) == multiset(ps) + multiset(spots)
  {
    if spots != [] {
      AfterSplitsAre(ps, spots[..|spots| - 1]);
      assert spots == spots[..|spots| - 1] + [spots[|spots| - 1]];
    }
  }

  lemma {:induction false} SplitsMore(ps: seq<int>, spots: seq<int>, spot: int, size: nat)
    requires size > 0 && SplitsInTurn(ps, spots, size) && IsLargestMiddle(AfterSplits(ps, spots), spot, size)
    ensures SplitsInTurn(ps, spots + [spot], size)
    ensures AfterSplits(ps, spots + [spot]) == InsertInt(spot, AfterSplits(ps, spots))
  {
    assert (spots + [spot])[..|spots|] == spots;
  }

  /** From an empty ring on, the largest range never exceeds twice the smallest plus one. */
  lemma {:induction false} SplitsFromEmpty(spots: seq<int>, size: nat)
    requires size > 0 && SplitsInTurn([], spots, size)
    ensures NearEven(AfterSplits([], spots), size)
  {
    SplitsKeepNearEven([], spots, size, true);
  }

  function Placed(spots: seq<int>, nodes: seq<NewNode>): (r: seq<Node>)
    requires |spots| <= |nodes|
    ensures |r| == |spots|
    ensures forall i :: 0 <= i < |r| ==> r[i] == Node(spots[i], nodes[i].name, nodes[i].rack)
  {
    seq(|spots|, i requires 0 <= i < |spots| => Node(spots[i], nodes[i].name, nodes[i].rack))
  }

  lemma {:induction false} NoRoomIsFull(ps: seq<int>, size: nat)
    requires size > 0 && SplitState(ps, size, false)
    ensures NoRoom(ps, size) <==> |ps| == size
    ensures |ps| <= size
  {
    RingFits(ps, size);
    if ps != [] { FullRing(ps, size); }
  }

  /** Each new node in turn at the middle of the largest range; refused exactly
      when the circle has fewer positions than the ring would have nodes. */
  method SplitLargest(ring: seq<Node>, nodes: seq<NewNode>, size: nat)
      returns (r: Result<seq<Node>>, ghost spots: seq<int>)
    requires size > 0 && SortedRing(ring, size).Ok?
    ensures r.TokenError? <==> |ring| + |nodes| > size
    ensures r.Ok? ==> |spots| == |nodes| && r.value == Placed(spots, nodes)
                      && SplitsInTurn(Positions(SortedRing(ring, size).value), spots, size)
  {
    var cur := Positions(SortedRing(ring, size).value);
    ghost var ps := cur;
    var placed := [];
    spots := [];
    SortedRingSpec(ring, size);
    assert |multiset(SortedRing(ring, size).value)| == |ring|;
    while |placed| < |nodes|
      invariant |placed| == |spots| <= |nodes| && placed == Placed(spots, nodes)
      invariant cur == AfterSplits(ps, spots) && SplitsInTurn(ps, spots, size)
      invariant SplitState(cur, size, false) && |cur| == |ring| + |spots|
    {
      NoRoomIsFull(cur, size);
      var spot := LargestMiddle(cur, size);
      if spot.None? { return TokenError, spots; }
      SplitsMore(ps, spots, spot.value, size);
      PlacedMore(spots, nodes, spot.value);
      SplitStateStep(cur, spot.value, size, false);
      assert |multiset(InsertInt(spot.value, cur))| == |cur| + 1;
      var x := nodes[|placed|];
      cur := InsertInt(spot.value, cur);
      placed := placed + [Node(spot.value, x.name, x.rack)];
      spots := spots + [spot.value];
    }
    NoRoomIsFull(cur, size);
    return Ok(placed), spots;
  }

  lemma {:induction false} PlacedMore(spots: seq<int>, nodes: seq<NewNode>, spot: int)
    requires |spots| < |nodes|
    ensures Placed(spots + [spot], nodes) ==
        Placed(spots, nodes) + [Node(spot, nodes[|spots|].name, nodes[|spots|].rack)]
  {
  }

  // ----- the split that leaves the most even ring -----

  datatype Score = Score(key: Key, spot: int)

  predicate ScoreLess(a: Score, b: Score) {
    Less(a.key, b.key) || (a.key == b.key && a.spot < b.spot)
  }

  lemma {:induction false} ScoreTrans(a: Score, b: Score, c: Score)
    requires ScoreLess(a, b) && !ScoreLess(c, b)
    ensures !ScoreLess(c, a)
  {
    KeyTotal(a.key, b.key);
    KeyTotal(b.key, c.key);
    KeyTotal(a.key, c.key);
    if Less(c.key, a.key) && Less(a.key, b.key) { LessIsAtMost(a.key, b.key); LessAtMost(c.key, a.key, b.key); }
  }

  lemma {:induction false} KeyTotal(a: Key, b: Key)
    ensures Less(a, b) || Less(b, a) || a == b
    ensures !(Less(a, b) && Less(b, a)) && !Less(a, a)
  {
    LexTotal(a.effective, b.effective);
    LexTotal(a.primary, b.primary);
    LexTotal(a.effective, a.effective);
    LexTotal(a.primary, a.primary);
  }

  method FirstLeastScore(scores: seq<Score>) returns (best: nat)
    requires scores != []
    ensures best < |scores| && forall i :: 0 <= i < |scores| ==> !ScoreLess(scores[i], scores[best])
  {
    best := 0;
    KeyTotal(scores[0].key, scores[0].key);
    var i := 1;
    while i < |scores|
      invariant 1 <= i <= |scores| && best < i
      invariant forall j :: 0 <= j < i ==> !ScoreLess(scores[j], scores[best])
    {
      if ScoreLess(scores[i], scores[best]) {
        forall j | 0 <= j < i ensures !ScoreLess(scores[j], scores[i]) {
          ScoreTrans(scores[i], scores[best], scores[j]);
        }
        KeyTotal(scores[i].key, scores[i].key);
        best := i;
      }
      i := i + 1;
    }
  }

  /** What a greedy choice goes by: all the shares, or only the largest ones. */
  function Top(key: Key): Key {
    Key(if key.effective == [] then [] else key.effective[..1], if key.primary == [] then [] else key.primary[..1])
  }

  function Goes(onlyLargest: bool, key: Key): Key {
    if onlyLargest then Top(key) else key
  }

  /** A new node can be put anywhere a ring has a free position. */
  ghost predicate Joinable(cur: seq<Node>, x: NewNode, size: nat) {
    && size > 0 && Distinct(Names(cur)) && Distinct(Positions(cur)) && OnCircle(Positions(cur), size)
    && forall b :: b in cur ==> b.name != x.name
  }

  lemma {:induction false} JoinSound(cur: seq<Node>, x: NewNode, spot: int, size: nat)
    requires Joinable(cur, x, size) && 0 <= spot < size && spot !in Positions(cur)
    ensures var cur' := cur + [Node(spot, x.name, x.rack)];
            && Distinct(Names(cur')) && Distinct(Positions(cur')) && OnCircle(Positions(cur'), size)
            && Sound(cur', size) && Reduced(cur', size) == cur'
  {
    var cur' := cur + [Node(spot, x.name, x.rack)];
    forall i, j | 0 <= i < j < |cur'|
        ensures Names(cur')[i] != Names(cur')[j] && Positions(cur')[i] != Positions(cur')[j] {
      assert cur[i] in cur;
      if j < |cur| { assert Names(cur)[i] != Names(cur)[j] && Positions(cur)[i] != Positions(cur)[j]; }
      assert Positions(cur)[i] in Positions(cur);
    }
    forall i | 0 <= i < |cur'| ensures 0 <= Positions(cur')[i] < size {
      if i < |cur| { assert Positions(cur)[i] == cur[i].pos; }
    }
    SoundRing(cur', size);
  }

  ghost function ScoreAt(cur: seq<Node>, x: NewNode, spot: int, size: nat, rf: nat, onlyLargest: bool): Score
    requires Sound(cur + [Node(spot, x.name, x.rack)], size)
  {
    Score(Goes(onlyLargest, RingKey(cur + [Node(spot, x.name, x.rack)], size, rf)), spot)
  }

  /** Range k of the ring can be split for the node. */
  ghost predicate Splits(cur: seq<Node>, x: NewNode, k: nat, size: nat)
    requires Joinable(cur, x, size)
  {
    SoundRing(cur, size);
    var ps := Positions(SortedRing(cur, size).value);
    k < |ps| && Length(ps, k, size) >= 2
  }

  ghost function SplitSpot(cur: seq<Node>, x: NewNode, k: nat, size: nat): int
    requires Joinable(cur, x, size) && Splits(cur, x, k, size)
  {
    SoundRing(cur, size);
    Middle(Positions(SortedRing(cur, size).value), k, size)
  }

  lemma {:induction false} SplitSpotSound(cur: seq<Node>, x: NewNode, k: nat, size: nat)
    requires Joinable(cur, x, size) && Splits(cur, x, k, size)
    ensures var spot := SplitSpot(cur, x, k, size);
            0 <= spot < size && spot !in Positions(cur) && Sound(cur + [Node(spot, x.name, x.rack)], size)
  {
    SoundRing(cur, size);
    SortedRingSpec(cur, size);
    var pts := SortedRing(cur, size).value;
    MiddleInRange(Positions(pts), k, size);
    PositionsMultiset(pts, cur);
    var spot := SplitSpot(cur, x, k, size);
    assert spot in Positions(cur) <==> spot in multiset(Positions(cur));
    assert spot in Positions(pts) <==> spot in multiset(Positions(pts));
    JoinSound(cur, x, spot, size);
  }

  ghost function SplitScore(cur: seq<Node>, x: NewNode, k: nat, size: nat, rf: nat, onlyLargest: bool): Score
    requires Joinable(cur, x, size) && Splits(cur, x, k, size)
  {
    SplitSpotSound(cur, x, k, size);
    ScoreAt(cur, x, SplitSpot(cur, x, k, size), size, rf, onlyLargest)
  }

  /** The spot is the best middle for the node: the least score, 0 on an empty ring. */
  ghost predicate IsBestMiddle(cur: seq<Node>, x: NewNode, spot: int, size: nat, rf: nat, onlyLargest: bool)
    requires Joinable(cur, x, size)
  {
    if cur == [] then spot == 0
    else
      exists k: nat :: Splits(cur, x, k, size) && spot == SplitSpot(cur, x, k, size)
        && forall j: nat :: Splits(cur, x, j, size) ==>
             !ScoreLess(SplitScore(cur, x, j, size, rf, onlyLargest), SplitScore(cur, x, k, size, rf, onlyLargest))
  }

  method ScoreSplit(cur: seq<Node>, x: NewNode, ghost k: nat, spot: int, size: nat, rf: nat, onlyLargest: bool)
      returns (score: Score)
    requires Joinable(cur, x, size) && Splits(cur, x, k, size) && spot == SplitSpot(cur, x, k, size)
    ensures score == SplitScore(cur, x, k, size, rf, onlyLargest)
  {
    SplitSpotSound(cur, x, k, size);
    var key := BalanceKey(cur + [Node(spot, x.name, x.rack)], size, rf);
    score := Score(Goes(onlyLargest, key), spot);
  }

  /** Scores of the ranges that can be split, and which they are. */
  ghost predicate Scored(scores: seq<Score>, ks: seq<nat>, upto: nat, cur: seq<Node>, x: NewNode, size: nat, rf: nat,
        onlyLargest: bool)
    requires Joinable(cur, x, size)
  {
    && |scores| == |ks|
    && (forall i :: 0 <= i < |ks| ==>
        Splits(cur, x, ks[i], size) && scores[i] == SplitScore(cur, x, ks[i], size, rf, onlyLargest))
    && forall k: nat :: k < upto && Splits(cur, x, k, size) ==> k in ks
  }

  lemma {:induction false} ScoredMore(scores: seq<Score>, ks: seq<nat>, k: nat, score: Score, cur: seq<Node>,
        x: NewNode, size: nat, rf: nat, onlyLargest: bool)
    requires Joinable(cur, x, size) && Scored(scores, ks, k, cur, x, size, rf, onlyLargest)
    requires Splits(cur, x, k, size) && score == SplitScore(cur, x, k, size, rf, onlyLargest)
    ensures Scored(scores + [score], ks + [k], k + 1, cur, x, size, rf, onlyLargest)
  {
  }

  lemma {:induction false} ScoredSkip(scores: seq<Score>, ks: seq<nat>, k: nat, cur: seq<Node>, x: NewNode, size: nat,
        rf: nat, onlyLargest: bool)
    requires Joinable(cur, x, size) && Scored(scores, ks, k, cur, x, size, rf, onlyLargest) && !Splits(cur, x, k, size)
    ensures Scored(scores, ks, k + 1, cur, x, size, rf, onlyLargest)
  {
  }

  lemma {:induction false} SplitsIs(cur: seq<Node>, x: NewNode, k: nat, size: nat)
    requires Joinable(cur, x, size)
    ensures SortedRing(cur, size).Ok? && |SortedRing(cur, size).value| == |cur|
    ensures k < |cur| ==>
      var ps := Positions(SortedRing(cur, size).value);
      && (Splits(cur, x, k, size) <==> Length(ps, k, size) >= 2)
      && (Splits(cur, x, k, size) ==> SplitSpot(cur, x, k, size) == Middle(ps, k, size))
    ensures k >= |cur| ==> !Splits(cur, x, k, size)
  {
    SoundRing(cur, size);
    SortedValid(cur, size);
  }

  method ScoreAll(cur: seq<Node>, x: NewNode, size: nat, rf: nat, onlyLargest: bool)
      returns (scores: seq<Score>, ks: seq<nat>)
    requires Joinable(cur, x, size)
    ensures Scored(scores, ks, |cur|, cur, x, size, rf, onlyLargest)
  {
    SplitsIs(cur, x, 0, size);
    var ps := Positions(SortedRing(cur, size).value);
    scores, ks := [], [];
    var k := 0;
    while k < |ps|
      invariant 0 <= k <= |ps|
      invariant Scored(scores, ks, k, cur, x, size, rf, onlyLargest)
    {
      SplitsIs(cur, x, k, size);
      if Length(ps, k, size) < 2 {
        ScoredSkip(scores, ks, k, cur, x, size, rf, onlyLargest);
      } else {
        var score := ScoreSplit(cur, x, k, Middle(ps, k, size), size, rf, onlyLargest);
        ScoredMore(scores, ks, k, score, cur, x, size, rf, onlyLargest);
        scores, ks := scores + [score], ks + [k];
      }
      k := k + 1;
    }
  }

  /** The best middle for one node, or none when no range can be split. */
  method BestMiddle(cur: seq<Node>, x: NewNode, size: nat, rf: nat, onlyLargest: bool) returns (r: Option<int>)
    requires Joinable(cur, x, size)
    ensures r.Some? ==> IsBestMiddle(cur, x, r.value, size, rf, onlyLargest)
    ensures r.None? <==> cur != [] && forall k: nat :: !Splits(cur, x, k, size)
  {
    if cur == [] { return Some(0); }
    SoundRing(cur, size);
    SortedValid(cur, size);
    var scores, ks := ScoreAll(cur, x, size, rf, onlyLargest);
    if scores == [] { return None; }
    var best := FirstLeastScore(scores);
    assert Splits(cur, x, ks[best], size);
    return Some(scores[best].spot);
  }

  // ----- the greedy choice, node by node -----

  /** New nodes of a ring: names of their own. */
  ghost predicate Joining(ring: seq<Node>, nodes: seq<NewNode>, size: nat) {
    && size > 0 && OnCircle(Positions(ring), size)
    && Distinct(Names(ring)) && Distinct(NewNames(nodes))
    && forall b, x :: b in ring && x in nodes ==> b.name != x.name
  }

  /** Some new nodes put on free positions. */
  ghost predicate Grown(ring: seq<Node>, spots: seq<int>, nodes: seq<NewNode>, size: nat) {
    && Joining(ring, nodes, size) && Distinct(Positions(ring))
    && |spots| <= |nodes| && Distinct(spots) && OnCircle(spots, size)
    && forall b, p :: b in ring && p in spots ==> b.pos != p
  }

  lemma {:induction false} PlacedNames(ring: seq<Node>, spots: seq<int>, nodes: seq<NewNode>, size: nat, i: nat)
    requires Grown(ring, spots, nodes, size) && i < |spots|
    ensures Placed(spots, nodes)[i].pos == spots[i] && Placed(spots, nodes)[i].name == NewNames(nodes)[i]
    ensures forall b :: b in ring ==> b.name != nodes[i].name && b.pos != spots[i]
  {
    assert nodes[i] in nodes && spots[i] in spots;
  }

  lemma {:induction false} GrownDistinct(ring: seq<Node>, spots: seq<int>, nodes: seq<NewNode>, size: nat, i: nat,
        j: nat)
    requires Grown(ring, spots, nodes, size) && i < j < |ring| + |spots|
    ensures var cur := ring + Placed(spots, nodes);
            cur[i].name != cur[j].name && cur[i].pos != cur[j].pos
  {
    var n := |ring|;
    if j < n {
      assert Names(ring)[i] != Names(ring)[j] && Positions(ring)[i] != Positions(ring)[j];
    } else {
      PlacedNames(ring, spots, nodes, size, j - n);
      if i < n { assert ring[i] in ring; } else { PlacedNames(ring, spots, nodes, size, i - n); }
    }
  }

  lemma {:induction false} GrownSound(ring: seq<Node>, spots: seq<int>, nodes: seq<NewNode>, size: nat)
    requires Grown(ring, spots, nodes, size)
    ensures var cur := ring + Placed(spots, nodes);
            && Distinct(Names(cur)) && Distinct(Positions(cur)) && OnCircle(Positions(cur), size)
            && Sound(cur, size) && Reduced(cur, size) == cur
  {
    var cur := ring + Placed(spots, nodes);
    forall i, j | 0 <= i < j < |cur| ensures Names(cur)[i] != Names(cur)[j] && Positions(cur)[i] != Positions(cur)[j] {
      GrownDistinct(ring, spots, nodes, size, i, j);
    }
    forall i | 0 <= i < |cur| ensures 0 <= Positions(cur)[i] < size {
      if i < |ring| { assert Positions(ring)[i] == cur[i].pos; } else { assert cur[i].pos == spots[i - |ring|]; }
    }
    SoundRing(cur, size);
  }

  lemma {:induction false} GrownJoinable(ring: seq<Node>, spots: seq<int>, nodes: seq<NewNode>, size: nat)
    requires Grown(ring, spots, nodes, size) && |spots| < |nodes|
    ensures Joinable(ring + Placed(spots, nodes), nodes[|spots|], size)
  {
    var placed, x := Placed(spots, nodes), nodes[|spots|];
    GrownSound(ring, spots, nodes, size);
    forall b | b in ring + placed ensures b.name != x.name {
      assert x in nodes;
      if b !in ring {
        var i :| 0 <= i < |placed| && placed[i] == b;
        assert NewNames(nodes)[i] != NewNames(nodes)[|spots|];
      }
    }
  }

  lemma {:induction false} GrownMore(ring: seq<Node>, spots: seq<int>, nodes: seq<NewNode>, size: nat, spot: int)
    requires Grown(ring, spots, nodes, size) && |spots| < |nodes| && 0 <= spot < size
    requires spot !in Positions(ring + Placed(spots, nodes))
    ensures Grown(ring, spots + [spot], nodes, size)
  {
    var cur := ring + Placed(spots, nodes);
    forall b | b in ring ensures b.pos != spot {
      var i :| 0 <= i < |ring| && ring[i] == b;
      assert Positions(cur)[i] == b.pos;
    }
    forall i | 0 <= i < |spots| ensures spots[i] != spot {
      assert Positions(cur)[|ring| + i] == spots[i];
    }
  }

  /** Spot number i is the best middle of the ring with the ones before it. */
  ghost predicate BestAt(ring: seq<Node>, spots: seq<int>, nodes: seq<NewNode>, i: nat, size: nat, rf: nat,
        onlyLargest: bool)
    requires i < |spots| <= |nodes|
  {
    var cur := ring + Placed(spots[..i], nodes);
    Joinable(cur, nodes[i], size) && IsBestMiddle(cur, nodes[i], spots[i], size, rf, onlyLargest)
  }

  /** Each spot is the best middle of the ring as the ones before it left it. */
  ghost predicate BestInTurn(ring: seq<Node>, spots: seq<int>, nodes: seq<NewNode>, size: nat, rf: nat,
        onlyLargest: bool)
    requires |spots| <= |nodes|
  {
    forall i :: 0 <= i < |spots| ==> BestAt(ring, spots, nodes, i, size, rf, onlyLargest)
  }

  lemma {:induction false} BestMore(ring: seq<Node>, spots: seq<int>, nodes: seq<NewNode>, size: nat, rf: nat,
        onlyLargest: bool, spot: int)
    requires Grown(ring, spots, nodes, size) && |spots| < |nodes| &&
        BestInTurn(ring, spots, nodes, size, rf, onlyLargest)
    requires var cur := ring + Placed(spots, nodes);
             Joinable(cur, nodes[|spots|], size) && IsBestMiddle(cur, nodes[|spots|], spot, size, rf, onlyLargest)
    ensures BestInTurn(ring, spots + [spot], nodes, size, rf, onlyLargest)
    ensures Grown(ring, spots + [spot], nodes, size)
  {
    var cur, x := ring + Placed(spots, nodes), nodes[|spots|];
    var more := spots + [spot];
    forall i | 0 <= i < |more| ensures BestAt(ring, more, nodes, i, size, rf, onlyLargest) {
      assert more[..i] == spots[..i];
      if i < |spots| {
        assert BestAt(ring, spots, nodes, i, size, rf, onlyLargest);
      } else {
        assert spots[..i] == spots;
      }
    }
    BestIsFree(cur, x, spot, size, rf, onlyLargest);
    GrownMore(ring, spots, nodes, size, spot);
  }

  lemma {:induction false} BestIsFree(cur: seq<Node>, x: NewNode, spot: int, size: nat, rf: nat, onlyLargest: bool)
    requires Joinable(cur, x, size) && IsBestMiddle(cur, x, spot, size, rf, onlyLargest)
    ensures 0 <= spot < size && spot !in Positions(cur)
  {
    if cur != [] {
      var k: nat :| Splits(cur, x, k, size) && spot == SplitSpot(cur, x, k, size);
      SplitSpotSound(cur, x, k, size);
    }
  }

  lemma {:induction false} NoSplitIsFull(cur: seq<Node>, x: NewNode, size: nat)
    requires Joinable(cur, x, size)
    ensures (cur != [] && forall k: nat :: !Splits(cur, x, k, size)) <==> |cur| == size
    ensures |cur| <= size
  {
    SplitsIs(cur, x, 0, size);
    SortedRingSpec(cur, size);
    var ps := Positions(SortedRing(cur, size).value);
    RingFits(ps, size);
    if cur != [] {
      FullRing(ps, size);
      forall k: nat ensures Splits(cur, x, k, size) <==> k < |ps| && Length(ps, k, size) >= 2 {
        SplitsIs(cur, x, k, size);
      }
      assert forall k :: 0 <= k < |ps| ==> (Length(ps, k, size) < 2 <==> !Splits(cur, x, k, size));
    }
  }

  method NextMiddle(ring: seq<Node>, cur: seq<Node>, ghost spots: seq<int>, nodes: seq<NewNode>, i: nat, size: nat,
        rf: nat, onlyLargest: bool)
    returns (r: Option<int>)
    requires Grown(ring, spots, nodes, size) && BestInTurn(ring, spots, nodes, size, rf, onlyLargest)
    requires i == |spots| < |nodes| && cur == ring + Placed(spots, nodes)
    ensures |cur| <= size && (r.None? <==> |cur| == size)
    ensures r.Some? ==> Grown(ring, spots + [r.value], nodes, size)
                        && BestInTurn(ring, spots + [r.value], nodes, size, rf, onlyLargest)
  {
    GrownJoinable(ring, spots, nodes, size);
    NoSplitIsFull(cur, nodes[i], size);
    r := BestMiddle(cur, nodes[i], size, rf, onlyLargest);
    if r.Some? { BestMore(ring, spots, nodes, size, rf, onlyLargest, r.value); }
  }

  /** Each new node in turn at the middle that leaves the most even shares: all of
      them, or only the largest; refused exactly when the circle is too small. */
  method GreedyBisect(ring: seq<Node>, nodes: seq<NewNode>, size: nat, rf: nat, onlyLargest: bool)
    returns (r: Result<seq<Node>>, ghost spots: seq<int>)
    requires Joining(ring, nodes, size) && Distinct(Positions(ring))
    ensures r.TokenError? <==> |ring| + |nodes| > size
    ensures r.Ok? ==> |spots| == |nodes| && r.value == Placed(spots, nodes) && Grown(ring, spots, nodes, size)
                      && BestInTurn(ring, spots, nodes, size, rf, onlyLargest)
  {
    var cur, placed := ring, [];
    spots := [];
    RingHolds(ring, size);
    while |placed| < |nodes|
      invariant |placed| == |spots| <= |nodes| && placed == Placed(spots, nodes) && cur == ring + placed
      invariant Grown(ring, spots, nodes, size) && BestInTurn(ring, spots, nodes, size, rf, onlyLargest)
      invariant |cur| <= size
    {
      var spot := NextMiddle(ring, cur, spots, nodes, |placed|, size, rf, onlyLargest);
      if spot.None? { return TokenError, spots; }
      PlacedMore(spots, nodes, spot.value);
      var node := Node(spot.value, nodes[|placed|].name, nodes[|placed|].rack);
      cur, placed := cur + [node], placed + [node];
      spots := spots + [spot.value];
    }
    return Ok(placed), spots;
  }

  lemma {:induction false} RingHolds(ring: seq<Node>, size: nat)
    requires size > 0 && Distinct(Names(ring)) && Distinct(Positions(ring)) && OnCircle(Positions(ring), size)
    ensures |ring| <= size
  {
    SoundRing(ring, size);
    SortedRingSpec(ring, size);
    SortedValid(ring, size);
    RingFits(Positions(SortedRing(ring, size).value), size);
  }
}
