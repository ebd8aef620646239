/** The order of a plan's moves: each one, when it can, without passing another
    node, and never onto a token another node holds. */
module MoveOrder {
  import opened Lists
  import opened Sorting
  import opened Ring
  import opened Arith

  datatype Move = Move(name: Name, src: int, dst: int)

  /** Where each node is. */
  type Places = map<Name, int>

  ghost predicate AllApart(pos: Places) {
    forall u, v :: u in pos && v in pos && u != v ==> pos[u] != pos[v]
  }

  ghost predicate Inside(pos: Places, size: nat) {
    forall u :: u in pos ==> 0 <= pos[u] < size
  }

  function Others(pos: Places, name: Name): set<int> {
    set n | n in pos && n != name :: pos[n]
  }

  function Below(x: int, others: set<int>): set<int> {
    set o | o in others && o < x
  }

  /** Which gap between the other positions x falls in; the last and the first are one. */
  function Gap(x: int, others: set<int>): nat
    requires others != {}
  {
    |Below(x, others)| % |others|
  }

  /** No other node holds the move's target. */
  predicate Free(pos: Places, mv: Move, size: nat)
    requires size > 0
  {
    forall n :: n in pos && n != mv.name ==> pos[n] != mv.dst % size
  }

  /** The planner's test that a move passes no other node. */
  predicate Passes(pos: Places, mv: Move, size: nat)
    requires size > 0
  {
    var others := Others(pos, mv.name);
    others == {} || Gap(mv.src % size, others) == Gap(mv.dst % size, others)
  }

  function Apply(pos: Places, mv: Move, size: nat): Places
    requires size > 0
  {
    pos[mv.name := mv.dst % size]
  }

  function After(pos: Places, run: seq<Move>, size: nat): Places
    requires size > 0
    decreases |run|
  {
    if run == [] then pos else After(Apply(pos, run[0], size), run[1..], size)
  }

  // ----- the gap test is exact -----

  /** Going round from a, b comes before c. */
  predicate Clockwise(a: int, b: int, c: int, size: nat)
    requires size > 0
  {
    (b - a) % size < (c - a) % size
  }

  /** The cyclic order of the nodes is the same. */
  ghost predicate SameCyclicOrder(pos: Places, pos': Places, size: nat)
    requires size > 0
  {
    && pos.Keys == pos'.Keys
    && forall u, v, w :: u in pos && v in pos && w in pos && u != v && v != w && u != w ==>
         (Clockwise(pos[u], pos[v], pos[w], size) <==> Clockwise(pos'[u], pos'[v], pos'[w], size))
  }

  /** Clockwise, without the modulo. */
  lemma {:induction false} ClockwiseIs(a: int, b: int, c: int, size: nat)
    requires 0 <= a < size && 0 <= b < size && 0 <= c < size
    ensures Clockwise(a, b, c, size) <==>
            (if b >= a then b - a else b - a + size) < (if c >= a then c - a else c - a + size)
  {
    RoundFrom(a, b, size);
    RoundFrom(a, c, size);
  }

  lemma {:induction false} RoundFrom(a: int, b: int, size: nat)
    requires 0 <= a < size && 0 <= b < size
    ensures (b - a) % size == if b >= a then b - a else b - a + size
  {
    if b >= a { SmallMod(b - a, size); } else { ModIs(b - a, size, -1); }
  }

  /** x lies strictly between a and b, in whichever order they are. */
  predicate Between(x: int, a: int, b: int) {
    a < x < b || b < x < a
  }

  /** Same gap: no other node between the two positions, or all of them. */
  lemma {:induction false} GapMeans(a: int, b: int, others: set<int>)
    requires others != {} && a !in others && b !in others
    ensures Gap(a, others) == Gap(b, others) <==>
            (forall o :: o in others ==> !Between(o, a, b)) || (forall o :: o in others ==> Between(o, a, b))
  {
    if a <= b { GapUp(a, b, others); } else { GapUp(b, a, others); }
  }

  lemma {:induction false} GapUp(a: int, b: int, others: set<int>)
    requires others != {} && a !in others && b !in others && a <= b
    ensures Gap(a, others) == Gap(b, others) <==>
            (forall o :: o in others ==> !Between(o, a, b)) || (forall o :: o in others ==> Between(o, a, b))
  {
    var mid := set o | o in others && Between(o, a, b);
    var low := Below(a, others);
    assert Below(b, others) == low + mid;
    assert low !! mid;
    SubsetCount(low + mid, others);
    SameModulo(|low|, |mid|, |others|);
    if |mid| == |others| { FullSubset(mid, others); }
    assert |mid| == 0 ==> mid == {};
    assert mid == {} <==> forall o :: o in others ==> !Between(o, a, b) by {
      if mid != {} { var o :| o in mid; }
      forall o | o in others && Between(o, a, b) ensures o in mid { }
    }
    assert mid == others <==> forall o :: o in others ==> Between(o, a, b);
  }

  lemma {:induction false} SubsetCount<T>(a: set<T>, b: set<T>)
    requires a <= b
    ensures |a| <= |b|
  {
    assert b == a + (b - a);
  }

  lemma {:induction false} FullSubset<T>(a: set<T>, b: set<T>)
    requires a <= b && |a| == |b|
    ensures a == b
  {
    assert b == a + (b - a);
  }

  lemma {:induction false} SameModulo(x: nat, d: nat, n: nat)
    requires n > 0 && x + d <= n
    ensures x % n == (x + d) % n <==> d == 0 || d == n
  {
    if d == 0 {
    } else if d == n {
      ModShift(0, 1, n);
    } else if x + d == n {
      ModIs(n, n, 1);
      SmallMod(x, n);
    } else {
      SmallMod(x, n);
      SmallMod(x + d, n);
    }
  }

  /** With the target free, the gap test passes exactly when the move leaves the
      cyclic order of the nodes as it is. */
  lemma {:induction false} GapTestIsExact(pos: Places, mv: Move, size: nat)
    requires size > 0 && Inside(pos, size) && AllApart(pos)
    requires mv.name in pos && mv.src % size == pos[mv.name] && Free(pos, mv, size)
    ensures Passes(pos, mv, size) <==> SameCyclicOrder(pos, Apply(pos, mv, size), size)
  {
    var others, a, b := Others(pos, mv.name), mv.src % size, mv.dst % size;
    if others == {} {
      forall n | n in pos && n != mv.name ensures pos[n] in others { }
    } else {
      GapMeans(a, b, others);
      if Passes(pos, mv, size) {
        SameGapSameOrder(pos, mv, size);
      } else {
        SplitGapBreaksOrder(pos, mv, size);
      }
    }
  }

  lemma {:induction false} SameGapSameOrder(pos: Places, mv: Move, size: nat)
    requires size > 0 && Inside(pos, size) && AllApart(pos)
    requires mv.name in pos && mv.src % size == pos[mv.name] && Free(pos, mv, size)
    requires var others := Others(pos, mv.name);
             || (forall o :: o in others ==> !Between(o, mv.src % size, mv.dst % size))
             || (forall o :: o in others ==> Between(o, mv.src % size, mv.dst % size))
    ensures SameCyclicOrder(pos, Apply(pos, mv, size), size)
  {
    var pos' := Apply(pos, mv, size);
    forall u, v, w | u in pos && v in pos && w in pos && u != v && v != w && u != w
      ensures Clockwise(pos[u], pos[v], pos[w], size) <==> Clockwise(pos'[u], pos'[v], pos'[w], size)
    {
      ClockwiseIs(pos[u], pos[v], pos[w], size);
      ClockwiseIs(pos'[u], pos'[v], pos'[w], size);
      assert u != mv.name ==> pos[u] in Others(pos, mv.name);
      assert v != mv.name ==> pos[v] in Others(pos, mv.name);
      assert w != mv.name ==> pos[w] in Others(pos, mv.name);
    }
  }

  lemma {:induction false} SplitGapBreaksOrder(pos: Places, mv: Move, size: nat)
    requires size > 0 && Inside(pos, size) && AllApart(pos)
    requires mv.name in pos && mv.src % size == pos[mv.name] && Free(pos, mv, size)
    requires exists o :: o in Others(pos, mv.name) && Between(o, mv.src % size, mv.dst % size)
    requires exists o :: o in Others(pos, mv.name) && !Between(o, mv.src % size, mv.dst % size)
    ensures !SameCyclicOrder(pos, Apply(pos, mv, size), size)
  {
    var pos' := Apply(pos, mv, size);
    var p :| p in Others(pos, mv.name) && Between(p, mv.src % size, mv.dst % size);
    var q :| q in Others(pos, mv.name) && !Between(q, mv.src % size, mv.dst % size);
    var v :| v in pos && v != mv.name && pos[v] == p;
    var w :| w in pos && w != mv.name && pos[w] == q;
    ClockwiseIs(pos[mv.name], p, q, size);
    ClockwiseIs(pos'[mv.name], p, q, size);
    assert Clockwise(pos[mv.name], pos[v], pos[w], size) != Clockwise(pos'[mv.name], pos'[v], pos'[w], size);
  }

  // ----- the order -----

  predicate Eligible(pos: Places, mv: Move, size: nat)
    requires size > 0
  {
    Free(pos, mv, size) && Passes(pos, mv, size)
  }

  /** By the token moved from, then by name. */
  predicate Before(a: Move, b: Move) {
    a.src < b.src || (a.src == b.src && a.name < b.name)
  }

  /** The move to run next: the first one that is free and passes no node, or
      when there is none the first one that is free. */
  ghost predicate IsNext(pos: Places, left: set<Move>, mv: Move, size: nat)
    requires size > 0
  {
    && mv in left && Free(pos, mv, size)
    && (Eligible(pos, mv, size) || forall o :: o in left ==> !Eligible(pos, o, size))
    && forall o :: o in left && o != mv ==>
        (if Eligible(pos, mv, size) then Eligible(pos, o, size) else Free(pos, o, size)) ==> Before(mv, o)
  }

  /** run takes its moves from left, each time the one to run next. */
  ghost predicate Runs(pos: Places, left: set<Move>, run: seq<Move>, size: nat)
    requires size > 0
    decreases |run|
  {
    run == [] ||
    (IsNext(pos, left, run[0], size) && Runs(Apply(pos, run[0], size), left - {run[0]}, run[1..], size))
  }

  ghost predicate DistinctMovers(moves: seq<Move>) {
    forall i, j :: 0 <= i < j < |moves| ==> moves[i].name != moves[j].name
  }

  lemma {:induction false} RunsAppend(pos: Places, left: set<Move>, run: seq<Move>, mv: Move, size: nat)
    requires size > 0 && Runs(pos, left, run, size)
    requires IsNext(After(pos, run, size), left - SetOf(run), mv, size)
    ensures Runs(pos, left, run + [mv], size)
    ensures After(pos, run + [mv], size) == Apply(After(pos, run, size), mv, size)
    decreases |run|
  {
    if run == [] {
      assert left - SetOf(run) == left;
      assert [mv][1..] == [];
    } else {
      assert SetOf(run) == {run[0]} + SetOf(run[1..]);
      assert left - {run[0]} - SetOf(run[1..]) == left - SetOf(run);
      RunsAppend(Apply(pos, run[0], size), left - {run[0]}, run[1..], mv, size);
      assert (run + [mv])[1..] == run[1..] + [mv];
    }
  }

  predicate NotAfter(a: Move, b: Move) {
    !Before(b, a)
  }

  function SortMoves(moves: seq<Move>): (r: seq<Move>)
    ensures multiset(r) == multiset(moves)
  {
    SortBy(moves, NotAfter)
  }

  /** In order: each move before the ones after it. */
  ghost predicate Ordered(moves: seq<Move>) {
    forall i, j :: 0 <= i < j < |moves| ==> Before(moves[i], moves[j])
  }

  lemma {:induction false} SameMoversDistinct(a: seq<Move>, b: seq<Move>)
    requires DistinctMovers(a) && multiset(a) == multiset(b)
    ensures DistinctMovers(b)
  {
    var f := (mv: Move) => mv.name;
    MapMultiset(f, a, b);
    DistinctOfMultiset(Map(f, a), Map(f, b));
    forall i, j | 0 <= i < j < |b| ensures b[i].name != b[j].name {
      assert Map(f, b)[i] != Map(f, b)[j];
    }
  }

  lemma {:induction false} SortOrdered(moves: seq<Move>)
    requires DistinctMovers(moves)
    ensures Ordered(SortMoves(moves))
  {
    SortSorted(moves, NotAfter);
    SameMoversDistinct(moves, SortMoves(moves));
    forall i, j | 0 <= i < j < |SortMoves(moves)| ensures Before(SortMoves(moves)[i], SortMoves(moves)[j]) {
      assert NotAfter(SortBy(moves, NotAfter)[i], SortBy(moves, NotAfter)[j]);
      assert SortMoves(moves)[i].name != SortMoves(moves)[j].name;
    }
  }

  /** The first move that is free, and passes no node when passing is asked for. */
  method FirstReady(pos: Places, left: seq<Move>, size: nat, passing: bool) returns (i: nat)
    requires size > 0
    ensures i <= |left|
    ensures i < |left| ==> if passing then Eligible(pos, left[i], size) else Free(pos, left[i], size)
    ensures forall k :: 0 <= k < i ==> !(if passing then Eligible(pos, left[k], size) else Free(pos, left[k], size))
  {
    i := 0;
    while i < |left|
      invariant 0 <= i <= |left|
      invariant forall k :: 0 <= k < i ==> !(if passing then Eligible(pos, left[k], size) else Free(pos, left[k], size))
    {
      if Free(pos, left[i], size) && (!passing || Passes(pos, left[i], size)) { return; }
      i := i + 1;
    }
  }

  lemma {:induction false} ReadyIsChosen(pos: Places, left: seq<Move>, i: nat, size: nat, passing: bool)
    requires size > 0 && Ordered(left) && i < |left|
    requires if passing then Eligible(pos, left[i], size) else Free(pos, left[i], size)
    requires forall k :: 0 <= k < i ==> !(if passing then Eligible(pos, left[k], size) else Free(pos, left[k], size))
    requires !passing ==> forall k :: 0 <= k < |left| ==> !Eligible(pos, left[k], size)
    ensures IsNext(pos, SetOf(left), left[i], size)
  {
    var mv := left[i];
    forall o | o in left && o != mv && (if passing then Eligible(pos, o, size) else Free(pos, o, size))
      ensures Before(mv, o)
    {
      var k :| 0 <= k < |left| && left[k] == o;
    }
  }

  /** Every move that is left has its target held by another node. */
  ghost predicate Stuck(pos: Places, left: set<Move>, size: nat)
    requires size > 0
  {
    left != {} && forall mv :: mv in left ==> !Free(pos, mv, size)
  }

  /** The run takes all the moves. */
  ghost predicate Completes(pos: Places, left: set<Move>, run: seq<Move>, size: nat)
    requires size > 0
  {
    Runs(pos, left, run, size) && SetOf(run) == left
  }

  /** The moves block each other: a run ends with moves left and all their targets held. */
  ghost predicate Blocks(pos: Places, left: set<Move>, size: nat)
    requires size > 0
  {
    exists run :: Runs(pos, left, run, size) && Stuck(After(pos, run, size), left - SetOf(run), size)
  }

  /** One move at most is the one to run next. */
  lemma {:induction false} ChosenOnce(pos: Places, left: set<Move>, a: Move, b: Move, size: nat)
    requires size > 0 && IsNext(pos, left, a, size) && IsNext(pos, left, b, size)
    ensures a == b
  {
  }

  /** A run goes on with the move to run next. */
  lemma {:induction false} RunChooses(pos: Places, left: set<Move>, run: seq<Move>, k: nat, size: nat)
    requires size > 0 && Runs(pos, left, run, size) && k < |run|
    ensures IsNext(After(pos, run[..k], size), left - SetOf(run[..k]), run[k], size)
    decreases k
  {
    if k == 0 {
      assert left - SetOf(run[..0]) == left;
    } else {
      RunChooses(Apply(pos, run[0], size), left - {run[0]}, run[1..], k - 1, size);
      assert run[..k][1..] == run[1..][..k - 1];
      assert SetOf(run[..k]) == {run[0]} + SetOf(run[1..][..k - 1]);
      assert left - {run[0]} - SetOf(run[1..][..k - 1]) == left - SetOf(run[..k]);
    }
  }

  /** Of two runs of the same moves one is the start of the other. */
  lemma {:induction false} RunsAgree(pos: Places, left: set<Move>, a: seq<Move>, b: seq<Move>, size: nat)
    requires size > 0 && Runs(pos, left, a, size) && Runs(pos, left, b, size) && |a| <= |b|
    ensures b[..|a|] == a
    decreases |a|
  {
    if a != [] {
      ChosenOnce(pos, left, a[0], b[0], size);
      RunsAgree(Apply(pos, a[0], size), left - {a[0]}, a[1..], b[1..], size);
      assert a == [a[0]] + a[1..];
      assert b[..|a|] == [b[0]] + b[1..][..|a| - 1];
    }
  }

  /** Moves that can all be run do not block each other, and can be in one order only. */
  lemma {:induction false} CompleteOrBlocked(pos: Places, left: set<Move>, run: seq<Move>, size: nat)
    requires size > 0 && Completes(pos, left, run, size)
    ensures !Blocks(pos, left, size)
    ensures forall other :: Completes(pos, left, other, size) && |other| == |run| ==> other == run
  {
    forall other | Runs(pos, left, other, size)
      ensures !Stuck(After(pos, other, size), left - SetOf(other), size)
      ensures |other| == |run| ==> other == run
    {
      if |other| >= |run| {
        RunsAgree(pos, left, run, other, size);
        assert SetOf(run) <= SetOf(other) by {
          forall mv | mv in run ensures mv in other { assert mv in other[..|run|]; }
        }
        assert left - SetOf(other) == {};
      } else {
        RunsAgree(pos, left, other, run, size);
        RunChooses(pos, left, run, |other|, size);
      }
    }
  }

  lemma {:induction false} RemoveFromOrdered(left: seq<Move>, i: nat)
    requires Ordered(left) && i < |left|
    ensures Ordered(left[..i] + left[i + 1..])
    ensures SetOf(left[..i] + left[i + 1..]) == SetOf(left) - {left[i]}
  {
    var rest := left[..i] + left[i + 1..];
    forall mv | mv in left && mv != left[i] ensures mv in rest {
      var k :| 0 <= k < |left| && left[k] == mv;
      if k < i { assert rest[k] == mv; } else { assert rest[k - 1] == mv; }
    }
  }

  /** The moves in a safe order: all of them, each the one to run next, or an
      error once every move left is onto a token another node holds: exactly when the
      moves block each other. */
  method OrderMoves(ring: Places, moves: seq<Move>, size: nat) returns (r: Result<seq<Move>>, ghost done: seq<Move>)
    requires size > 0 && DistinctMovers(moves)
    ensures Runs(ring, SetOf(moves), done, size)
    ensures r.Ok? ==> r.value == done && Completes(ring, SetOf(moves), done, size)
    ensures r.TokenError? ==> Stuck(After(ring, done, size), SetOf(moves) - SetOf(done), size)
    ensures r.TokenError? <==> Blocks(ring, SetOf(moves), size)
  {
    var pos := ring;
    var left := SortMoves(moves);
    SortOrdered(moves);
    assert SetOf(left) == SetOf(moves) by {
      assert forall mv :: mv in left <==> mv in multiset(left);
      assert forall mv :: mv in moves <==> mv in multiset(moves);
    }
    ghost var all := SetOf(moves);
    var order := [];
    assert all - SetOf([]) == all;
    while left != []
      invariant Ordered(left)
      invariant SetOf(left) == all - SetOf(order)
      invariant Runs(ring, all, order, size)
      invariant pos == After(ring, order, size)
      invariant SetOf(order) <= all
      decreases |left|
    {
      var passing := true;
      var i := FirstReady(pos, left, size, true);
      if i == |left| {
        passing := false;
        i := FirstReady(pos, left, size, false);
      }
      if i == |left| {
        assert left[0] in SetOf(left);
        return TokenError, order;
      }
      var ready := left[i];
      ReadyIsChosen(pos, left, i, size, passing);
      RunsAppend(ring, all, order, ready, size);
      RemoveFromOrdered(left, i);
      assert SetOf(order + [ready]) == SetOf(order) + {ready};
      left := left[..i] + left[i + 1..];
      pos := Apply(pos, ready, size);
      order := order + [ready];
    }
    CompleteOrBlocked(ring, all, order, size);
    return Ok(order), order;
  }
}
