/** Matching the nodes of a ring to balanced targets in ring order: fewest moves,
    then the least total distance, by dynamic programming over every rotation. */
module Assignment {
  import opened Arith

  /** The shorter way round between two positions. */
  function Distance(a: int, b: int, size: nat): (r: nat)
    requires size > 0
    ensures r <= size
  {
    var d := (b - a) % size;
    if d <= size - d then d else size - d
  }

  // ----- what is minimised -----

  /** Nodes, in ring order, to targets: all different, going round the targets
      once and in the same direction as the nodes. */
  ghost predicate KeepsOrder(picks: seq<int>, m: nat) {
    && m > 0
    && (forall i :: 0 <= i < |picks| ==> 0 <= picks[i] < m)
    && forall i, j :: 0 <= i < j < |picks| ==> Turned(picks, i, m) < Turned(picks, j, m)
  }

  /** How far round the targets node i is put, from the target of the first one. */
  function Turned(picks: seq<int>, i: nat, m: nat): int
    requires i < |picks| && m > 0
  {
    (picks[i] - picks[0]) % m
  }

  /** The distance of each node to the target it is given. */
  function Distances(existing: seq<int>, targets: seq<int>, size: nat, picks: seq<int>): (ds: seq<nat>)
    requires size > 0 && |picks| <= |existing|
    requires forall i :: 0 <= i < |picks| ==> 0 <= picks[i] < |targets|
    ensures |ds| == |picks|
    ensures forall i :: 0 <= i < |ds| ==> ds[i] <= size
    ensures forall i :: 0 <= i < |ds| ==> ds[i] == Distance(existing[i], targets[picks[i]], size)
  {
    seq(|picks|, i requires 0 <= i < |picks| => Distance(existing[i], targets[picks[i]], size))
  }

  /** How many of the nodes are farther than tol from their target. */
  function Moves(ds: seq<nat>, tol: nat): nat {
    if ds == [] then 0
    else Moves(ds[..|ds| - 1], tol) + if ds[|ds| - 1] <= tol then 0 else 1
  }

  function Total(ds: seq<nat>): nat {
    if ds == [] then 0 else Total(ds[..|ds| - 1]) + ds[|ds| - 1]
  }

  datatype Cost = Cost(moves: nat, distance: nat)

  function CostOf(ds: seq<nat>, tol: nat): Cost {
    Cost(Moves(ds, tol), Total(ds))
  }

  /** Fewest moves first, then the least distance. */
  predicate NoWorse(a: Cost, b: Cost) {
    a.moves < b.moves || (a.moves == b.moves && a.distance <= b.distance)
  }

  // ----- the two counts as one number -----

  /** One move costs more than any total distance. */
  function Big(n: nat, size: nat): nat {
    size * (n + 1)
  }

  function Inf(n: nat, size: nat): nat {
    Big(n, size) * (n + 1)
  }

  function Weight(d: nat, tol: nat, big: nat): nat {
    (if d <= tol then 0 else big) + d
  }

  function Sum(ds: seq<nat>, tol: nat, big: nat): nat {
    if ds == [] then 0 else Sum(ds[..|ds| - 1], tol, big) + Weight(ds[|ds| - 1], tol, big)
  }

  lemma {:induction false} SumSplits(ds: seq<nat>, tol: nat, big: nat)
    ensures Sum(ds, tol, big) == Moves(ds, tol) * big + Total(ds)
    ensures Moves(ds, tol) <= |ds|
  {
    if ds != [] {
      var init := ds[..|ds| - 1];
      SumSplits(init, tol, big);
      assert (Moves(init, tol) + 1) * big == Moves(init, tol) * big + big;
    }
  }

  lemma {:induction false} TotalBound(ds: seq<nat>, size: nat)
    requires forall i :: 0 <= i < |ds| ==> ds[i] <= size
    ensures Total(ds) <= |ds| * size
  {
    if ds != [] {
      TotalBound(ds[..|ds| - 1], size);
      assert |ds| * size == (|ds| - 1) * size + size;
    }
  }

  /** The weight of one move is more than any total distance. */
  lemma {:induction false} TotalBelowBig(ds: seq<nat>, size: nat, n: nat)
    requires size > 0 && |ds| <= n
    requires forall i :: 0 <= i < |ds| ==> ds[i] <= size
    ensures Total(ds) < Big(n, size)
  {
    TotalBound(ds, size);
    BigEnough(|ds|, n, size);
  }

  /** Then distances never overflow into the move count: both are read back from the sum. */
  lemma {:induction false} SumDecodes(ds: seq<nat>, tol: nat, big: nat)
    requires Total(ds) < big
    ensures CostOf(ds, tol) == Cost(Sum(ds, tol, big) / big, Sum(ds, tol, big) % big)
  {
    SumSplits(ds, tol, big);
    Decode(Moves(ds, tol), Total(ds), big);
  }

  /** No choice weighs as much as the mark for "no choice". */
  lemma {:induction false} SumBelowInf(ds: seq<nat>, tol: nat, size: nat, n: nat)
    requires size > 0 && |ds| <= n
    requires forall i :: 0 <= i < |ds| ==> ds[i] <= size
    ensures Sum(ds, tol, Big(n, size)) < Inf(n, size)
  {
    TotalBelowBig(ds, size, n);
    SumBelow(ds, tol, n, Big(n, size));
  }

  lemma {:induction false} SumBelow(ds: seq<nat>, tol: nat, n: nat, big: nat)
    requires |ds| <= n && Total(ds) < big
    ensures Sum(ds, tol, big) < big * (n + 1)
  {
    SumSplits(ds, tol, big);
    MulLe(Moves(ds, tol), n, big);
    assert big * (n + 1) == n * big + big;
  }

  lemma {:induction false} BigEnough(k: nat, n: nat, size: nat)
    requires k <= n && size > 0
    ensures k * size < Big(n, size)
  {
    MulLe(k, n, size);
  }

  lemma {:induction false} Decode(mv: nat, d: nat, big: nat)
    requires d < big
    ensures (mv * big + d) / big == mv && (mv * big + d) % big == d
  {
    DivIs(mv * big + d, big, mv);
    ModIs(mv * big + d, big, mv);
  }

  /** Less weight is a better plan. */
  lemma {:induction false} LeastSumIsBest(a: seq<nat>, b: seq<nat>, tol: nat, size: nat, n: nat)
    requires size > 0 && |a| <= n && |b| <= n
    requires forall i :: 0 <= i < |a| ==> a[i] <= size
    requires forall i :: 0 <= i < |b| ==> b[i] <= size
    requires Sum(a, tol, Big(n, size)) <= Sum(b, tol, Big(n, size))
    ensures NoWorse(CostOf(a, tol), CostOf(b, tol))
  {
    TotalBelowBig(a, size, n);
    TotalBelowBig(b, size, n);
    LessSum(a, b, tol, Big(n, size));
  }

  lemma {:induction false} LessSum(a: seq<nat>, b: seq<nat>, tol: nat, big: nat)
    requires Total(a) < big && Total(b) < big && Sum(a, tol, big) <= Sum(b, tol, big)
    ensures NoWorse(CostOf(a, tol), CostOf(b, tol))
  {
    SumDecodes(a, tol, big);
    SumDecodes(b, tol, big);
    FloorMono(Sum(a, tol, big), Sum(b, tol, big), big);
    SumSplits(a, tol, big);
    SumSplits(b, tol, big);
  }

  // ----- one rotation: the first node fixed on the first target -----

  /** Targets for the first |c| of n nodes out of m, in order, the first node on
      target 0, with room left for the others. */
  ghost predicate Fits(c: seq<int>, n: nat, m: nat) {
    && 0 < |c| <= n <= m && c[0] == 0
    && (forall i, j :: 0 <= i < j < |c| ==> c[i] < c[j])
    && forall i :: 0 <= i < |c| ==> i <= c[i] <= m - n + i
  }

  /** The weight of a choice of targets for the first nodes. */
  ghost function Value(existing: seq<int>, rot: seq<int>, size: nat, tol: nat, c: seq<int>): nat
    requires size > 0 && Fits(c, |existing|, |rot|)
  {
    Sum(Distances(existing, rot, size, c), tol, Big(|existing|, size))
  }

  /** The targets node i may take. */
  predicate InRow(n: nat, m: nat, i: nat, j: int) {
    if i == 0 then j == 0 else i <= j <= m - n + i
  }

  lemma {:induction false} FitsPrefix(c: seq<int>, n: nat, m: nat, k: nat)
    requires Fits(c, n, m) && 0 < k <= |c|
    ensures Fits(c[..k], n, m)
  {
  }

  lemma {:induction false} FitsMore(c: seq<int>, n: nat, m: nat, j: int)
    requires Fits(c, n, m) && |c| < n && c[|c| - 1] < j && InRow(n, m, |c|, j)
    ensures Fits(c + [j], n, m)
  {
  }

  lemma {:induction false} ValueStep(existing: seq<int>, rot: seq<int>, size: nat, tol: nat, c: seq<int>)
    requires size > 0 && Fits(c, |existing|, |rot|) && |c| > 1
    ensures Fits(c[..|c| - 1], |existing|, |rot|)
    ensures Value(existing, rot, size, tol, c) ==
            Value(existing, rot, size, tol, c[..|c| - 1])
            + Weight(Distance(existing[|c| - 1], rot[c[|c| - 1]], size), tol, Big(|existing|, size))
  {
    var init := c[..|c| - 1];
    FitsPrefix(c, |existing|, |rot|, |c| - 1);
    assert Distances(existing, rot, size, c)[..|c| - 1] == Distances(existing, rot, size, init);
  }

  /** The back pointers choice[k] lead from each target of c to the one before. */
  ghost predicate Leads(choice: seq<seq<int>>, c: seq<int>) {
    && |choice| == |c| - 1
    && forall k :: 0 < k < |c| ==> 0 <= c[k] < |choice[k - 1]| && choice[k - 1][c[k]] == c[k - 1]
  }

  /** A finished row i: dp[j] is the least weight of any choice that puts node i
      on target j, reached by chains[j]. */
  ghost predicate RowDone(dp: seq<int>, chains: seq<seq<int>>, choice: seq<seq<int>>,
                          existing: seq<int>, rot: seq<int>, size: nat, tol: nat, i: nat)
    requires size > 0
  {
    var n, m := |existing|, |rot|;
    && i < n <= m && |dp| == |chains| == m
    && (forall j :: 0 <= j < m && InRow(n, m, i, j) ==>
        Reached(dp[j], chains[j], choice, existing, rot, size, tol, i, j))
    && (forall j :: 0 <= j < m && !InRow(n, m, i, j) ==> dp[j] == Inf(n, size))
    && LowerBound(dp, existing, rot, size, tol, i)
  }

  ghost predicate Reached(d: int, c: seq<int>, choice: seq<seq<int>>,
                          existing: seq<int>, rot: seq<int>, size: nat, tol: nat, i: nat, j: int)
    requires size > 0
  {
    && Fits(c, |existing|, |rot|) && |c| == i + 1 && c[i] == j
    && d == Value(existing, rot, size, tol, c) && Leads(choice, c)
  }

  ghost predicate LowerBound(dp: seq<int>, existing: seq<int>, rot: seq<int>, size: nat, tol: nat, i: nat)
    requires size > 0
  {
    forall c :: Fits(c, |existing|, |rot|) && |c| == i + 1 && |dp| == |rot| ==>
        dp[c[i]] <= Value(existing, rot, size, tol, c)
  }

  lemma {:induction false} ReachedBound(d: int, c: seq<int>, choice: seq<seq<int>>, existing: seq<int>, rot: seq<int>,
        size: nat, tol: nat, i: nat, j: int)
    requires size > 0 && Reached(d, c, choice, existing, rot, size, tol, i, j)
    ensures d < Inf(|existing|, size)
  {
    SumBelowInf(Distances(existing, rot, size, c), tol, size, |existing|);
  }

  /** What the inner loop computes: the best predecessor of every target of the row. */
  ghost predicate Extends(dp: seq<int>, next: seq<int>, back: seq<int>,
                          existing: seq<int>, rot: seq<int>, size: nat, tol: nat, i: nat, upto: int)
    requires size > 0
  {
    var n, m := |existing|, |rot|;
    && 0 < i < n <= m && |dp| == |next| == |back| == m
    && (forall j :: 0 <= j < m && InRow(n, m, i, j) && j < upto ==>
          && 0 <= back[j] < j && InRow(n, m, i - 1, back[j])
          && next[j] == dp[back[j]] + Weight(Distance(existing[i], rot[j], size), tol, Big(n, size))
          && forall l :: i - 1 <= l < j ==> dp[back[j]] <= dp[l])
    && (forall j :: 0 <= j < m && !(InRow(n, m, i, j) && j < upto) ==> next[j] == Inf(n, size))
    && forall j :: 0 <= j < m ==> 0 <= back[j] < m
  }

  ghost function Longer(chains: seq<seq<int>>, back: seq<int>): (r: seq<seq<int>>)
    requires |chains| == |back| && forall j :: 0 <= j < |back| ==> 0 <= back[j] < |back|
    ensures |r| == |chains|
    ensures forall j :: 0 <= j < |r| ==> r[j] == chains[back[j]] + [j]
  {
    seq(|chains|, j requires 0 <= j < |chains| => chains[back[j]] + [j])
  }

  lemma {:induction false} ReachedStep(dp: seq<int>, chains: seq<seq<int>>, choice: seq<seq<int>>, next: seq<int>,
        back: seq<int>, existing: seq<int>, rot: seq<int>, size: nat, tol: nat, i: nat, j: int)
    requires size > 0 && i > 0 && RowDone(dp, chains, choice, existing, rot, size, tol, i - 1)
    requires Extends(dp, next, back, existing, rot, size, tol, i, |rot|)
    requires 0 <= j < |rot| && InRow(|existing|, |rot|, i, j)
    ensures Reached(next[j], chains[back[j]] + [j], choice + [back], existing, rot, size, tol, i, j)
  {
    var c := chains[back[j]];
    assert Reached(dp[back[j]], c, choice, existing, rot, size, tol, i - 1, back[j]);
    FitsMore(c, |existing|, |rot|, j);
    assert (c + [j])[..i] == c;
    ValueStep(existing, rot, size, tol, c + [j]);
    LeadsMore(choice, c, back, j);
  }

  lemma {:induction false} LeadsMore(choice: seq<seq<int>>, c: seq<int>, back: seq<int>, j: int)
    requires c != [] && Leads(choice, c) && 0 <= j < |back| && back[j] == c[|c| - 1]
    ensures Leads(choice + [back], c + [j])
  {
  }

  lemma {:induction false} LowerStep(dp: seq<int>, next: seq<int>, back: seq<int>,
                  existing: seq<int>, rot: seq<int>, size: nat, tol: nat, i: nat)
    requires size > 0 && i > 0 && LowerBound(dp, existing, rot, size, tol, i - 1)
    requires Extends(dp, next, back, existing, rot, size, tol, i, |rot|)
    ensures LowerBound(next, existing, rot, size, tol, i)
  {
    forall c | Fits(c, |existing|, |rot|) && |c| == i + 1
      ensures next[c[i]] <= Value(existing, rot, size, tol, c)
    {
      LowerOne(dp, next, back, existing, rot, size, tol, i, c);
    }
  }

  lemma {:induction false} LowerOne(dp: seq<int>, next: seq<int>, back: seq<int>,
                                    existing: seq<int>, rot: seq<int>, size: nat, tol: nat, i: nat, c: seq<int>)
    requires size > 0 && i > 0 && LowerBound(dp, existing, rot, size, tol, i - 1)
    requires Extends(dp, next, back, existing, rot, size, tol, i, |rot|)
    requires Fits(c, |existing|, |rot|) && |c| == i + 1
    ensures next[c[i]] <= Value(existing, rot, size, tol, c)
  {
    ValueStep(existing, rot, size, tol, c);
    var init := c[..i];
    assert Fits(init, |existing|, |rot|) && |init| == i;
    assert dp[init[i - 1]] <= Value(existing, rot, size, tol, init);
    assert c[i - 1] < c[i] && i - 1 <= c[i - 1];
    assert InRow(|existing|, |rot|, i, c[i]);
  }

  lemma {:induction false} RowStep(dp: seq<int>, chains: seq<seq<int>>, choice: seq<seq<int>>, next: seq<int>,
        back: seq<int>, existing: seq<int>, rot: seq<int>, size: nat, tol: nat, i: nat)
    requires size > 0 && i > 0 && RowDone(dp, chains, choice, existing, rot, size, tol, i - 1)
    requires Extends(dp, next, back, existing, rot, size, tol, i, |rot|)
    ensures RowDone(next, Longer(chains, back), choice + [back], existing, rot, size, tol, i)
  {
    LowerStep(dp, next, back, existing, rot, size, tol, i);
    forall j | 0 <= j < |rot| && InRow(|existing|, |rot|, i, j)
      ensures Reached(next[j], Longer(chains, back)[j], choice + [back], existing, rot, size, tol, i, j)
    {
      ReachedStep(dp, chains, choice, next, back, existing, rot, size, tol, i, j);
    }
  }

  /** The finite entries of a row are those of the targets its node may take. */
  ghost predicate FiniteRow(dp: seq<int>, n: nat, m: nat, i: nat, inf: nat) {
    |dp| == m && forall j :: 0 <= j < m ==> (dp[j] < inf <==> InRow(n, m, i, j))
  }

  /** One row of the table: node i on each target it may take, after the best
      choice for the nodes before it. */
  method FillRow(dp: seq<int>, existing: seq<int>, rot: seq<int>, size: nat, tol: nat, i: nat)
    returns (next: seq<int>, back: seq<int>)
    requires size > 0 && 0 < i < |existing| <= |rot|
    requires FiniteRow(dp, |existing|, |rot|, i - 1, Inf(|existing|, size))
    ensures Extends(dp, next, back, existing, rot, size, tol, i, |rot|)
  {
    var n, m := |existing|, |rot|;
    var inf := Inf(n, size);
    next := seq(m, _ => inf);
    back := seq(m, _ => 0);
    var run, runJ := inf, 0;
    var j := i;
    while j <= m - n + i
      invariant i <= j <= m - n + i + 1
      invariant j == i ==> run == inf
      invariant j > i ==> i - 1 <= runJ < j - 1 && InRow(n, m, i - 1, runJ) && run == dp[runJ] < inf
      invariant forall l :: i - 1 <= l < j - 1 ==> run <= dp[l]
      invariant Extends(dp, next, back, existing, rot, size, tol, i, j)
    {
      assert dp[j - 1] < inf <==> InRow(n, m, i - 1, j - 1);
      if dp[j - 1] < run {
        run, runJ := dp[j - 1], j - 1;
      }
      var d := Distance(existing[i], rot[j], size);
      ExtendsStep(dp, next, back, existing, rot, size, tol, i, j, runJ);
      next := next[j := run + Weight(d, tol, Big(n, size))];
      back := back[j := runJ];
      j := j + 1;
    }
  }

  lemma {:induction false} ExtendsStep(dp: seq<int>, next: seq<int>, back: seq<int>,
                    existing: seq<int>, rot: seq<int>, size: nat, tol: nat, i: nat, j: int, runJ: int)
    requires size > 0 && Extends(dp, next, back, existing, rot, size, tol, i, j)
    requires 0 <= j < |rot| && InRow(|existing|, |rot|, i, j)
    requires 0 <= runJ < j && InRow(|existing|, |rot|, i - 1, runJ)
    requires forall l :: i - 1 <= l < j ==> dp[runJ] <= dp[l]
    ensures Extends(dp, next[j := dp[runJ] + Weight(Distance(existing[i], rot[j], size), tol, Big(|existing|, size))],
                    back[j := runJ], existing, rot, size, tol, i, j + 1)
  {
  }

  lemma {:induction false} RowFinite(dp: seq<int>, chains: seq<seq<int>>, choice: seq<seq<int>>,
                  existing: seq<int>, rot: seq<int>, size: nat, tol: nat, i: nat)
    requires size > 0 && RowDone(dp, chains, choice, existing, rot, size, tol, i)
    ensures FiniteRow(dp, |existing|, |rot|, i, Inf(|existing|, size))
  {
    forall j | 0 <= j < |rot| && InRow(|existing|, |rot|, i, j) ensures dp[j] < Inf(|existing|, size) {
      ReachedBound(dp[j], chains[j], choice, existing, rot, size, tol, i, j);
    }
  }

  /** The first of the least entries. */
  method ArgMin(dp: seq<int>) returns (j: nat)
    requires dp != []
    ensures j < |dp|
    ensures forall k :: 0 <= k < |dp| ==> dp[j] <= dp[k]
    ensures forall k :: 0 <= k < j ==> dp[j] < dp[k]
  {
    j := 0;
    var k := 1;
    while k < |dp|
      invariant 1 <= k <= |dp| && j < k
      invariant forall l :: 0 <= l < k ==> dp[j] <= dp[l]
      invariant forall l :: 0 <= l < j ==> dp[j] < dp[l]
    {
      if dp[k] < dp[j] { j := k; }
      k := k + 1;
    }
  }

  function Reversed(s: seq<int>): (r: seq<int>)
    ensures |r| == |s|
    ensures forall i :: 0 <= i < |s| ==> r[i] == s[|s| - 1 - i]
  {
    seq(|s|, i requires 0 <= i < |s| => s[|s| - 1 - i])
  }

  /** The choice the back pointers lead to, read backwards and turned round. */
  method Backtrack(choice: seq<seq<int>>, j: int, ghost c: seq<int>) returns (picks: seq<int>)
    requires c != [] && Leads(choice, c) && c[|c| - 1] == j
    ensures picks == c
  {
    var rev := [j];
    var k := |choice|;
    while k > 0
      invariant 0 <= k <= |choice| && |rev| == |c| - k
      invariant forall x :: 0 <= x < |rev| ==> rev[x] == c[|c| - 1 - x]
    {
      rev := rev + [choice[k - 1][rev[|rev| - 1]]];
      k := k - 1;
    }
    picks := Reversed(rev);
  }

  /** The best choice with the first node on the first target of the rotation. */
  method BestOfRotation(existing: seq<int>, rot: seq<int>, size: nat, tol: nat) returns (value: nat, picks: seq<int>)
    requires size > 0 && 0 < |existing| <= |rot|
    ensures Fits(picks, |existing|, |rot|) && |picks| == |existing|
    ensures value == Value(existing, rot, size, tol, picks)
    ensures forall c :: Fits(c, |existing|, |rot|) && |c| == |existing| ==> value <= Value(existing, rot, size, tol, c)
  {
    var n, m := |existing|, |rot|;
    var dist := Distance(existing[0], rot[0], size);
    var dp := [Weight(dist, tol, Big(n, size)) as int] + seq(m - 1, _ => Inf(n, size));
    var choice: seq<seq<int>> := [];
    ghost var chains := seq(m, j => [j]);
    FirstRow(dp, chains, existing, rot, size, tol);
    var i := 1;
    while i < n
      invariant 1 <= i <= n
      invariant RowDone(dp, chains, choice, existing, rot, size, tol, i - 1)
    {
      RowFinite(dp, chains, choice, existing, rot, size, tol, i - 1);
      var next, back := FillRow(dp, existing, rot, size, tol, i);
      RowStep(dp, chains, choice, next, back, existing, rot, size, tol, i);
      dp, chains, choice := next, Longer(chains, back), choice + [back];
      i := i + 1;
    }
    var j := ArgMin(dp);
    RowFinite(dp, chains, choice, existing, rot, size, tol, n - 1);
    LastInRow(dp, n, m, Inf(n, size), j);
    RowReached(dp, chains, choice, existing, rot, size, tol, n - 1, j);
    LeastOfRow(dp, existing, rot, size, tol, j);
    picks := Backtrack(choice, j, chains[j]);
    value := dp[j];
  }

  lemma {:induction false} FirstRow(dp: seq<int>, chains: seq<seq<int>>, existing: seq<int>, rot: seq<int>, size: nat,
        tol: nat)
    requires size > 0 && 0 < |existing| <= |rot| && |dp| == |chains| == |rot|
    requires dp[0] == Weight(Distance(existing[0], rot[0], size), tol, Big(|existing|, size)) && chains[0] == [0]
    requires forall j :: 0 < j < |dp| ==> dp[j] == Inf(|existing|, size)
    ensures RowDone(dp, chains, [], existing, rot, size, tol, 0)
  {
    FirstValue(existing, rot, size, tol);
    forall c | Fits(c, |existing|, |rot|) && |c| == 1 ensures dp[c[0]] <= Value(existing, rot, size, tol, c) {
      assert c == [0];
    }
  }

  lemma {:induction false} FirstValue(existing: seq<int>, rot: seq<int>, size: nat, tol: nat)
    requires size > 0 && 0 < |existing| <= |rot|
    ensures Fits([0], |existing|, |rot|)
    ensures Value(existing, rot, size, tol, [0]) ==
        Weight(Distance(existing[0], rot[0], size), tol, Big(|existing|, size))
  {
    var d := Distance(existing[0], rot[0], size);
    assert Distances(existing, rot, size, [0]) == [d];
    assert [d][..0] == [];
    assert Sum([d], tol, Big(|existing|, size)) ==
        Sum([], tol, Big(|existing|, size)) + Weight(d, tol, Big(|existing|, size));
  }

  lemma {:induction false} LastInRow(dp: seq<int>, n: nat, m: nat, inf: nat, j: nat)
    requires 0 < n <= m && FiniteRow(dp, n, m, n - 1, inf)
    requires j < |dp| && forall k :: 0 <= k < |dp| ==> dp[j] <= dp[k]
    ensures InRow(n, m, n - 1, j)
  {
    assert InRow(n, m, n - 1, n - 1);
  }

  lemma {:induction false} RowReached(dp: seq<int>, chains: seq<seq<int>>, choice: seq<seq<int>>,
                   existing: seq<int>, rot: seq<int>, size: nat, tol: nat, i: nat, j: nat)
    requires size > 0 && RowDone(dp, chains, choice, existing, rot, size, tol, i)
    requires j < |rot| && InRow(|existing|, |rot|, i, j)
    ensures Reached(dp[j], chains[j], choice, existing, rot, size, tol, i, j)
  {
  }

  lemma {:induction false} LeastOfRow(dp: seq<int>, existing: seq<int>, rot: seq<int>, size: nat, tol: nat, j: nat)
    requires size > 0 && 0 < |existing| <= |rot| == |dp| && LowerBound(dp, existing, rot, size, tol, |existing| - 1)
    requires j < |dp| && forall k :: 0 <= k < |dp| ==> dp[j] <= dp[k]
    ensures forall c :: Fits(c, |existing|, |rot|) && |c| == |existing| ==> dp[j] <= Value(existing, rot, size, tol, c)
  {
    forall c | Fits(c, |existing|, |rot|) && |c| == |existing|
      ensures dp[j] <= Value(existing, rot, size, tol, c)
    {
      assert dp[c[|existing| - 1]] <= Value(existing, rot, size, tol, c);
    }
  }

  // ----- every rotation -----

  /** The targets read from number s on. */
  function Rotated(targets: seq<int>, s: nat): seq<int>
    requires s <= |targets|
  {
    targets[s..] + targets[..s]
  }

  function Picks(c: seq<int>, s: nat, m: nat): (p: seq<int>)
    requires m > 0
    ensures |p| == |c|
    ensures forall i :: 0 <= i < |c| ==> p[i] == (s + c[i]) % m
  {
    seq(|c|, i requires 0 <= i < |c| => (s + c[i]) % m)
  }

  /** An order-keeping plan, seen from the target of its first node. */
  function Chain(q: seq<int>, m: nat): (c: seq<int>)
    requires m > 0
    ensures |c| == |q|
    ensures forall i :: 0 <= i < |q| ==> c[i] == Turned(q, i, m)
  {
    seq(|q|, i requires 0 <= i < |q| => Turned(q, i, m))
  }

  lemma {:induction false} RotatedAt(targets: seq<int>, s: nat, x: nat)
    requires s < |targets| && x < |targets|
    ensures Rotated(targets, s)[x] == targets[(s + x) % |targets|]
  {
    var m := |targets|;
    if s + x < m {
      SmallMod(s + x, m);
    } else {
      ModIs(s + x, m, 1);
    }
  }

  lemma {:induction false} RisesByOne(c: seq<int>, i: nat, j: nat)
    requires i <= j < |c| && forall a, b :: 0 <= a < b < |c| ==> c[a] < c[b]
    ensures c[j] - c[i] >= j - i
    decreases j - i
  {
    if i < j { RisesByOne(c, i, j - 1); }
  }

  /** Choices with the first node fixed, over all rotations, are exactly the order-keeping plans. */
  lemma {:induction false} ChainFits(q: seq<int>, m: nat)
    requires q != [] && |q| <= m && KeepsOrder(q, m)
    ensures Fits(Chain(q, m), |q|, m)
    ensures Picks(Chain(q, m), q[0], m) == q
  {
    var c, n := Chain(q, m), |q|;
    SmallMod(0, m);
    forall i | 0 <= i < n ensures i <= c[i] <= m - n + i {
      RisesByOne(c, 0, i);
      RisesByOne(c, i, n - 1);
    }
    forall i | 0 <= i < n ensures (q[0] + c[i]) % m == q[i] {
      BackToPick(q[i], q[0], m);
    }
  }

  lemma {:induction false} BackToPick(x: int, s: int, m: nat)
    requires 0 <= x < m && 0 <= s < m
    ensures (s + (x - s) % m) % m == x
  {
    if x >= s {
      SmallMod(x - s, m);
      SmallMod(x, m);
    } else {
      ModIs(x - s, m, -1);
      ModIs(x + m, m, 1);
    }
  }

  lemma {:induction false} PicksKeepOrder(c: seq<int>, s: nat, m: nat)
    requires Fits(c, |c|, m) && s < m
    ensures KeepsOrder(Picks(c, s, m), m)
  {
    var p := Picks(c, s, m);
    forall i | 0 <= i < |c| ensures Turned(p, i, m) == c[i] {
      SmallMod(s, m);
      TurnFrom(s, c[i], m);
    }
  }

  lemma {:induction false} TurnFrom(s: nat, x: nat, m: nat)
    requires s < m && x < m
    ensures ((s + x) % m - s) % m == x
  {
    if s + x < m {
      SmallMod(s + x, m);
      SmallMod(x, m);
    } else {
      ModIs(s + x, m, 1);
      ModIs(x - m, m, -1);
    }
  }

  lemma {:induction false} SameDistances(existing: seq<int>, targets: seq<int>, size: nat, c: seq<int>, s: nat)
    requires size > 0 && s < |targets| && Fits(c, |existing|, |targets|)
    ensures Distances(existing, Rotated(targets, s), size, c) ==
        Distances(existing, targets, size, Picks(c, s, |targets|))
  {
    forall i | 0 <= i < |c| ensures Rotated(targets, s)[c[i]] == targets[(s + c[i]) % |targets|] {
      RotatedAt(targets, s, c[i]);
    }
  }

  /** The weight of a plan. */
  ghost function PlanSum(existing: seq<int>, targets: seq<int>, size: nat, tol: nat, q: seq<int>): nat
    requires size > 0 && |q| <= |existing| && KeepsOrder(q, |targets|)
  {
    Sum(Distances(existing, targets, size, q), tol, Big(|existing|, size))
  }

  /** value is the least weight of the plans whose first node goes to one of the first s targets. */
  ghost predicate BestUpTo(value: nat, existing: seq<int>, targets: seq<int>, size: nat, tol: nat, s: nat)
    requires size > 0
  {
    forall q :: KeepsOrder(q, |targets|) && |q| == |existing| && 0 < |q| && q[0] < s ==>
      value <= PlanSum(existing, targets, size, tol, q)
  }

  lemma {:induction false} RotationBest(value: nat, best: nat, existing: seq<int>, targets: seq<int>, size: nat,
        tol: nat, s: nat)
    requires size > 0 && 0 < |existing| <= |targets| && s < |targets|
    requires best <= value && BestUpTo(best, existing, targets, size, tol, s)
    requires forall c :: Fits(c, |existing|, |targets|) && |c| == |existing| ==>
               value <= Value(existing, Rotated(targets, s), size, tol, c)
    ensures BestUpTo(best, existing, targets, size, tol, s + 1)
  {
    forall q | KeepsOrder(q, |targets|) && |q| == |existing| && q[0] < s + 1
      ensures best <= PlanSum(existing, targets, size, tol, q)
    {
      if q[0] == s {
        ChainFits(q, |targets|);
        SameDistances(existing, targets, size, Chain(q, |targets|), s);
      }
    }
  }

  lemma {:induction false} BestMono(value: nat, best: nat, existing: seq<int>, targets: seq<int>, size: nat, tol: nat,
        s: nat)
    requires size > 0 && best <= value && BestUpTo(value, existing, targets, size, tol, s)
    ensures BestUpTo(best, existing, targets, size, tol, s)
  {
  }

  /** Existing positions to targets in ring order: no order-keeping plan moves
      fewer nodes, and none that moves as few goes less far in all. */
  method Assign(existing: seq<int>, targets: seq<int>, size: nat, tol: nat) returns (cost: Cost, picks: seq<int>)
    requires size > 0 && 0 < |existing| <= |targets|
    ensures |picks| == |existing| && KeepsOrder(picks, |targets|)
    ensures cost == CostOf(Distances(existing, targets, size, picks), tol)
    ensures forall q :: KeepsOrder(q, |targets|) && |q| == |existing| ==>
              NoWorse(cost, CostOf(Distances(existing, targets, size, q), tol))
  {
    var m := |targets|;
    var best: nat := 0;
    picks := [];
    var s := 0;
    while s < m
      invariant 0 <= s <= m
      invariant s > 0 ==> IsPlan(best, existing, targets, size, tol, picks)
      invariant BestUpTo(best, existing, targets, size, tol, s)
    {
      best, picks := TryRotation(best, picks, existing, targets, size, tol, s);
      s := s + 1;
    }
    cost := ReadCost(best, Big(|existing|, size), existing, targets, size, tol, picks);
    BestIsLeast(existing, targets, size, tol, picks);
  }

  /** picks is an order-keeping plan, and that is its weight. */
  ghost predicate IsPlan(best: nat, existing: seq<int>, targets: seq<int>, size: nat, tol: nat, picks: seq<int>)
    requires size > 0
  {
    |picks| == |existing| && KeepsOrder(picks, |targets|) && best == PlanSum(existing, targets, size, tol, picks)
  }

  /** One rotation of the targets: its best plan is kept when it weighs less than the best so far. */
  method TryRotation(best: nat, picks: seq<int>, existing: seq<int>, targets: seq<int>, size: nat, tol: nat, s: nat)
    returns (best': nat, picks': seq<int>)
    requires size > 0 && 0 < |existing| <= |targets| && s < |targets|
    requires s > 0 ==> IsPlan(best, existing, targets, size, tol, picks)
    requires BestUpTo(best, existing, targets, size, tol, s)
    ensures IsPlan(best', existing, targets, size, tol, picks')
    ensures BestUpTo(best', existing, targets, size, tol, s + 1)
  {
    var value, c := BestOfRotation(existing, Rotated(targets, s), size, tol);
    best', picks' := best, picks;
    if s == 0 || value < best {
      if s > 0 { BestMono(best, value, existing, targets, size, tol, s); }
      best', picks' := value, Picks(c, s, |targets|);
      PicksKeepOrder(c, s, |targets|);
      SameDistances(existing, targets, size, c, s);
    }
    RotationBest(value, best', existing, targets, size, tol, s);
  }

  /** The count of moves and the distance, read back from the weight. */
  method ReadCost(best: nat, big: nat, ghost existing: seq<int>, ghost targets: seq<int>, ghost size: nat,
        ghost tol: nat, ghost picks: seq<int>)
    returns (cost: Cost)
    requires size > 0 && big == Big(|existing|, size) && IsPlan(best, existing, targets, size, tol, picks)
    ensures cost == CostOf(Distances(existing, targets, size, picks), tol)
  {
    ghost var ds := Distances(existing, targets, size, picks);
    TotalBelowBig(ds, size, |existing|);
    SumDecodes(ds, tol, big);
    cost := Cost(best / big, best % big);
  }

  lemma {:induction false} BestIsLeast(existing: seq<int>, targets: seq<int>, size: nat, tol: nat, picks: seq<int>)
    requires size > 0 && |picks| == |existing| > 0 && KeepsOrder(picks, |targets|)
    requires BestUpTo(PlanSum(existing, targets, size, tol, picks), existing, targets, size, tol, |targets|)
    ensures forall q :: KeepsOrder(q, |targets|) && |q| == |existing| ==>
              NoWorse(CostOf(Distances(existing, targets, size, picks), tol),
                  CostOf(Distances(existing, targets, size, q), tol))
  {
    forall q | KeepsOrder(q, |targets|) && |q| == |existing|
      ensures NoWorse(CostOf(Distances(existing, targets, size, picks), tol),
          CostOf(Distances(existing, targets, size, q), tol))
    {
      LeastSumIsBest(Distances(existing, targets, size, picks), Distances(existing, targets, size, q), tol, size,
          |existing|);
    }
  }
}
