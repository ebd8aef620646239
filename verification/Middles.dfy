/** Splitting a ring at the middle of its largest range, and what that does to
    the lengths of the ranges. */
module Middles {
  import opened Arith
  import opened Sorting
  import opened Ring
  import opened Shares

  /** The position before number k, round the ring. */
  function Prev(ps: seq<int>, k: nat): int
    requires k < |ps|
  {
    ps[if k == 0 then |ps| - 1 else k - 1]
  }

  /** The way round from a to b; all the way from a position to itself. */
  function Way(a: int, b: int, size: nat): nat
    requires size > 0
  {
    if a == b then size else (b - a) % size
  }

  /** The middle of the range that ends at ps[k]. */
  function Middle(ps: seq<int>, k: nat, size: nat): int
    requires k < |ps| && size > 0
  {
    (Prev(ps, k) + Length(ps, k, size) / 2) % size
  }

  lemma {:induction false} LengthIsWay(ps: seq<int>, k: nat, size: nat)
    requires k < |ps| && Increasing(ps) && size > 0
    ensures Length(ps, k, size) == Way(Prev(ps, k), ps[k], size)
  {
    if |ps| > 1 {
      if k == 0 { assert ps[0] < ps[|ps| - 1]; } else { assert ps[k - 1] < ps[k]; }
    }
  }

  /** Way, without the modulo. */
  lemma {:induction false} WayIs(a: int, b: int, size: nat)
    requires 0 <= a < size && 0 <= b < size
    ensures Way(a, b, size) == if a < b then b - a else b - a + size
  {
    if a < b { SmallMod(b - a, size); } else if b < a { WrapAround(b, a, size); }
  }

  /** A range is cut at its middle into its two halves. */
  lemma {:induction false} Halves(a: int, b: int, size: nat)
    requires 0 <= a < size && 0 <= b < size && Way(a, b, size) >= 2
    ensures var way, mid := Way(a, b, size), (a + Way(a, b, size) / 2) % size;
            && 0 <= mid < size && mid != a && mid != b
            && Way(a, mid, size) == way / 2 && Way(mid, b, size) == way - way / 2
            && mid == if a + way / 2 < size then a + way / 2 else a + way / 2 - size
  {
    WayIs(a, b, size);
    var half := Way(a, b, size) / 2;
    if a + half < size { SmallMod(a + half, size); } else { ModIs(a + half, size, 1); }
    WayIs(a, (a + half) % size, size);
    WayIs((a + half) % size, b, size);
  }

  /** The middle of a range lies in that range, on no position of the ring. */
  lemma {:induction false} MiddleInRange(ps: seq<int>, k: nat, size: nat)
    requires k < |ps| && Increasing(ps) && OnCircle(ps, size) && size > 0 && Length(ps, k, size) >= 2
    ensures 0 <= Middle(ps, k, size) < size && Middle(ps, k, size) !in ps
    ensures Owner(ps, Middle(ps, k, size)) == k
  {
    var mid, pre := Middle(ps, k, size), Prev(ps, k);
    assert 0 <= pre < size && 0 <= ps[k] < size;
    LengthIsWay(ps, k, size);
    Halves(pre, ps[k], size);
    WayIs(pre, ps[k], size);
    if k > 0 { assert ps[k - 1] < ps[k]; } else { assert |ps| > 1 ==> ps[0] < ps[|ps| - 1]; }
    OwnerSpec(ps, mid, k);
    forall i | 0 <= i < |ps| ensures ps[i] != mid {
      if i < k { assert ps[i] <= ps[k - 1]; } else if i > k { assert ps[k] < ps[i] <= ps[|ps| - 1]; }
    }
  }

  // ----- a position put in -----

  lemma {:induction false} InsertedAt(p: int, s: seq<int>) returns (x: nat)
    requires Increasing(s) && p !in s
    ensures x <= |s| && InsertInt(p, s) == s[..x] + [p] + s[x..]
    ensures (x > 0 ==> s[x - 1] < p) && (x < |s| ==> p < s[x])
  {
    if s == [] || p < s[0] {
      x := 0;
    } else {
      var y := InsertedAt(p, s[1..]);
      x := y + 1;
      PutInTail(p, s, y);
    }
  }

  lemma {:induction false} PutInTail(p: int, s: seq<int>, y: nat)
    requires s != [] && y < |s|
    ensures [s[0]] + (s[1..][..y] + [p] + s[1..][y..]) == s[..y + 1] + [p] + s[y + 1..]
  {
    assert s[1..][..y] == s[1..y + 1] && s[1..][y..] == s[y + 1..];
    assert s[..y + 1] == [s[0]] + s[1..y + 1];
  }

  /** Each range of the ring with p put in is a range of the ring before, or one of the two parts p cuts one into. */
  lemma {:induction false} RangesAfter(ps: seq<int>, p: int, x: nat, j: nat, size: nat)
    requires ps != [] && Increasing(ps) && x <= |ps| && j <= |ps| && size > 0
    requires Increasing(ps[..x] + [p] + ps[x..])
    ensures var ps', k := ps[..x] + [p] + ps[x..], if x < |ps| then x else 0;
            || (Prev(ps', j) == Prev(ps, k) && ps'[j] == p)
            || (Prev(ps', j) == p && ps'[j] == ps[k])
            || exists i :: 0 <= i < |ps| && i != k && Prev(ps', j) == Prev(ps, i) && ps'[j] == ps[i]
  {
    var ps', n := ps[..x] + [p] + ps[x..], |ps|;
    if j != x && j != (if x < n then x + 1 else 0) {
      var i := if j < x then j else j - 1;
      assert ps'[j] == ps[i];
      assert Prev(ps', j) == Prev(ps, i);
    }
  }

  /** The largest range is at most twice the smallest, plus one. */
  ghost predicate NearEven(ps: seq<int>, size: nat)
    requires size > 0
  {
    forall i, j :: 0 <= i < |ps| && 0 <= j < |ps| ==> Length(ps, i, size) <= 2 * Length(ps, j, size) + 1
  }

  /** No range is longer than range k. */
  ghost predicate Largest(ps: seq<int>, k: nat, size: nat)
    requires k < |ps| && size > 0
  {
    forall i :: 0 <= i < |ps| ==> Length(ps, i, size) <= Length(ps, k, size)
  }

  lemma {:induction false} PutInOnCircle(p: int, s: seq<int>, x: nat, size: nat)
    requires x <= |s| && OnCircle(s, size) && 0 <= p < size
    ensures OnCircle(s[..x] + [p] + s[x..], size)
  {
  }

  /** Where the middle of range k is put in: just before the range's end. */
  lemma {:induction false} MiddleInserted(ps: seq<int>, k: nat, size: nat) returns (x: nat)
    requires k < |ps| && Increasing(ps) && OnCircle(ps, size) && size > 0 && Length(ps, k, size) >= 2
    ensures x <= |ps| && k == if x < |ps| then x else 0
    ensures InsertInt(Middle(ps, k, size), ps) == ps[..x] + [Middle(ps, k, size)] + ps[x..]
    ensures Increasing(ps[..x] + [Middle(ps, k, size)] + ps[x..])
    ensures OnCircle(ps[..x] + [Middle(ps, k, size)] + ps[x..], size)
  {
    var mid := Middle(ps, k, size);
    MiddleInRange(ps, k, size);
    InsertIncreasing(mid, ps);
    x := InsertedAt(mid, ps);
    PutInOnCircle(mid, ps, x, size);
    OwnerSpec(ps, mid, if x < |ps| then x else 0);
  }

  /** A range after the split: one of the two halves, or a range from before. */
  ghost predicate HalfOrOld(length: nat, ps: seq<int>, k: nat, size: nat)
    requires k < |ps| && size > 0
  {
    || length == Length(ps, k, size) / 2
    || length == Length(ps, k, size) - Length(ps, k, size) / 2
    || exists i :: 0 <= i < |ps| && length == Length(ps, i, size)
  }

  lemma {:induction false} LengthsAfter(ps: seq<int>, k: nat, size: nat, j: nat)
    requires k < |ps| && Increasing(ps) && OnCircle(ps, size) && size > 0 && Length(ps, k, size) >= 2 && j <= |ps|
    ensures var ps' := InsertInt(Middle(ps, k, size), ps);
            |ps'| == |ps| + 1 && HalfOrOld(Length(ps', j, size), ps, k, size)
  {
    var x := MiddleInserted(ps, k, size);
    LengthIsWay(InsertInt(Middle(ps, k, size), ps), j, size);
    RangesAfter(ps, Middle(ps, k, size), x, j, size);
    WayAfter(ps, k, x, size, Prev(InsertInt(Middle(ps, k, size), ps), j), InsertInt(Middle(ps, k, size), ps)[j]);
  }

  /** The way from a to b is one of the two halves of range k, or another range. */
  lemma {:induction false} WayAfter(ps: seq<int>, k: nat, x: nat, size: nat, a: int, b: int)
    requires k < |ps| && Increasing(ps) && OnCircle(ps, size) && size > 0 && Length(ps, k, size) >= 2
    requires var mid := Middle(ps, k, size);
             || (a == Prev(ps, k) && b == mid) || (a == mid && b == ps[k])
             || exists i :: 0 <= i < |ps| && i != k && a == Prev(ps, i) && b == ps[i]
    ensures HalfOrOld(Way(a, b, size), ps, k, size)
  {
    assert 0 <= Prev(ps, k) < size && 0 <= ps[k] < size;
    LengthIsWay(ps, k, size);
    Halves(Prev(ps, k), ps[k], size);
    if i :| 0 <= i < |ps| && i != k && a == Prev(ps, i) && b == ps[i] {
      LengthIsWay(ps, i, size);
    }
  }

  /** Splitting the largest range keeps the ring near even. */
  lemma {:induction false} SplitKeepsNearEven(ps: seq<int>, k: nat, size: nat)
    requires k < |ps| && Increasing(ps) && OnCircle(ps, size) && size > 0 && Length(ps, k, size) >= 2
    requires NearEven(ps, size) && Largest(ps, k, size)
    ensures NearEven(InsertInt(Middle(ps, k, size), ps), size)
  {
    var ps' := InsertInt(Middle(ps, k, size), ps);
    LengthsAfter(ps, k, size, 0);
    forall i, j | 0 <= i < |ps'| && 0 <= j < |ps'| ensures Length(ps', i, size) <= 2 * Length(ps', j, size) + 1 {
      SplitBound(ps, k, size, i);
      SplitBound(ps, k, size, j);
    }
  }

  lemma {:induction false} SplitBound(ps: seq<int>, k: nat, size: nat, j: nat)
    requires k < |ps| && Increasing(ps) && OnCircle(ps, size) && size > 0 && Length(ps, k, size) >= 2
    requires NearEven(ps, size) && Largest(ps, k, size) && j <= |ps|
    ensures var ps' := InsertInt(Middle(ps, k, size), ps);
            |ps'| == |ps| + 1 && Length(ps', j, size) <= Length(ps, k, size) <= 2 * Length(ps', j, size) + 1
  {
    LengthsAfter(ps, k, size, j);
    WithinFactor(Length(InsertInt(Middle(ps, k, size), ps), j, size), ps, k, size);
  }

  lemma {:induction false} WithinFactor(length: nat, ps: seq<int>, k: nat, size: nat)
    requires k < |ps| && size > 0 && NearEven(ps, size) && Largest(ps, k, size) && HalfOrOld(length, ps, k, size)
    ensures length <= Length(ps, k, size) <= 2 * length + 1
  {
  }

  // ----- a full ring -----

  lemma {:induction false} AtLeastRank(ps: seq<int>, size: nat, i: nat)
    requires Increasing(ps) && OnCircle(ps, size) && i < |ps|
    ensures i <= ps[i]
  {
    if i > 0 { AtLeastRank(ps, size, i - 1); }
  }

  /** No more nodes than positions. */
  lemma {:induction false} RingFits(ps: seq<int>, size: nat)
    requires Increasing(ps) && OnCircle(ps, size)
    ensures |ps| <= size
  {
    if ps != [] { AtLeastRank(ps, size, |ps| - 1); }
  }

  lemma {:induction false} SideBySide(ps: seq<int>, size: nat, i: nat)
    requires Increasing(ps) && OnCircle(ps, size) && size > 0 && i < |ps|
    requires forall k :: 0 <= k < |ps| ==> Length(ps, k, size) < 2
    ensures ps[i] == ps[0] + i
  {
    if i > 0 {
      SideBySide(ps, size, i - 1);
      assert 0 <= ps[i - 1] < ps[i] < size;
      SmallMod(ps[i] - ps[i - 1], size);
      assert Length(ps, i, size) < 2;
    }
  }

  /** No range can be split exactly when every position of the circle is taken. */
  lemma {:induction false} FullRing(ps: seq<int>, size: nat)
    requires ps != [] && Increasing(ps) && OnCircle(ps, size) && size > 0
    ensures (forall k :: 0 <= k < |ps| ==> Length(ps, k, size) < 2) <==> |ps| == size
  {
    RingFits(ps, size);
    if forall k :: 0 <= k < |ps| ==> Length(ps, k, size) < 2 {
      SideBySide(ps, size, |ps| - 1);
      assert Length(ps, 0, size) < 2;
      if |ps| > 1 { WrapAround(ps[0], ps[|ps| - 1], size); }
    } else {
      var k :| 0 <= k < |ps| && Length(ps, k, size) >= 2;
      var x := MiddleInserted(ps, k, size);
      RingFits(ps[..x] + [Middle(ps, k, size)] + ps[x..], size);
    }
  }
}
