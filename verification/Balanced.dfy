/** Evenly spaced positions, and the shares they give a new datacenter whose
    racks all have the same number of nodes. */
module Balanced {
  import opened Arith
  import opened Ring
  import opened Shares

  const DC_OFFSET := 100
  const EVEN_TOLERANCES := 4

  /** Position i of count evenly spaced ones, for any i round the circle. */
  function Spot(i: int, count: int, size: int): int
    requires count > 0
  {
    (i * size) / count
  }

  function DcOffset(index: int): int {
    index * DC_OFFSET
  }

  /** count positions spaced size / count apart, the first one at offset. */
  function BalancedPositions(count: nat, size: nat, offset: int): (r: Result<seq<int>>)
    ensures r.Ok? ==> |r.value| == count
  {
    if count < 1 then Ok([])
    else if !(0 <= offset < size / count) then TokenError
    else Ok(seq(count, i requires 0 <= i < count => Spot(i, count, size) + offset))
  }

  function Max(a: int, b: int): int {
    if a >= b then a else b
  }

  /** How far from its position a node may stay. */
  function Tolerance(count: nat, size: nat): nat
    requires count > 0
  {
    Max(1, size / (count * 10000))
  }

  // ----- gaps -----

  lemma {:induction false} SpotWindow(i: int, w: int, count: int, size: int)
    requires count > 0
    ensures (w * size) / count <= Spot(i + w, count, size) - Spot(i, count, size) <= (w * size) / count + 1
  {
    assert (i + w) * size == i * size + w * size;
    FloorAdd(i * size, w * size, count);
  }

  lemma {:induction false} SpotTurn(i: int, count: int, size: int)
    requires count > 0
    ensures Spot(i + count, count, size) == Spot(i, count, size) + size
  {
    assert (i + count) * size == i * size + size * count;
    FloorShift(i * size, size, count);
  }

  function Ceil(a: int, b: int): int
    requires b > 0
  {
    (a + b - 1) / b
  }

  /** A step round the circle is the floor of an even share, or its ceiling. */
  lemma {:induction false} SpotStep(i: int, count: int, size: int)
    requires count > 0
    ensures var gap := Spot(i + 1, count, size) - Spot(i, count, size);
            gap == size / count || gap == Ceil(size, count)
  {
    SpotWindow(i, 1, count, size);
    var q := size / count;
    assert q * count <= size < q * count + count;
    if q * count == size {
      assert (i + 1) * size == i * size + q * count;
      FloorShift(i * size, q, count);
    } else {
      assert (q + 1) * count == q * count + count;
      DivIs(size + count - 1, count, q + 1);
    }
  }

  lemma {:induction false} SpotRise(i: int, j: int, count: int, size: int)
    requires count > 0 && i <= j
    ensures Spot(j, count, size) - Spot(i, count, size) >= (j - i) * (size / count)
    decreases j - i
  {
    if i < j {
      SpotRise(i, j - 1, count, size);
      SpotWindow(j - 1, 1, count, size);
      assert (j - i) * (size / count) == (j - 1 - i) * (size / count) + size / count;
    } else {
      assert (j - i) * (size / count) == 0;
    }
  }

  lemma {:induction false} SpotZero(count: int, size: int)
    requires count > 0
    ensures Spot(0, count, size) == 0 && Spot(count, count, size) == size
  {
    SpotTurn(0, count, size);
    assert 0 * size == 0;
    DivIs(0, count, 0);
  }

  lemma {:induction false} SpotAbove(i: int, j: int, count: int, size: int)
    requires count > 0 && i < j && size / count >= 1
    ensures Spot(j, count, size) >= Spot(i, count, size) + size / count
  {
    SpotRise(i, j, count, size);
    MulLe(1, j - i, size / count);
  }

  /** The positions are in order, on the circle, from offset on. */
  lemma {:induction false} BalancedValid(count: nat, size: nat, offset: int)
    requires count > 0 && 0 <= offset < size / count
    ensures var ps := BalancedPositions(count, size, offset).value;
            Increasing(ps) && OnCircle(ps, size)
  {
    var ps := BalancedPositions(count, size, offset).value;
    SpotZero(count, size);
    forall i, j | 0 <= i < j < |ps| ensures ps[i] < ps[j] {
      SpotAbove(i, j, count, size);
    }
    forall i | 0 <= i < |ps| ensures 0 <= ps[i] < size {
      SpotAbove(i, count, count, size);
      if i > 0 { SpotAbove(0, i, count, size); }
    }
  }

  /** Every gap of a balanced ring, the one through zero included, is the floor or the ceiling of size / count. */
  lemma {:induction false} BalancedGaps(count: nat, size: nat, offset: int, k: nat)
    requires k < count && 0 <= offset < size / count
    ensures var ps := BalancedPositions(count, size, offset).value;
            Length(ps, k, size) == size / count || Length(ps, k, size) == Ceil(size, count)
  {
    BalancedLength(count, size, offset, k);
    SpotStep(k - 1, count, size);
  }

  lemma {:induction false} BalancedLength(count: nat, size: nat, offset: int, k: nat)
    requires k < count && 0 <= offset < size / count
    ensures Length(BalancedPositions(count, size, offset).value, k, size)
            == Spot(k, count, size) - Spot(k - 1, count, size)
  {
    var ps := BalancedPositions(count, size, offset).value;
    BalancedValid(count, size, offset);
    SpotZero(count, size);
    if count == 1 {
      SpotTurn(-1, count, size);
    } else if k == 0 {
      SpotTurn(-1, count, size);
      assert ps[0] < ps[count - 1];
      WrapAround(ps[0], ps[count - 1], size);
    } else {
      assert ps[k - 1] < ps[k];
      SmallMod(ps[k] - ps[k - 1], size);
    }
  }

  // ----- datacenters apart -----

  lemma {:induction false} MulCancel(a: int, b: int, m: int)
    requires m > 0 && a * m > b * m
    ensures a > b
  {
    if a <= b { MulLe(a, b, m); }
  }

  lemma {:induction false} SpotAbovePoint(a: int, n1: nat, n2: nat, size: int)
    requires n1 > 0 && n2 > 0
    ensures (Spot(a, n1, size) + 1) * (n1 * n2) > (a * n2) * size
  {
    var x := Spot(a, n1, size) + 1;
    assert x * n1 >= a * size + 1;
    MulLe(a * size + 1, x * n1, n2);
    assert (x * n1) * n2 == x * (n1 * n2);
    assert (a * size + 1) * n2 == (a * n2) * size + n2;
  }

  lemma {:induction false} SpotBelowPoint(b: int, n1: nat, n2: nat, size: int)
    requires n1 > 0 && n2 > 0
    ensures Spot(b, n2, size) * (n1 * n2) <= (b * n1) * size
  {
    var y := Spot(b, n2, size);
    MulLe(y * n2, b * size, n1);
    assert (y * n2) * n1 == y * (n1 * n2);
    assert (b * size) * n1 == (b * n1) * size;
  }

  /** Different fractions of the circle are size / (n1 * n2) apart at least. */
  lemma {:induction false} SpotsApart(a: int, n1: nat, b: int, n2: nat, size: int, d: nat)
    requires n1 > 0 && n2 > 0 && n1 * n2 * (d + 1) <= size
    requires a * n2 > b * n1
    ensures Spot(a, n1, size) - Spot(b, n2, size) > d
  {
    var x, y, n := Spot(a, n1, size), Spot(b, n2, size), n1 * n2;
    SpotAbovePoint(a, n1, n2, size);
    SpotBelowPoint(b, n1, n2, size);
    MulNonNegative(n, d + 1);
    MulLe(b * n1 + 1, a * n2, size);
    assert (b * n1 + 1) * size == (b * n1) * size + size;
    assert (y + d + 1) * n == y * n + n * (d + 1);
    MulNonNegative(n1 - 1, n2);
    assert n == (n1 - 1) * n2 + n2;
    MulCancel(x + 1, y + d + 1, n);
  }

  /** Two datacenters with different indexes never share a position when the
      circle is large enough for their node counts and their distance. */
  lemma {:induction false} DatacentersApart(n1: nat, i: nat, n2: nat, j: nat, size: nat, a: nat, b: nat)
    requires i != j && a < n1 && b < n2
    requires n1 * n2 * (DC_OFFSET * (if i > j then i - j else j - i) + 1) <= size
    requires BalancedPositions(n1, size, DcOffset(i)).Ok? && BalancedPositions(n2, size, DcOffset(j)).Ok?
    ensures BalancedPositions(n1, size, DcOffset(i)).value[a] != BalancedPositions(n2, size, DcOffset(j)).value[b]
  {
    var d := DC_OFFSET * (if i > j then i - j else j - i);
    if a * n2 > b * n1 {
      SpotsApart(a, n1, b, n2, size, d);
    } else if a * n2 < b * n1 {
      assert n2 * n1 == n1 * n2;
      SpotsApart(b, n2, a, n1, size, d);
    } else {
      SameFraction(a, n1, b, n2, size);
    }
  }

  lemma {:induction false} SameFraction(a: int, n1: nat, b: int, n2: nat, size: int)
    requires n1 > 0 && n2 > 0 && a * n2 == b * n1
    ensures Spot(a, n1, size) == Spot(b, n2, size)
  {
    assert (b * size) * n1 == (b * n1) * size == (a * n2) * size == (a * size) * n2;
    SameQuotient(a * size, n1, b * size, n2);
  }

  /** Equal fractions have the same floor. */
  lemma {:induction false} SameQuotient(u: int, n1: nat, v: int, n2: nat)
    requires n1 > 0 && n2 > 0 && v * n1 == u * n2
    ensures u / n1 == v / n2
  {
    var x := u / n1;
    assert x * n1 <= u < x * n1 + n1;
    QuotientBelow(x, u, n1, v, n2);
    QuotientAbove(x, u, n1, v, n2);
    DivIs(v, n2, x);
  }

  lemma {:induction false} QuotientBelow(x: int, u: int, n1: nat, v: int, n2: nat)
    requires n1 > 0 && n2 > 0 && v * n1 == u * n2 && x * n1 <= u
    ensures x * n2 <= v
  {
    MulLe(x * n1, u, n2);
    assert (x * n1) * n2 == (x * n2) * n1;
    if x * n2 > v { MulLe(v + 1, x * n2, n1); }
  }

  lemma {:induction false} QuotientAbove(x: int, u: int, n1: nat, v: int, n2: nat)
    requires n1 > 0 && n2 > 0 && v * n1 == u * n2 && u + 1 <= x * n1 + n1
    ensures v < x * n2 + n2
  {
    MulLe(u + 1, x * n1 + n1, n2);
    assert (x * n1 + n1) * n2 == (x * n2 + n2) * n1;
    assert (u + 1) * n2 == u * n2 + n2;
    if x * n2 + n2 <= v { MulLe(x * n2 + n2, v, n1); }
  }
}
