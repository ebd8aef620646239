/** Floor division facts the evenly spaced positions rest on. */
module Arith {
  lemma {:induction false} DivIs(x: int, m: int, q: int)
    requires m > 0 && q * m <= x < q * m + m
    ensures x / m == q
  {
    var d := x / m;
    assert d * m <= x < d * m + m;
    if d < q { MulLe(d + 1, q, m); }
    if d > q { MulLe(q + 1, d, m); }
  }

  lemma {:induction false} MulLe(a: int, b: int, m: int)
    requires a <= b && m >= 0
    ensures a * m <= b * m
  {
    assert (b - a) * m == b * m - a * m;
    MulNonNegative(b - a, m);
  }

  lemma {:induction false} MulNonNegative(a: int, m: int)
    requires a >= 0 && m >= 0
    ensures a * m >= 0
  {
  }

  /** The floor of a sum is the sum of the floors, or one more. */
  lemma {:induction false} FloorAdd(x: int, y: int, m: int)
    requires m > 0
    ensures x / m + y / m <= (x + y) / m <= x / m + y / m + 1
  {
    var p, q := x / m, y / m;
    assert p * m <= x < p * m + m && q * m <= y < q * m + m;
    assert (p + q) * m == p * m + q * m;
    if x + y < (p + q) * m + m {
      DivIs(x + y, m, p + q);
    } else {
      assert (p + q + 1) * m == (p + q) * m + m;
      DivIs(x + y, m, p + q + 1);
    }
  }

  lemma {:induction false} FloorMono(x: int, y: int, m: int)
    requires m > 0 && x <= y
    ensures x / m <= y / m
  {
    FloorAdd(x, y - x, m);
  }

  lemma {:induction false} FloorShift(x: int, k: int, m: int)
    requires m > 0
    ensures (x + k * m) / m == x / m + k
  {
    var q := x / m;
    assert q * m <= x < q * m + m;
    assert (q + k) * m == q * m + k * m;
    DivIs(x + k * m, m, q + k);
  }

  lemma {:induction false} ModShift(x: int, k: int, m: int)
    requires m > 0
    ensures (x + k * m) % m == x % m
  {
    FloorShift(x, k, m);
    assert x == (x / m) * m + x % m;
    assert (x / m + k) * m == (x / m) * m + k * m;
  }

  lemma {:induction false} ModIs(x: int, m: int, k: int)
    requires m > 0 && k * m <= x < k * m + m
    ensures x % m == x - k * m
  {
    DivIs(x, m, k);
  }

  lemma {:induction false} SmallMod(a: int, size: int)
    requires 0 <= a < size
    ensures a % size == a
  {
  }
}
