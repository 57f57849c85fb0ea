/** Facts about Euclidean `%` that the scan cursor and the anchor choice rely on
    (the C++ `%` agrees with Dafny's on the non-negative operands used there). */
module Arith {

  lemma ModSmall(x: int, m: int)
    requires 0 <= x < m
    ensures x % m == x
  {
  }

  lemma ModOnce(x: int, m: int)
    requires 1 <= m <= x < 2 * m
    ensures x % m == x - m
  {
  }

  lemma MulNonneg(a: int, b: int)
    requires 0 <= a && 0 <= b
    ensures 0 <= a * b
  {
  }

  /** The remainder is determined by any quotient/remainder decomposition. */
  lemma ModUnique(y: int, m: int, q: int, r: int)
    requires 1 <= m && y == q * m + r && 0 <= r < m
    ensures y % m == r
  {
    var q', r' := y / m, y % m;
    assert y == q' * m + r';
    assert (q - q') * m == r' - r;
    if q > q' {
      MulNonneg(q - q' - 1, m);
      assert false;
    } else if q < q' {
      MulNonneg(q' - q - 1, m);
      assert false;
    }
  }

  /** Adding a multiple of m leaves the remainder modulo m unchanged. */
  lemma ModShift(x: int, k: int, m: int)
    requires 1 <= m
    ensures (x + k * m) % m == x % m
  {
    assert x == (x / m) * m + x % m;
    ModUnique(x + k * m, m, x / m + k, x % m);
  }
}
