/** Facts about Euclidean division shared by the seed loading and the
    letter shifts (Python's `//` and `%` by a positive divisor agree with
    Dafny's `/` and `%`). */
module Arithmetic {

  /** A positive multiple of a positive divisor is at least the divisor. */
  lemma MulAtLeast(d: int, m: int)
    requires d > 0 && m >= 1
    ensures d * m >= d
  {
    assert d * m == d * (m - 1) + d;
    assert d * (m - 1) >= 0;
  }

  /** Euclidean division is determined by any quotient and remainder that fit. */
  lemma DivUnique(k: int, d: int, q: int, r: int)
    requires d > 0 && 0 <= r < d && k == d * q + r
    ensures k / d == q && k % d == r
  {
    var q', r' := k / d, k % d;
    assert k == d * q' + r';
    assert d * q - d * q' == r' - r;
    assert d * (q - q') == r' - r;
    if q > q' {
      MulAtLeast(d, q - q');
    } else if q < q' {
      MulAtLeast(d, q' - q);
    }
  }
}
