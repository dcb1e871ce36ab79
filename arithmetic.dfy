/** Facts about multiplication and Euclidean division that the alignment
    proofs need and the solver does not find on its own. */
module Arithmetic {

  lemma MulAtLeast(d: int, m: int)
    requires d >= 1 && m > 0
    ensures d * m >= m
  {
    var e := d - 1;
    assert d * m == e * m + m;
  }

  lemma MulMonotone(x: int, y: int, m: int)
    requires x <= y && m > 0
    ensures x * m <= y * m
  {
    if x < y {
      MulAtLeast(y - x, m);
      assert (y - x) * m == y * m - x * m;
    }
  }

  /** Quotient and remainder are determined by `a == k * m + r, 0 <= r < m`. */
  lemma DivModUnique(a: int, m: int, k: int, r: int)
    requires m > 0 && a == k * m + r && 0 <= r < m
    ensures a / m == k && a % m == r
  {
    var q := a / m;
    var s := a % m;
    assert a == q * m + s;
    assert k * m - q * m == s - r;
    assert (k - q) * m == k * m - q * m;
    if k > q {
      MulAtLeast(k - q, m);
    } else if k < q {
      MulAtLeast(q - k, m);
    }
  }
}
