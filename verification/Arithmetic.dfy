/** Facts about integer products and quotients that the solver does not find by itself. */
module Arithmetic {

  lemma MulGrows(d: int, m: nat)
    ensures d >= 1 ==> d * m >= m
    ensures d <= -1 ==> d * m + m <= 0
  {
    if d >= 1 { assert d * m == m + (d - 1) * m; }
    if d <= -1 { assert d * m + m == (d + 1) * m; }
  }

  /** Quotient and remainder are determined by the division equation. */
  lemma RemainderUnique(x: int, k: int, r: int, q: int)
    requires q > 0 && 0 <= r < q && x == k * q + r
    ensures x % q == r && x / q == k
  {
    var d := x / q - k;
    assert x == (x / q) * q + x % q;
    assert d * q == (x / q) * q - k * q;
    MulGrows(d, q);
  }
}
