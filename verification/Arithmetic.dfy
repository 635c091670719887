/** Powers of two and division. */
module Arithmetic {
  function Pow2(n: nat): (p: nat)
    ensures p > 0
  {
    if n == 0 then 1 else 2 * Pow2(n - 1)
  }

  lemma Quotient(x: int, d: nat, q: int, r: nat)
    requires r < d && x == d * q + r
    ensures x / d == q && x % d == r
  {
    var k := x / d - q;
    assert x % d - r == -(d * k) by { assert d * (x / d) == d * q + d * k; }
  }
}
