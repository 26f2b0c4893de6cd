/** The arithmetic that several components share. */
module Arithmetic {
  function Min(a: int, b: int): int { if a <= b then a else b }

  // 256 to the k-th power.
  function Pow256(k: nat): (p: int)
    ensures p >= 1
  {
    if k == 0 then 1 else 0x100 * Pow256(k - 1)
  }

  lemma AtLeast(x: int, p: int)
    requires p > 0 && x != 0
    ensures x * p >= p || x * p <= -p
  {
    if x > 0 { assert x * p >= p; } else { assert x * p <= -p; }
  }

  lemma AtMost(x: int, y: int, p: int)
    requires x <= y && p > 0
    ensures x * p <= y * p
  {
  }

  // Quotient and remainder are determined by the equation and the bounds.
  lemma Division(v: int, m: int, q: int, r: int)
    requires m > 0 && v == q * m + r && 0 <= r < m
    ensures v / m == q && v % m == r
  {
    var x := v / m - q;
    assert v == v / m * m + v % m;
    assert x * m == v / m * m - q * m;
    if x != 0 {
      AtLeast(x, m);
    }
  }
}
