/** Facts about products and powers that more than one component needs. */
module Arithmetic {
  /** n is a power of two: halving it while it is even leads to 1. */
  predicate PowerOfTwo(n: int) { n > 0 && (n == 1 || (n % 2 == 0 && PowerOfTwo(n / 2))) }

  function Pow(b: int, k: nat): int { if k == 0 then 1 else b * Pow(b, k - 1) }

  /** How many values words of so many bytes have. */
  lemma WordValues()
    ensures Pow(256, 4) == 0x1_0000_0000 && Pow(256, 8) == 0x1_0000_0000_0000_0000
  {
    assert Pow(256, 2) == 65536;
    assert Pow(256, 4) == 65536 * 65536;
    assert Pow(256, 6) == 65536 * Pow(256, 4);
  }

  lemma AtLeastOnce(d: int, b: int)
    requires d >= 1 && b >= 0
    ensures d * b >= b
  {
  }

  /** Strictly between -b and b lies no multiple of b but 0. */
  lemma NoMultiple(d: int, b: int)
    requires -b < d * b < b
    ensures d == 0
  {
    if d >= 1 { AtLeastOnce(d, b); } else if d <= -1 { AtLeastOnce(-d, b); }
  }
}
