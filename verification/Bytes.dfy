/** Bytes, and division by a positional weight. */
module Bytes {

  type Byte = x: int | 0 <= x < 0x100

  lemma SmallMultiple(k: int, d: int)
    requires -d < k * d < d
    ensures k == 0
  {
    assert k >= 1 ==> (k - 1) * d >= 0;
    assert k <= -1 ==> (-k - 1) * d >= 0;
  }

  /** Quotient and remainder are the only numbers that fit. */
  lemma DivMod(x: int, d: int, q: int, r: int)
    requires 0 <= r < d && x == q * d + r
    ensures x / d == q && x % d == r
  {
    assert x == x / d * d + x % d;
    assert (x / d - q) * d == x / d * d - q * d;
    SmallMultiple(x / d - q, d);
  }
}
