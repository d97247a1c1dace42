/** The bitwise `&` on bytes. */
module Bits {
  import opened Bytes

  function And(x: Byte, mask: bv8): (r: Byte) {
    ((x as bv8) & mask) as int
  }

  // Each mask on a bit-vector, as arithmetic.

  lemma LowBits(x: bv8)
    ensures (x & 0x03) as int == x as int % 4
    ensures (x & 0x0f) as int == x as int % 16
  {
  }

  lemma LowSix(x: bv8)
    ensures (x & 0x3f) as int == x as int % 64
  {
  }

  lemma HighSix(x: bv8)
    ensures (x & 0xfc) as int == x as int / 4 * 4
  {
  }

  lemma HighFour(x: bv8)
    ensures (x & 0xf0) as int == x as int / 16 * 16
  {
  }

  lemma HighTwo(x: bv8)
    ensures (x & 0xc0) as int == x as int / 64 * 64
  {
  }

  lemma MiddleBits(x: bv8)
    ensures (x & 0x3c) as int == (x & 0x3f) as int - (x & 0x03) as int
    ensures (x & 0x30) as int == (x & 0x3f) as int - (x & 0x0f) as int
  {
  }

  lemma Differences(x: int)
    ensures x % 64 - x % 4 == x / 4 % 16 * 4
    ensures x % 64 - x % 16 == x / 16 % 4 * 16
  {
    DivMod(x, 64, x / 4 / 16, x / 4 % 16 * 4 + x % 4);
    DivMod(x, 64, x / 16 / 4, x / 16 % 4 * 16 + x % 16);
  }

  lemma ByteAsVector(x: Byte)
    ensures (x as bv8) as int == x
  {
    assert x % 0x100 == x;
  }

  // The masks of the base64 codec, in the pairs that split a byte or a sextet.

  lemma SplitAtTwo(x: Byte)
    ensures And(x, 0xfc) == x / 4 * 4 && And(x, 0x03) == x % 4
  {
    ByteAsVector(x);
    HighSix(x as bv8);
    LowBits(x as bv8);
  }

  lemma SplitAtFour(x: Byte)
    ensures And(x, 0xf0) == x / 16 * 16 && And(x, 0x0f) == x % 16
  {
    ByteAsVector(x);
    HighFour(x as bv8);
    LowBits(x as bv8);
  }

  lemma SplitAtSix(x: Byte)
    ensures And(x, 0xc0) == x / 64 * 64 && And(x, 0x3f) == x % 64
  {
    ByteAsVector(x);
    HighTwo(x as bv8);
    LowSix(x as bv8);
  }

  lemma SplitSextetAtFour(x: Byte)
    ensures And(x, 0x30) == x / 16 % 4 * 16 && And(x, 0x0f) == x % 16
  {
    SplitAtFour(x);
    SplitAtSix(x);
    MiddleBits(x as bv8);
    Differences(x);
  }

  lemma SplitSextetAtTwo(x: Byte)
    ensures And(x, 0x3c) == x / 4 % 16 * 4 && And(x, 0x03) == x % 4
  {
    SplitAtTwo(x);
    SplitAtSix(x);
    MiddleBits(x as bv8);
    Differences(x);
  }
}
