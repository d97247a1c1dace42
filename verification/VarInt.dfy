/** Integers of a variable number of bytes over a Buffer: read/write(U)Int(BE|LE). */
module VarInt {
  import opened Bytes
  import opened Doubles

  const TWO_63 := 0x8000_0000_0000_0000
  const TWO_64 := 0x1_0000_0000_0000_0000

  type Int64 = x: int | -TWO_63 <= x < TWO_63
  type UInt64 = x: int | 0 <= x < TWO_64

  /** What a call returns to JavaScript: a number, or the exception it throws. */
  datatype Outcome = Ok(number: int) | RangeError

  // ---------------------------------------------------------------------------
  // Positional numbers
  // ---------------------------------------------------------------------------

  /** 256 to the power `n`: how many values `n` bytes have. */
  function Span(n: nat): (r: int)
    ensures r >= 1
  {
    if n == 0 then 1 else Span(n - 1) * 0x100
  }

  /** The number that the bytes spell, the most significant one first. */
  function Value(s: seq<Byte>): (r: nat)
  {
    if s == [] then 0 else Value(s[..|s| - 1]) * 0x100 + s[|s| - 1]
  }

  /** The last `n` digits of `v` in base 256; of a negative number, in two's complement. */
  function Digits(v: int, n: nat): (s: seq<Byte>)
    ensures |s| == n
    decreases n
  {
    if n == 0 then [] else Digits(v / 0x100, n - 1) + [v % 0x100]
  }

  function Reverse(s: seq<Byte>): (r: seq<Byte>)
    ensures |r| == |s|
  {
    if s == [] then [] else Reverse(s[1..]) + [s[0]]
  }

  /** Two's complement: the upper half of the `n`-byte numbers is negative. */
  function Signed(u: int, n: nat): int {
    if 2 * u < Span(n) then u else u - Span(n)
  }

  predicate InSignedRange(v: int, n: nat) {
    -Span(n) <= 2 * v < Span(n)
  }

  // ---------------------------------------------------------------------------
  // Machine arithmetic
  // ---------------------------------------------------------------------------

  /** A result that is reduced to 64 bits, in two's complement. */
  function Wrap64(x: int): Int64 {
    if x % TWO_64 < TWO_63 then x % TWO_64 else x % TWO_64 - TWO_64
  }

  /** `(val << 8) | b` on a signed 64-bit value; the shift leaves room for the byte. */
  function PushSigned(val: Int64, b: Byte): int {
    Wrap64(val * 0x100) + b
  }

  /** `(val << 8) | b` on an unsigned 64-bit value. */
  function PushUnsigned(val: UInt64, b: Byte): int {
    val * 0x100 % TWO_64 + b
  }

  lemma PushUnsignedIsHorner(x: nat, b: Byte)
    ensures PushUnsigned(x % TWO_64, b) == (x * 0x100 + b) % TWO_64
  {
    var q, r := x / TWO_64, x % TWO_64;
    var m := 0x100_0000_0000_0000;
    var q2, r2 := r / m, r % m;
    assert TWO_64 == m * 0x100;
    DivMod(r * 0x100, TWO_64, q2, r2 * 0x100);
    DivMod(x * 0x100 + b, TWO_64, q * 0x100 + q2, r2 * 0x100 + b);
  }

  lemma PushSignedIsHorner(x: nat, b: Byte)
    requires x < 0x100_0000_0000_0000
    ensures Wrap64(x) == x && PushSigned(x, b) == Wrap64(x * 0x100 + b)
  {
  }

  // ---------------------------------------------------------------------------
  // Readers
  // ---------------------------------------------------------------------------

  lemma ValueOfPrefix(s: seq<Byte>, i: nat)
    requires i < |s|
    ensures Value(s[..i + 1]) == Value(s[..i]) * 0x100 + s[i]
  {
    assert s[..i + 1][..i] == s[..i];
  }

  lemma ValueOfReversedSuffix(s: seq<Byte>, i: nat)
    requires i < |s|
    ensures Value(Reverse(s[i..])) == Value(Reverse(s[i + 1..])) * 0x100 + s[i]
  {
    assert s[i..][1..] == s[i + 1..];
    var r := Reverse(s[i..]);
    assert r[..|r| - 1] == Reverse(s[i + 1..]);
  }

  lemma UnsignedStepBE(s: seq<Byte>, i: nat)
    requires i < |s|
    ensures PushUnsigned(Value(s[..i]) % TWO_64, s[i]) == Value(s[..i + 1]) % TWO_64
  {
    ValueOfPrefix(s, i);
    PushUnsignedIsHorner(Value(s[..i]), s[i]);
  }

  lemma UnsignedStepLE(s: seq<Byte>, i: nat)
    requires i < |s|
    ensures PushUnsigned(Value(Reverse(s[i + 1..])) % TWO_64, s[i]) == Value(Reverse(s[i..])) % TWO_64
  {
    ValueOfReversedSuffix(s, i);
    PushUnsignedIsHorner(Value(Reverse(s[i + 1..])), s[i]);
  }

  lemma NothingRead()
    ensures Reverse([]) == [] && Value([]) == 0
  {
  }

  method ReadUIntBE(buf: array<Byte>, off: nat, n: nat) returns (r: Outcome)
    ensures r == if off + n > buf.Length then RangeError else Ok(ToDouble(Value(buf[off..off + n]) % TWO_64))
  {
    if off + n > buf.Length {
      return RangeError;
    }
    hide PushUnsigned, Value, Reverse;
    NothingRead();
    var val: UInt64 := 0;
    ghost var window := buf[off..off + n];
    for i := 0 to n
      invariant val == Value(window[..i]) % TWO_64
    {
      UnsignedStepBE(window, i);
      val := PushUnsigned(val, buf[off + i]);
    }
    assert window[..n] == window;
    return Ok(ToDouble(val));
  }

  method ReadUIntLE(buf: array<Byte>, off: nat, n: nat) returns (r: Outcome)
    ensures r == if off + n > buf.Length then RangeError else Ok(ToDouble(Value(Reverse(buf[off..off + n])) % TWO_64))
  {
    if off + n > buf.Length {
      return RangeError;
    }
    hide PushUnsigned, Value, Reverse;
    NothingRead();
    var val: UInt64 := 0;
    ghost var window := buf[off..off + n];
    for i := n downto 0
      invariant val == Value(Reverse(window[i..])) % TWO_64
    {
      UnsignedStepLE(window, i);
      val := PushUnsigned(val, buf[off + i]);
    }
    return Ok(ToDouble(val));
  }

  /** `(val << shift) >> shift` with `shift == 64 - 8 * n`; the right shift is arithmetic. */
  function SignExtended(val: Int64, n: nat): int
    requires 1 <= n <= 8
  {
    Wrap64(val * Span(8 - n)) / Span(8 - n)
  }

  lemma SpanOfSum(m: nat, n: nat)
    ensures Span(m + n) == Span(m) * Span(n)
  {
    if n == 0 {
    } else {
      SpanOfSum(m, n - 1);
    }
  }

  lemma ValueIsBounded(s: seq<Byte>)
    ensures Value(s) < Span(|s|)
  {
    if s == [] {
    } else {
      ValueIsBounded(s[..|s| - 1]);
    }
  }

  lemma Span8()
    ensures Span(8) == TWO_64 && Span(7) == 0x100_0000_0000_0000
  {
    assert Span(4) == 0x1_0000_0000;
  }

  lemma SpanGrows(m: nat, n: nat)
    requires m <= n
    ensures Span(m) <= Span(n)
    decreases n
  {
    if m == n {
    } else {
      SpanGrows(m, n - 1);
    }
  }

  lemma Scaled(x: int, y: int, s: int)
    requires s > 0
    ensures x < y <==> x * s < y * s
  {
    assert x < y ==> (y - x) * s > 0;
    assert x >= y ==> (x - y) * s >= 0;
    assert (y - x) * s == y * s - x * s;
  }

  lemma Wrapped(p: int)
    requires 0 <= p < TWO_64
    ensures Wrap64(p) == if 2 * p < TWO_64 then p else p - TWO_64
  {
  }

  /** `u` shifted to the top of a word of `span * s` values, and back. */
  lemma ShiftedBack(u: nat, span: int, s: int)
    requires u < span && s > 0 && span * s == TWO_64
    ensures Wrap64(u * s) / s == if 2 * u < span then u else u - span
  {
    var p := u * s;
    assert 0 <= p && 2 * u * s == 2 * p;
    Scaled(u, span, s);
    Scaled(2 * u, span, s);
    Wrapped(p);
    DivMod(p, s, u, 0);
    assert (u - span) * s == p - TWO_64;
    DivMod(p - TWO_64, s, u - span, 0);
  }

  lemma WholeWordIsSigned(u: nat)
    requires u < TWO_64
    ensures SignExtended(Wrap64(u), 8) == Signed(u, 8)
  {
    Span8();
    Wrapped(u);
    var w := Wrap64(u);
    DivMod(w, TWO_64, if w < 0 then -1 else 0, u);
    assert Wrap64(w) == w && w / 1 == w;
  }

  lemma PartOfWordIsSigned(u: nat, n: nat)
    requires 1 <= n < 8 && u < Span(n)
    ensures Wrap64(u) == u && SignExtended(u, n) == Signed(u, n)
  {
    Span8();
    SpanGrows(n, 7);
    Wrapped(u);
    SpanOfSum(n, 8 - n);
    assert n + (8 - n) == 8;
    ShiftedBack(u, Span(n), Span(8 - n));
  }

  lemma SignExtendedIsSigned(u: nat, n: nat)
    requires 1 <= n <= 8 && u < Span(n)
    ensures SignExtended(Wrap64(u), n) == Signed(u, n)
  {
    if n < 8 {
      PartOfWordIsSigned(u, n);
    } else {
      Span8();
      WholeWordIsSigned(u);
    }
  }

  lemma FitsInSevenBytes(s: seq<Byte>)
    requires |s| <= 7
    ensures Value(s) < 0x100_0000_0000_0000
  {
    Span8();
    ValueIsBounded(s);
    SpanGrows(|s|, 7);
  }

  lemma SignedStepBE(s: seq<Byte>, i: nat)
    requires i < |s| <= 8
    ensures PushSigned(Wrap64(Value(s[..i])), s[i]) == Wrap64(Value(s[..i + 1]))
  {
    hide Wrap64, PushSigned;
    FitsInSevenBytes(s[..i]);
    ValueOfPrefix(s, i);
    PushSignedIsHorner(Value(s[..i]), s[i]);
  }

  lemma SignedStepLE(s: seq<Byte>, i: nat)
    requires i < |s| <= 8
    ensures PushSigned(Wrap64(Value(Reverse(s[i + 1..]))), s[i]) == Wrap64(Value(Reverse(s[i..])))
  {
    hide Wrap64, PushSigned;
    FitsInSevenBytes(Reverse(s[i + 1..]));
    ValueOfReversedSuffix(s, i);
    PushSignedIsHorner(Value(Reverse(s[i + 1..])), s[i]);
  }

  lemma ZeroFits()
    ensures Wrap64(0) == 0
  {
  }

  /** The shift that extends the sign is defined for one to eight bytes; it is not reached outside the buffer. */
  method ReadIntBE(buf: array<Byte>, off: nat, n: nat) returns (r: Outcome)
    requires off + n <= buf.Length ==> 1 <= n <= 8
    ensures r == if off + n > buf.Length then RangeError else Ok(ToDouble(Signed(Value(buf[off..off + n]), n)))
  {
    if off + n > buf.Length {
      return RangeError;
    }
    hide PushSigned, Value, Reverse, Wrap64, SignExtended, Signed;
    NothingRead();
    ZeroFits();
    var val: Int64 := 0;
    ghost var window := buf[off..off + n];
    for i := 0 to n
      invariant val == Wrap64(Value(window[..i]))
    {
      SignedStepBE(window, i);
      val := PushSigned(val, buf[off + i]);
    }
    assert window[..n] == window;
    ValueIsBounded(window);
    SignExtendedIsSigned(Value(window), n);
    return Ok(ToDouble(SignExtended(val, n)));
  }

  method ReadIntLE(buf: array<Byte>, off: nat, n: nat) returns (r: Outcome)
    requires off + n <= buf.Length ==> 1 <= n <= 8
    ensures r == if off + n > buf.Length then RangeError else Ok(ToDouble(Signed(Value(Reverse(buf[off..off + n])), n)))
  {
    if off + n > buf.Length {
      return RangeError;
    }
    hide PushSigned, Value, Reverse, Wrap64, SignExtended, Signed;
    NothingRead();
    ZeroFits();
    var val: Int64 := 0;
    ghost var window := buf[off..off + n];
    for i := n downto 0
      invariant val == Wrap64(Value(Reverse(window[i..])))
    {
      SignedStepLE(window, i);
      val := PushSigned(val, buf[off + i]);
    }
    ValueIsBounded(Reverse(window));
    SignExtendedIsSigned(Value(Reverse(window)), n);
    return Ok(ToDouble(SignExtended(val, n)));
  }

  // ---------------------------------------------------------------------------
  // Writers
  // ---------------------------------------------------------------------------

  /** `buf` with the window of `bytes` at `off` replaced. */
  function Patched(buf: seq<Byte>, off: nat, bytes: seq<Byte>): seq<Byte>
    requires off + |bytes| <= |buf|
  {
    buf[..off] + bytes + buf[off + |bytes|..]
  }

  lemma DigitsStep(v: int, n: nat, written: seq<Byte>)
    requires n > 0
    ensures Digits(v, n) + written == Digits(v / 0x100, n - 1) + ([v % 0x100] + written)
  {
  }

  lemma NoDigits(v: int)
    ensures Digits(v, 0) == []
  {
  }

  /** The last byte first. `v & 0xff` is `v % 0x100` and `v >> 8` is `v / 0x100`, also below zero. */
  method PutBackwards(buf: array<Byte>, off: nat, n: nat, v: int)
    requires off + n <= buf.Length
    modifies buf
    ensures buf[..] == Patched(old(buf[..]), off, Digits(v, n))
  {
    hide Digits;
    var rest := v;
    for i := n downto 0
      invariant Digits(v, n) == Digits(rest, i) + buf[off + i..off + n]
      invariant buf[..off + i] == old(buf[..off + i]) && buf[off + n..] == old(buf[off + n..])
    {
      ghost var written := buf[off + i + 1..off + n];
      DigitsStep(rest, i + 1, written);
      buf[off + i] := rest % 0x100;
      assert buf[off + i..off + n] == [rest % 0x100] + written;
      rest := rest / 0x100;
    }
    NoDigits(rest);
    assert buf[..] == buf[..off] + buf[off..off + n] + buf[off + n..];
  }

  lemma DigitsReversed(v: int, n: nat, written: seq<Byte>)
    requires n > 0
    ensures written + Reverse(Digits(v, n)) == written + [v % 0x100] + Reverse(Digits(v / 0x100, n - 1))
  {
    ReverseOfConcat(Digits(v / 0x100, n - 1), [v % 0x100]);
  }

  lemma {:induction false} ReverseOfConcat(a: seq<Byte>, b: seq<Byte>)
    ensures Reverse(a + b) == Reverse(b) + Reverse(a)
  {
    if a == [] {
      assert a + b == b;
    } else {
      ReverseOfConcat(a[1..], b);
      assert (a + b)[1..] == a[1..] + b;
    }
  }

  /** The least significant byte first. */
  method PutForwards(buf: array<Byte>, off: nat, n: nat, v: int)
    requires off + n <= buf.Length
    modifies buf
    ensures buf[..] == Patched(old(buf[..]), off, Reverse(Digits(v, n)))
  {
    hide Digits, Reverse;
    var rest := v;
    for i := 0 to n
      invariant Reverse(Digits(v, n)) == buf[off..off + i] + Reverse(Digits(rest, n - i))
      invariant buf[..off] == old(buf[..off]) && buf[off + i..] == old(buf[off + i..])
    {
      ghost var written := buf[off..off + i];
      DigitsReversed(rest, n - i, written);
      buf[off + i] := rest % 0x100;
      assert buf[off..off + i + 1] == written + [rest % 0x100];
      rest := rest / 0x100;
    }
    NoDigits(rest);
    assert buf[..] == buf[..off] + buf[off..off + n] + buf[off + n..];
  }

  method WriteIntBE(buf: array<Byte>, x: real, off: nat, n: nat) returns (r: Outcome)
    requires -TWO_63 <= Truncated(x) < TWO_63
    modifies buf
    ensures off + n > buf.Length ==> r == RangeError && buf[..] == old(buf[..])
    ensures off + n <= buf.Length ==> r == Ok(off + n) && buf[..] == Patched(old(buf[..]), off, Digits(Truncated(x), n))
  {
    if off + n > buf.Length {
      return RangeError;
    }
    PutBackwards(buf, off, n, Truncated(x));
    return Ok(off + n);
  }

  method WriteIntLE(buf: array<Byte>, x: real, off: nat, n: nat) returns (r: Outcome)
    requires -TWO_63 <= Truncated(x) < TWO_63
    modifies buf
    ensures off + n > buf.Length ==> r == RangeError && buf[..] == old(buf[..])
    ensures off + n <= buf.Length ==>
              r == Ok(off + n) && buf[..] == Patched(old(buf[..]), off, Reverse(Digits(Truncated(x), n)))
  {
    if off + n > buf.Length {
      return RangeError;
    }
    PutForwards(buf, off, n, Truncated(x));
    return Ok(off + n);
  }

  method WriteUIntBE(buf: array<Byte>, x: real, off: nat, n: nat) returns (r: Outcome)
    requires 0 <= Truncated(x) < TWO_64
    modifies buf
    ensures off + n > buf.Length ==> r == RangeError && buf[..] == old(buf[..])
    ensures off + n <= buf.Length ==> r == Ok(off + n) && buf[..] == Patched(old(buf[..]), off, Digits(Truncated(x), n))
  {
    if off + n > buf.Length {
      return RangeError;
    }
    PutBackwards(buf, off, n, Truncated(x));
    return Ok(off + n);
  }

  method WriteUIntLE(buf: array<Byte>, x: real, off: nat, n: nat) returns (r: Outcome)
    requires 0 <= Truncated(x) < TWO_64
    modifies buf
    ensures off + n > buf.Length ==> r == RangeError && buf[..] == old(buf[..])
    ensures off + n <= buf.Length ==>
              r == Ok(off + n) && buf[..] == Patched(old(buf[..]), off, Reverse(Digits(Truncated(x), n)))
  {
    if off + n > buf.Length {
      return RangeError;
    }
    PutForwards(buf, off, n, Truncated(x));
    return Ok(off + n);
  }

  // ---------------------------------------------------------------------------
  // Main results
  // ---------------------------------------------------------------------------

  lemma OneMoreByte(first: int, s: int, v: int, last: int)
    ensures (first * s + v) * 0x100 + last == first * (s * 0x100) + (v * 0x100 + last)
  {
    Regroup(first, s);
  }

  lemma ReverseOfCons(first: Byte, rest: seq<Byte>)
    ensures Reverse([first] + rest) == Reverse(rest) + [first]
  {
    assert ([first] + rest)[1..] == rest;
  }

  /** In a big-endian window the first byte counts most, in a little-endian one least. */
  lemma {:induction false} ByteOrder(first: Byte, rest: seq<Byte>)
    ensures Value([first] + rest) == first * Span(|rest|) + Value(rest)
    ensures Value(Reverse([first] + rest)) == Value(Reverse(rest)) * 0x100 + first
    decreases |rest|
  {
    NothingRead();
    ReverseOfCons(first, rest);
    hide Value, Reverse;
    ValueOfSnoc(Reverse(rest), first);
    if rest == [] {
      assert [first] + rest == [] + [first];
      ValueOfSnoc([], first);
      assert Span(0) == 1;
    } else {
      var front, last := rest[..|rest| - 1], rest[|rest| - 1];
      ByteOrder(first, front);
      assert rest == front + [last] && [first] + rest == ([first] + front) + [last];
      ValueOfSnoc(front, last);
      ValueOfSnoc([first] + front, last);
      assert Span(|rest|) == Span(|front|) * 0x100;
      hide Span;
      OneMoreByte(first, Span(|front|), Value(front), last);
    }
  }

  /** One more digit at the end, divided by a span that is one byte longer. */
  lemma OneMoreDigit(high: int, low: Byte, s: int)
    requires s >= 1
    ensures (high * 0x100 + low) % (s * 0x100) == high % s * 0x100 + low
  {
    var q, r := high / s, high % s;
    assert high == q * s + r;
    Regroup(q, s);
    DivMod(high * 0x100 + low, s * 0x100, q, r * 0x100 + low);
  }

  lemma Regroup(q: int, s: int)
    ensures q * s * 0x100 == q * (s * 0x100)
  {
  }

  /** Bytes keep the number modulo what they can hold. */
  lemma {:induction false} ValueOfDigits(v: int, n: nat)
    ensures Value(Digits(v, n)) == v % Span(n)
    decreases n
  {
    if n == 0 {
    } else {
      ValueOfDigits(v / 0x100, n - 1);
      ValueOfSnoc(Digits(v / 0x100, n - 1), v % 0x100);
      OneMoreDigit(v / 0x100, v % 0x100, Span(n - 1));
    }
  }

  lemma ValueOfSnoc(s: seq<Byte>, last: Byte)
    ensures Value(s + [last]) == Value(s) * 0x100 + last
  {
    assert (s + [last])[..|s|] == s;
  }

  lemma {:induction false} DigitsOfValue(s: seq<Byte>)
    ensures Digits(Value(s), |s|) == s
  {
    if s == [] {
    } else {
      var last := |s| - 1;
      DigitsOfValue(s[..last]);
      DivMod(Value(s), 0x100, Value(s[..last]), s[last]);
      assert s == s[..last] + [s[last]];
    }
  }

  lemma {:induction false} ReverseTwice(s: seq<Byte>)
    ensures Reverse(Reverse(s)) == s
  {
    if s == [] {
    } else {
      ReverseOfConcat(Reverse(s[1..]), [s[0]]);
      ReverseTwice(s[1..]);
      assert s == [s[0]] + s[1..];
    }
  }

  lemma WindowOfPatched(buf: seq<Byte>, off: nat, bytes: seq<Byte>)
    requires off + |bytes| <= |buf|
    ensures Patched(buf, off, bytes)[off..off + |bytes|] == bytes
  {
  }

  /** What is read back from a big-endian window that has just been written. */
  function ReadBackBE(buf: seq<Byte>, off: nat, n: nat, v: int): nat
    requires off + n <= |buf|
  {
    Value(Patched(buf, off, Digits(v, n))[off..off + n])
  }

  function ReadBackLE(buf: seq<Byte>, off: nat, n: nat, v: int): nat
    requires off + n <= |buf|
  {
    Value(Reverse(Patched(buf, off, Reverse(Digits(v, n)))[off..off + n]))
  }

  lemma ReadBack(buf: seq<Byte>, off: nat, n: nat, v: int)
    requires off + n <= |buf|
    ensures ReadBackBE(buf, off, n, v) == ReadBackLE(buf, off, n, v) == v % Span(n)
  {
    hide Digits, Reverse, Value, Span, Patched;
    WindowOfPatched(buf, off, Digits(v, n));
    WindowOfPatched(buf, off, Reverse(Digits(v, n)));
    ReverseTwice(Digits(v, n));
    ValueOfDigits(v, n);
  }

  /** A 64-bit integer and its double do not differ by whole spans. */
  lemma NoAlias(v: int, n: nat, k: int)
    requires -TWO_64 <= v <= TWO_64 && -Span(n) <= v <= Span(n)
    requires ToDouble(v) == v + k * Span(n)
    ensures k == 0
  {
    ToDoubleIsNear(v);
    var s := Span(n);
    if n >= 2 {
      assert Span(2) == 0x1_0000;
      SpanGrows(2, n);
      SmallMultiple(k, s);
    } else {
      assert s <= 0x100;
      SmallMultiple(k, s);
    }
  }

  /** A number that agrees with `v` in the last bytes is read as `v` exactly if it is `v`, and a double. */
  lemma ReadAlike(v: int, w: int, n: nat, k: int)
    requires v == w + k * Span(n)
    requires -TWO_64 <= w <= TWO_64 && -Span(n) <= w <= Span(n)
    ensures ToDouble(w) == v <==> k == 0 && IsDouble(v)
  {
    hide Span, ToDouble, IsDouble;
    ToDoubleIsNear(w);
    if ToDouble(w) == v {
      NoAlias(w, n, k);
    }
  }

  lemma Remainder(v: int, s: int) returns (k: int)
    requires s >= 1
    ensures v == v % s + k * s && 0 <= v % s < s && (k == 0 <==> 0 <= v < s)
  {
    k := v / s;
    assert v == k * s + v % s;
    if 0 <= v < s {
      DivMod(v, s, 0, v);
    }
  }

  /** Unsigned round trip, in both byte orders: exactly the doubles that fit the window come back. */
  lemma UnsignedRoundTrip(buf: seq<Byte>, off: nat, n: nat, v: UInt64)
    requires off + n <= |buf|
    ensures ToDouble(ReadBackBE(buf, off, n, v) % TWO_64) == v <==> v < Span(n) && IsDouble(v)
    ensures ToDouble(ReadBackLE(buf, off, n, v) % TWO_64) == v <==> v < Span(n) && IsDouble(v)
  {
    ReadBack(buf, off, n, v);
    RemainderComesBack(v, n);
  }

  lemma RemainderComesBack(v: UInt64, n: nat)
    ensures ToDouble(v % Span(n) % TWO_64) == v <==> v < Span(n) && IsDouble(v)
  {
    Span8();
    hide Span, ToDouble, IsDouble;
    var k := Remainder(v, Span(n));
    var u := v % Span(n);
    if n > 8 {
      SpanGrows(8, n);
    }
    assert 0 <= u < TWO_64;
    DivMod(u, TWO_64, 0, u);
    ReadAlike(v, u, n, k);
  }

  /** The two's complement value agrees with `v` in the last `n` bytes, and is the only one in range that does. */
  lemma SignedOfRemainder(v: int, n: nat) returns (k: int)
    requires n > 0
    ensures v == Signed(v % Span(n), n) + k * Span(n)
    ensures InSignedRange(Signed(v % Span(n), n), n)
    ensures k == 0 <==> InSignedRange(v, n)
  {
    var s := Span(n);
    assert s == 2 * (Span(n - 1) * 0x80);
    hide Span;
    var q := Remainder(v, s);
    k := if 2 * (v % s) < s then q else q + 1;
    assert (q + 1) * s == q * s + s;
    if InSignedRange(v, n) {
      assert v - Signed(v % s, n) == k * s;
      SmallMultiple(k, s);
    }
  }

  /** Signed round trip, in both byte orders: exactly the doubles in the two's complement range come back. */
  lemma SignedRoundTrip(buf: seq<Byte>, off: nat, n: nat, v: Int64)
    requires 1 <= n <= 8 && off + n <= |buf|
    ensures ToDouble(Signed(ReadBackBE(buf, off, n, v), n)) == v <==> InSignedRange(v, n) && IsDouble(v)
    ensures ToDouble(Signed(ReadBackLE(buf, off, n, v), n)) == v <==> InSignedRange(v, n) && IsDouble(v)
  {
    ReadBack(buf, off, n, v);
    SignedComesBack(v, n);
  }

  lemma SignedComesBack(v: int, n: nat)
    requires 1 <= n <= 8
    ensures ToDouble(Signed(v % Span(n), n)) == v <==> InSignedRange(v, n) && IsDouble(v)
  {
    Span8();
    SpanGrows(n, 8);
    hide Span, ToDouble, IsDouble, Signed;
    var k := SignedOfRemainder(v, n);
    ReadAlike(v, Signed(v % Span(n), n), n, k);
  }

  /** What `readUInt` returns for the window. */
  function UnsignedNumber(w: seq<Byte>): int {
    ToDouble(Value(w) % TWO_64)
  }

  /** What `readInt` returns for the window. */
  function SignedNumber(w: seq<Byte>): int {
    ToDouble(Signed(Value(w), |w|))
  }

  /** The numbers that the writers of unsigned and of signed integers convert; others are undefined there. */
  predicate UnsignedWritable(v: int) {
    0 <= v < TWO_64
  }

  predicate SignedWritable(v: int) {
    -TWO_63 <= v < TWO_63
  }

  /**
   * The number that was read can be written back, and that changes nothing, exactly if it is the value of the
   * window.
   */
  lemma WriteBack(buf: seq<Byte>, off: nat, n: nat)
    requires off + n <= |buf|
    ensures var w := buf[off..off + n];
      && (UnsignedWritable(UnsignedNumber(w)) && Patched(buf, off, Digits(UnsignedNumber(w), n)) == buf <==>
          Value(w) < TWO_64 && IsDouble(Value(w)))
      && (UnsignedWritable(UnsignedNumber(Reverse(w))) &&
          Patched(buf, off, Reverse(Digits(UnsignedNumber(Reverse(w)), n))) == buf <==>
          Value(Reverse(w)) < TWO_64 && IsDouble(Value(Reverse(w))))
    ensures 1 <= n <= 8 ==> var w := buf[off..off + n];
      && (SignedWritable(SignedNumber(w)) && Patched(buf, off, Digits(SignedNumber(w), n)) == buf <==>
          IsDouble(Signed(Value(w), n)))
      && (SignedWritable(SignedNumber(Reverse(w))) &&
          Patched(buf, off, Reverse(Digits(SignedNumber(Reverse(w)), n))) == buf <==>
          IsDouble(Signed(Value(Reverse(w)), n)))
  {
    hide UnsignedNumber, SignedNumber, UnsignedWritable, SignedWritable, Digits, Reverse, Value, Signed, IsDouble;
    var w := buf[off..off + n];
    var rev := Reverse(w);
    ReverseTwice(w);
    UnsignedDigitsComeBack(w);
    UnsignedDigitsComeBack(rev);
    PatchedWithWindow(buf, off, w, Digits(UnsignedNumber(w), n));
    PatchedWithReversed(buf, off, w, Digits(UnsignedNumber(rev), n));
    if 1 <= n <= 8 {
      SignedDigitsComeBack(w);
      SignedDigitsComeBack(rev);
      PatchedWithWindow(buf, off, w, Digits(SignedNumber(w), n));
      PatchedWithReversed(buf, off, w, Digits(SignedNumber(rev), n));
    }
  }

  /** Up to six bytes writing back what was read never changes anything, in either order. */
  lemma SixBytesAreExact(buf: seq<Byte>, off: nat, n: nat)
    requires off + n <= |buf| && n <= 6
    ensures var w := buf[off..off + n];
      && Patched(buf, off, Digits(UnsignedNumber(w), n)) == buf
      && Patched(buf, off, Reverse(Digits(UnsignedNumber(Reverse(w)), n))) == buf
      && (n > 0 ==> Patched(buf, off, Digits(SignedNumber(w), n)) == buf)
      && (n > 0 ==> Patched(buf, off, Reverse(Digits(SignedNumber(Reverse(w)), n))) == buf)
  {
    var w := buf[off..off + n];
    WriteBack(buf, off, n);
    SixBytesAreDoubles(w);
    SixBytesAreDoubles(Reverse(w));
  }

  lemma SixBytesAreDoubles(w: seq<Byte>)
    requires |w| <= 6
    ensures Value(w) < TWO_64 && IsDouble(Value(w)) && IsDouble(Signed(Value(w), |w|))
  {
    ValueIsBounded(w);
    SpanGrows(|w|, 6);
    assert Span(6) == 0x1_0000_0000_0000 by {
      assert Span(4) == 0x1_0000_0000;
    }
    hide Span;
    ToDoubleIsNear(Value(w));
    ToDoubleIsNear(Signed(Value(w), |w|));
  }

  /** The window that spells `v` loses it when what was read is written back. */
  predicate IsLost(v: nat, n: nat) {
    var w := Digits(v, n);
    Value(w) == v && UnsignedWritable(UnsignedNumber(w)) && Digits(UnsignedNumber(w), n) != w
  }

  lemma LostUnlessDouble(v: nat, n: nat)
    requires v < Span(n) && !(v < TWO_64 && IsDouble(v)) && UnsignedWritable(ToDouble(v % TWO_64))
    ensures IsLost(v, n)
  {
    ValueOfDigits(v, n);
    DivMod(v, Span(n), 0, v);
    UnsignedDigitsComeBack(Digits(v, n));
  }

  lemma SpanOfOneMore(n: nat)
    ensures Span(n + 1) == Span(n) * 0x100
  {
  }

  /** Nine bytes that spell 2^64 and seven that spell 2^53 + 1 do not survive reading and writing back. */
  lemma WriteBackCanChange()
    ensures IsLost(TWO_64, 9) && IsLost(EXACT + 1, 7)
  {
    hide IsLost, Span, IsDouble, ToDouble;
    Span8();
    SpanOfOneMore(8);
    OddIsNoDouble();
    ToDoubleIsNear(TWO_64 % TWO_64);
    ToDoubleIsNear(EXACT + 1);
    LostUnlessDouble(TWO_64, 9);
    LostUnlessDouble(EXACT + 1, 7);
  }

  /** The largest 64-bit integers are read as 2^64 and 2^63, which cannot be written. */
  lemma LargestRoundUp()
    ensures ToDouble(TWO_64 - 1) == TWO_64 && !UnsignedWritable(TWO_64)
    ensures ToDouble(TWO_63 - 1) == TWO_63 && !SignedWritable(TWO_63)
  {
    assert Ulp(EXACT - 1) == 1;
    assert Ulp(0x3f_ffff_ffff_ffff) == 2;
    assert Ulp(0x3ff_ffff_ffff_ffff) == 32;
    assert Ulp(0x1fff_ffff_ffff_ffff) == 256;
    assert Ulp(TWO_63 - 1) == 0x400;
    assert Ulp(TWO_64 - 1) == 0x800;
  }

  lemma PatchedWithWindow(buf: seq<Byte>, off: nat, w: seq<Byte>, bytes: seq<Byte>)
    requires off + |w| <= |buf| && |bytes| == |w| && w == buf[off..off + |w|]
    ensures Patched(buf, off, bytes) == buf <==> bytes == w
  {
    WindowOfPatched(buf, off, bytes);
    assert buf == buf[..off] + w + buf[off + |w|..];
  }

  lemma PatchedWithReversed(buf: seq<Byte>, off: nat, w: seq<Byte>, bytes: seq<Byte>)
    requires off + |w| <= |buf| && |bytes| == |w| && w == buf[off..off + |w|]
    ensures Patched(buf, off, Reverse(bytes)) == buf <==> bytes == Reverse(w)
  {
    PatchedWithWindow(buf, off, w, Reverse(bytes));
    ReverseTwice(bytes);
    ReverseTwice(w);
  }

  /** A number with the digits of a window differs from the window's value by whole spans. */
  lemma SameDigits(r: int, w: seq<Byte>) returns (k: int)
    requires Digits(r, |w|) == w
    ensures r == Value(w) + k * Span(|w|)
  {
    k := Remainder(r, Span(|w|));
    ValueOfDigits(r, |w|);
  }

  lemma UnsignedDigitsComeBack(w: seq<Byte>)
    ensures Digits(UnsignedNumber(w), |w|) == w <==> Value(w) < TWO_64 && IsDouble(Value(w))
    ensures Value(w) < TWO_64 && IsDouble(Value(w)) ==> UnsignedWritable(UnsignedNumber(w))
  {
    var n, u, r := |w|, Value(w), UnsignedNumber(w);
    if u < TWO_64 && IsDouble(u) {
      DivMod(u, TWO_64, 0, u);
      ToDoubleIsNear(u);
      DigitsOfValue(w);
    }
    if Digits(r, n) == w {
      var k := SameDigits(r, w);
      ValueIsBounded(w);
      hide Span, ToDouble, IsDouble, Digits, Value;
      UnsignedIsValue(r, u, n, k);
    }
  }

  lemma UnsignedIsValue(r: int, u: int, n: nat, k: int)
    requires 0 <= u < Span(n) && r == ToDouble(u % TWO_64) && r == u + k * Span(n)
    ensures u < TWO_64 && IsDouble(u)
  {
    hide Span, ToDouble, IsDouble;
    Span8();
    var m := Remainder(u, TWO_64);
    if n <= 8 {
      SpanGrows(n, 8);
      ReadAlike(r, u, n, k);
    } else {
      LargeSpan(n);
      ToDoubleIsNear(u % TWO_64);
      NoWholeSpan(r, u, k, Span(n));
      ReadAlike(u, u % TWO_64, 8, m);
    }
  }

  lemma LargeSpan(n: nat)
    requires n > 8
    ensures Span(n) >= TWO_64 * 0x100
  {
    Span8();
    SpanGrows(9, n);
    SpanOfOneMore(8);
  }

  lemma NoWholeSpan(r: int, u: int, k: int, s: int)
    requires r == u + k * s && 0 <= u < s && 0 <= r < s
    ensures k == 0
  {
    SmallMultiple(k, s);
  }

  lemma SignedParts(u: int, n: nat) returns (back: int)
    requires 1 <= n <= 8 && 0 <= u < Span(n)
    ensures u == Signed(u, n) + back * Span(n)
    ensures -Span(n) <= Signed(u, n) <= Span(n) <= TWO_64
    ensures SignedWritable(Signed(u, n))
  {
    Span8();
    SpanGrows(n, 8);
    back := if 2 * u < Span(n) then 0 else 1;
  }

  lemma SignedDigitsComeBack(w: seq<Byte>)
    requires 1 <= |w| <= 8
    ensures Digits(SignedNumber(w), |w|) == w <==> IsDouble(Signed(Value(w), |w|))
    ensures IsDouble(Signed(Value(w), |w|)) ==> SignedWritable(SignedNumber(w))
  {
    ValueIsBounded(w);
    if IsDouble(Signed(Value(w), |w|)) {
      SignedStays(w);
    }
    if Digits(SignedNumber(w), |w|) == w {
      var k := SameDigits(SignedNumber(w), w);
      SignedIsValue(SignedNumber(w), Value(w), |w|, k);
    }
  }

  lemma SignedStays(w: seq<Byte>)
    requires 1 <= |w| <= 8 && IsDouble(Signed(Value(w), |w|))
    ensures Digits(SignedNumber(w), |w|) == w && SignedWritable(SignedNumber(w))
  {
    var n, u := |w|, Value(w);
    ValueIsBounded(w);
    var back := SignedParts(u, n);
    ToDoubleIsNear(Signed(u, n));
    assert SignedNumber(w) == Signed(u, n);
    hide Digits, Span, Signed, ToDouble, IsDouble;
    DigitsOfSigned(u, n);
    DigitsOfValue(w);
  }

  lemma SignedIsValue(r: int, u: int, n: nat, k: int)
    requires 1 <= n <= 8 && 0 <= u < Span(n) && r == ToDouble(Signed(u, n)) && r == u + k * Span(n)
    ensures IsDouble(Signed(u, n))
  {
    hide Span, ToDouble, IsDouble, Signed;
    var back := SignedParts(u, n);
    Combined(r, Signed(u, n), back, k, Span(n));
    ReadAlike(r, Signed(u, n), n, back + k);
    ToDoubleIsNear(Signed(u, n));
  }

  lemma DigitsOfSigned(u: int, n: nat)
    ensures Digits(Signed(u, n), n) == Digits(u, n)
  {
    DigitsShifted(u, n, -1);
  }

  lemma Combined(r: int, v: int, back: int, k: int, s: int)
    requires r == v + back * s + k * s
    ensures r == v + (back + k) * s
  {
  }

  /** Multiples of the span are not seen. */
  lemma {:induction false} DigitsShifted(u: int, n: nat, k: int)
    ensures Digits(u + k * Span(n), n) == Digits(u, n)
    decreases n
  {
    if n == 0 {
    } else {
      var s := Span(n - 1);
      assert k * Span(n) == k * s * 0x100;
      DivMod(u + k * Span(n), 0x100, u / 0x100 + k * s, u % 0x100);
      DigitsShifted(u / 0x100, n - 1, k);
    }
  }
}
