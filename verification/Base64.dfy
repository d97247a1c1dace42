/** The base64 codec of Buffer (sections 4 and 5 of RFC 4648). */
module Base64 {
  import opened Bits
  import opened Bytes

  type Sextet = x: int | 0 <= x < 0x40

  const MAX_INT32 := 0x7fff_ffff

  // ---------------------------------------------------------------------------
  // The encoding that RFC 4648 defines: 24-bit groups read as four 6-bit numbers
  // ---------------------------------------------------------------------------

  function Group(a: Byte, b: Byte, c: Byte): int {
    a * 0x1_0000 + b * 0x100 + c
  }

  /** The last `n` digits of a number in base 64. */
  function Sextets(v: nat, n: nat): (s: seq<Sextet>)
    ensures |s| == n
    decreases n
  {
    if n == 0 then [] else Sextets(v / 0x40, n - 1) + [v % 0x40]
  }

  /** The last `n` digits of a number in base 256. */
  function Octets(v: nat, n: nat): (s: seq<Byte>)
    ensures |s| == n
    decreases n
  {
    if n == 0 then [] else Octets(v / 0x100, n - 1) + [v % 0x100]
  }

  function Quad(group: nat): seq<Sextet> {
    Sextets(group, 4)
  }

  /** A final group of one or two bytes is filled up with zero bits. */
  function EncodeSextets(data: seq<Byte>): seq<Sextet>
    decreases |data|
  {
    if data == [] then []
    else if |data| == 1 then Quad(Group(data[0], 0, 0))[..2]
    else if |data| == 2 then Quad(Group(data[0], data[1], 0))[..3]
    else Quad(Group(data[0], data[1], data[2])) + EncodeSextets(data[3..])
  }

  function Triple(group: nat): seq<Byte> {
    Octets(group, 3)
  }

  function QuadValue(a: Sextet, b: Sextet, c: Sextet, d: Sextet): int {
    a * 0x4_0000 + b * 0x1000 + c * 0x40 + d
  }

  /** A single left-over sextet holds no byte. */
  function DecodeSextets(s: seq<Sextet>): seq<Byte>
    decreases |s|
  {
    if |s| <= 1 then []
    else if |s| == 2 then Triple(QuadValue(s[0], s[1], 0, 0))[..1]
    else if |s| == 3 then Triple(QuadValue(s[0], s[1], s[2], 0))[..2]
    else Triple(QuadValue(s[0], s[1], s[2], s[3])) + DecodeSextets(s[4..])
  }

  lemma NothingLeft()
    ensures EncodeSextets([]) == [] && DecodeSextets([]) == [] && Chars([]) == ""
  {
  }

  // ---------------------------------------------------------------------------
  // Positional arithmetic
  // ---------------------------------------------------------------------------

  lemma QuadOf(v: int, a: Sextet, b: Sextet, c: Sextet, d: Sextet)
    requires v == QuadValue(a, b, c, d)
    ensures 0 <= v && Quad(v) == [a, b, c, d]
  {
    var v3 := a * 0x1000 + b * 0x40 + c;
    var v2 := a * 0x40 + b;
    DivMod(v, 0x40, v3, d);
    DivMod(v3, 0x40, v2, c);
    DivMod(v2, 0x40, a, b);
    DivMod(a, 0x40, 0, a);
    assert Sextets(v2, 2) == Sextets(a, 1) + [b];
    assert Sextets(v3, 3) == Sextets(v2, 2) + [c];
  }

  lemma QuadValueOfQuad(group: nat)
    requires group < 0x100_0000
    ensures var q := Quad(group); QuadValue(q[0], q[1], q[2], q[3]) == group
  {
    var v3, v2, a := group / 0x40, group / 0x40 / 0x40, group / 0x40 / 0x40 / 0x40;
    assert a < 0x40 && group == QuadValue(a, v2 % 0x40, v3 % 0x40, group % 0x40);
    QuadOf(group, a, v2 % 0x40, v3 % 0x40, group % 0x40);
  }

  lemma TripleOf(v: int, a: Byte, b: Byte, c: Byte)
    requires v == Group(a, b, c)
    ensures 0 <= v && Triple(v) == [a, b, c]
  {
    var v2 := a * 0x100 + b;
    DivMod(v, 0x100, v2, c);
    DivMod(v2, 0x100, a, b);
    DivMod(a, 0x100, 0, a);
    assert Octets(v2, 2) == Octets(a, 1) + [b];
  }

  lemma GroupOfTriple(group: nat)
    requires group < 0x100_0000
    ensures var t := Triple(group); Group(t[0], t[1], t[2]) == group
  {
    var v2, a := group / 0x100, group / 0x100 / 0x100;
    assert a < 0x100 && group == Group(a, v2 % 0x100, group % 0x100);
    TripleOf(group, a, v2 % 0x100, group % 0x100);
  }

  // ---------------------------------------------------------------------------
  // Characters
  // ---------------------------------------------------------------------------

  /** `base64_chars[v]`: the letters, the digits, `+` and `/`. */
  function Char(v: Sextet): char {
    if v < 26 then 'A' + v as char
    else if v < 52 then 'a' + (v - 26) as char
    else if v < 62 then '0' + (v - 52) as char
    else if v == 62 then '+'
    else '/'
  }

  /** `isalnum(c) || c == '+' || c == '/'` */
  predicate InAlphabet(c: char) {
    'A' <= c <= 'Z' || 'a' <= c <= 'z' || '0' <= c <= '9' || c == '+' || c == '/'
  }

  /** `base64_chars.find(c)` */
  function Find(c: char): Sextet
    requires InAlphabet(c)
  {
    if 'A' <= c <= 'Z' then (c - 'A') as int
    else if 'a' <= c <= 'z' then (c - 'a') as int + 26
    else if '0' <= c <= '9' then (c - '0') as int + 52
    else if c == '+' then 62
    else 63
  }

  // The alphabet of the code, which is that of RFC 4648, in three parts.

  const UPPER_CASE := "ABCDEFGHIJKLMNOPQRSTUVWXYZ"

  const LOWER_CASE := "abcdefghijklmnopqrstuvwxyz"

  const OTHERS := "0123456789+/"

  lemma AlphabetIsStandard(v: Sextet)
    ensures |UPPER_CASE + LOWER_CASE + OTHERS| == 0x40 && Char(v) == (UPPER_CASE + LOWER_CASE + OTHERS)[v]
  {
    if v < 26 {
      assert Char(v) == UPPER_CASE[v];
    } else if v < 52 {
      assert Char(v) == LOWER_CASE[v - 26];
    } else {
      assert Char(v) == OTHERS[v - 52];
    }
  }

  lemma FindInvertsChar(v: Sextet)
    ensures InAlphabet(Char(v)) && Find(Char(v)) == v
  {
  }

  function Chars(s: seq<Sextet>): string {
    seq(|s|, i requires 0 <= i < |s| => Char(s[i]))
  }

  function Padding(n: nat): string {
    if n % 3 == 1 then "==" else if n % 3 == 2 then "=" else ""
  }

  function Encode(data: seq<Byte>): string {
    Chars(EncodeSextets(data)) + Padding(|data|)
  }

  /** The URL-safe alphabet is read as the standard one. */
  function Standard(c: char): char {
    if c == '-' then '+' else if c == '_' then '/' else c
  }

  /** The sextets up to the first character that is not in the alphabet. */
  function Read(s: string): seq<Sextet>
    decreases |s|
  {
    if s == "" || !InAlphabet(Standard(s[0])) then [] else [Find(Standard(s[0]))] + Read(s[1..])
  }

  function Decode(s: string): seq<Byte> {
    DecodeSextets(Read(s))
  }

  // ---------------------------------------------------------------------------
  // The encoder
  // ---------------------------------------------------------------------------

  /** The masks and shifts that regroup three bytes; shifting is multiplying and dividing, in `int`. */
  function Regrouped(a: Byte, b: Byte, c: Byte): seq<int> {
    [And(a, 0xfc) / 4,
     And(a, 0x03) * 16 + And(b, 0xf0) / 16,
     And(b, 0x0f) * 4 + And(c, 0xc0) / 64,
     And(c, 0x3f)]
  }

  lemma RegroupedIsQuad(a: Byte, b: Byte, c: Byte)
    ensures Regrouped(a, b, c) == Quad(Group(a, b, c))
  {
    SplitAtTwo(a);
    SplitAtFour(b);
    SplitAtSix(c);
    hide And;
    RegroupedParts(a / 4, a % 4, b / 16, b % 16, c / 64, c % 64);
  }

  lemma RegroupedParts(a1: int, a0: int, b1: int, b0: int, c1: int, c0: int)
    requires 0 <= a1 < 64 && 0 <= a0 < 4 && 0 <= b1 < 16 && 0 <= b0 < 16 && 0 <= c1 < 4 && 0 <= c0 < 64
    ensures Quad(Group(a1 * 4 + a0, b1 * 16 + b0, c1 * 64 + c0)) == [a1, a0 * 16 + b1, b0 * 4 + c1, c0]
  {
    QuadOf(Group(a1 * 4 + a0, b1 * 16 + b0, c1 * 64 + c0), a1, a0 * 16 + b1, b0 * 4 + c1, c0);
  }

  /** Appends the characters of the first `n` sextets. */
  method AppendChars(res: string, quad: array<int>, n: nat) returns (r: string)
    requires n <= quad.Length && forall j :: 0 <= j < n ==> 0 <= quad[j] < 0x40
    ensures |r| == |res| + n && r[..|res|] == res
    ensures forall j :: 0 <= j < n ==> r[|res| + j] == Char(quad[j])
  {
    r := res;
    for j := 0 to n
      invariant |r| == |res| + j && r[..|res|] == res
      invariant forall m :: 0 <= m < j ==> r[|res| + m] == Char(quad[m])
    {
      r := r + [Char(quad[j])];
    }
  }

  method Regroup(three: array<int>, four: array<int>)
    requires three.Length == 3 && four.Length == 4
    requires forall j :: 0 <= j < 3 ==> 0 <= three[j] < 0x100
    modifies four
    ensures four[..] == Quad(Group(three[0], three[1], three[2]))
  {
    hide And, Quad;
    four[0] := And(three[0], 0xfc) / 4;
    four[1] := And(three[0], 0x03) * 16 + And(three[1], 0xf0) / 16;
    four[2] := And(three[1], 0x0f) * 4 + And(three[2], 0xc0) / 64;
    four[3] := And(three[2], 0x3f);
    RegroupedIsQuad(three[0], three[1], three[2]);
    assert four[..] == Regrouped(three[0], three[1], three[2]);
  }

  lemma CharsOfConcat(s: seq<Sextet>, t: seq<Sextet>)
    ensures Chars(s + t) == Chars(s) + Chars(t)
  {
  }

  lemma GroupEncoded(rest: seq<Byte>)
    requires |rest| >= 3
    ensures EncodeSextets(rest) == Quad(Group(rest[0], rest[1], rest[2])) + EncodeSextets(rest[3..])
  {
  }

  /** Three bytes are there: they start `rest`, and `res` spells the sextets `done` of what comes before it. */
  method WholeGroup(res: string, three: array<int>, four: array<int>, ghost done: seq<Sextet>, ghost rest: seq<Byte>)
    returns (r: string, ghost more: seq<Sextet>)
    requires three.Length == 3 && four.Length == 4 && three != four && |rest| >= 3
    requires forall j :: 0 <= j < 3 ==> three[j] == rest[j]
    requires res == Chars(done)
    modifies four
    ensures r == Chars(more) && done + EncodeSextets(rest) == more + EncodeSextets(rest[3..])
  {
    hide Quad, EncodeSextets;
    Regroup(three, four);
    ghost var quad: seq<Sextet> := Quad(Group(rest[0], rest[1], rest[2]));
    assert four[..] == quad;
    r := AppendChars(res, four, 4);
    assert r == res + Chars(quad);
    more := done + quad;
    CharsOfConcat(done, quad);
    GroupEncoded(rest);
  }

  lemma LastGroupEncoded(rest: seq<Byte>, quad: seq<Sextet>)
    requires 0 < |rest| < 3
    requires quad == Quad(Group(rest[0], if |rest| > 1 then rest[1] else 0, 0))
    ensures EncodeSextets(rest) == quad[..|rest| + 1]
  {
  }

  /** One or two bytes that are left over, filled up with zeros and padded. */
  method LastGroup(res: string, three: array<int>, four: array<int>, n: nat, ghost rest: seq<Byte>) returns (r: string)
    requires three.Length == 3 && four.Length == 4 && three != four && 0 < n < 3 && |rest| == n
    requires forall j :: 0 <= j < n ==> three[j] == rest[j]
    modifies three, four
    ensures r == res + Chars(EncodeSextets(rest)) + Padding(n)
  {
    hide Quad, EncodeSextets, Group;
    for j := n to 3
      invariant forall m :: 0 <= m < n ==> three[m] == rest[m]
      invariant forall m :: n <= m < j ==> three[m] == 0
    {
      three[j] := 0;
    }
    Regroup(three, four);
    ghost var quad: seq<Sextet> := four[..];
    LastGroupEncoded(rest, quad);
    r := AppendChars(res, four, n + 1);
    assert r == res + Chars(EncodeSextets(rest));
    ghost var body := r;
    for i := n to 3
      invariant r == body + Padding(n)[..i - n]
    {
      r := r + "=";
    }
  }

  lemma PaddingOfRest(groups: nat, n: nat)
    requires n < 3
    ensures Padding(groups * 3 + n) == Padding(n) && Padding(0) == ""
  {
    DivMod(groups * 3 + n, 3, groups, n);
  }

  method BytesToBase64(data: seq<Byte>) returns (res: string)
    ensures res == Encode(data)
  {
    hide Quad, EncodeSextets, Padding, Chars;
    res := "";
    var three, four := new int[3], new int[4];
    var i := 0;
    ghost var groups, done, rest := 0, [], data;
    NothingLeft();
    for k := 0 to |data|
      invariant 0 <= i < 3 && 0 <= groups && k == groups * 3 + i
      invariant rest == data[groups * 3..]
      invariant forall j :: 0 <= j < i ==> three[j] == rest[j]
      invariant res == Chars(done) && EncodeSextets(data) == done + EncodeSextets(rest)
    {
      three[i] := data[k];
      assert data[k] == rest[i];
      i := i + 1;
      if i == 3 {
        res, done := WholeGroup(res, three, four, done, rest);
        rest := rest[3..];
        i := 0;
        groups := groups + 1;
      }
    }
    PaddingOfRest(groups, i);
    CharsOfConcat(done, EncodeSextets(rest));
    if i > 0 {
      res := LastGroup(res, three, four, i, rest);
    }
  }

  // ---------------------------------------------------------------------------
  // The decoder
  // ---------------------------------------------------------------------------

  /** The masks and shifts that put three bytes together again; storing them keeps the last eight bits. */
  function Assembled(a: Byte, b: Byte, c: Byte, d: Byte): seq<Byte> {
    [(a * 4 + And(b, 0x30) / 16) % 0x100,
     (And(b, 0x0f) * 16 + And(c, 0x3c) / 4) % 0x100,
     (And(c, 0x03) * 64 + d) % 0x100]
  }

  lemma AssembledIsTriple(a: Sextet, b: Sextet, c: Sextet, d: Sextet)
    ensures Assembled(a, b, c, d) == Triple(QuadValue(a, b, c, d))
  {
    AssembledParts(a, b / 16, b % 16, c / 4, c % 4, d);
    AssembledBytes(a, b, c, d, b / 16, b % 16, c / 4, c % 4);
  }

  lemma AssembledParts(a: Sextet, b1: int, b0: int, c1: int, c0: int, d: Sextet)
    requires 0 <= b1 < 4 && 0 <= b0 < 16 && 0 <= c1 < 16 && 0 <= c0 < 4
    ensures Triple(QuadValue(a, b1 * 16 + b0, c1 * 4 + c0, d)) == [a * 4 + b1, b0 * 16 + c1, c0 * 64 + d]
  {
    TripleOf(QuadValue(a, b1 * 16 + b0, c1 * 4 + c0, d), a * 4 + b1, b0 * 16 + c1, c0 * 64 + d);
  }

  lemma PartsAfterFour(x: Sextet, high: int, low: int)
    requires 0 <= high < 4 && 0 <= low < 16 && x == high * 16 + low
    ensures And(x, 0x30) / 16 == high && And(x, 0x0f) == low
  {
    hide And;
    SplitSextetAtFour(x);
    DivMod(x, 16, high, low);
  }

  lemma PartsAfterTwo(x: Sextet, high: int, low: int)
    requires 0 <= high < 16 && 0 <= low < 4 && x == high * 4 + low
    ensures And(x, 0x3c) / 4 == high && And(x, 0x03) == low
  {
    hide And;
    SplitSextetAtTwo(x);
    DivMod(x, 4, high, low);
  }

  lemma AssembledBytes(a: Sextet, b: Sextet, c: Sextet, d: Sextet, b1: int, b0: int, c1: int, c0: int)
    requires 0 <= b1 < 4 && 0 <= b0 < 16 && b == b1 * 16 + b0
    requires 0 <= c1 < 16 && 0 <= c0 < 4 && c == c1 * 4 + c0
    ensures Assembled(a, b, c, d) == [a * 4 + b1, b0 * 16 + c1, c0 * 64 + d]
  {
    hide And;
    PartsAfterFour(b, b1, b0);
    PartsAfterTwo(c, c1, c0);
    DivMod(a * 4 + b1, 0x100, 0, a * 4 + b1);
    DivMod(b0 * 16 + c1, 0x100, 0, b0 * 16 + c1);
    DivMod(c0 * 64 + d, 0x100, 0, c0 * 64 + d);
  }

  /** `find` returns npos for the zero that fills the last group, and npos truncates to 255. */
  const NOT_FOUND: Byte := 255

  /** `static_cast<uint8_t>(base64_chars.find(code))` */
  function Locate(code: Byte): Byte {
    if InAlphabet(code as char) then Find(code as char) else NOT_FOUND
  }

  /** The bytes that are kept do not see the filler. */
  lemma FillerIsNotSeen(a: Sextet, b: Sextet, c: Sextet)
    ensures Assembled(a, b, NOT_FOUND, NOT_FOUND)[..1] == Triple(QuadValue(a, b, 0, 0))[..1]
    ensures Assembled(a, b, c, NOT_FOUND)[..2] == Triple(QuadValue(a, b, c, 0))[..2]
  {
    AssembledIsTriple(a, b, 0, 0);
    AssembledIsTriple(a, b, c, 0);
  }

  method Assemble(four: array<int>, three: array<int>)
    requires three.Length == 3 && four.Length == 4 && three != four
    requires forall j :: 0 <= j < 4 ==> 0 <= four[j] < 0x100
    modifies three
    ensures three[..] == Assembled(four[0], four[1], four[2], four[3])
  {
    hide And;
    three[0] := (four[0] * 4 + And(four[1], 0x30) / 16) % 0x100;
    three[1] := (And(four[1], 0x0f) * 16 + And(four[2], 0x3c) / 4) % 0x100;
    three[2] := (And(four[2], 0x03) * 64 + four[3]) % 0x100;
  }

  method AppendBytes(ret: seq<Byte>, three: array<int>, n: nat) returns (r: seq<Byte>)
    requires n <= three.Length && forall j :: 0 <= j < n ==> 0 <= three[j] < 0x100
    ensures r == ret + three[..n]
  {
    r := ret;
    for j := 0 to n
      invariant r == ret + three[..j]
    {
      r := r + [three[j]];
    }
  }

  method LocateAll(four: array<int>)
    requires four.Length == 4 && forall j :: 0 <= j < 4 ==> 0 <= four[j] < 0x100
    modifies four
    ensures forall j :: 0 <= j < 4 ==> four[j] == Locate(old(four[j]))
  {
    for j := 0 to 4
      invariant forall m :: 0 <= m < j ==> four[m] == Locate(old(four[m]))
      invariant forall m :: j <= m < 4 ==> four[m] == old(four[m])
    {
      four[j] := Locate(four[j]);
    }
  }

  /** Four characters are there: they spell the start of `rest`, and `ret` holds the bytes of what comes before it. */
  method WholeQuad(ret: seq<Byte>, four: array<int>, three: array<int>, ghost s: seq<Sextet>, ghost rest: seq<Sextet>)
    returns (r: seq<Byte>)
    requires three.Length == 3 && four.Length == 4 && three != four && |rest| >= 4
    requires forall j :: 0 <= j < 4 ==> 0 <= four[j] < 0x100 && Locate(four[j]) == rest[j]
    requires DecodeSextets(s) == ret + DecodeSextets(rest)
    modifies three, four
    ensures DecodeSextets(s) == r + DecodeSextets(rest[4..])
  {
    hide DecodeSextets;
    LocateAll(four);
    Assemble(four, three);
    QuadDecoded(rest);
    r := AppendBytes(ret, three, 3);
    assert three[..3] == three[..];
  }

  lemma QuadDecoded(rest: seq<Sextet>)
    requires |rest| >= 4
    ensures DecodeSextets(rest) == Assembled(rest[0], rest[1], rest[2], rest[3]) + DecodeSextets(rest[4..])
  {
    AssembledIsTriple(rest[0], rest[1], rest[2], rest[3]);
  }

  lemma LastQuadDecoded(s: seq<Sextet>)
    requires 0 < |s| < 4
    ensures DecodeSextets(s) ==
            Assembled(s[0], if |s| > 1 then s[1] else NOT_FOUND, if |s| > 2 then s[2] else NOT_FOUND,
                      NOT_FOUND)[..|s| - 1]
  {
    if |s| == 2 {
      FillerIsNotSeen(s[0], s[1], 0);
    } else if |s| == 3 {
      FillerIsNotSeen(s[0], s[1], s[2]);
    }
  }

  lemma FillerIsForeign()
    ensures Locate(0) == NOT_FOUND
  {
  }

  /** One, two or three characters that are left over. */
  method LastQuad(ret: seq<Byte>, four: array<int>, three: array<int>, n: nat, ghost rest: seq<Sextet>)
    returns (r: seq<Byte>)
    requires three.Length == 3 && four.Length == 4 && three != four && 0 < n < 4 && |rest| == n
    requires forall j :: 0 <= j < n ==> 0 <= four[j] < 0x100 && Locate(four[j]) == rest[j]
    modifies three, four
    ensures r == ret + DecodeSextets(rest)
  {
    for j := n to 4
      invariant forall m :: 0 <= m < n ==> 0 <= four[m] < 0x100 && Locate(four[m]) == rest[m]
      invariant forall m :: n <= m < j ==> four[m] == 0
    {
      four[j] := 0;
    }
    hide Assembled, DecodeSextets, Locate;
    FillerIsForeign();
    LocateAll(four);
    Assemble(four, three);
    LastQuadDecoded(rest);
    r := AppendBytes(ret, three, n - 1);
    assert three[..n - 1] == three[..][..n - 1];
  }

  /** The next character moves from what is to be read to what is pending, or ends the text. */
  lemma ReadStep(s: string, k: nat, pending: seq<Sextet>)
    requires k < |s|
    ensures var c := Standard(s[k]);
      pending + Read(s[k..]) == if InAlphabet(c) then pending + [Find(c)] + Read(s[k + 1..]) else pending
  {
    assert s[k..][1..] == s[k + 1..];
    var c := Standard(s[k]);
    if InAlphabet(c) {
      assert pending + ([Find(c)] + Read(s[k + 1..])) == pending + [Find(c)] + Read(s[k + 1..]);
    }
  }

  lemma NothingToRead()
    ensures Read("") == []
  {
  }

  method Standardize(text: string) returns (str: string)
    ensures |str| == |text| && forall m :: 0 <= m < |str| ==> str[m] == Standard(text[m])
  {
    str := text;
    for j := 0 to |str|
      invariant |str| == |text|
      invariant forall m :: 0 <= m < j ==> str[m] == Standard(text[m])
      invariant forall m :: j <= m < |str| ==> str[m] == text[m]
    {
      if str[j] == '-' {
        str := str[j := '+'];
      } else if str[j] == '_' {
        str := str[j := '/'];
      }
    }
  }

  lemma DropPending(pending: seq<Sextet>, rest: seq<Sextet>)
    ensures (pending + rest)[|pending|..] == [] + rest
  {
  }

  method Base64ToBytes(text: string) returns (ret: seq<Byte>)
    ensures ret == Decode(text)
  {
    hide Triple, DecodeSextets, Read;
    var str := Standardize(text);
    ret := [];
    var four, three := new int[4], new int[3];
    var i := 0;
    var k := 0;
    ghost var pending: seq<Sextet> := [];
    assert text[0..] == text && pending + Read(text) == Read(text);
    while k < |str| && str[k] != '=' && InAlphabet(str[k])
      invariant 0 <= k <= |str| && 0 <= i < 4 && |pending| == i
      invariant forall j :: 0 <= j < i ==> 0 <= four[j] < 0x100 && Locate(four[j]) == pending[j]
      invariant DecodeSextets(Read(text)) == ret + DecodeSextets(pending + Read(text[k..]))
      decreases |str| - k
    {
      ReadStep(text, k, pending);
      pending := pending + [Find(str[k])];
      four[i] := str[k] as int;
      i := i + 1;
      k := k + 1;
      if i == 4 {
        ret := WholeQuad(ret, four, three, Read(text), pending + Read(text[k..]));
        DropPending(pending, Read(text[k..]));
        pending := [];
        i := 0;
      }
    }
    if k < |str| {
      ReadStep(text, k, pending);
    } else {
      NothingToRead();
      assert text[k..] == "" && pending + [] == pending;
    }
    if i > 0 {
      ret := LastQuad(ret, four, three, i, pending);
    } else {
      NothingLeft();
    }
  }

  /** The base64 branch of `byteLength`; the product must not overflow. */
  function ByteLength(text: string): int
    requires |text| * 3 <= MAX_INT32
  {
    var len := |text|;
    var decoded := len * 3 / 4;
    var once := if len > 0 && text[len - 1] == '=' then decoded - 1 else decoded;
    if len > 1 && text[len - 2] == '=' then once - 1 else once
  }

  // ---------------------------------------------------------------------------
  // Main results
  // ---------------------------------------------------------------------------

  /** The sextets that are not kept of a group filled up with zeros are zero. */
  lemma FilledUp(a: Byte, b: Byte)
    ensures var q := Quad(Group(a, 0, 0)); q[2] == 0 && q[3] == 0
    ensures var q := Quad(Group(a, b, 0)); q[3] == 0
  {
    hide Quad, Group;
    assert a / 4 * 4 + a % 4 == a && b / 16 * 16 + b % 16 == b;
    RegroupedParts(a / 4, a % 4, 0, 0, 0, 0);
    RegroupedParts(a / 4, a % 4, b / 16, b % 16, 0, 0);
  }

  lemma TripleInvertsQuad(a: Byte, b: Byte, c: Byte)
    ensures var q := Quad(Group(a, b, c)); Triple(QuadValue(q[0], q[1], q[2], q[3])) == [a, b, c]
    ensures var q := Quad(Group(a, 0, 0)); Triple(QuadValue(q[0], q[1], 0, 0))[..1] == [a]
    ensures var q := Quad(Group(a, b, 0)); Triple(QuadValue(q[0], q[1], q[2], 0))[..2] == [a, b]
  {
    hide Group, QuadValue, Sextets, Octets;
    Inverse(a, b, c);
    Inverse(a, 0, 0);
    Inverse(a, b, 0);
    FilledUp(a, b);
  }

  lemma Inverse(a: Byte, b: Byte, c: Byte)
    ensures var q := Quad(Group(a, b, c)); Triple(QuadValue(q[0], q[1], q[2], q[3])) == [a, b, c]
  {
    QuadValueOfQuad(Group(a, b, c));
    TripleOf(Group(a, b, c), a, b, c);
  }

  lemma {:induction false} DecodeInvertsEncode(data: seq<Byte>)
    ensures DecodeSextets(EncodeSextets(data)) == data
    decreases |data|
  {
    if data == [] {
    } else if |data| == 1 {
      TripleInvertsQuad(data[0], 0, 0);
    } else if |data| == 2 {
      TripleInvertsQuad(data[0], data[1], 0);
    } else {
      TripleInvertsQuad(data[0], data[1], data[2]);
      var q, rest := Quad(Group(data[0], data[1], data[2])), EncodeSextets(data[3..]);
      assert (q + rest)[4..] == rest;
      DecodeInvertsEncode(data[3..]);
      assert data == [data[0], data[1], data[2]] + data[3..];
    }
  }

  lemma {:induction false} ReadOfChars(s: seq<Sextet>, text: string)
    requires |text| >= |s|
    requires forall i :: 0 <= i < |s| ==> Standard(text[i]) == Char(s[i])
    requires |text| > |s| ==> !InAlphabet(Standard(text[|s|]))
    ensures Read(text) == s
    decreases |s|
  {
    if s == [] {
    } else {
      FindInvertsChar(s[0]);
      ReadOfChars(s[1..], text[1..]);
      assert s == [s[0]] + s[1..];
    }
  }

  /**
   * `text` spells the encoding of `data`: in either alphabet, and with its padding, without it, or cut off by
   * any other character.
   */
  predicate Spells(text: string, data: seq<Byte>) {
    var s := EncodeSextets(data);
    && |text| >= |s|
    && (forall i :: 0 <= i < |s| ==> Standard(text[i]) == Char(s[i]))
    && (|text| > |s| ==> !InAlphabet(Standard(text[|s|])))
  }

  /** Round trip, for every spelling of the encoded text. */
  lemma DecodeInvertsEverySpelling(data: seq<Byte>, text: string)
    requires Spells(text, data)
    ensures Decode(text) == data
  {
    ReadOfChars(EncodeSextets(data), text);
    DecodeInvertsEncode(data);
  }

  function UrlSafe(s: string): string {
    seq(|s|, i requires 0 <= i < |s| => if s[i] == '+' then '-' else if s[i] == '/' then '_' else s[i])
  }

  lemma EncodedSpells(data: seq<Byte>)
    ensures Spells(Encode(data), data) && Spells(Chars(EncodeSextets(data)), data)
  {
    hide EncodeSextets, InAlphabet;
    NotStandardized();
  }

  /** No sextet is spelt with a character that the URL-safe alphabet replaces, and padding is not in the alphabet. */
  lemma NotStandardized()
    ensures forall v: Sextet :: Standard(Char(v)) == Char(v)
    ensures !InAlphabet(Standard('='))
  {
  }

  lemma UrlSafeSpells(text: string, data: seq<Byte>)
    requires Spells(text, data)
    ensures Spells(UrlSafe(text), data)
  {
    hide EncodeSextets, InAlphabet;
    assert forall i :: 0 <= i < |text| ==> Standard(UrlSafe(text)[i]) == Standard(text[i]);
  }

  /** The encoded text, its URL-safe form, and both without padding all decode to the bytes. */
  lemma RoundTrip(data: seq<Byte>)
    ensures Decode(Encode(data)) == data
    ensures Decode(UrlSafe(Encode(data))) == data
    ensures Decode(Chars(EncodeSextets(data))) == data
    ensures Decode(UrlSafe(Chars(EncodeSextets(data)))) == data
  {
    hide Spells, Encode, EncodeSextets, Decode, UrlSafe, Chars;
    var padded, bare := Encode(data), Chars(EncodeSextets(data));
    EncodedSpells(data);
    UrlSafeSpells(padded, data);
    UrlSafeSpells(bare, data);
    DecodeInvertsEverySpelling(data, padded);
    DecodeInvertsEverySpelling(data, UrlSafe(padded));
    DecodeInvertsEverySpelling(data, bare);
    DecodeInvertsEverySpelling(data, UrlSafe(bare));
  }

  lemma {:induction false} EncodedLength(data: seq<Byte>)
    ensures |EncodeSextets(data)| == (|data| * 4 + 2) / 3
    decreases |data|
  {
    if |data| <= 2 {
      assert |data| == 0 || |data| == 1 || |data| == 2;
    } else {
      EncodedLength(data[3..]);
      assert |EncodeSextets(data)| == 4 + |EncodeSextets(data[3..])|;
    }
  }

  /**
   * Every started group of three bytes takes four characters, and three quarters of them, without the padding,
   * count the bytes.
   */
  lemma PaddedLength(n: nat)
    ensures (n * 4 + 2) / 3 + |Padding(n)| == 4 * ((n + 2) / 3)
    ensures 4 * ((n + 2) / 3) * 3 / 4 - |Padding(n)| == n
    ensures (n * 4 + 2) / 3 * 3 / 4 == n
  {
    var q, r := n / 3, n % 3;
    StartedGroups(q, r);
    hide Padding;
  }

  /** The same for `q` whole groups and `r` more bytes. */
  lemma StartedGroups(q: nat, r: nat)
    requires r < 3
    ensures var n, groups, chars := 3 * q + r, q + (if r == 0 then 0 else 1), 4 * q + (if r == 0 then 0 else r + 1);
      && (n + 2) / 3 == groups && (n * 4 + 2) / 3 == chars
      && |Padding(n)| == 4 * groups - chars
      && 4 * groups * 3 / 4 == 3 * groups && chars * 3 / 4 == n
  {
    var n, groups, chars := 3 * q + r, q + (if r == 0 then 0 else 1), 4 * q + (if r == 0 then 0 else r + 1);
    DivMod(n, 3, q, r);
    DivMod(n + 2, 3, groups, n + 2 - 3 * groups);
    DivMod(n * 4 + 2, 3, chars, n * 4 + 2 - 3 * chars);
    DivMod(4 * groups * 3, 4, 3 * groups, 0);
    DivMod(chars * 3, 4, n, chars * 3 - 4 * n);
  }

  lemma LengthOfEncoded(data: seq<Byte>)
    ensures |Encode(data)| == 4 * ((|data| + 2) / 3)
  {
    EncodedLength(data);
    PaddedLength(|data|);
  }

  lemma NoPaddingInside(s: seq<Sextet>)
    ensures forall i :: 0 <= i < |s| ==> Chars(s)[i] != '='
  {
  }

  /** `byteLength` of an encoded text, padded or not, is the number of bytes. */
  lemma ByteLengthOfEncoded(data: seq<Byte>)
    requires |Encode(data)| * 3 <= MAX_INT32
    ensures |Chars(EncodeSextets(data))| <= |Encode(data)|
    ensures ByteLength(Encode(data)) == |data| == ByteLength(Chars(EncodeSextets(data)))
  {
    EncodedLength(data);
    PaddedLength(|data|);
    NoPaddingInside(EncodeSextets(data));
    CountPadding(Chars(EncodeSextets(data)), Padding(|data|), |data|);
    CountPadding(Chars(EncodeSextets(data)), "", |data|);
    assert Chars(EncodeSextets(data)) + "" == Chars(EncodeSextets(data));
  }

  lemma CountPadding(body: string, padding: string, n: nat)
    requires padding in ["", "=", "=="] && |body + padding| * 3 <= MAX_INT32
    requires forall i :: 0 <= i < |body| ==> body[i] != '='
    requires |body + padding| * 3 / 4 - |padding| == n && |body| != 1
    ensures ByteLength(body + padding) == n
  {
  }

  /** Each group of four sextets holds three bytes, and a started one the whole bytes in it. */
  lemma {:induction false} DecodedLength(s: seq<Sextet>)
    ensures |DecodeSextets(s)| == |s| * 3 / 4
    decreases |s|
  {
    if |s| < 4 {
    } else {
      DecodedLength(s[4..]);
    }
  }

  lemma {:induction false} ReadIsPrefix(text: string)
    ensures |Read(text)| <= |text|
    ensures forall i :: 0 <= i < |Read(text)| ==> InAlphabet(Standard(text[i]))
    ensures |Read(text)| < |text| ==> !InAlphabet(Standard(text[|Read(text)|]))
    decreases |text|
  {
    if text == "" {
    } else {
      ReadIsPrefix(text[1..]);
    }
  }

  /** How many of the last two characters are padding. */
  function PaddingCount(text: string): nat {
    (if |text| > 0 && text[|text| - 1] == '=' then 1 else 0) + (if |text| > 1 && text[|text| - 2] == '=' then 1 else 0)
  }

  /**
   * Of `n` characters that are read and `tail` that follow them, `equals` of the last two being padding, the tail
   * is what its padding accounts for.
   */
  predicate Accounted(n: nat, tail: int, equals: nat) {
    match equals
    case 0 => tail == 0 || (tail == 1 && n % 4 == 0)
    case 1 => (tail == 1 && n % 4 != 0) || (tail == 2 && (n % 4 == 0 || n % 4 == 3))
    case _ => (tail == 2 && (n % 4 == 1 || n % 4 == 2)) || (tail == 3 && n % 4 != 1)
  }

  lemma AccountedDecides(len: nat, n: nat, equals: nat, total: int, bytes: int)
    requires n <= len && equals <= 2 && equals <= len - n
    requires total == len * 3 / 4 - equals && bytes == n * 3 / 4
    ensures total == bytes <==> Accounted(n, len - n, equals)
    ensures total >= bytes - 1
  {
    var q, r := n / 4, n % 4;
    DivMod(n * 3, 4, q * 3 + r * 3 / 4, r * 3 % 4);
    var all := r + len - n;
    DivMod(len * 3, 4, q * 3 + all * 3 / 4, all * 3 % 4);
  }

  /**
   * `byteLength` of any text is the number of bytes it decodes to exactly if what follows the characters that
   * are read is accounted for by its padding; and it is never more than one byte short.
   */
  lemma ByteLengthIsExact(text: string)
    requires |text| * 3 <= MAX_INT32
    ensures ByteLength(text) == |Decode(text)| <==>
            Accounted(|Read(text)|, |text| - |Read(text)|, PaddingCount(text))
    ensures ByteLength(text) >= |Decode(text)| - 1
  {
    PaddingIsNotRead(text);
    ByteLengthOf(text);
    DecodedLength(Read(text));
    hide Read, DecodeSextets, ByteLength, PaddingCount, Accounted;
    AccountedDecides(|text|, |Read(text)|, PaddingCount(text), ByteLength(text), |Decode(text)|);
  }

  lemma PaddingIsNotRead(text: string)
    ensures 0 <= PaddingCount(text) <= |text| - |Read(text)| && PaddingCount(text) <= 2
  {
    ReadIsPrefix(text);
    NotStandardized();
    hide Read, InAlphabet;
    assert |text| > 0 && text[|text| - 1] == '=' ==> |Read(text)| <= |text| - 1;
    assert |text| > 1 && text[|text| - 2] == '=' ==> |Read(text)| <= |text| - 2;
  }

  lemma ByteLengthOf(text: string)
    requires |text| * 3 <= MAX_INT32
    ensures ByteLength(text) == |text| * 3 / 4 - PaddingCount(text)
  {
  }

  /** A lone padding character is counted as a byte less than nothing. */
  lemma ByteLengthCanBeNegative()
    ensures ByteLength("=") == -1 && Decode("=") == []
  {
    assert !InAlphabet(Standard('='));
  }

  /** Whole groups, or a last group whose unused bits are zero. */
  predicate Canonical(s: seq<Sextet>) {
    match |s| % 4
    case 0 => true
    case 1 => false
    case 2 => s[|s| - 1] % 16 == 0
    case _ => s[|s| - 1] % 4 == 0
  }

  lemma QuadInvertsTriple(a: Sextet, b: Sextet, c: Sextet, d: Sextet)
    ensures var t := Triple(QuadValue(a, b, c, d)); Quad(Group(t[0], t[1], t[2])) == [a, b, c, d]
  {
    hide Quad, Triple;
    GroupOfTriple(QuadValue(a, b, c, d));
    QuadOf(QuadValue(a, b, c, d), a, b, c, d);
  }

  /** Two or three sextets come back without the bits that belong to no byte. */
  lemma PartialQuads(a: Sextet, b1: int, b0: int, c1: int, c0: int)
    requires 0 <= b1 < 4 && 0 <= b0 < 16 && 0 <= c1 < 16 && 0 <= c0 < 4
    ensures var t := Triple(QuadValue(a, b1 * 16 + b0, c1 * 4 + c0, 0));
      && Quad(Group(t[0], 0, 0)) == [a, b1 * 16, 0, 0]
      && Quad(Group(t[0], t[1], 0)) == [a, b1 * 16 + b0, c1 * 4, 0]
  {
    AssembledParts(a, b1, b0, c1, c0, 0);
    QuadOf(Group(a * 4 + b1, 0, 0), a, b1 * 16, 0, 0);
    QuadOf(Group(a * 4 + b1, b0 * 16 + c1, 0), a, b1 * 16 + b0, c1 * 4, 0);
  }

  lemma PairComesBack(a: Sextet, b: Sextet)
    ensures EncodeSextets(DecodeSextets([a, b])) == [a, b / 16 * 16]
  {
    PartialQuads(a, b / 16, b % 16, 0, 0);
    var t := Triple(QuadValue(a, b, 0, 0));
    assert b / 16 * 16 + b % 16 == b;
    hide Quad, Triple, Group, QuadValue;
    assert DecodeSextets([a, b]) == [t[0]];
  }

  lemma TripletComesBack(a: Sextet, b: Sextet, c: Sextet)
    ensures EncodeSextets(DecodeSextets([a, b, c])) == [a, b, c / 4 * 4]
  {
    PartialQuads(a, b / 16, b % 16, c / 4, c % 4);
    var t := Triple(QuadValue(a, b, c, 0));
    assert b / 16 * 16 + b % 16 == b && c / 4 * 4 + c % 4 == c;
    hide Quad, Triple, Group, QuadValue;
    assert DecodeSextets([a, b, c]) == [t[0], t[1]];
  }

  lemma EncodeAfterTriple(t: seq<Byte>, rest: seq<Byte>)
    requires |t| == 3
    ensures EncodeSextets(t + rest) == Quad(Group(t[0], t[1], t[2])) + EncodeSextets(rest)
  {
    assert (t + rest)[3..] == rest;
  }

  lemma CanonicalPair(a: Sextet, b: Sextet)
    ensures EncodeSextets(DecodeSextets([a, b])) == [a, b] <==> Canonical([a, b])
  {
    PairComesBack(a, b);
    hide EncodeSextets, DecodeSextets;
    assert [a, b / 16 * 16][1] == b / 16 * 16 && [a, b][1] == b;
  }

  lemma CanonicalTriplet(a: Sextet, b: Sextet, c: Sextet)
    ensures EncodeSextets(DecodeSextets([a, b, c])) == [a, b, c] <==> Canonical([a, b, c])
  {
    TripletComesBack(a, b, c);
    hide EncodeSextets, DecodeSextets;
    assert [a, b, c / 4 * 4][2] == c / 4 * 4 && [a, b, c][2] == c;
  }

  lemma LoneSextet(s: seq<Sextet>)
    requires |s| <= 1
    ensures EncodeSextets(DecodeSextets(s)) == [] && (Canonical(s) <==> s == [])
  {
    assert DecodeSextets(s) == [];
  }

  lemma StartedQuadComesBack(s: seq<Sextet>)
    requires |s| <= 3
    ensures EncodeSextets(DecodeSextets(s)) == s <==> Canonical(s)
  {
    hide EncodeSextets, DecodeSextets, Canonical;
    if |s| <= 1 {
      LoneSextet(s);
    } else if |s| == 2 {
      CanonicalPair(s[0], s[1]);
      assert s == [s[0], s[1]];
    } else {
      CanonicalTriplet(s[0], s[1], s[2]);
      assert s == [s[0], s[1], s[2]];
    }
  }

  /** In the other direction exactly the canonical texts survive. */
  lemma {:induction false} EncodeInvertsDecode(s: seq<Sextet>)
    ensures EncodeSextets(DecodeSextets(s)) == s <==> Canonical(s)
    decreases |s|
  {
    hide EncodeSextets, DecodeSextets, Canonical;
    if |s| <= 3 {
      StartedQuadComesBack(s);
    } else {
      QuadComesBack(s);
      CanonicalAfterQuad(s);
      EncodeInvertsDecode(s[4..]);
      SameAfterQuad(s, EncodeSextets(DecodeSextets(s[4..])));
    }
  }

  lemma SameAfterQuad(s: seq<Sextet>, rest: seq<Sextet>)
    requires |s| > 3
    ensures s[..4] + rest == s <==> rest == s[4..]
  {
    assert s == s[..4] + s[4..] && (s[..4] + rest)[4..] == rest;
  }

  lemma CanonicalAfterQuad(s: seq<Sextet>)
    requires |s| > 3
    ensures Canonical(s) <==> Canonical(s[4..])
  {
    assert |s| % 4 == |s[4..]| % 4;
  }

  lemma DecodeOfQuad(s: seq<Sextet>)
    requires |s| > 3
    ensures var t := Triple(QuadValue(s[0], s[1], s[2], s[3]));
      && |t| == 3 && DecodeSextets(s) == t + DecodeSextets(s[4..])
      && Quad(Group(t[0], t[1], t[2])) == s[..4]
  {
    QuadInvertsTriple(s[0], s[1], s[2], s[3]);
  }

  lemma QuadComesBack(s: seq<Sextet>)
    requires |s| > 3
    ensures EncodeSextets(DecodeSextets(s)) == s[..4] + EncodeSextets(DecodeSextets(s[4..]))
  {
    hide Quad, Triple, Group, EncodeSextets, DecodeSextets;
    DecodeOfQuad(s);
    EncodeAfterTriple(Triple(QuadValue(s[0], s[1], s[2], s[3])), DecodeSextets(s[4..]));
  }

  /** A text of the standard alphabet up to its padding, and the padding is the one its bytes ask for. */
  predicate WellPadded(text: string) {
    text == Chars(Read(text)) + Padding(|Read(text)| * 3 / 4)
  }

  /** Re-encoding gives back exactly the well padded texts whose last unused bits are zero. */
  lemma EncodeInvertsDecodeOfText(text: string)
    ensures Encode(Decode(text)) == text <==> WellPadded(text) && Canonical(Read(text))
  {
    hide EncodeSextets, DecodeSextets, Canonical, Padding, Chars, Read;
    EncodeInvertsDecode(Read(text));
    DecodedLength(Read(text));
    if Encode(Decode(text)) == text {
      ReadOfEncoded(Decode(text));
    }
  }

  lemma ReadOfEncoded(data: seq<Byte>)
    ensures Read(Encode(data)) == EncodeSextets(data)
  {
    hide EncodeSextets;
    EncodedSpells(data);
    ReadOfChars(EncodeSextets(data), Encode(data));
  }

  /** A text without its padding is canonical, but comes back with it. */
  lemma MissingPaddingIsAdded()
    ensures !WellPadded("YQ") && Canonical(Read("YQ")) && Encode(Decode("YQ")) == "YQ=="
  {
    var a: Byte := 'a' as int;
    assert Read("YQ") == [24, 16] by {
      assert "YQ"[1..] == "Q" && "Q"[1..] == "";
      assert Read("Q") == [16];
    }
    QuadOf(Group(a, 0, 0), 24, 16, 0, 0);
    assert EncodeSextets([a]) == [24, 16];
    DecodeInvertsEncode([a]);
    assert Decode("YQ") == [a];
    assert Chars([24, 16]) == "YQ";
  }

  lemma OneByteVector(f: Byte)
    requires f == 102
    ensures EncodeSextets([f]) == [25, 32]
  {
    QuadOf(Group(f, 0, 0), 25, 32, 0, 0);
    hide Quad;
  }

  lemma TwoByteVector(f: Byte, o: Byte)
    requires f == 102 && o == 111
    ensures EncodeSextets([f, o]) == [25, 38, 60]
  {
    QuadOf(Group(f, o, 0), 25, 38, 60, 0);
    hide Quad;
  }

  lemma ThreeByteVector(f: Byte, o: Byte)
    requires f == 102 && o == 111
    ensures EncodeSextets([f, o, o]) == [25, 38, 61, 47]
  {
    QuadOf(Group(f, o, o), 25, 38, 61, 47);
    hide Quad;
    NothingLeft();
    assert [f, o, o][3..] == [];
  }

  lemma VectorChars()
    ensures Chars([25, 32]) == "Zg" && Chars([25, 38, 60]) == "Zm8" && Chars([25, 38, 61, 47]) == "Zm9v"
  {
  }

  /** Three of the test vectors in section 10 of RFC 4648. */
  lemma TestVectors()
    ensures Encode(['f' as int]) == "Zg=="
    ensures Encode(['f' as int, 'o' as int]) == "Zm8="
    ensures Encode(['f' as int, 'o' as int, 'o' as int]) == "Zm9v"
  {
    hide EncodeSextets, Chars;
    OneByteVector('f' as int);
    TwoByteVector('f' as int, 'o' as int);
    ThreeByteVector('f' as int, 'o' as int);
    VectorChars();
  }
}
