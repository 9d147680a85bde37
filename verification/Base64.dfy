/** The base64 encoding of octets, and the forms that are encodings. */
module Base64 {
  import opened Elements

  /** Octets as integers; shifts, masks and ors of the source are written as the
      multiplications, remainders and sums they are on disjoint bits. */
  type Octets = seq<int>

  predicate OctetsOk(bytes: Octets) {
    forall i :: 0 <= i < |bytes| ==> 0 <= bytes[i] < 256
  }

  // --- the alphabet ------------------------------------------------------------------------

  function Char(v: int): char
    requires 0 <= v < 64
  {
    if v < 26 then ('A' as int + v) as char
    else if v < 52 then ('a' as int + (v - 26)) as char
    else if v < 62 then ('0' as int + (v - 52)) as char
    else if v == 62 then '+'
    else '/'
  }

  function Sextet(c: char): (r: Option<int>)
    ensures r.Some? ==> 0 <= r.value < 64
  {
    if 'A' <= c <= 'Z' then Some(c as int - 'A' as int)
    else if 'a' <= c <= 'z' then Some(c as int - 'a' as int + 26)
    else if '0' <= c <= '9' then Some(c as int - '0' as int + 52)
    else if c == '+' then Some(62)
    else if c == '/' then Some(63)
    else None
  }

  lemma Alphabet(v: int, c: char)
    ensures 0 <= v < 64 ==> Sextet(Char(v)) == Some(v) && Char(v) != '='
    ensures Sextet(c).Some? ==> Char(Sextet(c).value) == c
  {
  }

  /** The standard alphabet, in order of value. */
  const Standard: string := "ABCDEFGHIJKLMNOPQRSTUVWXYZ" + "abcdefghijklmnopqrstuvwxyz" + "0123456789+/"

  lemma InTable(v: int)
    requires 0 <= v < 64
    ensures |Standard| == 64 && Char(v) == Standard[v]
  {
  }

  /** Both directions of the table: `Char` reads it and `Sextet` inverts it. */
  lemma StandardAlphabet(v: int, c: char)
    ensures |Standard| == 64
    ensures 0 <= v < 64 ==> Char(v) == Standard[v]
    ensures Sextet(c) == Some(v) <==> 0 <= v < 64 && Standard[v] == c
  {
    hide Standard;
    InTable(0);
    if 0 <= v < 64 {
      InTable(v);
    }
    Alphabet(v, c);
  }

  // --- encoding ------------------------------------------------------------------------------

  /** The four characters of a chunk; `k` of its octets are present. */
  function Quad(b0: int, b1: int, b2: int, k: int): (q: string)
    requires 0 <= b0 < 256 && 0 <= b1 < 256 && 0 <= b2 < 256
    ensures |q| == 4
  {
    var n := b0 * 65536 + b1 * 256 + b2;
    [Char(n / 262144 % 64), Char(n / 4096 % 64), if k > 1 then Char(n / 64 % 64) else '=', if k > 2 then Char(n % 64) else '=']
  }

  function Encoded(bytes: Octets): string
    requires OctetsOk(bytes)
  {
    if |bytes| == 0 then ""
    else if |bytes| == 1 then Quad(bytes[0], 0, 0, 1)
    else if |bytes| == 2 then Quad(bytes[0], bytes[1], 0, 2)
    else Quad(bytes[0], bytes[1], bytes[2], 3) + Encoded(bytes[3..])
  }

  /** `encode_base64`. */
  method EncodeBase64(bytes: Octets) returns (out: string)
    requires OctetsOk(bytes)
    ensures out == Encoded(bytes) && Base64Form(bytes, out)
  {
    hide Base64Form;
    out := "";
    var i := 0;
    while i < |bytes|
      invariant 0 <= i <= |bytes| && out + Encoded(bytes[i..]) == Encoded(bytes)
    {
      var k := if |bytes| - i < 3 then |bytes| - i else 3;
      var b0 := bytes[i];
      var b1 := if k > 1 then bytes[i + 1] else 0;
      var b2 := if k > 2 then bytes[i + 2] else 0;
      ghost var rest := bytes[i..];
      assert rest[0] == b0 && (k > 1 ==> rest[1] == b1) && (k > 2 ==> rest[2] == b2);
      assert Encoded(rest) == Quad(b0, b1, b2, k) + Encoded(bytes[i + k..]) by {
        if k == 3 {
          assert rest[3..] == bytes[i + 3..];
        } else {
          assert bytes[i + k..] == [];
        }
      }
      out := out + Quad(b0, b1, b2, k);
      i := i + k;
    }
    assert bytes[i..] == [];
    FormIff(bytes, out);
  }

  // --- what an encoding is, bit by bit -----------------------------------------------------------

  /** Bit `i` of the octets, the most significant of each first, and 0 past the end. */
  function Bit(bytes: Octets, i: nat): int {
    if i / 8 < |bytes| then BitOf(bytes[i / 8], i % 8) else 0
  }

  function BitOf(b: int, i: nat): int
    requires i < 8
  {
    b / [128, 64, 32, 16, 8, 4, 2, 1][i] % 2
  }

  function SixBits(bytes: Octets, i: nat): (v: int)
    ensures 0 <= v < 64
  {
    BitsRange(bytes);
    32 * Bit(bytes, i) + 16 * Bit(bytes, i + 1) + 8 * Bit(bytes, i + 2)
    + 4 * Bit(bytes, i + 3) + 2 * Bit(bytes, i + 4) + Bit(bytes, i + 5)
  }

  lemma BitsRange(bytes: Octets)
    ensures forall i: nat :: 0 <= Bit(bytes, i) <= 1
  {
  }

  /** Each character of an encoding is the alphabet's at the next six bits; once the
      octets are used up, padding completes the last four characters. */
  ghost predicate Base64Form(bytes: Octets, s: string) {
    && |s| == (|bytes| + 2) / 3 * 4 && |Standard| == 64
    && forall p :: 0 <= p < |s| ==> s[p] == if 6 * p < 8 * |bytes| then Standard[SixBits(bytes, 6 * p)] else '='
  }

  lemma Halves(b: int)
    requires 0 <= b < 256
    ensures b / 128 == BitOf(b, 0) && b / 64 == 2 * (b / 128) + BitOf(b, 1)
    ensures b / 32 == 2 * (b / 64) + BitOf(b, 2) && b / 16 == 2 * (b / 32) + BitOf(b, 3)
    ensures b / 8 == 2 * (b / 16) + BitOf(b, 4) && b / 4 == 2 * (b / 8) + BitOf(b, 5)
    ensures b / 2 == 2 * (b / 4) + BitOf(b, 6) && b == 2 * (b / 2) + BitOf(b, 7)
  {
    assert b / 1 == b;
  }

  lemma HighBits(b: int)
    requires 0 <= b < 256
    ensures b / 4 == 32 * BitOf(b, 0) + 16 * BitOf(b, 1) + 8 * BitOf(b, 2) + 4 * BitOf(b, 3) + 2 * BitOf(b, 4) + BitOf(b, 5)
    ensures b / 16 == 8 * BitOf(b, 0) + 4 * BitOf(b, 1) + 2 * BitOf(b, 2) + BitOf(b, 3)
    ensures b / 64 == 2 * BitOf(b, 0) + BitOf(b, 1)
  {
    hide BitOf;
    Halves(b);
  }

  lemma LowBits(b: int)
    requires 0 <= b < 256
    ensures b % 4 == 2 * BitOf(b, 6) + BitOf(b, 7)
    ensures b % 16 == 8 * BitOf(b, 4) + 4 * BitOf(b, 5) + 2 * BitOf(b, 6) + BitOf(b, 7)
    ensures b % 64 == 32 * BitOf(b, 2) + 16 * BitOf(b, 3) + 8 * BitOf(b, 4) + 4 * BitOf(b, 5) + 2 * BitOf(b, 6) + BitOf(b, 7)
  {
    hide BitOf;
    Halves(b);
  }

  /** Octet `k`, or 0 past the end. */
  function OctetAt(bytes: Octets, k: nat): int {
    if k < |bytes| then bytes[k] else 0
  }

  lemma BitInOctet(bytes: Octets, i: nat)
    ensures Bit(bytes, i) == BitOf(OctetAt(bytes, i / 8), i % 8)
  {
  }

  /** The four groups of six bits of the first three octets. */
  lemma ChunkBits(bytes: Octets)
    requires OctetsOk(bytes)
    ensures var b0, b1, b2 := OctetAt(bytes, 0), OctetAt(bytes, 1), OctetAt(bytes, 2);
      && SixBits(bytes, 0) == b0 / 4 && SixBits(bytes, 6) == b0 % 4 * 16 + b1 / 16
      && SixBits(bytes, 12) == b1 % 16 * 4 + b2 / 64 && SixBits(bytes, 18) == b2 % 64
  {
    hide Bit, BitOf;
    forall i: nat ensures Bit(bytes, i) == BitOf(OctetAt(bytes, i / 8), i % 8) {
      BitInOctet(bytes, i);
    }
    HighBits(OctetAt(bytes, 0));
    HighBits(OctetAt(bytes, 1));
    HighBits(OctetAt(bytes, 2));
    LowBits(OctetAt(bytes, 0));
    LowBits(OctetAt(bytes, 1));
    LowBits(OctetAt(bytes, 2));
  }

  lemma SixBitsLater(bytes: Octets, i: nat)
    requires |bytes| >= 3
    ensures SixBits(bytes, i + 24) == SixBits(bytes[3..], i)
  {
    forall j: nat ensures Bit(bytes, j + 24) == Bit(bytes[3..], j) {
      assert (j + 24) / 8 == j / 8 + 3 && (j + 24) % 8 == j % 8;
    }
  }

  // --- what the accumulator computes ------------------------------------------------------------

  predicate SextetsOk(vs: seq<int>) {
    forall i :: 0 <= i < |vs| ==> 0 <= vs[i] < 64
  }

  /** The bits left over after `n` sextets. */
  function Bits(n: nat): int {
    match n % 4
    case 0 => 0
    case 1 => 6
    case 2 => 4
    case _ => 2
  }

  /** Whether the sextet at position `n` completes an octet. */
  predicate Emits(n: nat) {
    n % 4 != 0
  }

  predicate Aligned(n: nat) {
    n % 4 == 0
  }

  function Pow2(n: int): int {
    match n
    case 0 => 1
    case 2 => 4
    case 4 => 16
    case _ => 64
  }

  /** Two adjacent sextets give the octet that straddles them. */
  function Straddle(prev: int, last: int, bits: int): int {
    ((prev * 64 + last) / Pow2(bits)) % 256
  }

  function Decoded(vs: seq<int>): (r: Octets)
    requires SextetsOk(vs)
    ensures OctetsOk(r)
  {
    if |vs| == 0 then []
    else
      var n := |vs| - 1;
      var rest := Decoded(vs[..n]);
      if Emits(n) then rest + [Straddle(vs[n - 1], vs[n], Bits(n + 1))] else rest
  }

  const Word := 0x1_0000_0000

  /** `(acc << 6) | v` in 32 bits. */
  function Shift(acc: int, v: int): (r: int)
    requires 0 <= acc < Word && 0 <= v < 64
    ensures 0 <= r < Word
  {
    acc * 64 % Word + v
  }

  /** The bits that wrap away are never looked at again. */
  lemma ShiftLow(acc: int, v: int)
    requires 0 <= acc < Word && 0 <= v < 64
    ensures Shift(acc, v) % 4096 == (acc % 64) * 64 + v
    ensures Shift(acc, v) % 64 == v
  {
    var hi, lo, q := acc / 64, acc % 64, acc * 64 / Word;
    assert Shift(acc, v) == 4096 * (hi - 1048576 * q) + (64 * lo + v);
    DivMod(Shift(acc, v), hi - 1048576 * q, 64 * lo + v, 4096);
    DivMod(Shift(acc, v), 64 * (hi - 1048576 * q) + lo, v, 64);
  }

  /** Quotient and remainder by the divisors used here are unique. */
  lemma DivMod(x: int, q: int, r: int, k: int)
    requires x == q * k + r && 0 <= r < k
    requires k == 4 || k == 16 || k == 64 || k == 256 || k == 4096 || k == 262144
    ensures x / k == q && x % k == r
  {
    if k == 4 {
    } else if k == 16 {
    } else if k == 64 {
    } else if k == 256 {
    } else if k == 4096 {
    } else {
    }
  }

  lemma LowBitsOnly(x: int, bits: int)
    requires 0 <= x && (bits == 0 || bits == 2 || bits == 4)
    ensures (x / Pow2(bits)) % 256 == ((x % 4096) / Pow2(bits)) % 256
  {
    var k, w := x / 4096, x % 4096;
    if bits == 0 {
      LowOctet(16 * k, w, x);
    } else if bits == 2 {
      DivMod(x, 1024 * k + w / 4, w % 4, 4);
      LowOctet(4 * k, w / 4, x / 4);
    } else {
      DivMod(x, 256 * k + w / 16, w % 16, 16);
      LowOctet(k, w / 16, x / 16);
    }
  }

  /** Whole multiples of 256 do not change the low octet. */
  lemma LowOctet(k: int, w: int, x: int)
    requires x == 256 * k + w
    ensures x % 256 == w % 256
  {
    DivMod(x, k + w / 256, w % 256, 256);
  }

  // --- decoding a quad -----------------------------------------------------------------------------

  lemma DecodedSnoc(vs: seq<int>, v: int)
    requires SextetsOk(vs) && 0 <= v < 64
    ensures SextetsOk(vs + [v])
    ensures Emits(|vs|) ==> |vs| > 0
    ensures Decoded(vs + [v]) == if Emits(|vs|) then Decoded(vs) + [Straddle(vs[|vs| - 1], v, Bits(|vs| + 1))] else Decoded(vs)
  {
    assert (vs + [v])[..|vs|] == vs;
  }

  lemma SamePosition(a: nat, n: nat)
    requires Aligned(a)
    ensures Emits(a + n) == Emits(n) && Bits(a + n) == Bits(n)
  {
  }

  lemma ConcatStep(a: seq<int>, init: seq<int>, last: int)
    requires SextetsOk(a) && SextetsOk(init) && 0 <= last < 64 && Aligned(|a|)
    requires SextetsOk(a + init) && Decoded(a + init) == Decoded(a) + Decoded(init)
    ensures SextetsOk(a + init + [last]) && SextetsOk(init + [last])
    ensures Decoded(a + init + [last]) == Decoded(a) + Decoded(init + [last])
  {
    hide Straddle, Bits, Decoded, Emits, Aligned;
    DecodedSnoc(init, last);
    DecodedSnoc(a + init, last);
    SamePosition(|a|, |init|);
    SamePosition(|a|, |init| + 1);
    if Emits(|init|) {
      assert (a + init)[|a + init| - 1] == init[|init| - 1];
    }
  }

  lemma {:induction false} DecodedConcat(a: seq<int>, b: seq<int>)
    requires SextetsOk(a) && SextetsOk(b) && Aligned(|a|)
    ensures SextetsOk(a + b) && Decoded(a + b) == Decoded(a) + Decoded(b)
    decreases |b|
  {
    hide Straddle, Bits, Decoded, Emits, Aligned;
    if |b| == 0 {
      assert a + b == a;
      assert b == [] && Decoded([]) == [] by { DecodedNone(); }
    } else {
      var init, last := b[..|b| - 1], b[|b| - 1];
      DecodedConcat(a, init);
      assert a + b == (a + init) + [last] && b == init + [last];
      ConcatStep(a, init, last);
    }
  }

  lemma Positions()
    ensures !Emits(0) && Emits(1) && Emits(2) && Emits(3) && Bits(2) == 4 && Bits(3) == 2 && Bits(4) == 0
  {
  }

  lemma DecodedNone()
    ensures Decoded([]) == []
  {
  }

  function Octet0(v0: int, v1: int): int {
    Straddle(v0, v1, 4)
  }

  function Octet1(v1: int, v2: int): int {
    Straddle(v1, v2, 2)
  }

  function Octet2(v2: int, v3: int): int {
    Straddle(v2, v3, 0)
  }

  lemma DecodedTwo(v0: int, v1: int)
    requires 0 <= v0 < 64 && 0 <= v1 < 64
    ensures Decoded([v0, v1]) == [Octet0(v0, v1)]
  {
    hide Straddle, Decoded, Bits, Emits;
    DecodedNone();
    Positions();
    DecodedSnoc([], v0);
    DecodedSnoc([v0], v1);
    assert [] + [v0] == [v0] && [v0] + [v1] == [v0, v1];
  }

  lemma DecodedThree(v0: int, v1: int, v2: int)
    requires 0 <= v0 < 64 && 0 <= v1 < 64 && 0 <= v2 < 64
    ensures Decoded([v0, v1, v2]) == [Octet0(v0, v1), Octet1(v1, v2)]
  {
    hide Straddle, Decoded, Bits, Emits;
    Positions();
    DecodedTwo(v0, v1);
    DecodedSnoc([v0, v1], v2);
    assert [v0, v1] + [v2] == [v0, v1, v2];
  }

  lemma DecodedFour(v0: int, v1: int, v2: int, v3: int)
    requires 0 <= v0 < 64 && 0 <= v1 < 64 && 0 <= v2 < 64 && 0 <= v3 < 64
    ensures Decoded([v0, v1, v2, v3]) == [Octet0(v0, v1), Octet1(v1, v2), Octet2(v2, v3)]
  {
    hide Straddle, Decoded, Bits, Emits;
    Positions();
    DecodedThree(v0, v1, v2);
    DecodedSnoc([v0, v1, v2], v3);
    assert [v0, v1, v2] + [v3] == [v0, v1, v2, v3];
  }

  /** The sextets of a 24-bit chunk, and back. */
  lemma ChunkSplits(b0: int, b1: int, b2: int)
    requires 0 <= b0 < 256 && 0 <= b1 < 256 && 0 <= b2 < 256
    ensures var n := b0 * 65536 + b1 * 256 + b2;
      && n / 262144 % 64 == b0 / 4
      && n / 4096 % 64 == b0 % 4 * 16 + b1 / 16
      && n / 64 % 64 == b1 % 16 * 4 + b2 / 64
      && n % 64 == b2 % 64
  {
    var n := b0 * 65536 + b1 * 256 + b2;
    ChunkOf(b0 / 4, b0 % 4, b1 / 16, b1 % 16, b2 / 64, b2 % 64, n);
  }

  lemma ChunkOf(q0: int, r0: int, q1: int, r1: int, q2: int, r2: int, n: int)
    requires 0 <= q0 < 64 && 0 <= r0 < 4 && 0 <= q1 < 16 && 0 <= r1 < 16 && 0 <= q2 < 4 && 0 <= r2 < 64
    requires n == q0 * 262144 + r0 * 65536 + q1 * 4096 + r1 * 256 + q2 * 64 + r2
    ensures n / 262144 % 64 == q0 && n / 4096 % 64 == r0 * 16 + q1 && n / 64 % 64 == r1 * 4 + q2 && n % 64 == r2
  {
    DivMod(n, q0, r0 * 65536 + q1 * 4096 + r1 * 256 + q2 * 64 + r2, 262144);
    DivMod(q0, 0, q0, 64);
    DivMod(n, q0 * 64 + (r0 * 16 + q1), r1 * 256 + q2 * 64 + r2, 4096);
    DivMod(n / 4096, q0, r0 * 16 + q1, 64);
    DivMod(n, (q0 * 64 + r0 * 16 + q1) * 64 + (r1 * 4 + q2), r2, 64);
    DivMod(n / 64, q0 * 64 + r0 * 16 + q1, r1 * 4 + q2, 64);
  }

  lemma OctetsBack(b0: int, b1: int, b2: int)
    requires 0 <= b0 < 256 && 0 <= b1 < 256 && 0 <= b2 < 256
    ensures Octet0(b0 / 4, b0 % 4 * 16 + b1 / 16) == b0
    ensures Octet1(b0 % 4 * 16 + b1 / 16, b1 % 16 * 4 + b2 / 64) == b1
    ensures Octet2(b1 % 16 * 4 + b2 / 64, b2 % 64) == b2
  {
    hide Octet0, Octet1, Octet2;
    OctetsFrom(b0 / 4, b0 % 4, b1 / 16, b1 % 16, b2 / 64, b2 % 64);
  }

  lemma OctetsFrom(q0: int, r0: int, q1: int, r1: int, q2: int, r2: int)
    requires 0 <= q0 < 64 && 0 <= r0 < 4 && 0 <= q1 < 16 && 0 <= r1 < 16 && 0 <= q2 < 4 && 0 <= r2 < 64
    ensures Octet0(q0, r0 * 16 + q1) == q0 * 4 + r0
    ensures Octet1(r0 * 16 + q1, r1 * 4 + q2) == q1 * 16 + r1
    ensures Octet2(r1 * 4 + q2, r2) == q2 * 64 + r2
  {
    hide Octet0, Octet1, Octet2;
    FirstOctet(q0, r0, q1);
    SecondOctet(r0, q1, r1, q2);
    ThirdOctet(r1, q2, r2);
  }

  lemma FirstOctet(q0: int, r0: int, q1: int)
    requires 0 <= q0 < 64 && 0 <= r0 < 4 && 0 <= q1 < 16
    ensures Octet0(q0, r0 * 16 + q1) == q0 * 4 + r0
  {
    DivMod(q0 * 64 + (r0 * 16 + q1), q0 * 4 + r0, q1, 16);
    DivMod(q0 * 4 + r0, 0, q0 * 4 + r0, 256);
  }

  lemma SecondOctet(r0: int, q1: int, r1: int, q2: int)
    requires 0 <= r0 < 4 && 0 <= q1 < 16 && 0 <= r1 < 16 && 0 <= q2 < 4
    ensures Octet1(r0 * 16 + q1, r1 * 4 + q2) == q1 * 16 + r1
  {
    DivMod((r0 * 16 + q1) * 64 + (r1 * 4 + q2), r0 * 256 + (q1 * 16 + r1), q2, 4);
    DivMod(r0 * 256 + (q1 * 16 + r1), r0, q1 * 16 + r1, 256);
  }

  lemma ThirdOctet(r1: int, q2: int, r2: int)
    requires 0 <= r1 < 16 && 0 <= q2 < 4 && 0 <= r2 < 64
    ensures Octet2(r1 * 4 + q2, r2) == q2 * 64 + r2
  {
    DivMod((r1 * 4 + q2) * 64 + r2, r1, q2 * 64 + r2, 256);
  }

  /** The octets in terms of the halves of the sextets. */
  lemma OctetForms(v0: int, v1: int, v2: int, v3: int)
    requires 0 <= v0 < 64 && 0 <= v1 < 64 && 0 <= v2 < 64 && 0 <= v3 < 64
    ensures Octet0(v0, v1) == v0 * 4 + v1 / 16
    ensures Octet1(v1, v2) == v1 % 16 * 16 + v2 / 4
    ensures Octet2(v2, v3) == v2 % 4 * 64 + v3
  {
    hide Octet0, Octet1, Octet2;
    OctetsFrom(v0, v1 / 16, v1 % 16, v2 / 4, v2 % 4, v3);
  }

  lemma SextetsBack(v0: int, v1: int, v2: int, v3: int)
    requires 0 <= v0 < 64 && 0 <= v1 < 64 && 0 <= v2 < 64 && 0 <= v3 < 64
    ensures var b0, b1, b2 := Octet0(v0, v1), Octet1(v1, v2), Octet2(v2, v3);
      b0 / 4 == v0 && b0 % 4 * 16 + b1 / 16 == v1 && b1 % 16 * 4 + b2 / 64 == v2 && b2 % 64 == v3
    ensures v1 % 16 == 0 ==> Octet0(v0, v1) % 4 * 16 == v1
    ensures v2 % 4 == 0 ==> Octet1(v1, v2) % 16 * 4 == v2
  {
    hide Octet0, Octet1, Octet2;
    OctetForms(v0, v1, v2, v3);
    DivMod(v0 * 4 + v1 / 16, v0, v1 / 16, 4);
    DivMod(v1 % 16 * 16 + v2 / 4, v1 % 16, v2 / 4, 16);
    DivMod(v2 % 4 * 64 + v3, v2 % 4, v3, 64);
  }

  // --- forms ------------------------------------------------------------------------------------------

  predicate InAlphabet(s: string) {
    forall i :: 0 <= i < |s| ==> Sextet(s[i]).Some?
  }

  function Values(s: string): (vs: seq<int>)
    requires InAlphabet(s)
    ensures SextetsOk(vs) && |vs| == |s| && forall i :: 0 <= i < |s| ==> vs[i] == Sextet(s[i]).value
  {
    seq(|s|, i requires 0 <= i < |s| => Sextet(s[i]).value)
  }

  /** The bits of the last sextet that `pad` padding characters leave unused. */
  function Unused(pad: int): int {
    if pad == 0 then 1 else if pad == 1 then 4 else 16
  }

  /** What the parser accepts: whole quads, at most two trailing padding
      characters, only alphabet characters before them, and no stray bits. */
  ghost predicate Accepted(s: string, pad: nat) {
    && |s| > 0 && Aligned(|s|) && pad <= 2 && pad < |s|
    && (forall i :: |s| - pad <= i < |s| ==> s[i] == '=')
    && InAlphabet(s[..|s| - pad])
    && Sextet(s[|s| - pad - 1]).Some? && Sextet(s[|s| - pad - 1]).value % Unused(pad) == 0
  }

  function Body(s: string, pad: nat): string
    requires pad <= |s|
  {
    s[..|s| - pad]
  }

  lemma ValuesOfQuad(s: string)
    requires |s| == 4 && InAlphabet(s)
    ensures Values(s) == [Sextet(s[0]).value, Sextet(s[1]).value, Sextet(s[2]).value, Sextet(s[3]).value]
  {
  }

  lemma ValuesOfThree(s: string)
    requires |s| == 3 && InAlphabet(s)
    ensures Values(s) == [Sextet(s[0]).value, Sextet(s[1]).value, Sextet(s[2]).value]
  {
  }

  lemma ValuesOfTwo(s: string)
    requires |s| == 2 && InAlphabet(s)
    ensures Values(s) == [Sextet(s[0]).value, Sextet(s[1]).value]
  {
  }

  lemma ValuesConcat(a: string, b: string)
    requires InAlphabet(a) && InAlphabet(b)
    ensures InAlphabet(a + b) && Values(a + b) == Values(a) + Values(b)
  {
  }

  lemma EncodedChunk(b0: int, b1: int, b2: int, rest: Octets)
    requires OctetsOk([b0, b1, b2]) && OctetsOk(rest)
    ensures OctetsOk([b0, b1, b2] + rest)
    ensures 0 <= b0 < 256 && 0 <= b1 < 256 && 0 <= b2 < 256
    ensures Encoded([b0, b1, b2] + rest) == Quad(b0, b1, b2, 3) + Encoded(rest)
  {
    var bytes := [b0, b1, b2] + rest;
    assert [b0, b1, b2][0] == b0 && [b0, b1, b2][1] == b1 && [b0, b1, b2][2] == b2;
    assert bytes[3..] == rest && bytes[0] == b0 && bytes[1] == b1 && bytes[2] == b2;
  }

  /** The characters of a chunk. */
  lemma QuadChars(b0: int, b1: int, b2: int, k: int)
    requires 0 <= b0 < 256 && 0 <= b1 < 256 && 0 <= b2 < 256
    ensures 0 <= b0 % 4 * 16 + b1 / 16 < 64 && 0 <= b1 % 16 * 4 + b2 / 64 < 64
    ensures Quad(b0, b1, b2, k) == [
      Char(b0 / 4), Char(b0 % 4 * 16 + b1 / 16),
      if k > 1 then Char(b1 % 16 * 4 + b2 / 64) else '=', if k > 2 then Char(b2 % 64) else '=']
  {
    ChunkSplits(b0, b1, b2);
  }

  /** Position by position, a chunk and what follows it. */
  lemma ChunkForm(bytes: Octets, k: int)
    requires OctetsOk(bytes) && |bytes| > 0 && k == if |bytes| < 3 then |bytes| else 3
    ensures 0 <= OctetAt(bytes, 0) < 256 && 0 <= OctetAt(bytes, 1) < 256 && 0 <= OctetAt(bytes, 2) < 256 && |Standard| == 64
    ensures forall p :: 0 <= p < 4 ==>
      Quad(OctetAt(bytes, 0), OctetAt(bytes, 1), OctetAt(bytes, 2), k)[p]
        == if 6 * p < 8 * |bytes| then Standard[SixBits(bytes, 6 * p)] else '='
  {
    hide Standard, SixBits, Quad, Char;
    var b0, b1, b2 := OctetAt(bytes, 0), OctetAt(bytes, 1), OctetAt(bytes, 2);
    QuadChars(b0, b1, b2, k);
    ChunkBits(bytes);
    StandardAlphabet(SixBits(bytes, 0), '=');
    StandardAlphabet(SixBits(bytes, 6), '=');
    StandardAlphabet(SixBits(bytes, 12), '=');
    StandardAlphabet(SixBits(bytes, 18), '=');
  }

  lemma {:induction false} EncodedForm(bytes: Octets)
    requires OctetsOk(bytes)
    ensures Base64Form(bytes, Encoded(bytes))
    decreases |bytes|
  {
    hide Standard, SixBits, Quad;
    var s := Encoded(bytes);
    StandardAlphabet(0, '=');
    if 0 < |bytes| {
      ChunkForm(bytes, if |bytes| < 3 then |bytes| else 3);
    }
    if 3 <= |bytes| {
      EncodedForm(bytes[3..]);
      forall p | 4 <= p < |s|
        ensures s[p] == if 6 * p < 8 * |bytes| then Standard[SixBits(bytes, 6 * p)] else '='
      {
        SixBitsLater(bytes, 6 * (p - 4));
        assert s[p] == Encoded(bytes[3..])[p - 4];
      }
    }
  }

  /** The encodings are exactly the strings of that form. */
  lemma FormIff(bytes: Octets, s: string)
    requires OctetsOk(bytes)
    ensures Encoded(bytes) == s <==> Base64Form(bytes, s)
  {
    hide Standard, SixBits, Encoded;
    EncodedForm(bytes);
    if Base64Form(bytes, s) {
      assert Encoded(bytes) == s;
    }
  }

  // --- accepted forms are encodings ----------------------------------------------------------------

  lemma FullQuad(s: string)
    requires |s| == 4 && InAlphabet(s)
    ensures |Decoded(Values(s))| == 3
    ensures var d := Decoded(Values(s)); 0 <= d[0] < 256 && 0 <= d[1] < 256 && 0 <= d[2] < 256 && Quad(d[0], d[1], d[2], 3) == s
  {
    hide Octet0, Octet1, Octet2, Decoded, Sextet, Char, Quad, Values;
    ValuesOfQuad(s);
    var v0, v1, v2, v3 := Sextet(s[0]).value, Sextet(s[1]).value, Sextet(s[2]).value, Sextet(s[3]).value;
    DecodedFour(v0, v1, v2, v3);
    SextetsBack(v0, v1, v2, v3);
    var d := Decoded(Values(s));
    assert 0 <= d[0] < 256 && 0 <= d[1] < 256 && 0 <= d[2] < 256;
    QuadChars(d[0], d[1], d[2], 3);
    Alphabet(0, s[0]);
    Alphabet(0, s[1]);
    Alphabet(0, s[2]);
    Alphabet(0, s[3]);
  }

  lemma OnePad(s: string)
    requires |s| == 4 && s[3] == '=' && InAlphabet(s[..3]) && Sextet(s[2]).Some? && Sextet(s[2]).value % 4 == 0
    ensures Encoded(Decoded(Values(s[..3]))) == s
  {
    hide Octet0, Octet1, Octet2, Decoded, Sextet, Char, Quad, Values;
    ValuesOfThree(s[..3]);
    var v0, v1, v2 := Sextet(s[..3][0]).value, Sextet(s[..3][1]).value, Sextet(s[..3][2]).value;
    DecodedThree(v0, v1, v2);
    SextetsBack(v0, v1, v2, 0);
    var d := Decoded(Values(s[..3]));
    assert d == [Octet0(v0, v1), Octet1(v1, v2)];
    assert 0 <= d[0] < 256 && 0 <= d[1] < 256;
    QuadChars(d[0], d[1], 0, 2);
    Alphabet(0, s[0]);
    Alphabet(0, s[1]);
    Alphabet(0, s[2]);
  }

  lemma TwoPads(s: string)
    requires |s| == 4 && s[2] == '=' && s[3] == '=' && InAlphabet(s[..2]) && Sextet(s[1]).Some? && Sextet(s[1]).value % 16 == 0
    ensures Encoded(Decoded(Values(s[..2]))) == s
  {
    hide Octet0, Octet1, Octet2, Decoded, Sextet, Char, Quad, Values;
    ValuesOfTwo(s[..2]);
    var v0, v1 := Sextet(s[..2][0]).value, Sextet(s[..2][1]).value;
    DecodedTwo(v0, v1);
    SextetsBack(v0, v1, 0, 0);
    var d := Decoded(Values(s[..2]));
    assert d == [Octet0(v0, v1)];
    assert 0 <= d[0] < 256;
    QuadChars(d[0], 0, 0, 1);
    Alphabet(0, s[0]);
    Alphabet(0, s[1]);
  }

  lemma LastQuad(s: string, pad: nat)
    requires Accepted(s, pad) && |s| == 4
    ensures Encoded(Decoded(Values(Body(s, pad)))) == s
  {
    hide Decoded, Sextet, Quad, Values, Encoded;
    if pad == 0 {
      assert s[..4] == s;
      FullQuad(s);
      var d := Decoded(Values(s));
      assert d == [d[0], d[1], d[2]] + [];
      EncodedChunk(d[0], d[1], d[2], []);
      EncodedNone();
    } else if pad == 1 {
      OnePad(s);
    } else {
      TwoPads(s);
    }
  }

  lemma EncodedNone()
    ensures Encoded([]) == ""
  {
  }

  lemma RestAccepted(s: string, pad: nat)
    requires Accepted(s, pad) && |s| > 4
    ensures Accepted(s[4..], pad) && InAlphabet(s[..4]) && Body(s, pad) == s[..4] + Body(s[4..], pad)
  {
    var t := s[4..];
    assert |s| >= 8;
    var body := t[..|t| - pad];
    forall i | 0 <= i < |body| ensures Sextet(body[i]).Some? {
      assert body[i] == s[..|s| - pad][i + 4];
    }
    forall i | 0 <= i < 4 ensures Sextet(s[..4][i]).Some? {
      assert s[..4][i] == s[..|s| - pad][i];
    }
    assert t[|t| - pad - 1] == s[|s| - pad - 1];
  }

  /** Every accepted form is the encoding of the octets it decodes to. */
  lemma {:induction false} AcceptedEncodes(s: string, pad: nat)
    requires Accepted(s, pad)
    ensures Encoded(Decoded(Values(Body(s, pad)))) == s
    decreases |s|
  {
    hide Decoded, Sextet, Quad, Values, Encoded, Accepted;
    LengthFacts(s, pad);
    if |s| == 4 {
      LastQuad(s, pad);
    } else {
      RestAccepted(s, pad);
      AcceptedEncodes(s[4..], pad);
      AcceptedAlphabet(s[4..], pad);
      ValuesConcat(s[..4], Body(s[4..], pad));
      DecodedConcat(Values(s[..4]), Values(Body(s[4..], pad)));
      FullQuad(s[..4]);
      var d := Decoded(Values(s[..4]));
      assert d == [d[0], d[1], d[2]];
      EncodedChunk(d[0], d[1], d[2], Decoded(Values(Body(s[4..], pad))));
    }
  }

  lemma AcceptedAlphabet(s: string, pad: nat)
    requires Accepted(s, pad)
    ensures pad <= |s| && InAlphabet(Body(s, pad))
  {
  }

  lemma LengthFacts(s: string, pad: nat)
    requires Accepted(s, pad)
    ensures |s| >= 4 && pad <= 2 && InAlphabet(Body(s, pad))
  {
  }

  // --- encodings are accepted --------------------------------------------------------------------------

  function PadOf(n: nat): nat {
    if n % 3 == 0 then 0 else if n % 3 == 1 then 2 else 1
  }

  lemma ChunkOfThree(b0: int, b1: int, b2: int)
    requires 0 <= b0 < 256 && 0 <= b1 < 256 && 0 <= b2 < 256
    ensures var q := Quad(b0, b1, b2, 3); InAlphabet(q) && Decoded(Values(q)) == [b0, b1, b2]
  {
    hide Octet0, Octet1, Octet2, Decoded, Char, Sextet, Values, Quad;
    var q := Quad(b0, b1, b2, 3);
    QuadChars(b0, b1, b2, 3);
    var v0, v1, v2, v3 := b0 / 4, b0 % 4 * 16 + b1 / 16, b1 % 16 * 4 + b2 / 64, b2 % 64;
    Alphabet(v0, ' ');
    Alphabet(v1, ' ');
    Alphabet(v2, ' ');
    Alphabet(v3, ' ');
    ValuesOfQuad(q);
    DecodedFour(v0, v1, v2, v3);
    OctetsBack(b0, b1, b2);
  }

  lemma ChunkOfTwo(b0: int, b1: int)
    requires 0 <= b0 < 256 && 0 <= b1 < 256
    ensures var q := Quad(b0, b1, 0, 2); Accepted(q, 1) && Decoded(Values(Body(q, 1))) == [b0, b1]
  {
    hide Octet0, Octet1, Octet2, Decoded, Char, Sextet, Values, Quad;
    var q := Quad(b0, b1, 0, 2);
    QuadChars(b0, b1, 0, 2);
    var v0, v1, v2 := b0 / 4, b0 % 4 * 16 + b1 / 16, b1 % 16 * 4;
    Alphabet(v0, ' ');
    Alphabet(v1, ' ');
    Alphabet(v2, ' ');
    assert q[..3] == [Char(v0), Char(v1), Char(v2)] && q[3] == '=';
    ValuesOfThree(q[..3]);
    DecodedThree(v0, v1, v2);
    OctetsBack(b0, b1, 0);
    assert v2 % 4 == 0;
  }

  lemma ChunkOfOne(b0: int)
    requires 0 <= b0 < 256
    ensures var q := Quad(b0, 0, 0, 1); Accepted(q, 2) && Decoded(Values(Body(q, 2))) == [b0]
  {
    hide Octet0, Octet1, Octet2, Decoded, Char, Sextet, Values, Quad;
    var q := Quad(b0, 0, 0, 1);
    QuadChars(b0, 0, 0, 1);
    var v0, v1 := b0 / 4, b0 % 4 * 16;
    Alphabet(v0, ' ');
    Alphabet(v1, ' ');
    assert q[..2] == [Char(v0), Char(v1)] && q[2] == '=' && q[3] == '=';
    ValuesOfTwo(q[..2]);
    DecodedTwo(v0, v1);
    OctetsBack(b0, 0, 0);
    assert v1 % 16 == 0;
  }

  lemma QuadAlone(q: string)
    requires |q| == 4 && InAlphabet(q)
    ensures Accepted(q, 0) && Body(q, 0) == q
  {
    assert q[..4] == q;
  }

  lemma QuadThen(q: string, t: string, pad: nat)
    requires |q| == 4 && InAlphabet(q) && Accepted(t, pad)
    ensures Accepted(q + t, pad) && Body(q + t, pad) == q + Body(t, pad)
  {
    var s := q + t;
    var body := s[..|s| - pad];
    forall i | 0 <= i < |body| ensures Sextet(body[i]).Some? {
      if i >= 4 {
        assert body[i] == t[..|t| - pad][i - 4];
      }
    }
    assert s[|s| - pad - 1] == t[|t| - pad - 1];
  }

  /** The encoding of any octets is accepted and decodes to them. */
  lemma {:induction false} EncodedAccepted(bytes: Octets)
    requires OctetsOk(bytes) && |bytes| > 0
    ensures Accepted(Encoded(bytes), PadOf(|bytes|))
    ensures Decoded(Values(Body(Encoded(bytes), PadOf(|bytes|)))) == bytes
    decreases |bytes|
  {
    hide Decoded, Sextet, Quad, Values, Accepted;
    if |bytes| == 1 {
      ChunkOfOne(bytes[0]);
      assert bytes == [bytes[0]];
    } else if |bytes| == 2 {
      ChunkOfTwo(bytes[0], bytes[1]);
      assert bytes == [bytes[0], bytes[1]];
    } else {
      var b0, b1, b2, rest := bytes[0], bytes[1], bytes[2], bytes[3..];
      assert bytes == [b0, b1, b2] + rest;
      var q := Quad(b0, b1, b2, 3);
      ChunkOfThree(b0, b1, b2);
      if |rest| == 0 {
        assert q + "" == q;
        QuadAlone(q);
      } else {
        EncodedAccepted(rest);
        var pad := PadOf(|rest|);
        assert pad == PadOf(|bytes|);
        QuadThen(q, Encoded(rest), pad);
        AcceptedAlphabet(Encoded(rest), pad);
        ValuesConcat(q, Body(Encoded(rest), pad));
        DecodedConcat(Values(q), Values(Body(Encoded(rest), pad)));
      }
    }
  }
}
