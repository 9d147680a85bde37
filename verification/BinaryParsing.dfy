/** The parsers of the two binary datatypes and their canonical forms. */
module BinaryParsing {
  import opened Elements
  import opened Base64

  // --- hexadecimal -----------------------------------------------------------------------------

  function HexDigit(n: int): char
    requires 0 <= n < 16
  {
    if n < 10 then ('0' as int + n) as char else ('A' as int + (n - 10)) as char
  }

  function Hex(bytes: Octets): (r: string)
    requires OctetsOk(bytes)
    ensures |r| == 2 * |bytes|
  {
    if |bytes| == 0 then ""
    else
      var n := |bytes| - 1;
      Hex(bytes[..n]) + [HexDigit(bytes[n] / 16), HexDigit(bytes[n] % 16)]
  }

  /** `encode_hex_upper`. */
  method EncodeHexUpper(bytes: Octets) returns (out: string)
    requires OctetsOk(bytes)
    ensures out == Hex(bytes) && HexForm(bytes, out)
  {
    out := "";
    assert bytes[..0] == [];
    for i := 0 to |bytes|
      invariant out == Hex(bytes[..i])
    {
      assert bytes[..i + 1][..i] == bytes[..i];
      out := out + [HexDigit(bytes[i] / 16), HexDigit(bytes[i] % 16)];
    }
    assert bytes[..|bytes|] == bytes;
    HexFormIff(bytes, out);
  }

  const UpperDigits: string := "0123456789ABCDEF"
  const LowerDigits: string := "0123456789abcdef"

  lemma HexDigits(n: int)
    requires 0 <= n < 16
    ensures HexDigit(n) == UpperDigits[n]
  {
  }

  /** Octet `i` is spelled by two digits, the high half first. */
  ghost predicate HexForm(bytes: Octets, s: string)
    requires OctetsOk(bytes)
  {
    && |s| == 2 * |bytes|
    && forall i :: 0 <= i < |bytes| ==> s[2 * i] == UpperDigits[bytes[i] / 16] && s[2 * i + 1] == UpperDigits[bytes[i] % 16]
  }

  lemma {:induction false} HexHasForm(bytes: Octets)
    requires OctetsOk(bytes)
    ensures HexForm(bytes, Hex(bytes))
    decreases |bytes|
  {
    hide HexDigit, Hex;
    HexLength(bytes);
    if |bytes| > 0 {
      var n := |bytes| - 1;
      HexSnoc(bytes);
      HexHasForm(bytes[..n]);
      HexDigits(bytes[n] / 16);
      HexDigits(bytes[n] % 16);
      forall i | 0 <= i < n
        ensures Hex(bytes)[2 * i] == UpperDigits[bytes[i] / 16] && Hex(bytes)[2 * i + 1] == UpperDigits[bytes[i] % 16]
      {
        assert bytes[..n][i] == bytes[i];
        assert Hex(bytes)[..2 * n][2 * i] == Hex(bytes)[2 * i] && Hex(bytes)[..2 * n][2 * i + 1] == Hex(bytes)[2 * i + 1];
      }
    }
  }

  lemma SameByPairs(s: string, t: string)
    requires |s| == |t| && |s| % 2 == 0
    requires forall i :: 0 <= i < |s| / 2 ==> s[2 * i] == t[2 * i] && s[2 * i + 1] == t[2 * i + 1]
    ensures s == t
  {
    forall k | 0 <= k < |s| ensures s[k] == t[k] {
      var i := k / 2;
      assert s[2 * i] == t[2 * i] && s[2 * i + 1] == t[2 * i + 1];
    }
  }

  /** The hex form is the one string of that form. */
  lemma HexFormIff(bytes: Octets, s: string)
    requires OctetsOk(bytes)
    ensures Hex(bytes) == s <==> HexForm(bytes, s)
  {
    hide Hex;
    HexHasForm(bytes);
    if HexForm(bytes, s) {
      forall i | 0 <= i < |s| / 2 ensures s[2 * i] == Hex(bytes)[2 * i] && s[2 * i + 1] == Hex(bytes)[2 * i + 1] {
        assert 0 <= bytes[i] < 256;
      }
      SameByPairs(s, Hex(bytes));
    }
  }

  lemma HexDigitOne(a: int, b: int)
    requires 0 <= a < 16 && 0 <= b < 16 && HexDigit(a) == HexDigit(b)
    ensures a == b
  {
  }

  /** Hex forms separate octet sequences. */
  lemma {:induction false} HexInjective(a: Octets, b: Octets)
    requires OctetsOk(a) && OctetsOk(b) && Hex(a) == Hex(b)
    ensures a == b
    decreases |a|
  {
    hide HexDigit, Hex;
    HexLength(a);
    HexLength(b);
    if |a| > 0 {
      var n := |a| - 1;
      HexSnoc(a);
      HexSnoc(b);
      assert Hex(a)[..2 * n] == Hex(b)[..2 * n];
      HexInjective(a[..n], b[..n]);
      HexDigitOne(a[n] / 16, b[n] / 16);
      HexDigitOne(a[n] % 16, b[n] % 16);
      assert a == a[..n] + [a[n]] && b == b[..n] + [b[n]];
    }
  }

  lemma HexLength(a: Octets)
    requires OctetsOk(a)
    ensures |Hex(a)| == 2 * |a|
  {
  }

  lemma HexSnoc(a: Octets)
    requires OctetsOk(a) && |a| > 0
    ensures var n := |a| - 1;
      && |Hex(a)| == 2 * n + 2 && Hex(a)[..2 * n] == Hex(a[..n])
      && Hex(a)[2 * n] == HexDigit(a[n] / 16) && Hex(a)[2 * n + 1] == HexDigit(a[n] % 16)
  {
  }

  // --- the hexadecimal parser ----------------------------------------------------------------------

  /** `is_ascii_hexdigit` and `to_ascii_uppercase`. */
  predicate IsHexDigit(c: char) {
    '0' <= c <= '9' || 'A' <= c <= 'F' || 'a' <= c <= 'f'
  }

  function Uppercase(s: string): (r: string)
    ensures |r| == |s|
  {
    seq(|s|, i requires 0 <= i < |s| => if 'a' <= s[i] <= 'z' then (s[i] as int - 32) as char else s[i])
  }

  /** `parse_hex_binary`. */
  function ParseHexBinary(lexical: string): Option<(string, nat)> {
    if |lexical| % 2 != 0 || exists i :: 0 <= i < |lexical| && !IsHexDigit(lexical[i]) then None
    else Some((Uppercase(lexical), |lexical| / 2))
  }

  /** A digit of either case and its value. */
  ghost predicate DigitFor(c: char, v: int) {
    0 <= v < 16 && (c == UpperDigits[v] || c == LowerDigits[v])
  }

  /** The octets a hexadecimal form spells, in either case. */
  ghost predicate Spells(lexical: string, bytes: Octets) {
    && OctetsOk(bytes) && |lexical| == 2 * |bytes|
    && forall i :: 0 <= i < |bytes| ==> DigitFor(lexical[2 * i], bytes[i] / 16) && DigitFor(lexical[2 * i + 1], bytes[i] % 16)
  }

  function DigitValue(c: char): (v: int)
    requires IsHexDigit(c)
    ensures DigitFor(c, v)
  {
    if c <= '9' then c as int - 48 else if c <= 'F' then c as int - 55 else c as int - 87
  }

  lemma DigitMeans(c: char, v: int)
    requires DigitFor(c, v)
    ensures IsHexDigit(c) && v == DigitValue(c)
    ensures UpperDigits[v] == if 'a' <= c <= 'z' then (c as int - 32) as char else c
  {
  }

  lemma SpelledDigits(lexical: string, bytes: Octets, i: int)
    requires Spells(lexical, bytes) && 0 <= i < |bytes|
    ensures IsHexDigit(lexical[2 * i]) && IsHexDigit(lexical[2 * i + 1])
    ensures Uppercase(lexical)[2 * i] == UpperDigits[bytes[i] / 16] && Uppercase(lexical)[2 * i + 1] == UpperDigits[bytes[i] % 16]
  {
    hide DigitFor, IsHexDigit, DigitValue, UpperDigits;
    DigitMeans(lexical[2 * i], bytes[i] / 16);
    DigitMeans(lexical[2 * i + 1], bytes[i] % 16);
  }

  lemma SpelledUppercase(lexical: string, bytes: Octets)
    requires Spells(lexical, bytes)
    ensures Uppercase(lexical) == Hex(bytes)
  {
    hide DigitFor, IsHexDigit, Hex, Uppercase;
    forall i | 0 <= i < |bytes|
      ensures Uppercase(lexical)[2 * i] == UpperDigits[bytes[i] / 16] && Uppercase(lexical)[2 * i + 1] == UpperDigits[bytes[i] % 16]
    {
      SpelledDigits(lexical, bytes, i);
    }
    HexFormIff(bytes, Uppercase(lexical));
  }

  /** A form spelling octets is accepted, as their hex form. */
  lemma SpelledParses(lexical: string, bytes: Octets)
    requires Spells(lexical, bytes)
    ensures ParseHexBinary(lexical) == Some((Hex(bytes), |bytes|))
  {
    hide IsHexDigit, Hex, Spells, Uppercase;
    assert OctetsOk(bytes) && |lexical| == 2 * |bytes| by { SpelledLength(lexical, bytes); }
    forall k | 0 <= k < |lexical| ensures IsHexDigit(lexical[k]) {
      SpelledDigits(lexical, bytes, k / 2);
      assert k == 2 * (k / 2) || k == 2 * (k / 2) + 1;
    }
    SpelledUppercase(lexical, bytes);
  }

  lemma SpelledLength(lexical: string, bytes: Octets)
    requires Spells(lexical, bytes)
    ensures OctetsOk(bytes) && |lexical| == 2 * |bytes|
  {
  }

  /** What is accepted spells some octets. */
  lemma ParsedSpells(lexical: string) returns (bytes: Octets)
    requires ParseHexBinary(lexical).Some?
    ensures Spells(lexical, bytes)
  {
    hide DigitFor;
    bytes := seq(|lexical| / 2, i requires 0 <= i < |lexical| / 2 => 16 * DigitValue(lexical[2 * i]) + DigitValue(lexical[2 * i + 1]));
    forall i | 0 <= i < |bytes|
      ensures 0 <= bytes[i] < 256 && DigitFor(lexical[2 * i], bytes[i] / 16) && DigitFor(lexical[2 * i + 1], bytes[i] % 16)
    {
      var high, low := DigitValue(lexical[2 * i]), DigitValue(lexical[2 * i + 1]);
      DigitRange(lexical[2 * i], high);
      DigitRange(lexical[2 * i + 1], low);
      DivMod(bytes[i], high, low, 16);
    }
  }

  lemma DigitRange(c: char, v: int)
    requires DigitFor(c, v)
    ensures 0 <= v < 16
  {
  }

  /** The parser accepts exactly the forms that spell octets, in either case, and
      returns their hex form and number. */
  lemma HexParsesIff(lexical: string, bytes: Octets)
    requires OctetsOk(bytes)
    ensures Spells(lexical, bytes) <==> ParseHexBinary(lexical) == Some((Hex(bytes), |bytes|))
    ensures ParseHexBinary(lexical).Some? <==> exists read :: Spells(lexical, read)
  {
    hide ParseHexBinary, Hex, Spells;
    if ParseHexBinary(lexical).Some? {
      var read := ParsedSpells(lexical);
      SpelledLength(lexical, read);
      SpelledParses(lexical, read);
      if ParseHexBinary(lexical) == Some((Hex(bytes), |bytes|)) {
        HexInjective(bytes, read);
      }
    }
    if read :| Spells(lexical, read) {
      SpelledParses(lexical, read);
    }
    if Spells(lexical, bytes) {
      SpelledParses(lexical, bytes);
    }
  }

  /** A hex form spells its own octets and no others. */
  lemma HexReadsBack(a: Octets, b: Octets)
    requires OctetsOk(a)
    ensures Spells(Hex(a), b) <==> a == b
  {
    hide Hex;
    HexHasForm(a);
    if Spells(Hex(a), b) {
      SpelledParses(Hex(a), b);
      SpelledParses(Hex(a), a);
      HexInjective(a, b);
    }
  }

  // --- whitespace --------------------------------------------------------------------------------

  predicate IsJavaWhitespace(c: char) {
    || '\U{09}' <= c <= '\U{0D}' || '\U{1C}' <= c <= '\U{1F}' || c == ' ' || c == '\U{1680}'
    || '\U{2000}' <= c <= '\U{2006}' || '\U{2008}' <= c <= '\U{200A}'
    || c == '\U{2028}' || c == '\U{2029}' || c == '\U{205F}' || c == '\U{3000}'
  }

  /** Drops leading and trailing characters up to the space. */
  function TrimStart(s: string): string {
    if |s| > 0 && s[0] <= ' ' then TrimStart(s[1..]) else s
  }

  function TrimEnd(s: string): string {
    if |s| > 0 && s[|s| - 1] <= ' ' then TrimEnd(s[..|s| - 1]) else s
  }

  function WithoutWhitespace(s: string): string {
    if |s| == 0 then ""
    else if IsJavaWhitespace(s[0]) then WithoutWhitespace(s[1..])
    else [s[0]] + WithoutWhitespace(s[1..])
  }

  function Cleaned(lexical: string): string {
    WithoutWhitespace(TrimEnd(TrimStart(lexical)))
  }

  /** The code points of Java's whitespace. */
  ghost const Whitespace: set<int> := {
    9, 10, 11, 12, 13, 28, 29, 30, 31, 32, 0x1680, 0x2000, 0x2001, 0x2002, 0x2003, 0x2004, 0x2005, 0x2006,
    0x2008, 0x2009, 0x200A, 0x2028, 0x2029, 0x205F, 0x3000 }

  lemma WhitespaceIs(c: char)
    ensures IsJavaWhitespace(c) <==> c as int in Whitespace
  {
  }

  /** `t` holds the characters of `s` at the ascending positions `at`. */
  ghost predicate Picks(s: string, at: seq<nat>, t: string) {
    && |at| == |t| && (forall j, k :: 0 <= j < k < |at| ==> at[j] < at[k])
    && (forall k :: 0 <= k < |at| ==> at[k] < |s| && t[k] == s[at[k]])
  }

  /** `at` lists the positions that hold no whitespace. */
  ghost predicate Visible(s: string, at: seq<nat>) {
    forall i: nat :: i in at <==> i < |s| && s[i] as int !in Whitespace
  }

  lemma {:induction false} TrimStartMeans(s: string) returns (lo: nat)
    ensures lo <= |s| && TrimStart(s) == s[lo..]
    ensures (forall i :: 0 <= i < lo ==> s[i] <= ' ') && (lo < |s| ==> s[lo] > ' ')
    decreases |s|
  {
    lo := 0;
    if |s| > 0 && s[0] <= ' ' {
      var k := TrimStartMeans(s[1..]);
      lo := k + 1;
      assert s[1..][k..] == s[lo..];
      forall i | 0 <= i < lo ensures s[i] <= ' ' {
        if i > 0 {
          assert s[i] == s[1..][i - 1];
        }
      }
    }
  }

  lemma {:induction false} TrimEndMeans(s: string) returns (hi: nat)
    ensures hi <= |s| && TrimEnd(s) == s[..hi]
    ensures (forall i :: hi <= i < |s| ==> s[i] <= ' ') && (hi > 0 ==> s[hi - 1] > ' ')
    decreases |s|
  {
    hi := |s|;
    if |s| > 0 && s[|s| - 1] <= ' ' {
      hi := TrimEndMeans(s[..|s| - 1]);
    }
  }

  lemma {:induction false} WithoutMeans(s: string) returns (at: seq<nat>)
    ensures Picks(s, at, WithoutWhitespace(s)) && Visible(s, at)
    decreases |s|
  {
    at := [];
    if |s| > 0 {
      var tail := WithoutMeans(s[1..]);
      WhitespaceIs(s[0]);
      at := if IsJavaWhitespace(s[0]) then Moved(tail) else [0] + Moved(tail);
      PicksCons(s, tail, WithoutWhitespace(s[1..]));
      VisibleCons(s, tail);
    }
  }

  lemma PicksCons(s: string, tail: seq<nat>, t: string)
    requires |s| > 0 && Picks(s[1..], tail, t)
    ensures Picks(s, Moved(tail), t) && Picks(s, [0] + Moved(tail), [s[0]] + t)
  {
  }

  lemma VisibleCons(s: string, tail: seq<nat>)
    requires |s| > 0 && Visible(s[1..], tail)
    ensures Visible(s, if s[0] as int in Whitespace then Moved(tail) else [0] + Moved(tail))
  {
    hide Whitespace, Moved;
    forall i: nat ensures i in Moved(tail) <==> 0 < i < |s| && s[i] as int !in Whitespace {
      MovedIn(tail, i);
      assert 0 < i < |s| ==> s[i] == s[1..][i - 1];
    }
  }

  function Moved(tail: seq<nat>): (r: seq<nat>)
    ensures |r| == |tail| && forall k :: 0 <= k < |tail| ==> r[k] == tail[k] + 1
  {
    seq(|tail|, k requires 0 <= k < |tail| => tail[k] + 1)
  }

  lemma MovedIn(tail: seq<nat>, i: nat)
    ensures i in Moved(tail) <==> i > 0 && i - 1 in tail
  {
    if i > 0 && i - 1 in tail {
      var k :| 0 <= k < |tail| && tail[k] == i - 1;
      assert Moved(tail)[k] == i;
    }
  }

  /** What cleaning keeps: characters up to the space are dropped from both ends,
      and then exactly the whitespace from what lies between. */
  lemma CleanedMeans(lexical: string) returns (lo: nat, hi: nat, at: seq<nat>)
    ensures lo <= hi <= |lexical|
    ensures forall i :: 0 <= i < lo || hi <= i < |lexical| ==> lexical[i] <= ' '
    ensures lo < hi ==> lexical[lo] > ' ' && lexical[hi - 1] > ' '
    ensures Picks(lexical[lo..hi], at, Cleaned(lexical)) && Visible(lexical[lo..hi], at)
  {
    hide Picks, Visible;
    lo := TrimStartMeans(lexical);
    var rest := lexical[lo..];
    var k := TrimEndMeans(rest);
    hi := lo + k;
    assert rest[..k] == lexical[lo..hi];
    at := WithoutMeans(rest[..k]);
    forall i | hi <= i < |lexical| ensures lexical[i] <= ' ' {
      assert lexical[i] == rest[i - lo];
    }
  }

  predicate Printable(s: string) {
    forall i :: 0 <= i < |s| ==> s[i] > ' ' && !IsJavaWhitespace(s[i])
  }

  lemma {:induction false} PrintableKept(s: string)
    requires Printable(s)
    ensures WithoutWhitespace(s) == s && Cleaned(s) == s
    decreases |s|
  {
    if |s| > 0 {
      PrintableKept(s[1..]);
      assert s == [s[0]] + s[1..];
    }
  }

  lemma SextetPrintable(c: char)
    requires Sextet(c).Some? || c == '='
    ensures c > ' ' && !IsJavaWhitespace(c)
  {
  }

  /** Encodings contain no whitespace. */
  lemma EncodedClean(bytes: Octets)
    requires OctetsOk(bytes)
    ensures Cleaned(Encoded(bytes)) == Encoded(bytes)
  {
    var s := Encoded(bytes);
    if |bytes| > 0 {
      EncodedAccepted(bytes);
      var pad := PadOf(|bytes|);
      forall i | 0 <= i < |s| ensures s[i] > ' ' && !IsJavaWhitespace(s[i]) {
        if i < |s| - pad {
          assert s[..|s| - pad][i] == s[i];
        }
        SextetPrintable(s[i]);
      }
    }
    PrintableKept(s);
  }

  // --- parsing ------------------------------------------------------------------------------------------

  method CountPads(s: string) returns (pad: nat)
    ensures pad <= |s| && forall i :: |s| - pad <= i < |s| ==> s[i] == '='
    ensures pad < |s| ==> s[|s| - pad - 1] != '='
  {
    pad := 0;
    while pad < |s| && s[|s| - pad - 1] == '='
      invariant pad <= |s| && forall i :: |s| - pad <= i < |s| ==> s[i] == '='
    {
      pad := pad + 1;
    }
  }

  /** What the accumulator holds after the characters of `body`. */
  ghost predicate Accumulated(body: string, acc: int, nbits: int, bytes: Octets) {
    && InAlphabet(body) && 0 <= acc < Word && nbits == Bits(|body|) && bytes == Decoded(Values(body))
    && acc % 64 == if |body| == 0 then 0 else Values(body)[|body| - 1]
  }

  /** One more character: the pushed octet depends on the last two sextets only. */
  lemma AccumulateStep(body: string, acc: int, nbits: int, bytes: Octets, c: char)
    requires Accumulated(body, acc, nbits, bytes) && Sextet(c).Some?
    ensures var acc', n := Shift(acc, Sextet(c).value), nbits + 6;
      && (n >= 8 <==> Emits(|body|))
      && (n >= 8 ==> Accumulated(body + [c], acc', n - 8, bytes + [(acc' / Pow2(n - 8)) % 256]))
      && (n < 8 ==> Accumulated(body + [c], acc', n, bytes))
  {
    hide Decoded, Straddle, Shift;
    var v := Sextet(c).value;
    var acc' := Shift(acc, v);
    ShiftLow(acc, v);
    ValuesConcat(body, [c]);
    assert Values([c]) == [v];
    DecodedSnoc(Values(body), v);
    BitsStep(|body|);
    if nbits + 6 >= 8 {
      LowBitsOnly(acc', nbits - 2);
      assert (acc' / Pow2(nbits - 2)) % 256 == Straddle(Values(body)[|body| - 1], v, nbits - 2) by {
        StraddleMeans(Values(body)[|body| - 1], v, nbits - 2);
      }
    }
  }

  lemma StraddleMeans(prev: int, last: int, bits: int)
    ensures Straddle(prev, last, bits) == ((prev * 64 + last) / Pow2(bits)) % 256
  {
  }

  lemma BitsStep(n: nat)
    ensures Emits(n) <==> Bits(n) + 6 >= 8
    ensures Bits(n + 1) == if Emits(n) then Bits(n) - 2 else 6
    ensures Bits(n) in {0, 2, 4, 6} && (Emits(n) ==> Bits(n) - 2 in {0, 2, 4})
  {
  }

  /** The accumulator loop. */
  method DecodeBody(body: string) returns (ok: bool, bytes: Octets, acc: int, nbits: int)
    ensures ok <==> InAlphabet(body)
    ensures ok ==> Accumulated(body, acc, nbits, bytes)
  {
    hide Accumulated, Shift;
    bytes, acc, nbits := [], 0, 0;
    AccumulateStart();
    assert body[..0] == "";
    for i := 0 to |body|
      invariant Accumulated(body[..i], acc, nbits, bytes)
    {
      var v := Sextet(body[i]);
      if v.None? {
        return false, bytes, acc, nbits;
      }
      AccumulatedRange(body[..i], acc, nbits, bytes);
      AccumulateStep(body[..i], acc, nbits, bytes, body[i]);
      assert body[..i + 1] == body[..i] + [body[i]];
      acc := Shift(acc, v.value);
      nbits := nbits + 6;
      if nbits >= 8 {
        nbits := nbits - 8;
        bytes := bytes + [(acc / Pow2(nbits)) % 256];
      }
    }
    assert body[..|body|] == body;
    ok := true;
    AccumulatedRange(body, acc, nbits, bytes);
  }

  lemma AccumulateStart()
    ensures Accumulated("", 0, 0, [])
  {
  }

  lemma AccumulatedRange(body: string, acc: int, nbits: int, bytes: Octets)
    requires Accumulated(body, acc, nbits, bytes)
    ensures 0 <= acc < Word && InAlphabet(body) && bytes == Decoded(Values(body))
  {
  }

  /** The mask test looks at the unused bits of the last sextet. */
  lemma StrayBits(s: string, pad: nat, acc: int, nbits: int, bytes: Octets)
    requires |s| > 0 && Aligned(|s|) && pad <= 2 && pad < |s| && Accumulated(Body(s, pad), acc, nbits, bytes)
    ensures Sextet(s[|s| - pad - 1]).Some?
    ensures acc % Pow2(nbits) == 0 <==> Sextet(s[|s| - pad - 1]).value % Unused(pad) == 0
  {
    var body := Body(s, pad);
    var last := Values(body)[|body| - 1];
    assert body[|body| - 1] == s[|s| - pad - 1];
    assert last == Sextet(s[|s| - pad - 1]).value;
    assert Pow2(nbits) == Unused(pad) by { PadBits(|s|, pad); }
    LowOfAcc(acc, Unused(pad));
  }

  lemma PadBits(n: nat, pad: nat)
    requires Aligned(n) && pad <= 2 && pad < n
    ensures Pow2(Bits(n - pad)) == Unused(pad)
  {
  }

  lemma LowOfAcc(acc: int, k: int)
    requires 0 <= acc && (k == 1 || k == 4 || k == 16)
    ensures acc % k == acc % 64 % k
  {
    var hi, low := acc / 64, acc % 64;
    if k == 4 {
      DivMod(acc, 16 * hi + low / 4, low % 4, 4);
    } else if k == 16 {
      DivMod(acc, 4 * hi + low / 16, low % 16, 16);
    }
  }

  /** The octets a lexical form stands for: those whose encoding it is, once
      whitespace is removed. */
  ghost predicate Denotes(lexical: string, bytes: Octets) {
    OctetsOk(bytes) && Base64Form(bytes, Cleaned(lexical))
  }

  lemma DenotesEncoded(lexical: string, bytes: Octets)
    ensures Denotes(lexical, bytes) <==> OctetsOk(bytes) && Encoded(bytes) == Cleaned(lexical)
  {
    hide Base64Form;
    if OctetsOk(bytes) {
      FormIff(bytes, Cleaned(lexical));
    }
  }

  ghost predicate DecodesTo(s: string, pad: nat, bytes: Octets) {
    Accepted(s, pad) && Decoded(Values(Body(s, pad))) == bytes
  }

  /** A nonempty form denotes at most what its body decodes to. */
  lemma DenotedDecodes(lexical: string, bytes: Octets)
    requires Denotes(lexical, bytes)
    ensures if |Cleaned(lexical)| == 0 then bytes == [] else DecodesTo(Cleaned(lexical), PadOf(|bytes|), bytes)
  {
    hide Denotes, Encoded, Accepted, Decoded, Cleaned;
    DenotesEncoded(lexical, bytes);
    EncodedNone();
    if |bytes| > 0 {
      EncodedAccepted(bytes);
      LengthFacts(Encoded(bytes), PadOf(|bytes|));
    }
  }

  lemma NothingDenoted(lexical: string)
    requires |Cleaned(lexical)| > 0 && forall pad: nat :: !Accepted(Cleaned(lexical), pad)
    ensures forall bytes :: !Denotes(lexical, bytes)
  {
    forall bytes ensures !Denotes(lexical, bytes) {
      if Denotes(lexical, bytes) {
        DenotedDecodes(lexical, bytes);
      }
    }
  }

  lemma EmptyDenotes(lexical: string)
    requires |Cleaned(lexical)| == 0
    ensures forall bytes :: Denotes(lexical, bytes) <==> bytes == []
    ensures Hex([]) == ""
  {
    forall bytes ensures Denotes(lexical, bytes) <==> bytes == [] {
      EncodedNone();
      DenotesEncoded(lexical, bytes);
      if Denotes(lexical, bytes) {
        DenotedDecodes(lexical, bytes);
      }
    }
  }

  lemma OneDenoted(lexical: string, pad: nat, octets: Octets)
    requires DecodesTo(Cleaned(lexical), pad, octets)
    requires forall p: nat :: Accepted(Cleaned(lexical), p) ==> p == pad
    ensures forall bytes :: Denotes(lexical, bytes) <==> bytes == octets
  {
    hide Denotes, Encoded, Accepted, Decoded, Cleaned;
    AcceptedEncodes(Cleaned(lexical), pad);
    LengthFacts(Cleaned(lexical), pad);
    DenotesEncoded(lexical, octets);
    forall bytes | Denotes(lexical, bytes) ensures bytes == octets {
      DenotedDecodes(lexical, bytes);
    }
  }

  /** `parse_base64_binary`: accepts exactly the encodings, and returns the hex form
      and the number of the encoded octets. */
  method ParseBase64Binary(lexical: string) returns (r: Option<(string, nat)>, ghost octets: Octets)
    ensures forall bytes :: Denotes(lexical, bytes) ==> r == Some((Hex(bytes), |bytes|))
    ensures r.Some? ==> Denotes(lexical, octets) && r.value == (Hex(octets), |octets|)
  {
    hide Accepted, Accumulated, Cleaned, Encoded, Decoded, Values, Denotes, Hex;
    octets := [];
    var cleaned := Cleaned(lexical);
    if |cleaned| % 4 != 0 {
      RejectsLength(cleaned);
      NothingDenoted(lexical);
      return None, [];
    }
    if |cleaned| == 0 {
      EmptyDenotes(lexical);
      return Some(("", 0)), [];
    }
    var pad := CountPads(cleaned);
    SamePads(cleaned, pad);
    if pad > 2 {
      NothingDenoted(lexical);
      return None, [];
    }
    var ok, bytes, acc, nbits := DecodeBody(cleaned[..|cleaned| - pad]);
    if !ok {
      NothingDenoted(lexical);
      return None, [];
    }
    PadShort(cleaned, pad);
    StrayBits(cleaned, pad, acc, nbits, bytes);
    AccumulatedRange(cleaned[..|cleaned| - pad], acc, nbits, bytes);
    if acc % Pow2(nbits) != 0 {
      NotAccepted(cleaned, pad);
      NothingDenoted(lexical);
      return None, [];
    }
    MakeAccepted(cleaned, pad);
    OneDenoted(lexical, pad, bytes);
    var hex := EncodeHexUpper(bytes);
    return Some((hex, |bytes|)), bytes;
  }

  lemma RejectsLength(s: string)
    requires |s| % 4 != 0
    ensures forall pad: nat :: !Accepted(s, pad)
  {
  }

  /** Only the counted padding can be the right one. */
  lemma SamePads(s: string, pad: nat)
    requires pad <= |s| && (forall i :: |s| - pad <= i < |s| ==> s[i] == '=') && (pad < |s| ==> s[|s| - pad - 1] != '=')
    ensures forall p: nat :: Accepted(s, p) ==> p == pad && pad <= 2 && InAlphabet(s[..|s| - pad])
  {
    forall p: nat | Accepted(s, p) ensures p == pad {
      assert s[|s| - p - 1] != '=';
    }
  }

  lemma PadShort(s: string, pad: nat)
    requires |s| > 0 && |s| % 4 == 0 && pad <= 2 && pad <= |s|
    ensures pad < |s| && Aligned(|s|)
  {
  }

  lemma NotAccepted(s: string, pad: nat)
    requires pad < |s| && Sextet(s[|s| - pad - 1]).Some? && Sextet(s[|s| - pad - 1]).value % Unused(pad) != 0
    ensures !Accepted(s, pad)
  {
  }

  lemma MakeAccepted(s: string, pad: nat)
    requires |s| > 0 && Aligned(|s|) && pad <= 2 && pad < |s| && (forall i :: |s| - pad <= i < |s| ==> s[i] == '=')
    requires InAlphabet(Body(s, pad))
    requires Sextet(s[|s| - pad - 1]).Some? && Sextet(s[|s| - pad - 1]).value % Unused(pad) == 0
    ensures Accepted(s, pad)
  {
  }

  /** Parsing an encoding returns the octets' own hex form and length. */
  method ParseEncoded(bytes: Octets) returns (r: Option<(string, nat)>)
    requires OctetsOk(bytes)
    ensures r == Some((Hex(bytes), |bytes|))
  {
    var form := EncodeBase64(bytes);
    EncodedClean(bytes);
    DenotesEncoded(form, bytes);
    hide Denotes, Hex;
    ghost var octets;
    r, octets := ParseBase64Binary(form);
  }

  lemma PadExact(s: string, pad: nat)
    requires Accepted(s, pad)
    ensures pad < |s| && (forall i :: |s| - pad <= i < |s| ==> s[i] == '=') && s[|s| - pad - 1] != '='
  {
  }

  /** A form denotes at most one octet sequence. */
  lemma DenotesOne(lexical: string, a: Octets, b: Octets)
    requires Denotes(lexical, a) && Denotes(lexical, b)
    ensures a == b
  {
    hide Accepted, Cleaned, PadOf;
    DenotedDecodes(lexical, a);
    DenotedDecodes(lexical, b);
    var s := Cleaned(lexical);
    if |s| > 0 {
      PadExact(s, PadOf(|a|));
      SamePads(s, PadOf(|a|));
    }
  }

  /** Two accepted forms are the same value exactly when they are the same string
      once whitespace is removed. */
  lemma SameValueSameForm(lexical1: string, lexical2: string, a: Octets, b: Octets)
    requires Denotes(lexical1, a) && Denotes(lexical2, b)
    ensures Hex(a) == Hex(b) <==> Cleaned(lexical1) == Cleaned(lexical2)
  {
    hide Denotes, Hex;
    DenotesEncoded(lexical1, a);
    DenotesEncoded(lexical2, b);
    if Hex(a) == Hex(b) {
      HexInjective(a, b);
    }
    if Cleaned(lexical1) == Cleaned(lexical2) {
      DenotesEncoded(lexical1, b);
      DenotesOne(lexical1, a, b);
    }
  }
}
