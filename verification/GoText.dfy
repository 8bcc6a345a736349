/** Go strings: byte sequences with byte-wise order, UTF-8 decoding as `range` does it,
    and the text encoding/json writes for a string (with its HTML escapes on, the default). */
module GoText {
  type byte = b: int | 0 <= b < 256
  type GoString = seq<byte>

  /** Go's `<` on strings. */
  predicate Less(a: GoString, b: GoString) {
    b != [] && (a == [] || a[0] < b[0] || (a[0] == b[0] && Less(a[1..], b[1..])))
  }

  lemma {:induction false} LessTotal(a: GoString, b: GoString)
    ensures Less(a, b) || Less(b, a) || a == b
    ensures !(Less(a, b) && Less(b, a))
    ensures !Less(a, a)
    decreases |a|
  {
    if a != [] {
      LessTotal(a[1..], a[1..]);
      if b != [] && a[0] == b[0] {
        LessTotal(a[1..], b[1..]);
        assert a[1..] == b[1..] ==> a == [a[0]] + a[1..] == [b[0]] + b[1..] == b;
      }
    }
  }

  lemma {:induction false} LessTransitive(a: GoString, b: GoString, c: GoString)
    requires Less(a, b) && Less(b, c)
    ensures Less(a, c)
    decreases |a|
  {
    if a != [] && a[0] == b[0] == c[0] {
      LessTransitive(a[1..], b[1..], c[1..]);
    }
  }

  /** The strings agree up to byte `i`, where `a` ends or has the smaller byte. */
  predicate LessAt(a: GoString, b: GoString, i: nat) {
    i <= |a| && i < |b| && a[..i] == b[..i] && (i == |a| || a[i] < b[i])
  }

  /** The order is decided by the first byte in which two strings differ; a string comes after its beginnings. */
  lemma {:induction false} LessExact(a: GoString, b: GoString)
    ensures Less(a, b) <==> exists i: nat :: LessAt(a, b, i)
    decreases |a|
  {
    if a == [] || b == [] {
      if b != [] { assert LessAt(a, b, 0); }
    } else {
      LessExact(a[1..], b[1..]);
      if Less(a[1..], b[1..]) && a[0] == b[0] {
        var i: nat :| LessAt(a[1..], b[1..], i);
        assert a[..i + 1] == [a[0]] + a[1..][..i] && b[..i + 1] == [b[0]] + b[1..][..i];
        assert LessAt(a, b, i + 1);
      }
      if a[0] < b[0] { assert LessAt(a, b, 0); }
      if i: nat :| LessAt(a, b, i) {
        if i > 0 {
          assert a[..i][0] == b[..i][0];
          assert a[1..][..i - 1] == a[..i][1..] && b[1..][..i - 1] == b[..i][1..];
          assert LessAt(a[1..], b[1..], i - 1);
        }
      }
    }
  }

  // ----- UTF-8 -----

  const RUNE_ERROR := 0xFFFD

  datatype Rune = Rune(code: nat, size: nat)

  predicate Continuation(b: byte) { 0x80 <= b <= 0xBF }

  function Low6(b: int): int { b - 0x80 }

  /** Length of the well-formed sequence `s` starts with (table 3-7 of the Unicode standard), 0 if malformed. */
  function SequenceSize(s: GoString): (n: nat)
    requires s != []
    ensures n <= |s| && n <= 4
  {
    var b := s[0];
    if b < 0x80 then 1
    else if 0xC2 <= b <= 0xDF && |s| >= 2 && Continuation(s[1]) then 2
    else if 0xE0 <= b <= 0xEF && |s| >= 3 && Continuation(s[1]) && Continuation(s[2])
            && (b == 0xE0 ==> s[1] >= 0xA0) && (b == 0xED ==> s[1] <= 0x9F) then 3
    else if 0xF0 <= b <= 0xF4 && |s| >= 4 && Continuation(s[1]) && Continuation(s[2]) && Continuation(s[3])
            && (b == 0xF0 ==> s[1] >= 0x90) && (b == 0xF4 ==> s[1] <= 0x8F) then 4
    else 0
  }

  /** One step of `range s`: the rune, and how many bytes it took. */
  function DecodeRune(s: GoString): (r: Rune)
    requires s != []
    ensures 1 <= r.size <= |s|
  {
    var n, lead: int := SequenceSize(s), s[0];
    if n == 0 then Rune(RUNE_ERROR, 1)
    else if n == 1 then Rune(lead, 1)
    else if n == 2 then Rune((lead - 0xC0) * 0x40 + Low6(s[1]), 2)
    else if n == 3 then Rune((lead - 0xE0) * 0x1000 + Low6(s[1]) * 0x40 + Low6(s[2]), 3)
    else Rune((lead - 0xF0) * 0x40000 + Low6(s[1]) * 0x1000 + Low6(s[2]) * 0x40 + Low6(s[3]), 4)
  }

  predicate Scalar(code: nat) { code <= 0xD7FF || 0xE000 <= code <= 0x10FFFF }

  /** The UTF-8 encoding of a scalar value (section 3 of RFC 3629). */
  function Encoding(code: nat): (u: GoString)
    requires Scalar(code)
    ensures u != []
  {
    if code < 0x80 then [code]
    else if code < 0x800 then [0xC0 + code / 0x40, 0x80 + code % 0x40]
    else if code < 0x1_0000 then [0xE0 + code / 0x1000, 0x80 + code / 0x40 % 0x40, 0x80 + code % 0x40]
    else [0xF0 + code / 0x4_0000, 0x80 + code / 0x1000 % 0x40, 0x80 + code / 0x40 % 0x40, 0x80 + code % 0x40]
  }

  /** Whatever follows it, an encoding is decoded to its scalar value, and takes its own bytes. */
  lemma EncodingIsDecoded(code: nat, rest: GoString)
    requires Scalar(code)
    ensures SequenceSize(Encoding(code) + rest) == |Encoding(code)|
    ensures DecodeRune(Encoding(code) + rest) == Rune(code, |Encoding(code)|)
  {
    var u, s := Encoding(code), Encoding(code) + rest;
    assert s[0] == u[0] && (|u| > 1 ==> s[1] == u[1]) && (|u| > 2 ==> s[2] == u[2]) && (|u| > 3 ==> s[3] == u[3]);
    SixBits(code);
  }

  lemma SixBits(n: nat)
    ensures n == n / 0x40 * 0x40 + n % 0x40
    ensures n == n / 0x1000 * 0x1000 + n / 0x40 % 0x40 * 0x40 + n % 0x40
    ensures n == n / 0x4_0000 * 0x4_0000 + n / 0x1000 % 0x40 * 0x1000 + n / 0x40 % 0x40 * 0x40 + n % 0x40
  {
    var b := n / 0x40;
    var c := b / 0x40;
    assert b == c * 0x40 + b % 0x40 && c == n / 0x1000;
    assert c == c / 0x40 * 0x40 + c % 0x40 && c / 0x40 == n / 0x4_0000;
  }

  lemma SixBitsBack(hi: nat, lo: nat)
    requires lo < 0x40
    ensures (hi * 0x40 + lo) / 0x40 == hi && (hi * 0x40 + lo) % 0x40 == lo
  {
  }

  lemma Sixes(n: nat)
    ensures n / 0x40 / 0x40 == n / 0x1000 && n / 0x1000 / 0x40 == n / 0x4_0000
  {
  }

  lemma TwoBytes(a: byte, b: byte)
    requires 0xC2 <= a <= 0xDF && Continuation(b)
    ensures var c := (a - 0xC0) * 0x40 + Low6(b); Scalar(c) && Encoding(c) == [a, b]
  {
    SixBitsBack(a - 0xC0, Low6(b));
  }

  lemma ThreeBytes(a: byte, b: byte, c: byte)
    requires 0xE0 <= a <= 0xEF && Continuation(b) && Continuation(c)
    requires (a == 0xE0 ==> b >= 0xA0) && (a == 0xED ==> b <= 0x9F)
    ensures var n := (a - 0xE0) * 0x1000 + Low6(b) * 0x40 + Low6(c); Scalar(n) && Encoding(n) == [a, b, c]
  {
    var high := (a - 0xE0) * 0x40 + Low6(b);
    var n := high * 0x40 + Low6(c);
    SixBitsBack(a - 0xE0, Low6(b));
    SixBitsBack(high, Low6(c));
    Sixes(n);
  }

  lemma FourBytes(a: byte, b: byte, c: byte, d: byte)
    requires 0xF0 <= a <= 0xF4 && Continuation(b) && Continuation(c) && Continuation(d)
    requires (a == 0xF0 ==> b >= 0x90) && (a == 0xF4 ==> b <= 0x8F)
    ensures var n := (a - 0xF0) * 0x40000 + Low6(b) * 0x1000 + Low6(c) * 0x40 + Low6(d);
            Scalar(n) && Encoding(n) == [a, b, c, d]
  {
    var top := (a - 0xF0) * 0x40 + Low6(b);
    var high := top * 0x40 + Low6(c);
    var n := high * 0x40 + Low6(d);
    SixBitsBack(a - 0xF0, Low6(b));
    SixBitsBack(top, Low6(c));
    SixBitsBack(high, Low6(d));
    Sixes(n);
  }

  /** What is not malformed is the encoding of a scalar value. */
  lemma SequenceIsEncoding(s: GoString)
    requires s != [] && SequenceSize(s) != 0
    ensures Scalar(DecodeRune(s).code) && s[..SequenceSize(s)] == Encoding(DecodeRune(s).code)
  {
    var n := SequenceSize(s);
    if n == 2 {
      TwoBytes(s[0], s[1]);
      assert s[..2] == [s[0], s[1]];
    } else if n == 3 {
      ThreeBytes(s[0], s[1], s[2]);
      assert s[..3] == [s[0], s[1], s[2]];
    } else if n == 4 {
      FourBytes(s[0], s[1], s[2], s[3]);
      assert s[..4] == [s[0], s[1], s[2], s[3]];
    }
  }

  /** A string is malformed at its start exactly when it starts with no encoding. */
  lemma SequenceExact(s: GoString)
    requires s != []
    ensures SequenceSize(s) != 0 <==> exists code: nat :: Scalar(code) && Encoding(code) <= s
  {
    if SequenceSize(s) != 0 { SequenceIsEncoding(s); }
    if code: nat :| Scalar(code) && Encoding(code) <= s {
      EncodingIsDecoded(code, s[|Encoding(code)|..]);
      assert Encoding(code) + s[|Encoding(code)|..] == s;
    }
  }

  /** utf8.RuneLen. */
  function RuneLen(code: nat): int {
    if code <= 0x7F then 1
    else if code <= 0x7FF then 2
    else if 0xD800 <= code <= 0xDFFF then -1
    else if code <= 0xFFFF then 3
    else if code <= 0x10FFFF then 4
    else -1
  }

  /** The bytes of the first rune of `s`; a malformed byte is the empty unit. */
  function Unit(s: GoString): GoString
    requires s != []
  {
    s[..SequenceSize(s)]
  }

  function Rest(s: GoString): GoString
    requires s != []
  {
    s[DecodeRune(s).size..]
  }

  predicate IsUnit(u: GoString) { u == [] || SequenceSize(u) == |u| }

  /** `s` rune by rune, malformed bytes blurred into empty units. */
  function Units(s: GoString): (us: seq<GoString>) {
    if s == [] then [] else [Unit(s)] + Units(Rest(s))
  }

  /** From `start` to `end` the string has this rune: an encoding, or [] for one byte that starts none. */
  ghost predicate RuneAt(s: GoString, u: GoString, start: nat, end: nat) {
    && start < end <= |s|
    && (u != [] ==> s[start..end] == u && exists code: nat :: Scalar(code) && u == Encoding(code))
    && (u == [] ==> end == start + 1 && forall code: nat :: Scalar(code) ==> !(Encoding(code) <= s[start..]))
  }

  /** The runes of a string, with the places where they start. */
  ghost predicate RunesAt(s: GoString, us: seq<GoString>, os: seq<nat>) {
    && |os| == |us| + 1 && os[0] == 0 && os[|us|] == |s|
    && forall i :: 0 <= i < |us| ==> RuneAt(s, us[i], os[i], os[i + 1])
  }

  lemma FirstRune(s: GoString)
    requires s != []
    ensures RuneAt(s, Unit(s), 0, DecodeRune(s).size)
  {
    assert s[0..] == s;
    SequenceExact(s);
    if SequenceSize(s) != 0 { SequenceIsEncoding(s); }
  }

  lemma RuneBehind(s: GoString, n: nat, u: GoString, start: nat, end: nat)
    requires n <= |s| && RuneAt(s[n..], u, start, end)
    ensures RuneAt(s, u, n + start, n + end)
  {
    assert s[n..][start..] == s[n + start..] && s[n..][start..end] == s[n + start..n + end];
  }

  function Behind(n: nat, os: seq<nat>): (ps: seq<nat>)
    ensures |ps| == |os| + 1 && ps[0] == 0 && forall i :: 0 <= i < |os| ==> ps[i + 1] == n + os[i]
  {
    [0] + seq(|os|, i requires 0 <= i < |os| => n + os[i])
  }

  lemma RunesCons(s: GoString, n: nat, u: GoString, us: seq<GoString>, os: seq<nat>)
    requires n <= |s| && RuneAt(s, u, 0, n) && RunesAt(s[n..], us, os)
    ensures RunesAt(s, [u] + us, Behind(n, os))
  {
    var ps := Behind(n, os);
    forall i | 0 <= i < |us| ensures RuneAt(s, us[i], ps[i + 1], ps[i + 2]) { RuneBehind(s, n, us[i], os[i], os[i + 1]); }
    forall i | 0 <= i < |us| + 1 ensures RuneAt(s, ([u] + us)[i], ps[i], ps[i + 1]) {
      if i > 0 { assert ([u] + us)[i] == us[i - 1]; }
    }
  }

  /** Every string is cut into runes as `range` does. */
  lemma {:induction false} UnitsExact(s: GoString) returns (os: seq<nat>)
    ensures RunesAt(s, Units(s), os)
    decreases |s|
  {
    if s == [] {
      os := [0];
    } else {
      FirstRune(s);
      var more := UnitsExact(Rest(s));
      RunesCons(s, DecodeRune(s).size, Unit(s), Units(Rest(s)), more);
      os := Behind(DecodeRune(s).size, more);
    }
  }

  predicate ValidUtf8(s: GoString) { [] !in Units(s) }

  function Concat(us: seq<GoString>): GoString {
    if us == [] then [] else us[0] + Concat(us[1..])
  }

  lemma UnitIsUnit(s: GoString)
    requires s != []
    ensures IsUnit(Unit(s))
  {
    if SequenceSize(s) != 0 {
      assert Unit(s)[0] == s[0];
    }
  }

  lemma UnitThenRest(s: GoString)
    requires s != [] && Unit(s) != []
    ensures s == Unit(s) + Rest(s)
  {
    assert DecodeRune(s).size == SequenceSize(s);
  }

  lemma {:induction false} ValidRebuilds(s: GoString)
    requires ValidUtf8(s)
    ensures Concat(Units(s)) == s
    decreases |s|
  {
    if s != [] {
      var rest := Rest(s);
      assert Units(s) == [Unit(s)] + Units(rest);
      assert Units(s)[0] == Unit(s) && Units(s)[1..] == Units(rest);
      ValidRebuilds(rest);
      UnitThenRest(s);
    }
  }

  /** On valid UTF-8 nothing is blurred. */
  lemma UnitsDetermineValid(a: GoString, b: GoString)
    requires ValidUtf8(a) && ValidUtf8(b)
    ensures Units(a) == Units(b) <==> a == b
  {
    ValidRebuilds(a);
    ValidRebuilds(b);
  }

  const REPLACEMENT: GoString := [0xEF, 0xBF, 0xBD]

  /** The text of these runes: a malformed byte has become U+FFFD. */
  function TextOf(us: seq<GoString>): GoString {
    if us == [] then [] else (if us[0] == [] then REPLACEMENT else us[0]) + TextOf(us[1..])
  }

  /** What is left of a string that went through its runes, as string([]rune(s)) or a JSON text make it. */
  function Decoded(s: GoString): GoString { TextOf(Units(s)) }

  lemma {:induction false} DecodedGrows(s: GoString)
    ensures |Decoded(s)| >= |s| && (!ValidUtf8(s) ==> |Decoded(s)| > |s|)
    decreases |s|
  {
    if s != [] {
      var rest := Rest(s);
      assert Units(s) == [Unit(s)] + Units(rest);
      assert Units(s)[0] == Unit(s) && Units(s)[1..] == Units(rest);
      DecodedGrows(rest);
    }
  }

  lemma {:induction false} TextIsConcat(us: seq<GoString>)
    requires [] !in us
    ensures TextOf(us) == Concat(us)
    decreases |us|
  {
    if us != [] { TextIsConcat(us[1..]); }
  }

  /** A string stays as it is exactly when it is valid UTF-8. */
  lemma DecodedExact(s: GoString)
    ensures Decoded(s) == s <==> ValidUtf8(s)
  {
    if ValidUtf8(s) {
      TextIsConcat(Units(s));
      ValidRebuilds(s);
    } else {
      DecodedGrows(s);
    }
  }

  lemma UnitsCons(s: GoString)
    requires s != []
    ensures Units(s) == [Unit(s)] + Units(Rest(s)) && Units(s)[0] == Unit(s) && Units(s)[1..] == Units(Rest(s))
  {
  }

  lemma UnitExtends(s: GoString, b: GoString)
    requires s != [] && Unit(s) != []
    ensures Unit(s + b) == Unit(s) && Rest(s + b) == Rest(s) + b
  {
    assert (s + b)[0] == s[0];
    assert |s| > 1 ==> (s + b)[1] == s[1];
    assert |s| > 2 ==> (s + b)[2] == s[2];
    assert |s| > 3 ==> (s + b)[3] == s[3];
    assert SequenceSize(s + b) == SequenceSize(s);
  }

  lemma FirstUnit(a: GoString, b: GoString)
    requires a != [] && ValidUtf8(a)
    ensures ValidUtf8(Rest(a)) && Units(a) == [Unit(a)] + Units(Rest(a))
    ensures Units(a + b) == [Unit(a)] + Units(Rest(a) + b)
  {
    UnitsCons(a);
    assert Unit(a) in Units(a);
    UnitExtends(a, b);
    UnitsCons(a + b);
    forall u | u in Units(Rest(a)) ensures u in Units(a) { assert u in Units(a)[1..]; }
  }

  lemma NextUnits(u: GoString, us: seq<GoString>, vs: seq<GoString>)
    ensures [u] + (us + vs) == [u] + us + vs
  {
  }

  /** Valid text is decoded as it would be on its own, whatever follows. */
  lemma {:induction false} UnitsConcat(a: GoString, b: GoString)
    requires ValidUtf8(a)
    ensures Units(a + b) == Units(a) + Units(b)
    decreases |a|
  {
    if a == [] {
      assert a + b == b && [] + Units(b) == Units(b);
    } else {
      FirstUnit(a, b);
      UnitsConcat(Rest(a), b);
      NextUnits(Unit(a), Units(Rest(a)), Units(b));
    }
  }

  lemma ValidConcat(a: GoString, b: GoString)
    requires ValidUtf8(a) && ValidUtf8(b)
    ensures ValidUtf8(a + b)
  {
    UnitsConcat(a, b);
  }

  /** One rune's text, or the replacement of a malformed byte, is valid on its own. */
  lemma UnitIsValid(s: GoString)
    requires s != []
    ensures ValidUtf8(if Unit(s) == [] then REPLACEMENT else Unit(s))
  {
    var u := if Unit(s) == [] then REPLACEMENT else Unit(s);
    UnitIsUnit(s);
    assert Unit(u) == u && Rest(u) == [];
    UnitsCons(u);
  }

  lemma {:induction false} DecodedIsValid(s: GoString)
    ensures ValidUtf8(Decoded(s))
    decreases |s|
  {
    if s != [] {
      UnitsCons(s);
      DecodedIsValid(Rest(s));
      UnitIsValid(s);
      ValidConcat(if Unit(s) == [] then REPLACEMENT else Unit(s), Decoded(Rest(s)));
    }
  }

  /** Rune by rune: what is left of a string has its runes, and U+FFFD for each malformed byte. */
  lemma {:induction false} DecodedUnits(s: GoString)
    ensures |Units(Decoded(s))| == |Units(s)|
    ensures forall i :: 0 <= i < |Units(s)| ==>
              Units(Decoded(s))[i] == if Units(s)[i] == [] then [0xEF, 0xBF, 0xBD] else Units(s)[i]
    decreases |s|
  {
    if s != [] {
      var rest, piece := Rest(s), if Unit(s) == [] then REPLACEMENT else Unit(s);
      UnitsCons(s);
      DecodedUnits(rest);
      UnitIsValid(s);
      UnitAlone(s);
      UnitsConcat(piece, Decoded(rest));
      assert Units(Decoded(s)) == [piece] + Units(Decoded(rest));
    }
  }

  lemma UnitAlone(s: GoString)
    requires s != []
    ensures var piece := if Unit(s) == [] then REPLACEMENT else Unit(s); Units(piece) == [piece]
  {
    var u := if Unit(s) == [] then REPLACEMENT else Unit(s);
    UnitIsUnit(s);
    assert Unit(u) == u && Rest(u) == [];
    UnitsCons(u);
    assert Units(u) == [u] + Units([]);
  }

  // ----- JSON string text -----

  const QUOTE: byte := 0x22
  const BACKSLASH: byte := 0x5C
  const COMMA: byte := 0x2C
  const OPEN: byte := 0x5B
  const CLOSE: byte := 0x5D

  function HexDigit(n: int): byte
    requires 0 <= n < 16
  {
    if n < 10 then 0x30 + n else 0x57 + n
  }

  function HexEscape(code: nat): (e: GoString)
    requires code < 0x10000
    ensures |e| == 6
  {
    [BACKSLASH, 0x75, HexDigit(code / 0x1000), HexDigit(code / 0x100 % 16), HexDigit(code / 16 % 16), HexDigit(code % 16)]
  }

  /** What appendString writes for one unit (json: encode.go). */
  function Escape(u: GoString): (e: GoString)
    requires IsUnit(u)
    ensures e != [] && e[0] != QUOTE
  {
    if u == [] then HexEscape(RUNE_ERROR)
    else if |u| == 1 then
      if u[0] == QUOTE || u[0] == BACKSLASH then [BACKSLASH, u[0]]
      else if u[0] == 0x08 then [BACKSLASH, 0x62]
      else if u[0] == 0x0C then [BACKSLASH, 0x66]
      else if u[0] == 0x0A then [BACKSLASH, 0x6E]
      else if u[0] == 0x0D then [BACKSLASH, 0x72]
      else if u[0] == 0x09 then [BACKSLASH, 0x74]
      else if u[0] < 0x20 || u[0] == 0x3C || u[0] == 0x3E || u[0] == 0x26 then HexEscape(u[0])
      else u
    else if u == [0xE2, 0x80, 0xA8] then HexEscape(0x2028)
    else if u == [0xE2, 0x80, 0xA9] then HexEscape(0x2029)
    else u
  }

  predicate IsHex(d: byte, n: nat) { (0x30 <= d <= 0x39 && n == d - 0x30) || (0x61 <= d <= 0x66 && n == d - 0x57) }

  /** `e` is a backslash, "u", and the four digits of `code`. */
  predicate IsHexEscape(e: GoString, code: nat) {
    && |e| == 6 && e[0] == 0x5C && e[1] == 0x75 && code < 0x1_0000
    && IsHex(e[2], code / 0x1000) && IsHex(e[3], code / 0x100 % 16) && IsHex(e[4], code / 16 % 16) && IsHex(e[5], code % 16)
  }

  /** encoding/json's table, by code point: quotes, backslashes and five control characters are escaped with a letter; other
      control characters, the HTML characters, U+2028 and U+2029, and malformed bytes by number; the rest stays. */
  lemma EscapeExact(u: GoString)
    requires IsUnit(u)
    ensures u == [] ==> Escape(u) == [0x5C, 0x75, 0x66, 0x66, 0x66, 0x64]
    ensures u != [] ==>
              var c, e := DecodeRune(u).code, Escape(u);
              if c == 0x22 || c == 0x5C then e == [0x5C, c]
              else if c == 0x08 then e == [0x5C, 0x62]
              else if c == 0x0C then e == [0x5C, 0x66]
              else if c == 0x0A then e == [0x5C, 0x6E]
              else if c == 0x0D then e == [0x5C, 0x72]
              else if c == 0x09 then e == [0x5C, 0x74]
              else if c < 0x20 || c == 0x3C || c == 0x3E || c == 0x26 || c == 0x2028 || c == 0x2029 then IsHexEscape(e, c)
              else e == u
  {
    if u != [] && |u| == 3 {
      SequenceIsEncoding(u);
      assert u == [u[0], u[1], u[2]];
    }
    if u != [] && |u| != 1 { SequenceIsEncoding(u); }
  }

  function Escapes(us: seq<GoString>): (es: seq<GoString>)
    requires forall u :: u in us ==> IsUnit(u)
    ensures |es| == |us| && forall i :: 0 <= i < |us| ==> es[i] == Escape(us[i])
  {
    seq(|us|, i requires 0 <= i < |us| => Escape(us[i]))
  }

  lemma {:induction false} EscapeAllIs(us: seq<GoString>)
    requires forall u :: u in us ==> IsUnit(u)
    ensures EscapeAll(us) == Concat(Escapes(us))
    decreases |us|
  {
    if us != [] {
      EscapeAllIs(us[1..]);
      assert Escapes(us)[1..] == Escapes(us[1..]);
    }
  }

  /** A string is written rune by rune, between quotes. */
  lemma QuoteExact(s: GoString)
    ensures (forall u :: u in Units(s) ==> IsUnit(u)) && Quote(s) == [0x22] + Concat(Escapes(Units(s))) + [0x22]
  {
    UnitsAreUnits(s);
    EscapeAllIs(Units(s));
  }

  function EscapeAll(us: seq<GoString>): GoString
    requires forall u :: u in us ==> IsUnit(u)
  {
    if us == [] then [] else Escape(us[0]) + EscapeAll(us[1..])
  }

  lemma {:induction false} UnitsAreUnits(s: GoString)
    ensures forall u :: u in Units(s) ==> IsUnit(u)
    decreases |s|
  {
    if s != [] {
      UnitIsUnit(s);
      UnitsAreUnits(Rest(s));
    }
  }

  /** json.Marshal of a string. */
  function Quote(s: GoString): GoString {
    UnitsAreUnits(s);
    [QUOTE] + EscapeAll(Units(s)) + [QUOTE]
  }

  // ----- the size estimate of harcapture -----

  /** The switch inside jsonEscapedLen. */
  function Charge(code: nat): int {
    if code == 0x22 || code == 0x5C || code == 0x08 || code == 0x0C || code == 0x0A || code == 0x0D || code == 0x09 then 2
    else if code == 0x3C || code == 0x3E || code == 0x26 || code == 0x2028 || code == 0x2029 || code == RUNE_ERROR then 6
    else if code < 0x20 then 6
    else RuneLen(code)
  }

  function Charges(s: GoString): int {
    if s == [] then 0 else Charge(DecodeRune(s).code) + Charges(Rest(s))
  }

  /** jsonEscapedLen's result, as a function. */
  function EscapedLen(s: GoString): int { 2 + Charges(s) }

  method JsonEscapedLen(s: GoString) returns (n: int)
    ensures n == EscapedLen(s)
    ensures n >= |Quote(s)|
  {
    n := 2;
    var i := 0;
    while i < |s|
      invariant 0 <= i <= |s|
      invariant n + Charges(s[i..]) == EscapedLen(s)
    {
      var r := DecodeRune(s[i..]);
      assert Rest(s[i..]) == s[i + r.size..];
      if r.code == 0x22 || r.code == 0x5C || r.code == 0x08 || r.code == 0x0C
         || r.code == 0x0A || r.code == 0x0D || r.code == 0x09 {
        n := n + 2;
      } else if r.code == 0x3C || r.code == 0x3E || r.code == 0x26
                || r.code == 0x2028 || r.code == 0x2029 || r.code == RUNE_ERROR {
        n := n + 6;
      } else if r.code < 0x20 {
        n := n + 6;
      } else {
        n := n + RuneLen(r.code);
      }
      i := i + r.size;
    }
    EscapedLenExact(s);
  }

  /** Validly encoded U+FFFD characters in `s`. */
  function LiteralReplacements(us: seq<GoString>): nat {
    if us == [] then 0
    else (if us[0] == [0xEF, 0xBF, 0xBD] then 1 else 0) + LiteralReplacements(us[1..])
  }

  lemma ChargeOfUnit(s: GoString)
    requires s != []
    ensures IsUnit(Unit(s))
    ensures Charge(DecodeRune(s).code) == |Escape(Unit(s))| + (if Unit(s) == [0xEF, 0xBF, 0xBD] then 3 else 0)
  {
    UnitIsUnit(s);
    var n, u := SequenceSize(s), Unit(s);
    assert n != 0 ==> u[0] == s[0];
    if n == 3 {
      assert u == [s[0], s[1], s[2]];
      if DecodeRune(s).code == RUNE_ERROR { assert s[0] == 0xEF && s[1] == 0xBF && s[2] == 0xBD; }
      if DecodeRune(s).code == 0x2028 { assert s[0] == 0xE2 && s[1] == 0x80 && s[2] == 0xA8; }
      if DecodeRune(s).code == 0x2029 { assert s[0] == 0xE2 && s[1] == 0x80 && s[2] == 0xA9; }
    }
  }

  /** The estimate is the real encoded length plus 3 for each literal U+FFFD, malformed input included. */
  lemma {:induction false} EscapedLenExact(s: GoString)
    ensures EscapedLen(s) == |Quote(s)| + 3 * LiteralReplacements(Units(s))
    decreases |s|
  {
    UnitsAreUnits(s);
    if s != [] {
      ChargeOfUnit(s);
      UnitsAreUnits(Rest(s));
      EscapedLenExact(Rest(s));
      assert Units(s)[1..] == Units(Rest(s));
    }
  }

  // ----- MapKey -----

  /** A tupleLabel: key and value. */
  datatype Pair = Pair(key: GoString, value: GoString)

  function PairText(p: Pair): GoString { [OPEN] + Quote(p.key) + [COMMA] + Quote(p.value) + [CLOSE] }

  function ListTail(ps: seq<Pair>): GoString {
    if ps == [] then [CLOSE] else [COMMA] + PairText(ps[0]) + ListTail(ps[1..])
  }

  /** json.Marshal of an already sorted tuple list. */
  function MapKey(ps: seq<Pair>): GoString {
    [OPEN] + if ps == [] then [CLOSE] else PairText(ps[0]) + ListTail(ps[1..])
  }

  /** The texts with commas between them. */
  function Commas(ts: seq<GoString>): GoString {
    if ts == [] then [] else if |ts| == 1 then ts[0] else ts[0] + [0x2C] + Commas(ts[1..])
  }

  function PairTexts(ps: seq<Pair>): (ts: seq<GoString>)
    ensures |ts| == |ps|
    ensures forall i :: 0 <= i < |ps| ==> ts[i] == [0x5B] + Quote(ps[i].key) + [0x2C] + Quote(ps[i].value) + [0x5D]
  {
    seq(|ps|, i requires 0 <= i < |ps| => PairText(ps[i]))
  }

  lemma TailStep(text: GoString, head: GoString, tail: GoString, rest: GoString)
    requires head + tail == rest + [0x5D]
    ensures text + ([0x2C] + head + tail) == text + [0x2C] + rest + [0x5D]
  {
    assert [0x2C] + head + tail == [0x2C] + (head + tail);
    assert text + ([0x2C] + (rest + [0x5D])) == text + [0x2C] + rest + [0x5D];
  }

  lemma {:induction false} TailIs(ps: seq<Pair>)
    requires ps != []
    ensures PairText(ps[0]) + ListTail(ps[1..]) == Commas(PairTexts(ps)) + [0x5D]
    decreases |ps|
  {
    var ts, rest := PairTexts(ps), ps[1..];
    if rest != [] {
      assert ts[1..] == PairTexts(rest);
      TailIs(rest);
      TailStep(ts[0], PairText(rest[0]), ListTail(rest[1..]), Commas(ts[1..]));
    }
  }

  /** A JSON array of arrays of two strings. */
  lemma MapKeyIs(ps: seq<Pair>)
    ensures MapKey(ps) == [0x5B] + Commas(PairTexts(ps)) + [0x5D]
  {
    if ps == [] {
      assert [0x5B] + [] + [0x5D] == [0x5B, 0x5D] == [OPEN] + [CLOSE];
    } else {
      TailIs(ps);
      assert [0x5B] + (Commas(PairTexts(ps)) + [0x5D]) == [0x5B] + Commas(PairTexts(ps)) + [0x5D];
    }
  }

  /** Two tuple lists that encoding/json cannot tell apart. */
  predicate SamePairs(ps: seq<Pair>, qs: seq<Pair>) {
    |ps| == |qs|
    && forall i :: 0 <= i < |ps| ==> Units(ps[i].key) == Units(qs[i].key) && Units(ps[i].value) == Units(qs[i].value)
  }

  lemma HexDigitInjective(m: int, n: int)
    requires 0 <= m < 16 && 0 <= n < 16
    ensures HexDigit(m) == HexDigit(n) ==> m == n
  {
  }

  lemma Nibbles(a: nat)
    ensures a == 0x1000 * (a / 0x1000) + 0x100 * (a / 0x100 % 16) + 16 * (a / 16 % 16) + a % 16
  {
    var b := a / 16;
    var c := b / 16;
    assert a == 16 * b + a % 16 && b == 16 * c + b % 16 && c == 16 * (c / 16) + c % 16;
    assert c == a / 0x100 && c / 16 == a / 0x1000;
  }

  lemma HexEscapeInjective(a: nat, b: nat)
    requires a < 0x10000 && b < 0x10000 && HexEscape(a) == HexEscape(b)
    ensures a == b
  {
    forall i | 2 <= i < 6 ensures HexEscape(a)[i] == HexEscape(b)[i] {}
    Nibbles(a);
    Nibbles(b);
    HexDigitInjective(a / 0x1000, b / 0x1000);
    HexDigitInjective(a / 0x100 % 16, b / 0x100 % 16);
    HexDigitInjective(a / 16 % 16, b / 16 % 16);
    HexDigitInjective(a % 16, b % 16);
  }

  /** The escape of a unit is one of three shapes, told apart by its first two bytes. */
  datatype Shape = Raw | Short | Hex(code: nat)

  function ShapeOf(u: GoString): (k: Shape)
    requires IsUnit(u)
    ensures k.Hex? ==> k.code < 0x10000
  {
    if u == [] then Hex(RUNE_ERROR)
    else if u == [0xE2, 0x80, 0xA8] then Hex(0x2028)
    else if u == [0xE2, 0x80, 0xA9] then Hex(0x2029)
    else if |u| > 1 then Raw
    else if u[0] in {0x22, 0x5C, 0x08, 0x0C, 0x0A, 0x0D, 0x09} then Short
    else if u[0] < 0x20 || u[0] == 0x3C || u[0] == 0x3E || u[0] == 0x26 then Hex(u[0])
    else Raw
  }

  lemma ShapeOfEscape(u: GoString)
    requires IsUnit(u)
    ensures ShapeOf(u).Raw? ==> Escape(u) == u && u != [] && u[0] != BACKSLASH
    ensures ShapeOf(u).Short? ==> |Escape(u)| == 2 && Escape(u)[0] == BACKSLASH && Escape(u)[1] != 0x75 && |u| == 1
    ensures ShapeOf(u).Hex? ==> Escape(u) == HexEscape(ShapeOf(u).code)
  {
  }

  /** No escape is a prefix of another unit's escape. */
  lemma EscapePrefixFree(u: GoString, v: GoString, x: GoString, y: GoString)
    requires IsUnit(u) && IsUnit(v) && Escape(u) + x == Escape(v) + y
    ensures u == v && x == y
  {
    var eu, ev := Escape(u), Escape(v);
    ShapeOfEscape(u);
    ShapeOfEscape(v);
    assert (eu + x)[0] == eu[0] && (ev + y)[0] == ev[0];
    if |eu| >= 2 && |ev| >= 2 { assert (eu + x)[1] == eu[1] && (ev + y)[1] == ev[1]; }
    assert |eu| == |ev| by {
      if ShapeOf(u).Raw? && ShapeOf(v).Raw? {
        var short, long := if |u| <= |v| then u else v, if |u| <= |v| then v else u;
        assert short == long[..|short|] by {
          assert (eu + x)[..|short|] == eu[..|short|] && (ev + y)[..|short|] == ev[..|short|];
        }
        UnitPrefix(short, long);
      }
    }
    assert (eu + x)[..|eu|] == eu && (ev + y)[..|ev|] == ev;
    assert (eu + x)[|eu|..] == x && (ev + y)[|ev|..] == y;
    if ShapeOf(u).Hex? { HexEscapeInjective(ShapeOf(u).code, ShapeOf(v).code); }
    if ShapeOf(u).Short? { assert u == [u[0]] && v == [v[0]]; }
  }

  lemma UnitPrefix(u: GoString, v: GoString)
    requires u != [] && IsUnit(u) && IsUnit(v) && |u| <= |v| && u == v[..|u|]
    ensures u == v
  {
    assert u[0] == v[0];
  }

  lemma Regroup(a: GoString, b: GoString, c: GoString, d: GoString)
    ensures (a + b) + c + d == a + (b + c + d)
  {
  }

  lemma ConsCancel(c: byte, s: GoString, d: byte, t: GoString)
    requires [c] + s == [d] + t
    ensures c == d && s == t
  {
    assert ([c] + s)[0] == c && ([d] + t)[0] == d;
    assert ([c] + s)[1..] == s && ([d] + t)[1..] == t;
  }

  lemma ClosingQuote(us: seq<GoString>, x: GoString)
    requires forall u :: u in us ==> IsUnit(u)
    ensures (EscapeAll(us) + [QUOTE] + x)[0] == QUOTE <==> us == []
    ensures us == [] ==> (EscapeAll(us) + [QUOTE] + x)[1..] == x
  {
    if us != [] {
      assert (EscapeAll(us) + [QUOTE] + x)[0] == Escape(us[0])[0];
    }
  }

  lemma {:induction false} EscapeAllPrefixFree(us: seq<GoString>, vs: seq<GoString>, x: GoString, y: GoString)
    requires forall u :: u in us ==> IsUnit(u)
    requires forall v :: v in vs ==> IsUnit(v)
    requires EscapeAll(us) + [QUOTE] + x == EscapeAll(vs) + [QUOTE] + y
    ensures us == vs && x == y
    decreases |us|
  {
    ClosingQuote(us, x);
    ClosingQuote(vs, y);
    if us != [] {
      Regroup(Escape(us[0]), EscapeAll(us[1..]), [QUOTE], x);
      Regroup(Escape(vs[0]), EscapeAll(vs[1..]), [QUOTE], y);
      EscapePrefixFree(us[0], vs[0], EscapeAll(us[1..]) + [QUOTE] + x, EscapeAll(vs[1..]) + [QUOTE] + y);
      EscapeAllPrefixFree(us[1..], vs[1..], x, y);
      assert us == [us[0]] + us[1..] && vs == [vs[0]] + vs[1..];
    }
  }

  lemma QuotePrefixFree(a: GoString, b: GoString, x: GoString, y: GoString)
    requires Quote(a) + x == Quote(b) + y
    ensures Units(a) == Units(b) && x == y
  {
    UnitsAreUnits(a);
    UnitsAreUnits(b);
    Regroup([QUOTE], EscapeAll(Units(a)), [QUOTE], x);
    Regroup([QUOTE], EscapeAll(Units(b)), [QUOTE], y);
    ConsCancel(QUOTE, EscapeAll(Units(a)) + [QUOTE] + x, QUOTE, EscapeAll(Units(b)) + [QUOTE] + y);
    EscapeAllPrefixFree(Units(a), Units(b), x, y);
  }

  lemma RegroupPair(a: byte, k: GoString, b: byte, v: GoString, c: byte, x: GoString)
    ensures ([a] + k + [b] + v + [c]) + x == [a] + (k + ([b] + (v + ([c] + x))))
  {
  }

  lemma PairPrefixFree(p: Pair, q: Pair, x: GoString, y: GoString)
    requires PairText(p) + x == PairText(q) + y
    ensures Units(p.key) == Units(q.key) && Units(p.value) == Units(q.value) && x == y
  {
    var pk, pv, qk, qv := Quote(p.key), Quote(p.value), Quote(q.key), Quote(q.value);
    RegroupPair(OPEN, pk, COMMA, pv, CLOSE, x);
    RegroupPair(OPEN, qk, COMMA, qv, CLOSE, y);
    var px, qy := pv + ([CLOSE] + x), qv + ([CLOSE] + y);
    ConsCancel(OPEN, pk + ([COMMA] + px), OPEN, qk + ([COMMA] + qy));
    QuotePrefixFree(p.key, q.key, [COMMA] + px, [COMMA] + qy);
    ConsCancel(COMMA, px, COMMA, qy);
    QuotePrefixFree(p.value, q.value, [CLOSE] + x, [CLOSE] + y);
    ConsCancel(CLOSE, x, CLOSE, y);
  }

  lemma TailHead(ps: seq<Pair>)
    ensures ListTail(ps) != []
    ensures ListTail(ps)[0] == COMMA <==> ps != []
    ensures ps != [] ==> ListTail(ps) == [COMMA] + (PairText(ps[0]) + ListTail(ps[1..]))
  {
    if ps != [] {
      var a, b := PairText(ps[0]), ListTail(ps[1..]);
      assert [COMMA] + a + b == [COMMA] + (a + b);
    }
  }

  lemma {:induction false} ListTailInjective(ps: seq<Pair>, qs: seq<Pair>)
    requires ListTail(ps) == ListTail(qs)
    ensures SamePairs(ps, qs)
    decreases |ps|
  {
    TailHead(ps);
    TailHead(qs);
    if ps != [] {
      var x, y := ListTail(ps[1..]), ListTail(qs[1..]);
      ConsCancel(COMMA, PairText(ps[0]) + x, COMMA, PairText(qs[0]) + y);
      PairPrefixFree(ps[0], qs[0], x, y);
      ListTailInjective(ps[1..], qs[1..]);
      assert forall i :: 0 < i < |ps| ==> ps[i] == ps[1..][i - 1] && qs[i] == qs[1..][i - 1];
    }
  }

  lemma SameUnitsSameQuote(a: GoString, b: GoString)
    requires Units(a) == Units(b)
    ensures Quote(a) == Quote(b)
  {
  }

  lemma {:induction false} SamePairsSameTail(ps: seq<Pair>, qs: seq<Pair>)
    requires SamePairs(ps, qs)
    ensures ListTail(ps) == ListTail(qs)
    decreases |ps|
  {
    if ps != [] {
      assert Units(ps[0].key) == Units(qs[0].key) && Units(ps[0].value) == Units(qs[0].value);
      SameUnitsSameQuote(ps[0].key, qs[0].key);
      SameUnitsSameQuote(ps[0].value, qs[0].value);
      SamePairsSameTail(ps[1..], qs[1..]);
    }
  }

  lemma MapKeyHead(ps: seq<Pair>)
    ensures ps == [] ==> MapKey(ps) == [OPEN, CLOSE]
    ensures ps != [] ==> MapKey(ps) == [OPEN] + (PairText(ps[0]) + ListTail(ps[1..])) && |MapKey(ps)| > 2
  {
    if ps != [] {
      assert |PairText(ps[0])| >= 2;
    }
  }

  /** MapKey identifies exactly the lists that differ in nothing but which malformed bytes they hold. */
  lemma MapKeyExact(ps: seq<Pair>, qs: seq<Pair>)
    ensures MapKey(ps) == MapKey(qs) <==> SamePairs(ps, qs)
  {
    MapKeyHead(ps);
    MapKeyHead(qs);
    TailHead(ps);
    TailHead(qs);
    if ps != [] && qs != [] {
      var a, b := PairText(ps[0]) + ListTail(ps[1..]), PairText(qs[0]) + ListTail(qs[1..]);
      if MapKey(ps) == MapKey(qs) {
        ConsCancel(OPEN, a, OPEN, b);
        ListTailInjective(ps, qs);
      }
      if SamePairs(ps, qs) {
        SamePairsSameTail(ps, qs);
        ConsCancel(COMMA, a, COMMA, b);
      }
    }
  }

  predicate AllValid(ps: seq<Pair>) {
    forall i :: 0 <= i < |ps| ==> ValidUtf8(ps[i].key) && ValidUtf8(ps[i].value)
  }

  /** On valid UTF-8, MapKey is injective. */
  lemma MapKeyInjective(ps: seq<Pair>, qs: seq<Pair>)
    requires AllValid(ps) && AllValid(qs)
    ensures MapKey(ps) == MapKey(qs) <==> ps == qs
  {
    MapKeyExact(ps, qs);
    if SamePairs(ps, qs) {
      forall i | 0 <= i < |ps| ensures ps[i] == qs[i] {
        UnitsDetermineValid(ps[i].key, qs[i].key);
        UnitsDetermineValid(ps[i].value, qs[i].value);
      }
    }
  }

  /** Off valid UTF-8 it is not: two malformed bytes collide. */
  lemma MapKeyCollision()
    ensures [Pair([], [0xFF])] != [Pair([], [0xFE])] && MapKey([Pair([], [0xFF])]) == MapKey([Pair([], [0xFE])])
  {
    var p, q := Pair([], [0xFF]), Pair([], [0xFE]);
    assert Units([0xFF]) == [[]] && Units([0xFE]) == [[]];
    assert p.value[0] != q.value[0];
    MapKeyExact([p], [q]);
  }
}
