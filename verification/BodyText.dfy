/** backend/harcapture `encodeBody`: captured bytes as HAR text that JSON cannot corrupt. */
module BodyText {
  import opened GoText
  import opened Outcomes

  // ----- base64.StdEncoding -----

  const PAD: byte := 0x3D

  /** Encodings 0 to 63 of RFC 4648, section 4. */
  function Digit(n: nat): (d: byte)
    requires n < 64
    ensures Plain(d) && d != PAD
  {
    if n < 26 then 0x41 + n
    else if n < 52 then 0x61 + (n - 26)
    else if n < 62 then 0x30 + (n - 52)
    else if n == 62 then 0x2B else 0x2F
  }

  lemma DigitsDiffer(m: nat, n: nat)
    requires m < 64 && n < 64 && Digit(m) == Digit(n)
    ensures m == n
  {
  }

  /** The value of a digit. */
  ghost function Undigit(d: byte): (n: Option<nat>)
    ensures n.Some? ==> n.value < 64 && Digit(n.value) == d
  {
    if exists n: nat :: n < 64 && Digit(n) == d then var n: nat :| n < 64 && Digit(n) == d; Some(n) else None
  }

  lemma DigitUndone(n: nat)
    requires n < 64
    ensures Undigit(Digit(n)) == Some(n)
  {
    DigitsDiffer(n, Undigit(Digit(n)).value);
  }

  datatype Sextets = Sextets(x: nat, y: nat, z: nat, w: nat) {
    predicate Valid() { x < 64 && y < 64 && z < 64 && w < 64 }
  }

  /** The 24 bits of four sextets are those of three bytes. */
  predicate SameBits(q: Sextets, a: byte, b: byte, c: byte) {
    q.Valid() && q.x * 4 + q.y / 16 == a && q.y % 16 * 16 + q.z / 4 == b && q.z % 4 * 64 + q.w == c
  }

  lemma SextetsExist(a: byte, b: byte, c: byte)
    ensures SameBits(Sextets(a / 4, a % 4 * 16 + b / 16, b % 16 * 4 + c / 64, c % 64), a, b, c)
  {
  }

  /** The four sextets of three bytes. */
  ghost function Split(a: byte, b: byte, c: byte): (q: Sextets)
    ensures SameBits(q, a, b, c)
  {
    SextetsExist(a, b, c);
    var q :| SameBits(q, a, b, c);
    q
  }

  ghost function Encode64(s: GoString): (t: GoString)
    ensures forall i :: 0 <= i < |t| ==> Plain(t[i])
  {
    if s == [] then []
    else if |s| == 1 then var q := Split(s[0], 0, 0); [Digit(q.x), Digit(q.y), PAD, PAD]
    else if |s| == 2 then var q := Split(s[0], s[1], 0); [Digit(q.x), Digit(q.y), Digit(q.z), PAD]
    else
      var q := Split(s[0], s[1], s[2]);
      [Digit(q.x), Digit(q.y), Digit(q.z), Digit(q.w)] + Encode64(s[3..])
  }

  /** The alphabet of RFC 4648, section 4: upper-case letters, lower-case letters, digits, "+" and "/". */
  predicate IsDigit(d: byte, n: int) {
    || (0x41 <= d <= 0x5A && n == d - 0x41) || (0x61 <= d <= 0x7A && n == 26 + d - 0x61)
    || (0x30 <= d <= 0x39 && n == 52 + d - 0x30) || (d == 0x2B && n == 62) || (d == 0x2F && n == 63)
  }

  /** Byte `i`, or 0 past the end. */
  function ByteAt(s: GoString, i: nat): byte { if i < |s| then s[i] else 0 }

  /** Four digits, or three and "=", or two and "==", for up to three bytes. */
  predicate GroupIs(a: byte, b: byte, c: byte, bytes: nat, t: GoString) {
    && |t| == 4 && IsDigit(t[0], a / 4) && IsDigit(t[1], a % 4 * 16 + b / 16)
    && (if bytes > 1 then IsDigit(t[2], b % 16 * 4 + c / 64) else t[2] == 0x3D)
    && (if bytes > 2 then IsDigit(t[3], c % 64) else t[3] == 0x3D)
  }

  lemma SplitIs(a: byte, b: byte, c: byte)
    ensures Split(a, b, c) == Sextets(a / 4, a % 4 * 16 + b / 16, b % 16 * 4 + c / 64, c % 64)
  {
    var q := Split(a, b, c);
    assert q.x == a / 4 && q.y / 16 == a % 4 && q.y % 16 == b / 16;
    assert q.z / 4 == b % 16 && q.z % 4 == c / 64 && q.w == c % 64;
  }

  lemma DigitsAre(q: Sextets)
    requires q.Valid()
    ensures IsDigit(Digit(q.x), q.x) && IsDigit(Digit(q.y), q.y) && IsDigit(Digit(q.z), q.z) && IsDigit(Digit(q.w), q.w)
  {
  }

  lemma FirstGroupIs(s: GoString)
    requires s != []
    ensures |Encode64(s)| >= 4 && GroupIs(s[0], ByteAt(s, 1), ByteAt(s, 2), |s|, Encode64(s)[..4])
  {
    var b, c := ByteAt(s, 1), ByteAt(s, 2);
    SplitIs(s[0], b, c);
    DigitsAre(Split(s[0], b, c));
    if |s| == 1 {
      assert Encode64(s)[..4] == Encode64(s);
    } else if |s| == 2 {
      assert Encode64(s)[..4] == Encode64(s);
    }
  }

  /** The text group by group. */
  lemma {:induction false} Encode64Exact(s: GoString, g: nat)
    requires 3 * g < |s|
    ensures 4 * g + 4 <= |Encode64(s)|
    ensures GroupIs(s[3 * g], ByteAt(s, 3 * g + 1), ByteAt(s, 3 * g + 2), |s| - 3 * g, Encode64(s)[4 * g..4 * g + 4])
    decreases g
  {
    if g == 0 {
      FirstGroupIs(s);
    } else {
      var h: nat := g - 1;
      Encode64Exact(s[3..], h);
      assert Encode64(s)[4..] == Encode64(s[3..]);
      assert Encode64(s)[4..][4 * h..4 * h + 4] == Encode64(s)[4 * g..4 * g + 4];
    }
  }

  /** The bytes of one group of four; None when it is not base64. */
  ghost function DecodeGroup(a: byte, b: byte, c: byte, d: byte): Option<GoString> {
    var x, y, z, w := Undigit(a), Undigit(b), Undigit(c), Undigit(d);
    if x.None? || y.None? then None
    else if c == PAD then if d == PAD then Some([First8(x.value, y.value)]) else None
    else if z.None? then None
    else if d == PAD then Some([First8(x.value, y.value), Second8(y.value, z.value)])
    else if w.None? then None
    else Some([First8(x.value, y.value), Second8(y.value, z.value), Third8(z.value, w.value)])
  }

  function First8(x: nat, y: nat): byte
    requires x < 64 && y < 64
  {
    x * 4 + y / 16
  }

  function Second8(y: nat, z: nat): byte
    requires y < 64 && z < 64
  {
    y % 16 * 16 + z / 4
  }

  function Third8(z: nat, w: nat): byte
    requires z < 64 && w < 64
  {
    z % 4 * 64 + w
  }

  ghost function Decode64(t: GoString): Option<GoString> {
    if t == [] then Some([])
    else if |t| < 4 then None
    else
      var group, rest := DecodeGroup(t[0], t[1], t[2], t[3]), Decode64(t[4..]);
      if group.Some? && rest.Some? then Some(group.value + rest.value) else None
  }

  lemma GroupUndone(q: Sextets, a: byte, b: byte, c: byte)
    requires SameBits(q, a, b, c)
    ensures DecodeGroup(Digit(q.x), Digit(q.y), PAD, PAD) == Some([a])
    ensures DecodeGroup(Digit(q.x), Digit(q.y), Digit(q.z), PAD) == Some([a, b])
    ensures DecodeGroup(Digit(q.x), Digit(q.y), Digit(q.z), Digit(q.w)) == Some([a, b, c])
  {
    DigitUndone(q.x);
    DigitUndone(q.y);
    DigitUndone(q.z);
    DigitUndone(q.w);
  }

  lemma DecodeStep(t: GoString, group: GoString, rest: GoString)
    requires |t| >= 4 && DecodeGroup(t[0], t[1], t[2], t[3]) == Some(group) && Decode64(t[4..]) == Some(rest)
    ensures Decode64(t) == Some(group + rest)
  {
  }

  lemma Whole(s: GoString)
    ensures s + [] == s
    ensures |s| == 1 ==> s == [s[0]]
    ensures |s| == 2 ==> s == [s[0], s[1]]
    ensures |s| >= 3 ==> s == [s[0], s[1], s[2]] + s[3..]
  {
  }

  lemma ShortUndone(s: GoString)
    requires 0 < |s| < 3
    ensures Decode64(Encode64(s)) == Some(s)
  {
    var b := if |s| > 1 then s[1] else 0;
    var q := Split(s[0], b, 0);
    GroupUndone(q, s[0], b, 0);
    var t := Encode64(s);
    assert t == if |s| == 1 then [Digit(q.x), Digit(q.y), PAD, PAD] else [Digit(q.x), Digit(q.y), Digit(q.z), PAD];
    assert t[4..] == [];
    Whole(s);
    DecodeStep(t, s, []);
  }

  function Groups(n: nat): nat { (n + 2) / 3 }

  lemma GroupsStep(n: nat)
    ensures n >= 3 ==> Groups(n) == Groups(n - 3) + 1
    ensures n == 0 ==> Groups(n) == 0
    ensures 0 < n <= 3 ==> Groups(n) == 1
  {
  }

  lemma {:induction false} Encode64Length(s: GoString)
    ensures |Encode64(s)| == Groups(|s|) * 4
    decreases |s|
  {
    GroupsStep(|s|);
    if |s| >= 3 { Encode64Length(s[3..]); }
  }

  lemma GroupThenRest(s: GoString)
    requires |s| >= 3 && Decode64(Encode64(s[3..])) == Some(s[3..])
    ensures Decode64(Encode64(s)) == Some(s)
  {
    GroupUndone(Split(s[0], s[1], s[2]), s[0], s[1], s[2]);
    assert Encode64(s)[4..] == Encode64(s[3..]);
    Whole(s);
    DecodeStep(Encode64(s), [s[0], s[1], s[2]], s[3..]);
  }

  /** Decoding undoes encoding. */
  lemma {:induction false} Base64RoundTrip(s: GoString)
    ensures Decode64(Encode64(s)) == Some(s)
    decreases |s|
  {
    if |s| >= 3 {
      Base64RoundTrip(s[3..]);
      GroupThenRest(s);
    } else if s != [] {
      ShortUndone(s);
    }
  }

  // ----- text that JSON carries unchanged -----

  /** Bytes that JSON writes as they are. */
  predicate Plain(b: byte) { 0x20 <= b < 0x7F && b != QUOTE && b != BACKSLASH && b != 0x3C && b != 0x3E && b != 0x26 }

  lemma {:induction false} PlainUnits(s: GoString)
    requires forall i :: 0 <= i < |s| ==> Plain(s[i])
    ensures ValidUtf8(s) && |Quote(s)| == |s| + 2
    decreases |s|
  {
    UnitsAreUnits(s);
    if s != [] {
      assert Unit(s) == [s[0]] && Rest(s) == s[1..];
      UnitsAreUnits(s[1..]);
      PlainUnits(s[1..]);
      assert Units(s)[1..] == Units(s[1..]);
      assert Escape([s[0]]) == [s[0]];
    }
  }

  // ----- encodeBody -----

  const BASE64: GoString := [0x62, 0x61, 0x73, 0x65, 0x36, 0x34]

  function Kept(body: GoString, maxBodyBytes: nat): GoString {
    if |body| > maxBodyBytes then body[..maxBodyBytes] else body
  }

  /** encodeBody: the text and its encoding. */
  ghost function EncodeBody(body: GoString, maxBodyBytes: nat): (GoString, GoString) {
    var keep := Kept(body, maxBodyBytes);
    if ValidUtf8(keep) then (keep, []) else (Encode64(keep), BASE64)
  }

  /** How a reader of the HAR gets the bytes back. */
  ghost function DecodeBody(text: GoString, encoding: GoString): Option<GoString> {
    if encoding == BASE64 then Decode64(text) else Some(text)
  }

  /** The kept bytes come back, whatever they are, and JSON encoding blurs none of the text. */
  lemma EncodeBodyRoundTrip(body: GoString, maxBodyBytes: nat)
    ensures var (text, encoding) := EncodeBody(body, maxBodyBytes);
            && DecodeBody(text, encoding) == Some(Kept(body, maxBodyBytes))
            && ValidUtf8(text) && Concat(Units(text)) == text
            && (encoding == BASE64 <==> !ValidUtf8(Kept(body, maxBodyBytes)))
            && |text| <= Groups(maxBodyBytes) * 4
            && (encoding == [] ==> text == if |body| > maxBodyBytes then body[..maxBodyBytes] else body)
            && (encoding == [] || encoding == [0x62, 0x61, 0x73, 0x65, 0x36, 0x34])
  {
    var keep := Kept(body, maxBodyBytes);
    Base64RoundTrip(keep);
    Encode64Length(keep);
    PlainUnits(Encode64(keep));
    ValidRebuilds(EncodeBody(body, maxBodyBytes).0);
  }

  /** A base64 body is charged its exact length: nothing in it is escaped. */
  lemma Base64CostsItsLength(body: GoString, maxBodyBytes: nat)
    requires !ValidUtf8(Kept(body, maxBodyBytes))
    ensures EscapedLen(EncodeBody(body, maxBodyBytes).0) == Groups(|Kept(body, maxBodyBytes)|) * 4 + 2
  {
    var t := Encode64(Kept(body, maxBodyBytes));
    Encode64Length(Kept(body, maxBodyBytes));
    PlainUnits(t);
    EscapedLenExact(t);
    PlainHasNoReplacement(t);
  }

  lemma {:induction false} PlainHasNoReplacement(s: GoString)
    requires forall i :: 0 <= i < |s| ==> Plain(s[i])
    ensures LiteralReplacements(Units(s)) == 0
    decreases |s|
  {
    if s != [] {
      assert Unit(s) == [s[0]] && Rest(s) == s[1..];
      PlainHasNoReplacement(s[1..]);
      assert Units(s)[1..] == Units(s[1..]);
    }
  }
}
