/** data/sqlutil/macros.go `parseArgs`: the bracketed argument list of a macro, rune by rune. */
module MacroArgs {
  import opened GoText
  import opened Outcomes

  /** A string as `range` sees it: the bytes of each rune, nothing for a malformed byte. */
  type Runes = seq<GoString>

  const OPENING: GoString := [0x28]
  const CLOSING: GoString := [0x29]
  const SEPARATOR: GoString := [0x2C]

  /** unicode.IsSpace. */
  predicate IsSpace(u: GoString) {
    || (|u| == 1 && (0x09 <= u[0] <= 0x0D || u[0] == 0x20))
    || u == [0xC2, 0x85] || u == [0xC2, 0xA0] || u == [0xE1, 0x9A, 0x80] || u == [0xE3, 0x80, 0x80]
    || (|u| == 3 && u[0] == 0xE2 && u[1] == 0x80 && (0x80 <= u[2] <= 0x8A || u[2] == 0xA8 || u[2] == 0xA9 || u[2] == 0xAF))
    || u == [0xE2, 0x81, 0x9F]
  }

  function TrimLeft(us: Runes): (r: Runes)
    ensures r == [] || !IsSpace(r[0])
  {
    if us != [] && IsSpace(us[0]) then TrimLeft(us[1..]) else us
  }

  function TrimRight(us: Runes): (r: Runes)
    ensures r == [] || !IsSpace(r[|r| - 1])
  {
    if us != [] && IsSpace(us[|us| - 1]) then TrimRight(us[..|us| - 1]) else us
  }

  /** strings.TrimSpace(string(arg)). */
  function Trimmed(us: Runes): GoString { TextOf(TrimRight(TrimLeft(us))) }

  function TrimAll(ps: seq<Runes>): (r: seq<GoString>)
    ensures |r| == |ps| && forall i :: 0 <= i < |ps| ==> r[i] == Trimmed(ps[i])
  {
    seq(|ps|, i requires 0 <= i < |ps| => Trimmed(ps[i]))
  }

  /** Bytes a rune takes in the string. */
  function Width(u: GoString): nat { if u == [] then 1 else |u| }

  function Bytes(us: Runes): nat { if us == [] then 0 else Width(us[0]) + Bytes(us[1..]) }

  // ----- what the scanner finds -----

  /** The arguments up to the closing bracket, and the number of runes read with it. */
  datatype Found = Found(pieces: seq<Runes>, count: nat)

  /** From inside the bracket, `depth` brackets deep, with `piece` read of the current argument. */
  function Pieces(us: Runes, depth: nat, piece: Runes): (r: Option<Found>)
    requires depth >= 1
    ensures r.Some? ==> 1 <= r.value.count <= |us| && r.value.pieces != []
    decreases |us|
  {
    if us == [] then None
    else if us[0] == CLOSING && depth == 1 then Some(Found([piece], 1))
    else if us[0] == SEPARATOR && depth == 1 then
      var r := Pieces(us[1..], 1, []);
      if r.Some? then Some(Found([piece] + r.value.pieces, 1 + r.value.count)) else None
    else
      var d := if us[0] == OPENING then depth + 1 else if us[0] == CLOSING then depth - 1 else depth;
      var r := Pieces(us[1..], d, piece + [us[0]]);
      if r.Some? then Some(Found(r.value.pieces, 1 + r.value.count)) else None
  }

  /** The result of parseArgs: the arguments, and the length, 0 without a list, -1 without a closing bracket. */
  datatype Parsed = Parsed(args: seq<GoString>, length: int)

  function ParseOf(s: GoString): Parsed {
    if s == [] || s[0] != 0x28 then Parsed([], 0)
    else
      var us := Units(s);
      var r := Pieces(us[1..], 1, []);
      if r.Some? then Parsed(TrimAll(r.value.pieces), Bytes(us[..1 + r.value.count])) else Parsed([], -1)
  }

  lemma BracketUnit(s: GoString)
    requires s != []
    ensures s[0] == 0x28 <==> Unit(s) == OPENING
    ensures Units(s) == [Unit(s)] + Units(Rest(s)) && Units(s)[0] == Unit(s) && Units(s)[1..] == Units(Rest(s))
    ensures Width(Unit(s)) == DecodeRune(s).size
  {
  }

  /** What the loop still has to do at rune `us[0]`, with `args` complete and `pos` bytes behind it. */
  function Finish(us: Runes, depth: nat, arg: Runes, args: seq<GoString>, pos: nat): Parsed
    requires depth >= 1
  {
    var r := Pieces(us, depth, arg);
    if r.Some? then Parsed(args + TrimAll(r.value.pieces), pos + Bytes(us[..r.value.count])) else Parsed([], -1)
  }

  lemma BytesCons(us: Runes, n: nat)
    requires 1 <= n <= |us|
    ensures Bytes(us[..n]) == Width(us[0]) + Bytes(us[1..][..n - 1])
  {
    assert us[..n][0] == us[0] && us[..n][1..] == us[1..][..n - 1];
  }

  lemma FinishClosing(us: Runes, arg: Runes, args: seq<GoString>, pos: nat)
    requires us != [] && us[0] == CLOSING
    ensures Finish(us, 1, arg, args, pos) == Parsed(args + [Trimmed(arg)], pos + 1)
  {
    assert TrimAll([arg]) == [Trimmed(arg)];
    BytesCons(us, 1);
    assert us[1..][..0] == [];
  }

  lemma FinishSeparator(us: Runes, arg: Runes, args: seq<GoString>, pos: nat)
    requires us != [] && us[0] == SEPARATOR
    ensures Finish(us, 1, arg, args, pos) == Finish(us[1..], 1, [], args + [Trimmed(arg)], pos + Width(us[0]))
  {
    var r := Pieces(us, 1, arg);
    if r.Some? {
      BytesCons(us, r.value.count);
      var rest := Pieces(us[1..], 1, []).value.pieces;
      assert r.value.pieces == [arg] + rest;
      TrimCons(arg, rest, args);
    }
  }

  lemma TrimCons(p: Runes, ps: seq<Runes>, args: seq<GoString>)
    ensures args + TrimAll([p] + ps) == args + [Trimmed(p)] + TrimAll(ps)
  {
    assert TrimAll([p] + ps) == [Trimmed(p)] + TrimAll(ps);
  }

  lemma FinishOther(us: Runes, depth: nat, arg: Runes, args: seq<GoString>, pos: nat)
    requires us != [] && depth >= 1 && !(depth == 1 && (us[0] == CLOSING || us[0] == SEPARATOR))
    ensures Finish(us, depth, arg, args, pos)
         == Finish(us[1..], if us[0] == OPENING then depth + 1 else if us[0] == CLOSING then depth - 1 else depth,
                   arg + [us[0]], args, pos + Width(us[0]))
  {
    var r := Pieces(us, depth, arg);
    if r.Some? { BytesCons(us, r.value.count); }
  }

  lemma FinishStep(us: Runes, u: GoString, rest: Runes, depth: nat, arg: Runes, args: seq<GoString>, pos: nat, next: nat)
    requires depth >= 1 && us == [u] + rest && next == pos + Width(u)
    ensures u == CLOSING && depth == 1 ==> Finish(us, depth, arg, args, pos) == Parsed(args + [Trimmed(arg)], next)
    ensures u == CLOSING && depth > 1 ==> Finish(us, depth, arg, args, pos) == Finish(rest, depth - 1, arg + [u], args, next)
    ensures u == SEPARATOR && depth == 1 ==>
              Finish(us, depth, arg, args, pos) == Finish(rest, depth, [], args + [Trimmed(arg)], next)
    ensures u == OPENING ==> Finish(us, depth, arg, args, pos) == Finish(rest, depth + 1, arg + [u], args, next)
    ensures u != OPENING && u != CLOSING && !(u == SEPARATOR && depth == 1) ==>
              Finish(us, depth, arg, args, pos) == Finish(rest, depth, arg + [u], args, next)
  {
    assert us[1..] == rest;
    if u == CLOSING && depth == 1 {
      FinishClosing(us, arg, args, pos);
    } else if u == SEPARATOR && depth == 1 {
      FinishSeparator(us, arg, args, pos);
    } else {
      FinishOther(us, depth, arg, args, pos);
    }
  }

  lemma NextRune(s: GoString, i: nat, r: GoString, next: nat)
    requires i < |s| && r == Unit(s[i..]) && next == i + DecodeRune(s[i..]).size
    ensures next <= |s| && Units(s[i..]) == [r] + Units(s[next..]) && next == i + Width(r)
  {
    BracketUnit(s[i..]);
    assert s[i..][DecodeRune(s[i..]).size..] == s[next..];
  }

  /** The loop at byte `i`, inside the bracket, has lost nothing. */
  predicate OnTrack(s: GoString, i: nat, depth: int, arg: Runes, args: seq<GoString>) {
    i <= |s| && depth >= 1 && ParseOf(s) == Finish(Units(s[i..]), depth, arg, args, i)
  }

  lemma Track(s: GoString, i: nat, depth: int, arg: Runes, args: seq<GoString>, u: GoString, next: nat)
    requires i < |s| && OnTrack(s, i, depth, arg, args) && u == Unit(s[i..]) && next == i + DecodeRune(s[i..]).size
    ensures u == CLOSING && depth == 1 ==> ParseOf(s) == Parsed(args + [Trimmed(arg)], i + 1)
    ensures u == CLOSING && depth > 1 ==> OnTrack(s, next, depth - 1, arg + [u], args)
    ensures u == SEPARATOR && depth == 1 ==> OnTrack(s, next, depth, [], args + [Trimmed(arg)])
    ensures u == OPENING ==> OnTrack(s, next, depth + 1, arg + [u], args)
    ensures u != OPENING && u != CLOSING && !(u == SEPARATOR && depth == 1) ==> OnTrack(s, next, depth, arg + [u], args)
  {
    NextRune(s, i, u, next);
    FinishStep(Units(s[i..]), u, Units(s[next..]), depth, arg, args, i, next);
  }

  lemma NeverClosed(s: GoString, depth: int, arg: Runes, args: seq<GoString>)
    requires OnTrack(s, |s|, depth, arg, args)
    ensures ParseOf(s) == Parsed([], -1)
  {
  }

  method ParseArgs(argString: GoString) returns (args: seq<GoString>, length: int)
    ensures Parsed(args, length) == ParseOf(argString)
    ensures length > 0 ==> IsList(argString, args, length)
    ensures length <= 0 ==> args == []
  {
    ListRead(argString);
    if argString == [] || argString[0] != 0x28 {
      return [], 0;
    }
    args := [];
    var depth, arg: Runes, i := 0, [], 0;
    while i < |argString|
      invariant 0 <= i <= |argString| && (i == 0 <==> depth == 0) && depth >= 0
      invariant i == 0 ==> arg == [] && args == []
      invariant i > 0 ==> OnTrack(argString, i, depth, arg, args)
    {
      var r, next := Unit(argString[i..]), i + DecodeRune(argString[i..]).size;
      if i > 0 { Track(argString, i, depth, arg, args, r, next); } else { FirstBracket(argString); }
      if r == OPENING {
        depth := depth + 1;
        if depth == 1 {
          i := next;
          continue;
        }
      } else if r == CLOSING {
        depth := depth - 1;
        if depth == 0 {
          args := args + [Trimmed(arg)];
          return args, i + 1;
        }
      } else if r == SEPARATOR && depth == 1 {
        args := args + [Trimmed(arg)];
        arg := [];
        i := next;
        continue;
      }
      arg := arg + [r];
      i := next;
    }
    NeverClosed(argString, depth, arg, args);
    return [], -1;
  }

  lemma FirstBracket(s: GoString)
    requires s != [] && s[0] == 0x28
    ensures Unit(s[0..]) == OPENING && DecodeRune(s[0..]).size == 1
    ensures OnTrack(s, 1, 1, [], [])
  {
    assert s[0..] == s;
    BracketUnit(s);
    var us := Units(s);
    var r := Pieces(us[1..], 1, []);
    if r.Some? {
      BytesCons(us, 1 + r.value.count);
      assert [] + TrimAll(r.value.pieces) == TrimAll(r.value.pieces);
    }
  }

  // ----- brackets -----

  /** Depth after `p`, started `d` deep; -1 once the list would be closed or split. */
  function Level(p: Runes, d: nat): int
    requires d >= 1
    decreases |p|
  {
    if p == [] then d
    else if d == 1 && (p[0] == CLOSING || p[0] == SEPARATOR) then -1
    else Level(p[1..], if p[0] == OPENING then d + 1 else if p[0] == CLOSING then d - 1 else d)
  }

  /** Bracket-balanced, without a comma outside inner brackets. */
  predicate Proper(p: Runes) { Level(p, 1) == 1 }

  /** The pieces with separators between them. */
  function Join(ps: seq<Runes>): Runes
    requires ps != []
  {
    if |ps| == 1 then ps[0] else ps[0] + [SEPARATOR] + Join(ps[1..])
  }

  lemma {:induction false} LevelSnoc(p: Runes, d: nat, u: GoString)
    requires d >= 1 && Level(p, d) >= 1
    ensures Level(p + [u], d) == Level([u], Level(p, d))
    decreases |p|
  {
    if p == [] {
      assert p + [u] == [u];
    } else {
      assert (p + [u])[0] == p[0] && (p + [u])[1..] == p[1..] + [u];
      LevelSnoc(p[1..], if p[0] == OPENING then d + 1 else if p[0] == CLOSING then d - 1 else d, u);
    }
  }

  lemma LevelOne(u: GoString, d: nat)
    requires d >= 1
    ensures Level([u], d)
         == if d == 1 && (u == CLOSING || u == SEPARATOR) then -1
            else if u == OPENING then d + 1 else if u == CLOSING then d - 1 else d
  {
  }

  lemma Regrouped(a: Runes, u: GoString, b: Runes)
    ensures a + [u] + b == a + ([u] + b)
  {
  }

  lemma Regrouped3(a: Runes, b: Runes, c: Runes, d: Runes)
    ensures a + b + c + d == a + (b + c + d)
  {
  }

  lemma TakeCons(us: Runes, n: nat)
    requires 1 <= n <= |us|
    ensures us[..n] == [us[0]] + us[1..][..n - 1]
  {
  }

  lemma JoinCons(p: Runes, ps: seq<Runes>)
    requires ps != []
    ensures Join([p] + ps) + [CLOSING] == p + ([SEPARATOR] + (Join(ps) + [CLOSING]))
  {
    assert ([p] + ps)[1..] == ps;
    Regrouped3(p, [SEPARATOR], Join(ps), [CLOSING]);
    assert [SEPARATOR] + Join(ps) + [CLOSING] == [SEPARATOR] + (Join(ps) + [CLOSING]);
  }

  lemma NothingBefore(us: Runes)
    ensures [] + us == us
  {
  }

  /** Printing the pieces gives back what was read: they split it at its top-level commas, and each is proper. */
  lemma {:induction false} PiecesPrintBack(us: Runes, depth: nat, piece: Runes)
    requires depth >= 1 && Level(piece, 1) == depth && Pieces(us, depth, piece).Some?
    ensures var f := Pieces(us, depth, piece).value;
            && Join(f.pieces) + [CLOSING] == piece + us[..f.count]
            && (forall i :: 0 <= i < |f.pieces| ==> Proper(f.pieces[i]))
    decreases |us|
  {
    var u, f := us[0], Pieces(us, depth, piece).value;
    LevelSnoc(piece, 1, u);
    LevelOne(u, depth);
    TakeCons(us, f.count);
    if u == CLOSING && depth == 1 {
      assert us[..1] == [u];
    } else if u == SEPARATOR && depth == 1 {
      PiecesPrintBack(us[1..], 1, []);
      var g := Pieces(us[1..], 1, []).value;
      JoinCons(piece, g.pieces);
      NothingBefore(us[1..][..g.count]);
    } else {
      var d := if u == OPENING then depth + 1 else if u == CLOSING then depth - 1 else depth;
      PiecesPrintBack(us[1..], d, piece + [u]);
      Regrouped(piece, u, us[1..][..f.count - 1]);
    }
  }

  /** Reading past text that stays inside the list. */
  lemma {:induction false} PiecesSkip(p: Runes, depth: nat, rest: Runes, piece: Runes)
    requires depth >= 1 && Level(p, depth) >= 1
    ensures var r := Pieces(rest, Level(p, depth), piece + p);
            Pieces(p + rest, depth, piece) == if r.Some? then Some(Found(r.value.pieces, |p| + r.value.count)) else None
    decreases |p|
  {
    if p == [] {
      assert p + rest == rest && piece + p == piece;
    } else {
      assert (p + rest)[0] == p[0] && (p + rest)[1..] == p[1..] + rest;
      var d := if p[0] == OPENING then depth + 1 else if p[0] == CLOSING then depth - 1 else depth;
      PiecesSkip(p[1..], d, rest, piece + [p[0]]);
      Regrouped(piece, p[0], p[1..]);
      assert [p[0]] + p[1..] == p;
    }
  }

  lemma JoinMore(ps: seq<Runes>, rest: Runes)
    requires |ps| > 1
    ensures Join(ps) + [CLOSING] + rest == ps[0] + ([SEPARATOR] + (Join(ps[1..]) + [CLOSING] + rest))
    ensures ([SEPARATOR] + (Join(ps[1..]) + [CLOSING] + rest))[1..] == Join(ps[1..]) + [CLOSING] + rest
    ensures ps == [ps[0]] + ps[1..] && |Join(ps)| == |ps[0]| + 1 + |Join(ps[1..])|
  {
  }

  lemma ProperSkip(p: Runes, rest: Runes)
    requires Proper(p)
    ensures var r := Pieces(rest, 1, p);
            Pieces(p + rest, 1, []) == if r.Some? then Some(Found(r.value.pieces, |p| + r.value.count)) else None
  {
    NothingBefore(p);
    PiecesSkip(p, 1, rest, []);
  }

  lemma AtSeparator(tail: Runes, piece: Runes)
    requires tail != [] && tail[0] == SEPARATOR
    ensures var r := Pieces(tail[1..], 1, []);
            Pieces(tail, 1, piece) == if r.Some? then Some(Found([piece] + r.value.pieces, 1 + r.value.count)) else None
  {
  }

  /** The piece before a separator, and then the rest of the list. */
  lemma PieceThenMore(p: Runes, tail: Runes)
    requires Proper(p) && tail != [] && tail[0] == SEPARATOR
    ensures var r := Pieces(tail[1..], 1, []);
            Pieces(p + tail, 1, [])
            == if r.Some? then Some(Found([p] + r.value.pieces, |p| + (1 + r.value.count))) else None
  {
    AtSeparator(tail, p);
    ProperSkip(p, tail);
  }

  lemma LastPiece(p: Runes, rest: Runes)
    requires Proper(p)
    ensures Pieces(p + [CLOSING] + rest, 1, []) == Some(Found([p], |p| + 1))
  {
    ProperSkip(p, [CLOSING] + rest);
    Regrouped(p, CLOSING, rest);
  }

  /** Reading back what was printed, whatever follows it. */
  lemma {:induction false} PrintedReadsBack(ps: seq<Runes>, rest: Runes)
    requires ps != [] && forall i :: 0 <= i < |ps| ==> Proper(ps[i])
    ensures Pieces(Join(ps) + [CLOSING] + rest, 1, []) == Some(Found(ps, |Join(ps)| + 1))
    decreases |ps|
  {
    assert Proper(ps[0]);
    if |ps| == 1 {
      LastPiece(ps[0], rest);
      assert ps == [ps[0]];
    } else {
      PrintedReadsBack(ps[1..], rest);
      JoinMore(ps, rest);
      PieceThenMore(ps[0], [SEPARATOR] + (Join(ps[1..]) + [CLOSING] + rest));
    }
  }

  // ----- where the list closes -----

  /** Opening minus closing brackets. */
  function Balance(us: Runes): int {
    if us == [] then 0
    else (if us[0] == OPENING then 1 else if us[0] == CLOSING then -1 else 0) + Balance(us[1..])
  }

  /** The list ends at the first point where its brackets balance; there is none exactly when it is never closed. */
  lemma {:induction false} ClosesFirst(us: Runes, depth: nat, piece: Runes)
    requires depth >= 1
    ensures var r := Pieces(us, depth, piece);
            && (r.Some? ==> depth + Balance(us[..r.value.count]) == 0)
            && (forall n :: 0 <= n <= |us| && (r.Some? ==> n < r.value.count) ==> depth + Balance(us[..n]) > 0)
    decreases |us|
  {
    if us != [] {
      var u, r := us[0], Pieces(us, depth, piece);
      var d := if u == OPENING then depth + 1 else if u == CLOSING then depth - 1 else depth;
      forall n | 1 <= n <= |us| ensures Balance(us[..n]) == d - depth + Balance(us[1..][..n - 1]) {
        assert us[..n][0] == u && us[..n][1..] == us[1..][..n - 1];
      }
      if u == CLOSING && depth == 1 {
        assert us[1..][..0] == [];
      } else {
        ClosesFirst(us[1..], d, if u == SEPARATOR && depth == 1 then [] else piece + [u]);
        forall n | 0 <= n <= |us| && (r.Some? ==> n < r.value.count) ensures depth + Balance(us[..n]) > 0 {
          if n > 0 { assert depth + Balance(us[..n]) == d + Balance(us[1..][..n - 1]); }
        }
      }
    }
  }

  // ----- from runes back to bytes -----

  lemma {:induction false} BytesOfUnits(s: GoString)
    ensures Bytes(Units(s)) == |s|
    decreases |s|
  {
    if s != [] {
      BracketUnit(s);
      BytesOfUnits(Rest(s));
    }
  }

  // ----- the printed list -----

  /** An argument as the parser returns one: trimmed, balanced, no comma outside brackets. */
  predicate Argument(a: GoString) {
    var us := Units(a);
    ValidUtf8(a) && Proper(us) && (us != [] ==> !IsSpace(us[0]) && !IsSpace(us[|us| - 1]))
  }

  function JoinText(args: seq<GoString>): GoString
    requires args != []
  {
    if |args| == 1 then args[0] else args[0] + SEPARATOR + JoinText(args[1..])
  }

  function AllUnits(args: seq<GoString>): (ps: seq<Runes>)
    ensures |ps| == |args| && forall i :: 0 <= i < |ps| ==> ps[i] == Units(args[i])
  {
    seq(|args|, i requires 0 <= i < |args| => Units(args[i]))
  }

  lemma OneByteUnits(b: byte)
    requires b < 0x80
    ensures Units([b]) == [[b]] && ValidUtf8([b])
  {
    assert Rest([b]) == [] && Unit([b]) == [b];
    assert Units([b]) == [[b]] + Units([]);
  }

  lemma {:induction false} JoinUnits(args: seq<GoString>)
    requires args != [] && forall i :: 0 <= i < |args| ==> ValidUtf8(args[i])
    ensures ValidUtf8(JoinText(args)) && Units(JoinText(args)) == Join(AllUnits(args))
    decreases |args|
  {
    if |args| > 1 {
      JoinUnits(args[1..]);
      OneByteUnits(0x2C);
      var a, rest := args[0], JoinText(args[1..]);
      ValidConcat(a, SEPARATOR);
      ValidConcat(a + SEPARATOR, rest);
      UnitsConcat(a, SEPARATOR);
      UnitsConcat(a + SEPARATOR, rest);
      assert AllUnits(args)[1..] == AllUnits(args[1..]);
    }
  }

  lemma TrimsToItself(a: GoString)
    requires Argument(a)
    ensures Trimmed(Units(a)) == a
  {
    DecodedExact(a);
  }

  lemma AllTrimToThemselves(args: seq<GoString>)
    requires forall i :: 0 <= i < |args| ==> Argument(args[i])
    ensures TrimAll(AllUnits(args)) == args
  {
    forall i | 0 <= i < |args| ensures TrimAll(AllUnits(args))[i] == args[i] { TrimsToItself(args[i]); }
  }

  lemma ListUnits(inner: GoString, rest: GoString)
    requires ValidUtf8(inner)
    ensures Units(OPENING + inner + CLOSING + rest) == [OPENING] + (Units(inner) + [CLOSING] + Units(rest))
    ensures ValidUtf8(OPENING + inner + CLOSING) && Units(OPENING + inner + CLOSING) == [OPENING] + Units(inner) + [CLOSING]
  {
    OneByteUnits(0x28);
    OneByteUnits(0x29);
    ValidConcat(OPENING, inner);
    ValidConcat(OPENING + inner, CLOSING);
    UnitsConcat(OPENING, inner);
    UnitsConcat(OPENING + inner, CLOSING);
    UnitsConcat(OPENING + inner + CLOSING, rest);
    Regrouped3([OPENING], Units(inner), [CLOSING], Units(rest));
  }

  /** Printing arguments and parsing them, whatever text follows, gives back the list and its exact length. */
  lemma ParsePrinted(args: seq<GoString>, rest: GoString)
    requires args != [] && forall i :: 0 <= i < |args| ==> Argument(args[i])
    ensures var text := OPENING + JoinText(args) + CLOSING;
            ParseOf(text + rest) == Parsed(args, |text|)
  {
    JoinUnits(args);
    var inner, ps := JoinText(args), AllUnits(args);
    ListUnits(inner, rest);
    PrintedReadsBack(ps, Units(rest));
    var text := OPENING + inner + CLOSING;
    var us := Units(text + rest);
    assert us[1..] == Join(ps) + [CLOSING] + Units(rest);
    assert us[..1 + (|Join(ps)| + 1)] == Units(text);
    BytesOfUnits(text);
    AllTrimToThemselves(args);
    assert (text + rest)[0] == 0x28;
  }

  // ----- what the arguments are -----

  predicate Spaces(us: Runes) { forall i :: 0 <= i < |us| ==> IsSpace(us[i]) }

  /** White space around what is left: all of it, and nothing else. */
  predicate TrimsAs(p: Runes, before: Runes, kept: Runes, after: Runes) {
    && p == before + kept + after && Spaces(before) && Spaces(after)
    && (kept == [] || (!IsSpace(kept[0]) && !IsSpace(kept[|kept| - 1])))
  }

  /** `arg` is the text of the piece without the white space around it. */
  ghost predicate TrimsTo(p: Runes, arg: GoString) {
    exists before, kept, after :: TrimsAs(p, before, kept, after) && arg == TextOf(kept)
  }

  /** The list begins `s` and is `length` bytes long: these pieces between brackets, with commas between them. */
  predicate Lists(s: GoString, ps: seq<Runes>, length: int) {
    && ps != [] && (forall i :: 0 <= i < |ps| ==> Proper(ps[i]))
    && [[0x28]] + Join(ps) + [[0x29]] <= Units(s) && length == Bytes([[0x28]] + Join(ps) + [[0x29]])
  }

  /** `args` are the trimmed pieces of the list at the beginning of `s`. */
  ghost predicate IsList(s: GoString, args: seq<GoString>, length: int) {
    exists ps :: Lists(s, ps, length) && |args| == |ps| && forall i :: 0 <= i < |ps| ==> TrimsTo(ps[i], args[i])
  }

  lemma {:induction false} LeftTrimmed(us: Runes) returns (before: Runes)
    ensures us == before + TrimLeft(us) && Spaces(before)
    decreases |us|
  {
    before := [];
    if us != [] && IsSpace(us[0]) {
      var more := LeftTrimmed(us[1..]);
      before := [us[0]] + more;
      assert us == [us[0]] + us[1..];
    }
  }

  lemma LastMoved(init: Runes, x: GoString, kept: Runes, more: Runes)
    requires init == kept + more && Spaces(more) && IsSpace(x)
    ensures init + [x] == kept + (more + [x]) && Spaces(more + [x])
  {
  }

  lemma {:induction false} RightTrimmed(us: Runes) returns (after: Runes)
    ensures us == TrimRight(us) + after && Spaces(after)
    decreases |us|
  {
    after := [];
    if us != [] && IsSpace(us[|us| - 1]) {
      var more := RightTrimmed(us[..|us| - 1]);
      after := more + [us[|us| - 1]];
      LastMoved(us[..|us| - 1], us[|us| - 1], TrimRight(us[..|us| - 1]), more);
      assert us == us[..|us| - 1] + [us[|us| - 1]];
    }
  }

  lemma TrimmedExact(p: Runes)
    ensures TrimsTo(p, Trimmed(p))
  {
    var before := LeftTrimmed(p);
    var after := RightTrimmed(TrimLeft(p));
    var kept := TrimRight(TrimLeft(p));
    if kept != [] { assert kept[0] == TrimLeft(p)[0]; }
    assert TrimsAs(p, before, kept, after);
  }

  lemma PiecesAreList(us: Runes)
    requires us != [] && us[0] == OPENING && Pieces(us[1..], 1, []).Some?
    ensures var f := Pieces(us[1..], 1, []).value;
            && [[0x28]] + Join(f.pieces) + [[0x29]] == us[..1 + f.count]
            && (forall i :: 0 <= i < |f.pieces| ==> Proper(f.pieces[i]))
  {
    var f := Pieces(us[1..], 1, []).value;
    PiecesPrintBack(us[1..], 1, []);
    NothingBefore(us[1..][..f.count]);
    TakeCons(us, 1 + f.count);
  }

  /** What is read is the list, as far as it goes, and its trimmed pieces. */
  lemma ListRead(s: GoString)
    ensures ParseOf(s).length > 0 ==> IsList(s, ParseOf(s).args, ParseOf(s).length)
    ensures ParseOf(s).length <= 0 ==> ParseOf(s).args == []
  {
    if s != [] && s[0] == 0x28 {
      BracketUnit(s);
      var us := Units(s);
      var r := Pieces(us[1..], 1, []);
      if r.Some? {
        var ps := r.value.pieces;
        PiecesAreList(us);
        BytesPositive(us[..1 + r.value.count]);
        forall i | 0 <= i < |ps| ensures TrimsTo(ps[i], ParseOf(s).args[i]) { TrimmedExact(ps[i]); }
        assert Lists(s, ps, ParseOf(s).length);
      }
    }
  }

  /** unicode.IsSpace by code point. */
  lemma SpaceExact(u: GoString)
    requires u != [] && SequenceSize(u) == |u|
    ensures var c := DecodeRune(u).code;
            IsSpace(u) <==>
              0x09 <= c <= 0x0D || c == 0x20 || c == 0x85 || c == 0xA0 || c == 0x1680 || 0x2000 <= c <= 0x200A
              || c == 0x2028 || c == 0x2029 || c == 0x202F || c == 0x205F || c == 0x3000
  {
  }

  /** The bracketed part ends with rune `n`: the first point where the brackets balance. */
  predicate ClosesAt(us: Runes, n: nat) {
    1 <= n <= |us| && Balance(us[..n]) == 0 && forall m :: 1 <= m < n ==> Balance(us[..m]) > 0
  }

  lemma BalanceCons(us: Runes, n: nat)
    requires 1 <= n <= |us| && us[0] == OPENING
    ensures Balance(us[..n]) == 1 + Balance(us[1..][..n - 1])
  {
    assert us[..n][0] == us[0] && us[..n][1..] == us[1..][..n - 1];
  }

  lemma ListCloses(us: Runes)
    requires us != [] && us[0] == OPENING
    ensures var r := Pieces(us[1..], 1, []);
            && (r.Some? ==> ClosesAt(us, 1 + r.value.count))
            && (r.None? ==> forall n :: 1 <= n <= |us| ==> Balance(us[..n]) > 0)
  {
    var r := Pieces(us[1..], 1, []);
    ClosesFirst(us[1..], 1, []);
    forall n: nat | 1 <= n <= |us| && (r.Some? ==> n < 1 + r.value.count) ensures Balance(us[..n]) > 0 {
      BalanceCons(us, n);
      assert 1 + Balance(us[1..][..n - 1]) > 0;
    }
    if r.Some? { BalanceCons(us, 1 + r.value.count); }
  }

  lemma BytesPositive(us: Runes)
    requires us != []
    ensures Bytes(us) > 0
  {
  }

  /** The length: 0 without an opening bracket, -1 when it is never closed, else that of the shortest balanced prefix. */
  lemma LengthExact(s: GoString)
    ensures ParseOf(s).length == 0 <==> s == [] || s[0] != 0x28
    ensures ParseOf(s).length == -1 <==>
              s != [] && s[0] == 0x28 && forall n :: 1 <= n <= |Units(s)| ==> Balance(Units(s)[..n]) > 0
    ensures ParseOf(s).length > 0 ==>
              exists n: nat :: ClosesAt(Units(s), n) && ParseOf(s).length == Bytes(Units(s)[..n])
  {
    if s != [] && s[0] == 0x28 {
      BracketUnit(s);
      var us := Units(s);
      ListCloses(us);
      var r := Pieces(us[1..], 1, []);
      if r.Some? {
        assert ClosesAt(us, 1 + r.value.count);
        BytesPositive(us[..1 + r.value.count]);
      }
    }
  }
}
