/** data/frame_json.go: a frame's data split over three side channels (values, entities, nanos) and put together
    again. JSON is a tree of tokens here; finite numbers are carried as they are, strings as JSON text keeps them. */
module FrameJson {
  import opened GoText
  import opened GoInts
  import opened Outcomes

  // ----- columns -----

  datatype Float = NaN | PosInf | NegInf | Finite(code: int)

  /** `bits` and `signed` are the width of an integer column; an enum is a uint16. */
  datatype Kind = TimeKind | FloatKind(bits: nat) | IntKind(bits: nat, signed: bool) | EnumKind | BoolKind | StringKind

  datatype ColType = ColType(kind: Kind, nullable: bool)

  /** A time is its nanoseconds since 1970. */
  datatype Datum = Time(ns: int) | Real(f: Float) | Whole(n: int) | Flag(b: bool) | Text(s: GoString)

  /** An element of a vector: null in a nullable one, or a value. */
  datatype Cell = Null | Val(d: Datum)

  datatype Column = Column(ctype: ColType, cells: seq<Cell>)

  type Frame = seq<Column>

  /** The Go types: int8 to int64, uint8 to uint64. */
  predicate KindOk(k: Kind) { k.IntKind? ==> k.bits in {8, 16, 32, 64} }

  predicate InWidth(n: int, bits: nat, signed: bool) {
    if bits == 8 then if signed then -0x80 <= n < 0x80 else 0 <= n < 0x100
    else if bits == 16 then if signed then -0x8000 <= n < 0x8000 else 0 <= n < 0x1_0000
    else if bits == 32 then if signed then -0x8000_0000 <= n < 0x8000_0000 else 0 <= n < 0x1_0000_0000
    else if signed then Int64(n) else 0 <= n < 0x1_0000_0000_0000_0000
  }

  predicate HasKind(d: Datum, k: Kind) {
    match k
    case TimeKind => d.Time? && Int64(FloorMs(d.ns))
    case FloatKind(_) => d.Real?
    case IntKind(bits, signed) => d.Whole? && InWidth(d.n, bits, signed)
    case EnumKind => d.Whole? && InWidth(d.n, 16, false)
    case BoolKind => d.Flag?
    case StringKind => d.Text?
  }

  predicate CellOk(c: Cell, t: ColType) { if c.Null? then t.nullable else HasKind(c.d, t.kind) }

  predicate ColumnOk(col: Column) {
    KindOk(col.ctype.kind) && forall i :: 0 <= i < |col.cells| ==> CellOk(col.cells[i], col.ctype)
  }

  predicate FrameOk(f: Frame) {
    forall j :: 0 <= j < |f| ==> ColumnOk(f[j]) && |f[j].cells| == |f[0].cells|
  }

  /** The Go zero value; time.Time{} is midnight, 1 January of year 1. */
  function ZeroDatum(k: Kind): Datum {
    match k
    case TimeKind => Time(-62135596800 * 1000000000)
    case FloatKind(_) => Real(Finite(0))
    case IntKind(_, _) => Whole(0)
    case EnumKind => Whole(0)
    case BoolKind => Flag(false)
    case StringKind => Text([])
  }

  function Blank(t: ColType): Cell { if t.nullable then Null else Val(ZeroDatum(t.kind)) }

  // ----- the document -----

  /** `Num` is a number written from an integer, `Dec` one written from a float; `Str` is what a string token reads as. */
  datatype Token = Nil | Num(n: int) | Dec(code: int) | Bool(b: bool) | Str(s: GoString)

  /** fieldEntityLookup. */
  datatype Marks = Marks(nan: seq<nat>, inf: seq<nat>, negInf: seq<nat>)

  /** The data object; `entities` and `nanos` are left out when no column needs them. */
  datatype Doc = Doc(values: seq<seq<Token>>, entities: Option<seq<Option<Marks>>>, nanos: Option<seq<Option<seq<int>>>>)

  // ----- time.Time -----

  const MS := 1000000

  /** UnixMilli rounds down. */
  function FloorMs(ns: int): int { ns / MS }

  /** The rest, by Truncate and Sub: never negative. */
  function RestNs(ns: int): int { ns % MS }

  // ----- writing -----

  predicate Special(d: Datum) { d.Real? && !d.f.Finite? }

  function TokenOf(c: Cell): Token {
    if c.Null? then Nil
    else
      match c.d
      case Time(ns) => Num(FloorMs(ns))
      case Real(f) => if f.Finite? then Dec(f.code) else Nil
      case Whole(n) => Num(n)
      case Flag(b) => Bool(b)
      case Text(s) => Str(Decoded(s))
  }

  function Tokens(cells: seq<Cell>): (ts: seq<Token>)
    ensures |ts| == |cells| && forall i :: 0 <= i < |ts| ==> ts[i] == TokenOf(cells[i])
  {
    seq(|cells|, i requires 0 <= i < |cells| => TokenOf(cells[i]))
  }

  /** The first `n` rows that hold `d`, in order. */
  function RowsOf(cells: seq<Cell>, d: Datum, n: nat): (rows: seq<nat>)
    requires n <= |cells|
  {
    if n == 0 then [] else RowsOf(cells, d, n - 1) + if cells[n - 1] == Val(d) then [n - 1] else []
  }

  function MarksUpTo(cells: seq<Cell>, n: nat): Marks
    requires n <= |cells|
  {
    Marks(RowsOf(cells, Real(NaN), n), RowsOf(cells, Real(PosInf), n), RowsOf(cells, Real(NegInf), n))
  }

  const NO_MARKS := Marks([], [], [])

  function EntityOf(cells: seq<Cell>): Option<Marks> {
    var m := MarksUpTo(cells, |cells|);
    if m == NO_MARKS then None else Some(m)
  }

  function Rest(c: Cell): int { if c.Val? && c.d.Time? then RestNs(c.d.ns) else 0 }

  function Rests(cells: seq<Cell>): (ns: seq<int>)
    ensures |ns| == |cells| && forall i :: 0 <= i < |ns| ==> ns[i] == Rest(cells[i])
  {
    seq(|cells|, i requires 0 <= i < |cells| => Rest(cells[i]))
  }

  function NanosOf(cells: seq<Cell>): Option<seq<int>> {
    if exists i :: 0 <= i < |cells| && Rest(cells[i]) != 0 then Some(Rests(cells)) else None
  }

  /** What writing the first `n` columns leaves in the three channels. */
  function ValuesUpTo(f: Frame, n: nat): (vs: seq<seq<Token>>)
    requires n <= |f|
    ensures |vs| == n && forall j :: 0 <= j < n ==> vs[j] == Tokens(f[j].cells)
  {
    seq(n, j requires 0 <= j < n => Tokens(f[j].cells))
  }

  function EntitiesUpTo(f: Frame, n: nat): (es: seq<Option<Marks>>)
    requires n <= |f|
    ensures |es| == n && forall j :: 0 <= j < n ==> es[j] == EntityOf(f[j].cells)
  {
    seq(n, j requires 0 <= j < n => EntityOf(f[j].cells))
  }

  function NanosUpTo(f: Frame, n: nat): (ns: seq<Option<seq<int>>>)
    requires n <= |f|
    ensures |ns| == n && forall j :: 0 <= j < n ==> ns[j] == NanosOf(f[j].cells)
  {
    seq(n, j requires 0 <= j < n => NanosOf(f[j].cells))
  }

  predicate AnyOf<T>(xs: seq<Option<T>>) { exists j :: 0 <= j < |xs| && xs[j].Some? }

  function DocOf(f: Frame): Doc {
    var entities, nanos := EntitiesUpTo(f, |f|), NanosUpTo(f, |f|);
    Doc(ValuesUpTo(f, |f|), if AnyOf(entities) then Some(entities) else None, if AnyOf(nanos) then Some(nanos) else None)
  }

  /** The first `i` cells have been written. */
  predicate Written(cells: seq<Cell>, i: nat, tokens: seq<Token>, nsTime: seq<int>, hasNSTime: bool) {
    && |tokens| == i <= |cells| == |nsTime|
    && (forall k :: 0 <= k < i ==> tokens[k] == TokenOf(cells[k]) && nsTime[k] == Rest(cells[k]))
    && (forall k :: i <= k < |cells| ==> nsTime[k] == 0)
    && (hasNSTime <==> exists k :: 0 <= k < i && Rest(cells[k]) != 0)
  }

  lemma WrittenNext(cells: seq<Cell>, i: nat, tokens: seq<Token>, nsTime: seq<int>, hasNSTime: bool)
    requires i < |cells| && Written(cells, i, tokens, nsTime, hasNSTime)
    ensures var rest := Rest(cells[i]);
            Written(cells, i + 1, tokens + [TokenOf(cells[i])], nsTime[i := rest], hasNSTime || rest != 0)
    ensures Rest(cells[i]) == 0 ==> nsTime[i := 0] == nsTime
  {
  }

  lemma AllWritten(cells: seq<Cell>, tokens: seq<Token>, nsTime: seq<int>, hasNSTime: bool)
    requires Written(cells, |cells|, tokens, nsTime, hasNSTime)
    ensures tokens == Tokens(cells) && nsTime == Rests(cells) && (hasNSTime <==> NanosOf(cells).Some?)
  {
  }

  /** One column of writeDataFrameData's loop. */
  method WriteColumn(col: Column, rowCount: nat)
    returns (tokens: seq<Token>, entities: Option<Marks>, nsTime: seq<int>, hasNSTime: bool)
    requires rowCount == |col.cells|
    ensures tokens == Tokens(col.cells) && entities == EntityOf(col.cells)
    ensures nsTime == Rests(col.cells) && (hasNSTime <==> NanosOf(col.cells).Some?)
  {
    var cells := col.cells;
    tokens, entities, hasNSTime := [], None, false;
    nsTime := seq(rowCount, _ => 0);
    ghost var marks := NO_MARKS;
    for i := 0 to rowCount
      invariant Written(cells, i, tokens, nsTime, hasNSTime)
      invariant marks == MarksUpTo(cells, i) && entities == if marks == NO_MARKS then None else Some(marks)
    {
      WrittenNext(cells, i, tokens, nsTime, hasNSTime);
      MarksStep(cells, i);
      marks := MarksUpTo(cells, i + 1);
      var token := Nil;
      if cells[i].Val? {
        match cells[i].d
        case Time(ns) =>
          token := Num(FloorMs(ns));
          if RestNs(ns) != 0 {
            hasNSTime := true;
            nsTime := nsTime[i := RestNs(ns)];
          }
        case Real(f) =>
          if f.Finite? {
            token := Dec(f.code);
          } else {
            entities := Some(AddMark(if entities.Some? then entities.value else NO_MARKS, f, i));
          }
        case Whole(n) => token := Num(n);
        case Flag(b) => token := Bool(b);
        case Text(s) => token := Str(Decoded(s));
      }
      tokens := tokens + [token];
    }
    AllWritten(cells, tokens, nsTime, hasNSTime);
  }

  /** fieldEntityLookup.add. */
  function AddMark(m: Marks, f: Float, i: nat): Marks {
    match f
    case NaN => m.(nan := m.nan + [i])
    case PosInf => m.(inf := m.inf + [i])
    case NegInf => m.(negInf := m.negInf + [i])
    case Finite(_) => m
  }

  lemma MarksStep(cells: seq<Cell>, i: nat)
    requires i < |cells|
    ensures MarksUpTo(cells, i + 1)
         == if cells[i].Val? && cells[i].d.Real? then AddMark(MarksUpTo(cells, i), cells[i].d.f, i) else MarksUpTo(cells, i)
    ensures cells[i].Val? && Special(cells[i].d) ==> MarksUpTo(cells, i + 1) != NO_MARKS
  {
  }

  function MarkCount(m: Option<Marks>): nat {
    if m.None? then 0 else |m.value.nan| + |m.value.inf| + |m.value.negInf|
  }

  lemma MarksCounted(cells: seq<Cell>)
    ensures MarkCount(EntityOf(cells)) > 0 <==> EntityOf(cells).Some?
  {
  }

  lemma AnySnoc<T>(xs: seq<Option<T>>, x: Option<T>)
    ensures AnyOf(xs + [x]) <==> AnyOf(xs) || x.Some?
  {
    if AnyOf(xs) {
      var j :| 0 <= j < |xs| && xs[j].Some?;
      assert (xs + [x])[j].Some?;
    }
    if x.Some? { assert (xs + [x])[|xs|].Some?; }
  }

  lemma ColumnsSnoc(f: Frame, j: nat)
    requires j < |f|
    ensures ValuesUpTo(f, j + 1) == ValuesUpTo(f, j) + [Tokens(f[j].cells)]
    ensures EntitiesUpTo(f, j + 1) == EntitiesUpTo(f, j) + [EntityOf(f[j].cells)]
    ensures NanosUpTo(f, j + 1) == NanosUpTo(f, j) + [NanosOf(f[j].cells)]
  {
  }

  /** The loop over the columns; the counts say whether the channels are needed. */
  method WriteColumns(f: Frame, rowCount: nat)
    returns (values: seq<seq<Token>>, entities: seq<Option<Marks>>, nanos: seq<Option<seq<int>>>, entityCount: nat, nsCount: nat)
    requires forall k :: 0 <= k < |f| ==> |f[k].cells| == rowCount
    ensures values == ValuesUpTo(f, |f|) && entities == EntitiesUpTo(f, |f|) && nanos == NanosUpTo(f, |f|)
    ensures (entityCount > 0 <==> AnyOf(entities)) && (nsCount > 0 <==> AnyOf(nanos))
  {
    values, entities, nanos := [], [], [];
    entityCount, nsCount := 0, 0;
    for j := 0 to |f|
      invariant values == ValuesUpTo(f, j) && entities == EntitiesUpTo(f, j) && nanos == NanosUpTo(f, j)
      invariant (entityCount > 0 <==> AnyOf(entities)) && (nsCount > 0 <==> AnyOf(nanos))
    {
      var tokens, marks, nsTime, hasNSTime := WriteColumn(f[j], rowCount);
      MarksCounted(f[j].cells);
      NanosIf(f[j].cells, nsTime, hasNSTime);
      ColumnsSnoc(f, j);
      AnySnoc(entities, marks);
      AnySnoc(nanos, if hasNSTime then Some(nsTime) else None);
      values, entities, nanos := values + [tokens], entities + [marks], nanos + [if hasNSTime then Some(nsTime) else None];
      entityCount := entityCount + MarkCount(marks);
      if hasNSTime {
        nsCount := nsCount + 1;
      }
    }
  }

  lemma NanosIf(cells: seq<Cell>, nsTime: seq<int>, hasNSTime: bool)
    requires nsTime == Rests(cells) && (hasNSTime <==> NanosOf(cells).Some?)
    ensures (if hasNSTime then Some(nsTime) else None) == NanosOf(cells)
  {
  }

  /** writeDataFrameData; None stands for the error on ragged columns. */
  method WriteData(f: Frame) returns (doc: Option<Doc>)
    ensures doc.None? <==> exists j :: 0 <= j < |f| && |f[j].cells| != |f[0].cells|
    ensures doc.Some? ==> doc.value == DocOf(f) && DocSays(f, doc.value)
  {
    for j := 0 to |f|
      invariant forall k :: 0 <= k < j ==> |f[k].cells| == |f[0].cells|
    {
      if |f[j].cells| != |f[0].cells| {
        return None;
      }
    }
    var values, entities, nanos, entityCount, nsCount := WriteColumns(f, if f == [] then 0 else |f[0].cells|);
    DocIsSaid(f);
    doc := Some(Doc(values, if entityCount > 0 then Some(entities) else None, if nsCount > 0 then Some(nanos) else None));
  }

  // ----- decoding one value -----

  /** Conversion to a narrower integer type. */
  function Narrow(n: int, bits: nat, signed: bool): (w: int)
    requires bits in {8, 16, 32, 64}
    ensures InWidth(w, bits, signed) && (InWidth(n, bits, signed) ==> w == n)
  {
    var low := if bits == 8 then 0x80 else if bits == 16 then 0x8000 else if bits == 32 then 0x8000_0000 else 0x8000_0000_0000_0000;
    if signed then (n + low) % (2 * low) - low else n % (2 * low)
  }

  function TruncDiv(a: int, b: int): int
    requires b > 0
  {
    if a >= 0 then a / b else -((-a) / b)
  }

  /** time.Unix(ms/1000, (ms%1000)*1e6) with Go's division; the pair is a plain number of nanoseconds. */
  function ReadTime(ms: int): int {
    var sec := TruncDiv(ms, 1000);
    sec * 1000000000 + (ms - sec * 1000) * 1000000
  }

  lemma ReadTimeExact(ms: int)
    ensures ReadTime(ms) == ms * MS
  {
  }

  /** The conversions of Go's libraries that numbers and texts go through when they do not fit their column: `approx` is
      int64(float64(n)), `truncate` int64 of a float64, `toFloat` the float of a column's width nearest to an integer, the
      three parsers are strconv's, and `format` is fmt's %v. */
  datatype Libs = Libs(
    approx: int -> int,
    truncate: int -> int,
    toFloat: (nat, int) -> Float,
    parseInt: GoString -> Option<int>,
    parseUint: GoString -> Option<int>,
    parseFloat: (nat, GoString) -> Option<Float>,
    format: Token -> GoString)

  /** Reading a JSON number as a float64 and truncating it is exact up to 2^53. */
  ghost predicate ExactTo53(libs: Libs) {
    forall n {:trigger libs.approx(n)} :: -0x20_0000_0000_0000 <= n <= 0x20_0000_0000_0000 ==> libs.approx(n) == n
  }

  type Reading = Result<Datum, ReadError>

  function OrMalformed(d: Option<Datum>): Reading { if d.Some? then Ok(d.value) else Err(Malformed) }

  /** int64FromJSON. */
  function IntFromJson(libs: Libs, t: Token): Option<int> {
    match t
    case Num(n) => Some(libs.approx(n))
    case Dec(code) => Some(libs.truncate(code))
    case Str(s) => libs.parseInt(s)
    case _ => None
  }

  /** float64FromJSON, as a float of the column's width. */
  function FloatFromJson(libs: Libs, t: Token, bits: nat): Option<Float> {
    match t
    case Num(n) => Some(libs.toFloat(bits, n))
    case Dec(code) => Some(Finite(code))
    case Str(s) => libs.parseFloat(bits, s)
    case _ => None
  }

  /** The readers of 64-bit integers take no float64 on the way; the unsigned one also parses strings. */
  function Int64FromJson(libs: Libs, t: Token, signed: bool): Option<int> {
    match t
    case Num(n) => if InWidth(n, 64, signed) then Some(n) else None
    case Str(s) =>
      var n := libs.parseUint(s);
      if !signed && n.Some? && InWidth(n.value, 64, false) then n else None
    case _ => None
  }

  function TextFromJson(libs: Libs, t: Token): GoString { if t.Str? then t.s else libs.format(t) }

  /** The first column goes through []interface{}: its numbers are float64, except in 64-bit columns. A value that is no
      bool panics in a bool column. */
  function DecodeFirst(libs: Libs, t: Token, k: Kind): Reading
    requires KindOk(k)
  {
    match k
    case TimeKind =>
      if t.Num? then Ok(Time(Wrap64(libs.approx(t.n) * MS)))
      else if t.Dec? then Ok(Time(Wrap64(libs.truncate(t.code) * MS)))
      else Err(Malformed)
    case FloatKind(bits) =>
      var f := FloatFromJson(libs, t, bits);
      OrMalformed(if f.Some? then Some(Real(f.value)) else None)
    case IntKind(bits, signed) =>
      var n := if bits == 64 then Int64FromJson(libs, t, signed) else IntFromJson(libs, t);
      OrMalformed(if n.None? then None else Some(Whole(if bits == 64 then n.value else Narrow(n.value, bits, signed))))
    case EnumKind =>
      var n := IntFromJson(libs, t);
      OrMalformed(if n.None? then None else Some(Whole(Narrow(n.value, 16, false))))
    case BoolKind => if t.Bool? then Ok(Flag(t.b)) else Err(Panicked)
    case StringKind => Ok(Text(TextFromJson(libs, t)))
  }

  /** The other columns have a reader each, which rejects numbers that do not fit. */
  function DecodeOther(libs: Libs, t: Token, k: Kind): Option<Datum> {
    match k
    case TimeKind => if t.Num? && Int64(t.n) then Some(Time(ReadTime(t.n))) else None
    case FloatKind(bits) =>
      if t.Dec? then Some(Real(Finite(t.code))) else if t.Num? then Some(Real(libs.toFloat(bits, t.n))) else None
    case IntKind(bits, signed) => if t.Num? && InWidth(t.n, bits, signed) then Some(Whole(t.n)) else None
    case EnumKind => if t.Num? && InWidth(t.n, 16, false) then Some(Whole(t.n)) else None
    case BoolKind => if t.Bool? then Some(Flag(t.b)) else None
    case StringKind => if t.Str? then Some(Text(t.s)) else None
  }

  function Decode(libs: Libs, first: bool, t: Token, k: Kind): Reading
    requires KindOk(k)
  {
    if first then DecodeFirst(libs, t, k) else OrMalformed(DecodeOther(libs, t, k))
  }

  /** Null leaves the blank value, except that the first column's reader of signed 64-bit integers takes it only if they are
      nullable. */
  function NilRead(first: bool, t: ColType): Result<Cell, ReadError> {
    if first && t.kind == IntKind(64, true) && !t.nullable then Err(Malformed) else Ok(Blank(t))
  }

  /** One token of a column. */
  function ReadToken(libs: Libs, first: bool, t: Token, ct: ColType): Result<Cell, ReadError>
    requires KindOk(ct.kind)
  {
    if t.Nil? then NilRead(first, ct)
    else
      var d := Decode(libs, first, t, ct.kind);
      if d.Err? then Err(d.error) else Ok(Val(d.value))
  }

  /** What the first column makes of each kind of token: it converts numbers and parses texts where it can. */
  lemma FirstColumnTokens(libs: Libs, n: int, s: GoString, code: int, bits: nat, signed: bool, nullable: bool)
    requires bits in {8, 16, 32, 64}
    ensures ReadToken(libs, true, Num(n), ColType(FloatKind(bits), nullable)) == Ok(Val(Real(libs.toFloat(bits, n))))
    ensures ReadToken(libs, true, Str(s), ColType(FloatKind(bits), nullable))
         == if libs.parseFloat(bits, s).Some? then Ok(Val(Real(libs.parseFloat(bits, s).value))) else Err(Malformed)
    ensures ReadToken(libs, true, Dec(code), ColType(TimeKind, nullable)) == Ok(Val(Time(Wrap64(libs.truncate(code) * 1000000))))
    ensures ReadToken(libs, true, Str(s), ColType(TimeKind, nullable)) == Err(Malformed)
    ensures ReadToken(libs, true, Num(n), ColType(StringKind, nullable)) == Ok(Val(Text(libs.format(Num(n)))))
    ensures ReadToken(libs, true, Num(n), ColType(BoolKind, nullable)) == Err(Panicked)
    ensures ReadToken(libs, true, Dec(code), ColType(EnumKind, nullable)) == Ok(Val(Whole(libs.truncate(code) % 0x1_0000)))
    ensures ReadToken(libs, true, Nil, ColType(IntKind(64, true), false)) == Err(Malformed)
  {
  }

  /** Integers in the first column: those of 64 bits take numbers in range, and texts if unsigned. */
  lemma FirstColumnIntegers(libs: Libs, n: int, s: GoString, code: int, bits: nat, signed: bool, nullable: bool)
    requires bits in {8, 16, 32}
    ensures libs.parseInt(s).Some? ==>
              ReadToken(libs, true, Str(s), ColType(IntKind(bits, signed), nullable))
              == Ok(Val(Whole(Narrow(libs.parseInt(s).value, bits, signed))))
    ensures var r := ReadToken(libs, true, Dec(code), ColType(IntKind(bits, signed), nullable));
            r == Ok(Val(Whole(Narrow(libs.truncate(code), bits, signed))))
    ensures ReadToken(libs, true, Dec(code), ColType(IntKind(64, signed), nullable)) == Err(Malformed)
    ensures ReadToken(libs, true, Str(s), ColType(IntKind(64, true), nullable)) == Err(Malformed)
    ensures 0 <= n < 0x1_0000_0000_0000_0000 && libs.parseUint(s) == Some(n) ==>
              ReadToken(libs, true, Str(s), ColType(IntKind(64, false), nullable)) == Ok(Val(Whole(n)))
  {
  }

  /** What a later column makes of them: numbers that fit, and nothing of another kind. */
  lemma LaterColumnTokens(libs: Libs, n: int, s: GoString, code: int, bits: nat, signed: bool, nullable: bool)
    requires bits in {8, 16, 32, 64}
    ensures ReadToken(libs, false, Num(n), ColType(FloatKind(bits), nullable)) == Ok(Val(Real(libs.toFloat(bits, n))))
    ensures ReadToken(libs, false, Num(n), ColType(IntKind(bits, signed), nullable))
         == if InWidth(n, bits, signed) then Ok(Val(Whole(n))) else Err(Malformed)
    ensures ReadToken(libs, false, Num(n), ColType(TimeKind, nullable))
         == if -0x8000_0000_0000_0000 <= n < 0x8000_0000_0000_0000 then Ok(Val(Time(n * 1000000))) else Err(Malformed)
    ensures ReadToken(libs, false, Num(n), ColType(EnumKind, nullable))
         == if 0 <= n < 0x1_0000 then Ok(Val(Whole(n))) else Err(Malformed)
    ensures ReadToken(libs, false, Num(n), ColType(StringKind, nullable)) == Err(Malformed)
    ensures ReadToken(libs, false, Num(n), ColType(BoolKind, nullable)) == Err(Malformed)
    ensures ReadToken(libs, false, Str(s), ColType(IntKind(bits, signed), nullable)) == Err(Malformed)
    ensures ReadToken(libs, false, Dec(code), ColType(IntKind(bits, signed), nullable)) == Err(Malformed)
    ensures ReadToken(libs, false, Dec(code), ColType(TimeKind, nullable)) == Err(Malformed)
  {
  }

  /** Null tokens leave null, or the zero value in a column that cannot hold it. */
  lemma NullTokens(libs: Libs, bits: nat, signed: bool, nullable: bool)
    requires bits in {8, 16, 32, 64}
    ensures ReadToken(libs, false, Nil, ColType(IntKind(bits, signed), nullable)) == Ok(if nullable then Null else Val(Whole(0)))
    ensures ReadToken(libs, false, Nil, ColType(FloatKind(bits), nullable)) == Ok(if nullable then Null else Val(Real(Finite(0))))
    ensures ReadToken(libs, false, Nil, ColType(BoolKind, nullable)) == Ok(if nullable then Null else Val(Flag(false)))
    ensures ReadToken(libs, false, Nil, ColType(StringKind, nullable)) == Ok(if nullable then Null else Val(Text([])))
  {
  }

  // ----- reading -----

  datatype ReadError = Malformed | Panicked

  type Read = Result<Frame, ReadError>

  /** The cells of the first `n` tokens, or the first failure. */
  function DecodeUpTo(libs: Libs, first: bool, ts: seq<Token>, t: ColType, n: nat): (r: Result<seq<Cell>, ReadError>)
    requires n <= |ts| && KindOk(t.kind)
    ensures r.Ok? ==> |r.value| == n
  {
    if n == 0 then Ok([])
    else
      var before := DecodeUpTo(libs, first, ts, t, n - 1);
      if before.Err? then before
      else
        var c := ReadToken(libs, first, ts[n - 1], t);
        if c.Err? then Err(c.error) else Ok(before.value + [c.value])
  }

  method ReadVector(libs: Libs, first: bool, ts: seq<Token>, t: ColType) returns (cells: Result<seq<Cell>, ReadError>)
    requires KindOk(t.kind)
    ensures cells == DecodeUpTo(libs, first, ts, t, |ts|)
  {
    var arr: seq<Cell> := seq(|ts|, _ => Blank(t));
    for i := 0 to |ts|
      invariant |arr| == |ts| && DecodeUpTo(libs, first, ts, t, i) == Ok(arr[..i])
      invariant forall k :: i <= k < |arr| ==> arr[k] == Blank(t)
    {
      if !ts[i].Nil? {
        var d := Decode(libs, first, ts[i], t.kind);
        if d.Err? {
          DecodeFails(libs, first, ts, t, i + 1, |ts|);
          return Err(d.error);
        }
        arr := arr[i := Val(d.value)];
      } else if first && t.kind == IntKind(64, true) && !t.nullable {
        DecodeFails(libs, first, ts, t, i + 1, |ts|);
        return Err(Malformed);
      }
      assert arr[..i + 1] == arr[..i] + [arr[i]];
    }
    assert arr[..|ts|] == arr;
    cells := Ok(arr);
  }

  lemma {:induction false} DecodeFails(libs: Libs, first: bool, ts: seq<Token>, t: ColType, m: nat, n: nat)
    requires m <= n <= |ts| && KindOk(t.kind) && DecodeUpTo(libs, first, ts, t, m).Err?
    ensures DecodeUpTo(libs, first, ts, t, n) == DecodeUpTo(libs, first, ts, t, m)
    decreases n
  {
    if m < n { DecodeFails(libs, first, ts, t, m, n - 1); }
  }

  /** SetConcrete on each of the first `n` rows; None when a row does not exist. */
  function SetRows(cells: seq<Cell>, rows: seq<nat>, n: nat, c: Cell): (r: Option<seq<Cell>>)
    requires n <= |rows|
    ensures r.Some? ==> |r.value| == |cells|
  {
    if n == 0 then Some(cells)
    else
      var before := SetRows(cells, rows, n - 1, c);
      if before.None? || rows[n - 1] >= |cells| then None else Some(before.value[rows[n - 1] := c])
  }

  /** One column's entities; only float columns hold floats. */
  function SetMarks(col: Column, m: Marks): Option<Column> {
    if m == NO_MARKS then Some(col)
    else if !col.ctype.kind.FloatKind? then None
    else
      var a := SetRows(col.cells, m.nan, |m.nan|, Val(Real(NaN)));
      if a.None? then None
      else
        var b := SetRows(a.value, m.inf, |m.inf|, Val(Real(PosInf)));
        if b.None? then None
        else
          var c := SetRows(b.value, m.negInf, |m.negInf|, Val(Real(NegInf)));
          if c.None? then None else Some(col.(cells := c.value))
  }

  method SetEach(cells: seq<Cell>, rows: seq<nat>, c: Cell) returns (r: Option<seq<Cell>>)
    ensures r == SetRows(cells, rows, |rows|, c)
  {
    var now := cells;
    for i := 0 to |rows|
      invariant SetRows(cells, rows, i, c) == Some(now) && |now| == |cells|
    {
      if rows[i] >= |now| {
        SetRowsFails(cells, rows, i + 1, |rows|, c);
        return None;
      }
      now := now[rows[i] := c];
    }
    r := Some(now);
  }

  lemma {:induction false} SetRowsFails(cells: seq<Cell>, rows: seq<nat>, m: nat, n: nat, c: Cell)
    requires m <= n <= |rows| && SetRows(cells, rows, m, c).None?
    ensures SetRows(cells, rows, n, c).None?
    decreases n
  {
    if m < n { SetRowsFails(cells, rows, m, n - 1, c); }
  }

  /** Adding the first `n` nanosecond remainders: missing rows and values that are no time panic, nulls are skipped. */
  function AddNs(cells: seq<Cell>, ns: seq<int>, n: nat): (r: Option<seq<Cell>>)
    requires n <= |ns|
    ensures r.Some? ==> |r.value| == |cells| && forall i :: n <= i < |cells| ==> r.value[i] == cells[i]
  {
    if n == 0 then Some(cells)
    else
      var before := AddNs(cells, ns, n - 1);
      if before.None? || n - 1 >= |cells| then None
      else if cells[n - 1].Null? then before
      else if !cells[n - 1].d.Time? then None
      else Some(before.value[n - 1 := Val(Time(cells[n - 1].d.ns + ns[n - 1]))])
  }

  method AddEach(cells: seq<Cell>, ns: seq<int>) returns (r: Option<seq<Cell>>)
    ensures r == AddNs(cells, ns, |ns|)
  {
    var now := cells;
    for i := 0 to |ns|
      invariant AddNs(cells, ns, i) == Some(now)
    {
      if i >= |now| || (now[i].Val? && !now[i].d.Time?) {
        AddNsFails(cells, ns, i + 1, |ns|);
        return None;
      }
      if now[i].Val? {
        now := now[i := Val(Time(now[i].d.ns + ns[i]))];
      }
    }
    r := Some(now);
  }

  lemma {:induction false} AddNsFails(cells: seq<Cell>, ns: seq<int>, m: nat, n: nat)
    requires m <= n <= |ns| && AddNs(cells, ns, m).None?
    ensures AddNs(cells, ns, n).None?
    decreases n
  {
    if m < n { AddNsFails(cells, ns, m, n - 1); }
  }

  // ----- readFrameData -----

  function Types(f: Frame): (ts: seq<ColType>)
    ensures |ts| == |f| && forall j :: 0 <= j < |f| ==> ts[j] == f[j].ctype
  {
    seq(|f|, j requires 0 <= j < |f| => f[j].ctype)
  }

  function EmptyColumns(schema: seq<ColType>): (f: Frame)
    ensures |f| == |schema| && forall j :: 0 <= j < |f| ==> f[j] == Column(schema[j], [])
  {
    seq(|schema|, j requires 0 <= j < |schema| => Column(schema[j], []))
  }

  predicate SchemaOk(schema: seq<ColType>) { forall j :: 0 <= j < |schema| ==> KindOk(schema[j].kind) }

  /** After the first `n` arrays of "values"; every array has to be as long as the first. */
  function Valued(libs: Libs, schema: seq<ColType>, values: seq<seq<Token>>, n: nat): (r: Read)
    requires n <= |values| && SchemaOk(schema)
    ensures r.Ok? ==> |r.value| == |schema|
  {
    if n == 0 then Ok(EmptyColumns(schema))
    else
      var before := Valued(libs, schema, values, n - 1);
      if before.Err? then before
      else if schema == [] then Err(Malformed)
      else if n - 1 >= |schema| then Err(Panicked)
      else if |values[n - 1]| != |values[0]| then Err(Malformed)
      else
        var cells := DecodeUpTo(libs, n == 1, values[n - 1], schema[n - 1], |values[n - 1]|);
        if cells.Err? then Err(cells.error) else Ok(before.value[n - 1 := Column(schema[n - 1], cells.value)])
  }

  /** One element of "entities"; None stands for a panic. */
  function MarkOne(f: Frame, j: nat, e: Option<Marks>): (r: Option<Frame>)
    ensures r.Some? ==> |r.value| == |f|
  {
    if e.None? || e.value == NO_MARKS then Some(f)
    else if j >= |f| || SetMarks(f[j], e.value).None? then None
    else Some(f[j := SetMarks(f[j], e.value).value])
  }

  /** After the first `n` elements of "entities". */
  function Marked(f: Frame, es: seq<Option<Marks>>, n: nat): (r: Read)
    requires n <= |es|
    ensures r.Ok? ==> |r.value| == |f|
  {
    if n == 0 then Ok(f)
    else
      var before := Marked(f, es, n - 1);
      if before.Err? then before
      else
        var now := MarkOne(before.value, n - 1, es[n - 1]);
        if now.None? then Err(Panicked) else Ok(now.value)
  }

  /** After the first `n` elements of "nanos". */
  function Timed(f: Frame, ns: seq<Option<seq<int>>>, n: nat): (r: Read)
    requires n <= |ns|
    ensures r.Ok? ==> |r.value| == |f|
  {
    if n == 0 then Ok(f)
    else
      var before := Timed(f, ns, n - 1);
      if before.Err? then before
      else if n - 1 >= |f| then Err(Panicked)
      else if ns[n - 1].None? then before
      else
        var cells := AddNs(before.value[n - 1].cells, ns[n - 1].value, |ns[n - 1].value|);
        if cells.None? then Err(Panicked) else Ok(before.value[n - 1 := before.value[n - 1].(cells := cells.value)])
  }

  /** What reading a document into a frame with this schema gives, its channels in the order they are written. */
  function ReadOf(libs: Libs, schema: seq<ColType>, doc: Doc): Read
    requires SchemaOk(schema)
  {
    var a := Valued(libs, schema, doc.values, |doc.values|);
    var b := if a.Ok? && doc.entities.Some? then Marked(a.value, doc.entities.value, |doc.entities.value|) else a;
    if b.Ok? && doc.nanos.Some? then Timed(b.value, doc.nanos.value, |doc.nanos.value|) else b
  }

  lemma {:induction false} ErrStays(libs: Libs, schema: seq<ColType>, values: seq<seq<Token>>, m: nat, n: nat)
    requires m <= n <= |values| && SchemaOk(schema) && Valued(libs, schema, values, m).Err?
    ensures Valued(libs, schema, values, n) == Valued(libs, schema, values, m)
    decreases n
  {
    if m < n { ErrStays(libs, schema, values, m, n - 1); }
  }

  lemma {:induction false} MarkErrStays(f: Frame, es: seq<Option<Marks>>, m: nat, n: nat)
    requires m <= n <= |es| && Marked(f, es, m).Err?
    ensures Marked(f, es, n) == Marked(f, es, m)
    decreases n
  {
    if m < n { MarkErrStays(f, es, m, n - 1); }
  }

  lemma {:induction false} TimeErrStays(f: Frame, ns: seq<Option<seq<int>>>, m: nat, n: nat)
    requires m <= n <= |ns| && Timed(f, ns, m).Err?
    ensures Timed(f, ns, n) == Timed(f, ns, m)
    decreases n
  {
    if m < n { TimeErrStays(f, ns, m, n - 1); }
  }

  method ReadValues(libs: Libs, schema: seq<ColType>, values: seq<seq<Token>>) returns (r: Read)
    requires SchemaOk(schema)
    ensures r == Valued(libs, schema, values, |values|)
  {
    var f := EmptyColumns(schema);
    for j := 0 to |values|
      invariant Valued(libs, schema, values, j) == Ok(f)
    {
      if schema == [] || j >= |schema| || |values[j]| != |values[0]| {
        ErrStays(libs, schema, values, j + 1, |values|);
        return Err(if schema == [] then Malformed else if j >= |schema| then Panicked else Malformed);
      }
      var cells := ReadVector(libs, j == 0, values[j], schema[j]);
      if cells.Err? {
        ErrStays(libs, schema, values, j + 1, |values|);
        return Err(cells.error);
      }
      f := f[j := Column(schema[j], cells.value)];
    }
    r := Ok(f);
  }

  method MarkColumn(col: Column, m: Marks) returns (r: Option<Column>)
    ensures r == SetMarks(col, m)
  {
    if m == NO_MARKS {
      return Some(col);
    }
    if !col.ctype.kind.FloatKind? {
      return None;
    }
    var a := SetEach(col.cells, m.nan, Val(Real(NaN)));
    if a.None? {
      return None;
    }
    var b := SetEach(a.value, m.inf, Val(Real(PosInf)));
    if b.None? {
      return None;
    }
    var c := SetEach(b.value, m.negInf, Val(Real(NegInf)));
    if c.None? {
      return None;
    }
    r := Some(col.(cells := c.value));
  }

  method ReadEntities(f: Frame, es: seq<Option<Marks>>) returns (r: Read)
    ensures r == Marked(f, es, |es|)
  {
    var now := f;
    for j := 0 to |es|
      invariant Marked(f, es, j) == Ok(now) && |now| == |f|
    {
      if es[j].Some? && es[j].value != NO_MARKS {
        var col: Option<Column> := None;
        if j < |now| {
          col := MarkColumn(now[j], es[j].value);
        }
        if col.None? {
          MarkErrStays(f, es, j + 1, |es|);
          return Err(Panicked);
        }
        now := now[j := col.value];
      }
    }
    r := Ok(now);
  }

  method ReadNanos(f: Frame, ns: seq<Option<seq<int>>>) returns (r: Read)
    ensures r == Timed(f, ns, |ns|)
  {
    var now := f;
    for j := 0 to |ns|
      invariant Timed(f, ns, j) == Ok(now) && |now| == |f|
    {
      if j >= |now| {
        TimeErrStays(f, ns, j + 1, |ns|);
        return Err(Panicked);
      }
      if ns[j].Some? {
        var cells := AddEach(now[j].cells, ns[j].value);
        if cells.None? {
          TimeErrStays(f, ns, j + 1, |ns|);
          return Err(Panicked);
        }
        now := now[j := now[j].(cells := cells.value)];
      }
    }
    r := Ok(now);
  }

  /** readFrameData. */
  method ReadData(libs: Libs, schema: seq<ColType>, doc: Doc) returns (r: Read)
    requires SchemaOk(schema)
    ensures r == ReadOf(libs, schema, doc)
  {
    r := ReadValues(libs, schema, doc.values);
    if r.Ok? && doc.entities.Some? {
      r := ReadEntities(r.value, doc.entities.value);
    }
    if r.Ok? && doc.nanos.Some? {
      r := ReadNanos(r.value, doc.nanos.value);
    }
  }

  // ----- what a written document says -----

  /** A token that stands for this string: its runes, and U+FFFD for each malformed byte. */
  predicate KeepsText(s: GoString, t: GoString) {
    && |Units(t)| == |Units(s)|
    && (forall i :: 0 <= i < |Units(s)| ==> Units(t)[i] == if Units(s)[i] == [] then [0xEF, 0xBF, 0xBD] else Units(s)[i])
    && (ValidUtf8(s) ==> t == s)
  }

  /** One cell by its token and its nanoseconds. */
  predicate CellSays(c: Cell, t: Token, rest: int) {
    match c
    case Null => t.Nil? && rest == 0
    case Val(Time(ns)) => t.Num? && t.n * 1000000 + rest == ns && 0 <= rest < 1000000
    case Val(Real(Finite(code))) => t == Dec(code) && rest == 0
    case Val(Real(_)) => t.Nil? && rest == 0
    case Val(Whole(n)) => t == Num(n) && rest == 0
    case Val(Flag(b)) => t == Bool(b) && rest == 0
    case Val(Text(s)) => t.Str? && KeepsText(s, t.s) && rest == 0
  }

  /** The rows that hold `d`, in order. */
  ghost predicate AreRows(rows: seq<nat>, cells: seq<Cell>, d: Datum) {
    && (forall i, j :: 0 <= i < j < |rows| ==> rows[i] < rows[j])
    && (forall i: nat :: i in rows <==> i < |cells| && cells[i] == Val(d))
  }

  /** One column's entities: none when no cell is special, else the rows of each kind. */
  ghost predicate EntitySays(cells: seq<Cell>, e: Option<Marks>) {
    var m := if e.Some? then e.value else Marks([], [], []);
    && (e.Some? ==> m != Marks([], [], []))
    && AreRows(m.nan, cells, Real(NaN)) && AreRows(m.inf, cells, Real(PosInf)) && AreRows(m.negInf, cells, Real(NegInf))
  }

  /** One column's nanoseconds: none when every time is on a millisecond. */
  predicate ColumnSays(cells: seq<Cell>, tokens: seq<Token>, ns: Option<seq<int>>) {
    && |tokens| == |cells| && (ns.Some? ==> |ns.value| == |cells| && exists i :: 0 <= i < |cells| && ns.value[i] != 0)
    && forall i :: 0 <= i < |cells| ==> CellSays(cells[i], tokens[i], if ns.Some? then ns.value[i] else 0)
  }

  function ChannelAt<T>(channel: Option<seq<Option<T>>>, j: nat): Option<T> {
    if channel.Some? && j < |channel.value| then channel.value[j] else None
  }

  /** The document of a frame: a channel is there, with an element for every column, if some column needs it. */
  ghost predicate DocSays(f: Frame, doc: Doc) {
    && |doc.values| == |f| && (doc.entities.Some? ==> |doc.entities.value| == |f| && AnyOf(doc.entities.value))
    && (doc.nanos.Some? ==> |doc.nanos.value| == |f| && AnyOf(doc.nanos.value))
    && (forall j: nat {:trigger f[j]} :: j < |f| ==>
          EntitySays(f[j].cells, ChannelAt(doc.entities, j))
          && ColumnSays(f[j].cells, doc.values[j], ChannelAt(doc.nanos, j)))
  }

  lemma CellIsSaid(c: Cell)
    ensures CellSays(c, TokenOf(c), Rest(c))
  {
    if c.Val? && c.d.Text? {
      DecodedUnits(c.d.s);
      DecodedExact(c.d.s);
    }
    if c.Val? && c.d.Time? { RestIsNs(c.d.ns); }
  }

  lemma ColumnIsSaid(cells: seq<Cell>)
    ensures ColumnSays(cells, Tokens(cells), NanosOf(cells))
  {
    forall i | 0 <= i < |cells| ensures CellSays(cells[i], Tokens(cells)[i], if NanosOf(cells).Some? then Rests(cells)[i] else 0) {
      CellIsSaid(cells[i]);
      if NanosOf(cells).None? { assert Rest(cells[i]) == 0; }
    }
  }

  predicate Rising(rows: seq<nat>, n: nat) {
    && (forall i, j :: 0 <= i < j < |rows| ==> rows[i] < rows[j])
    && (forall i :: 0 <= i < |rows| ==> rows[i] < n)
  }

  lemma {:induction false} RowsIncrease(cells: seq<Cell>, d: Datum, n: nat)
    requires n <= |cells|
    ensures Rising(RowsOf(cells, d, n), n)
    decreases n
  {
    if n > 0 { RowsIncrease(cells, d, n - 1); }
  }

  lemma RowsAreRows(cells: seq<Cell>, d: Datum)
    ensures AreRows(RowsOf(cells, d, |cells|), cells, d)
  {
    RowsIncrease(cells, d, |cells|);
    RowsOfExact(cells, d, |cells|);
  }

  lemma EntityIsSaid(cells: seq<Cell>)
    ensures EntitySays(cells, EntityOf(cells))
  {
    RowsAreRows(cells, Real(NaN));
    RowsAreRows(cells, Real(PosInf));
    RowsAreRows(cells, Real(NegInf));
  }

  lemma DocIsSaid(f: Frame)
    ensures DocSays(f, DocOf(f))
  {
    var doc, entities, nanos := DocOf(f), EntitiesUpTo(f, |f|), NanosUpTo(f, |f|);
    forall j: nat | j < |f|
      ensures EntitySays(f[j].cells, ChannelAt(doc.entities, j))
      ensures ColumnSays(f[j].cells, doc.values[j], ChannelAt(doc.nanos, j))
    {
      EntityIsSaid(f[j].cells);
      ColumnIsSaid(f[j].cells);
      assert ChannelAt(doc.entities, j) == entities[j] && ChannelAt(doc.nanos, j) == nanos[j];
    }
  }

  // ----- the round trip, one column at a time -----

  /** What JSON keeps of a cell: a malformed byte of a string becomes U+FFFD. */
  function KeptCell(c: Cell): Cell { if c.Val? && c.d.Text? then Val(Text(Decoded(c.d.s))) else c }

  /** What a value reads back as before entities and nanoseconds are added. */
  function ReadBack(libs: Libs, first: bool, c: Cell, t: ColType): Cell {
    if c.Null? || Special(c.d) then Blank(t)
    else if c.d.Time? then Val(Time(if first then Wrap64(libs.approx(FloorMs(c.d.ns)) * MS) else FloorMs(c.d.ns) * MS))
    else KeptCell(c)
  }

  function ReadBackAll(libs: Libs, first: bool, cells: seq<Cell>, t: ColType): (r: seq<Cell>)
    ensures |r| == |cells| && forall i :: 0 <= i < |r| ==> r[i] == ReadBack(libs, first, cells[i], t)
  {
    seq(|cells|, i requires 0 <= i < |cells| => ReadBack(libs, first, cells[i], t))
  }

  lemma TokenReadsBack(libs: Libs, first: bool, c: Cell, t: ColType)
    requires ExactTo53(libs) && KindOk(t.kind) && CellOk(c, t)
    ensures TokenOf(c).Nil? <==> c.Null? || Special(c.d)
    ensures ReadToken(libs, first, TokenOf(c), t) == Ok(ReadBack(libs, first, c, t))
  {
    if c.Val? && c.d.Time? { ReadTimeExact(FloorMs(c.d.ns)); }
    if c.Val? && c.d.Whole? { assert InWidth(c.d.n, 32, true) || InWidth(c.d.n, 32, false) ==> libs.approx(c.d.n) == c.d.n; }
  }

  lemma {:induction false} ValuesReadBack(libs: Libs, first: bool, col: Column, n: nat)
    requires ExactTo53(libs) && ColumnOk(col) && n <= |col.cells|
    ensures DecodeUpTo(libs, first, Tokens(col.cells), col.ctype, n)
         == Ok(ReadBackAll(libs, first, col.cells, col.ctype)[..n])
    decreases n
  {
    if n > 0 {
      ValuesReadBack(libs, first, col, n - 1);
      TokenReadsBack(libs, first, col.cells[n - 1], col.ctype);
      var r := ReadBackAll(libs, first, col.cells, col.ctype);
      assert r[..n] == r[..n - 1] + [r[n - 1]];
    }
  }

  lemma {:induction false} RowsOfExact(cells: seq<Cell>, d: Datum, n: nat)
    requires n <= |cells|
    ensures forall i :: i in RowsOf(cells, d, n) <==> 0 <= i < n && cells[i] == Val(d)
    decreases n
  {
    if n > 0 { RowsOfExact(cells, d, n - 1); }
  }

  lemma {:induction false} SetRowsExact(cells: seq<Cell>, rows: seq<nat>, n: nat, c: Cell)
    requires n <= |rows| && forall i :: 0 <= i < |rows| ==> rows[i] < |cells|
    ensures SetRows(cells, rows, n, c).Some?
    ensures var r := SetRows(cells, rows, n, c).value;
            forall i :: 0 <= i < |cells| ==> r[i] == if i in rows[..n] then c else cells[i]
    decreases n
  {
    if n > 0 {
      SetRowsExact(cells, rows, n - 1, c);
      assert rows[..n] == rows[..n - 1] + [rows[n - 1]];
    }
  }

  /** Setting the rows that held `d`, in a column where the others are already as they were or will be set later. */
  lemma SetRowsOf(before: seq<Cell>, cells: seq<Cell>, d: Datum)
    requires |before| == |cells|
    ensures SetRows(before, RowsOf(cells, d, |cells|), |RowsOf(cells, d, |cells|)|, Val(d)).Some?
    ensures var r := SetRows(before, RowsOf(cells, d, |cells|), |RowsOf(cells, d, |cells|)|, Val(d)).value;
            |r| == |cells| && forall i :: 0 <= i < |r| ==> r[i] == if cells[i] == Val(d) then Val(d) else before[i]
  {
    var rows := RowsOf(cells, d, |cells|);
    RowsOfExact(cells, d, |cells|);
    forall i | 0 <= i < |rows| ensures rows[i] < |before| { assert rows[i] in rows; }
    SetRowsExact(before, rows, |rows|, Val(d));
    assert rows[..|rows|] == rows;
  }

  /** With entities restored, only times can still differ from what JSON keeps. */
  function Restored(libs: Libs, first: bool, c: Cell, t: ColType): Cell {
    if c.Val? && c.d.Time? then ReadBack(libs, first, c, t) else KeptCell(c)
  }

  function RestoredAll(libs: Libs, first: bool, col: Column): (r: Column)
    ensures r.ctype == col.ctype && |r.cells| == |col.cells|
    ensures forall i :: 0 <= i < |r.cells| ==> r.cells[i] == Restored(libs, first, col.cells[i], col.ctype)
  {
    Column(col.ctype, seq(|col.cells|, i requires 0 <= i < |col.cells| => Restored(libs, first, col.cells[i], col.ctype)))
  }

  predicate IsSpecial(c: Cell) { c.Val? && Special(c.d) }

  lemma SpecialHasRow(cells: seq<Cell>, i: nat)
    requires i < |cells| && MarksUpTo(cells, |cells|) == NO_MARKS
    ensures !IsSpecial(cells[i])
  {
    RowsOfExact(cells, Real(NaN), |cells|);
    RowsOfExact(cells, Real(PosInf), |cells|);
    RowsOfExact(cells, Real(NegInf), |cells|);
    assert i !in RowsOf(cells, Real(NaN), |cells|) && i !in RowsOf(cells, Real(PosInf), |cells|)
        && i !in RowsOf(cells, Real(NegInf), |cells|);
  }

  /** The three loops over marked rows put back every special value. */
  lemma SetThree(before: seq<Cell>, cells: seq<Cell>, t: ColType)
    requires |before| == |cells| && t.kind.FloatKind? && MarksUpTo(cells, |cells|) != NO_MARKS
    ensures var r := SetMarks(Column(t, before), MarksUpTo(cells, |cells|));
            && r.Some? && r.value.ctype == t && |r.value.cells| == |cells|
            && forall i :: 0 <= i < |cells| ==> r.value.cells[i] == if IsSpecial(cells[i]) then cells[i] else before[i]
  {
    var m := MarksUpTo(cells, |cells|);
    SetRowsOf(before, cells, Real(NaN));
    var a := SetRows(before, m.nan, |m.nan|, Val(Real(NaN))).value;
    SetRowsOf(a, cells, Real(PosInf));
    var b := SetRows(a, m.inf, |m.inf|, Val(Real(PosInf))).value;
    SetRowsOf(b, cells, Real(NegInf));
  }

  lemma RestoredIs(libs: Libs, first: bool, c: Cell, t: ColType)
    requires CellOk(c, t)
    ensures Restored(libs, first, c, t) == if IsSpecial(c) then c else ReadBack(libs, first, c, t)
  {
  }

  lemma MarksReadBack(libs: Libs, first: bool, col: Column)
    requires ColumnOk(col)
    ensures SetMarks(Column(col.ctype, ReadBackAll(libs, first, col.cells, col.ctype)), MarksUpTo(col.cells, |col.cells|))
         == Some(RestoredAll(libs, first, col))
  {
    var cells, t := col.cells, col.ctype;
    var before, m, after := ReadBackAll(libs, first, cells, t), MarksUpTo(cells, |cells|), RestoredAll(libs, first, col);
    if m != NO_MARKS {
      HasFloats(col, m);
      SetThree(before, cells, t);
    }
    var r := SetMarks(Column(t, before), m).value;
    forall i | 0 <= i < |cells| ensures r.cells[i] == after.cells[i] {
      RestoredIs(libs, first, cells[i], t);
      if m == NO_MARKS { SpecialHasRow(cells, i); }
    }
    assert r.cells == after.cells;
  }

  lemma HasFloats(col: Column, m: Marks)
    requires ColumnOk(col) && m == MarksUpTo(col.cells, |col.cells|) && m != NO_MARKS
    ensures col.ctype.kind.FloatKind?
  {
    var cells := col.cells;
    RowsOfExact(cells, Real(NaN), |cells|);
    RowsOfExact(cells, Real(PosInf), |cells|);
    RowsOfExact(cells, Real(NegInf), |cells|);
    var i := if m.nan != [] then m.nan[0] else if m.inf != [] then m.inf[0] else m.negInf[0];
    assert i in m.nan || i in m.inf || i in m.negInf;
    assert CellOk(cells[i], col.ctype);
  }

  /** What a cell reads back as in the end. */
  function Final(libs: Libs, first: bool, c: Cell): Cell {
    if c.Val? && c.d.Time? && first then Val(Time(Wrap64(libs.approx(FloorMs(c.d.ns)) * MS) + RestNs(c.d.ns)))
    else KeptCell(c)
  }

  function FinalAll(libs: Libs, first: bool, col: Column): (r: Column)
    ensures r.ctype == col.ctype && |r.cells| == |col.cells|
    ensures forall i :: 0 <= i < |r.cells| ==> r.cells[i] == Final(libs, first, col.cells[i])
  {
    Column(col.ctype, seq(|col.cells|, i requires 0 <= i < |col.cells| => Final(libs, first, col.cells[i])))
  }

  lemma RestIsNs(ns: int)
    ensures FloorMs(ns) * MS + RestNs(ns) == ns && 0 <= RestNs(ns) < MS
  {
  }

  /** A cell with its entity back and its nanoseconds added. */
  lemma NanosAdded(libs: Libs, first: bool, c: Cell, t: ColType)
    requires t.kind.TimeKind? && CellOk(c, t)
    ensures WithNanos(Restored(libs, first, c, t), Rest(c), Final(libs, first, c))
  {
    if c.Val? { RestIsNs(c.d.ns); }
  }

  /** Adding the first `n` remainders has made the first `n` cells what they should be. */
  predicate NanosDone(cells: seq<Cell>, ns: seq<int>, n: nat, final: seq<Cell>) {
    n <= |ns| && n <= |cells| == |final| && AddNs(cells, ns, n).Some?
    && forall i :: 0 <= i < n ==> AddNs(cells, ns, n).value[i] == final[i]
  }

  predicate WithNanos(c: Cell, ns: int, final: Cell) {
    if c.Null? then final == c else c.d.Time? && final == Val(Time(c.d.ns + ns))
  }

  lemma NanosNext(cells: seq<Cell>, ns: seq<int>, n: nat, final: seq<Cell>)
    requires n > 0 && NanosDone(cells, ns, n - 1, final) && n <= |ns| && n <= |cells|
    requires WithNanos(cells[n - 1], ns[n - 1], final[n - 1])
    ensures NanosDone(cells, ns, n, final)
  {
  }

  lemma {:induction false} NanosReadBack(libs: Libs, first: bool, col: Column, n: nat)
    requires n <= |col.cells| && col.ctype.kind.TimeKind? && ColumnOk(col)
    ensures NanosDone(RestoredAll(libs, first, col).cells, Rests(col.cells), n, FinalAll(libs, first, col).cells)
    decreases n
  {
    if n > 0 {
      NanosReadBack(libs, first, col, n - 1);
      NanosAdded(libs, first, col.cells[n - 1], col.ctype);
      NanosNext(RestoredAll(libs, first, col).cells, Rests(col.cells), n, FinalAll(libs, first, col).cells);
    }
  }

  lemma NanosOrNot(libs: Libs, first: bool, col: Column)
    requires ColumnOk(col)
    ensures NanosOf(col.cells).None? ==> RestoredAll(libs, first, col) == FinalAll(libs, first, col)
    ensures var ns := NanosOf(col.cells);
            ns.Some? ==> AddNs(RestoredAll(libs, first, col).cells, ns.value, |ns.value|)
                         == Some(FinalAll(libs, first, col).cells)
  {
    if NanosOf(col.cells).None? {
      forall i | 0 <= i < |col.cells| ensures RestoredAll(libs, first, col).cells[i] == Final(libs, first, col.cells[i]) {
        var c := col.cells[i];
        assert Rest(c) == 0;
        if c.Val? && c.d.Time? { RestIsNs(c.d.ns); }
      }
      assert RestoredAll(libs, first, col).cells == FinalAll(libs, first, col).cells;
    } else {
      var i :| 0 <= i < |col.cells| && Rest(col.cells[i]) != 0;
      assert CellOk(col.cells[i], col.ctype);
      NanosReadBack(libs, first, col, |col.cells|);
      assert AddNs(RestoredAll(libs, first, col).cells, Rests(col.cells), |col.cells|).value == FinalAll(libs, first, col).cells;
    }
  }

  // ----- the round trip of a frame -----

  lemma TypesOk(f: Frame)
    requires FrameOk(f)
    ensures SchemaOk(Types(f))
  {
    forall j | 0 <= j < |f| ensures KindOk(Types(f)[j].kind) { assert ColumnOk(f[j]); }
  }

  /** The columns after the values are read, after the entities, and after the nanoseconds; `n` columns are done. */
  function StageValues(libs: Libs, f: Frame, n: nat): (g: Frame)
    requires n <= |f|
    ensures |g| == |f| && forall j :: 0 <= j < |f| ==>
              g[j] == Column(f[j].ctype, if j < n then ReadBackAll(libs, j == 0, f[j].cells, f[j].ctype) else [])
  {
    seq(|f|, j requires 0 <= j < |f| =>
      Column(f[j].ctype, if j < n then ReadBackAll(libs, j == 0, f[j].cells, f[j].ctype) else []))
  }

  function StageMarks(libs: Libs, f: Frame, n: nat): (g: Frame)
    requires n <= |f|
    ensures |g| == |f| && forall j :: 0 <= j < |f| ==>
              g[j] == if j < n then RestoredAll(libs, j == 0, f[j])
                      else Column(f[j].ctype, ReadBackAll(libs, j == 0, f[j].cells, f[j].ctype))
  {
    seq(|f|, j requires 0 <= j < |f| =>
      if j < n then RestoredAll(libs, j == 0, f[j]) else Column(f[j].ctype, ReadBackAll(libs, j == 0, f[j].cells, f[j].ctype)))
  }

  function StageNanos(libs: Libs, f: Frame, n: nat): (g: Frame)
    requires n <= |f|
    ensures |g| == |f| && forall j :: 0 <= j < |f| ==>
              g[j] == if j < n then FinalAll(libs, j == 0, f[j]) else RestoredAll(libs, j == 0, f[j])
  {
    seq(|f|, j requires 0 <= j < |f| => if j < n then FinalAll(libs, j == 0, f[j]) else RestoredAll(libs, j == 0, f[j]))
  }

  lemma ValuedNext(libs: Libs, schema: seq<ColType>, values: seq<seq<Token>>, n: nat, before: Frame, cells: seq<Cell>)
    requires 0 < n <= |values| && SchemaOk(schema) && n <= |schema| && |values[n - 1]| == |values[0]|
    requires Valued(libs, schema, values, n - 1) == Ok(before)
    requires DecodeUpTo(libs, n == 1, values[n - 1], schema[n - 1], |values[n - 1]|) == Ok(cells)
    ensures |before| == |schema|
    ensures Valued(libs, schema, values, n) == Ok(before[n - 1 := Column(schema[n - 1], cells)])
  {
  }

  lemma ColumnReadsBack(libs: Libs, first: bool, col: Column)
    requires ExactTo53(libs) && ColumnOk(col)
    ensures DecodeUpTo(libs, first, Tokens(col.cells), col.ctype, |col.cells|)
         == Ok(ReadBackAll(libs, first, col.cells, col.ctype))
  {
    ValuesReadBack(libs, first, col, |col.cells|);
    var r := ReadBackAll(libs, first, col.cells, col.ctype);
    assert r[..|r|] == r;
  }

  lemma ValuesStep(libs: Libs, f: Frame, n: nat)
    requires 0 < n <= |f|
    ensures StageValues(libs, f, n - 1)[n - 1 := Column(f[n - 1].ctype,
              ReadBackAll(libs, n == 1, f[n - 1].cells, f[n - 1].ctype))] == StageValues(libs, f, n)
  {
  }

  lemma ValuesNext(libs: Libs, f: Frame, m: nat, n: nat)
    requires ExactTo53(libs) && FrameOk(f) && SchemaOk(Types(f)) && m < n == m + 1 <= |f|
    requires Valued(libs, Types(f), ValuesUpTo(f, |f|), m) == Ok(StageValues(libs, f, m))
    ensures Valued(libs, Types(f), ValuesUpTo(f, |f|), n) == Ok(StageValues(libs, f, n))
  {
    var col := f[m];
    assert ColumnOk(col) && |col.cells| == |f[0].cells|;
    ColumnReadsBack(libs, n == 1, col);
    ValuedNext(libs, Types(f), ValuesUpTo(f, |f|), n, StageValues(libs, f, m), ReadBackAll(libs, n == 1, col.cells, col.ctype));
    ValuesStep(libs, f, n);
  }

  lemma {:induction false} ReadsValues(libs: Libs, f: Frame, n: nat)
    requires ExactTo53(libs) && FrameOk(f) && SchemaOk(Types(f)) && n <= |f|
    ensures Valued(libs, Types(f), ValuesUpTo(f, |f|), n) == Ok(StageValues(libs, f, n))
    decreases n
  {
    if n == 0 {
      assert EmptyColumns(Types(f)) == StageValues(libs, f, 0);
    } else {
      var m: nat := n - 1;
      ReadsValues(libs, f, m);
      ValuesNext(libs, f, m, n);
    }
  }

  lemma MarkStep(libs: Libs, f: Frame, m: nat, n: nat)
    requires FrameOk(f) && m < n == m + 1 <= |f|
    ensures MarkOne(StageMarks(libs, f, m), m, EntitiesUpTo(f, |f|)[m]) == Some(StageMarks(libs, f, n))
  {
    assert ColumnOk(f[m]);
    MarksReadBack(libs, n == 1, f[m]);
    StageMarkAt(libs, f, n);
  }

  lemma StageMarkAt(libs: Libs, f: Frame, n: nat)
    requires 0 < n <= |f|
    ensures var before, after := StageMarks(libs, f, n - 1), RestoredAll(libs, n == 1, f[n - 1]);
            && before[n - 1 := after] == StageMarks(libs, f, n)
            && (before[n - 1] == after ==> before == StageMarks(libs, f, n))
  {
    var before, after := StageMarks(libs, f, n - 1), RestoredAll(libs, n == 1, f[n - 1]);
    assert before[n - 1 := after] == StageMarks(libs, f, n);
    if before[n - 1] == after { assert before == before[n - 1 := after]; }
  }

  lemma MarkedNext(f: Frame, es: seq<Option<Marks>>, m: nat, n: nat, before: Frame, after: Frame)
    requires m < n == m + 1 <= |es| && Marked(f, es, m) == Ok(before) && MarkOne(before, m, es[m]) == Some(after)
    ensures Marked(f, es, n) == Ok(after)
  {
  }

  lemma {:induction false} ReadsMarks(libs: Libs, f: Frame, n: nat)
    requires FrameOk(f) && n <= |f|
    ensures Marked(StageMarks(libs, f, 0), EntitiesUpTo(f, |f|), n) == Ok(StageMarks(libs, f, n))
    decreases n
  {
    if n > 0 {
      var m: nat := n - 1;
      ReadsMarks(libs, f, m);
      MarkStep(libs, f, m, n);
      MarkedNext(StageMarks(libs, f, 0), EntitiesUpTo(f, |f|), m, n, StageMarks(libs, f, m), StageMarks(libs, f, n));
    }
  }

  lemma {:induction false} NothingMarked(libs: Libs, f: Frame, n: nat)
    requires FrameOk(f) && n <= |f| && !AnyOf(EntitiesUpTo(f, |f|))
    ensures StageMarks(libs, f, 0) == StageMarks(libs, f, n)
    decreases n
  {
    if n > 0 {
      NothingMarked(libs, f, n - 1);
      MarkStep(libs, f, n - 1, n);
      assert EntitiesUpTo(f, |f|)[n - 1].None?;
    }
  }

  /** One element of "nanos". */
  predicate TimeOne(before: Frame, j: nat, ns: Option<seq<int>>, after: Frame) {
    && j < |before|
    && if ns.None? then after == before
       else
         var cells := AddNs(before[j].cells, ns.value, |ns.value|);
         cells.Some? && after == before[j := before[j].(cells := cells.value)]
  }

  lemma TimedNext(f: Frame, ns: seq<Option<seq<int>>>, n: nat, before: Frame, after: Frame)
    requires 0 < n <= |ns| && Timed(f, ns, n - 1) == Ok(before) && TimeOne(before, n - 1, ns[n - 1], after)
    ensures Timed(f, ns, n) == Ok(after)
  {
  }

  lemma TimeStep(libs: Libs, f: Frame, n: nat)
    requires FrameOk(f) && 0 < n <= |f|
    ensures TimeOne(StageNanos(libs, f, n - 1), n - 1, NanosUpTo(f, |f|)[n - 1], StageNanos(libs, f, n))
  {
    assert ColumnOk(f[n - 1]);
    NanosOrNot(libs, n == 1, f[n - 1]);
    var before := StageNanos(libs, f, n - 1);
    assert before[n - 1 := before[n - 1].(cells := FinalAll(libs, n == 1, f[n - 1]).cells)] == StageNanos(libs, f, n);
    assert before[n - 1] == FinalAll(libs, n == 1, f[n - 1]) ==> before == StageNanos(libs, f, n);
  }

  lemma TimedColumn(libs: Libs, f: Frame, was: Frame, ns: seq<Option<seq<int>>>, m: nat, n: nat)
    requires m < n == m + 1 <= |f| && ns == NanosUpTo(f, |f|)
    ensures FrameOk(f) && Timed(was, ns, m) == Ok(StageNanos(libs, f, m)) ==> Timed(was, ns, n) == Ok(StageNanos(libs, f, n))
  {
    if FrameOk(f) && Timed(was, ns, m) == Ok(StageNanos(libs, f, m)) {
      TimeStep(libs, f, n);
      TimedNext(was, ns, n, StageNanos(libs, f, m), StageNanos(libs, f, n));
    }
  }

  lemma {:induction false} ReadsNanos(libs: Libs, f: Frame, was: Frame, ns: seq<Option<seq<int>>>, n: nat)
    requires FrameOk(f) && n <= |f| && was == StageNanos(libs, f, 0) && ns == NanosUpTo(f, |f|)
    ensures Timed(was, ns, n) == Ok(StageNanos(libs, f, n))
    decreases n
  {
    if n > 0 {
      ReadsNanos(libs, f, was, ns, n - 1);
      TimedColumn(libs, f, was, ns, n - 1, n);
    } else {
      NothingTimedYet(was, ns, n);
    }
  }

  lemma NothingTimedYet(was: Frame, ns: seq<Option<seq<int>>>, n: nat)
    requires n == 0
    ensures Timed(was, ns, n) == Ok(was)
  {
  }

  lemma {:induction false} NothingTimed(libs: Libs, f: Frame, n: nat)
    requires FrameOk(f) && n <= |f| && !AnyOf(NanosUpTo(f, |f|))
    ensures StageNanos(libs, f, 0) == StageNanos(libs, f, n)
    decreases n
  {
    if n > 0 {
      NothingTimed(libs, f, n - 1);
      TimeStep(libs, f, n);
      assert NanosUpTo(f, |f|)[n - 1].None?;
    }
  }

  lemma StagesMeet(libs: Libs, f: Frame)
    ensures StageValues(libs, f, |f|) == StageMarks(libs, f, 0)
    ensures StageMarks(libs, f, |f|) == StageNanos(libs, f, 0)
  {
  }

  /** An absent channel changes as little as one without content would. */
  lemma MarkStage(libs: Libs, f: Frame)
    requires FrameOk(f)
    ensures var es := DocOf(f).entities;
            (if es.Some? then Marked(StageMarks(libs, f, 0), es.value, |es.value|) else Ok(StageMarks(libs, f, 0)))
            == Ok(StageMarks(libs, f, |f|))
  {
    if AnyOf(EntitiesUpTo(f, |f|)) { ReadsMarks(libs, f, |f|); } else { NothingMarked(libs, f, |f|); }
  }

  lemma NanoStage(libs: Libs, f: Frame)
    requires FrameOk(f)
    ensures var ns := DocOf(f).nanos;
            (if ns.Some? then Timed(StageNanos(libs, f, 0), ns.value, |ns.value|) else Ok(StageNanos(libs, f, 0)))
            == Ok(StageNanos(libs, f, |f|))
  {
    if AnyOf(NanosUpTo(f, |f|)) { ReadsNanos(libs, f, StageNanos(libs, f, 0), NanosUpTo(f, |f|), |f|); } else { NothingTimed(libs, f, |f|); }
  }

  /** The three channels one after the other, each with its outcome. */
  lemma ReadStages(libs: Libs, schema: seq<ColType>, doc: Doc, a: Frame, b: Frame, c: Frame)
    requires SchemaOk(schema) && Valued(libs, schema, doc.values, |doc.values|) == Ok(a)
    requires (if doc.entities.Some? then Marked(a, doc.entities.value, |doc.entities.value|) else Ok(a)) == Ok(b)
    requires (if doc.nanos.Some? then Timed(b, doc.nanos.value, |doc.nanos.value|) else Ok(b)) == Ok(c)
    ensures ReadOf(libs, schema, doc) == Ok(c)
  {
  }

  /** Reading back what was written always succeeds; only first-column times may change. */
  lemma ReadsBack(libs: Libs, f: Frame)
    requires ExactTo53(libs) && FrameOk(f)
    ensures SchemaOk(Types(f)) && ReadOf(libs, Types(f), DocOf(f)) == Ok(StageNanos(libs, f, |f|))
  {
    TypesOk(f);
    ReadsValues(libs, f, |f|);
    StagesMeet(libs, f);
    MarkStage(libs, f);
    NanoStage(libs, f);
    ReadStages(libs, Types(f), DocOf(f), StageValues(libs, f, |f|), StageMarks(libs, f, |f|), StageNanos(libs, f, |f|));
  }

  /** Times of the first column, rounded down to milliseconds, stay within int64 nanoseconds. */
  predicate FirstColumnFits(f: Frame) {
    f != [] ==> ColumnFits(f[0])
  }

  lemma FinalIsSame(libs: Libs, ns: int)
    requires ExactTo53(libs)
    ensures Wrap64(libs.approx(FloorMs(ns)) * MS) + RestNs(ns) == ns <==> Int64(FloorMs(ns) * MS)
  {
    RestIsNs(ns);
    var ms := FloorMs(ns);
    if Int64(ms * MS) { assert -0x20_0000_0000_0000 <= ms <= 0x20_0000_0000_0000; }
  }

  predicate CellFits(c: Cell) { c.Val? && c.d.Time? ==> Int64(FloorMs(c.d.ns) * MS) }

  /** What JSON keeps of a frame. */
  function KeptColumn(col: Column): (r: Column)
    ensures r.ctype == col.ctype && |r.cells| == |col.cells|
    ensures forall i :: 0 <= i < |r.cells| ==> r.cells[i] == KeptCell(col.cells[i])
  {
    Column(col.ctype, seq(|col.cells|, i requires 0 <= i < |col.cells| => KeptCell(col.cells[i])))
  }

  function KeptFrame(f: Frame): (g: Frame)
    ensures |g| == |f| && forall j :: 0 <= j < |g| ==> g[j] == KeptColumn(f[j])
  {
    seq(|f|, j requires 0 <= j < |f| => KeptColumn(f[j]))
  }

  predicate TextOk(c: Cell) { c.Val? && c.d.Text? ==> ValidUtf8(c.d.s) }

  predicate ColumnTextsOk(col: Column) { forall i :: 0 <= i < |col.cells| ==> TextOk(col.cells[i]) }

  /** Every string of the frame is valid UTF-8. */
  predicate TextsValid(f: Frame) { forall j :: 0 <= j < |f| ==> ColumnTextsOk(f[j]) }

  lemma KeptCellExact(c: Cell)
    ensures KeptCell(c) == c <==> TextOk(c)
  {
    if c.Val? && c.d.Text? { DecodedExact(c.d.s); }
  }

  lemma KeptColumnExact(col: Column)
    ensures KeptColumn(col) == col <==> ColumnTextsOk(col)
  {
    var r := KeptColumn(col);
    forall i | 0 <= i < |col.cells| ensures r.cells[i] == col.cells[i] <==> TextOk(col.cells[i]) {
      KeptCellExact(col.cells[i]);
    }
    if ColumnTextsOk(col) { assert r.cells == col.cells; }
  }

  /** JSON keeps a frame as it is exactly when its strings are valid UTF-8. */
  lemma KeptExact(f: Frame)
    ensures KeptFrame(f) == f <==> TextsValid(f)
  {
    var g := KeptFrame(f);
    forall j | 0 <= j < |f| ensures g[j] == f[j] <==> ColumnTextsOk(f[j]) { KeptColumnExact(f[j]); }
    if TextsValid(f) { assert g == f; }
  }

  lemma FirstCellKept(libs: Libs, c: Cell)
    requires ExactTo53(libs)
    ensures Final(libs, true, c) == KeptCell(c) <==> CellFits(c)
    ensures Final(libs, true, c) == c ==> CellFits(c)
  {
    if c.Val? && c.d.Time? { FinalIsSame(libs, c.d.ns); }
  }

  predicate ColumnFits(col: Column) { forall i :: 0 <= i < |col.cells| ==> CellFits(col.cells[i]) }

  lemma ColumnKept(libs: Libs, first: bool, col: Column)
    requires ExactTo53(libs)
    ensures FinalAll(libs, first, col) == KeptColumn(col) <==> (first ==> ColumnFits(col))
    ensures FinalAll(libs, first, col) == col ==> first ==> ColumnFits(col)
  {
    var g, k := FinalAll(libs, first, col), KeptColumn(col);
    forall i | 0 <= i < |col.cells|
      ensures g.cells[i] == k.cells[i] <==> (first ==> CellFits(col.cells[i]))
      ensures g.cells[i] == col.cells[i] ==> first ==> CellFits(col.cells[i])
    {
      FirstCellKept(libs, col.cells[i]);
    }
    if first ==> ColumnFits(col) { assert g.cells == k.cells; }
  }

  /** What JSON keeps of the frame comes back, NaN and infinities apart from null and nanoseconds included, exactly when
      the times of its first column fit. */
  lemma ReadsKeptExact(libs: Libs, f: Frame)
    requires ExactTo53(libs) && FrameOk(f)
    ensures SchemaOk(Types(f)) && (ReadOf(libs, Types(f), DocOf(f)) == Ok(KeptFrame(f)) <==> FirstColumnFits(f))
    ensures ReadOf(libs, Types(f), DocOf(f)) == Ok(f) ==> FirstColumnFits(f)
  {
    ReadsBack(libs, f);
    var g, k := StageNanos(libs, f, |f|), KeptFrame(f);
    forall j | 0 <= j < |f|
      ensures g[j] == k[j] <==> (j == 0 ==> ColumnFits(f[j]))
      ensures g[j] == f[j] ==> j == 0 ==> ColumnFits(f[j])
    {
      ColumnKept(libs, j == 0, f[j]);
    }
    if FirstColumnFits(f) { assert g == k; }
  }

  /** The frame itself comes back exactly when, besides, its strings are valid UTF-8. */
  lemma RoundTripExact(libs: Libs, f: Frame)
    requires ExactTo53(libs) && FrameOk(f)
    ensures SchemaOk(Types(f)) && (ReadOf(libs, Types(f), DocOf(f)) == Ok(f) <==> FirstColumnFits(f) && TextsValid(f))
  {
    ReadsKeptExact(libs, f);
    KeptExact(f);
  }

  lemma KeptStaysOk(f: Frame)
    requires FrameOk(f)
    ensures FrameOk(KeptFrame(f)) && TextsValid(KeptFrame(f)) && (FirstColumnFits(f) ==> FirstColumnFits(KeptFrame(f)))
  {
    var g := KeptFrame(f);
    forall j | 0 <= j < |f| ensures ColumnOk(g[j]) && ColumnTextsOk(g[j]) && (ColumnFits(f[j]) ==> ColumnFits(g[j])) {
      KeptColumnOk(f[j]);
    }
  }

  lemma KeptColumnOk(col: Column)
    requires ColumnOk(col)
    ensures ColumnOk(KeptColumn(col)) && ColumnTextsOk(KeptColumn(col)) && (ColumnFits(col) ==> ColumnFits(KeptColumn(col)))
  {
    forall i | 0 <= i < |col.cells|
      ensures CellOk(KeptCell(col.cells[i]), col.ctype) && TextOk(KeptCell(col.cells[i]))
      ensures CellFits(KeptCell(col.cells[i])) <==> CellFits(col.cells[i])
    {
      if col.cells[i].Val? && col.cells[i].d.Text? { DecodedIsValid(col.cells[i].d.s); }
    }
  }

  /** What came back once comes back unchanged ever after. */
  lemma RoundTripSettles(libs: Libs, f: Frame)
    requires ExactTo53(libs) && FrameOk(f) && FirstColumnFits(f)
    ensures SchemaOk(Types(f)) && SchemaOk(Types(KeptFrame(f)))
    ensures ReadOf(libs, Types(f), DocOf(f)) == Ok(KeptFrame(f))
    ensures ReadOf(libs, Types(KeptFrame(f)), DocOf(KeptFrame(f))) == Ok(KeptFrame(f))
  {
    ReadsKeptExact(libs, f);
    KeptStaysOk(f);
    RoundTripExact(libs, KeptFrame(f));
  }

  lemma OneMalformedByte()
    ensures Decoded([0xFF]) == REPLACEMENT
  {
    assert Units([0xFF]) == [[]];
    assert TextOf([[]]) == REPLACEMENT + TextOf([]) == REPLACEMENT;
  }

  /** One malformed byte: the frame that comes back holds U+FFFD in its place. */
  lemma MalformedStringIsReplaced(libs: Libs, f: Frame)
    requires ExactTo53(libs) && f == [Column(ColType(StringKind, false), [Val(Text([0xFF]))])]
    ensures FrameOk(f) && FirstColumnFits(f)
    ensures ReadOf(libs, Types(f), DocOf(f)) == Ok([Column(ColType(StringKind, false), [Val(Text(REPLACEMENT))])])
  {
    ReadsKeptExact(libs, f);
    OneMalformedByte();
    assert KeptFrame(f)[0] == KeptColumn(f[0]) && KeptColumn(f[0]).cells[0] == Val(Text(REPLACEMENT));
    assert KeptColumn(f[0]).cells == [Val(Text(REPLACEMENT))];
    assert KeptFrame(f) == [Column(ColType(StringKind, false), [Val(Text(REPLACEMENT))])];
  }

  // ----- the Arrow encoder of timestamps -----

  /** writeArrowDataTIMESTAMP: milliseconds by division toward zero, and a signed rest. */
  function ArrowMs(ns: int): int { TruncDiv(ns, MS) }

  function ArrowRest(ns: int): int { ns - ArrowMs(ns) * MS }

  /** One instant from either encoder: through the time reader always, through the first column whenever the
      milliseconds fit, which Arrow's always do. */
  lemma TwoEncodersOneInstant(libs: Libs, ns: int)
    requires ExactTo53(libs) && Int64(ns)
    ensures ReadTime(FloorMs(ns)) + RestNs(ns) == ns
    ensures ReadTime(ArrowMs(ns)) + ArrowRest(ns) == ns
    ensures Wrap64(libs.approx(ArrowMs(ns)) * MS) + ArrowRest(ns) == ns
    ensures Wrap64(libs.approx(FloorMs(ns)) * MS) + RestNs(ns) == ns <==> FloorMs(ns) * MS >= MIN64
  {
    ReadTimeExact(FloorMs(ns));
    ReadTimeExact(ArrowMs(ns));
    RestIsNs(ns);
    FinalIsSame(libs, ns);
    ArrowFits(ns);
  }

  lemma ArrowFits(ns: int)
    requires Int64(ns)
    ensures Int64(ArrowMs(ns) * MS) && -0x20_0000_0000_0000 <= ArrowMs(ns) <= 0x20_0000_0000_0000
  {
  }

  /** The two encoders part at the earliest int64 instant: its floor is out of range for the first column. */
  lemma EarliestInstantWraps(libs: Libs)
    requires ExactTo53(libs)
    ensures Wrap64(libs.approx(FloorMs(MIN64)) * MS) + RestNs(MIN64) != MIN64
  {
    assert FloorMs(MIN64) == -9223372036855;
    FinalIsSame(libs, MIN64);
  }

  /** A nullable timestamp column, and what Arrow writes for it. */
  function ArrowCells(ts: seq<Option<int>>): (cs: seq<Cell>)
    ensures |cs| == |ts| && forall i :: 0 <= i < |ts| ==> cs[i] == if ts[i].Some? then Val(Time(ts[i].value)) else Null
  {
    seq(|ts|, i requires 0 <= i < |ts| => if ts[i].Some? then Val(Time(ts[i].value)) else Null)
  }

  function ArrowTokens(ts: seq<Option<int>>): (r: seq<Token>)
    ensures |r| == |ts| && forall i :: 0 <= i < |ts| ==> r[i] == if ts[i].Some? then Num(ArrowMs(ts[i].value)) else Nil
  {
    seq(|ts|, i requires 0 <= i < |ts| => if ts[i].Some? then Num(ArrowMs(ts[i].value)) else Nil)
  }

  function ArrowRests(ts: seq<Option<int>>): (r: seq<int>)
    ensures |r| == |ts| && forall i :: 0 <= i < |ts| ==> r[i] == if ts[i].Some? then ArrowRest(ts[i].value) else 0
  {
    seq(|ts|, i requires 0 <= i < |ts| => if ts[i].Some? then ArrowRest(ts[i].value) else 0)
  }

  /** An instant in whole milliseconds and a rest shorter than one, with the sign of the instant. */
  predicate SplitsInstant(ns: int, ms: int, rest: int) {
    && ms * 1000000 + rest == ns && -1000000 < rest < 1000000
    && (rest > 0 ==> ns > 0) && (rest < 0 ==> ns < 0)
  }

  /** What is written for a timestamp column. */
  predicate ArrowWritten(ts: seq<Option<int>>, tokens: seq<Token>, nsTime: Option<seq<int>>) {
    && |tokens| == |ts| && (nsTime.Some? ==> |nsTime.value| == |ts|)
    && (forall i :: 0 <= i < |ts| ==>
          var rest := if nsTime.Some? then nsTime.value[i] else 0;
          if ts[i].None? then tokens[i].Nil? && rest == 0
          else tokens[i].Num? && SplitsInstant(ts[i].value, tokens[i].n, rest))
    && (nsTime.None? <==> forall i :: 0 <= i < |ts| && ts[i].Some? ==> ts[i].value % 1000000 == 0)
  }

  lemma ArrowSplits(ns: int)
    ensures SplitsInstant(ns, ArrowMs(ns), ArrowRest(ns)) && (ArrowRest(ns) == 0 <==> ns % 1000000 == 0)
  {
  }

  lemma ArrowIsWritten(ts: seq<Option<int>>)
    ensures ArrowWritten(ts, ArrowTokens(ts),
                         if exists i :: 0 <= i < |ts| && ArrowRests(ts)[i] != 0 then Some(ArrowRests(ts)) else None)
  {
    forall i | 0 <= i < |ts| && ts[i].Some?
      ensures SplitsInstant(ts[i].value, ArrowMs(ts[i].value), ArrowRest(ts[i].value))
      ensures ArrowRests(ts)[i] == 0 <==> ts[i].value % 1000000 == 0
    {
      ArrowSplits(ts[i].value);
    }
  }

  method WriteArrowTimestamps(ts: seq<Option<int>>) returns (tokens: seq<Token>, nsTime: Option<seq<int>>)
    ensures ArrowWritten(ts, tokens, nsTime)
    ensures tokens == ArrowTokens(ts)
    ensures nsTime == if exists i :: 0 <= i < |ts| && ArrowRests(ts)[i] != 0 then Some(ArrowRests(ts)) else None
  {
    var rests: seq<int> := seq(|ts|, _ => 0);
    var hasNSTime := false;
    tokens := [];
    for i := 0 to |ts|
      invariant |tokens| == i && |rests| == |ts|
      invariant forall k :: 0 <= k < i ==> tokens[k] == ArrowTokens(ts)[k] && rests[k] == ArrowRests(ts)[k]
      invariant forall k :: i <= k < |ts| ==> rests[k] == 0
      invariant hasNSTime <==> exists k :: 0 <= k < i && ArrowRests(ts)[k] != 0
    {
      if ts[i].None? {
        assert ArrowRests(ts)[i] == 0;
        tokens := tokens + [Nil];
        continue;
      }
      var ms := TruncDiv(ts[i].value, MS);
      tokens := tokens + [Num(ms)];
      var nsOffSet := ts[i].value - ms * MS;
      assert ArrowRests(ts)[i] == nsOffSet;
      if nsOffSet != 0 {
        hasNSTime := true;
        rests := rests[i := nsOffSet];
      }
    }
    assert tokens == ArrowTokens(ts) && rests == ArrowRests(ts);
    ArrowIsWritten(ts);
    nsTime := if hasNSTime then Some(rests) else None;
  }

  const TIMESTAMPS := ColType(TimeKind, true)

  function ArrowMsCells(ts: seq<Option<int>>): (cs: seq<Cell>)
    ensures |cs| == |ts|
    ensures forall i :: 0 <= i < |ts| ==> cs[i] == if ts[i].Some? then Val(Time(ArrowMs(ts[i].value) * MS)) else Null
  {
    seq(|ts|, i requires 0 <= i < |ts| => if ts[i].Some? then Val(Time(ArrowMs(ts[i].value) * MS)) else Null)
  }

  lemma {:induction false} ArrowValuesReadBack(libs: Libs, first: bool, ts: seq<Option<int>>, n: nat)
    requires ExactTo53(libs) && n <= |ts| && forall i :: 0 <= i < |ts| && ts[i].Some? ==> Int64(ts[i].value)
    ensures DecodeUpTo(libs, first, ArrowTokens(ts), TIMESTAMPS, n) == Ok(ArrowMsCells(ts)[..n])
    decreases n
  {
    if n > 0 {
      ArrowValuesReadBack(libs, first, ts, n - 1);
      if ts[n - 1].Some? {
        ArrowFits(ts[n - 1].value);
        ReadTimeExact(ArrowMs(ts[n - 1].value));
      }
      assert ArrowMsCells(ts)[..n] == ArrowMsCells(ts)[..n - 1] + [ArrowMsCells(ts)[n - 1]];
    }
  }

  lemma {:induction false} ArrowNanosReadBack(ts: seq<Option<int>>, n: nat)
    requires n <= |ts|
    ensures NanosDone(ArrowMsCells(ts), ArrowRests(ts), n, ArrowCells(ts))
    decreases n
  {
    if n > 0 {
      ArrowNanosReadBack(ts, n - 1);
      NanosNext(ArrowMsCells(ts), ArrowRests(ts), n, ArrowCells(ts));
    }
  }

  /** What Arrow writes for any int64 timestamps reads back as them, as the first column and as any other. */
  lemma ArrowRoundTrip(libs: Libs, first: bool, ts: seq<Option<int>>)
    requires ExactTo53(libs) && forall i :: 0 <= i < |ts| && ts[i].Some? ==> Int64(ts[i].value)
    ensures var cells := DecodeUpTo(libs, first, ArrowTokens(ts), TIMESTAMPS, |ts|);
            && cells.Ok?
            && AddNs(cells.value, ArrowRests(ts), |ts|) == Some(ArrowCells(ts))
            && ((forall i :: 0 <= i < |ts| ==> ArrowRests(ts)[i] == 0) ==> cells.value == ArrowCells(ts))
  {
    ArrowValuesReadBack(libs, first, ts, |ts|);
    assert ArrowMsCells(ts)[..|ts|] == ArrowMsCells(ts);
    ArrowNanosReadBack(ts, |ts|);
    assert AddNs(ArrowMsCells(ts), ArrowRests(ts), |ts|).value == ArrowCells(ts);
    if forall i :: 0 <= i < |ts| ==> ArrowRests(ts)[i] == 0 {
      forall i | 0 <= i < |ts| ensures ArrowMsCells(ts)[i] == ArrowCells(ts)[i] { assert ArrowRests(ts)[i] == 0; }
      assert ArrowMsCells(ts) == ArrowCells(ts);
    }
  }
}
