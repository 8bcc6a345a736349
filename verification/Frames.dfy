/** data.Frame reduced to what reshaping reads: named, labelled, typed columns of cells, and the
    time-series schema the SDK derives from the column types (data/time_series.go). */
module Frames {
  import opened GoText
  import opened Outcomes

  /** `code` tells the numeric (and the remaining) Go types apart. */
  datatype Kind = TimeKind | StringKind | BoolKind | NumberKind(code: nat) | OtherKind(code: nat)

  datatype FieldType = FieldType(kind: Kind, nullable: bool)

  /** Times are instants; numbers and the remaining types are carried by their representation. */
  datatype Value = TimeVal(at: int) | StrVal(text: GoString) | BoolVal(flag: bool) | NumVal(bits: int) | OtherVal(bits: int)

  /** One element of a vector; Null occurs in nullable vectors only. */
  datatype Cell = Null | Val(v: Value)

  type Labels = map<GoString, GoString>

  /** `labels` is None for a nil map. */
  datatype Field = Field(name: GoString, ftype: FieldType, labels: Option<Labels>, cells: seq<Cell>)

  type Frame = seq<Field>

  /** The Go zero value; the zero time is a constant like any other here. */
  function ZeroValue(k: Kind): Value {
    match k
    case TimeKind => TimeVal(ZERO_TIME)
    case StringKind => StrVal([])
    case BoolKind => BoolVal(false)
    case NumberKind(_) => NumVal(0)
    case OtherKind(_) => OtherVal(0)
  }

  /** time.Time{}: 1 January of year 1, in nanoseconds from 1970. */
  const ZERO_TIME := -62135596800 * 1000000000

  function Zero(t: FieldType): Cell { if t.nullable then Null else Val(ZeroValue(t.kind)) }

  predicate HasKind(v: Value, k: Kind) {
    match k
    case TimeKind => v.TimeVal?
    case StringKind => v.StrVal?
    case BoolKind => v.BoolVal?
    case NumberKind(_) => v.NumVal?
    case OtherKind(_) => v.OtherVal?
  }

  predicate CellFits(c: Cell, t: FieldType) { if c.Null? then t.nullable else HasKind(c.v, t.kind) }

  /** What the typed vectors guarantee. */
  predicate WellTyped(f: Field) { forall i :: 0 <= i < |f.cells| ==> CellFits(f.cells[i], f.ftype) }

  predicate AllTyped(f: Frame) { forall i {:trigger WellTyped(f[i])} :: 0 <= i < |f| ==> WellTyped(f[i]) }

  predicate Rectangular(f: Frame, rows: nat) {
    (forall i :: 0 <= i < |f| ==> |f[i].cells| == rows) && AllTyped(f)
  }

  // ----- growing and setting columns -----

  /** One more cell, holding the zero value. */
  function Extend(f: Field): Field { f.(cells := f.cells + [Zero(f.ftype)]) }

  function SetCell(f: Field, w: nat, c: Cell): Field
    requires w < |f.cells|
  {
    f.(cells := f.cells[w := c])
  }

  // ----- TimeSeriesSchema -----

  datatype SeriesType = NotSeries | Long | Wide

  datatype Schema = Schema(seriesType: SeriesType, timeIndex: nat, valueIndices: seq<nat>, factorIndices: seq<nat>)

  predicate IsFactor(f: Field) { f.ftype.kind.StringKind? || f.ftype.kind.BoolKind? }

  /** Index of the first time column, or the number of columns. */
  function TimeIndex(f: Frame): (i: nat)
    ensures i <= |f|
    ensures i < |f| ==> f[i].ftype.kind.TimeKind?
    ensures forall j :: 0 <= j < i ==> !f[j].ftype.kind.TimeKind?
  {
    if f == [] then 0 else if f[0].ftype.kind.TimeKind? then 0 else 1 + TimeIndex(f[1..])
  }

  function FactorIndices(f: Frame, n: nat): (s: seq<nat>)
    requires n <= |f|
    ensures forall i :: 0 <= i < |s| ==> s[i] < n && IsFactor(f[s[i]])
    ensures forall i, j :: 0 <= i < j < |s| ==> s[i] < s[j]
  {
    if n == 0 then [] else FactorIndices(f, n - 1) + if IsFactor(f[n - 1]) then [n - 1] else []
  }

  function ValueIndices(f: Frame, timeIndex: nat, n: nat): (s: seq<nat>)
    requires n <= |f|
    ensures forall i :: 0 <= i < |s| ==> s[i] < n && s[i] != timeIndex && !IsFactor(f[s[i]])
    ensures forall i, j :: 0 <= i < j < |s| ==> s[i] < s[j]
  {
    if n == 0 then []
    else ValueIndices(f, timeIndex, n - 1) + if n - 1 != timeIndex && !IsFactor(f[n - 1]) then [n - 1] else []
  }

  /** Every column has its place in the schema. */
  lemma {:induction false} IndicesComplete(f: Frame, timeIndex: nat, n: nat, i: nat)
    requires i < n <= |f|
    ensures i in FactorIndices(f, n) <==> IsFactor(f[i])
    ensures i in ValueIndices(f, timeIndex, n) <==> i != timeIndex && !IsFactor(f[i])
    decreases n
  {
    if i < n - 1 { IndicesComplete(f, timeIndex, n - 1, i); }
  }

  function SchemaOf(f: Frame): (s: Schema) {
    var t := TimeIndex(f);
    if t == |f| then Schema(NotSeries, 0, [], [])
    else
      var vs, fs := ValueIndices(f, t, |f|), FactorIndices(f, |f|);
      Schema(if vs == [] then NotSeries else if fs == [] then Wide else Long, t, vs, fs)
  }

  /** The first time column, if there is one. */
  predicate IsFirstTime(f: Frame, t: nat) {
    t < |f| && f[t].ftype.kind.TimeKind? && forall j :: 0 <= j < t ==> !f[j].ftype.kind.TimeKind?
  }

  predicate HasFactor(f: Frame) { exists i :: 0 <= i < |f| && (f[i].ftype.kind.StringKind? || f[i].ftype.kind.BoolKind?) }

  /** A column that is neither the time at `t` nor a string or bool. */
  predicate HasValue(f: Frame, t: nat) {
    exists i :: 0 <= i < |f| && i != t && !f[i].ftype.kind.StringKind? && !f[i].ftype.kind.BoolKind?
  }

  ghost predicate IsSeries(f: Frame) { exists t: nat :: IsFirstTime(f, t) && HasValue(f, t) }

  /** A series has a time and a value column; it is long with a string or bool column, and wide without. */
  lemma SeriesTypeExact(f: Frame)
    ensures SchemaOf(f).seriesType.NotSeries? <==> !IsSeries(f)
    ensures SchemaOf(f).seriesType.Long? <==> IsSeries(f) && HasFactor(f)
    ensures SchemaOf(f).seriesType.Wide? <==> IsSeries(f) && !HasFactor(f)
    ensures IsSeries(f) ==> IsFirstTime(f, SchemaOf(f).timeIndex)
    ensures IsSeries(f) ==> forall i :: 0 <= i < |f| ==>
              && (i in SchemaOf(f).factorIndices <==> f[i].ftype.kind.StringKind? || f[i].ftype.kind.BoolKind?)
              && (i in SchemaOf(f).valueIndices <==>
                    i != SchemaOf(f).timeIndex && !f[i].ftype.kind.StringKind? && !f[i].ftype.kind.BoolKind?)
  {
    var t := TimeIndex(f);
    forall i: nat | i < |f|
      ensures i in FactorIndices(f, |f|) <==> f[i].ftype.kind.StringKind? || f[i].ftype.kind.BoolKind?
      ensures i in ValueIndices(f, t, |f|) <==> i != t && !f[i].ftype.kind.StringKind? && !f[i].ftype.kind.BoolKind?
    {
      IndicesComplete(f, t, |f|, i);
    }
    FactorsThere(f);
    ValuesThere(f, t);
    if u: nat :| IsFirstTime(f, u) { assert u == t; }
    if t < |f| { assert IsFirstTime(f, t); }
  }

  lemma FactorsThere(f: Frame)
    ensures FactorIndices(f, |f|) != [] <==> HasFactor(f)
  {
    if FactorIndices(f, |f|) != [] {
      var i := FactorIndices(f, |f|)[0];
      assert IsFactor(f[i]);
    }
    if i: nat :| i < |f| && IsFactor(f[i]) { IndicesComplete(f, 0, |f|, i); }
  }

  lemma ValuesThere(f: Frame, t: nat)
    ensures ValueIndices(f, t, |f|) != [] <==> HasValue(f, t)
  {
    var vs := ValueIndices(f, t, |f|);
    if vs != [] {
      var i := vs[0];
      assert i != t && !IsFactor(f[i]);
    }
    if i: nat :| i < |f| && i != t && !IsFactor(f[i]) { IndicesComplete(f, t, |f|, i); }
  }

  /** Frame.TimeSeriesSchema. */
  method TimeSeriesSchema(f: Frame) returns (s: Schema)
    ensures s == SchemaOf(f)
  {
    s := Schema(NotSeries, 0, [], []);
    var nonValue: set<nat> := {};
    var t := 0;
    while t < |f| && !f[t].ftype.kind.TimeKind?
      invariant 0 <= t <= |f| && TimeIndex(f) >= t
    {
      t := t + 1;
    }
    if t == |f| {
      return;
    }
    s, nonValue := s.(timeIndex := t), nonValue + {t};
    for i := 0 to |f|
      invariant s == Schema(NotSeries, t, [], FactorIndices(f, i))
      invariant forall j: nat :: j in nonValue <==> j == t || (j < i && IsFactor(f[j]))
    {
      if IsFactor(f[i]) {
        s, nonValue := s.(factorIndices := s.factorIndices + [i]), nonValue + {i};
      }
    }
    for i := 0 to |f|
      invariant s == Schema(NotSeries, t, ValueIndices(f, t, i), FactorIndices(f, |f|))
      invariant forall j: nat :: j in nonValue <==> j == t || (j < |f| && IsFactor(f[j]))
    {
      if i !in nonValue {
        s := s.(valueIndices := s.valueIndices + [i]);
      }
    }
    if s.valueIndices == [] {
      return;
    }
    s := s.(seriesType := if s.factorIndices == [] then Wide else Long);
  }

  /** Frame.RowLen: the common length, or an error for a ragged frame. */
  function RowLen(f: Frame): (n: Option<nat>)
    ensures n.Some? <==> forall i :: 0 <= i < |f| ==> |f[i].cells| == |f[0].cells|
    ensures n.Some? && f != [] ==> n.value == |f[0].cells|
  {
    if f == [] then Some(0)
    else if forall i :: 0 <= i < |f| ==> |f[i].cells| == |f[0].cells| then Some(|f[0].cells|) else None
  }

  // ----- FillMissing -----

  /** `convert` is float64ToType applied to the fill value: the representation it has in each numeric type. */
  datatype Fill = NoFill | Previous | NullFill | Constant(convert: nat -> int)

  /** float64ToType: only numeric types have a value. */
  function ConvertedFill(convert: nat -> int, k: Kind): (c: Option<Cell>) {
    if k.NumberKind? then Some(Val(NumVal(convert(k.code)))) else None
  }

  /** GetMissing; None stands for its error returns. */
  function GetMissing(fill: Fill, field: Field, previousRow: int): (c: Option<Cell>)
    requires previousRow < |field.cells|
  {
    match fill
    case NoFill => None
    case NullFill => Some(Null)
    case Constant(convert) => ConvertedFill(convert, field.ftype.kind)
    case Previous => Some(if previousRow >= 0 then field.cells[previousRow] else Null)
  }
}
