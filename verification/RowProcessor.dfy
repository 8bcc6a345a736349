/** data/time_series.go `longRowProcessor`: a one-pass pivot that grows columns as new factor
    combinations appear, proved against a denotational description of the wide frame. */
module RowProcessor {
  import opened GoText
  import opened Outcomes
  import opened Frames
  import opened TupleKeys

  /** A long frame with what the processor looks up in it. */
  datatype LongSeries = LongSeries(long: Frame, sch: Schema, rows: nat) {
    predicate Valid() {
      sch == SchemaOf(long) && sch.seriesType == SeriesType.Long && rows > 0 && Rectangular(long, rows)
    }

    /** timeAt: None when the time is null. */
    function Time(r: nat): Option<int>
      requires Valid() && r < rows
    {
      var c := long[sch.timeIndex].cells[r];
      assert WellTyped(long[sch.timeIndex]);
      if c.Null? then None else Some(c.v.at)
    }

    /** The factor in column `c` as label text; a null counts as the zero value. */
    function Text(r: nat, c: nat): GoString
      requires Valid() && r < rows && c < |long| && IsFactor(long[c])
    {
      var cell := long[c].cells[r];
      assert WellTyped(long[c]);
      var v := if cell.Null? then ZeroValue(long[c].ftype.kind) else cell.v;
      if v.StrVal? then v.text else if v.flag then TRUE else FALSE
    }

    /** Column number and factor text, in column order. */
    function SliceKey(r: nat): (ps: seq<Pair>)
      requires Valid() && r < rows
      ensures |ps| == |sch.factorIndices|
    {
      seq(|sch.factorIndices|, i requires 0 <= i < |sch.factorIndices| =>
        Pair(Decimal(sch.factorIndices[i]), Text(r, sch.factorIndices[i])))
    }

    /** Column name and factor text, in column order. */
    function NamedKey(r: nat): (ps: seq<Pair>)
      requires Valid() && r < rows
      ensures |ps| == |sch.factorIndices|
    {
      seq(|sch.factorIndices|, i requires 0 <= i < |sch.factorIndices| =>
        Pair(long[sch.factorIndices[i]].name, Text(r, sch.factorIndices[i])))
    }

    /** What the processor takes a row's series to be. */
    function Key(r: nat): GoString
      requires Valid() && r < rows
    {
      MapKey(SortByKey(SliceKey(r)))
    }

    function FactorNames(): seq<GoString>
      requires Valid()
    {
      seq(|sch.factorIndices|, i requires 0 <= i < |sch.factorIndices| => long[sch.factorIndices[i]].name)
    }

    /** What the pivot depends on: per row a time (0 when null), a series key and labels. */
    function Rows(): Table
      requires Valid()
    {
      Table(seq(rows, r requires 0 <= r < rows => if Time(r).Some? then Time(r).value else 0),
            seq(rows, r requires 0 <= r < rows => Key(r)),
            seq(rows, r requires 0 <= r < rows => LabelsOf(NamedKey(r), |sch.factorIndices|)),
            sch.valueIndices, long)
    }
  }

  const TRUE: GoString := [0x74, 0x72, 0x75, 0x65]
  const FALSE: GoString := [0x66, 0x61, 0x6C, 0x73, 0x65]

  /** strconv.FormatInt(n, 10). */
  function Decimal(n: nat): GoString { if n < 10 then [0x30 + n] else Decimal(n / 10) + [0x30 + n % 10] }

  /** Rows belong to one series exactly when their factor texts agree (malformed bytes blurred). */
  lemma SameSeriesExact(s: LongSeries, r: nat, q: nat)
    requires s.Valid() && r < s.rows && q < s.rows
    ensures s.Key(r) == s.Key(q) <==>
            forall i :: 0 <= i < |s.sch.factorIndices| ==>
              Units(s.Text(r, s.sch.factorIndices[i])) == Units(s.Text(q, s.sch.factorIndices[i]))
  {
    SortedMapKeyExact(s.SliceKey(r), s.SliceKey(q));
    var ps, qs := s.SliceKey(r), s.SliceKey(q);
    forall i | 0 <= i < |ps|
      ensures ps[i].value == s.Text(r, s.sch.factorIndices[i]) && qs[i].value == s.Text(q, s.sch.factorIndices[i])
    {
    }
  }

  // ----- what the wide frame is, after the first `n` rows -----

  datatype Table = Table(times: seq<int>, keys: seq<GoString>, labels: seq<Labels>, columns: seq<nat>, long: Frame) {
    predicate Ok() {
      && |keys| == |labels| == |times|
      && (forall i :: 0 <= i < |columns| ==> columns[i] < |long| && |long[columns[i]].cells| == |times|)
      && (forall i, j :: 0 <= i < j < |columns| ==> columns[i] < columns[j])
    }
  }

  predicate Ascending(ts: seq<int>, n: nat)
    requires n <= |ts|
  {
    forall r, q :: 0 <= r < q < n ==> ts[r] <= ts[q]
  }

  /** The time column: the first time, then every time that advances. */
  function Times(ts: seq<int>, n: nat): (ws: seq<int>)
    requires ts != [] && n <= |ts|
    ensures ws != []
  {
    if n <= 1 then [ts[0]]
    else
      var ws := Times(ts, n - 1);
      if ts[n - 1] > ws[|ws| - 1] then ws + [ts[n - 1]] else ws
  }

  /** No row before `r` belongs to its series. */
  predicate First(keys: seq<GoString>, r: nat)
    requires r < |keys|
  {
    forall q :: 0 <= q < r ==> keys[q] != keys[r]
  }

  /** A wide column: the first row of its series, and the long column its values come from. */
  datatype Origin = Origin(first: nat, column: nat)

  function OriginsOf(r: nat, columns: seq<nat>): (os: seq<Origin>)
    ensures |os| == |columns| && forall i :: 0 <= i < |os| ==> os[i] == Origin(r, columns[i])
  {
    seq(|columns|, i requires 0 <= i < |columns| => Origin(r, columns[i]))
  }

  /** Wide columns in the order they are born. */
  function Origins(tb: Table, n: nat): (os: seq<Origin>)
    requires n <= |tb.keys|
    ensures forall j :: 0 <= j < |os| ==> os[j].first < n && First(tb.keys, os[j].first) && os[j].column in tb.columns
    ensures tb.Ok() ==> forall j :: 0 <= j < |os| ==> OriginOk(tb, os[j])
  {
    if n == 0 then []
    else Origins(tb, n - 1) + if First(tb.keys, n - 1) then OriginsOf(n - 1, tb.columns) else []
  }

  /** The last of the first `n` rows in series `k` at time `t`, or -1. */
  function LastAt(tb: Table, n: nat, k: GoString, t: int): (q: int)
    requires n <= |tb.keys| == |tb.times|
    ensures -1 <= q < n
    ensures q >= 0 ==> tb.keys[q] == k && tb.times[q] == t
    ensures forall p :: q < p < n && tb.keys[p] == k ==> tb.times[p] != t
  {
    if n == 0 then -1
    else if tb.keys[n - 1] == k && tb.times[n - 1] == t then n - 1
    else LastAt(tb, n - 1, k, t)
  }

  /** The last of the first `n` rows in series `k` no later than `t`, or -1. */
  function LastUpTo(tb: Table, n: nat, k: GoString, t: int): (q: int)
    requires n <= |tb.keys| == |tb.times|
    ensures -1 <= q < n
    ensures q >= 0 ==> tb.keys[q] == k && tb.times[q] <= t
    ensures forall p :: q < p < n && tb.keys[p] == k ==> tb.times[p] > t
  {
    if n == 0 then -1
    else if tb.keys[n - 1] == k && tb.times[n - 1] <= t then n - 1
    else LastUpTo(tb, n - 1, k, t)
  }

  /** The cell of series `k` at `t` when no long row speaks for it; `source` is the long column. */
  function Missing(tb: Table, fill: Fill, n: nat, k: GoString, source: Field, t: int): Cell
    requires n <= |tb.keys| == |tb.times| == |source.cells|
  {
    match fill
    case NoFill => Zero(source.ftype)
    case NullFill => Null
    case Constant(convert) =>
      var c := ConvertedFill(convert, source.ftype.kind);
      if c.Some? then c.value else Zero(source.ftype)
    case Previous =>
      var p := LastUpTo(tb, n, k, t);
      if p >= 0 then source.cells[p] else Null
  }

  function CellAt(tb: Table, fill: Fill, n: nat, k: GoString, source: Field, t: int): Cell
    requires n <= |tb.keys| == |tb.times| == |source.cells|
  {
    var q := LastAt(tb, n, k, t);
    if q >= 0 then source.cells[q] else Missing(tb, fill, n, k, source, t)
  }

  /** Null and Previous fills make every value column nullable. */
  function WideType(fill: Fill, t: FieldType): FieldType {
    if fill.Previous? || fill.NullFill? then t.(nullable := true) else t
  }

  predicate OriginOk(tb: Table, o: Origin) {
    o.first < |tb.keys| == |tb.times| == |tb.labels| && o.column < |tb.long| && |tb.long[o.column].cells| == |tb.times|
  }

  function Cells(tb: Table, fill: Fill, n: nat, o: Origin, ws: seq<int>): (cs: seq<Cell>)
    requires n <= |tb.keys| && OriginOk(tb, o)
    ensures |cs| == |ws|
    ensures forall w :: 0 <= w < |ws| ==> cs[w] == CellAt(tb, fill, n, tb.keys[o.first], tb.long[o.column], ws[w])
  {
    seq(|ws|, w requires 0 <= w < |ws| => CellAt(tb, fill, n, tb.keys[o.first], tb.long[o.column], ws[w]))
  }

  function Header(tb: Table, fill: Fill, o: Origin, cells: seq<Cell>): Field
    requires OriginOk(tb, o)
  {
    Field(tb.long[o.column].name, WideType(fill, tb.long[o.column].ftype), Some(tb.labels[o.first]), cells)
  }

  function TimeColumn(name: GoString, ws: seq<int>): Field {
    Field(name, FieldType(TimeKind, false), None, seq(|ws|, w requires 0 <= w < |ws| => Val(TimeVal(ws[w]))))
  }

  /** The wide frame with time column `ws` and value columns `os`, knowing the first `n` rows. */
  function Grid(tb: Table, fill: Fill, name: GoString, n: nat, ws: seq<int>, os: seq<Origin>): (f: Frame)
    requires n <= |tb.keys| && forall j :: 0 <= j < |os| ==> OriginOk(tb, os[j])
    ensures |f| == 1 + |os| && f[0] == TimeColumn(name, ws)
    ensures forall j :: 1 <= j < |f| ==> f[j] == Header(tb, fill, os[j - 1], Cells(tb, fill, n, os[j - 1], ws))
    ensures forall j :: 0 <= j < |f| ==> |f[j].cells| == |ws|
  {
    [TimeColumn(name, ws)]
    + seq(|os|, j requires 0 <= j < |os| => Header(tb, fill, os[j], Cells(tb, fill, n, os[j], ws)))
  }

  function Pivot(tb: Table, fill: Fill, name: GoString, n: nat): Frame
    requires tb.Ok() && tb.times != [] && n <= |tb.keys|
  {
    Grid(tb, fill, name, n, Times(tb.times, n), Origins(tb, n))
  }

  /** A strictly increasing time column that ends with `t`. */
  predicate LastOf(ws: seq<int>, t: int) {
    ws != [] && ws[|ws| - 1] == t && forall i, j :: 0 <= i < j < |ws| ==> ws[i] < ws[j]
  }

  lemma {:induction false} TimesAdvance(ts: seq<int>, n: nat)
    requires ts != [] && n <= |ts| && Ascending(ts, n)
    ensures LastOf(Times(ts, n), ts[if n == 0 then 0 else n - 1])
    decreases n
  {
    if n > 1 {
      TimesAdvance(ts, n - 1);
      var ws := Times(ts, n - 1);
      assert ts[n - 2] <= ts[n - 1];
    }
  }

  /** The time column holds the input's times, no more and no fewer. */
  lemma {:induction false} TimesCover(ts: seq<int>, n: nat, t: int)
    requires 0 < n <= |ts| && Ascending(ts, n)
    ensures t in Times(ts, n) <==> exists r :: 0 <= r < n && ts[r] == t
    decreases n
  {
    if n > 1 {
      TimesCover(ts, n - 1, t);
      TimesAdvance(ts, n - 1);
      var ws := Times(ts, n - 1);
      assert ws[|ws| - 1] == ts[n - 2] <= ts[n - 1];
      if exists r :: 0 <= r < n && ts[r] == t {
        var r :| 0 <= r < n && ts[r] == t;
        if r == n - 1 && ts[n - 1] <= ws[|ws| - 1] { assert ts[n - 2] == t; }
      }
    }
  }

  /** What a new row of a column starts with: the previous cell carries over in Previous mode. */
  lemma CellOfNewTime(tb: Table, fill: Fill, n: nat, k: GoString, source: Field, last: int, t: int)
    requires n <= |tb.keys| == |tb.times| == |source.cells| && Ascending(tb.times, n) && last < t
    requires forall r :: 0 <= r < n ==> tb.times[r] <= last
    ensures CellAt(tb, fill, n, k, source, t)
         == match fill
            case NoFill => Zero(source.ftype)
            case NullFill => Null
            case Constant(convert) =>
              if source.ftype.kind.NumberKind? then Val(NumVal(convert(source.ftype.kind.code))) else Zero(source.ftype)
            case Previous => CellAt(tb, fill, n, k, source, last)
  {
    assert LastAt(tb, n, k, t) == -1;
    assert LastUpTo(tb, n, k, t) == LastUpTo(tb, n, k, last);
    var q, p := LastAt(tb, n, k, last), LastUpTo(tb, n, k, last);
    if q >= 0 { assert p >= q && tb.times[q] <= tb.times[p]; }
  }

  /** What a column born at row `n` is back-filled with. */
  lemma CellBeforeBirth(tb: Table, fill: Fill, n: nat, source: Field, t: int)
    requires n < |tb.keys| == |tb.times| == |source.cells| && First(tb.keys, n) && t < tb.times[n]
    ensures CellAt(tb, fill, n + 1, tb.keys[n], source, t)
         == match fill
            case NoFill => Zero(source.ftype)
            case NullFill => Null
            case Constant(convert) =>
              if source.ftype.kind.NumberKind? then Val(NumVal(convert(source.ftype.kind.code))) else Zero(source.ftype)
            case Previous => Null
  {
    assert LastAt(tb, n, tb.keys[n], t) == -1 && LastUpTo(tb, n, tb.keys[n], t) == -1;
  }

  /** Row `n` decides its own cell and no other one at or before its time. */
  lemma CellAfterRow(tb: Table, fill: Fill, n: nat, k: GoString, source: Field, t: int)
    requires n < |tb.keys| == |tb.times| == |source.cells| && t <= tb.times[n]
    ensures CellAt(tb, fill, n + 1, k, source, t)
         == if tb.keys[n] == k && tb.times[n] == t then source.cells[n] else CellAt(tb, fill, n, k, source, t)
  {
  }

  // ----- the one-pass processor -----

  datatype Error = NotLongSeries | RaggedFrame | NoRows | NullTime | Unsorted | DuplicateLabel

  /** What one more time does to a value column. */
  function AdvanceField(fill: Fill, f: Field): Field
  {
    var field := Extend(f);
    var fillVal := GetMissing(fill, field, |f.cells| - 1);
    if fillVal.Some? then SetCell(field, |f.cells|, fillVal.value) else field
  }

  lemma AdvanceFieldIsNextColumn(tb: Table, fill: Fill, n: nat, o: Origin, ws: seq<int>, t: int)
    requires n <= |tb.keys| && OriginOk(tb, o) && Ascending(tb.times, n)
    requires ws != [] && (forall r :: 0 <= r < n ==> tb.times[r] <= ws[|ws| - 1]) && ws[|ws| - 1] < t
    ensures AdvanceField(fill, Header(tb, fill, o, Cells(tb, fill, n, o, ws)))
         == Header(tb, fill, o, Cells(tb, fill, n, o, ws + [t]))
  {
    CellOfNewTime(tb, fill, n, tb.keys[o.first], tb.long[o.column], ws[|ws| - 1], t);
    var f := Header(tb, fill, o, Cells(tb, fill, n, o, ws));
    var g := Header(tb, fill, o, Cells(tb, fill, n, o, ws + [t]));
    assert AdvanceField(fill, f).cells == g.cells;
  }

  lemma GridAdvances(tb: Table, fill: Fill, name: GoString, n: nat, ws: seq<int>, os: seq<Origin>, t: int, after: Frame)
    requires n <= |tb.keys| && n <= |tb.times| && Ascending(tb.times, n)
    requires ws != [] && (forall r :: 0 <= r < n ==> tb.times[r] <= ws[|ws| - 1]) && ws[|ws| - 1] < t
    requires forall j :: 0 <= j < |os| ==> OriginOk(tb, os[j])
    requires var before := Grid(tb, fill, name, n, ws, os);
             && |after| == |before| && after[0] == SetCell(Extend(before[0]), |ws|, Val(TimeVal(t)))
             && forall j :: 0 < j < |after| ==> after[j] == AdvanceField(fill, before[j])
    ensures after == Grid(tb, fill, name, n, ws + [t], os)
  {
    var grid := Grid(tb, fill, name, n, ws + [t], os);
    assert after[0].cells == grid[0].cells;
    forall j | 0 < j < |after| ensures after[j] == grid[j] {
      AdvanceFieldIsNextColumn(tb, fill, n, os[j - 1], ws, t);
    }
  }

  // ----- what one row does to the columns -----

  /** A column born with `rows` rows: everything but the current row is back-filled. */
  function NewColumn(long: Field, fill: Fill, labels: Labels, rows: nat): (f: Field)
    requires rows > 0
    ensures |f.cells| == rows
  {
    var t := WideType(fill, long.ftype);
    var zero := Field(long.name, t, Some(labels), seq(rows, _ => Zero(t)));
    var fillVal := GetMissing(fill, zero, rows - 2);
    zero.(cells := seq(rows, w requires 0 <= w < rows => if fillVal.Some? && w < rows - 1 then fillVal.value else Zero(t)))
  }

  /** The first `n` columns of a new series. */
  function NewColumns(long: Frame, fill: Fill, columns: seq<nat>, labels: Labels, rows: nat, n: nat): (f: Frame)
    requires n <= |columns| && rows > 0 && forall i :: 0 <= i < |columns| ==> columns[i] < |long|
    ensures |f| == n
  {
    if n == 0 then []
    else NewColumns(long, fill, columns, labels, rows, n - 1) + [NewColumn(long[columns[n - 1]], fill, labels, rows)]
  }

  lemma {:induction false} NewColumnsAt(long: Frame, fill: Fill, columns: seq<nat>, labels: Labels, rows: nat, n: nat, i: nat)
    requires i < n <= |columns| && rows > 0 && forall j :: 0 <= j < |columns| ==> columns[j] < |long|
    ensures NewColumns(long, fill, columns, labels, rows, n)[i] == NewColumn(long[columns[i]], fill, labels, rows)
    decreases n
  {
    if i < n - 1 { NewColumnsAt(long, fill, columns, labels, rows, n - 1, i); }
  }

  lemma Append(f: Frame, g: Frame, x: Field)
    ensures (f + g) + [x] == f + (g + [x])
  {
  }

  /** The row of a column's own series sets its cell; the column knows one row more. */
  lemma OldColumnAfterRow(tb: Table, fill: Fill, n: nat, o: Origin, ws: seq<int>)
    requires n < |tb.keys| && OriginOk(tb, o)
    requires ws != [] && ws[|ws| - 1] == tb.times[n] && forall i, j :: 0 <= i < j < |ws| ==> ws[i] < ws[j]
    ensures var f := Header(tb, fill, o, Cells(tb, fill, n, o, ws));
            var g := Header(tb, fill, o, Cells(tb, fill, n + 1, o, ws));
            g == if tb.keys[n] == tb.keys[o.first] then SetCell(f, |ws| - 1, tb.long[o.column].cells[n]) else f
  {
    var f, g := Cells(tb, fill, n, o, ws), Cells(tb, fill, n + 1, o, ws);
    var k, source := tb.keys[o.first], tb.long[o.column];
    forall w | 0 <= w < |ws|
      ensures g[w] == if tb.keys[n] == k && w == |ws| - 1 then source.cells[n] else f[w]
    {
      CellAfterRow(tb, fill, n, k, source, ws[w]);
    }
    assert g == if tb.keys[n] == k then f[|ws| - 1 := source.cells[n]] else f;
  }

  lemma NewColumnAfterRow(tb: Table, fill: Fill, n: nat, c: nat, ws: seq<int>)
    requires n < |tb.keys| && OriginOk(tb, Origin(n, c)) && First(tb.keys, n)
    requires ws != [] && ws[|ws| - 1] == tb.times[n] && forall i, j :: 0 <= i < j < |ws| ==> ws[i] < ws[j]
    ensures Header(tb, fill, Origin(n, c), Cells(tb, fill, n + 1, Origin(n, c), ws))
         == SetCell(NewColumn(tb.long[c], fill, tb.labels[n], |ws|), |ws| - 1, tb.long[c].cells[n])
  {
    var source := tb.long[c];
    var g := Cells(tb, fill, n + 1, Origin(n, c), ws);
    var f := SetCell(NewColumn(source, fill, tb.labels[n], |ws|), |ws| - 1, source.cells[n]);
    forall w | 0 <= w < |ws| ensures g[w] == f.cells[w] {
      if w < |ws| - 1 {
        CellBeforeBirth(tb, fill, n, source, ws[w]);
      } else {
        CellAfterRow(tb, fill, n, tb.keys[n], source, ws[w]);
      }
    }
    assert g == f.cells;
  }

  /** valueFactorToWideFieldIdx, its two levels flattened: value column and series to wide column. */
  type Slots = map<(nat, GoString), nat>

  function SlotKey(tb: Table, o: Origin): (nat, GoString)
    requires o.first < |tb.keys|
  {
    (o.column, tb.keys[o.first])
  }

  predicate FoundAt(idx: Slots, p: (nat, GoString), slot: nat) { p in idx && idx[p] == slot }

  predicate BornFor(tb: Table, os: seq<Origin>, p: (nat, GoString)) {
    exists j :: 0 <= j < |os| && os[j].first < |tb.keys| && SlotKey(tb, os[j]) == p
  }

  /** The look-up table finds, for each value column and series, the wide column born for them. */
  predicate SlotsOk(idx: Slots, tb: Table, os: seq<Origin>) {
    && (forall j :: 0 <= j < |os| ==> os[j].first < |tb.keys| && FoundAt(idx, SlotKey(tb, os[j]), j + 1))
    && (forall p :: p in idx ==> BornFor(tb, os, p))
  }

  /** The first `n` entries for a new series whose columns start at `base`. */
  function AddSlots(idx: Slots, columns: seq<nat>, key: GoString, base: nat, n: nat): Slots
    requires n <= |columns|
  {
    if n == 0 then idx else AddSlots(idx, columns, key, base, n - 1)[(columns[n - 1], key) := base + n - 1]
  }

  lemma {:induction false} SlotsAdded(idx: Slots, columns: seq<nat>, key: GoString, base: nat, n: nat)
    requires n <= |columns| && forall i, j :: 0 <= i < j < |columns| ==> columns[i] != columns[j]
    ensures var idxAfter := AddSlots(idx, columns, key, base, n);
            && (forall i :: 0 <= i < n ==> (columns[i], key) in idxAfter && idxAfter[(columns[i], key)] == base + i)
            && (forall p :: p in idx && p.1 != key ==> p in idxAfter && idxAfter[p] == idx[p])
            && (forall p :: p in idxAfter ==> p in idx || (p.1 == key && p.0 in columns))
  {
    if n > 0 { SlotsAdded(idx, columns, key, base, n - 1); }
  }

  lemma NewSeriesKeepsSlots(idx: Slots, tb: Table, os: seq<Origin>, n: nat)
    requires SlotsOk(idx, tb, os) && n < |tb.keys| && tb.Ok() && (forall p :: p in idx ==> p.1 != tb.keys[n])
    ensures SlotsOk(AddSlots(idx, tb.columns, tb.keys[n], 1 + |os|, |tb.columns|), tb, os + OriginsOf(n, tb.columns))
  {
    var idxAfter := AddSlots(idx, tb.columns, tb.keys[n], 1 + |os|, |tb.columns|);
    var osAfter := os + OriginsOf(n, tb.columns);
    SlotsAdded(idx, tb.columns, tb.keys[n], 1 + |os|, |tb.columns|);
    forall j | 0 <= j < |osAfter| ensures osAfter[j].first < |tb.keys| && FoundAt(idxAfter, SlotKey(tb, osAfter[j]), j + 1) {
      if j < |os| {
        assert osAfter[j] == os[j] && FoundAt(idx, SlotKey(tb, os[j]), j + 1);
      } else {
        assert osAfter[j] == Origin(n, tb.columns[j - |os|]);
      }
    }
    forall p | p in idxAfter ensures BornFor(tb, osAfter, p) {
      if p in idx {
        var j :| 0 <= j < |os| && os[j].first < |tb.keys| && SlotKey(tb, os[j]) == p;
        assert osAfter[j] == os[j];
      } else {
        var i :| 0 <= i < |tb.columns| && tb.columns[i] == p.0;
        assert osAfter[|os| + i] == Origin(n, tb.columns[i]) && SlotKey(tb, osAfter[|os| + i]) == p;
      }
    }
  }

  /** The columns after row `n`, those it gave birth to included. */
  function OriginsAfter(tb: Table, n: nat, os: seq<Origin>): seq<Origin>
    requires n < |tb.keys|
  {
    os + if First(tb.keys, n) then OriginsOf(n, tb.columns) else []
  }

  /** The wide frame once row `n`'s new columns exist and before its values are set. */
  predicate WithNewColumns(tb: Table, fill: Fill, n: nat, rows: nat, osAfter: seq<Origin>, before: Frame, mid: Frame)
    requires n < |tb.labels| && rows > 0
  {
    && |mid| == 1 + |osAfter| >= |before| >= 1
    && (forall j :: 0 <= j < |before| ==> mid[j] == before[j])
    && (forall j :: |before| <= j < |mid| ==>
          osAfter[j - 1].column < |tb.long| && mid[j] == NewColumn(tb.long[osAfter[j - 1].column], fill, tb.labels[n], rows))
  }

  /** Row `n` has set its value in column `o`, if that belongs to its series. */
  predicate RowSet(tb: Table, n: nat, o: Origin, w: nat, before: Field, after: Field)
    requires n < |tb.keys| && OriginOk(tb, o)
  {
    if tb.keys[o.first] == tb.keys[n]
    then w < |before.cells| && after == SetCell(before, w, tb.long[o.column].cells[n])
    else after == before
  }

  function ColumnSet(columns: seq<nat>): set<nat> { set c | c in columns }

  /** Row `n` has been copied into the columns born from `done`. */
  predicate RowSetFor(tb: Table, n: nat, os: seq<Origin>, w: nat, done: set<nat>, before: Frame, after: Frame)
    requires n < |tb.keys| && forall j :: 0 <= j < |os| ==> OriginOk(tb, os[j])
  {
    && |after| == |before| == 1 + |os| && after[0] == before[0]
    && (forall j :: 0 <= j < |after| ==> |after[j].cells| == |before[j].cells| == w + 1)
    && (forall j :: 1 <= j < |after| ==>
          if os[j - 1].column in done then RowSet(tb, n, os[j - 1], w, before[j], after[j]) else after[j] == before[j])
  }

  lemma SetOneSlot(tb: Table, n: nat, os: seq<Origin>, idx: Slots, w: nat, done: set<nat>, before: Frame, was: Frame, c: nat)
    requires n < |tb.keys| && (forall j :: 0 <= j < |os| ==> OriginOk(tb, os[j])) && SlotsOk(idx, tb, os)
    requires RowSetFor(tb, n, os, w, done, before, was) && c !in done && (c, tb.keys[n]) in idx
    requires c < |tb.long| && |tb.long[c].cells| == |tb.times|
    ensures var slot := idx[(c, tb.keys[n])];
            && 1 <= slot < |was|
            && RowSetFor(tb, n, os, w, done + {c}, before, was[slot := SetCell(was[slot], w, tb.long[c].cells[n])])
  {
    assert BornFor(tb, os, (c, tb.keys[n]));
    var slot := idx[(c, tb.keys[n])];
    var j :| 0 <= j < |os| && SlotKey(tb, os[j]) == (c, tb.keys[n]);
    assert FoundAt(idx, SlotKey(tb, os[j]), j + 1);
    var now := was[slot := SetCell(was[slot], w, tb.long[c].cells[n])];
    forall j | 1 <= j < |now| && os[j - 1].column == c ensures RowSet(tb, n, os[j - 1], w, before[j], now[j]) {
      assert FoundAt(idx, SlotKey(tb, os[j - 1]), j);
    }
  }

  lemma ColumnAfterRow(tb: Table, fill: Fill, n: nat, ws: seq<int>, o: Origin, before: Field, after: Field)
    requires n < |tb.keys| && OriginOk(tb, o) && ws != [] && RowSet(tb, n, o, |ws| - 1, before, after)
    requires ws[|ws| - 1] == tb.times[n] && forall p, q :: 0 <= p < q < |ws| ==> ws[p] < ws[q]
    requires if o.first == n then First(tb.keys, n) && before == NewColumn(tb.long[o.column], fill, tb.labels[n], |ws|)
             else before == Header(tb, fill, o, Cells(tb, fill, n, o, ws))
    ensures after == Header(tb, fill, o, Cells(tb, fill, n + 1, o, ws))
  {
    if o.first == n {
      NewColumnAfterRow(tb, fill, n, o.column, ws);
    } else {
      OldColumnAfterRow(tb, fill, n, o, ws);
    }
  }

  /** One row processed: the columns of its series have its values, new columns included. */
  lemma GridAfterRow(tb: Table, fill: Fill, name: GoString, n: nat, ws: seq<int>, os: seq<Origin>, mid: Frame, after: Frame)
    requires tb.Ok() && n < |tb.keys| && os == Origins(tb, n)
    requires ws != [] && ws[|ws| - 1] == tb.times[n] && forall i, j :: 0 <= i < j < |ws| ==> ws[i] < ws[j]
    requires WithNewColumns(tb, fill, n, |ws|, Origins(tb, n + 1), Grid(tb, fill, name, n, ws, os), mid)
    requires |after| == |mid| && after[0] == mid[0]
    requires forall j :: 1 <= j < |after| ==> RowSet(tb, n, Origins(tb, n + 1)[j - 1], |ws| - 1, mid[j], after[j])
    ensures after == Grid(tb, fill, name, n + 1, ws, Origins(tb, n + 1))
  {
    var osAfter := Origins(tb, n + 1);
    var before, grid := Grid(tb, fill, name, n, ws, os), Grid(tb, fill, name, n + 1, ws, osAfter);
    forall j | 1 <= j < |after| ensures after[j] == grid[j] {
      assert j < |before| ==> osAfter[j - 1] == os[j - 1];
      ColumnAfterRow(tb, fill, n, ws, osAfter[j - 1], mid[j], after[j]);
    }
  }

  /** Row `r` has in `tb` the key and labels it has in the long frame. */
  predicate Describes(tb: Table, s: LongSeries, r: nat)
    requires s.Valid() && r < s.rows && r < |tb.keys| == |tb.labels|
  {
    tb.keys[r] == s.Key(r) && tb.labels[r] == LabelsOf(s.NamedKey(r), |s.sch.factorIndices|)
  }

  predicate RowsSized(tb: Table, rows: nat) { |tb.keys| == |tb.labels| == |tb.times| == rows }

  /** `tb` is the table of the long frame. */
  ghost predicate Pictures(tb: Table, s: LongSeries) {
    && s.Valid() && RowsSized(tb, s.rows) && tb.Ok() && tb.long == s.long && tb.columns == s.sch.valueIndices
    && (forall r {:trigger s.Time(r)} :: 0 <= r < s.rows && s.Time(r).Some? ==> tb.times[r] == s.Time(r).value)
    && (forall r {:trigger Describes(tb, s, r)} :: 0 <= r < s.rows ==> Describes(tb, s, r))
  }

  lemma RowsDescribe(s: LongSeries, r: nat)
    requires s.Valid() && r < s.rows
    ensures RowsSized(s.Rows(), s.rows) && Describes(s.Rows(), s, r)
  {
  }

  lemma RowsPicture(s: LongSeries)
    requires s.Valid()
    ensures Pictures(s.Rows(), s)
  {
    forall r: nat | r < s.rows ensures RowsSized(s.Rows(), s.rows) && Describes(s.Rows(), s, r) { RowsDescribe(s, r); }
  }

  /** What is wrong with row `r`, if anything; `last` is the latest time before it. */
  predicate KnownRow(tb: Table, s: LongSeries, r: nat) { s.Valid() && r < s.rows && r < |tb.keys| }

  function RowFault(tb: Table, s: LongSeries, r: nat, last: int): Option<Error>
    requires KnownRow(tb, s, r)
  {
    if s.Time(r).None? then Some(NullTime)
    else if s.Time(r).value < last then Some(Unsorted)
    else if First(tb.keys, r) && !Distinct(s.FactorNames()) then Some(DuplicateLabel)
    else None
  }

  /** The processor's state after `n` rows: the pivot of those rows, and look-up tables that describe it. */
  ghost predicate Processed(tb: Table, fill: Fill, name: GoString, n: nat, lastTime: int, counter: nat, wide: Frame,
                            seen: set<GoString>, idx: Slots)
  {
    && tb.Ok() && tb.times != [] && n <= |tb.keys| && Ascending(tb.times, n)
    && var ws := Times(tb.times, n);
    && lastTime == ws[|ws| - 1] && counter == |ws| - 1
    && wide == Pivot(tb, fill, name, n)
    && SeenOk(tb, n, seen, idx) && SlotsOk(idx, tb, Origins(tb, n))
  }

  ghost predicate SeenOk(tb: Table, n: nat, seen: set<GoString>, idx: Slots)
    requires n <= |tb.keys|
  {
    && seen == (set r | 0 <= r < n :: tb.keys[r])
    && (forall c, k :: (c, k) in idx <==> c in tb.columns && k in seen)
  }

  /** The columns get a row for time `t`. */
  predicate Advances(fill: Fill, t: int, before: Frame, after: Frame) {
    && |after| == |before| > 0 && after[0] == SetCell(Extend(before[0]), |before[0].cells|, Val(TimeVal(t)))
    && forall j :: 0 < j < |after| ==> after[j] == AdvanceField(fill, before[j])
  }

  lemma TimesStep(ts: seq<int>, n: nat)
    requires n < |ts| && Ascending(ts, n) && Times(ts, n)[|Times(ts, n)| - 1] <= ts[n]
    ensures Ascending(ts, n + 1) && LastOf(Times(ts, n + 1), ts[n])
    ensures Times(ts, n + 1) == Times(ts, n) + if ts[n] > Times(ts, n)[|Times(ts, n)| - 1] then [ts[n]] else []
    ensures forall r :: 0 <= r < n ==> ts[r] <= Times(ts, n)[|Times(ts, n)| - 1]
  {
    TimesAdvance(ts, n);
    forall r | 0 <= r < n ensures ts[r] <= Times(ts, n)[|Times(ts, n)| - 1] {
      if r < n - 1 { assert ts[r] <= ts[n - 1]; }
    }
    TimesAdvance(ts, n + 1);
  }

  predicate Stepped(fill: Fill, last: int, t: int, wide: Frame, wideAfter: Frame) {
    if t > last then Advances(fill, t, wide, wideAfter) else t == last && wideAfter == wide
  }

  /** The time advances, or stays. */
  lemma AdvancedState(tb: Table, fill: Fill, name: GoString, n: nat, wide: Frame, wideAfter: Frame)
    requires tb.Ok() && n < |tb.keys| && Ascending(tb.times, n)
    requires wide == Pivot(tb, fill, name, n)
    requires Stepped(fill, Times(tb.times, n)[|Times(tb.times, n)| - 1], tb.times[n], wide, wideAfter)
    ensures wideAfter == Grid(tb, fill, name, n, Times(tb.times, n + 1), Origins(tb, n))
  {
    TimesStep(tb.times, n);
    var ws := Times(tb.times, n);
    if tb.times[n] > ws[|ws| - 1] {
      TimesAdvance(tb.times, n);
      GridAdvances(tb, fill, name, n, ws, Origins(tb, n), tb.times[n], wideAfter);
    }
  }

  /** The look-up tables and columns once row `n`'s series is known. */
  ghost predicate SeriesKnown(tb: Table, fill: Fill, n: nat, rows: nat, osAfter: seq<Origin>, before: Frame, mid: Frame,
                              seen: set<GoString>, idx: Slots)
    requires n < |tb.keys| == |tb.labels| && rows > 0
  {
    && WithNewColumns(tb, fill, n, rows, osAfter, before, mid)
    && SlotsOk(idx, tb, osAfter) && SeenOk(tb, n + 1, seen, idx)
    && forall j :: 0 <= j < |mid| ==> |mid[j].cells| == rows
  }

  lemma SeenIsNotFirst(tb: Table, n: nat, seen: set<GoString>, idx: Slots)
    requires n < |tb.keys| && SeenOk(tb, n, seen, idx)
    ensures tb.keys[n] in seen <==> !First(tb.keys, n)
    ensures tb.keys[n] in seen ==> SeenOk(tb, n + 1, seen, idx)
  {
    if tb.keys[n] in seen {
      var r :| 0 <= r < n && tb.keys[r] == tb.keys[n];
      assert seen == set r | 0 <= r < n + 1 :: tb.keys[r];
    }
  }

  lemma NewIsSeen(tb: Table, n: nat, seen: set<GoString>, idx: Slots, base: nat)
    requires tb.Ok() && n < |tb.keys| && SeenOk(tb, n, seen, idx) && tb.keys[n] !in seen
    ensures SeenOk(tb, n + 1, seen + {tb.keys[n]}, AddSlots(idx, tb.columns, tb.keys[n], base, |tb.columns|))
  {
    SlotsAdded(idx, tb.columns, tb.keys[n], base, |tb.columns|);
    var idxAfter, seenAfter := AddSlots(idx, tb.columns, tb.keys[n], base, |tb.columns|), seen + {tb.keys[n]};
    assert seenAfter == set r | 0 <= r < n + 1 :: tb.keys[r];
    forall c, k ensures (c, k) in idxAfter <==> c in tb.columns && k in seenAfter {
      if k == tb.keys[n] {
        if c in tb.columns {
          var i :| 0 <= i < |tb.columns| && tb.columns[i] == c;
          assert (tb.columns[i], k) in idxAfter;
        } else {
          assert (c, k) !in idx;
        }
      }
    }
  }

  lemma NewColumnsAppended(tb: Table, fill: Fill, n: nat, rows: nat, os: seq<Origin>, before: Frame)
    requires tb.Ok() && n < |tb.keys| && rows > 0 && |before| == 1 + |os|
    requires forall j :: 0 <= j < |before| ==> |before[j].cells| == rows
    ensures var mid := before + NewColumns(tb.long, fill, tb.columns, tb.labels[n], rows, |tb.columns|);
            && WithNewColumns(tb, fill, n, rows, os + OriginsOf(n, tb.columns), before, mid)
            && forall j :: 0 <= j < |mid| ==> |mid[j].cells| == rows
  {
    var osAfter := os + OriginsOf(n, tb.columns);
    var mid := before + NewColumns(tb.long, fill, tb.columns, tb.labels[n], rows, |tb.columns|);
    forall j | |before| <= j < |mid|
      ensures osAfter[j - 1].column < |tb.long|
      ensures mid[j] == NewColumn(tb.long[osAfter[j - 1].column], fill, tb.labels[n], rows)
    {
      NewColumnsAt(tb.long, fill, tb.columns, tb.labels[n], rows, |tb.columns|, j - |before|);
    }
  }

  lemma SeenSeries(tb: Table, fill: Fill, n: nat, rows: nat, os: seq<Origin>, before: Frame, seen: set<GoString>, idx: Slots)
    requires n < |tb.keys| == |tb.labels| && rows > 0 && SlotsOk(idx, tb, os) && SeenOk(tb, n, seen, idx)
    requires tb.keys[n] in seen && |before| == 1 + |os| && forall j :: 0 <= j < |before| ==> |before[j].cells| == rows
    ensures SeriesKnown(tb, fill, n, rows, OriginsAfter(tb, n, os), before, before, seen, idx)
  {
    SeenIsNotFirst(tb, n, seen, idx);
    assert OriginsAfter(tb, n, os) == os;
  }

  lemma NewSeries(tb: Table, fill: Fill, n: nat, rows: nat, os: seq<Origin>, before: Frame, seen: set<GoString>, idx: Slots,
                  mid: Frame, seenAfter: set<GoString>, idxAfter: Slots)
    requires tb.Ok() && n < |tb.keys| && rows > 0 && SlotsOk(idx, tb, os) && SeenOk(tb, n, seen, idx)
    requires tb.keys[n] !in seen && |before| == 1 + |os| && forall j :: 0 <= j < |before| ==> |before[j].cells| == rows
    requires mid == before + NewColumns(tb.long, fill, tb.columns, tb.labels[n], rows, |tb.columns|)
    requires seenAfter == seen + {tb.keys[n]} && idxAfter == AddSlots(idx, tb.columns, tb.keys[n], |before|, |tb.columns|)
    ensures SeriesKnown(tb, fill, n, rows, OriginsAfter(tb, n, os), before, mid, seenAfter, idxAfter)
  {
    SeenIsNotFirst(tb, n, seen, idx);
    NewSeriesKeepsSlots(idx, tb, os, n);
    NewIsSeen(tb, n, seen, idx, |before|);
    NewColumnsAppended(tb, fill, n, rows, os, before);
  }

  lemma OriginsStep(tb: Table, n: nat)
    requires n < |tb.keys|
    ensures Origins(tb, n + 1) == OriginsAfter(tb, n, Origins(tb, n))
  {
  }

  lemma NamedKeyNames(s: LongSeries, r: nat)
    requires s.Valid() && r < s.rows
    ensures Keys(s.NamedKey(r)) == s.FactorNames()
  {
  }

  lemma RowDone(tb: Table, fill: Fill, name: GoString, n: nat, ws: seq<int>, mid: Frame, after: Frame)
    requires tb.Ok() && n < |tb.keys| && LastOf(ws, tb.times[n])
    requires WithNewColumns(tb, fill, n, |ws|, Origins(tb, n + 1), Grid(tb, fill, name, n, ws, Origins(tb, n)), mid)
    requires RowSetFor(tb, n, Origins(tb, n + 1), |ws| - 1, ColumnSet(tb.columns), mid, after)
    ensures after == Grid(tb, fill, name, n + 1, ws, Origins(tb, n + 1))
  {
    var osAfter := Origins(tb, n + 1);
    forall j | 1 <= j < |after| ensures RowSet(tb, n, osAfter[j - 1], |ws| - 1, mid[j], after[j]) {
      assert osAfter[j - 1].column in tb.columns;
    }
    GridAfterRow(tb, fill, name, n, ws, Origins(tb, n), mid, after);
  }

  lemma RowProcessed(tb: Table, fill: Fill, name: GoString, n: nat, ws: seq<int>, before: Frame, mid: Frame, after: Frame,
                     seen: set<GoString>, idx: Slots)
    requires tb.Ok() && n < |tb.keys| && LastOf(ws, tb.times[n]) && Ascending(tb.times, n + 1) && ws == Times(tb.times, n + 1)
    requires before == Grid(tb, fill, name, n, ws, Origins(tb, n))
    requires SeriesKnown(tb, fill, n, |ws|, Origins(tb, n + 1), before, mid, seen, idx)
    requires RowSetFor(tb, n, Origins(tb, n + 1), |ws| - 1, ColumnSet(tb.columns), mid, after)
    ensures Processed(tb, fill, name, n + 1, tb.times[n], |ws| - 1, after, seen, idx)
  {
    RowDone(tb, fill, name, n, ws, mid, after);
  }

  lemma ReadyToSet(tb: Table, fill: Fill, n: nat, rows: nat, os: seq<Origin>, before: Frame, mid: Frame, seen: set<GoString>,
                   idx: Slots)
    requires tb.Ok() && n < |tb.keys| && rows > 0 && os == Origins(tb, n + 1)
    requires SeriesKnown(tb, fill, n, rows, os, before, mid, seen, idx)
    ensures SlotsOk(idx, tb, os) && forall j :: 0 <= j < |os| ==> OriginOk(tb, os[j])
    ensures forall i :: 0 <= i < |tb.columns| ==> (tb.columns[i], tb.keys[n]) in idx
    ensures |mid| == 1 + |os| && forall j :: 0 <= j < |mid| ==> |mid[j].cells| == rows
  {
    assert tb.keys[n] in seen;
  }

  class LongRowProcessor {
    const s: LongSeries
    const fill: Fill
    const name: GoString
    ghost const tb: Table
    var lastTime: int
    var wideFrameRowCounter: nat
    var wide: Frame
    var seenFactors: set<GoString>
    var wideFieldIdx: Slots

    ghost predicate Valid(n: nat)
      reads this
    {
      && Fixed() && n <= s.rows && (n > 0 ==> Distinct(s.FactorNames()))
      && Processed(tb, fill, name, n, lastTime, wideFrameRowCounter, wide, seenFactors, wideFieldIdx)
    }

    ghost predicate Fixed()
      reads this
    {
      Pictures(tb, s)
    }

    constructor (s: LongSeries, fill: Fill, name: GoString, t0: int, ghost tb: Table)
      requires Pictures(tb, s) && tb.times[0] == t0
      ensures Valid(0) && this.s == s && this.fill == fill && this.name == name && this.tb == tb
    {
      this.s := s;
      this.fill := fill;
      this.name := name;
      this.tb := tb;
      this.lastTime := t0;
      this.wideFrameRowCounter := 0;
      this.wide := [TimeColumn(name, [t0])];
      this.seenFactors := {};
      this.wideFieldIdx := map[];
      new;
      assert wide == Pivot(tb, fill, name, 0);
    }

    /** A later time: one more cell in every column, holding the time, the fill value or zero. */
    method AdvanceTime(t: int)
      requires wide != [] && forall j :: 0 <= j < |wide| ==> |wide[j].cells| == wideFrameRowCounter + 1
      modifies this`wide, this`wideFrameRowCounter, this`lastTime
      ensures wideFrameRowCounter == old(wideFrameRowCounter) + 1 && lastTime == t
      ensures Advances(fill, t, old(wide), wide)
    {
      ghost var before := wide;
      wideFrameRowCounter := wideFrameRowCounter + 1;
      lastTime := t;
      ghost var w := wideFrameRowCounter;
      for i := 0 to |wide|
        invariant |wide| == |before| && wideFrameRowCounter == w && lastTime == t
        invariant forall j :: 0 <= j < |before| ==> |before[j].cells| == w
        invariant i > 0 ==> wide[0] == SetCell(Extend(before[0]), wideFrameRowCounter, Val(TimeVal(t)))
        invariant forall j :: 0 < j < i ==> wide[j] == AdvanceField(fill, before[j])
        invariant forall j :: i <= j < |wide| ==> wide[j] == before[j]
      {
        var field := Extend(wide[i]);
        if i == 0 {
          wide := wide[i := SetCell(field, wideFrameRowCounter, Val(TimeVal(t)))];
        } else {
          var fillVal := GetMissing(fill, field, wideFrameRowCounter - 1);
          wide := wide[i := if fillVal.Some? then SetCell(field, wideFrameRowCounter, fillVal.value) else field];
        }
      }
    }

    /** A new factor combination: one column per value column, back-filled, zero in the current row. */
    method AddSeries(key: GoString, labels: Labels)
      requires forall i :: 0 <= i < |s.sch.valueIndices| ==> s.sch.valueIndices[i] < |s.long|
      modifies this`wide, this`seenFactors, this`wideFieldIdx
      ensures seenFactors == old(seenFactors) + {key}
      ensures wide == old(wide)
                      + NewColumns(s.long, fill, s.sch.valueIndices, labels, wideFrameRowCounter + 1, |s.sch.valueIndices|)
      ensures wideFieldIdx == AddSlots(old(wideFieldIdx), s.sch.valueIndices, key, |old(wide)|, |s.sch.valueIndices|)
    {
      var vs := s.sch.valueIndices;
      ghost var fields := wide;
      seenFactors := seenFactors + {key};
      IndexSeries(key);
      for offset := 0 to |vs|
        invariant seenFactors == old(seenFactors) + {key} && wideFrameRowCounter == old(wideFrameRowCounter)
        invariant wideFieldIdx == AddSlots(old(wideFieldIdx), s.sch.valueIndices, key, |fields|, |vs|)
        invariant wide == fields + NewColumns(s.long, fill, vs, labels, wideFrameRowCounter + 1, offset)
      {
        ghost var born := NewColumns(s.long, fill, vs, labels, wideFrameRowCounter + 1, offset);
        var newWideField := MakeColumn(s.long[vs[offset]], labels);
        wide := wide + [newWideField];
        Append(fields, born, newWideField);
      }
    }

    /** Records where the columns about to be appended will be. */
    method IndexSeries(key: GoString)
      modifies this`wideFieldIdx
      ensures wideFieldIdx == AddSlots(old(wideFieldIdx), s.sch.valueIndices, key, |wide|, |s.sch.valueIndices|)
    {
      for offset := 0 to |s.sch.valueIndices|
        invariant wideFieldIdx == AddSlots(old(wideFieldIdx), s.sch.valueIndices, key, |wide|, offset)
      {
        wideFieldIdx := wideFieldIdx[(s.sch.valueIndices[offset], key) := |wide| + offset];
      }
    }

    /** A column made of zeros, all but the current row back-filled. */
    method MakeColumn(longField: Field, labels: Labels) returns (newWideField: Field)
      ensures newWideField == NewColumn(longField, fill, labels, wideFrameRowCounter + 1)
    {
      var ftype := WideType(fill, longField.ftype);
      var zeros := seq(wideFrameRowCounter + 1, _ => Zero(ftype));
      newWideField := Field(longField.name, ftype, Some(labels), zeros);
      var fillVal := GetMissing(fill, newWideField, wideFrameRowCounter - 1);
      if fillVal.Some? {
        for i := 0 to wideFrameRowCounter
          invariant newWideField == Field(longField.name, ftype, Some(labels), newWideField.cells)
          invariant |newWideField.cells| == wideFrameRowCounter + 1
          invariant forall w :: 0 <= w <= wideFrameRowCounter ==>
                      newWideField.cells[w] == if w < i then fillVal.value else Zero(ftype)
        {
          newWideField := SetCell(newWideField, i, fillVal.value);
        }
      }
      assert newWideField.cells == NewColumn(longField, fill, labels, wideFrameRowCounter + 1).cells;
    }

    /** Copies the row's values into the columns of its series; `os` names the columns. */
    method SetRow(r: nat, key: GoString, ghost os: seq<Origin>)
      requires tb.Ok() && tb.long == s.long && tb.columns == s.sch.valueIndices && r < |tb.keys| && key == tb.keys[r]
      requires SlotsOk(wideFieldIdx, tb, os) && forall j :: 0 <= j < |os| ==> OriginOk(tb, os[j])
      requires forall i :: 0 <= i < |tb.columns| ==> (tb.columns[i], key) in wideFieldIdx
      requires |wide| == 1 + |os| && forall j :: 0 <= j < |wide| ==> |wide[j].cells| == wideFrameRowCounter + 1
      modifies this`wide
      ensures RowSetFor(tb, r, os, wideFrameRowCounter, ColumnSet(tb.columns), old(wide), wide)
    {
      var vs := s.sch.valueIndices;
      ghost var before, done: set<nat> := wide, {};
      for i := 0 to |vs|
        invariant RowSetFor(tb, r, os, wideFrameRowCounter, done, before, wide)
        invariant done == set p | 0 <= p < i :: vs[p]
      {
        SetOneSlot(tb, r, os, wideFieldIdx, wideFrameRowCounter, done, before, wide, vs[i]);
        var slot := wideFieldIdx[(vs[i], key)];
        wide := wide[slot := SetCell(wide[slot], wideFrameRowCounter, s.long[vs[i]].cells[r])];
        done := done + {vs[i]};
      }
    }

    /** A row's series key, and the tuples its labels would be made of. */
    method FactorKey(r: nat) returns (factorKey: GoString, namedKey: seq<Pair>)
      requires Pictures(tb, s) && r < s.rows
      ensures factorKey == tb.keys[r] && tb.labels[r] == LabelsOf(namedKey, |namedKey|) && Keys(namedKey) == s.FactorNames()
    {
      var sliceKey;
      sliceKey, namedKey := BuildKeys(r);
      NamedKeyNames(s, r);
      factorKey := MapKey(SortByKey(sliceKey));
      assert Describes(tb, s, r);
    }

    /** The loop that builds both tuple lists of a row. */
    method BuildKeys(r: nat) returns (sliceKey: seq<Pair>, namedKey: seq<Pair>)
      requires s.Valid() && r < s.rows
      ensures sliceKey == s.SliceKey(r) && namedKey == s.NamedKey(r)
    {
      sliceKey, namedKey := [], [];
      for i := 0 to |s.sch.factorIndices|
        invariant |sliceKey| == |namedKey| == i
        invariant forall p :: 0 <= p < i ==> sliceKey[p] == s.SliceKey(r)[p] && namedKey[p] == s.NamedKey(r)[p]
      {
        var c := s.sch.factorIndices[i];
        var strVal := s.Text(r, c);
        sliceKey := sliceKey + [Pair(Decimal(c), strVal)];
        namedKey := namedKey + [Pair(s.long[c].name, strVal)];
      }
    }

    /** Between the steps of row `n`: the time step is done, `ws` is the time column. */
    ghost predicate AtRow(n: nat, ws: seq<int>)
      reads this
    {
      && Fixed() && n < |tb.keys| && Ascending(tb.times, n + 1) && ws == Times(tb.times, n + 1)
      && LastOf(ws, tb.times[n]) && lastTime == tb.times[n]
      && wideFrameRowCounter == |ws| - 1
    }

    /** The first step of a row; nothing happens unless the time is later. */
    method StepTime(r: nat, t: int)
      requires Valid(r) && r < s.rows && tb.times[r] == t
      modifies this`wide, this`wideFrameRowCounter, this`lastTime
      ensures t < old(lastTime) <==> t < lastTime
      ensures t >= lastTime ==> AtRow(r, Times(tb.times, r + 1)) && SlotsOk(wideFieldIdx, tb, Origins(tb, r))
                                && wide == Grid(tb, fill, name, r, Times(tb.times, r + 1), Origins(tb, r))
    {
      ghost var before, last := wide, lastTime;
      if t > lastTime {
        AdvanceTime(t);
      }
      if t >= lastTime {
        assert Stepped(fill, last, t, before, wide);
        AdvancedState(tb, fill, name, r, before, wide);
        TimesStep(tb.times, r);
      }
    }

    /** The second step of a row: its series has columns, or its labels clash. */
    method EnsureSeries(r: nat, factorKey: GoString, namedKey: seq<Pair>, ghost ws: seq<int>, ghost os: seq<Origin>)
      returns (err: Option<Error>)
      requires AtRow(r, ws) && SeenOk(tb, r, seenFactors, wideFieldIdx) && SlotsOk(wideFieldIdx, tb, os)
      requires |wide| == 1 + |os| && forall j :: 0 <= j < |wide| ==> |wide[j].cells| == |ws|
      requires factorKey == tb.keys[r] && tb.labels[r] == LabelsOf(namedKey, |namedKey|)
      modifies this`wide, this`seenFactors, this`wideFieldIdx
      ensures err == if First(tb.keys, r) && !Distinct(Keys(namedKey)) then Some(DuplicateLabel) else None
      ensures err.None? ==>
                SeriesKnown(tb, fill, r, |ws|, OriginsAfter(tb, r, os), old(wide), wide, seenFactors, wideFieldIdx)
    {
      SeenIsNotFirst(tb, r, seenFactors, wideFieldIdx);
      if factorKey !in seenFactors {
        var labels := TuplesToLabels(namedKey);
        if labels.None? {
          return Some(DuplicateLabel);
        }
        AddSeries(factorKey, labels.value);
        NewSeries(tb, fill, r, |ws|, os, old(wide), old(seenFactors), old(wideFieldIdx), wide, seenFactors, wideFieldIdx);
      } else {
        SeenSeries(tb, fill, r, |ws|, os, wide, seenFactors, wideFieldIdx);
      }
      err := None;
    }

    /** The last step of a row. */
    method FinishRow(r: nat, factorKey: GoString, ghost ws: seq<int>, ghost before: Frame)
      requires AtRow(r, ws) && factorKey == tb.keys[r] && Distinct(s.FactorNames())
      requires before == Grid(tb, fill, name, r, ws, Origins(tb, r))
      requires SeriesKnown(tb, fill, r, |ws|, Origins(tb, r + 1), before, wide, seenFactors, wideFieldIdx)
      modifies this`wide
      ensures Valid(r + 1)
    {
      ghost var mid, seen, idx, os := wide, seenFactors, wideFieldIdx, Origins(tb, r + 1);
      ReadyToSet(tb, fill, r, |ws|, os, before, mid, seen, idx);
      SetRow(r, factorKey, os);
      assert RowSetFor(tb, r, os, |ws| - 1, ColumnSet(tb.columns), mid, wide);
      RowProcessed(tb, fill, name, r, ws, before, mid, wide, seen, idx);
    }

    /** `process`: one row of the long frame. */
    method Process(r: nat) returns (err: Option<Error>)
      requires Valid(r) && r < s.rows
      modifies this
      ensures Fixed() && err == RowFault(tb, s, r, old(lastTime))
      ensures err.None? ==> Valid(r + 1)
    {
      var currentTime := s.Time(r);
      if currentTime.None? {
        return Some(NullTime);
      }
      StepTime(r, currentTime.value);
      if currentTime.value < lastTime {
        return Some(Unsorted);
      }
      ghost var ws, os, before := Times(tb.times, r + 1), Origins(tb, r), wide;
      var factorKey, namedKey := FactorKey(r);
      OriginsStep(tb, r);
      err := EnsureSeries(r, factorKey, namedKey, ws, os);
      if err.Some? {
        return;
      }
      FinishRow(r, factorKey, ws, before);
    }
  }
}
