/** What reading any document gives, token by token, and which documents cannot be read (data/frame_json.go). */
module ReadLaws {
  import opened GoText
  import opened Outcomes
  import opened FrameJson

  // ----- one column of values -----

  /** Every token of the column reads. */
  predicate TokensRead(libs: Libs, first: bool, ts: seq<Token>, t: ColType)
    requires KindOk(t.kind)
  {
    forall i :: 0 <= i < |ts| ==> ReadToken(libs, first, ts[i], t).Ok?
  }

  /** The first token that does not read, and its fault. */
  predicate FirstFault(libs: Libs, first: bool, ts: seq<Token>, t: ColType, i: nat, e: ReadError)
    requires KindOk(t.kind)
  {
    && i < |ts| && ReadToken(libs, first, ts[i], t) == Err(e)
    && forall k :: 0 <= k < i ==> ReadToken(libs, first, ts[k], t).Ok?
  }

  ghost predicate Faulty(libs: Libs, first: bool, ts: seq<Token>, t: ColType, e: ReadError)
    requires KindOk(t.kind)
  {
    exists i: nat :: FirstFault(libs, first, ts, t, i, e)
  }

  ghost predicate ColumnReads(libs: Libs, first: bool, ts: seq<Token>, t: ColType, n: nat, r: Result<seq<Cell>, ReadError>)
    requires KindOk(t.kind) && n <= |ts|
  {
    match r
    case Ok(cells) => |cells| == n && forall i :: 0 <= i < n ==> ReadToken(libs, first, ts[i], t) == Ok(cells[i])
    case Err(e) => exists i: nat :: i < n && FirstFault(libs, first, ts, t, i, e)
  }

  lemma {:induction false} DecodeExact(libs: Libs, first: bool, ts: seq<Token>, t: ColType, n: nat)
    requires KindOk(t.kind) && n <= |ts|
    ensures ColumnReads(libs, first, ts, t, n, DecodeUpTo(libs, first, ts, t, n))
    decreases n
  {
    if n > 0 {
      var m: nat := n - 1;
      DecodeExact(libs, first, ts, t, m);
      var before, c := DecodeUpTo(libs, first, ts, t, m), ReadToken(libs, first, ts[m], t);
      if before.Ok? && c.Err? { assert FirstFault(libs, first, ts, t, m, c.error); }
    }
  }

  // ----- all columns of values -----

  /** Column `j` is in the schema, as long as the first, and reads. */
  predicate ValuesFit(libs: Libs, schema: seq<ColType>, values: seq<seq<Token>>, j: nat)
    requires SchemaOk(schema) && j < |values|
  {
    j < |schema| && |values[j]| == |values[0]| && TokensRead(libs, j == 0, values[j], schema[j])
  }

  /** What is wrong with column `j`: too many columns, another length, or its first token that does not read. */
  ghost predicate ValuesFault(libs: Libs, schema: seq<ColType>, values: seq<seq<Token>>, j: nat, e: ReadError)
    requires SchemaOk(schema) && j < |values|
  {
    if schema == [] then e == Malformed
    else if j >= |schema| then e == Panicked
    else if |values[j]| != |values[0]| then e == Malformed
    else Faulty(libs, j == 0, values[j], schema[j], e)
  }

  ghost predicate FirstBadColumn(libs: Libs, schema: seq<ColType>, values: seq<seq<Token>>, j: nat, e: ReadError)
    requires SchemaOk(schema)
  {
    && j < |values| && ValuesFault(libs, schema, values, j, e)
    && forall k :: 0 <= k < j ==> ValuesFit(libs, schema, values, k)
  }

  /** The columns before `n` are read, those from `n` on are empty. */
  ghost predicate ReadSoFar(libs: Libs, schema: seq<ColType>, values: seq<seq<Token>>, n: nat, f: Frame)
    requires SchemaOk(schema) && n <= |values|
  {
    && |f| == |schema|
    && forall j: nat :: j < |f| ==> ColumnReadAs(libs, schema[j], j == 0, if j < n then values[j] else [], f[j])
  }

  predicate ColumnReadAs(libs: Libs, t: ColType, first: bool, ts: seq<Token>, col: Column)
    requires KindOk(t.kind)
  {
    && col.ctype == t && |col.cells| == |ts|
    && forall i :: 0 <= i < |ts| ==> ReadToken(libs, first, ts[i], t) == Ok(col.cells[i])
  }

  ghost predicate ValuesRead(libs: Libs, schema: seq<ColType>, values: seq<seq<Token>>, n: nat, r: Read)
    requires SchemaOk(schema) && n <= |values|
  {
    match r
    case Ok(f) => (forall j :: 0 <= j < n ==> ValuesFit(libs, schema, values, j)) && ReadSoFar(libs, schema, values, n, f)
    case Err(e) => exists j: nat :: j < n && FirstBadColumn(libs, schema, values, j, e)
  }

  /** The columns before `m` read; column `m` reads as `cells`, or not. */
  lemma OneMoreColumn(libs: Libs, schema: seq<ColType>, values: seq<seq<Token>>, m: nat, f: Frame, cells: Result<seq<Cell>, ReadError>)
    requires SchemaOk(schema) && m < |values| && m < |schema| && |values[m]| == |values[0]| && ReadSoFar(libs, schema, values, m, f)
    requires ColumnReads(libs, m == 0, values[m], schema[m], |values[m]|, cells)
    ensures cells.Ok? ==> ValuesFit(libs, schema, values, m)
    ensures cells.Ok? ==> ReadSoFar(libs, schema, values, m + 1, f[m := Column(schema[m], cells.value)])
    ensures cells.Err? ==> ValuesFault(libs, schema, values, m, cells.error)
  {
    if cells.Ok? {
      var g := f[m := Column(schema[m], cells.value)];
      forall j: nat | j < |g| ensures ColumnReadAs(libs, schema[j], j == 0, if j < m + 1 then values[j] else [], g[j]) {
        assert ColumnReadAs(libs, schema[j], j == 0, if j < m then values[j] else [], f[j]);
      }
    }
  }

  lemma {:induction false} ValuedExact(libs: Libs, schema: seq<ColType>, values: seq<seq<Token>>, n: nat)
    requires SchemaOk(schema) && n <= |values|
    ensures ValuesRead(libs, schema, values, n, Valued(libs, schema, values, n))
    decreases n
  {
    if n > 0 {
      var m: nat := n - 1;
      ValuedExact(libs, schema, values, m);
      var before, now := Valued(libs, schema, values, m), Valued(libs, schema, values, n);
      if before.Ok? {
        if m < |schema| && |values[m]| == |values[0]| {
          var cells := DecodeUpTo(libs, m == 0, values[m], schema[m], |values[m]|);
          DecodeExact(libs, m == 0, values[m], schema[m], |values[m]|);
          OneMoreColumn(libs, schema, values, m, before.value, cells);
        }
        if now.Err? { assert FirstBadColumn(libs, schema, values, m, now.error); }
      }
    }
  }

  // ----- special values -----

  lemma {:induction false} SetRowsExact(cells: seq<Cell>, rows: seq<nat>, n: nat, c: Cell)
    requires n <= |rows|
    ensures var r := SetRows(cells, rows, n, c);
            && (r.Some? <==> forall k :: 0 <= k < n ==> rows[k] < |cells|)
            && (r.Some? ==> |r.value| == |cells| && forall i: nat :: i < |cells| ==> r.value[i] == if i in rows[..n] then c else cells[i])
    decreases n
  {
    if n > 0 {
      SetRowsExact(cells, rows, n - 1, c);
      assert rows[..n] == rows[..n - 1] + [rows[n - 1]];
    }
  }

  function NoMarks(): Marks { Marks([], [], []) }

  function MarksOf(e: Option<Marks>): Marks { if e.Some? then e.value else NoMarks() }

  predicate RowsIn(rows: seq<nat>, height: nat) { forall k :: 0 <= k < |rows| ==> rows[k] < height }

  /** Special values go into a column of floats that has those rows. */
  predicate MarksFit(e: Option<Marks>, kind: Kind, height: nat) {
    var m := MarksOf(e);
    m == NoMarks() || (kind.FloatKind? && RowsIn(m.nan, height) && RowsIn(m.inf, height) && RowsIn(m.negInf, height))
  }

  /** A cell after the special values; where a row is listed twice the later list counts. */
  function MarkedCell(e: Option<Marks>, i: nat, c: Cell): Cell {
    var m := MarksOf(e);
    if i in m.negInf then Val(Real(NegInf)) else if i in m.inf then Val(Real(PosInf)) else if i in m.nan then Val(Real(NaN)) else c
  }

  predicate ColumnMarked(e: Option<Marks>, f: Column, g: Column) {
    g.ctype == f.ctype && |g.cells| == |f.cells| && forall i: nat :: i < |f.cells| ==> g.cells[i] == MarkedCell(e, i, f.cells[i])
  }

  lemma SetMarksExact(col: Column, m: Marks)
    ensures SetMarks(col, m).Some? <==> MarksFit(Some(m), col.ctype.kind, |col.cells|)
    ensures SetMarks(col, m).Some? ==> ColumnMarked(Some(m), col, SetMarks(col, m).value)
  {
    if m != NO_MARKS && col.ctype.kind.FloatKind? {
      var nan, inf, negInf := Val(Real(NaN)), Val(Real(PosInf)), Val(Real(NegInf));
      var a := SetRows(col.cells, m.nan, |m.nan|, nan);
      SetRowsExact(col.cells, m.nan, |m.nan|, nan);
      assert m.nan[..|m.nan|] == m.nan && m.inf[..|m.inf|] == m.inf && m.negInf[..|m.negInf|] == m.negInf;
      if a.Some? {
        var b := SetRows(a.value, m.inf, |m.inf|, inf);
        SetRowsExact(a.value, m.inf, |m.inf|, inf);
        if b.Some? { SetRowsExact(b.value, m.negInf, |m.negInf|, negInf); }
      }
    }
  }

  /** Element `j` of the channel fits column `j`. */
  predicate EntityFits(f: Frame, es: seq<Option<Marks>>, j: nat)
    requires j < |es|
  {
    MarksOf(es[j]) == NoMarks() || (j < |f| && MarksFit(es[j], f[j].ctype.kind, |f[j].cells|))
  }

  ghost predicate MarkedSoFar(f: Frame, es: seq<Option<Marks>>, n: nat, g: Frame)
    requires n <= |es|
  {
    |g| == |f| && forall j: nat :: j < |f| ==> ColumnMarked(if j < n then es[j] else None, f[j], g[j])
  }

  ghost predicate EntitiesRead(f: Frame, es: seq<Option<Marks>>, n: nat, r: Read)
    requires n <= |es|
  {
    match r
    case Ok(g) => (forall j :: 0 <= j < n ==> EntityFits(f, es, j)) && MarkedSoFar(f, es, n, g)
    case Err(e) => e == Panicked && exists j :: 0 <= j < n && !EntityFits(f, es, j)
  }

  lemma OneMoreEntity(f: Frame, es: seq<Option<Marks>>, m: nat, g: Frame)
    requires m < |es| && MarkedSoFar(f, es, m, g)
    ensures MarkOne(g, m, es[m]).Some? <==> EntityFits(f, es, m)
    ensures MarkOne(g, m, es[m]).Some? ==> MarkedSoFar(f, es, m + 1, MarkOne(g, m, es[m]).value)
  {
    if m < |f| {
      assert ColumnMarked(None, f[m], g[m]);
      assert g[m].cells == f[m].cells;
      if es[m].Some? { SetMarksExact(g[m], es[m].value); }
    }
    if MarkOne(g, m, es[m]).Some? {
      var h := MarkOne(g, m, es[m]).value;
      forall j: nat | j < |f| ensures ColumnMarked(if j < m + 1 then es[j] else None, f[j], h[j]) {
        assert ColumnMarked(if j < m then es[j] else None, f[j], g[j]);
      }
    }
  }

  lemma {:induction false} MarkedExact(f: Frame, es: seq<Option<Marks>>, n: nat)
    requires n <= |es|
    ensures EntitiesRead(f, es, n, Marked(f, es, n))
    decreases n
  {
    if n > 0 {
      var m: nat := n - 1;
      MarkedExact(f, es, m);
      var before := Marked(f, es, m);
      if before.Ok? { OneMoreEntity(f, es, m, before.value); }
    }
  }

  // ----- nanoseconds -----

  predicate TimeOrNull(c: Cell) { c.Null? || c.d.Time? }

  function LaterCell(ns: Option<seq<int>>, i: nat, c: Cell): Cell {
    if ns.Some? && i < |ns.value| && c.Val? && c.d.Time? then Val(Time(c.d.ns + ns.value[i])) else c
  }

  /** Nanoseconds go into rows that are there, and hold a time or null. */
  predicate NanosFit(ns: Option<seq<int>>, cells: seq<Cell>) {
    ns.Some? ==> |ns.value| <= |cells| && forall i :: 0 <= i < |ns.value| ==> TimeOrNull(cells[i])
  }

  lemma {:induction false} AddNsExact(cells: seq<Cell>, ns: seq<int>, n: nat)
    requires n <= |ns|
    ensures var r := AddNs(cells, ns, n);
            && (r.Some? <==> n <= |cells| && forall i :: 0 <= i < n ==> TimeOrNull(cells[i]))
            && (r.Some? ==> |r.value| == |cells|)
            && (r.Some? ==> forall i: nat :: i < |cells| ==> r.value[i] == LaterCell(Some(ns[..n]), i, cells[i]))
    decreases n
  {
    if n > 0 { AddNsExact(cells, ns, n - 1); }
  }

  predicate ColumnLater(ns: Option<seq<int>>, f: Column, g: Column) {
    g.ctype == f.ctype && |g.cells| == |f.cells| && forall i: nat :: i < |f.cells| ==> g.cells[i] == LaterCell(ns, i, f.cells[i])
  }

  predicate NanoFits(f: Frame, ns: seq<Option<seq<int>>>, j: nat)
    requires j < |ns|
  {
    j < |f| && NanosFit(ns[j], f[j].cells)
  }

  ghost predicate LaterSoFar(f: Frame, ns: seq<Option<seq<int>>>, n: nat, g: Frame)
    requires n <= |ns|
  {
    |g| == |f| && forall j: nat :: j < |f| ==> ColumnLater(if j < n then ns[j] else None, f[j], g[j])
  }

  ghost predicate NanosRead(f: Frame, ns: seq<Option<seq<int>>>, n: nat, r: Read)
    requires n <= |ns|
  {
    match r
    case Ok(g) => (forall j :: 0 <= j < n ==> NanoFits(f, ns, j)) && LaterSoFar(f, ns, n, g)
    case Err(e) => e == Panicked && exists j :: 0 <= j < n && !NanoFits(f, ns, j)
  }

  lemma OneMoreNanos(f: Frame, ns: seq<Option<seq<int>>>, m: nat, g: Frame, r: Read)
    requires m < |ns| && LaterSoFar(f, ns, m, g)
    requires r == if m >= |g| then Err(Panicked)
                  else if ns[m].None? then Ok(g)
                  else
                    var cells := AddNs(g[m].cells, ns[m].value, |ns[m].value|);
                    if cells.None? then Err(Panicked) else Ok(g[m := g[m].(cells := cells.value)])
    ensures r.Ok? <==> NanoFits(f, ns, m)
    ensures r.Ok? ==> LaterSoFar(f, ns, m + 1, r.value)
  {
    if m < |f| {
      assert ColumnLater(None, f[m], g[m]);
      assert g[m].cells == f[m].cells;
      if ns[m].Some? {
        AddNsExact(g[m].cells, ns[m].value, |ns[m].value|);
        assert ns[m].value[..|ns[m].value|] == ns[m].value;
      }
    }
    if r.Ok? {
      forall j: nat | j < |f| ensures ColumnLater(if j < m + 1 then ns[j] else None, f[j], r.value[j]) {
        assert ColumnLater(if j < m then ns[j] else None, f[j], g[j]);
      }
    }
  }

  lemma {:induction false} TimedExact(f: Frame, ns: seq<Option<seq<int>>>, n: nat)
    requires n <= |ns|
    ensures NanosRead(f, ns, n, Timed(f, ns, n))
    decreases n
  {
    if n > 0 {
      var m: nat := n - 1;
      TimedExact(f, ns, m);
      var before := Timed(f, ns, m);
      if before.Ok? { OneMoreNanos(f, ns, m, before.value, Timed(f, ns, n)); }
    }
  }

  // ----- the document -----

  /** What the values alone read as. */
  ghost predicate Base(libs: Libs, schema: seq<ColType>, doc: Doc, f: Frame)
    requires SchemaOk(schema)
  {
    && (forall j :: 0 <= j < |doc.values| ==> ValuesFit(libs, schema, doc.values, j))
    && ReadSoFar(libs, schema, doc.values, |doc.values|, f)
  }

  function Entities(doc: Doc): seq<Option<Marks>> { if doc.entities.Some? then doc.entities.value else [] }

  function Nanos(doc: Doc): seq<Option<seq<int>>> { if doc.nanos.Some? then doc.nanos.value else [] }

  /** The special values of a base, and then the nanoseconds, fit. */
  ghost predicate ChannelsFit(doc: Doc, f: Frame, g: Frame) {
    && (forall j :: 0 <= j < |Entities(doc)| ==> EntityFits(f, Entities(doc), j))
    && MarkedSoFar(f, Entities(doc), |Entities(doc)|, g)
    && (forall j :: 0 <= j < |Nanos(doc)| ==> NanoFits(g, Nanos(doc), j))
  }

  /** A document is read as `h`: the values, the special values over them, and the nanoseconds added to the times. */
  ghost predicate ReadsAs(libs: Libs, schema: seq<ColType>, doc: Doc, h: Frame)
    requires SchemaOk(schema)
  {
    exists f, g :: Base(libs, schema, doc, f) && ChannelsFit(doc, f, g) && LaterSoFar(g, Nanos(doc), |Nanos(doc)|, h)
  }

  ghost predicate NotRead(libs: Libs, schema: seq<ColType>, doc: Doc, e: ReadError)
    requires SchemaOk(schema)
  {
    || (exists j: nat :: FirstBadColumn(libs, schema, doc.values, j, e))
    || (e == Panicked && exists f :: Base(libs, schema, doc, f) && ChannelsMisfit(doc, f))
  }

  ghost predicate ChannelsMisfit(doc: Doc, f: Frame) {
    || (exists j :: 0 <= j < |Entities(doc)| && !EntityFits(f, Entities(doc), j))
    || (exists g :: MarkedSoFar(f, Entities(doc), |Entities(doc)|, g) && SomeNanosMisfit(doc, g))
  }

  ghost predicate SomeNanosMisfit(doc: Doc, g: Frame) { exists j :: 0 <= j < |Nanos(doc)| && !NanoFits(g, Nanos(doc), j) }

  lemma ChannelsExact(doc: Doc, f: Frame) returns (r: Read)
    ensures r == var b := if doc.entities.Some? then Marked(f, doc.entities.value, |doc.entities.value|) else Ok(f);
                 if b.Ok? && doc.nanos.Some? then Timed(b.value, doc.nanos.value, |doc.nanos.value|) else b
    ensures r.Err? ==> r.error == Panicked && ChannelsMisfit(doc, f)
    ensures r.Ok? ==> exists g :: ChannelsFit(doc, f, g) && LaterSoFar(g, Nanos(doc), |Nanos(doc)|, r.value)
  {
    var es, ns := Entities(doc), Nanos(doc);
    var b := if doc.entities.Some? then Marked(f, es, |es|) else Ok(f);
    MarkedExact(f, es, |es|);
    assert EntitiesRead(f, es, |es|, b);
    r := if b.Ok? && doc.nanos.Some? then Timed(b.value, ns, |ns|) else b;
    if b.Ok? {
      TimedExact(b.value, ns, |ns|);
      assert NanosRead(b.value, ns, |ns|, r);
      if r.Err? { assert SomeNanosMisfit(doc, b.value); } else { assert ChannelsFit(doc, f, b.value); }
    }
  }

  /** What is wrong with a document that is not read: the fault of the first column of values that has one; after that only
      special values or nanoseconds that do not fit, which panic. */
  lemma FaultIs(libs: Libs, schema: seq<ColType>, doc: Doc)
    requires SchemaOk(schema)
    ensures match ReadOf(libs, schema, doc)
            case Ok(h) => ReadsAs(libs, schema, doc, h)
            case Err(e) => NotRead(libs, schema, doc, e)
  {
    var a := Valued(libs, schema, doc.values, |doc.values|);
    ValuedExact(libs, schema, doc.values, |doc.values|);
    if a.Ok? {
      assert Base(libs, schema, doc, a.value);
      var r := ChannelsExact(doc, a.value);
      assert r == ReadOf(libs, schema, doc);
    }
  }

  lemma OneBase(libs: Libs, schema: seq<ColType>, doc: Doc, f: Frame, g: Frame)
    requires SchemaOk(schema) && Base(libs, schema, doc, f) && Base(libs, schema, doc, g)
    ensures f == g
  {
    forall j: nat | j < |schema| ensures f[j] == g[j] {
      var ts := if j < |doc.values| then doc.values[j] else [];
      assert ColumnReadAs(libs, schema[j], j == 0, ts, f[j]) && ColumnReadAs(libs, schema[j], j == 0, ts, g[j]);
      assert f[j].cells == g[j].cells;
    }
  }

  lemma OneMarked(f: Frame, es: seq<Option<Marks>>, g: Frame, h: Frame)
    requires MarkedSoFar(f, es, |es|, g) && MarkedSoFar(f, es, |es|, h)
    ensures g == h
  {
    forall j: nat | j < |f| ensures g[j] == h[j] {
      assert ColumnMarked(if j < |es| then es[j] else None, f[j], g[j]) && ColumnMarked(if j < |es| then es[j] else None, f[j], h[j]);
      assert g[j].cells == h[j].cells;
    }
  }

  lemma OneLater(f: Frame, ns: seq<Option<seq<int>>>, g: Frame, h: Frame)
    requires LaterSoFar(f, ns, |ns|, g) && LaterSoFar(f, ns, |ns|, h)
    ensures g == h
  {
    forall j: nat | j < |f| ensures g[j] == h[j] {
      assert ColumnLater(if j < |ns| then ns[j] else None, f[j], g[j]) && ColumnLater(if j < |ns| then ns[j] else None, f[j], h[j]);
      assert g[j].cells == h[j].cells;
    }
  }

  lemma OneReading(libs: Libs, schema: seq<ColType>, doc: Doc, h: Frame, k: Frame)
    requires SchemaOk(schema) && ReadsAs(libs, schema, doc, h) && ReadsAs(libs, schema, doc, k)
    ensures h == k
  {
    var f, g :| Base(libs, schema, doc, f) && ChannelsFit(doc, f, g) && LaterSoFar(g, Nanos(doc), |Nanos(doc)|, h);
    var d, e :| Base(libs, schema, doc, d) && ChannelsFit(doc, d, e) && LaterSoFar(e, Nanos(doc), |Nanos(doc)|, k);
    OneBase(libs, schema, doc, f, d);
    OneMarked(f, Entities(doc), g, e);
    OneLater(g, Nanos(doc), h, k);
  }

  lemma NoMisfit(doc: Doc, f: Frame, g: Frame)
    requires ChannelsFit(doc, f, g)
    ensures !ChannelsMisfit(doc, f)
  {
    forall h | MarkedSoFar(f, Entities(doc), |Entities(doc)|, h) ensures !SomeNanosMisfit(doc, h) {
      OneMarked(f, Entities(doc), g, h);
    }
  }

  lemma ReadableHasNoFault(libs: Libs, schema: seq<ColType>, doc: Doc, h: Frame, e: ReadError)
    requires SchemaOk(schema) && ReadsAs(libs, schema, doc, h)
    ensures !NotRead(libs, schema, doc, e)
  {
    var f, g :| Base(libs, schema, doc, f) && ChannelsFit(doc, f, g) && LaterSoFar(g, Nanos(doc), |Nanos(doc)|, h);
    NoMisfit(doc, f, g);
    forall d | Base(libs, schema, doc, d) ensures d == f { OneBase(libs, schema, doc, d, f); }
    forall j: nat ensures !FirstBadColumn(libs, schema, doc.values, j, e) {
      assert j < |doc.values| ==> ValuesFit(libs, schema, doc.values, j);
    }
  }

  /** Any document is read as a frame exactly when the values, the special values over them and the nanoseconds added to them
      make up that frame, and fails exactly when it has a fault. */
  lemma ReadExact(libs: Libs, schema: seq<ColType>, doc: Doc, h: Frame)
    requires SchemaOk(schema)
    ensures ReadOf(libs, schema, doc) == Ok(h) <==> ReadsAs(libs, schema, doc, h)
    ensures ReadOf(libs, schema, doc).Err? <==> exists e :: NotRead(libs, schema, doc, e)
    ensures ReadOf(libs, schema, doc).Err? ==> NotRead(libs, schema, doc, ReadOf(libs, schema, doc).error)
  {
    var r := ReadOf(libs, schema, doc);
    FaultIs(libs, schema, doc);
    if ReadsAs(libs, schema, doc, h) {
      forall e ensures !NotRead(libs, schema, doc, e) { ReadableHasNoFault(libs, schema, doc, h, e); }
    }
    if r.Ok? {
      forall e ensures !NotRead(libs, schema, doc, e) { ReadableHasNoFault(libs, schema, doc, r.value, e); }
      if ReadsAs(libs, schema, doc, h) { OneReading(libs, schema, doc, r.value, h); }
    }
  }
}
