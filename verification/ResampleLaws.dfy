/** What `ResampleWideFrame` answers, said of the two frames' cells alone (data/sqlutil/resample.go). */
module ResampleLaws {
  import opened GoText
  import opened Outcomes
  import opened Frames
  import opened Resample

  predicate Factor(f: Field) { f.ftype.kind.StringKind? || f.ftype.kind.BoolKind? }

  predicate SameLengths(f: Frame) { forall j :: 0 <= j < |f| ==> |f[j].cells| == |f[0].cells| }

  /** Every row has a time, and they do not go back. */
  predicate InTime(f: Frame) {
    && TimeIndex(f) < |f| && (forall i :: 0 <= i < |f[TimeIndex(f)].cells| ==> IsTime(f[TimeIndex(f)].cells[i]))
    && forall i, j :: 0 <= i < j < |f[TimeIndex(f)].cells| ==> TimeAt(f, i) <= TimeAt(f, j)
  }

  predicate IsTime(c: Cell) { c.Val? && c.v.TimeVal? }

  function TimeAt(f: Frame, i: nat): int
    requires TimeIndex(f) < |f| && i < |f[TimeIndex(f)].cells| && IsTime(f[TimeIndex(f)].cells[i])
  {
    f[TimeIndex(f)].cells[i].v.at
  }

  /** The last row no later than `c`. */
  predicate LastBy(f: Frame, c: int, i: nat)
    requires InTime(f)
  {
    && i < |f[TimeIndex(f)].cells| && TimeAt(f, i) <= c
    && forall q :: i < q < |f[TimeIndex(f)].cells| ==> TimeAt(f, q) > c
  }

  /** The fill value where `before` is the cell of the last row, if there is one. */
  predicate Filled(field: Field, fill: Fill, before: Option<Cell>, cell: Cell) {
    match fill
    case NoFill => cell == Null
    case NullFill => cell == Null
    case Previous => cell == if before.Some? then before.value else Null
    case Constant(convert) =>
      cell == if field.ftype.kind.NumberKind? then Val(NumVal(convert(field.ftype.kind.code))) else Null
  }

  /** A cell at time `c`: the time itself; in a string or bool column the last row no later than it, or null; in a value
      column that row if it is less than one interval old, else the fill value. */
  ghost predicate CellAtTick(f: Frame, fill: Fill, interval: int, j: nat, c: int, cell: Cell)
    requires InTime(f) && SameLengths(f) && j < |f|
  {
    if j == TimeIndex(f) then cell == Val(TimeVal(c))
    else
      && (forall i: nat :: LastBy(f, c, i) ==>
            if Factor(f[j]) || TimeAt(f, i) > c - interval then cell == f[j].cells[i]
            else Filled(f[j], fill, Some(f[j].cells[i]), cell))
      && ((forall i: nat :: i < |f[j].cells| ==> TimeAt(f, i) > c) ==>
            if Factor(f[j]) then cell == Null else Filled(f[j], fill, None, cell))
  }

  /** `n` ticks from `from` come up to `to`. */
  ghost predicate TickNumber(from: int, to: int, interval: int, n: nat) {
    forall k: nat :: from + k * interval <= to <==> k < n
  }

  /** The columns as they were, with one row for each of `n` ticks. */
  ghost predicate ResampledTo(f: Frame, fill: Fill, from: int, interval: int, n: nat, g: Frame)
    requires InTime(f) && SameLengths(f)
  {
    |g| == |f| && forall j :: 0 <= j < |f| ==> ColumnResampled(f, fill, from, interval, n, j, g[j])
  }

  /** At one of `n` ticks a column needs a null that it cannot hold. */
  ghost predicate NeedsNull(f: Frame, fill: Fill, from: int, interval: int, n: nat)
    requires InTime(f) && SameLengths(f)
  {
    exists j: nat, k: nat :: j < |f| && k < n && Lacks(f, fill, from, interval, j, k)
  }

  ghost predicate Lacks(f: Frame, fill: Fill, from: int, interval: int, j: nat, k: nat)
    requires InTime(f) && SameLengths(f) && j < |f|
  {
    LacksAt(f, fill, interval, j, from + k * interval)
  }

  ghost predicate LacksAt(f: Frame, fill: Fill, interval: int, j: nat, c: int)
    requires InTime(f) && SameLengths(f) && j < |f|
  {
    !f[j].ftype.nullable && CellAtTick(f, fill, interval, j, c, Null)
  }

  lemma SeriesFacts(f: Frame)
    requires IsSeries(f)
    ensures !SchemaOf(f).seriesType.NotSeries? && SchemaOf(f).timeIndex == TimeIndex(f) < |f|
  {
    SeriesTypeExact(f);
  }

  lemma TimesAre(f: Frame, ts: seq<Option<int>>)
    requires InTime(f) && ts == TimesOf(f[TimeIndex(f)])
    ensures forall i :: 0 <= i < |ts| ==> ts[i] == Some(TimeAt(f, i))
    ensures FirstNil(ts) == |ts| && Ascending(ts)
  {
    forall i | 0 <= i < |ts| ensures ts[i] == Some(TimeAt(f, i)) {}
  }

  lemma SourceIs(f: Frame, fill: Fill, interval: int)
    requires InTime(f) && SameLengths(f) && interval != 0 && IsSeries(f)
    ensures var s := SourceOf(f, fill, interval); s.Valid() && TimesInOrder(s) && s.times == TimesOf(f[TimeIndex(f)])
    ensures RowLen(f).Some?
  {
    SeriesFacts(f);
    TimesAre(f, TimesOf(f[TimeIndex(f)]));
  }

  lemma RowIsLast(f: Frame, s: Source, c: int)
    requires InTime(f) && s.times == TimesOf(f[TimeIndex(f)])
    ensures FirstNil(s.times) == |s.times| && RowAt(s, c) < |f[TimeIndex(f)].cells|
    ensures RowAt(s, c) >= 0 ==> LastBy(f, c, RowAt(s, c)) && s.times[RowAt(s, c)] == Some(TimeAt(f, RowAt(s, c)))
    ensures RowAt(s, c) < 0 ==> forall i: nat :: i < |s.times| ==> TimeAt(f, i) > c
  {
    TimesAre(f, s.times);
    var p := RowAt(s, c);
    forall i: nat | p < i < |s.times| ensures TimeAt(f, i) > c { assert s.times[i].value > c; }
  }

  lemma OneLast(f: Frame, c: int, i: nat, p: nat)
    requires InTime(f) && LastBy(f, c, i) && LastBy(f, c, p)
    ensures i == p
  {
  }

  /** The cell when row `p` is the last one no later than `c`. */
  predicate CellFromRow(field: Field, fill: Fill, recent: bool, p: nat, cell: Cell)
    requires p < |field.cells|
  {
    if Factor(field) || recent then cell == field.cells[p] else Filled(field, fill, Some(field.cells[p]), cell)
  }

  predicate CellFromNone(field: Field, fill: Fill, cell: Cell) {
    if Factor(field) then cell == Null else Filled(field, fill, None, cell)
  }

  lemma CellWithRow(f: Frame, fill: Fill, interval: int, j: nat, c: int, p: nat, cell: Cell)
    requires InTime(f) && SameLengths(f) && j < |f| && j != TimeIndex(f) && LastBy(f, c, p)
    ensures p < |f[j].cells|
    ensures CellAtTick(f, fill, interval, j, c, cell) <==> CellFromRow(f[j], fill, TimeAt(f, p) > c - interval, p, cell)
  {
    forall i: nat | LastBy(f, c, i) ensures i == p { OneLast(f, c, i, p); }
  }

  lemma CellWithoutRow(f: Frame, fill: Fill, interval: int, j: nat, c: int, cell: Cell)
    requires InTime(f) && SameLengths(f) && j < |f| && j != TimeIndex(f)
    requires forall i: nat :: i < |f[TimeIndex(f)].cells| ==> TimeAt(f, i) > c
    ensures CellAtTick(f, fill, interval, j, c, cell) <==> CellFromNone(f[j], fill, cell)
  {
    assert |f[j].cells| == |f[TimeIndex(f)].cells|;
    forall i: nat ensures !LastBy(f, c, i) {}
  }

  lemma LookupWithRow(s: Source, j: nat, c: int, p: nat, cell: Cell)
    requires s.Valid() && j < |s.frame| && j != s.sch.timeIndex && RowAt(s, c) == p && s.times[p].Some?
    requires j in s.sch.valueIndices <==> !Factor(s.frame[j])
    ensures cell == LookupCell(s, j, c) <==> CellFromRow(s.frame[j], s.fill, s.times[p].value > c - s.interval, p, cell)
  {
  }

  lemma LookupWithoutRow(s: Source, j: nat, c: int, cell: Cell)
    requires s.Valid() && j < |s.frame| && j != s.sch.timeIndex && RowAt(s, c) < 0
    requires j in s.sch.valueIndices <==> !Factor(s.frame[j])
    ensures cell == LookupCell(s, j, c) <==> CellFromNone(s.frame[j], s.fill, cell)
  {
  }

  /** The source of a frame in time order, and what the scan knows of its columns. */
  ghost predicate Ready(f: Frame, s: Source) {
    && InTime(f) && SameLengths(f) && s.Valid() && s.frame == f && s.sch.timeIndex == TimeIndex(f)
    && s.times == TimesOf(f[TimeIndex(f)]) && TimesInOrder(s)
  }

  lemma SourceReady(f: Frame, fill: Fill, interval: int)
    requires InTime(f) && SameLengths(f) && interval != 0 && IsSeries(f)
    ensures Ready(f, SourceOf(f, fill, interval))
  {
    SourceIs(f, fill, interval);
    SeriesFacts(f);
  }

  lemma ColumnOfKind(f: Frame, s: Source, j: nat)
    requires Ready(f, s) && j < |f| && j != TimeIndex(f)
    ensures j in s.sch.valueIndices <==> !Factor(s.frame[j])
  {
    IndicesComplete(f, TimeIndex(f), |f|, j);
  }

  lemma LookupIsCell(f: Frame, s: Source, j: nat, c: int, cell: Cell)
    requires Ready(f, s) && j < |f|
    ensures CellAtTick(f, s.fill, s.interval, j, c, cell) <==> cell == LookupCell(s, j, c)
  {
    if j != TimeIndex(f) {
      ColumnOfKind(f, s, j);
      RowIsLast(f, s, c);
      var p := RowAt(s, c);
      if p >= 0 {
        CellWithRow(f, s.fill, s.interval, j, c, p, cell);
        LookupWithRow(s, j, c, p, cell);
      } else {
        CellWithoutRow(f, s.fill, s.interval, j, c, cell);
        LookupWithoutRow(s, j, c, cell);
      }
    }
  }

  lemma TicksAre(from: int, to: int, interval: int)
    requires interval > 0
    ensures TickNumber(from, to, interval, TickCount(from, to, interval))
  {
    forall k: nat ensures from + k * interval <= to <==> k < TickCount(from, to, interval) {
      TicksExact(from, to, interval, k);
      TickIs(from, interval, k);
    }
  }

  lemma LacksAtIs(f: Frame, s: Source, j: nat, c: int)
    requires Ready(f, s) && j < |f|
    ensures LacksAt(f, s.fill, s.interval, j, c) <==> !s.frame[j].ftype.nullable && LookupCell(s, j, c).Null?
  {
    LookupIsCell(f, s, j, c, Null);
  }

  lemma LacksIs(f: Frame, s: Source, from: int, j: nat, k: nat)
    requires Ready(f, s) && j < |f|
    ensures Lacks(f, s.fill, from, s.interval, j, k) <==> NilAt(s, j, from, k)
  {
    TickIs(from, s.interval, k);
    LacksAtIs(f, s, j, Tick(from, s.interval, k));
  }

  lemma LacksExact(f: Frame, s: Source, from: int, n: nat)
    requires Ready(f, s)
    ensures NeedsNull(f, s.fill, from, s.interval, n) <==> exists k: nat :: k < n && NilInserted(s, from, k)
  {
    if NeedsNull(f, s.fill, from, s.interval, n) {
      var j: nat, k: nat :| j < |f| && k < n && Lacks(f, s.fill, from, s.interval, j, k);
      LacksIs(f, s, from, j, k);
      NilInsertedExact(s, from, k);
    }
    if k: nat :| k < n && NilInserted(s, from, k) {
      NilInsertedExact(s, from, k);
      var j: nat :| j < |s.frame| && NilAt(s, j, from, k);
      LacksIs(f, s, from, j, k);
    }
  }

  /** One column of the result. */
  ghost predicate ColumnResampled(f: Frame, fill: Fill, from: int, interval: int, n: nat, j: nat, g: Field)
    requires InTime(f) && SameLengths(f) && j < |f|
  {
    && g.name == f[j].name && g.ftype == f[j].ftype && g.labels == f[j].labels && |g.cells| == n
    && forall k: nat :: k < n ==> CellResampled(f, fill, from, interval, j, k, g.cells[k])
  }

  ghost predicate CellResampled(f: Frame, fill: Fill, from: int, interval: int, j: nat, k: nat, cell: Cell)
    requires InTime(f) && SameLengths(f) && j < |f|
  {
    CellAtTick(f, fill, interval, j, from + k * interval, cell)
  }

  lemma CellLooksUp(f: Frame, s: Source, from: int, j: nat, k: nat, c: int, cell: Cell)
    requires Ready(f, s) && j < |f| && c == from + k * s.interval && cell == LookupCell(s, j, c)
    ensures CellResampled(f, s.fill, from, s.interval, j, k, cell)
  {
    LookupIsCell(f, s, j, c, cell);
  }

  lemma ColumnLooksUp(f: Frame, s: Source, from: int, n: nat, j: nat, g: Field)
    requires Ready(f, s) && j < |f|
    requires g.name == f[j].name && g.ftype == f[j].ftype && g.labels == f[j].labels && |g.cells| == n
    requires forall k :: 0 <= k < n ==> g.cells[k] == LookupCell(s, j, from + k * s.interval)
    ensures ColumnResampled(f, s.fill, from, s.interval, n, j, g)
  {
    forall k: nat | k < n ensures CellResampled(f, s.fill, from, s.interval, j, k, g.cells[k]) {
      CellLooksUp(f, s, from, j, k, from + k * s.interval, g.cells[k]);
    }
  }

  lemma LooksUpIsResampled(f: Frame, s: Source, from: int, n: nat, rows: seq<seq<Cell>>)
    requires Ready(f, s) && (forall k :: 0 <= k < |rows| ==> |rows[k]| == |f|) && |rows| == n
    requires LooksUp(s, from, n, FrameOf(f, rows))
    ensures ResampledTo(f, s.fill, from, s.interval, n, FrameOf(f, rows))
  {
    var g := FrameOf(f, rows);
    forall j: nat | j < |f| ensures ColumnResampled(f, s.fill, from, s.interval, n, j, g[j]) {
      ColumnLooksUp(f, s, from, n, j, g[j]);
    }
  }

  /** On times in order: a panic exactly when some tick needs a null that its column cannot hold; else the resampled frame. */
  lemma ResampledTicks(f: Frame, fill: Fill, from: int, to: int, interval: int, n: nat)
    requires InTime(f) && SameLengths(f) && IsSeries(f) && interval > 0 && from <= to && n == TickCount(from, to, interval)
    ensures var r := Expected(f, fill, from, to, interval);
            if NeedsNull(f, fill, from, interval, n) then r == Failed(Panicked)
            else r.Resampled? && ResampledTo(f, fill, from, interval, n, r.frame)
  {
    var s := SourceOf(f, fill, interval);
    SeriesFacts(f);
    SourceIs(f, fill, interval);
    SourceReady(f, fill, interval);
    LacksExact(f, s, from, n);
    LookedUpExact(s, from, n);
    NeverMet(s, Tick(from, interval, n - 1));
    ResampledIsLookup(f, fill, from, to, interval);
    if !NeedsNull(f, fill, from, interval, n) {
      LookedUpRows(s, from, n);
      FrameLooksUp(s, from, n);
      LooksUpIsResampled(f, s, from, n, LookedUp(s, from, n).rows);
    }
  }

  lemma ResampledNothing(f: Frame, fill: Fill, from: int, interval: int)
    requires InTime(f) && SameLengths(f)
    ensures ResampledTo(f, fill, from, interval, 0, FrameOf(f, [])) && !NeedsNull(f, fill, from, interval, 0)
  {
  }

  /** On times in order: one row for each tick up to `to`, or a panic when one of them needs a null its column cannot hold. */
  lemma ResampledExact(f: Frame, fill: Fill, from: int, to: int, interval: int) returns (n: nat)
    requires InTime(f) && SameLengths(f) && IsSeries(f) && interval > 0
    ensures TickNumber(from, to, interval, n)
    ensures var r := Expected(f, fill, from, to, interval);
            if NeedsNull(f, fill, from, interval, n) then r == Failed(Panicked)
            else r.Resampled? && ResampledTo(f, fill, from, interval, n, r.frame)
  {
    n := TickCount(from, to, interval);
    TicksAre(from, to, interval);
    if from <= to {
      ResampledTicks(f, fill, from, to, interval, n);
    } else {
      SeriesFacts(f);
      ResampledNothing(f, fill, from, interval);
    }
  }

  lemma SeriesOrNot(f: Frame)
    ensures SchemaOf(f).seriesType.NotSeries? <==> !IsSeries(f)
    ensures IsSeries(f) ==> SchemaOf(f).timeIndex < |f|
  {
    SeriesTypeExact(f);
  }

  /** The answers that need no row. */
  lemma AnswerExact(f: Frame, fill: Fill, from: int, to: int, interval: int)
    requires !NeverEnds(f, fill, from, to, interval)
    ensures var r := Expected(f, fill, from, to, interval);
            && (r == Failed(NotTimeSeries) <==> !IsSeries(f))
            && (r == Unchanged <==> IsSeries(f) && interval == 0)
            && (r == Failed(Ragged) <==> IsSeries(f) && interval != 0 && from <= to && !SameLengths(f))
  {
    SeriesOrNot(f);
    if IsSeries(f) && interval != 0 && from <= to && SameLengths(f) {
      StopsFor(SourceOf(f, fill, interval), from, Ticks(from, to, interval));
    }
  }

  lemma {:induction false} StopsFor(s: Source, from: int, n: nat)
    requires s.Valid()
    ensures After(s, from, n).Stopped? ==> After(s, from, n).why.NilTime? || After(s, from, n).why.Panicked?
    decreases n
  {
    if n > 0 { StopsFor(s, from, n - 1); }
  }

  // ----- a missing time -----

  /** Row `z` is the first without a time; the rows before it do not go back. */
  predicate FirstMissing(f: Frame, z: nat) {
    && TimeIndex(f) < |f| && z < |f[TimeIndex(f)].cells| && !IsTime(f[TimeIndex(f)].cells[z])
    && (forall i :: 0 <= i < z ==> IsTime(f[TimeIndex(f)].cells[i]))
    && forall i, j :: 0 <= i < j < z ==> f[TimeIndex(f)].cells[i].v.at <= f[TimeIndex(f)].cells[j].v.at
  }

  predicate AllNullable(f: Frame) { forall j :: 0 <= j < |f| && j != TimeIndex(f) ==> f[j].ftype.nullable }

  lemma MissingIs(f: Frame, z: nat, fill: Fill, interval: int)
    requires FirstMissing(f, z) && SameLengths(f) && IsSeries(f) && interval > 0
    ensures var s := SourceOf(f, fill, interval);
            && s.Valid() && FirstNil(s.times) == z < |s.times| && Ascending(s.times) && s.sch.timeIndex == TimeIndex(f)
            && (z > 0 ==> s.times[z - 1] == Some(f[TimeIndex(f)].cells[z - 1].v.at))
    ensures RowLen(f).Some?
  {
    SeriesFacts(f);
    var s := SourceOf(f, fill, interval);
    FirstNilIs(f[TimeIndex(f)], s.times, z);
  }

  lemma FirstNilIs(field: Field, ts: seq<Option<int>>, z: nat)
    requires ts == TimesOf(field) && z < |field.cells| && !IsTime(field.cells[z])
    requires forall i :: 0 <= i < z ==> IsTime(field.cells[i])
    ensures FirstNil(ts) == z && forall i :: 0 <= i < z ==> ts[i] == Some(field.cells[i].v.at)
  {
    assert ts[z].None?;
    forall i | 0 <= i < z ensures ts[i] == Some(field.cells[i].v.at) {}
  }

  lemma MissingStops(s: Source, from: int, n: nat, z: nat, c: int)
    requires s.Valid() && s.interval > 0 && Ascending(s.times) && n > 0 && FirstNil(s.times) == z < |s.times|
    requires s.sch.timeIndex == TimeIndex(s.frame) && AllNullable(s.frame) && c == from + (n - 1) * s.interval
    ensures LookedUp(s, from, n) == Stopped(NilTime) <==> z == 0 || s.times[z - 1].value <= c
    ensures LookedUp(s, from, n).Going? || LookedUp(s, from, n) == Stopped(NilTime)
  {
    TickIs(from, s.interval, n - 1);
    NilTimeExact(s, from, n);
  }

  lemma MissingTicks(f: Frame, fill: Fill, from: int, to: int, interval: int, z: nat, n: nat, c: int)
    requires FirstMissing(f, z) && AllNullable(f) && SameLengths(f) && IsSeries(f) && interval > 0
    requires from <= to && n == TickCount(from, to, interval) && n > 0 && c == from + (n - 1) * interval
    ensures var r := Expected(f, fill, from, to, interval);
            if z == 0 || f[TimeIndex(f)].cells[z - 1].v.at <= c then r == Failed(NilTime) else r.Resampled?
  {
    MissingIs(f, z, fill, interval);
    SeriesFacts(f);
    MissingStops(SourceOf(f, fill, interval), from, n, z, c);
    ResampledIsLookup(f, fill, from, to, interval);
  }

  /** When every column but the time can hold a null, a missing time fails the call exactly when some tick is not before the
      row above it; else the call succeeds. */
  lemma MissingTimeExact(f: Frame, fill: Fill, from: int, to: int, interval: int, z: nat)
    requires FirstMissing(f, z) && AllNullable(f) && SameLengths(f) && IsSeries(f) && interval > 0
    ensures var r := Expected(f, fill, from, to, interval);
            if from <= to && (z == 0 || exists k: nat :: Passes(f, from, to, interval, z, k)) then r == Failed(NilTime)
            else r.Resampled?
  {
    if from <= to {
      var n := TickCount(from, to, interval);
      TicksAre(from, to, interval);
      MissingTicks(f, fill, from, to, interval, z, n, from + (n - 1) * interval);
      if z > 0 { LastTickPasses(f, from, to, interval, z, n); }
    } else {
      SeriesFacts(f);
    }
  }

  /** Tick `k`, in range, is not before the row above row `z`. */
  predicate Passes(f: Frame, from: int, to: int, interval: int, z: nat, k: nat)
    requires FirstMissing(f, z) && z > 0
  {
    f[TimeIndex(f)].cells[z - 1].v.at <= from + k * interval <= to
  }

  lemma LastTickPasses(f: Frame, from: int, to: int, interval: int, z: nat, n: nat)
    requires FirstMissing(f, z) && z > 0 && interval > 0 && from <= to && n > 0 && TickNumber(from, to, interval, n)
    ensures (exists k: nat :: Passes(f, from, to, interval, z, k)) <==>
              f[TimeIndex(f)].cells[z - 1].v.at <= from + (n - 1) * interval
  {
    if k: nat :| Passes(f, from, to, interval, z, k) {
      assert k <= n - 1;
      MulOrder(k, n - 1, interval);
    }
    if f[TimeIndex(f)].cells[z - 1].v.at <= from + (n - 1) * interval { assert Passes(f, from, to, interval, z, n - 1); }
  }
}
