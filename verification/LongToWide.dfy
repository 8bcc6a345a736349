/** data/time_series.go `LongToWide`: errors, the row loop, the final sort, and what the wide frame says. */
module LongToWide {
  import opened GoText
  import opened Outcomes
  import opened Frames
  import opened TupleKeys
  import opened StableSort
  import opened FieldSort
  import opened RowProcessor

  // ----- which frames are refused -----

  /** Row `r` has no time, or an earlier one than the row above. */
  predicate BadRow(s: LongSeries, r: nat)
    requires s.Valid() && r < s.rows
  {
    s.Time(r).None? || (r > 0 && s.Time(r - 1).Some? && s.Time(r).value < s.Time(r - 1).value)
  }

  function ErrorAt(s: LongSeries, r: nat): Error
    requires s.Valid() && r < s.rows
  {
    if s.Time(r).None? then NullTime else Unsorted
  }

  /** The first bad row from `r` on, or the number of rows. */
  function FirstBad(s: LongSeries, r: nat): (b: nat)
    requires s.Valid() && r <= s.rows
    ensures r <= b <= s.rows && (b < s.rows ==> BadRow(s, b))
    ensures forall q :: r <= q < b ==> !BadRow(s, q)
    decreases s.rows - r
  {
    if r == s.rows || BadRow(s, r) then r else FirstBad(s, r + 1)
  }

  function SeriesOf(long: Frame): LongSeries {
    LongSeries(long, SchemaOf(long), if long == [] then 0 else |long[0].cells|)
  }

  /** A missing first time is reported before a repeated factor name, that before any other row's fault. */
  function Refusal(long: Frame): Option<Error>
    requires AllTyped(long)
  {
    if !SchemaOf(long).seriesType.Long? then Some(NotLongSeries)
    else if RowLen(long).None? then Some(RaggedFrame)
    else if RowLen(long).value == 0 then Some(NoRows)
    else
      var s := SeriesOf(long);
      if s.Time(0).None? then Some(NullTime)
      else if !Distinct(s.FactorNames()) then Some(DuplicateLabel)
      else if FirstBad(s, 0) < s.rows then Some(ErrorAt(s, FirstBad(s, 0)))
      else None
  }

  /** After the good rows so far, the processor's last time is the last row's. */
  lemma LastTime(tb: Table, r: nat)
    requires tb.Ok() && tb.times != [] && r <= |tb.keys| && Ascending(tb.times, r)
    ensures Times(tb.times, r)[|Times(tb.times, r)| - 1] == tb.times[if r == 0 then 0 else r - 1]
  {
    TimesAdvance(tb.times, r);
  }

  lemma FaultMeansBad(tb: Table, s: LongSeries, r: nat, last: int)
    requires Pictures(tb, s) && r < s.rows && s.Time(0).Some? && last == tb.times[if r == 0 then 0 else r - 1]
    requires r > 0 ==> !BadRow(s, r - 1) && Distinct(s.FactorNames())
    ensures RowFault(tb, s, r, last).Some? <==> BadRow(s, r) || (r == 0 && !Distinct(s.FactorNames()))
    ensures BadRow(s, r) ==> RowFault(tb, s, r, last) == Some(ErrorAt(s, r))
    ensures !BadRow(s, r) && r == 0 && !Distinct(s.FactorNames()) ==> RowFault(tb, s, r, last) == Some(DuplicateLabel)
  {
    if r > 0 { assert s.Time(r - 1).Some?; }
  }

  /** Row `r` passed the checks. */
  predicate Passed(s: LongSeries, r: nat)
    requires s.Valid() && r < s.rows
  {
    !BadRow(s, r) && (r == 0 ==> Distinct(s.FactorNames()))
  }

  predicate AllPassed(s: LongSeries, n: nat)
    requires s.Valid() && n <= s.rows
  {
    forall q :: 0 <= q < n ==> Passed(s, q)
  }

  lemma FirstBadIs(s: LongSeries, b: nat)
    requires s.Valid() && b <= s.rows && (b < s.rows ==> BadRow(s, b)) && AllPassed(s, b)
    ensures FirstBad(s, 0) == b
    ensures b > 0 ==> Distinct(s.FactorNames())
  {
    var f := FirstBad(s, 0);
    assert f < b ==> Passed(s, f);
    assert b > 0 ==> Passed(s, 0);
  }

  /** The processor stops at row `r` exactly when that row is not in order. */
  lemma FaultExact(tb: Table, s: LongSeries, r: nat, last: int, fault: Option<Error>)
    requires Pictures(tb, s) && r < s.rows && s.Time(0).Some?
    requires Ascending(tb.times, r) && last == Times(tb.times, r)[|Times(tb.times, r)| - 1]
    requires AllPassed(s, r) && fault == RowFault(tb, s, r, last)
    ensures fault.None? ==> AllPassed(s, r + 1)
    ensures fault.Some? ==> !Distinct(s.FactorNames()) || FirstBad(s, 0) < s.rows
    ensures fault.Some? ==>
              fault.value == if Distinct(s.FactorNames()) then ErrorAt(s, FirstBad(s, 0)) else DuplicateLabel
  {
    LastTime(tb, r);
    if r > 0 { assert Passed(s, r - 1) && Passed(s, 0); }
    FaultMeansBad(tb, s, r, last);
    if BadRow(s, r) { FirstBadIs(s, r); }
  }

  /** The loop over the rows, up to and excluding the sort. */
  method ProcessRows(s: LongSeries, fill: Fill, ghost tb: Table) returns (r: Result<Frame, Error>)
    requires Pictures(tb, s) && s.Time(0).Some?
    ensures r.Err? <==> !Distinct(s.FactorNames()) || FirstBad(s, 0) < s.rows
    ensures r.Err? ==> r.error == if Distinct(s.FactorNames()) then ErrorAt(s, FirstBad(s, 0)) else DuplicateLabel
    ensures r.Ok? ==> r.value == Pivot(tb, fill, s.long[s.sch.timeIndex].name, s.rows)
  {
    var proc := new LongRowProcessor(s, fill, s.long[s.sch.timeIndex].name, s.Time(0).value, tb);
    for longRowIdx := 0 to s.rows
      invariant fresh(proc) && proc.Valid(longRowIdx) && proc.s == s && proc.fill == fill
      invariant proc.name == s.long[s.sch.timeIndex].name && proc.tb == tb
      invariant AllPassed(s, longRowIdx)
    {
      ghost var last := proc.lastTime;
      var err := proc.Process(longRowIdx);
      FaultExact(tb, s, longRowIdx, last, err);
      if err.Some? {
        return Err(err.value);
      }
    }
    FirstBadIs(s, s.rows);
    r := Ok(proc.wide);
  }

  // ----- the result -----

  /** The pivot of all rows, before the sort. */
  ghost function PivotOf(s: LongSeries, fill: Fill): Frame
    requires s.Valid()
  {
    RowsPicture(s);
    Pivot(s.Rows(), fill, s.long[s.sch.timeIndex].name, s.rows)
  }

  /** The wide frame of a long one: its pivot, columns sorted by name and factors. */
  ghost function WideOf(s: LongSeries, fill: Fill): Frame
    requires s.Valid()
  {
    SortedFrame(s.FactorNames(), PivotOf(s, fill))
  }

  /** What every pivot looks like: a time column, then labelled value columns, at least one. */
  predicate WideShape(f: Frame) {
    |f| > 1 && f[0].ftype.kind.TimeKind?
    && forall j :: 1 <= j < |f| ==> f[j].labels.Some? && !IsFactor(f[j])
  }

  lemma WideShapeIsWide(f: Frame)
    requires WideShape(f)
    ensures TimeIndex(f) == 0 && SchemaOf(f).seriesType.Wide? && NoClash(Others(f))
  {
    NoTimeBeforeFirst(f);
    IndicesComplete(f, 0, |f|, 1);
    NoFactors(f, |f|);
    OthersOf(f);
  }

  lemma NoTimeBeforeFirst(f: Frame)
    requires f != [] && f[0].ftype.kind.TimeKind?
    ensures TimeIndex(f) == 0
  {
  }

  lemma {:induction false} NoFactors(f: Frame, n: nat)
    requires n <= |f| && forall j :: 0 <= j < n ==> !IsFactor(f[j])
    ensures FactorIndices(f, n) == []
    decreases n
  {
    if n > 0 { NoFactors(f, n - 1); }
  }

  lemma OthersOf(f: Frame)
    requires WideShape(f) && TimeIndex(f) == 0
    ensures NoClash(Others(f))
  {
    forall i | 0 <= i < |Others(f)| ensures Others(f)[i].labels.Some? {
      assert Others(f)[i] == if i == 0 then f[|f| - 1] else f[i];
    }
  }

  lemma PivotShape(tb: Table, fill: Fill, name: GoString)
    requires tb.Ok() && tb.times != [] && tb.columns != []
    requires forall i :: 0 <= i < |tb.columns| ==> !IsFactor(tb.long[tb.columns[i]])
    ensures WideShape(Pivot(tb, fill, name, |tb.keys|))
  {
    OriginsComplete(tb, |tb.keys|, 0, 0);
    var f, os := Pivot(tb, fill, name, |tb.keys|), Origins(tb, |tb.keys|);
    forall j | 1 <= j < |f| ensures f[j].labels.Some? && !IsFactor(f[j]) {
      assert os[j - 1].column in tb.columns;
    }
  }

  /** Every series has its columns. */
  lemma {:induction false} OriginsComplete(tb: Table, n: nat, r: nat, i: nat)
    requires n <= |tb.keys| && r < n && First(tb.keys, r) && i < |tb.columns|
    ensures Origin(r, tb.columns[i]) in Origins(tb, n)
    decreases n
  {
    if r < n - 1 {
      OriginsComplete(tb, n - 1, r, i);
    } else {
      assert OriginsOf(r, tb.columns)[i] == Origin(r, tb.columns[i]);
    }
  }

  /** LongToWide. */
  method LongToWide(longFrame: Frame, fill: Fill) returns (r: Result<Frame, Error>)
    requires AllTyped(longFrame)
    ensures r.Err? <==> Refusal(longFrame).Some?
    ensures r.Err? ==> Some(r.error) == Refusal(longFrame)
    ensures r.Ok? ==> SeriesOf(longFrame).Valid() && r.value == WideOf(SeriesOf(longFrame), fill)
  {
    var sch := TimeSeriesSchema(longFrame);
    if !sch.seriesType.Long? {
      return Err(NotLongSeries);
    }
    var longLen := RowLen(longFrame);
    if longLen.None? {
      return Err(RaggedFrame);
    }
    if longLen.value == 0 {
      return Err(NoRows);
    }
    var s := LongSeries(longFrame, sch, longLen.value);
    if s.Time(0).None? {
      return Err(NullTime);
    }
    RowsPicture(s);
    var wide := ProcessRows(s, fill, s.Rows());
    if wide.Err? {
      return Err(wide.error);
    }
    PivotShape(s.Rows(), fill, s.long[sch.timeIndex].name);
    WideShapeIsWide(wide.value);
    var sorted := SortWideFrameFields(wide.value, s.FactorNames());
    r := Ok(sorted.value);
  }

  // ----- what the wide frame says, in terms of the long one -----

  /** The rows belong to one series: their factor texts agree, malformed bytes blurred. */
  predicate Alike(s: LongSeries, r: nat, q: nat)
    requires s.Valid() && r < s.rows && q < s.rows
  {
    forall i :: 0 <= i < |s.sch.factorIndices| ==>
      Units(s.Text(r, s.sch.factorIndices[i])) == Units(s.Text(q, s.sch.factorIndices[i]))
  }

  /** `f` is the first row of its series. */
  ghost predicate Founds(s: LongSeries, f: nat) {
    s.Valid() && f < s.rows && forall p :: 0 <= p < f ==> !Alike(s, p, f)
  }

  /** `q` is in the series of `f`, at time `t`. */
  predicate At(s: LongSeries, f: nat, t: int, q: nat)
    requires s.Valid() && f < s.rows
  {
    q < s.rows && Alike(s, q, f) && s.Time(q) == Some(t)
  }

  /** `q` is in the series of `f`, no later than `t`. */
  predicate UpTo(s: LongSeries, f: nat, t: int, q: nat)
    requires s.Valid() && f < s.rows
  {
    q < s.rows && Alike(s, q, f) && s.Time(q).Some? && s.Time(q).value <= t
  }

  ghost predicate LastRowAt(s: LongSeries, f: nat, t: int, q: nat)
    requires s.Valid() && f < s.rows
  {
    At(s, f, t, q) && forall p :: q < p < s.rows ==> !At(s, f, t, p)
  }

  ghost predicate LastRowUpTo(s: LongSeries, f: nat, t: int, q: nat)
    requires s.Valid() && f < s.rows
  {
    UpTo(s, f, t, q) && forall p :: q < p < s.rows ==> !UpTo(s, f, t, p)
  }

  /** The cell at `t` of series `f` and long column `v`: the last row's value, else what the fill mode says. */
  ghost predicate CellSays(s: LongSeries, fill: Fill, f: nat, v: nat, t: int, cell: Cell)
    requires s.Valid() && f < s.rows && v < |s.long|
  {
    && (forall q: nat :: LastRowAt(s, f, t, q) ==> cell == s.long[v].cells[q])
    && ((forall q :: 0 <= q < s.rows ==> !At(s, f, t, q)) ==>
          match fill
          case NoFill => cell == Zero(s.long[v].ftype)
          case NullFill => cell == Null
          case Constant(convert) =>
            var k := s.long[v].ftype.kind;
            cell == if k.NumberKind? then Val(NumVal(convert(k.code))) else Zero(s.long[v].ftype)
          case Previous =>
            && (forall p: nat :: LastRowUpTo(s, f, t, p) ==> cell == s.long[v].cells[p])
            && ((forall p :: 0 <= p < s.rows ==> !UpTo(s, f, t, p)) ==> cell == Null))
  }

  /** Same table key, same series. */
  lemma KeysAreSeries(tb: Table, s: LongSeries, r: nat, q: nat)
    requires Pictures(tb, s) && r < s.rows && q < s.rows
    ensures Alike(s, r, q) <==> tb.keys[r] == tb.keys[q]
  {
    assert Describes(tb, s, r) && Describes(tb, s, q);
    SameSeriesExact(s, r, q);
  }

  lemma RowsOfSeries(tb: Table, s: LongSeries, f: nat, t: int)
    requires Pictures(tb, s) && f < s.rows && AllPassed(s, s.rows)
    ensures forall q :: 0 <= q < s.rows ==> (At(s, f, t, q) <==> tb.keys[q] == tb.keys[f] && tb.times[q] == t)
    ensures forall q :: 0 <= q < s.rows ==> (UpTo(s, f, t, q) <==> tb.keys[q] == tb.keys[f] && tb.times[q] <= t)
    ensures Founds(s, f) <==> First(tb.keys, f)
  {
    forall q | 0 <= q < s.rows
      ensures Alike(s, q, f) <==> tb.keys[q] == tb.keys[f]
      ensures s.Time(q) == Some(tb.times[q])
    {
      KeysAreSeries(tb, s, q, f);
      assert Passed(s, q);
    }
  }

  lemma LastRows(tb: Table, s: LongSeries, f: nat, t: int)
    requires Pictures(tb, s) && f < s.rows && AllPassed(s, s.rows)
    ensures var q := LastAt(tb, s.rows, tb.keys[f], t);
            && (forall r: nat :: LastRowAt(s, f, t, r) ==> r == q)
            && (q >= 0 ==> At(s, f, t, q))
    ensures var p := LastUpTo(tb, s.rows, tb.keys[f], t);
            && (forall r: nat :: LastRowUpTo(s, f, t, r) ==> r == p)
            && (p >= 0 ==> UpTo(s, f, t, p))
  {
    RowsOfSeries(tb, s, f, t);
    var q, p := LastAt(tb, s.rows, tb.keys[f], t), LastUpTo(tb, s.rows, tb.keys[f], t);
    assert q >= 0 ==> At(s, f, t, q);
    assert p >= 0 ==> UpTo(s, f, t, p);
    forall r: nat | LastRowAt(s, f, t, r) ensures r == q {
      assert At(s, f, t, r);
    }
    forall r: nat | LastRowUpTo(s, f, t, r) ensures r == p {
      assert UpTo(s, f, t, r);
    }
  }

  lemma CellAtSays(tb: Table, s: LongSeries, fill: Fill, f: nat, v: nat, t: int)
    requires Pictures(tb, s) && f < s.rows && AllPassed(s, s.rows) && v < |s.long|
    ensures CellSays(s, fill, f, v, t, CellAt(tb, fill, s.rows, tb.keys[f], s.long[v], t))
  {
    LastRows(tb, s, f, t);
  }

  lemma RefusedNot(long: Frame)
    requires AllTyped(long) && Refusal(long).None?
    ensures SeriesOf(long).Valid() && AllPassed(SeriesOf(long), SeriesOf(long).rows)
    ensures Distinct(SeriesOf(long).FactorNames())
  {
    var s := SeriesOf(long);
    forall q: nat | q < s.rows ensures Passed(s, q) {
      assert !BadRow(s, q);
    }
  }

  lemma TableAscends(tb: Table, s: LongSeries, n: nat)
    requires Pictures(tb, s) && AllPassed(s, s.rows) && n <= s.rows
    ensures Ascending(tb.times, n)
    decreases n
  {
    if n > 1 {
      TableAscends(tb, s, n - 1);
      assert Passed(s, n - 1) && Passed(s, n - 2);
      assert tb.times[n - 2] <= tb.times[n - 1];
    }
  }

  /** The sort keeps the time column in front and loses no other column. */
  lemma SortedColumns(keys: seq<GoString>, f: Frame)
    requires WideShape(f) && f[0].labels.None?
    ensures var wide := SortedFrame(keys, f);
            && |wide| == |f| && wide[0] == f[0]
            && (forall j :: 1 <= j < |f| ==> f[j] in wide[1..])
            && (forall c :: 1 <= c < |wide| ==> wide[c] in f[1..])
  {
    WideShapeIsWide(f);
    SortedFramePermutes(keys, f);
    var wide := SortedFrame(keys, f);
    forall j | 1 <= j < |f| ensures f[j] in wide[1..] {
      assert f[j] in multiset(wide);
    }
    SortedKeepsMembers(Comparator(keys), Others(f));
    forall c | 1 <= c < |wide| ensures wide[c] in f[1..] {
      assert wide[c] in multiset(Others(f));
      var i :| 0 <= i < |Others(f)| && Others(f)[i] == wide[c];
      assert wide[c] == if i == 0 then f[|f| - 1] else f[i];
    }
  }

  ghost function TimesOf(s: LongSeries): seq<int>
    requires s.Valid()
  {
    Times(s.Rows().times, s.rows)
  }

  predicate Accepted(long: Frame) {
    AllTyped(long) && Refusal(long).None?
  }

  lemma ResultFacts(s: LongSeries, fill: Fill)
    requires s.Valid() && AllPassed(s, s.rows)
    ensures Pictures(s.Rows(), s) && s.Rows().times != [] && Ascending(s.Rows().times, s.rows)
    ensures WideShape(PivotOf(s, fill)) && PivotOf(s, fill)[0] == TimeColumn(s.long[s.sch.timeIndex].name, TimesOf(s))
    ensures PivotOf(s, fill)[0].labels.None?
  {
    RowsPicture(s);
    TableAscends(s.Rows(), s, s.rows);
    PivotShape(s.Rows(), fill, s.long[s.sch.timeIndex].name);
  }

  lemma TimesAreInputs(tb: Table, s: LongSeries, t: int)
    requires Pictures(tb, s) && AllPassed(s, s.rows) && Ascending(tb.times, s.rows)
    ensures t in Times(tb.times, s.rows) <==> exists r: nat :: r < s.rows && s.Time(r) == Some(t)
  {
    TimesCover(tb.times, s.rows, t);
    if t in Times(tb.times, s.rows) {
      var r :| 0 <= r < s.rows && tb.times[r] == t;
      assert Passed(s, r) && s.Time(r) == Some(t);
    }
    if r: nat :| r < s.rows && s.Time(r) == Some(t) {
      assert tb.times[r] == t;
    }
  }

  /** The wide time column: strictly increasing, exactly the input's times. */
  lemma WideTimes(long: Frame, fill: Fill)
    requires Accepted(long)
    ensures SeriesOf(long).Valid()
    ensures var s, wide := SeriesOf(long), WideOf(SeriesOf(long), fill);
            && wide != [] && wide[0] == TimeColumn(long[s.sch.timeIndex].name, TimesOf(s))
            && (forall i, j :: 0 <= i < j < |TimesOf(s)| ==> TimesOf(s)[i] < TimesOf(s)[j])
            && (forall t :: t in TimesOf(s) <==> exists r: nat :: r < s.rows && s.Time(r) == Some(t))
  {
    RefusedNot(long);
    var s := SeriesOf(long);
    ResultFacts(s, fill);
    SortedColumns(s.FactorNames(), PivotOf(s, fill));
    TimesAdvance(s.Rows().times, s.rows);
    forall t ensures t in TimesOf(s) <==> exists r: nat :: r < s.rows && s.Time(r) == Some(t) {
      TimesAreInputs(s.Rows(), s, t);
    }
  }

  /** `c` is the column of the series of row `f` and the long column `v`, over the times `ws`. */
  ghost predicate IsColumn(s: LongSeries, fill: Fill, ws: seq<int>, f: nat, v: nat, c: Field) {
    && Founds(s, f) && v in s.sch.valueIndices && v < |s.long|
    && c.name == s.long[v].name && c.ftype == WideType(fill, s.long[v].ftype)
    && c.labels == Some(LabelsOf(s.NamedKey(f), |s.sch.factorIndices|))
    && |c.cells| == |ws| && forall w :: 0 <= w < |ws| ==> CellSays(s, fill, f, v, ws[w], c.cells[w])
  }

  lemma HeaderIsColumn(tb: Table, s: LongSeries, fill: Fill, ws: seq<int>, o: Origin)
    requires Pictures(tb, s) && AllPassed(s, s.rows) && OriginOk(tb, o) && First(tb.keys, o.first)
    requires o.column in s.sch.valueIndices
    ensures IsColumn(s, fill, ws, o.first, o.column, Header(tb, fill, o, Cells(tb, fill, s.rows, o, ws)))
  {
    var cells := Cells(tb, fill, s.rows, o, ws);
    RowsOfSeries(tb, s, o.first, 0);
    assert Describes(tb, s, o.first);
    forall w | 0 <= w < |ws| ensures CellSays(s, fill, o.first, o.column, ws[w], cells[w]) {
      CellAtSays(tb, s, fill, o.first, o.column, ws[w]);
    }
  }

  lemma PivotColumn(tb: Table, s: LongSeries, fill: Fill, name: GoString, j: nat)
    requires Pictures(tb, s) && AllPassed(s, s.rows) && tb.times != [] && 1 <= j < |Pivot(tb, fill, name, s.rows)|
    ensures var o := Origins(tb, s.rows)[j - 1];
            IsColumn(s, fill, Times(tb.times, s.rows), o.first, o.column, Pivot(tb, fill, name, s.rows)[j])
  {
    HeaderIsColumn(tb, s, fill, Times(tb.times, s.rows), Origins(tb, s.rows)[j - 1]);
  }

  lemma OriginOf(s: LongSeries, f: nat, i: nat) returns (o: nat)
    requires s.Valid() && Pictures(s.Rows(), s) && AllPassed(s, s.rows) && Founds(s, f) && i < |s.sch.valueIndices|
    ensures o < |Origins(s.Rows(), s.rows)| && Origins(s.Rows(), s.rows)[o] == Origin(f, s.sch.valueIndices[i])
  {
    RowsOfSeries(s.Rows(), s, f, 0);
    OriginsComplete(s.Rows(), s.rows, f, i);
    o :| 0 <= o < |Origins(s.Rows(), s.rows)| && Origins(s.Rows(), s.rows)[o] == Origin(f, s.sch.valueIndices[i]);
  }

  lemma PivotColumnIs(s: LongSeries, fill: Fill, o: nat, f: nat, v: nat)
    requires s.Valid() && Pictures(s.Rows(), s) && AllPassed(s, s.rows) && s.Rows().times != []
    requires o < |Origins(s.Rows(), s.rows)| && Origins(s.Rows(), s.rows)[o] == Origin(f, v)
    ensures o + 1 < |PivotOf(s, fill)| && IsColumn(s, fill, TimesOf(s), f, v, PivotOf(s, fill)[o + 1])
  {
    var pivot := Pivot(s.Rows(), fill, s.long[s.sch.timeIndex].name, s.rows);
    assert pivot == PivotOf(s, fill) && o + 1 < |pivot|;
    PivotColumn(s.Rows(), s, fill, s.long[s.sch.timeIndex].name, o + 1);
    assert IsColumn(s, fill, TimesOf(s), f, v, pivot[o + 1]);
  }

  /** Every series and long value column have their column in the wide frame. */
  lemma {:induction false} EveryColumnLands(long: Frame, fill: Fill, f: nat, i: nat) returns (c: nat)
    requires Accepted(long) && Founds(SeriesOf(long), f) && i < |SeriesOf(long).sch.valueIndices|
    ensures SeriesOf(long).Valid()
    ensures var s, wide := SeriesOf(long), WideOf(SeriesOf(long), fill);
            1 <= c < |wide| && IsColumn(s, fill, TimesOf(s), f, s.sch.valueIndices[i], wide[c])
  {
    RefusedNot(long);
    var s := SeriesOf(long);
    ResultFacts(s, fill);
    var pivot, wide := PivotOf(s, fill), WideOf(s, fill);
    SortedColumns(s.FactorNames(), pivot);
    var o := OriginOf(s, f, i);
    PivotColumnIs(s, fill, o, f, s.sch.valueIndices[i]);
    assert pivot[o + 1] in wide[1..];
    c :| 1 <= c < |wide| && wide[c] == pivot[o + 1];
  }

  /** Every column of the wide frame but the time is one of those. */
  lemma {:induction false} EveryColumnIsOne(long: Frame, fill: Fill, c: nat) returns (f: nat, v: nat)
    requires Accepted(long) && SeriesOf(long).Valid() && 1 <= c < |WideOf(SeriesOf(long), fill)|
    ensures var s, wide := SeriesOf(long), WideOf(SeriesOf(long), fill);
            IsColumn(s, fill, TimesOf(s), f, v, wide[c])
  {
    RefusedNot(long);
    var s := SeriesOf(long);
    ResultFacts(s, fill);
    var pivot, wide := PivotOf(s, fill), WideOf(s, fill);
    SortedColumns(s.FactorNames(), pivot);
    assert wide[c] in pivot[1..];
    var j: nat :| 1 <= j < |pivot| && pivot[j] == wide[c];
    f, v := Origins(s.Rows(), s.rows)[j - 1].first, Origins(s.Rows(), s.rows)[j - 1].column;
    PivotColumnIs(s, fill, j - 1, f, v);
  }

  predicate NoRepeats(os: seq<Origin>) { forall i, j :: 0 <= i < j < |os| ==> os[i] != os[j] }

  lemma NewOnesDiffer(was: seq<Origin>, n: nat, columns: seq<nat>)
    requires NoRepeats(was) && forall i :: 0 <= i < |was| ==> was[i].first != n
    requires forall i, j :: 0 <= i < j < |columns| ==> columns[i] < columns[j]
    ensures NoRepeats(was + OriginsOf(n, columns))
  {
  }

  /** No series and value column have two columns. */
  lemma {:induction false} OneColumnEach(tb: Table, n: nat)
    requires tb.Ok() && n <= |tb.keys|
    ensures NoRepeats(Origins(tb, n))
    decreases n
  {
    if n > 0 {
      OneColumnEach(tb, n - 1);
      NewOnesDiffer(Origins(tb, n - 1), n - 1, tb.columns);
    }
  }

  // ----- no column twice -----

  lemma LabelsTellPairs(ps: seq<Pair>, qs: seq<Pair>)
    requires SameKeys(ps, qs) && Distinct(Keys(ps)) && Distinct(Keys(qs)) && LabelsOf(ps, |ps|) == LabelsOf(qs, |qs|)
    ensures SameValues(ps, qs)
  {
    forall i | 0 <= i < |ps| ensures Units(ps[i].value) == Units(qs[i].value) {
      LabelsLookup(ps, |ps|, i);
      LabelsLookup(qs, |qs|, i);
    }
  }

  /** Founders with the same labels are one row. */
  lemma LabelsTellFounders(s: LongSeries, f: nat, g: nat)
    requires Founds(s, f) && Founds(s, g) && Distinct(s.FactorNames())
    requires LabelsOf(s.NamedKey(f), |s.sch.factorIndices|) == LabelsOf(s.NamedKey(g), |s.sch.factorIndices|)
    ensures f == g
  {
    NamedKeyNames(s, f);
    NamedKeyNames(s, g);
    LabelsTellPairs(s.NamedKey(f), s.NamedKey(g));
    forall i | 0 <= i < |s.sch.factorIndices|
      ensures Units(s.Text(f, s.sch.factorIndices[i])) == Units(s.Text(g, s.sch.factorIndices[i]))
    {
      assert Units(s.NamedKey(f)[i].value) == Units(s.NamedKey(g)[i].value);
    }
    assert Alike(s, f, g) && Alike(s, g, f);
  }

  predicate ValueNamesDiffer(s: LongSeries)
    requires s.Valid()
  {
    forall i, j :: 0 <= i < j < |s.sch.valueIndices| ==>
      s.long[s.sch.valueIndices[i]].name != s.long[s.sch.valueIndices[j]].name
  }

  lemma ColumnTellsOrigin(s: LongSeries, fill: Fill, ws: seq<int>, f: nat, v: nat, g: nat, u: nat, c: Field)
    requires IsColumn(s, fill, ws, f, v, c) && IsColumn(s, fill, ws, g, u, c)
    requires ValueNamesDiffer(s) && Distinct(s.FactorNames())
    ensures f == g && v == u
  {
    LabelsTellFounders(s, f, g);
  }

  predicate NoTwins(f: Frame) { forall i, j :: 1 <= i < |f| && 1 <= j < |f| && f[i] == f[j] ==> i == j }

  lemma PivotNoTwins(tb: Table, s: LongSeries, fill: Fill, name: GoString)
    requires Pictures(tb, s) && AllPassed(s, s.rows) && tb.times != []
    requires ValueNamesDiffer(s) && Distinct(s.FactorNames())
    ensures NoTwins(Pivot(tb, fill, name, s.rows))
  {
    var f, os, ws := Pivot(tb, fill, name, s.rows), Origins(tb, s.rows), Times(tb.times, s.rows);
    OneColumnEach(tb, s.rows);
    forall i, j | 1 <= i < |f| && 1 <= j < |f| && f[i] == f[j] ensures i == j {
      PivotColumn(tb, s, fill, name, i);
      PivotColumn(tb, s, fill, name, j);
      ColumnTellsOrigin(s, fill, ws, os[i - 1].first, os[i - 1].column, os[j - 1].first, os[j - 1].column, f[i]);
      assert os[i - 1] == os[j - 1];
    }
  }

  lemma {:induction false} NoRepeatsCount<T>(s: seq<T>, x: T)
    requires forall i, j :: 0 <= i < j < |s| ==> s[i] != s[j]
    ensures multiset(s)[x] <= 1
    decreases |s|
  {
    if s != [] {
      NoRepeatsCount(s[1..], x);
      assert s == [s[0]] + s[1..];
      if x == s[0] { assert x !in s[1..]; }
    }
  }

  lemma RepeatsCount<T>(s: seq<T>, i: nat, j: nat)
    requires i < j < |s| && s[i] == s[j]
    ensures multiset(s)[s[i]] >= 2
  {
    assert s == s[..j] + s[j..] && s[i] in s[..j] && s[j] in s[j..];
  }

  /** With value columns of different names, no two columns of the wide frame are equal. */
  lemma WideNoTwins(long: Frame, fill: Fill)
    requires Accepted(long) && SeriesOf(long).Valid() && ValueNamesDiffer(SeriesOf(long))
    ensures NoTwins(WideOf(SeriesOf(long), fill))
  {
    RefusedNot(long);
    var s := SeriesOf(long);
    ResultFacts(s, fill);
    var pivot, wide := PivotOf(s, fill), WideOf(s, fill);
    SortedColumns(s.FactorNames(), pivot);
    PivotNoTwins(s.Rows(), s, fill, long[s.sch.timeIndex].name);
    SortedFramePermutes(s.FactorNames(), pivot);
    PermutedNoTwins(pivot, wide);
  }

  lemma PermutedNoTwins(f: Frame, g: Frame)
    requires NoTwins(f) && multiset(g) == multiset(f) && f != [] && f[0].labels.None?
    requires forall j :: 1 <= j < |f| ==> f[j].labels.Some?
    ensures NoTwins(g)
  {
    forall x ensures multiset(f)[x] <= 1 {
      NoRepeatsCount(f, x);
    }
    forall i, j | 1 <= i < |g| && 1 <= j < |g| && g[i] == g[j] ensures i == j {
      if i < j { RepeatsCount(g, i, j); }
      if j < i { RepeatsCount(g, j, i); }
    }
  }

  /** The value columns come out ordered by name, then factor values. */
  lemma WideOrdered(long: Frame, fill: Fill)
    requires Accepted(long)
    ensures SeriesOf(long).Valid() && WideOf(SeriesOf(long), fill) != []
    ensures Ordered(Ranking(SeriesOf(long).FactorNames()), WideOf(SeriesOf(long), fill)[1..])
  {
    RefusedNot(long);
    var s := SeriesOf(long);
    ResultFacts(s, fill);
    WideShapeIsWide(PivotOf(s, fill));
    SortedFrameExact(s.FactorNames(), PivotOf(s, fill), WideOf(s, fill));
  }
}
