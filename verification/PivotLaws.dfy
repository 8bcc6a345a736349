/** What `LongToWide` makes of a frame, said of the cells of the two frames alone (data/time_series.go). */
module PivotLaws {
  import opened GoText
  import opened Outcomes
  import opened Frames
  import opened TupleKeys
  import opened FieldSort
  import opened FieldOrder
  import opened RowProcessor
  import opened LongToWide

  // ----- factors -----

  /** A string or bool column. */
  predicate Factor(f: Field) { f.ftype.kind.StringKind? || f.ftype.kind.BoolKind? }

  /** A factor cell as label text: strings as they are, "true" and "false", and a null as the zero value. */
  predicate Spells(f: Field, c: Cell, text: GoString) {
    match c
    case Val(StrVal(s)) => text == s
    case Val(BoolVal(flag)) => text == if flag then [0x74, 0x72, 0x75, 0x65] else [0x66, 0x61, 0x6C, 0x73, 0x65]
    case Null => text == if f.ftype.kind.BoolKind? then [0x66, 0x61, 0x6C, 0x73, 0x65] else []
    case _ => false
  }

  /** The labels hold row `r`'s factors, by column name, and nothing else. */
  predicate Labelled(long: Frame, r: nat, labels: Option<Labels>) {
    && labels.Some?
    && (forall k :: k in labels.value ==> exists c :: 0 <= c < |long| && Factor(long[c]) && long[c].name == k)
    && (forall c :: 0 <= c < |long| && Factor(long[c]) ==>
          long[c].name in labels.value && r < |long[c].cells| && Spells(long[c], long[c].cells[r], labels.value[long[c].name]))
  }

  /** The two rows have the same factors, malformed bytes blurred. */
  ghost predicate SameFactors(long: Frame, r: nat, q: nat) {
    forall c :: 0 <= c < |long| && Factor(long[c]) && r < |long[c].cells| && q < |long[c].cells| ==>
      SameSpelling(long[c], long[c].cells[r], long[c].cells[q])
  }

  ghost predicate SameSpelling(f: Field, a: Cell, b: Cell) {
    forall s, t :: Spells(f, a, s) && Spells(f, b, t) ==> Units(s) == Units(t)
  }

  lemma TextIsSpelled(s: LongSeries, r: nat, c: nat)
    requires s.Valid() && r < s.rows && c < |s.long| && Factor(s.long[c])
    ensures Spells(s.long[c], s.long[c].cells[r], s.Text(r, c))
    ensures forall text :: Spells(s.long[c], s.long[c].cells[r], text) ==> text == s.Text(r, c)
  {
    assert WellTyped(s.long[c]) && CellFits(s.long[c].cells[r], s.long[c].ftype);
  }

  lemma FactorIndex(s: LongSeries, c: nat) returns (i: nat)
    requires s.Valid() && c < |s.long| && Factor(s.long[c])
    ensures i < |s.sch.factorIndices| && s.sch.factorIndices[i] == c
  {
    IndicesComplete(s.long, s.sch.timeIndex, |s.long|, c);
    i :| 0 <= i < |s.sch.factorIndices| && s.sch.factorIndices[i] == c;
  }

  lemma ValueIndex(s: LongSeries, v: nat) returns (i: nat)
    requires s.Valid() && v < |s.long| && v != s.sch.timeIndex && !Factor(s.long[v])
    ensures i < |s.sch.valueIndices| && s.sch.valueIndices[i] == v
  {
    IndicesComplete(s.long, s.sch.timeIndex, |s.long|, v);
    i :| 0 <= i < |s.sch.valueIndices| && s.sch.valueIndices[i] == v;
  }

  lemma AlikeExact(s: LongSeries, r: nat, q: nat)
    requires s.Valid() && r < s.rows && q < s.rows
    ensures Alike(s, r, q) <==> SameFactors(s.long, r, q)
  {
    forall c: nat | c < |s.long| && Factor(s.long[c])
      ensures Spells(s.long[c], s.long[c].cells[r], s.Text(r, c)) && Spells(s.long[c], s.long[c].cells[q], s.Text(q, c))
      ensures forall t :: Spells(s.long[c], s.long[c].cells[r], t) ==> t == s.Text(r, c)
      ensures forall t :: Spells(s.long[c], s.long[c].cells[q], t) ==> t == s.Text(q, c)
      ensures c in s.sch.factorIndices
    {
      TextIsSpelled(s, r, c);
      TextIsSpelled(s, q, c);
      var i := FactorIndex(s, c);
    }
    if SameFactors(s.long, r, q) {
      forall i | 0 <= i < |s.sch.factorIndices|
        ensures Units(s.Text(r, s.sch.factorIndices[i])) == Units(s.Text(q, s.sch.factorIndices[i]))
      {
        assert Factor(s.long[s.sch.factorIndices[i]]);
      }
    }
  }

  /** The labels of a series are spelled by its first row. */
  lemma LabelsSpelled(s: LongSeries, f: nat)
    requires s.Valid() && f < s.rows && Distinct(s.FactorNames())
    ensures Labelled(s.long, f, Some(LabelsOf(s.NamedKey(f), |s.sch.factorIndices|)))
  {
    var ps, labels := s.NamedKey(f), LabelsOf(s.NamedKey(f), |s.sch.factorIndices|);
    NamedKeyNames(s, f);
    forall c: nat | c < |s.long| && Factor(s.long[c])
      ensures s.long[c].name in labels && Spells(s.long[c], s.long[c].cells[f], labels[s.long[c].name])
    {
      var i := FactorIndex(s, c);
      LabelsLookup(ps, |ps|, i);
      TextIsSpelled(s, f, c);
    }
    forall k | k in labels ensures exists c :: 0 <= c < |s.long| && Factor(s.long[c]) && s.long[c].name == k {
      var i :| 0 <= i < |ps| && ps[i].key == k;
      assert Factor(s.long[s.sch.factorIndices[i]]);
    }
  }

  // ----- rows and columns -----

  /** The time of a row. */
  predicate HasTime(long: Frame, r: nat, t: int) {
    TimeIndex(long) < |long| && r < |long[TimeIndex(long)].cells| && long[TimeIndex(long)].cells[r] == Val(TimeVal(t))
  }

  lemma TimeIs(s: LongSeries, r: nat, t: int)
    requires s.Valid() && r < s.rows
    ensures s.Time(r) == Some(t) <==> HasTime(s.long, r, t)
  {
    var f := s.long[s.sch.timeIndex];
    assert WellTyped(f) && CellFits(f.cells[r], f.ftype);
  }

  /** Row `q` has the factors of row `r`, and time `t`. */
  ghost predicate SameSeriesAt(long: Frame, r: nat, t: int, q: nat) { HasTime(long, q, t) && SameFactors(long, q, r) }

  /** The last row with these factors at this time. */
  ghost predicate LastOf(long: Frame, r: nat, t: int, q: nat) {
    SameSeriesAt(long, r, t, q) && forall p: nat :: q < p ==> !SameSeriesAt(long, r, t, p)
  }

  /** The last row with these factors up to this time. */
  ghost predicate LastBy(long: Frame, r: nat, t: int, q: nat) {
    UpToTime(long, r, t, q) && forall p: nat :: q < p ==> !UpToTime(long, r, t, p)
  }

  ghost predicate UpToTime(long: Frame, r: nat, t: int, q: nat) {
    SameFactors(long, q, r) && exists u :: HasTime(long, q, u) && u <= t
  }

  /** What stands for a missing number, by fill mode: in a nullable column or under the modes that make one, null; else zero
      or the constant. */
  ghost predicate Missing(long: Frame, fill: Fill, r: nat, v: nat, t: int, cell: Cell) {
    v < |long| && match fill
    case NoFill => if long[v].ftype.nullable then cell == Null else IsZero(cell)
    case NullFill => cell == Null
    case Constant(convert) =>
      if long[v].ftype.kind.NumberKind? then cell == Val(NumVal(convert(long[v].ftype.kind.code)))
      else if long[v].ftype.nullable then cell == Null else IsZero(cell)
    case Previous =>
      && (forall q: nat :: LastBy(long, r, t, q) ==> q < |long[v].cells| && cell == long[v].cells[q])
      && ((forall q: nat :: !UpToTime(long, r, t, q)) ==> cell == Null)
  }

  /** The zero value of a column that is neither string nor bool. */
  predicate IsZero(cell: Cell) {
    match cell
    case Val(NumVal(n)) => n == 0
    case Val(OtherVal(n)) => n == 0
    case Val(TimeVal(t)) => t == -62135596800 * 1000000000
    case _ => false
  }

  /** A cell of the series of row `r` at time `t`: the last such row's value, or what stands for a missing one. */
  ghost predicate CellOf(long: Frame, fill: Fill, r: nat, v: nat, t: int, cell: Cell) {
    && v < |long| && (forall q: nat :: LastOf(long, r, t, q) ==> q < |long[v].cells| && cell == long[v].cells[q])
    && ((forall q: nat :: !SameSeriesAt(long, r, t, q)) ==> Missing(long, fill, r, v, t, cell))
  }

  /** `c` is the column of the series that row `r` starts and of long column `v`, over the times of column `times`. */
  ghost predicate ColumnOf(long: Frame, fill: Fill, r: nat, v: nat, times: Field, c: Field) {
    && v < |long| && v != TimeIndex(long) && !Factor(long[v])
    && (forall q :: 0 <= q < r ==> !SameFactors(long, q, r))
    && c.name == long[v].name && c.ftype.kind == long[v].ftype.kind
    && (c.ftype.nullable <==> long[v].ftype.nullable || fill.NullFill? || fill.Previous?)
    && Labelled(long, r, c.labels) && |c.cells| == |times.cells|
    && forall w :: 0 <= w < |c.cells| ==>
         IsTime(times.cells[w]) && CellOf(long, fill, r, v, times.cells[w].v.at, c.cells[w])
  }

  predicate IsTime(c: Cell) { c.Val? && c.v.TimeVal? }

  lemma SeriesRows(s: LongSeries, f: nat, t: int)
    requires s.Valid() && f < s.rows
    ensures forall q: nat :: At(s, f, t, q) <==> SameSeriesAt(s.long, f, t, q)
    ensures forall q: nat :: UpTo(s, f, t, q) <==> UpToTime(s.long, f, t, q)
  {
    forall q: nat ensures At(s, f, t, q) <==> SameSeriesAt(s.long, f, t, q) {
      if q < s.rows {
        AlikeExact(s, q, f);
        TimeIs(s, q, t);
      }
    }
    forall q: nat ensures UpTo(s, f, t, q) <==> UpToTime(s.long, f, t, q) {
      if q < s.rows {
        AlikeExact(s, q, f);
        if s.Time(q).Some? { TimeIs(s, q, s.Time(q).value); }
        if u :| HasTime(s.long, q, u) && u <= t { TimeIs(s, q, u); }
      }
    }
  }

  lemma ZeroIsZero(t: FieldType)
    requires !t.kind.StringKind? && !t.kind.BoolKind?
    ensures if t.nullable then Zero(t) == Null else IsZero(Zero(t))
  {
  }

  lemma CellSaysMore(s: LongSeries, fill: Fill, f: nat, v: nat, t: int, cell: Cell)
    requires s.Valid() && f < s.rows && v < |s.long| && !Factor(s.long[v]) && CellSays(s, fill, f, v, t, cell)
    ensures CellOf(s.long, fill, f, v, t, cell)
  {
    SeriesRows(s, f, t);
    ZeroIsZero(s.long[v].ftype);
    forall q: nat | LastOf(s.long, f, t, q) ensures q < |s.long[v].cells| && cell == s.long[v].cells[q] {
      assert LastRowAt(s, f, t, q);
    }
    if forall q: nat :: !SameSeriesAt(s.long, f, t, q) {
      forall q: nat | LastBy(s.long, f, t, q) ensures LastRowUpTo(s, f, t, q) && q < |s.long[v].cells| {}
    }
  }

  lemma FoundsMore(s: LongSeries, f: nat)
    requires Founds(s, f)
    ensures forall q :: 0 <= q < f ==> !SameFactors(s.long, q, f)
  {
    forall q: nat | q < f ensures !SameFactors(s.long, q, f) { AlikeExact(s, q, f); }
  }

  lemma CellsSayMore(s: LongSeries, fill: Fill, ws: seq<int>, f: nat, v: nat, c: Field)
    requires IsColumn(s, fill, ws, f, v, c) && !Factor(s.long[v])
    ensures forall w :: 0 <= w < |ws| ==> CellOf(s.long, fill, f, v, ws[w], c.cells[w])
  {
    forall w | 0 <= w < |ws| ensures CellOf(s.long, fill, f, v, ws[w], c.cells[w]) {
      CellSaysMore(s, fill, f, v, ws[w], c.cells[w]);
    }
  }

  lemma IsValue(s: LongSeries, v: nat)
    requires s.Valid() && v in s.sch.valueIndices && v < |s.long|
    ensures v != TimeIndex(s.long) && !Factor(s.long[v])
  {
    IndicesComplete(s.long, s.sch.timeIndex, |s.long|, v);
  }

  lemma TypeIs(fill: Fill, t: FieldType)
    ensures WideType(fill, t).kind == t.kind
    ensures WideType(fill, t).nullable <==> t.nullable || fill.NullFill? || fill.Previous?
  {
  }

  lemma {:induction false} ColumnSaysMore(s: LongSeries, fill: Fill, ws: seq<int>, f: nat, v: nat, c: Field)
    requires IsColumn(s, fill, ws, f, v, c) && Distinct(s.FactorNames())
    ensures ColumnOf(s.long, fill, f, v, TimeColumn(s.long[s.sch.timeIndex].name, ws), c)
  {
    LabelsSpelled(s, f);
    IsValue(s, v);
    FoundsMore(s, f);
    CellsSayMore(s, fill, ws, f, v, c);
    TypeIs(fill, s.long[v].ftype);
  }

  // ----- the wide frame -----

  /** The wide time column: the times of the long frame, each once, in order. */
  ghost predicate TimesAre(long: Frame, times: Field) {
    && times.labels.None? && times.ftype == FieldType(TimeKind, false)
    && TimeIndex(long) < |long| && times.name == long[TimeIndex(long)].name
    && (forall w :: 0 <= w < |times.cells| ==> IsTime(times.cells[w]) && SomeRowAt(long, times.cells[w].v.at))
    && (forall r: nat, t: int :: HasTime(long, r, t) ==> Val(TimeVal(t)) in times.cells)
    && (forall i, j :: 0 <= i < j < |times.cells| ==> times.cells[i].v.at < times.cells[j].v.at)
  }

  ghost predicate SomeRowAt(long: Frame, t: int) { exists r: nat :: HasTime(long, r, t) }

  lemma TimesCovered(s: LongSeries, ws: seq<int>, t: int)
    requires s.Valid() && (t in ws <==> exists r: nat :: r < s.rows && s.Time(r) == Some(t))
    ensures t in ws <==> SomeRowAt(s.long, t)
  {
    if t in ws {
      var r: nat :| r < s.rows && s.Time(r) == Some(t);
      TimeIs(s, r, t);
    }
    if SomeRowAt(s.long, t) {
      var r: nat :| HasTime(s.long, r, t);
      TimeIs(s, r, t);
    }
  }

  lemma {:induction false} ColumnOfTimes(s: LongSeries, ws: seq<int>, times: Field)
    requires s.Valid() && times == TimeColumn(s.long[s.sch.timeIndex].name, ws)
    requires forall i, j :: 0 <= i < j < |ws| ==> ws[i] < ws[j]
    requires forall t :: t in ws <==> SomeRowAt(s.long, t)
    ensures TimesAre(s.long, times)
  {
    forall w | 0 <= w < |ws| ensures SomeRowAt(s.long, ws[w]) { assert ws[w] in ws; }
    forall r: nat, t: int | HasTime(s.long, r, t) ensures Val(TimeVal(t)) in times.cells {
      assert SomeRowAt(s.long, t);
      var i :| 0 <= i < |ws| && ws[i] == t;
      assert times.cells[i] == Val(TimeVal(t));
    }
  }

  lemma WideTimesAre(long: Frame, fill: Fill)
    requires Accepted(long)
    ensures SeriesOf(long).Valid() && WideOf(SeriesOf(long), fill) != [] && TimesAre(long, WideOf(SeriesOf(long), fill)[0])
  {
    WideTimes(long, fill);
    var s := SeriesOf(long);
    forall t ensures t in TimesOf(s) <==> SomeRowAt(long, t) { TimesCovered(s, TimesOf(s), t); }
    ColumnOfTimes(s, TimesOf(s), WideOf(s, fill)[0]);
  }

  /** Every column after the time is that of a row which starts a series and of a value column. */
  lemma ColumnsAre(long: Frame, fill: Fill, c: nat) returns (f: nat, v: nat)
    requires Accepted(long) && SeriesOf(long).Valid() && 1 <= c < |WideOf(SeriesOf(long), fill)|
    ensures ColumnOf(long, fill, f, v, WideOf(SeriesOf(long), fill)[0], WideOf(SeriesOf(long), fill)[c])
  {
    RefusedNot(long);
    WideTimes(long, fill);
    f, v := EveryColumnIsOne(long, fill, c);
    ColumnSaysMore(SeriesOf(long), fill, TimesOf(SeriesOf(long)), f, v, WideOf(SeriesOf(long), fill)[c]);
  }

  lemma {:induction false} FounderRow(s: LongSeries, r: nat) returns (f: nat)
    requires s.Valid() && r < s.rows
    ensures f <= r && Founds(s, f) && Alike(s, f, r)
    decreases r
  {
    if p: nat :| p < r && Alike(s, p, r) {
      f := FounderRow(s, p);
    } else {
      f := r;
    }
  }

  /** Every row and value column have a column: that of a row with the same factors. */
  lemma RowsHaveColumns(long: Frame, fill: Fill, r: nat, v: nat) returns (f: nat, c: nat)
    requires Accepted(long) && SeriesOf(long).Valid() && r < SeriesOf(long).rows
    requires v < |long| && v != TimeIndex(long) && !Factor(long[v])
    ensures f <= r && SameFactors(long, f, r) && 1 <= c < |WideOf(SeriesOf(long), fill)|
    ensures ColumnOf(long, fill, f, v, WideOf(SeriesOf(long), fill)[0], WideOf(SeriesOf(long), fill)[c])
  {
    RefusedNot(long);
    var s := SeriesOf(long);
    f := FounderRow(s, r);
    AlikeExact(s, f, r);
    var i := ValueIndex(s, v);
    c := EveryColumnLands(long, fill, f, i);
    WideTimes(long, fill);
    ColumnSaysMore(s, fill, TimesOf(s), f, v, WideOf(s, fill)[c]);
  }

  /** The columns after the time are in the order of their names, then of the values of the factors in column order. */
  lemma ColumnsOrdered(long: Frame, fill: Fill, i: nat, j: nat)
    requires Accepted(long) && SeriesOf(long).Valid() && 1 <= i < j < |WideOf(SeriesOf(long), fill)|
    ensures var s, wide := SeriesOf(long), WideOf(SeriesOf(long), fill); InOrder(s.FactorNames(), wide[i], wide[j])
  {
    RefusedNot(long);
    var s := SeriesOf(long);
    ResultFacts(s, fill);
    WideShapeIsWide(PivotOf(s, fill));
    ColumnsInOrder(s.FactorNames(), PivotOf(s, fill), i, j);
  }

  // ----- which frames are refused -----

  predicate NoTime(long: Frame, r: nat)
    requires TimeIndex(long) < |long| && r < |long[TimeIndex(long)].cells|
  {
    !IsTime(long[TimeIndex(long)].cells[r])
  }

  /** The row has no time, or an earlier one than the row before it. */
  predicate OutOfOrder(long: Frame, r: nat)
    requires TimeIndex(long) < |long| && r < |long[TimeIndex(long)].cells|
  {
    || NoTime(long, r)
    || (r > 0 && !NoTime(long, r - 1) && long[TimeIndex(long)].cells[r].v.at < long[TimeIndex(long)].cells[r - 1].v.at)
  }

  predicate FirstOutOfOrder(long: Frame, r: nat)
    requires TimeIndex(long) < |long|
  {
    && r < |long[TimeIndex(long)].cells| && OutOfOrder(long, r)
    && forall q :: 0 <= q < r ==> !OutOfOrder(long, q)
  }

  /** Two string or bool columns share a name. */
  predicate FactorTwice(long: Frame) {
    exists i, j :: 0 <= i < j < |long| && Factor(long[i]) && Factor(long[j]) && long[i].name == long[j].name
  }

  predicate SameLengths(f: Frame) { forall j :: 0 <= j < |f| ==> |f[j].cells| == |f[0].cells| }

  lemma BadRowIs(s: LongSeries, r: nat)
    requires s.Valid() && r < s.rows
    ensures s.sch.timeIndex == TimeIndex(s.long) < |s.long| && r < |s.long[TimeIndex(s.long)].cells|
    ensures BadRow(s, r) <==> OutOfOrder(s.long, r)
    ensures s.Time(r).None? <==> NoTime(s.long, r)
  {
    var f := s.long[s.sch.timeIndex];
    assert WellTyped(f) && CellFits(f.cells[r], f.ftype) && (r > 0 ==> CellFits(f.cells[r - 1], f.ftype));
  }

  lemma NamesTwice(s: LongSeries)
    requires s.Valid()
    ensures Distinct(s.FactorNames()) <==> !FactorTwice(s.long)
  {
    var names, fs := s.FactorNames(), s.sch.factorIndices;
    if i, j :| 0 <= i < j < |s.long| && Factor(s.long[i]) && Factor(s.long[j]) && s.long[i].name == s.long[j].name {
      var a := FactorIndex(s, i);
      var b := FactorIndex(s, j);
      assert names[a] == names[b] && a != b;
    }
    if !Distinct(names) {
      var i, j :| 0 <= i < j < |names| && names[i] == names[j];
      assert Factor(s.long[fs[i]]) && Factor(s.long[fs[j]]) && fs[i] < fs[j];
    }
  }

  lemma FirstIs(s: LongSeries)
    requires s.Valid()
    ensures TimeIndex(s.long) < |s.long|
    ensures var b := FirstBad(s, 0);
            if b < s.rows then FirstOutOfOrder(s.long, b) && (ErrorAt(s, b).NullTime? <==> NoTime(s.long, b))
            else forall r :: 0 <= r < |s.long[TimeIndex(s.long)].cells| ==> !OutOfOrder(s.long, r)
  {
    forall r: nat | r < s.rows
      ensures r < |s.long[TimeIndex(s.long)].cells| && (BadRow(s, r) <==> OutOfOrder(s.long, r))
      ensures s.Time(r).None? <==> NoTime(s.long, r)
    {
      BadRowIs(s, r);
    }
    BadRowIs(s, 0);
  }

  lemma LongOrNot(long: Frame)
    ensures SchemaOf(long).seriesType.Long? <==> IsSeries(long) && HasFactor(long)
    ensures SchemaOf(long).seriesType.Long? ==> SchemaOf(long).timeIndex == TimeIndex(long) < |long|
  {
    SeriesTypeExact(long);
  }

  predicate AllInOrder(long: Frame)
    requires TimeIndex(long) < |long|
  {
    forall r :: 0 <= r < |long[TimeIndex(long)].cells| ==> !OutOfOrder(long, r)
  }

  /** Which refusal the rows get: a first time that is null; a repeated factor name; the first row that has no time or goes
      back in time. */
  ghost predicate RowsRefused(long: Frame, e: Option<Error>)
    requires TimeIndex(long) < |long| && long[TimeIndex(long)].cells != []
  {
    if NoTime(long, 0) then e == Some(NullTime)
    else if FactorTwice(long) then e == Some(DuplicateLabel)
    else
      && (e.None? <==> AllInOrder(long))
      && forall r: nat :: FirstOutOfOrder(long, r) ==> e == Some(if NoTime(long, r) then NullTime else Unsorted)
  }

  lemma OneFirst(long: Frame, r: nat, q: nat)
    requires TimeIndex(long) < |long| && FirstOutOfOrder(long, r)
    requires if q < |long[TimeIndex(long)].cells| then FirstOutOfOrder(long, q) else AllInOrder(long)
    ensures q < |long[TimeIndex(long)].cells| && r == q
  {
  }

  lemma RowsRefusedExact(s: LongSeries, e: Option<Error>)
    requires s.Valid() && s.rows > 0
    requires e == if s.Time(0).None? then Some(NullTime)
                  else if !Distinct(s.FactorNames()) then Some(DuplicateLabel)
                  else if FirstBad(s, 0) < s.rows then Some(ErrorAt(s, FirstBad(s, 0)))
                  else None
    ensures TimeIndex(s.long) < |s.long| && s.long[TimeIndex(s.long)].cells != [] && RowsRefused(s.long, e)
  {
    BadRowIs(s, 0);
    NamesTwice(s);
    FirstIs(s);
    var b := FirstBad(s, 0);
    forall r: nat | FirstOutOfOrder(s.long, r) ensures b < s.rows && r == b { OneFirst(s.long, r, b); }
  }

  /** Each refusal, in the order of the checks: no long series; ragged; empty; then what the rows are refused for. */
  lemma RefusalExact(long: Frame)
    requires AllTyped(long)
    ensures Refusal(long) == Some(NotLongSeries) <==> !(IsSeries(long) && HasFactor(long))
    ensures IsSeries(long) && HasFactor(long) ==>
              && TimeIndex(long) < |long|
              && (Refusal(long) == Some(RaggedFrame) <==> !SameLengths(long))
              && (Refusal(long) == Some(NoRows) <==> SameLengths(long) && long[0].cells == [])
              && (SameLengths(long) && long[0].cells != [] ==>
                    long[TimeIndex(long)].cells != [] && RowsRefused(long, Refusal(long)))
  {
    LongOrNot(long);
    if SchemaOf(long).seriesType.Long? && SameLengths(long) && long[0].cells != [] {
      var s := SeriesOf(long);
      assert s.Valid() && s.rows > 0;
      RowsRefusedExact(s, Refusal(long));
    }
  }
}
