/** Long to wide and back: no fact is lost, and what is new is zero or null. */
module LongWideLong {
  import opened GoText
  import opened Outcomes
  import opened Frames
  import opened TupleKeys
  import opened SortedKeys
  import opened LongRows
  import opened LongSide
  import FieldSort
  import WL = WideToLong
  import RP = RowProcessor
  import LW = LongToWide

  /** `wide` is the pivot of `s` over the times `ws`: a time column, then columns of series and value names. */
  ghost predicate PivotFrame(s: RP.LongSeries, ws: seq<int>, wide: Frame) {
    && s.Valid() && Distinct(s.FactorNames()) && LW.ValueNamesDiffer(s) && LW.WideShape(wide) && ws != []
    && wide[0] == RP.TimeColumn(wide[0].name, ws)
    && (forall j {:trigger Column(s, ws, wide, j)} :: 1 <= j < |wide| ==> Column(s, ws, wide, j))
    && (forall f, v {:trigger Landed(s, ws, wide, f, v)} ::
          LW.Founds(s, f) && v in s.sch.valueIndices ==> Landed(s, ws, wide, f, v))
  }

  ghost predicate Column(s: RP.LongSeries, ws: seq<int>, wide: Frame, j: nat)
    requires j < |wide|
  {
    exists f, v :: LW.IsColumn(s, NoFill, ws, f, v, wide[j])
  }

  ghost predicate Landed(s: RP.LongSeries, ws: seq<int>, wide: Frame, f: nat, v: nat) {
    exists j :: LandsAt(s, ws, wide, f, v, j)
  }

  ghost predicate LandsAt(s: RP.LongSeries, ws: seq<int>, wide: Frame, f: nat, v: nat, j: nat) {
    1 <= j < |wide| && LW.IsColumn(s, NoFill, ws, f, v, wide[j])
  }

  lemma ResultColumns(long: Frame, s: RP.LongSeries, ws: seq<int>, wide: Frame)
    requires LW.Accepted(long) && s == LW.SeriesOf(long) && s.Valid() && ws == LW.TimesOf(s) && wide == LW.WideOf(s, NoFill)
    ensures forall j {:trigger Column(s, ws, wide, j)} :: 1 <= j < |wide| ==> Column(s, ws, wide, j)
    ensures forall f, v {:trigger Landed(s, ws, wide, f, v)} ::
              LW.Founds(s, f) && v in s.sch.valueIndices ==> Landed(s, ws, wide, f, v)
  {
    forall j | 1 <= j < |wide| ensures Column(s, ws, wide, j) {
      var f, v := LW.EveryColumnIsOne(long, NoFill, j);
    }
    forall f, v | LW.Founds(s, f) && v in s.sch.valueIndices ensures Landed(s, ws, wide, f, v) {
      var i :| 0 <= i < |s.sch.valueIndices| && s.sch.valueIndices[i] == v;
      var j := LW.EveryColumnLands(long, NoFill, f, i);
      assert LandsAt(s, ws, wide, f, v, j);
    }
  }

  lemma SortedShape(keys: seq<GoString>, f: Frame)
    requires LW.WideShape(f) && f[0].labels.None?
    ensures LW.WideShape(FieldSort.SortedFrame(keys, f))
  {
    LW.SortedColumns(keys, f);
    var wide := FieldSort.SortedFrame(keys, f);
    forall j | 1 <= j < |wide| ensures wide[j].labels.Some? && !IsFactor(wide[j]) { assert wide[j] in f[1..]; }
  }

  lemma ResultShape(long: Frame, s: RP.LongSeries, wide: Frame)
    requires LW.Accepted(long) && s == LW.SeriesOf(long) && s.Valid() && wide == LW.WideOf(s, NoFill)
    ensures Distinct(s.FactorNames()) && LW.WideShape(wide)
  {
    LW.RefusedNot(long);
    LW.ResultFacts(s, NoFill);
    SortedShape(s.FactorNames(), LW.PivotOf(s, NoFill));
  }

  lemma ResultTimes(long: Frame, s: RP.LongSeries, wide: Frame)
    requires LW.Accepted(long) && s == LW.SeriesOf(long) && s.Valid() && wide == LW.WideOf(s, NoFill)
    ensures LW.TimesOf(s) != [] && wide != [] && wide[0] == RP.TimeColumn(wide[0].name, LW.TimesOf(s))
  {
    LW.RefusedNot(long);
    LW.ResultFacts(s, NoFill);
    LW.WideTimes(long, NoFill);
  }

  lemma ResultIsPivotFrame(long: Frame, s: RP.LongSeries, ws: seq<int>, wide: Frame)
    requires LW.Accepted(long) && s == LW.SeriesOf(long) && s.Valid() && LW.ValueNamesDiffer(s)
    requires ws == LW.TimesOf(s) && wide == LW.WideOf(s, NoFill)
    ensures PivotFrame(s, ws, wide)
  {
    ResultColumns(long, s, ws, wide);
    ResultShape(long, s, wide);
    ResultTimes(long, s, wide);
  }

  // ----- the wide frame is accepted -----

  lemma CellTyped(s: RP.LongSeries, f: nat, v: nat, t: int, cell: Cell)
    requires s.Valid() && f < s.rows && v < |s.long| && LW.CellSays(s, NoFill, f, v, t, cell)
    ensures CellFits(cell, s.long[v].ftype)
  {
    assert WellTyped(s.long[v]);
    if q: nat :| q < s.rows && LW.At(s, f, t, q) {
      var last := LastAtRow(s, f, t, q);
      assert LW.LastRowAt(s, f, t, last);
    }
  }

  lemma {:induction false} LastAtRow(s: RP.LongSeries, f: nat, t: int, q: nat) returns (last: nat)
    requires s.Valid() && f < s.rows && LW.At(s, f, t, q)
    ensures LW.LastRowAt(s, f, t, last)
    decreases s.rows - q
  {
    if p: nat :| q < p < s.rows && LW.At(s, f, t, p) {
      last := LastAtRow(s, f, t, p);
    } else {
      last := q;
    }
  }

  lemma ColumnTyped(s: RP.LongSeries, ws: seq<int>, f: nat, v: nat, col: Field)
    requires LW.IsColumn(s, NoFill, ws, f, v, col)
    ensures |col.cells| == |ws| && WellTyped(col) && col.ftype == s.long[v].ftype
  {
    forall w | 0 <= w < |ws| ensures CellFits(col.cells[w], col.ftype) {
      CellTyped(s, f, v, ws[w], col.cells[w]);
    }
  }

  lemma WideTyped(s: RP.LongSeries, ws: seq<int>, wide: Frame, j: nat)
    requires PivotFrame(s, ws, wide) && j < |wide|
    ensures |wide[j].cells| == |ws| && WellTyped(wide[j])
  {
    if j > 0 {
      assert Column(s, ws, wide, j);
      var f: nat, v: nat :| LW.IsColumn(s, NoFill, ws, f, v, wide[j]);
      ColumnTyped(s, ws, f, v, wide[j]);
    }
  }

  lemma SameNameSameValue(s: RP.LongSeries, v: nat, u: nat)
    requires s.Valid() && LW.ValueNamesDiffer(s) && v in s.sch.valueIndices && u in s.sch.valueIndices
    requires s.long[v].name == s.long[u].name
    ensures v == u
  {
    var i :| 0 <= i < |s.sch.valueIndices| && s.sch.valueIndices[i] == v;
    var j :| 0 <= j < |s.sch.valueIndices| && s.sch.valueIndices[j] == u;
  }

  lemma SameNameSameType(s: RP.LongSeries, ws: seq<int>, wide: Frame, i: nat, j: nat)
    requires PivotFrame(s, ws, wide) && 1 <= i < |wide| && 1 <= j < |wide| && wide[i].name == wide[j].name
    ensures wide[i].ftype == wide[j].ftype
  {
    assert Column(s, ws, wide, i) && Column(s, ws, wide, j);
    var f: nat, v: nat :| LW.IsColumn(s, NoFill, ws, f, v, wide[i]);
    var g: nat, u: nat :| LW.IsColumn(s, NoFill, ws, g, u, wide[j]);
    SameNameSameValue(s, v, u);
  }

  /** The schema of a pivot: everything after the time is a value. */
  lemma PivotSchema(wide: Frame)
    requires LW.WideShape(wide)
    ensures SchemaOf(wide) == Schema(SeriesType.Wide, 0, Range(1, |wide|), [])
  {
    LW.WideShapeIsWide(wide);
    LayoutValues(wide, |wide| - 1, |wide|);
    NoFactorsYet(wide, |wide| - 1, |wide|);
  }

  lemma NamesTyped(s: RP.LongSeries, ws: seq<int>, wide: Frame, vs: seq<nat>)
    requires PivotFrame(s, ws, wide) && forall i :: 0 <= i < |vs| ==> 1 <= vs[i] < |wide|
    ensures forall i, j :: 0 <= i < |vs| && 0 <= j < |vs| && wide[vs[i]].name == wide[vs[j]].name ==>
              wide[vs[i]].ftype == wide[vs[j]].ftype
  {
    forall i, j | 0 <= i < |vs| && 0 <= j < |vs| && wide[vs[i]].name == wide[vs[j]].name
      ensures wide[vs[i]].ftype == wide[vs[j]].ftype
    {
      SameNameSameType(s, ws, wide, vs[i], vs[j]);
    }
  }

  lemma WideAccepted(s: RP.LongSeries, ws: seq<int>, wide: Frame)
    requires PivotFrame(s, ws, wide)
    ensures WL.Accepted(wide) && WL.RowsOf(wide) == |ws|
  {
    PivotSchema(wide);
    forall j | 0 <= j < |wide| ensures |wide[j].cells| == |ws| && WellTyped(wide[j]) {
      WideTyped(s, ws, wide, j);
    }
    NamesTyped(s, ws, wide, Range(1, |wide|));
  }

  // ----- series and label sets -----

  /** Columns of one label set belong to one series. */
  lemma SameKeySameFounder(s: RP.LongSeries, ws: seq<int>, f: nat, v: nat, a: Field, g: nat, u: nat, b: Field)
    requires LW.IsColumn(s, NoFill, ws, f, v, a) && LW.IsColumn(s, NoFill, ws, g, u, b) && Distinct(s.FactorNames())
    ensures WL.LabelKey(a.labels) == WL.LabelKey(b.labels) <==> f == g
  {
    RP.NamedKeyNames(s, f);
    RP.NamedKeyNames(s, g);
    var ps, qs := s.NamedKey(f), s.NamedKey(g);
    LabelKeysAreNames(ps, qs);
    SetsHaveKeys(a.labels.value, b.labels.value);
    if SameSets(a.labels.value, b.labels.value) {
      forall i | 0 <= i < |s.sch.factorIndices|
        ensures Units(s.Text(f, s.sch.factorIndices[i])) == Units(s.Text(g, s.sch.factorIndices[i]))
      {
        LabelsLookup(ps, |ps|, i);
        LabelsLookup(qs, |qs|, i);
        assert Keys(ps)[i] == Keys(qs)[i] && ps[i].key in a.labels.value;
      }
      assert LW.Alike(s, f, g) && LW.Alike(s, g, f);
    }
  }

  lemma LabelKeysAreNames(ps: seq<Pair>, qs: seq<Pair>)
    requires Keys(ps) == Keys(qs)
    ensures LabelsOf(ps, |ps|).Keys == LabelsOf(qs, |qs|).Keys
  {
    assert |ps| == |qs|;
    forall i | 0 <= i < |ps| ensures ps[i].key == qs[i].key {
      assert Keys(ps)[i] == Keys(qs)[i];
    }
  }

  // ----- what a row of the second long frame says -----

  /** Row `q` of `long2` stands for series `f` at time `t`: its time, its factors, and every value of that series then. */
  ghost predicate RowSays(s: RP.LongSeries, long2: Frame, values: nat, q: nat, f: nat, t: int) {
    && LW.Founds(s, f) && 1 + values <= |long2| && (forall x :: 0 <= x < |long2| ==> q < |long2[x].cells|)
    && long2[0].cells[q] == Val(TimeVal(t))
    && (forall k {:trigger FactorSaid(s, long2, values, q, f, k)} ::
          0 <= k < |s.sch.factorIndices| ==> FactorSaid(s, long2, values, q, f, k))
    && (forall u {:trigger ValueSaid(s, long2, q, f, t, u)} :: 1 <= u <= values ==> ValueSaid(s, long2, q, f, t, u))
  }

  /** A factor column repeats factor `k` of the series as text. */
  ghost predicate FactorSaid(s: RP.LongSeries, long2: Frame, values: nat, q: nat, f: nat, k: nat)
    requires s.Valid() && f < s.rows && forall x :: 0 <= x < |long2| ==> q < |long2[x].cells|
  {
    k < |s.sch.factorIndices|
    && exists x :: 1 + values <= x < |long2| && long2[x].name == s.FactorNames()[k]
                   && long2[x].cells[q] == Val(StrVal(s.Text(f, s.sch.factorIndices[k])))
  }

  /** Value column `u` has the last value the series had at `t`, or zero if it had none. */
  ghost predicate ValueSaid(s: RP.LongSeries, long2: Frame, q: nat, f: nat, t: int, u: nat)
    requires s.Valid() && f < s.rows && forall x :: 0 <= x < |long2| ==> q < |long2[x].cells|
  {
    u < |long2|
    && exists v :: v in s.sch.valueIndices && v < |s.long| && long2[u].name == s.long[v].name
                   && LW.CellSays(s, NoFill, f, v, t, long2[u].cells[q])
  }

  // ----- values -----

  /** The conversion of a pivot frame back to long. */
  ghost predicate Back(s: RP.LongSeries, ws: seq<int>, wide: Frame, c: Conversion) {
    && PivotFrame(s, ws, wide) && c.Valid() && WL.AreGroupKeys(c.wide, c.vs, c.keys)
    && c.wide == wide && c.t == 0 && c.vs == Range(1, |wide|) && c.rows == |ws|
  }

  lemma PivotIsBack(s: RP.LongSeries, ws: seq<int>, wide: Frame)
    requires PivotFrame(s, ws, wide)
    ensures WL.Accepted(wide) && Back(s, ws, wide, ConversionOf(wide)) && WL.LongOf(wide) == ConversionOf(wide).Long()
  {
    WideAccepted(s, ws, wide);
    PivotSchema(wide);
    ConversionIsLong(wide);
  }

  /** The series of a value column. */
  lemma FounderOf(s: RP.LongSeries, ws: seq<int>, wide: Frame, c: Conversion, d: nat) returns (f: nat, v: nat)
    requires Back(s, ws, wide, c) && d < |c.vs|
    ensures LW.IsColumn(s, NoFill, ws, f, v, wide[1 + d])
  {
    assert Column(s, ws, wide, 1 + d);
    f, v :| LW.IsColumn(s, NoFill, ws, f, v, wide[1 + d]);
  }

  lemma ColumnIndex(s: RP.LongSeries, ws: seq<int>, wide: Frame, c: Conversion, d: nat)
    requires Back(s, ws, wide, c) && d < |c.vs|
    ensures 1 + d < |wide| && c.vs[d] == 1 + d && c.wide[c.vs[d]] == wide[1 + d]
  {
  }

  lemma KeyOfColumn(s: RP.LongSeries, ws: seq<int>, wide: Frame, c: Conversion, d: nat)
    requires Back(s, ws, wide, c) && d < |c.vs|
    ensures 1 + d < |wide| && c.keys[d] == WL.LabelKey(wide[1 + d].labels)
  {
    ColumnIndex(s, ws, wide, c, d);
    GroupKeyIs(c.wide, c.vs, c.keys, d);
  }

  lemma GroupKeyIs(f: Frame, vs: seq<nat>, keys: seq<GoString>, d: nat)
    requires WL.IndicesOk(f, vs) && |keys| == |vs| && WL.AreGroupKeys(f, vs, keys) && d < |vs|
    ensures keys[d] == WL.LabelKey(f[vs[d]].labels)
  {
  }

  /** Groups are series. */
  lemma SameGroup(s: RP.LongSeries, ws: seq<int>, wide: Frame, c: Conversion, d: nat, f: nat, v: nat, e: nat, g: nat, u: nat)
    requires Back(s, ws, wide, c) && d < |c.vs| && e < |c.vs|
    requires LW.IsColumn(s, NoFill, ws, f, v, wide[1 + d]) && LW.IsColumn(s, NoFill, ws, g, u, wide[1 + e])
    ensures c.keys[d] == c.keys[e] <==> f == g
  {
    KeyOfColumn(s, ws, wide, c, d);
    KeyOfColumn(s, ws, wide, c, e);
    SameKeySameFounder(s, ws, f, v, wide[1 + d], g, u, wide[1 + e]);
  }

  /** The column of a series and value is in the group of any other column of the series. */
  lemma GroupMate(s: RP.LongSeries, ws: seq<int>, wide: Frame, c: Conversion, e: nat, f: nat, v0: nat, v: nat) returns (d: nat)
    requires Back(s, ws, wide, c) && e < |c.vs| && LW.IsColumn(s, NoFill, ws, f, v0, wide[1 + e]) && v in s.sch.valueIndices
    ensures d < |c.vs| && c.keys[d] == c.keys[e] && LW.IsColumn(s, NoFill, ws, f, v, wide[1 + d])
  {
    assert Landed(s, ws, wide, f, v);
    var j: nat :| LandsAt(s, ws, wide, f, v, j);
    d := j - 1;
    SameGroup(s, ws, wide, c, d, f, v, e, f, v0);
  }

  /** The last column of a group with some name is that series' and value's. */
  lemma LastIs(s: RP.LongSeries, ws: seq<int>, wide: Frame, c: Conversion, d: nat, f: nat, v: nat, key: GoString, name: GoString)
    returns (j: nat)
    requires Back(s, ws, wide, c) && d < |c.vs| && LW.IsColumn(s, NoFill, ws, f, v, wide[1 + d])
    requires key == c.keys[d] && name == s.long[v].name
    ensures j < |c.vs| && j == LastColumn(c.wide, c.vs, c.keys, |c.vs|, key, name)
    ensures LW.IsColumn(s, NoFill, ws, f, v, wide[1 + j])
  {
    ColumnIndex(s, ws, wide, c, d);
    j := LastColumn(c.wide, c.vs, c.keys, |c.vs|, key, name);
    ColumnIndex(s, ws, wide, c, j);
    var h, x := FounderOf(s, ws, wide, c, j);
    SameNameSameValue(s, v, x);
    SameGroup(s, ws, wide, c, j, h, x, d, f, v);
  }

  lemma CellOf(s: RP.LongSeries, ws: seq<int>, f: nat, v: nat, col: Field, w: nat, cell: Cell)
    requires LW.IsColumn(s, NoFill, ws, f, v, col) && w < |ws| && |col.cells| == |ws| && cell == col.cells[w]
    ensures LW.CellSays(s, NoFill, f, v, ws[w], cell)
  {
  }

  /** The series value that a value column of the long frame is named after. */
  lemma NamedValue(s: RP.LongSeries, ws: seq<int>, wide: Frame, c: Conversion, u: nat) returns (v: nat)
    requires Back(s, ws, wide, c) && 1 <= u <= |c.Plan().names|
    ensures v in s.sch.valueIndices && v < |s.long| && c.Plan().names[u - 1] == s.long[v].name
  {
    var b := NameHasColumn(c, u - 1);
    ColumnIndex(s, ws, wide, c, b);
    var g;
    g, v := FounderOf(s, ws, wide, c, b);
  }

  /** The value cell of a row: of the group's series, and of the value with that name. */
  lemma RowValue(s: RP.LongSeries, ws: seq<int>, wide: Frame, c: Conversion, q: nat, e: nat, f: nat, v0: nat, u: nat, v: nat)
    requires Back(s, ws, wide, c) && q < |c.Ids()| && 1 <= u <= |c.Plan().names|
    requires e < |c.vs| && c.keys[e] == c.Ids()[q].group && LW.IsColumn(s, NoFill, ws, f, v0, wide[1 + e])
    requires v in s.sch.valueIndices && v < |s.long| && c.Plan().names[u - 1] == s.long[v].name
    ensures c.Ids()[q].row < |ws| && |c.Long()[u].cells| == |c.Ids()|
    ensures LW.CellSays(s, NoFill, f, v, ws[c.Ids()[q].row], c.Long()[u].cells[q])
  {
    var d := GroupMate(s, ws, wide, c, e, f, v0, v);
    ValueInColumn(c, q, u);
    var j := LastIs(s, ws, wide, c, d, f, v, c.Ids()[q].group, c.Plan().names[u - 1]);
    ColumnIndex(s, ws, wide, c, j);
    CellOf(s, ws, f, v, wide[1 + j], c.Ids()[q].row, c.Long()[u].cells[q]);
  }

  // ----- factors -----

  lemma FactorNameIndex(s: RP.LongSeries, ws: seq<int>, wide: Frame, c: Conversion, e: nat, f: nat, v: nat, k: nat)
    returns (y: nat)
    requires Back(s, ws, wide, c) && e < |c.vs| && LW.IsColumn(s, NoFill, ws, f, v, wide[1 + e])
    requires k < |s.sch.factorIndices|
    ensures y < |c.Plan().factors| && c.Plan().factors[y] == s.FactorNames()[k]
  {
    var name := s.FactorNames()[k];
    RP.NamedKeyNames(s, f);
    assert s.NamedKey(f)[k].key == name by { assert Keys(s.NamedKey(f))[k] == name; }
    ColumnIndex(s, ws, wide, c, e);
    assert name in WL.LabelsOrEmpty(c.wide[c.vs[e]].labels);
    WL.FactorsExact(c.wide, c.vs, |c.vs|, name);
    y :| 0 <= y < |c.Plan().factors| && c.Plan().factors[y] == name;
  }

  lemma LabelIsText(s: RP.LongSeries, f: nat, k: nat)
    requires s.Valid() && f < s.rows && k < |s.sch.factorIndices| && Distinct(s.FactorNames())
    ensures LabelText(Some(LabelsOf(s.NamedKey(f), |s.sch.factorIndices|)), s.FactorNames()[k])
         == s.Text(f, s.sch.factorIndices[k])
  {
    RP.NamedKeyNames(s, f);
    LabelsLookup(s.NamedKey(f), |s.sch.factorIndices|, k);
    assert Keys(s.NamedKey(f))[k] == s.FactorNames()[k];
  }

  lemma FactorHeader(c: Conversion, y: nat)
    requires c.Valid() && y < |c.Plan().factors|
    ensures var x := 1 + |c.Plan().names| + y;
            x < |c.Long()| && c.Long()[x].name == c.Plan().factors[y] && |c.Long()[x].cells| == |c.Ids()|
  {
  }

  /** A column of the group of `e` carries the texts of the series of `e`. */
  lemma TextOfColumn(s: RP.LongSeries, ws: seq<int>, wide: Frame, c: Conversion, d: nat, e: nat, f: nat, v: nat, k: nat)
    requires Back(s, ws, wide, c) && d < |c.vs| && e < |c.vs| && c.keys[d] == c.keys[e] && k < |s.sch.factorIndices|
    requires LW.IsColumn(s, NoFill, ws, f, v, wide[1 + e])
    ensures LabelText(c.wide[c.vs[d]].labels, s.FactorNames()[k]) == s.Text(f, s.sch.factorIndices[k])
  {
    ColumnIndex(s, ws, wide, c, d);
    var g, u := FounderOf(s, ws, wide, c, d);
    SameGroup(s, ws, wide, c, d, g, u, e, f, v);
    LabelIsText(s, f, k);
  }

  /** Long column `x` is called `name` and holds `text` in row `q`. */
  ghost predicate HasText(c: Conversion, q: nat, x: nat, name: GoString, text: GoString)
    requires c.Valid()
  {
    && 1 + |c.Plan().names| <= x < |c.Long()| && c.Long()[x].name == name && q < |c.Ids()| == |c.Long()[x].cells|
    && c.Long()[x].cells[q] == Val(StrVal(text))
  }

  /** Value column `d` is in the group of row `q`, and gives its label as factor `y`. */
  ghost predicate GivesText(c: Conversion, q: nat, y: nat, d: nat)
    requires c.Valid()
  {
    && q < |c.Ids()| && y < |c.Plan().factors| && d < |c.vs| && c.keys[d] == c.Ids()[q].group
    && HasText(c, q, 1 + |c.Plan().names| + y, c.Plan().factors[y], LabelText(c.wide[c.vs[d]].labels, c.Plan().factors[y]))
  }

  lemma GroupGivesText(c: Conversion, q: nat, y: nat)
    requires c.Valid() && q < |c.Ids()| && y < |c.Plan().factors|
    ensures exists d: nat :: GivesText(c, q, y, d)
  {
    var d := FactorAt(c, q, y);
    FactorHeader(c, y);
    assert GivesText(c, q, y, d);
  }

  lemma TextInColumn(c: Conversion, q: nat, y: nat, d: nat)
    requires c.Valid() && GivesText(c, q, y, d)
    ensures HasText(c, q, 1 + |c.Plan().names| + y, c.Plan().factors[y], LabelText(c.wide[c.vs[d]].labels, c.Plan().factors[y]))
  {
  }

  /** The factor cell of a row: the text the group's series has for it. */
  lemma RowFactor(s: RP.LongSeries, ws: seq<int>, wide: Frame, c: Conversion, q: nat, e: nat, f: nat, v: nat, k: nat)
    returns (x: nat)
    requires Back(s, ws, wide, c) && q < |c.Ids()| && k < |s.sch.factorIndices|
    requires e < |c.vs| && c.keys[e] == c.Ids()[q].group && LW.IsColumn(s, NoFill, ws, f, v, wide[1 + e])
    ensures HasText(c, q, x, s.FactorNames()[k], s.Text(f, s.sch.factorIndices[k]))
  {
    var y := FactorNameIndex(s, ws, wide, c, e, f, v, k);
    GroupGivesText(c, q, y);
    var d: nat :| GivesText(c, q, y, d);
    TextOfColumn(s, ws, wide, c, d, e, f, v, k);
    x := 1 + |c.Plan().names| + y;
    TextInColumn(c, q, y, d);
  }

  // ----- rows -----

  lemma RowTime(s: RP.LongSeries, ws: seq<int>, wide: Frame, c: Conversion, q: nat)
    requires Back(s, ws, wide, c) && q < |c.Ids()|
    ensures c.Ids()[q].row < |ws| && |c.Long()[0].cells| == |c.Ids()|
    ensures c.Long()[0].cells[q] == Val(TimeVal(ws[c.Ids()[q].row]))
  {
    assert WL.IdOk(c.Plan(), c.Ids()[q]);
    assert c.Long()[0].cells == WL.TimeCells(c.Plan(), c.Ids());
  }

  lemma LongSized(c: Conversion, q: nat)
    requires c.Valid() && q < |c.Ids()|
    ensures forall x :: 0 <= x < |c.Long()| ==> |c.Long()[x].cells| == |c.Ids()|
  {
  }

  /** A row of the second long frame says what its series, at its time, was in the first. */
  lemma RowIsSaid(s: RP.LongSeries, ws: seq<int>, wide: Frame, c: Conversion, q: nat, e: nat, f: nat, v: nat)
    requires Back(s, ws, wide, c) && q < |c.Ids()|
    requires e < |c.vs| && c.keys[e] == c.Ids()[q].group && LW.IsColumn(s, NoFill, ws, f, v, wide[1 + e])
    ensures c.Ids()[q].row < |ws| && RowSays(s, c.Long(), |c.Plan().names|, q, f, ws[c.Ids()[q].row])
  {
    LongSized(c, q);
    RowTime(s, ws, wide, c, q);
    var t := ws[c.Ids()[q].row];
    forall k: nat | k < |s.sch.factorIndices| ensures FactorSaid(s, c.Long(), |c.Plan().names|, q, f, k) {
      var x := RowFactor(s, ws, wide, c, q, e, f, v, k);
    }
    forall u: nat | 1 <= u <= |c.Plan().names| ensures ValueSaid(s, c.Long(), q, f, t, u) {
      var x := NamedValue(s, ws, wide, c, u);
      RowValue(s, ws, wide, c, q, e, f, v, u, x);
      assert c.Long()[u].name == s.long[x].name;
    }
  }

  /** Nothing new: every row of the second long frame stands for a series of the first at one of its times. */
  lemma EveryRowSays(s: RP.LongSeries, ws: seq<int>, wide: Frame, c: Conversion, q: nat)
    requires Back(s, ws, wide, c) && q < |c.Ids()|
    ensures exists f, t :: RowSays(s, c.Long(), |c.Plan().names|, q, f, t) && t in ws
  {
    var e := GroupHasColumn(c, q);
    var f, v := FounderOf(s, ws, wide, c, e);
    RowIsSaid(s, ws, wide, c, q, e, f, v);
  }

  /** Nothing lost: every series of the first long frame has a row at every time. */
  lemma EverySeriesSaid(s: RP.LongSeries, ws: seq<int>, wide: Frame, c: Conversion, f: nat, t: int)
    requires Back(s, ws, wide, c) && LW.Founds(s, f) && t in ws && s.sch.valueIndices != []
    ensures exists q :: RowSays(s, c.Long(), |c.Plan().names|, q, f, t)
  {
    var v := s.sch.valueIndices[0];
    assert Landed(s, ws, wide, f, v);
    var j: nat :| LandsAt(s, ws, wide, f, v, j);
    var e := j - 1;
    var w :| 0 <= w < |ws| && ws[w] == t;
    var q := RowWith(c, w, c.keys[e]);
    RowIsSaid(s, ws, wide, c, q, e, f, v);
  }

  lemma RowWith(c: Conversion, i: nat, key: GoString) returns (q: nat)
    requires c.Valid() && i < c.rows && key in c.keys
    ensures q < |c.Ids()| && c.Ids()[q] == WL.RowId(i, key)
  {
    GroupsExact(c, key);
    var g :| 0 <= g < |c.Plan().groups| && c.Plan().groups[g] == key;
    EveryRowId(c.Plan().groups, c.rows, i, g);
    q :| 0 <= q < |c.Ids()| && c.Ids()[q] == WL.RowId(i, key);
  }

  lemma GroupHasColumn(c: Conversion, q: nat) returns (e: nat)
    requires c.Valid() && q < |c.Ids()|
    ensures e < |c.vs| && c.keys[e] == c.Ids()[q].group
  {
    assert WL.IdOk(c.Plan(), c.Ids()[q]);
    GroupsExact(c, c.Ids()[q].group);
    e :| 0 <= e < |c.keys| && c.keys[e] == c.Ids()[q].group;
  }

  lemma {:induction false} FounderExists(s: RP.LongSeries, r: nat, q: nat) returns (f: nat)
    requires s.Valid() && r < s.rows && q < s.rows && LW.Alike(s, q, r)
    ensures LW.Founds(s, f) && f <= q && LW.Alike(s, f, r)
    decreases q
  {
    if p: nat :| p < q && LW.Alike(s, p, q) {
      f := FounderExists(s, r, p);
    } else {
      f := q;
    }
  }

  // ----- no row twice -----

  lemma FactorColumn(c: Conversion, x: nat)
    requires c.Valid() && 1 + |c.Plan().names| <= x < |c.Long()|
    ensures x - 1 - |c.Plan().names| < |c.Plan().factors|
    ensures c.Long()[x].name == c.Plan().factors[x - 1 - |c.Plan().names|]
  {
  }

  /** Two factor columns of one name are one. */
  lemma FactorColumnsDiffer(c: Conversion, x: nat, y: nat)
    requires c.Valid() && 1 + |c.Plan().names| <= x < |c.Long()| && 1 + |c.Plan().names| <= y < |c.Long()|
    requires c.Long()[x].name == c.Long()[y].name
    ensures x == y
  {
    FactorColumn(c, x);
    FactorColumn(c, y);
    IncreasingTells(c.Plan().factors, x - 1 - |c.Plan().names|, y - 1 - |c.Plan().names|);
  }

  /** The texts of a row are those of one series. */
  lemma SameText(s: RP.LongSeries, ws: seq<int>, wide: Frame, c: Conversion, q: nat, e: nat, g: nat, v: nat, f: nat, k: nat)
    requires Back(s, ws, wide, c) && q < |c.Ids()| && k < |s.sch.factorIndices| && f < s.rows
    requires e < |c.vs| && c.keys[e] == c.Ids()[q].group && LW.IsColumn(s, NoFill, ws, g, v, wide[1 + e])
    requires forall x :: 0 <= x < |c.Long()| ==> q < |c.Long()[x].cells|
    requires FactorSaid(s, c.Long(), |c.Plan().names|, q, f, k)
    ensures s.Text(f, s.sch.factorIndices[k]) == s.Text(g, s.sch.factorIndices[k])
  {
    var x := RowFactor(s, ws, wide, c, q, e, g, v, k);
    var y :| 1 + |c.Plan().names| <= y < |c.Long()| && c.Long()[y].name == s.FactorNames()[k]
             && c.Long()[y].cells[q] == Val(StrVal(s.Text(f, s.sch.factorIndices[k])));
    FactorColumnsDiffer(c, x, y);
  }

  lemma FoundersAlike(s: RP.LongSeries, f: nat, g: nat)
    requires LW.Founds(s, f) && LW.Founds(s, g)
    requires forall k :: 0 <= k < |s.sch.factorIndices| ==> s.Text(f, s.sch.factorIndices[k]) == s.Text(g, s.sch.factorIndices[k])
    ensures f == g
  {
    assert LW.Alike(s, f, g) && LW.Alike(s, g, f);
  }

  /** A row speaks for the series of its group only. */
  lemma RowSeries(s: RP.LongSeries, ws: seq<int>, wide: Frame, c: Conversion, q: nat, e: nat, g: nat, v: nat, f: nat, t: int)
    requires Back(s, ws, wide, c) && q < |c.Ids()| && RowSays(s, c.Long(), |c.Plan().names|, q, f, t)
    requires e < |c.vs| && c.keys[e] == c.Ids()[q].group && LW.IsColumn(s, NoFill, ws, g, v, wide[1 + e])
    ensures f == g && c.Ids()[q].row < |ws| && ws[c.Ids()[q].row] == t
  {
    forall k: nat | k < |s.sch.factorIndices|
      ensures s.Text(f, s.sch.factorIndices[k]) == s.Text(g, s.sch.factorIndices[k])
    {
      assert FactorSaid(s, c.Long(), |c.Plan().names|, q, f, k);
      SameText(s, ws, wide, c, q, e, g, v, f, k);
    }
    FoundersAlike(s, f, g);
    RowTime(s, ws, wide, c, q);
  }

  /** A row of the second long frame has the row and group that its series and time determine. */
  lemma RowIdIs(s: RP.LongSeries, ws: seq<int>, wide: Frame, c: Conversion, q: nat, p: nat, f: nat, t: int)
    requires Back(s, ws, wide, c) && q < |c.Ids()| && p < |c.Ids()|
    requires forall i, j :: 0 <= i < j < |ws| ==> ws[i] < ws[j]
    requires RowSays(s, c.Long(), |c.Plan().names|, q, f, t) && RowSays(s, c.Long(), |c.Plan().names|, p, f, t)
    ensures c.Ids()[q] == c.Ids()[p]
  {
    var d := GroupHasColumn(c, q);
    var g, v := FounderOf(s, ws, wide, c, d);
    RowSeries(s, ws, wide, c, q, d, g, v, f, t);
    var e := GroupHasColumn(c, p);
    var h, u := FounderOf(s, ws, wide, c, e);
    RowSeries(s, ws, wide, c, p, e, h, u, f, t);
    SameGroup(s, ws, wide, c, d, g, v, e, h, u);
  }

  lemma OneRowEach(s: RP.LongSeries, ws: seq<int>, wide: Frame, c: Conversion, q: nat, p: nat, f: nat, t: int)
    requires Back(s, ws, wide, c) && q < |c.Ids()| && p < |c.Ids()|
    requires forall i, j :: 0 <= i < j < |ws| ==> ws[i] < ws[j]
    requires RowSays(s, c.Long(), |c.Plan().names|, q, f, t) && RowSays(s, c.Long(), |c.Plan().names|, p, f, t)
    ensures q == p
  {
    RowIdIs(s, ws, wide, c, q, p, f, t);
    var groups := c.Plan().groups;
    forall i, j | 0 <= i < j < |groups| ensures groups[i] != groups[j] {
      if groups[i] == groups[j] { IncreasingTells(groups, i, j); }
    }
    RowIdsDiffer(groups, c.rows);
  }

  // ----- the theorem -----

  /** Number of value columns of the second long frame. */
  ghost function ValueCount(wide: Frame): nat
    requires WL.Accepted(wide)
  {
    ConversionIsLong(wide);
    |ConversionOf(wide).Plan().names|
  }

  /** Long to wide to long: each row of the input comes back, the last of its series and time deciding, and every row
      of the output stands for a series and time of the input, with zeros where that series had no row. */
  lemma LongWideLongLosesNothing(long: Frame)
    requires LW.Accepted(long) && LW.SeriesOf(long).Valid() && LW.ValueNamesDiffer(LW.SeriesOf(long))
    ensures var s := LW.SeriesOf(long);
            var wide := LW.WideOf(s, NoFill);
            && WL.Accepted(wide)
            && var long2 := WL.LongOf(wide);
            && (forall r: nat :: r < s.rows ==> s.Time(r).Some? && ComesBack(s, long2, ValueCount(wide), r))
            && (forall v :: v in s.sch.valueIndices ==> NameKept(s, long2, ValueCount(wide), v))
            && (forall q: nat {:trigger Stands(s, long2, ValueCount(wide), q)} ::
                  q < |long2[0].cells| ==> Stands(s, long2, ValueCount(wide), q))
  {
    var s := LW.SeriesOf(long);
    var ws, wide := LW.TimesOf(s), LW.WideOf(s, NoFill);
    ResultIsPivotFrame(long, s, ws, wide);
    WideAccepted(s, ws, wide);
    LW.WideTimes(long, NoFill);
    LW.RefusedNot(long);
    forall r: nat | r < s.rows ensures s.Time(r).Some? && ComesBack(s, WL.LongOf(wide), ValueCount(wide), r) {
      assert LW.Passed(s, r);
      RowComesBack(s, ws, wide, r);
    }
    forall v | v in s.sch.valueIndices ensures NameKept(s, WL.LongOf(wide), ValueCount(wide), v) {
      ValueNameKept(s, ws, wide, v);
    }
    forall q: nat | q < |WL.LongOf(wide)[0].cells| ensures Stands(s, WL.LongOf(wide), ValueCount(wide), q) {
      RowStands(s, ws, wide, q);
    }
  }

  /** Some output row speaks for the series and time of input row `r`. */
  ghost predicate ComesBack(s: RP.LongSeries, long2: Frame, values: nat, r: nat)
    requires s.Valid() && r < s.rows && s.Time(r).Some?
  {
    exists f, q :: SpeaksFor(s, long2, values, r, f, q)
  }

  ghost predicate SpeaksFor(s: RP.LongSeries, long2: Frame, values: nat, r: nat, f: nat, q: nat)
    requires s.Valid() && r < s.rows && s.Time(r).Some?
  {
    RowSays(s, long2, values, q, f, s.Time(r).value) && LW.Alike(s, f, r)
  }

  /** Output row `q` speaks for a series of the input at a time of the input. */
  ghost predicate Stands(s: RP.LongSeries, long2: Frame, values: nat, q: nat)
    requires s.Valid()
  {
    exists f, t :: RowSays(s, long2, values, q, f, t) && exists r: nat :: r < s.rows && s.Time(r) == Some(t)
  }

  /** The value column has a namesake in the output. */
  ghost predicate NameKept(s: RP.LongSeries, long2: Frame, values: nat, v: nat) {
    v < |s.long| && 1 + values <= |long2| && exists u :: 1 <= u <= values && long2[u].name == s.long[v].name
  }

  lemma NamesakeColumn(s: RP.LongSeries, ws: seq<int>, wide: Frame, c: Conversion, v: nat) returns (u: nat)
    requires Back(s, ws, wide, c) && v in s.sch.valueIndices
    ensures v < |s.long| && 1 <= u <= |c.Plan().names| && c.Plan().names[u - 1] == s.long[v].name
  {
    assert LW.Founds(s, 0);
    assert Landed(s, ws, wide, 0, v);
    var j: nat :| LandsAt(s, ws, wide, 0, v, j);
    ColumnIndex(s, ws, wide, c, j - 1);
    u := NameColumn(c, j - 1);
  }

  lemma KeptIn(s: RP.LongSeries, c: Conversion, u: nat, v: nat)
    requires c.Valid() && v < |s.long| && 1 <= u <= |c.Plan().names| && c.Plan().names[u - 1] == s.long[v].name
    ensures NameKept(s, c.Long(), |c.Plan().names|, v)
  {
    assert c.Long()[u].name == s.long[v].name;
  }

  lemma ValueNameKept(s: RP.LongSeries, ws: seq<int>, wide: Frame, v: nat)
    requires PivotFrame(s, ws, wide) && WL.Accepted(wide) && v in s.sch.valueIndices
    ensures NameKept(s, WL.LongOf(wide), ValueCount(wide), v)
  {
    PivotIsBack(s, ws, wide);
    var u := NamesakeColumn(s, ws, wide, ConversionOf(wide), v);
    KeptIn(s, ConversionOf(wide), u, v);
  }

  lemma RowComesBack(s: RP.LongSeries, ws: seq<int>, wide: Frame, r: nat)
    requires PivotFrame(s, ws, wide) && WL.Accepted(wide) && r < s.rows && s.Time(r).Some? && s.Time(r).value in ws
    ensures ComesBack(s, WL.LongOf(wide), ValueCount(wide), r)
  {
    var c := ConversionOf(wide);
    PivotIsBack(s, ws, wide);
    var f := FounderExists(s, r, r);
    EverySeriesSaid(s, ws, wide, c, f, s.Time(r).value);
    var q :| RowSays(s, c.Long(), |c.Plan().names|, q, f, s.Time(r).value);
    assert SpeaksFor(s, WL.LongOf(wide), ValueCount(wide), r, f, q);
  }

  lemma RowStands(s: RP.LongSeries, ws: seq<int>, wide: Frame, q: nat)
    requires PivotFrame(s, ws, wide) && WL.Accepted(wide) && q < |WL.LongOf(wide)[0].cells|
    requires forall t :: t in ws ==> exists r: nat :: r < s.rows && s.Time(r) == Some(t)
    ensures Stands(s, WL.LongOf(wide), ValueCount(wide), q)
  {
    var c := ConversionOf(wide);
    PivotIsBack(s, ws, wide);
    LongRowCount(c);
    EveryRowSays(s, ws, wide, c, q);
  }

  lemma LongRowCount(c: Conversion)
    requires c.Valid()
    ensures |c.Long()[0].cells| == |c.Ids()|
  {
  }

  /** No two rows of the output stand for one series and time. */
  lemma LongWideLongOnce(long: Frame, q: nat, p: nat, f: nat, t: int)
    requires LW.Accepted(long) && LW.SeriesOf(long).Valid() && LW.ValueNamesDiffer(LW.SeriesOf(long))
    requires WL.Accepted(LW.WideOf(LW.SeriesOf(long), NoFill))
    requires var s, wide := LW.SeriesOf(long), LW.WideOf(LW.SeriesOf(long), NoFill);
             && RowSays(s, WL.LongOf(wide), ValueCount(wide), q, f, t)
             && RowSays(s, WL.LongOf(wide), ValueCount(wide), p, f, t)
    ensures q == p
  {
    var s := LW.SeriesOf(long);
    var ws, wide := LW.TimesOf(s), LW.WideOf(s, NoFill);
    ResultIsPivotFrame(long, s, ws, wide);
    PivotIsBack(s, ws, wide);
    LW.WideTimes(long, NoFill);
    var c := ConversionOf(wide);
    RowTotal(c, q);
    RowTotal(c, p);
    OneRowEach(s, ws, wide, c, q, p, f, t);
  }

  lemma RowTotal(c: Conversion, q: nat)
    requires c.Valid()
    ensures c.Long() != [] && |c.Long()[0].cells| == |c.Ids()|
  {
  }
}
