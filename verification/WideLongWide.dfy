/** Wide to long and back: the same times, types, labels and cells, columns in canonical order. */
module WideLongWide {
  import opened GoText
  import opened Outcomes
  import opened Frames
  import opened TupleKeys
  import opened SortedKeys
  import opened StableSort
  import opened FieldSort
  import opened LongRows
  import opened LongSide
  import WL = WideToLong
  import RP = RowProcessor
  import LW = LongToWide

  /** What makes the round trip exact, beyond one shared set of label keys. */
  ghost predicate Pivotable(c: Conversion, ks: set<GoString>) {
    && Ready(c, ks) && WL.AreGroupKeys(c.wide, c.vs, c.keys)
    && (forall i, j {:trigger Earlier(c, i, j)} :: 0 <= i < j < c.rows ==> Earlier(c, i, j))
    && (forall d, e {:trigger Apart(c, d, e)} :: 0 <= d < |c.vs| && 0 <= e < |c.vs| ==> Apart(c, d, e))
    && (forall d, e {:trigger Combined(c, d, e)} :: 0 <= d < |c.vs| && 0 <= e < |c.vs| ==> Combined(c, d, e))
  }

  /** Times increase strictly. */
  predicate Earlier(c: Conversion, i: nat, j: nat)
    requires IndicesOk(c) && Typed(c) && i < c.rows && j < c.rows
  {
    c.wide[c.t].cells[i].v.at < c.wide[c.t].cells[j].v.at
  }

  /** Columns differ in name or label set, and a label set has one spelling. */
  predicate Apart(c: Conversion, d: nat, e: nat)
    requires IndicesOk(c) && d < |c.vs| && e < |c.vs|
  {
    c.keys[d] == c.keys[e] ==>
      c.wide[c.vs[d]].labels == c.wide[c.vs[e]].labels && (c.wide[c.vs[d]].name == c.wide[c.vs[e]].name ==> d == e)
  }

  /** The name of one column occurs with the label set of the other. */
  ghost predicate Combined(c: Conversion, d: nat, e: nat)
    requires IndicesOk(c) && d < |c.vs| && e < |c.vs|
  {
    HasColumn(c, c.wide[c.vs[d]].name, c.keys[e])
  }

  ghost predicate HasColumn(c: Conversion, name: GoString, key: GoString)
    requires IndicesOk(c)
  {
    exists j :: IsNamed(c, j, name, key)
  }

  predicate IsNamed(c: Conversion, j: int, name: GoString, key: GoString)
    requires IndicesOk(c)
  {
    0 <= j < |c.vs| && c.wide[c.vs[j]].name == name && c.keys[j] == key
  }

  ghost function WideTimes(c: Conversion): (ts: seq<int>)
    requires c.Valid() && Typed(c)
    ensures |ts| == c.rows && forall i :: 0 <= i < c.rows ==> ts[i] == c.wide[c.t].cells[i].v.at
  {
    seq(c.rows, i requires 0 <= i < c.rows => c.wide[c.t].cells[i].v.at)
  }

  // ----- the long frame is accepted -----

  lemma RowInOrder(c: Conversion, ks: set<GoString>, r: nat)
    requires Pivotable(c, ks) && r < |c.Ids()|
    ensures SeriesFor(c).Valid() && !LW.BadRow(SeriesFor(c), r)
  {
    SeriesTime(c, ks, r);
    if r > 0 {
      SeriesTime(c, ks, r - 1);
      RowIdsExact(c.Plan().groups, c.rows);
      var p, q := c.Ids()[r - 1].row, c.Ids()[r].row;
      assert p <= q && (p < q ==> Earlier(c, p, q));
    }
  }

  lemma NamesDiffer(c: Conversion, ks: set<GoString>)
    requires Ready(c, ks)
    ensures SeriesFor(c).Valid() && LW.ValueNamesDiffer(SeriesFor(c))
  {
    SeriesValid(c, ks);
    var s := SeriesFor(c);
    forall i, j | 0 <= i < j < |s.sch.valueIndices|
      ensures s.long[s.sch.valueIndices[i]].name != s.long[s.sch.valueIndices[j]].name
    {
      LessTotal(c.Plan().names[i], c.Plan().names[j]);
    }
  }

  lemma AcceptedWhen(long: Frame, s: RP.LongSeries)
    requires AllTyped(long) && s == LW.SeriesOf(long) && s.Valid()
    requires RowLen(long) == Some(s.rows) && Distinct(s.FactorNames())
    requires forall r: nat :: r < s.rows ==> !LW.BadRow(s, r)
    ensures LW.Accepted(long)
  {
    assert !LW.BadRow(s, 0);
    assert LW.FirstBad(s, 0) == s.rows;
  }

  lemma LongAccepted(c: Conversion, ks: set<GoString>)
    requires Pivotable(c, ks)
    ensures LW.Accepted(c.Long()) && SeriesFor(c).Valid() && SeriesFor(c) == LW.SeriesOf(c.Long())
  {
    SeriesValid(c, ks);
    SeriesNames(c, ks);
    forall r: nat | r < SeriesFor(c).rows ensures !LW.BadRow(SeriesFor(c), r) {
      RowInOrder(c, ks, r);
    }
    AcceptedWhen(c.Long(), SeriesFor(c));
  }

  // ----- times -----

  lemma {:induction false} SameIncreasing(a: seq<int>, b: seq<int>)
    requires (forall i, j :: 0 <= i < j < |a| ==> a[i] < a[j]) && (forall i, j :: 0 <= i < j < |b| ==> b[i] < b[j])
    requires forall t :: t in a <==> t in b
    ensures a == b
    decreases |a|
  {
    assert a != [] ==> a[|a| - 1] in a;
    assert b != [] ==> b[|b| - 1] in b;
    if a != [] {
      var p, q := a[..|a| - 1], b[..|b| - 1];
      var x, y := a[|a| - 1], b[|b| - 1];
      assert x in b && y in a;
      assert x == y;
      forall t ensures t in p <==> t in q {
        assert a == p + [x] && b == q + [y];
        assert t in p ==> t in a && t < x;
        assert t in q ==> t in b && t < y;
      }
      SameIncreasing(p, q);
      assert a == p + [x] && b == q + [y];
    }
  }

  /** The times of the long rows are those of the wide ones. */
  lemma TimesAreWide(c: Conversion, ks: set<GoString>, t: int)
    requires Pivotable(c, ks) && SeriesFor(c).Valid()
    ensures t in WideTimes(c) <==> exists r: nat :: r < SeriesFor(c).rows && SeriesFor(c).Time(r) == Some(t)
  {
    var s := SeriesFor(c);
    if r: nat :| r < s.rows && s.Time(r) == Some(t) {
      SeriesTime(c, ks, r);
      assert WideTimes(c)[c.Ids()[r].row] == t;
    }
    if t in WideTimes(c) {
      var i :| 0 <= i < c.rows && WideTimes(c)[i] == t;
      var r := RowOf(c, i, c.keys[0]);
      SeriesTime(c, ks, r);
    }
  }

  lemma WideTimesIncrease(c: Conversion, ks: set<GoString>)
    requires Pivotable(c, ks)
    ensures forall i, j :: 0 <= i < j < |WideTimes(c)| ==> WideTimes(c)[i] < WideTimes(c)[j]
  {
    forall i, j | 0 <= i < j < c.rows ensures WideTimes(c)[i] < WideTimes(c)[j] { assert Earlier(c, i, j); }
  }

  lemma TimesComeBack(c: Conversion, ks: set<GoString>)
    requires Pivotable(c, ks) && SeriesFor(c).Valid()
    requires forall i, j :: 0 <= i < j < |LW.TimesOf(SeriesFor(c))| ==> LW.TimesOf(SeriesFor(c))[i] < LW.TimesOf(SeriesFor(c))[j]
    requires forall t :: t in LW.TimesOf(SeriesFor(c)) <==> exists r: nat :: r < SeriesFor(c).rows && SeriesFor(c).Time(r) == Some(t)
    ensures LW.TimesOf(SeriesFor(c)) == WideTimes(c)
  {
    forall t ensures t in LW.TimesOf(SeriesFor(c)) <==> t in WideTimes(c) { TimesAreWide(c, ks, t); }
    WideTimesIncrease(c, ks);
    SameIncreasing(LW.TimesOf(SeriesFor(c)), WideTimes(c));
  }

  /** The last long row of a wide row and label set. */
  lemma RowOf(c: Conversion, i: nat, key: GoString) returns (r: nat)
    requires c.Valid() && i < c.rows && key in c.keys
    ensures r < |c.Ids()| && c.Ids()[r] == WL.RowId(i, key)
    ensures forall q :: r < q < |c.Ids()| ==> c.Ids()[q] != WL.RowId(i, key)
  {
    GroupsExact(c, key);
    var g :| 0 <= g < |c.Plan().groups| && c.Plan().groups[g] == key;
    EveryRowId(c.Plan().groups, c.rows, i, g);
    r := LastOccurrence(c.Ids(), WL.RowId(i, key));
  }

  lemma {:induction false} LastOccurrence(ids: seq<WL.RowId>, id: WL.RowId) returns (r: nat)
    requires id in ids
    ensures r < |ids| && ids[r] == id && forall q :: r < q < |ids| ==> ids[q] != id
    decreases |ids|
  {
    if ids[|ids| - 1] == id {
      r := |ids| - 1;
    } else {
      assert id in ids[..|ids| - 1];
      r := LastOccurrence(ids[..|ids| - 1], id);
    }
  }

  lemma {:induction false} FirstOfGroup(ids: seq<WL.RowId>, r: nat) returns (f: nat)
    requires r < |ids|
    ensures f <= r && ids[f].group == ids[r].group && forall q :: 0 <= q < f ==> ids[q].group != ids[r].group
    decreases r
  {
    if q :| 0 <= q < r && ids[q].group == ids[r].group {
      f := FirstOfGroup(ids, q);
    } else {
      f := r;
    }
  }

  // ----- columns -----

  lemma AtMeansId(c: Conversion, ks: set<GoString>, f: nat, i: nat, q: nat)
    requires Pivotable(c, ks) && f < |c.Ids()| && i < c.rows && q < |c.Ids()|
    ensures SeriesFor(c).Valid()
    ensures LW.At(SeriesFor(c), f, WideTimes(c)[i], q) <==> c.Ids()[q] == WL.RowId(i, c.Ids()[f].group)
  {
    SeriesAreGroups(c, ks, q, f);
    SeriesTime(c, ks, q);
    var p := c.Ids()[q].row;
    assert p < i ==> Earlier(c, p, i);
    assert i < p ==> Earlier(c, i, p);
  }

  lemma ColumnIsUnique(c: Conversion, ks: set<GoString>, d: nat)
    requires Pivotable(c, ks) && d < |c.vs|
    ensures LastColumn(c.wide, c.vs, c.keys, |c.vs|, c.keys[d], c.wide[c.vs[d]].name) == d
  {
    var j := LastColumn(c.wide, c.vs, c.keys, |c.vs|, c.keys[d], c.wide[c.vs[d]].name);
    assert j >= d && Apart(c, j, d);
  }

  lemma LastRowIs(c: Conversion, ks: set<GoString>, f: nat, i: nat, r: nat)
    requires Pivotable(c, ks) && f < |c.Ids()| && i < c.rows && r < |c.Ids()| && SeriesFor(c).Valid()
    requires c.Ids()[r] == WL.RowId(i, c.Ids()[f].group)
    requires forall q :: r < q < |c.Ids()| ==> c.Ids()[q] != WL.RowId(i, c.Ids()[f].group)
    ensures LW.LastRowAt(SeriesFor(c), f, WideTimes(c)[i], r)
  {
    AtMeansId(c, ks, f, i, r);
    forall q | r < q < |c.Ids()| ensures !LW.At(SeriesFor(c), f, WideTimes(c)[i], q) {
      AtMeansId(c, ks, f, i, q);
    }
  }

  /** A cell of the result is the wide cell it started as. */
  lemma CellComesBack(c: Conversion, ks: set<GoString>, f: nat, i: nat, d: nat, u: nat, cell: Cell)
    requires Pivotable(c, ks) && f < |c.Ids()| && i < c.rows && d < |c.vs| && c.Ids()[f].group == c.keys[d]
    requires 1 <= u <= |c.Plan().names| && c.Plan().names[u - 1] == c.wide[c.vs[d]].name && SeriesFor(c).Valid()
    requires LW.CellSays(SeriesFor(c), NoFill, f, u, WideTimes(c)[i], cell)
    ensures cell == c.wide[c.vs[d]].cells[i]
  {
    var r := RowOf(c, i, c.keys[d]);
    LastRowIs(c, ks, f, i, r);
    ValueInColumn(c, r, u);
    ColumnIsUnique(c, ks, d);
  }

  lemma OneSpelling(c: Conversion, ks: set<GoString>, d: nat, e: nat)
    requires Pivotable(c, ks) && d < |c.vs| && e < |c.vs| && c.keys[d] == c.keys[e]
    ensures c.wide[c.vs[d]].labels == c.wide[c.vs[e]].labels
  {
    assert Apart(c, d, e);
  }

  lemma LabelsComeBack(c: Conversion, ks: set<GoString>, f: nat, d: nat)
    requires Pivotable(c, ks) && f < |c.Ids()| && d < |c.vs| && c.Ids()[f].group == c.keys[d]
    ensures SeriesFor(c).Valid()
    ensures Some(LabelsOf(SeriesFor(c).NamedKey(f), |SeriesFor(c).sch.factorIndices|)) == c.wide[c.vs[d]].labels
  {
    var e := SeriesLabels(c, ks, f);
    OneSpelling(c, ks, d, e);
  }

  /** What a column of the pivot is, but for its cells. */
  lemma ColumnHeader(s: RP.LongSeries, ws: seq<int>, f: nat, v: nat, col: Field)
    requires LW.IsColumn(s, NoFill, ws, f, v, col)
    ensures s.Valid() && f < s.rows && v < |s.long| && col.name == s.long[v].name && col.ftype == s.long[v].ftype
    ensures col.labels == Some(LabelsOf(s.NamedKey(f), |s.sch.factorIndices|)) && |col.cells| == |ws|
  {
  }

  lemma ColumnCell(s: RP.LongSeries, ws: seq<int>, f: nat, v: nat, col: Field, i: nat)
    requires LW.IsColumn(s, NoFill, ws, f, v, col) && i < |ws|
    ensures s.Valid() && f < s.rows && v < |s.long| && |col.cells| == |ws| && LW.CellSays(s, NoFill, f, v, ws[i], col.cells[i])
  {
  }

  lemma SameField(a: Field, b: Field)
    requires a.name == b.name && a.ftype == b.ftype && a.labels == b.labels && |a.cells| == |b.cells|
    requires forall i :: 0 <= i < |a.cells| ==> a.cells[i] == b.cells[i]
    ensures a == b
  {
    assert a.cells == b.cells;
  }

  /** A column of the result is the wide column with its name and label set. */
  lemma ColumnComesBack(c: Conversion, ks: set<GoString>, f: nat, u: nat, d: nat, col: Field)
    requires Pivotable(c, ks) && SeriesFor(c).Valid() && 1 <= u <= |c.Plan().names|
    requires LW.IsColumn(SeriesFor(c), NoFill, WideTimes(c), f, u, col)
    requires f < |c.Ids()| && d < |c.vs| && c.Ids()[f].group == c.keys[d] && c.Plan().names[u - 1] == c.wide[c.vs[d]].name
    ensures col == c.wide[c.vs[d]]
  {
    ColumnHeader(SeriesFor(c), WideTimes(c), f, u, col);
    LabelsComeBack(c, ks, f, d);
    ColumnType(c, u, d);
    forall i | 0 <= i < c.rows ensures |col.cells| == c.rows && col.cells[i] == c.wide[c.vs[d]].cells[i] {
      ColumnCell(SeriesFor(c), WideTimes(c), f, u, col, i);
      CellComesBack(c, ks, f, i, d, u, col.cells[i]);
    }
    SameField(col, c.wide[c.vs[d]]);
  }

  /** The wide value columns. */
  ghost function ValueColumns(c: Conversion): (fs: seq<Field>)
    requires IndicesOk(c)
    ensures |fs| == |c.vs| && forall d :: 0 <= d < |c.vs| ==> fs[d] == c.wide[c.vs[d]]
  {
    seq(|c.vs|, d requires 0 <= d < |c.vs| => c.wide[c.vs[d]])
  }

  ghost function Result(c: Conversion): Frame
    requires c.Valid() && SeriesFor(c).Valid()
  {
    LW.WideOf(SeriesFor(c), NoFill)
  }

  lemma ResultTimes(c: Conversion, ks: set<GoString>)
    requires Pivotable(c, ks)
    ensures SeriesFor(c).Valid() && Result(c) != []
    ensures Result(c)[0] == RP.TimeColumn(c.wide[c.t].name, WideTimes(c))
    ensures LW.TimesOf(SeriesFor(c)) == WideTimes(c)
  {
    LongAccepted(c, ks);
    LW.WideTimes(c.Long(), NoFill);
    TimesComeBack(c, ks);
  }

  lemma InRange(lo: nat, hi: nat, u: nat)
    requires lo <= hi && u in Range(lo, hi)
    ensures lo <= u < hi
  {
  }

  /** `wide` and its times `ws` are what LongToWide makes of `long`. */
  ghost predicate Pivoted(long: Frame, s: RP.LongSeries, ws: seq<int>, wide: Frame) {
    LW.Accepted(long) && s == LW.SeriesOf(long) && s.Valid() && wide == LW.WideOf(s, NoFill) && ws == LW.TimesOf(s)
  }

  lemma ResultPivoted(c: Conversion, ks: set<GoString>)
    requires Pivotable(c, ks)
    ensures SeriesFor(c).Valid() && Pivoted(c.Long(), SeriesFor(c), WideTimes(c), Result(c))
  {
    LongAccepted(c, ks);
    ResultTimes(c, ks);
  }

  lemma InSchema(c: Conversion, u: nat)
    requires c.Valid() && 1 <= u <= |c.Plan().names|
    ensures u in SeriesFor(c).sch.valueIndices
  {
    IsInRange(1, 1 + |c.Plan().names|, u);
  }

  lemma IsInRange(lo: nat, hi: nat, u: nat)
    requires lo <= u < hi
    ensures u in Range(lo, hi)
  {
    assert Range(lo, hi)[u - lo] == u;
  }

  lemma OneOf(long: Frame, s: RP.LongSeries, ws: seq<int>, wide: Frame, j: nat)
    requires Pivoted(long, s, ws, wide)
    requires 1 <= j < |wide|
    ensures exists f, u :: LW.IsColumn(s, NoFill, ws, f, u, wide[j])
  {
    var f, u := LW.EveryColumnIsOne(long, NoFill, j);
  }

  ghost predicate LandsAt(s: RP.LongSeries, ws: seq<int>, f: nat, u: nat, wide: Frame, j: nat) {
    1 <= j < |wide| && LW.IsColumn(s, NoFill, ws, f, u, wide[j])
  }

  lemma Lands(long: Frame, s: RP.LongSeries, ws: seq<int>, wide: Frame, f: nat, u: nat)
    requires Pivoted(long, s, ws, wide)
    requires LW.Founds(s, f) && u in s.sch.valueIndices
    ensures exists j: nat :: LandsAt(s, ws, f, u, wide, j)
  {
    var i :| 0 <= i < |s.sch.valueIndices| && s.sch.valueIndices[i] == u;
    var j := LW.EveryColumnLands(long, NoFill, f, i);
    assert LandsAt(s, ws, f, u, wide, j);
  }

  /** A column of the result has a founder and a value name. */
  lemma ResultColumn(c: Conversion, ks: set<GoString>, j: nat)
    requires Pivotable(c, ks) && SeriesFor(c).Valid() && 1 <= j < |Result(c)|
    ensures exists f, u :: LW.IsColumn(SeriesFor(c), NoFill, WideTimes(c), f, u, Result(c)[j])
  {
    ResultPivoted(c, ks);
    OneOf(c.Long(), SeriesFor(c), WideTimes(c), Result(c), j);
  }

  lemma ColumnBounds(s: RP.LongSeries, ws: seq<int>, f: nat, u: nat, col: Field, n: nat)
    requires LW.IsColumn(s, NoFill, ws, f, u, col) && s.sch.valueIndices == Range(1, 1 + n)
    ensures f < s.rows && 1 <= u <= n
  {
    InRange(1, 1 + n, u);
  }

  lemma GroupHasColumn(c: Conversion, f: nat) returns (e: nat)
    requires c.Valid() && f < |c.Ids()|
    ensures e < |c.vs| && c.keys[e] == c.Ids()[f].group
  {
    GroupsExact(c, c.Ids()[f].group);
    assert WL.IdOk(c.Plan(), c.Ids()[f]);
    e :| 0 <= e < |c.keys| && c.keys[e] == c.Ids()[f].group;
  }

  lemma SomeColumnComesBack(c: Conversion, ks: set<GoString>, f: nat, u: nat, col: Field) returns (d: nat)
    requires Pivotable(c, ks) && SeriesFor(c).Valid() && LW.IsColumn(SeriesFor(c), NoFill, WideTimes(c), f, u, col)
    ensures d < |c.vs| && col == c.wide[c.vs[d]]
  {
    ColumnBounds(SeriesFor(c), WideTimes(c), f, u, col, |c.Plan().names|);
    var e := GroupHasColumn(c, f);
    var a := NameHasColumn(c, u - 1);
    d := Completes(c, ks, a, e);
    ColumnComesBack(c, ks, f, u, d, col);
  }

  lemma OnlyWideColumns(c: Conversion, ks: set<GoString>, j: nat) returns (d: nat)
    requires Pivotable(c, ks) && SeriesFor(c).Valid() && 1 <= j < |Result(c)|
    ensures d < |c.vs| && Result(c)[j] == c.wide[c.vs[d]]
  {
    ResultColumn(c, ks, j);
    var f: nat, u: nat :| LW.IsColumn(SeriesFor(c), NoFill, WideTimes(c), f, u, Result(c)[j]);
    d := SomeColumnComesBack(c, ks, f, u, Result(c)[j]);
  }

  lemma Completes(c: Conversion, ks: set<GoString>, a: nat, e: nat) returns (d: nat)
    requires Pivotable(c, ks) && a < |c.vs| && e < |c.vs|
    ensures IsNamed(c, d, c.wide[c.vs[a]].name, c.keys[e])
  {
    assert Combined(c, a, e);
    d :| IsNamed(c, d, c.wide[c.vs[a]].name, c.keys[e]);
  }

  lemma Founder(c: Conversion, ks: set<GoString>, d: nat) returns (f: nat)
    requires Pivotable(c, ks) && d < |c.vs|
    ensures f < |c.Ids()| && c.Ids()[f].group == c.keys[d] && LW.Founds(SeriesFor(c), f)
  {
    var r := RowOf(c, 0, c.keys[d]);
    f := FirstOfGroup(c.Ids(), r);
    SeriesValid(c, ks);
    forall p | 0 <= p < f ensures !LW.Alike(SeriesFor(c), p, f) {
      SeriesAreGroups(c, ks, p, f);
    }
  }

  lemma LandedColumn(c: Conversion, ks: set<GoString>, f: nat, u: nat)
    requires Pivotable(c, ks) && SeriesFor(c).Valid() && LW.Founds(SeriesFor(c), f) && 1 <= u <= |c.Plan().names|
    ensures exists j: nat :: LandsAt(SeriesFor(c), WideTimes(c), f, u, Result(c), j)
  {
    ResultPivoted(c, ks);
    InSchema(c, u);
    Lands(c.Long(), SeriesFor(c), WideTimes(c), Result(c), f, u);
  }

  lemma EveryWideColumn(c: Conversion, ks: set<GoString>, d: nat) returns (j: nat)
    requires Pivotable(c, ks) && SeriesFor(c).Valid() && d < |c.vs|
    ensures 1 <= j < |Result(c)| && Result(c)[j] == c.wide[c.vs[d]]
  {
    var f := Founder(c, ks, d);
    var u := NameColumn(c, d);
    LandedColumn(c, ks, f, u);
    j :| LandsAt(SeriesFor(c), WideTimes(c), f, u, Result(c), j);
    ColumnComesBack(c, ks, f, u, d, Result(c)[j]);
  }

  lemma SameMembers(a: Frame, b: seq<Field>)
    requires a != [] && forall i :: 1 <= i < |a| ==> a[i] in b
    requires forall i :: 0 <= i < |b| ==> b[i] in a[1..]
    ensures forall x :: x in a[1..] <==> x in b
  {
  }

  lemma SameColumns(c: Conversion, ks: set<GoString>)
    requires Pivotable(c, ks) && SeriesFor(c).Valid() && Result(c) != []
    ensures forall x :: x in Result(c)[1..] <==> x in ValueColumns(c)
  {
    forall i | 1 <= i < |Result(c)| ensures Result(c)[i] in ValueColumns(c) {
      var d := OnlyWideColumns(c, ks, i);
      assert ValueColumns(c)[d] == c.wide[c.vs[d]];
    }
    forall d | 0 <= d < |ValueColumns(c)| ensures ValueColumns(c)[d] in Result(c)[1..] {
      var j := EveryWideColumn(c, ks, d);
      assert Result(c)[1..][j - 1] == Result(c)[j];
    }
    SameMembers(Result(c), ValueColumns(c));
  }

  lemma ValuesAtIndex(keys: seq<GoString>, l: Labels, i: nat)
    requires i < |keys|
    ensures Values(keys, l)[i] == Lookup(l, keys[i])
  {
    if i > 0 { ValuesAtIndex(keys[1..], l, i - 1); }
  }

  /** Sort keys tell labelled columns apart by name and labels. */
  lemma SortKeysTell(fs: seq<GoString>, ks: set<GoString>, a: Field, b: Field)
    requires Lists(fs, ks) && fs != [] && a.labels.Some? && b.labels.Some?
    requires a.labels.value.Keys == ks && b.labels.value.Keys == ks && SortKey(fs, a) == SortKey(fs, b)
    ensures a.name == b.name && a.labels == b.labels
  {
    var l, m := a.labels.value, b.labels.value;
    assert SortKey(fs, a)[0] == a.name && SortKey(fs, b)[0] == b.name;
    assert SortKey(fs, a)[2..] == Values(fs, l) && SortKey(fs, b)[2..] == Values(fs, m);
    forall k | k in ks ensures l[k] == m[k] {
      var i :| 0 <= i < |fs| && fs[i] == k;
      ValuesAtIndex(fs, l, i);
      ValuesAtIndex(fs, m, i);
    }
    assert l == m;
  }

  lemma WideKeysTell(c: Conversion, ks: set<GoString>, d: nat, e: nat)
    requires Pivotable(c, ks) && d < |c.vs| && e < |c.vs|
    requires SortKey(c.Plan().factors, c.wide[c.vs[d]]) == SortKey(c.Plan().factors, c.wide[c.vs[e]])
    ensures d == e
  {
    FactorsAreKeys(c, ks);
    LongLaidOut(c, ks);
    SortKeysTell(c.Plan().factors, ks, c.wide[c.vs[d]], c.wide[c.vs[e]]);
    SameKeySameSet(c, ks, d, e);
    assert Apart(c, d, e);
  }

  lemma KeysTellValues(c: Conversion, ks: set<GoString>)
    requires Pivotable(c, ks)
    ensures KeysTell(Ranking(c.Plan().factors), ValueColumns(c))
  {
    var key, fs := Ranking(c.Plan().factors), ValueColumns(c);
    forall d, e | 0 <= d < |fs| && 0 <= e < |fs| && key(fs[d]) == key(fs[e]) ensures d == e {
      WideKeysTell(c, ks, d, e);
    }
  }

  lemma ResultNoTwins(c: Conversion, ks: set<GoString>)
    requires Pivotable(c, ks)
    ensures SeriesFor(c).Valid() && LW.NoTwins(Result(c))
  {
    LongAccepted(c, ks);
    NamesDiffer(c, ks);
    LW.WideNoTwins(c.Long(), NoFill);
  }

  /** Two columns of the result with one sort key are one column. */
  lemma ResultKeyTells(c: Conversion, ks: set<GoString>, i: nat, j: nat)
    requires Pivotable(c, ks) && SeriesFor(c).Valid() && LW.NoTwins(Result(c))
    requires 1 <= i < |Result(c)| && 1 <= j < |Result(c)|
    requires SortKey(c.Plan().factors, Result(c)[i]) == SortKey(c.Plan().factors, Result(c)[j])
    ensures i == j
  {
    var d := OnlyWideColumns(c, ks, i);
    var e := OnlyWideColumns(c, ks, j);
    WideKeysTell(c, ks, d, e);
  }

  lemma TailKeysTell(keys: seq<GoString>, f: Frame)
    requires f != []
    requires forall i, j :: 1 <= i < |f| && 1 <= j < |f| && SortKey(keys, f[i]) == SortKey(keys, f[j]) ==> i == j
    ensures KeysTell(Ranking(keys), f[1..])
  {
    forall i, j | 0 <= i < |f[1..]| && 0 <= j < |f[1..]| && Ranking(keys)(f[1..][i]) == Ranking(keys)(f[1..][j])
      ensures i == j
    {
      assert f[1..][i] == f[i + 1] && f[1..][j] == f[j + 1];
    }
  }

  lemma KeysTellResult(c: Conversion, ks: set<GoString>)
    requires Pivotable(c, ks) && SeriesFor(c).Valid() && Result(c) != []
    ensures KeysTell(Ranking(c.Plan().factors), Result(c)[1..])
  {
    ResultNoTwins(c, ks);
    forall i, j | 1 <= i < |Result(c)| && 1 <= j < |Result(c)|
                  && SortKey(c.Plan().factors, Result(c)[i]) == SortKey(c.Plan().factors, Result(c)[j])
      ensures i == j
    {
      ResultKeyTells(c, ks, i, j);
    }
    TailKeysTell(c.Plan().factors, Result(c));
  }

  /** Back from the long form: the time column, then the wide value columns, sorted by name and label values. */
  lemma ConversionComesBack(c: Conversion, ks: set<GoString>)
    requires Pivotable(c, ks)
    ensures LW.Accepted(c.Long()) && SeriesFor(c).Valid() && SeriesFor(c) == LW.SeriesOf(c.Long())
    ensures Lists(c.Plan().factors, ks)
    ensures Result(c) == [RP.TimeColumn(c.wide[c.t].name, WideTimes(c))] + Sorted(Comparator(c.Plan().factors), ValueColumns(c))
  {
    LongAccepted(c, ks);
    FactorsAreKeys(c, ks);
    ResultTimes(c, ks);
    SameColumns(c, ks);
    KeysTellValues(c, ks);
    KeysTellResult(c, ks);
    LW.WideOrdered(c.Long(), NoFill);
    SeriesNames(c, ks);
    AllAgree(c.Plan().factors, ValueColumns(c));
    SortedOfSame(Comparator(c.Plan().factors), Ranking(c.Plan().factors), ValueColumns(c), Result(c)[1..]);
    HeadTail(Result(c), Result(c)[0], Sorted(Comparator(c.Plan().factors), ValueColumns(c)));
  }

  // ----- the theorem, in terms of the wide frame alone -----

  ghost predicate ValidLabels(l: Labels) { forall k :: k in l ==> ValidUtf8(l[k]) }

  /** Value column `d` of a wide frame. */
  function Column(w: Frame, d: nat): Field
    requires WL.IndicesOk(w, SchemaOf(w).valueIndices) && d < |SchemaOf(w).valueIndices|
  {
    w[SchemaOf(w).valueIndices[d]]
  }

  function Columns(w: Frame): nat { |SchemaOf(w).valueIndices| }

  /** Strictly increasing times; value columns with the label keys `ks`, no two alike, every name with every label set. */
  ghost predicate Regular(w: Frame, ks: set<GoString>) {
    && WL.Accepted(w) && ks != {}
    && (forall i, j {:trigger Before(w, i, j)} :: 0 <= i < j < WL.RowsOf(w) ==> Before(w, i, j))
    && (forall d {:trigger LabelledBy(w, ks, d)} :: 0 <= d < Columns(w) ==> LabelledBy(w, ks, d))
    && (forall d, e {:trigger Differ(w, d, e)} :: 0 <= d < e < Columns(w) ==> Differ(w, d, e))
    && (forall d, e {:trigger Meet(w, d, e)} :: 0 <= d < Columns(w) && 0 <= e < Columns(w) ==> Meet(w, d, e))
  }

  /** The time of wide row `i`. */
  function TimeIn(w: Frame, i: nat): int
    requires SchemaOf(w).timeIndex < |w| && i < |w[SchemaOf(w).timeIndex].cells|
  {
    var cell := w[SchemaOf(w).timeIndex].cells[i];
    if cell.Val? && cell.v.TimeVal? then cell.v.at else 0
  }

  predicate Before(w: Frame, i: nat, j: nat) {
    var t := SchemaOf(w).timeIndex;
    t < |w| && i < |w[t].cells| && j < |w[t].cells| && TimeIn(w, i) < TimeIn(w, j)
  }

  ghost predicate LabelledBy(w: Frame, ks: set<GoString>, d: nat)
    requires WL.IndicesOk(w, SchemaOf(w).valueIndices) && d < Columns(w)
  {
    Column(w, d).labels.Some? && Column(w, d).labels.value.Keys == ks && ValidLabels(Column(w, d).labels.value)
  }

  predicate Differ(w: Frame, d: nat, e: nat)
    requires WL.IndicesOk(w, SchemaOf(w).valueIndices) && d < Columns(w) && e < Columns(w)
  {
    Column(w, d).name != Column(w, e).name || Column(w, d).labels != Column(w, e).labels
  }

  /** Some column has the name of the one and the labels of the other. */
  ghost predicate Meet(w: Frame, d: nat, e: nat)
    requires WL.IndicesOk(w, SchemaOf(w).valueIndices) && d < Columns(w) && e < Columns(w)
  {
    exists a :: HasBoth(w, d, e, a)
  }

  predicate HasBoth(w: Frame, d: nat, e: nat, a: int)
    requires WL.IndicesOk(w, SchemaOf(w).valueIndices) && d < Columns(w) && e < Columns(w)
  {
    0 <= a < Columns(w) && Column(w, a).name == Column(w, d).name && Column(w, a).labels == Column(w, e).labels
  }

  lemma ValidSetsSame(a: Labels, b: Labels)
    requires ValidLabels(a) && ValidLabels(b)
    ensures SameSets(a, b) <==> a == b
  {
    if SameSets(a, b) {
      forall k | k in a ensures a[k] == b[k] { UnitsDetermineValid(a[k], b[k]); }
      assert a == b;
    }
  }

  lemma TimesTyped(w: Frame, i: nat)
    requires WL.Accepted(w) && i < WL.RowsOf(w)
    ensures SchemaOf(w).timeIndex < |w| && |w[SchemaOf(w).timeIndex].cells| == WL.RowsOf(w)
    ensures w[SchemaOf(w).timeIndex].cells[i].Val? && w[SchemaOf(w).timeIndex].cells[i].v.TimeVal?
  {
    assert WellTyped(w[SchemaOf(w).timeIndex]);
  }

  lemma AcceptedIsTyped(w: Frame)
    requires WL.Accepted(w)
    ensures ConversionOf(w).Valid() && Typed(ConversionOf(w)) && WL.AreGroupKeys(w, ConversionOf(w).vs, ConversionOf(w).keys)
  {
    ConversionIsLong(w);
    forall i | 0 <= i < WL.RowsOf(w)
      ensures w[SchemaOf(w).timeIndex].cells[i].Val? && w[SchemaOf(w).timeIndex].cells[i].v.TimeVal?
    {
      TimesTyped(w, i);
    }
  }

  lemma RegularIsReady(w: Frame, ks: set<GoString>)
    requires Regular(w, ks)
    ensures Ready(ConversionOf(w), ks) && WL.AreGroupKeys(w, ConversionOf(w).vs, ConversionOf(w).keys)
  {
    AcceptedIsTyped(w);
    var c := ConversionOf(w);
    forall d | 0 <= d < |c.vs| ensures w[c.vs[d]].labels.Some? && w[c.vs[d]].labels.value.Keys == ks {
      assert LabelledBy(w, ks, d);
    }
    AcceptedHasColumns(w);
  }

  lemma AcceptedHasColumns(w: Frame)
    requires WL.Accepted(w)
    ensures SchemaOf(w).valueIndices != []
  {
  }

  /** One label set key, one label set. */
  lemma RegularKeys(c: Conversion, ks: set<GoString>, d: nat, e: nat)
    requires Ready(c, ks) && WL.AreGroupKeys(c.wide, c.vs, c.keys) && d < |c.vs| && e < |c.vs|
    requires ValidLabels(c.wide[c.vs[d]].labels.value) && ValidLabels(c.wide[c.vs[e]].labels.value)
    ensures c.keys[d] == c.keys[e] <==> c.wide[c.vs[d]].labels == c.wide[c.vs[e]].labels
  {
    SameKeySameSet(c, ks, d, e);
    ValidSetsSame(c.wide[c.vs[d]].labels.value, c.wide[c.vs[e]].labels.value);
  }

  lemma RegularApart(w: Frame, ks: set<GoString>, d: nat, e: nat)
    requires Regular(w, ks) && Ready(ConversionOf(w), ks) && WL.AreGroupKeys(w, ConversionOf(w).vs, ConversionOf(w).keys)
    requires d < Columns(w) && e < Columns(w)
    ensures Apart(ConversionOf(w), d, e) && Combined(ConversionOf(w), d, e)
  {
    var c := ConversionOf(w);
    assert LabelledBy(w, ks, d) && LabelledBy(w, ks, e);
    RegularKeys(c, ks, d, e);
    if d < e { assert Differ(w, d, e); }
    if e < d { assert Differ(w, e, d); }
    assert Meet(w, d, e);
    var a: nat :| HasBoth(w, d, e, a);
    assert LabelledBy(w, ks, a);
    RegularKeys(c, ks, a, e);
    assert IsNamed(c, a, c.wide[c.vs[d]].name, c.keys[e]);
  }

  lemma RegularIncreases(w: Frame, ks: set<GoString>, c: Conversion)
    requires Regular(w, ks) && c == ConversionOf(w) && IndicesOk(c) && Typed(c)
    ensures forall i, j {:trigger Earlier(c, i, j)} :: 0 <= i < j < c.rows ==> Earlier(c, i, j)
  {
    forall i, j | 0 <= i < j < c.rows ensures Earlier(c, i, j) {
      assert Before(w, i, j);
    }
  }

  lemma RegularIsApart(w: Frame, ks: set<GoString>, c: Conversion)
    requires Regular(w, ks) && c == ConversionOf(w) && Ready(c, ks) && WL.AreGroupKeys(w, c.vs, c.keys)
    ensures forall d, e {:trigger Apart(c, d, e)} :: 0 <= d < |c.vs| && 0 <= e < |c.vs| ==> Apart(c, d, e)
    ensures forall d, e {:trigger Combined(c, d, e)} :: 0 <= d < |c.vs| && 0 <= e < |c.vs| ==> Combined(c, d, e)
  {
    forall d, e | 0 <= d < |c.vs| && 0 <= e < |c.vs| ensures Apart(c, d, e) && Combined(c, d, e) {
      RegularApart(w, ks, d, e);
    }
  }

  lemma RegularIsPivotable(w: Frame, ks: set<GoString>)
    requires Regular(w, ks)
    ensures Pivotable(ConversionOf(w), ks)
  {
    RegularIsReady(w, ks);
    RegularIncreases(w, ks, ConversionOf(w));
    RegularIsApart(w, ks, ConversionOf(w));
  }

  ghost function TimeColumnOf(w: Frame): Field
    requires WL.Accepted(w)
  {
    var t := SchemaOf(w).timeIndex;
    w[t].(ftype := FieldType(TimeKind, false), labels := None)
  }

  /** The value columns in the order of the frame. */
  ghost function ColumnsOf(w: Frame): (fs: seq<Field>)
    requires WL.IndicesOk(w, SchemaOf(w).valueIndices)
    ensures |fs| == Columns(w) && forall d :: 0 <= d < |fs| ==> fs[d] == Column(w, d)
  {
    seq(Columns(w), d requires 0 <= d < Columns(w) => Column(w, d))
  }

  lemma CanonicalIs(w: Frame, c: Conversion)
    requires WL.Accepted(w) && c == ConversionOf(w) && c.Valid() && Typed(c)
    ensures ValueColumns(c) == ColumnsOf(w) && RP.TimeColumn(c.wide[c.t].name, WideTimes(c)) == TimeColumnOf(w)
  {
    assert RP.TimeColumn(c.wide[c.t].name, WideTimes(c)).cells == TimeColumnOf(w).cells;
  }

  /** Wide to long to wide: the same frame, but for a labelless, non-nullable time column in front and the columns'
      order, which is by name, then by the values of the label keys in order. */
  lemma WideLongWideIdentity(w: Frame, ks: set<GoString>)
    requires Regular(w, ks)
    ensures LW.Accepted(WL.LongOf(w)) && LW.SeriesOf(WL.LongOf(w)).Valid()
    ensures LW.WideOf(LW.SeriesOf(WL.LongOf(w)), NoFill)
         == [TimeColumnOf(w)] + Sorted(Comparator(SortedList(ks)), ColumnsOf(w))
  {
    var c := ConversionOf(w);
    RegularIsPivotable(w, ks);
    ConversionIsLong(w);
    ConversionComesBack(c, ks);
    SortedListUnique(c.Plan().factors, SortedList(ks), ks);
    CanonicalIs(w, c);
  }
}
