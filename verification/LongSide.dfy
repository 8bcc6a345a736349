/** The long frame made by `WideToLong`, seen as input of `LongToWide`: its schema, times, factors and series. */
module LongSide {
  import opened GoText
  import opened Outcomes
  import opened Frames
  import opened TupleKeys
  import opened SortedKeys
  import opened LongRows
  import WL = WideToLong
  import RP = RowProcessor
  import LW = LongToWide

  // ----- schema -----

  function Range(lo: nat, hi: nat): (s: seq<nat>)
    requires lo <= hi
    ensures |s| == hi - lo && forall i :: 0 <= i < |s| ==> s[i] == lo + i
  {
    seq(hi - lo, i requires 0 <= i < hi - lo => lo + i)
  }

  /** Time, then `n` value columns, then factors. */
  predicate LongLayout(f: Frame, n: nat) {
    && 1 + n <= |f| && f[0].ftype.kind.TimeKind?
    && (forall j :: 1 <= j <= n ==> !IsFactor(f[j])) && (forall j :: 1 + n <= j < |f| ==> IsFactor(f[j]))
  }

  lemma RangeSnoc(lo: nat, hi: nat)
    requires lo <= hi
    ensures Range(lo, hi + 1) == Range(lo, hi) + [hi]
  {
  }

  lemma {:induction false} NoFactorsYet(f: Frame, n: nat, m: nat)
    requires LongLayout(f, n) && m <= 1 + n
    ensures FactorIndices(f, m) == []
    decreases m
  {
    if m > 0 { NoFactorsYet(f, n, m - 1); }
  }

  lemma {:induction false} LayoutFactors(f: Frame, n: nat, m: nat)
    requires LongLayout(f, n) && 1 + n <= m <= |f|
    ensures FactorIndices(f, m) == Range(1 + n, m)
    decreases m
  {
    if m == 1 + n {
      NoFactorsYet(f, n, m);
    } else {
      LayoutFactors(f, n, m - 1);
      RangeSnoc(1 + n, m - 1);
    }
  }

  lemma {:induction false} LayoutValues(f: Frame, n: nat, m: nat)
    requires LongLayout(f, n) && m <= |f|
    ensures ValueIndices(f, 0, m) == if m == 0 then [] else Range(1, if m <= 1 + n then m else 1 + n)
    decreases m
  {
    if m > 0 {
      LayoutValues(f, n, m - 1);
      if 1 < m <= 1 + n { RangeSnoc(1, m - 1); }
    }
  }

  lemma LayoutSchema(f: Frame, n: nat)
    requires LongLayout(f, n) && 0 < n && 1 + n < |f|
    ensures SchemaOf(f) == Schema(SeriesType.Long, 0, Range(1, 1 + n), Range(1 + n, |f|))
  {
    LayoutFactors(f, n, |f|);
    LayoutValues(f, n, |f|);
  }

  // ----- a wide frame that can be pivoted back -----

  /** One shared, non-empty set of label keys, so that the long frame has factors for every column. */
  ghost predicate Labelled(c: Conversion, ks: set<GoString>)
    requires IndicesOk(c)
  {
    && ks != {} && c.vs != []
    && forall j :: 0 <= j < |c.vs| ==> c.wide[c.vs[j]].labels.Some? && c.wide[c.vs[j]].labels.value.Keys == ks
  }

  predicate IndicesOk(c: Conversion) { WL.IndicesOk(c.wide, c.vs) && |c.keys| == |c.vs| }

  /** The columns' vectors hold what their types say, times included. */
  ghost predicate Typed(c: Conversion)
    requires IndicesOk(c)
  {
    && c.t < |c.wide| && c.rows > 0 && WL.SameTypes(c.wide, c.vs, |c.vs|)
    && AllTyped(c.wide) && (forall i :: 0 <= i < |c.wide| ==> |c.wide[i].cells| == c.rows)
    && (forall i :: 0 <= i < c.rows ==> c.wide[c.t].cells[i].Val? && c.wide[c.t].cells[i].v.TimeVal?)
    && (forall j {:trigger IsFactor(c.wide[c.vs[j]])} :: 0 <= j < |c.vs| ==> !IsFactor(c.wide[c.vs[j]]))
  }

  lemma FactorsAreKeys(c: Conversion, ks: set<GoString>)
    requires c.Valid() && Labelled(c, ks)
    ensures Lists(c.Plan().factors, ks)
  {
    forall k ensures k in WL.FactorsOf(c.wide, c.vs, |c.vs|) <==> k in ks {
      WL.FactorsExact(c.wide, c.vs, |c.vs|, k);
      assert c.wide[c.vs[0]].labels.value.Keys == ks;
    }
    assert WL.FactorsOf(c.wide, c.vs, |c.vs|) == ks;
  }

  lemma SomeRows(c: Conversion)
    requires c.Valid() && c.rows > 0 && c.vs != []
    ensures c.Ids() != [] && c.Plan().names != []
  {
    GroupsExact(c, c.keys[0]);
    var g :| 0 <= g < |c.Plan().groups| && c.Plan().groups[g] == c.keys[0];
    EveryRowId(c.Plan().groups, c.rows, 0, g);
    var v := NameIndex(c, 0);
  }

  lemma LongLaidOut(c: Conversion, ks: set<GoString>)
    requires c.Valid() && Typed(c) && Labelled(c, ks)
    ensures LongLayout(c.Long(), |c.Plan().names|) && c.Plan().names != [] && c.Plan().factors != []
  {
    SomeRows(c);
    FactorsAreKeys(c, ks);
    ListEmpty(c.Plan().factors, ks);
    var n := |c.Plan().names|;
    forall j | 1 <= j <= n ensures !IsFactor(c.Long()[j]) {
      var d := NameHasColumn(c, j - 1);
      assert !IsFactor(c.wide[c.vs[d]]);
    }
  }

  lemma ValueFits(c: Conversion, r: nat, v: nat)
    requires c.Valid() && Typed(c) && r < |c.Ids()| && v < |c.Plan().names|
    ensures CellFits(c.Long()[1 + v].cells[r], c.Long()[1 + v].ftype)
  {
    ValueAt(c, r, v);
    var d := NameHasColumn(c, v);
    var j := LastColumn(c.wide, c.vs, c.keys, |c.vs|, c.Ids()[r].group, c.Plan().names[v]);
    if j >= 0 {
      assert c.wide[c.vs[j]].ftype == c.wide[c.vs[d]].ftype;
      assert WellTyped(c.wide[c.vs[j]]);
    }
  }

  lemma TimeAt(c: Conversion, r: nat)
    requires c.Valid() && Typed(c) && r < |c.Ids()|
    ensures c.Ids()[r].row < c.rows && c.Long()[0].cells[r] == c.wide[c.t].cells[c.Ids()[r].row]
  {
    assert WL.IdOk(c.Plan(), c.Ids()[r]);
    assert c.Long()[0].cells == WL.TimeCells(c.Plan(), c.Ids());
  }

  lemma LongIsTyped(c: Conversion, j: nat)
    requires c.Valid() && Typed(c) && j < |c.Long()|
    ensures |c.Long()[j].cells| == |c.Ids()| && WellTyped(c.Long()[j])
  {
    var f, n := c.Long(), |c.Plan().names|;
    forall r | 0 <= r < |c.Ids()| ensures |f[j].cells| == |c.Ids()| && CellFits(f[j].cells[r], f[j].ftype) {
      if j == 0 {
        TimeAt(c, r);
      } else if j <= n {
        ValueFits(c, r, j - 1);
      } else {
        var e := FactorAt(c, r, j - 1 - n);
      }
    }
  }

  // ----- the long frame as a series -----

  ghost predicate Ready(c: Conversion, ks: set<GoString>) { c.Valid() && Typed(c) && Labelled(c, ks) }

  ghost function SeriesFor(c: Conversion): RP.LongSeries
    requires c.Valid()
  {
    var n := |c.Plan().names|;
    RP.LongSeries(c.Long(), Schema(SeriesType.Long, 0, Range(1, 1 + n), Range(1 + n, |c.Long()|)), |c.Ids()|)
  }

  lemma SeriesValid(c: Conversion, ks: set<GoString>)
    requires Ready(c, ks)
    ensures SeriesFor(c).Valid() && SeriesFor(c) == LW.SeriesOf(c.Long())
    ensures RowLen(c.Long()) == Some(|c.Ids()|) && AllTyped(c.Long())
  {
    SomeRows(c);
    LongLaidOut(c, ks);
    LayoutSchema(c.Long(), |c.Plan().names|);
    forall j | 0 <= j < |c.Long()| ensures |c.Long()[j].cells| == |c.Ids()| && WellTyped(c.Long()[j]) {
      LongIsTyped(c, j);
    }
  }

  lemma SeriesTime(c: Conversion, ks: set<GoString>, r: nat)
    requires Ready(c, ks) && r < |c.Ids()|
    ensures SeriesFor(c).Valid() && c.Ids()[r].row < c.rows
    ensures SeriesFor(c).Time(r) == Some(c.wide[c.t].cells[c.Ids()[r].row].v.at)
  {
    SeriesValid(c, ks);
    TimeAt(c, r);
  }

  lemma SeriesNames(c: Conversion, ks: set<GoString>)
    requires Ready(c, ks)
    ensures SeriesFor(c).Valid() && SeriesFor(c).FactorNames() == c.Plan().factors && Distinct(c.Plan().factors)
  {
    SeriesValid(c, ks);
    forall i, j | 0 <= i < j < |c.Plan().factors| ensures c.Plan().factors[i] != c.Plan().factors[j] {
      LessTotal(c.Plan().factors[i], c.Plan().factors[j]);
    }
  }

  /** The text of the k-th factor is that label of the row's label set. */
  lemma SeriesText(c: Conversion, ks: set<GoString>, r: nat, k: nat) returns (e: nat)
    requires Ready(c, ks) && r < |c.Ids()| && k < |c.Plan().factors|
    ensures SeriesFor(c).Valid() && IsFactor(c.Long()[1 + |c.Plan().names| + k])
    ensures e < |c.vs| && c.keys[e] == c.Ids()[r].group && forall i :: 0 <= i < e ==> c.keys[i] != c.keys[e]
    ensures SeriesFor(c).Text(r, 1 + |c.Plan().names| + k) == LabelText(c.wide[c.vs[e]].labels, c.Plan().factors[k])
  {
    SeriesValid(c, ks);
    e := FactorAt(c, r, k);
  }

  // ----- label sets and series -----

  /** The label sets agree, malformed bytes blurred. */
  predicate SameSets(a: Labels, b: Labels) {
    a.Keys == b.Keys && forall k :: k in a ==> Units(a[k]) == Units(b[k])
  }

  lemma SetsHaveKeys(a: Labels, b: Labels)
    requires a.Keys == b.Keys
    ensures WL.LabelKey(Some(a)) == WL.LabelKey(Some(b)) <==> SameSets(a, b)
  {
    var ps, qs := WL.Tuples(a), WL.Tuples(b);
    MapKeyExact(ps, qs);
    assert forall i :: 0 <= i < |ps| ==> ps[i].key == qs[i].key;
    if SamePairs(ps, qs) {
      forall k | k in a ensures Units(a[k]) == Units(b[k]) {
        var i :| 0 <= i < |ps| && SortedList(a.Keys)[i] == k;
        assert ps[i].key == k && qs[i].key == k;
      }
    }
  }

  lemma SameKeySameSet(c: Conversion, ks: set<GoString>, d: nat, e: nat)
    requires Ready(c, ks) && WL.AreGroupKeys(c.wide, c.vs, c.keys) && d < |c.vs| && e < |c.vs|
    ensures c.keys[d] == c.keys[e] <==> SameSets(c.wide[c.vs[d]].labels.value, c.wide[c.vs[e]].labels.value)
  {
    var a, b := c.wide[c.vs[d]].labels, c.wide[c.vs[e]].labels;
    assert c.keys[d] == WL.LabelKey(a) && c.keys[e] == WL.LabelKey(b);
    SetsHaveKeys(a.value, b.value);
  }

  /** The texts of `l`'s values are those of row `r`. */
  ghost predicate TextsAre(s: RP.LongSeries, r: nat, fs: seq<GoString>, l: Labels)
    requires s.Valid() && r < s.rows
  {
    && |s.sch.factorIndices| == |fs| && Lists(fs, l.Keys)
    && forall k :: 0 <= k < |fs| ==> s.Text(r, s.sch.factorIndices[k]) == l[fs[k]]
  }

  lemma FactorsSized(c: Conversion, ks: set<GoString>)
    requires Ready(c, ks)
    ensures SeriesFor(c).Valid() && |SeriesFor(c).sch.factorIndices| == |c.Plan().factors| > 0
    ensures forall k :: 0 <= k < |c.Plan().factors| ==> SeriesFor(c).sch.factorIndices[k] == 1 + |c.Plan().names| + k
  {
    SeriesValid(c, ks);
    LongLaidOut(c, ks);
  }

  lemma RowText(c: Conversion, ks: set<GoString>, r: nat, d: nat, k: nat)
    requires Ready(c, ks) && r < |c.Ids()| && k < |c.Plan().factors| && SeriesFor(c).Valid()
    requires |SeriesFor(c).sch.factorIndices| == |c.Plan().factors|
    requires SeriesFor(c).sch.factorIndices[k] == 1 + |c.Plan().names| + k
    requires d < |c.vs| && c.keys[d] == c.Ids()[r].group && forall i :: 0 <= i < d ==> c.keys[i] != c.keys[d]
    ensures SeriesFor(c).Text(r, SeriesFor(c).sch.factorIndices[k]) == LabelText(c.wide[c.vs[d]].labels, c.Plan().factors[k])
  {
    var e := SeriesText(c, ks, r, k);
    assert d == e by {
      assert !(d < e) && !(e < d);
    }
  }

  lemma RowTexts(c: Conversion, ks: set<GoString>, r: nat) returns (d: nat)
    requires Ready(c, ks) && r < |c.Ids()|
    ensures SeriesFor(c).Valid() && d < |c.vs| && c.keys[d] == c.Ids()[r].group
    ensures TextsAre(SeriesFor(c), r, c.Plan().factors, c.wide[c.vs[d]].labels.value)
  {
    FactorsSized(c, ks);
    FactorsAreKeys(c, ks);
    d := SeriesText(c, ks, r, 0);
    var s, fs, l := SeriesFor(c), c.Plan().factors, c.wide[c.vs[d]].labels.value;
    forall k | 0 <= k < |fs| ensures s.Text(r, s.sch.factorIndices[k]) == l[fs[k]] {
      RowText(c, ks, r, d, k);
      assert fs[k] in l;
    }
  }

  lemma TextsTellSets(c: Conversion, ks: set<GoString>, s: RP.LongSeries, fs: seq<GoString>, r: nat, q: nat, d: nat, e: nat)
    requires Ready(c, ks) && WL.AreGroupKeys(c.wide, c.vs, c.keys) && d < |c.vs| && e < |c.vs|
    requires s.Valid() && r < s.rows && q < s.rows
    requires TextsAre(s, r, fs, c.wide[c.vs[d]].labels.value) && TextsAre(s, q, fs, c.wide[c.vs[e]].labels.value)
    ensures LW.Alike(s, r, q) <==> c.keys[d] == c.keys[e]
  {
    SameKeySameSet(c, ks, d, e);
    AlikeByText(s, fs, r, q, c.wide[c.vs[d]].labels.value, c.wide[c.vs[e]].labels.value);
  }

  /** Rows of the long frame are one series exactly when they come from one label set. */
  lemma SeriesAreGroups(c: Conversion, ks: set<GoString>, r: nat, q: nat)
    requires Ready(c, ks) && WL.AreGroupKeys(c.wide, c.vs, c.keys) && r < |c.Ids()| && q < |c.Ids()|
    ensures SeriesFor(c).Valid() && (LW.Alike(SeriesFor(c), r, q) <==> c.Ids()[r].group == c.Ids()[q].group)
  {
    var d := RowTexts(c, ks, r);
    var e := RowTexts(c, ks, q);
    TextsTellSets(c, ks, SeriesFor(c), c.Plan().factors, r, q, d, e);
  }

  lemma AlikeByText(s: RP.LongSeries, fs: seq<GoString>, r: nat, q: nat, a: Labels, b: Labels)
    requires s.Valid() && r < s.rows && q < s.rows && a.Keys == b.Keys && TextsAre(s, r, fs, a) && TextsAre(s, q, fs, b)
    ensures LW.Alike(s, r, q) <==> SameSets(a, b)
  {
    if LW.Alike(s, r, q) {
      forall l | l in a ensures Units(a[l]) == Units(b[l]) {
        var k :| 0 <= k < |fs| && fs[k] == l;
      }
    }
    if SameSets(a, b) {
      forall k | 0 <= k < |fs|
        ensures Units(s.Text(r, s.sch.factorIndices[k])) == Units(s.Text(q, s.sch.factorIndices[k]))
      {
        assert fs[k] in a;
      }
    }
  }

  // ----- labels and types of the columns to come -----

  lemma LabelsOfTexts(ps: seq<Pair>, fs: seq<GoString>, l: Labels)
    requires |ps| == |fs| && Lists(fs, l.Keys) && Distinct(fs)
    requires forall k :: 0 <= k < |fs| ==> ps[k] == Pair(fs[k], l[fs[k]])
    ensures LabelsOf(ps, |ps|) == l
  {
    var m := LabelsOf(ps, |ps|);
    forall k ensures k in m <==> k in l {
      if k in l {
        var i :| 0 <= i < |fs| && fs[i] == k;
        assert ps[i].key == k;
      }
    }
    forall k | k in l ensures m[k] == l[k] { LabelOfText(ps, fs, l, k); }
  }

  lemma LabelOfText(ps: seq<Pair>, fs: seq<GoString>, l: Labels, k: GoString)
    requires |ps| == |fs| && Lists(fs, l.Keys) && Distinct(fs) && k in l
    requires forall k :: 0 <= k < |fs| ==> ps[k] == Pair(fs[k], l[fs[k]])
    ensures k in LabelsOf(ps, |ps|) && LabelsOf(ps, |ps|)[k] == l[k]
  {
    var i :| 0 <= i < |fs| && fs[i] == k;
    LabelsLookup(ps, |ps|, i);
  }

  lemma NamedPairs(s: RP.LongSeries, r: nat, fs: seq<GoString>, l: Labels)
    requires s.Valid() && r < s.rows && TextsAre(s, r, fs, l) && s.FactorNames() == fs
    ensures var ps := s.NamedKey(r); |ps| == |fs| && forall k :: 0 <= k < |fs| ==> ps[k] == Pair(fs[k], l[fs[k]])
  {
    forall k | 0 <= k < |fs| ensures s.NamedKey(r)[k] == Pair(fs[k], l[fs[k]]) {
      assert s.FactorNames()[k] == fs[k];
    }
  }

  /** The labels LongToWide makes of a row are those of a column of the row's label set. */
  lemma SeriesLabels(c: Conversion, ks: set<GoString>, r: nat) returns (d: nat)
    requires Ready(c, ks) && r < |c.Ids()|
    ensures SeriesFor(c).Valid() && d < |c.vs| && c.keys[d] == c.Ids()[r].group
    ensures LabelsOf(SeriesFor(c).NamedKey(r), |SeriesFor(c).sch.factorIndices|) == c.wide[c.vs[d]].labels.value
  {
    d := RowTexts(c, ks, r);
    SeriesNames(c, ks);
    var s, fs, l := SeriesFor(c), c.Plan().factors, c.wide[c.vs[d]].labels.value;
    NamedPairs(s, r, fs, l);
    LabelsOfTexts(s.NamedKey(r), fs, l);
  }

  /** The long column of a wide column's name. */
  lemma NameColumn(c: Conversion, d: nat) returns (u: nat)
    requires c.Valid() && d < |c.vs|
    ensures 1 <= u <= |c.Plan().names| && c.Plan().names[u - 1] == c.wide[c.vs[d]].name
  {
    var v := NameIndex(c, d);
    u := v + 1;
  }

  lemma ColumnType(c: Conversion, u: nat, d: nat)
    requires c.Valid() && Typed(c) && d < |c.vs| && 1 <= u <= |c.Plan().names|
    requires c.Plan().names[u - 1] == c.wide[c.vs[d]].name
    ensures c.Long()[u].name == c.wide[c.vs[d]].name && c.Long()[u].ftype == c.wide[c.vs[d]].ftype
  {
    var e := NameHasColumn(c, u - 1);
  }

  lemma ValueInColumn(c: Conversion, r: nat, u: nat)
    requires c.Valid() && r < |c.Ids()| && 1 <= u <= |c.Plan().names|
    ensures var id, name := c.Ids()[r], c.Plan().names[u - 1];
            var j := LastColumn(c.wide, c.vs, c.keys, |c.vs|, id.group, name);
            && id.row < c.rows && |c.Long()[u].cells| == |c.Ids()|
            && c.Long()[u].cells[r] == if j >= 0 then c.wide[c.vs[j]].cells[id.row] else Zero(c.Plan().types[name])
  {
    ValueAt(c, r, u - 1);
  }
}
