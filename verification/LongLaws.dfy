/** What `WideToLong` makes of a frame, said of the cells of the two frames alone (data/time_series.go). */
module LongLaws {
  import opened GoText
  import opened Outcomes
  import opened Frames
  import opened SortedKeys
  import opened LongRows
  import opened LongSide
  import opened WideLongWide
  import WL = WideToLong
  import LS = LongShape

  /** The labels as a map; nil is the empty one. */
  function Set(labels: Option<Labels>): Labels { if labels.Some? then labels.value else map[] }

  /** Column `b` is a value column with the labels of column `a`. */
  predicate Beside(w: Frame, a: nat, b: nat)
    requires a < |w|
  {
    b < |w| && b != TimeIndex(w) && Set(w[b].labels) == Set(w[a].labels)
  }

  /** The last column with the labels of column `a` and this name. */
  predicate LastNamed(w: Frame, a: nat, name: GoString, b: nat)
    requires a < |w|
  {
    Beside(w, a, b) && w[b].name == name && forall c: nat :: b < c < |w| && Beside(w, a, c) ==> w[c].name != name
  }

  /** The zero value of a column that is neither string nor bool; null if it is nullable. */
  predicate IsZero(t: FieldType, cell: Cell) {
    if t.nullable then cell == Null
    else
      match cell
      case Val(NumVal(n)) => n == 0
      case Val(OtherVal(n)) => n == 0
      case Val(TimeVal(at)) => at == -62135596800 * 1000000000
      case _ => false
  }

  /** A value cell of the row of wide row `i` and the labels of column `a`. */
  predicate ValueIs(w: Frame, a: nat, i: nat, f: Field, cell: Cell)
    requires a < |w|
  {
    && (forall b: nat :: b < |w| && LastNamed(w, a, f.name, b) ==> i < |w[b].cells| && cell == w[b].cells[i])
    && ((forall b: nat :: b < |w| && Beside(w, a, b) ==> w[b].name != f.name) ==> IsZero(f.ftype, cell))
  }

  /** A factor cell: the label of that name, or "". */
  predicate FactorIs(w: Frame, a: nat, f: Field, cell: Cell)
    requires a < |w|
  {
    cell == Val(StrVal(if f.name in Set(w[a].labels) then Set(w[a].labels)[f.name] else []))
  }

  /** Long row `r` stands for wide row `i` and the labels of column `a`; `n` columns hold values. */
  predicate StandsFor(w: Frame, g: Frame, n: nat, a: nat, i: nat, r: nat) {
    && a < |w| && a != TimeIndex(w) && TimeIndex(w) < |w| && i < |w[TimeIndex(w)].cells|
    && 1 + n <= |g| && InRows(g, r) && g[0].cells[r] == w[TimeIndex(w)].cells[i]
    && ValuesStand(w, g, n, a, i, r) && FactorsStand(w, g, n, a, r)
  }

  predicate InRows(g: Frame, r: nat) { forall j :: 0 <= j < |g| ==> r < |g[j].cells| }

  predicate ValuesStand(w: Frame, g: Frame, n: nat, a: nat, i: nat, r: nat)
    requires a < |w| && 1 + n <= |g| && InRows(g, r)
  {
    forall j :: 1 <= j <= n ==> ValueIs(w, a, i, g[j], g[j].cells[r])
  }

  predicate FactorsStand(w: Frame, g: Frame, n: nat, a: nat, r: nat)
    requires a < |w| && InRows(g, r)
  {
    forall j: nat :: n < j < |g| ==> FactorIs(w, a, g[j], g[j].cells[r])
  }

  /** The long columns: the time; the value names with their types, in order; the label keys, in order, as strings. */
  ghost predicate Shaped(w: Frame, g: Frame, n: nat) {
    && 1 + n <= |g| && TimeIndex(w) < |w| && (forall j :: 0 <= j < |g| ==> g[j].labels.None?)
    && g[0].name == w[TimeIndex(w)].name && g[0].ftype == FieldType(TimeKind, false)
    && Rising(g, 1, 1 + n) && Rising(g, 1 + n, |g|) && ValuesShaped(w, g, n) && FactorsShaped(w, g, n)
  }

  predicate Rising(g: Frame, lo: nat, hi: nat)
    requires hi <= |g|
  {
    forall j, l :: lo <= j < l < hi ==> Less(g[j].name, g[l].name)
  }

  predicate ValuesShaped(w: Frame, g: Frame, n: nat)
    requires 1 + n <= |g|
  {
    && (forall j :: 1 <= j <= n ==> HasNamed(w, g[j].name, g[j].ftype))
    && (forall a: nat :: a < |w| && a != TimeIndex(w) ==> IsNamed(g, 1, 1 + n, w[a].name))
  }

  ghost predicate FactorsShaped(w: Frame, g: Frame, n: nat) {
    && (forall j: nat :: n < j < |g| ==> g[j].ftype == FieldType(StringKind, false) && HasLabel(w, g[j].name))
    && (forall k :: HasLabel(w, k) ==> IsNamed(g, 1 + n, |g|, k))
  }

  predicate HasNamed(w: Frame, name: GoString, t: FieldType) {
    exists a :: 0 <= a < |w| && a != TimeIndex(w) && w[a].name == name && w[a].ftype == t
  }

  predicate HasLabel(w: Frame, k: GoString) { exists a :: 0 <= a < |w| && a != TimeIndex(w) && k in Set(w[a].labels) }

  predicate IsNamed(g: Frame, lo: nat, hi: nat, name: GoString) {
    exists j :: lo <= j < hi && j < |g| && g[j].name == name
  }

  // ----- columns by number and by place among the value columns -----

  lemma WideFacts(w: Frame)
    requires WL.Accepted(w)
    ensures SchemaOf(w).timeIndex == TimeIndex(w) < |w| && WL.IndicesOk(w, SchemaOf(w).valueIndices)
    ensures forall d :: 0 <= d < |SchemaOf(w).valueIndices| ==> SchemaOf(w).valueIndices[d] != TimeIndex(w)
  {
    SeriesTypeExact(w);
  }

  /** Where a column is among the value columns. */
  lemma PlaceOf(w: Frame, a: nat) returns (d: nat)
    requires WL.Accepted(w) && a < |w| && a != TimeIndex(w)
    ensures d < |SchemaOf(w).valueIndices| && SchemaOf(w).valueIndices[d] == a
  {
    SeriesTypeExact(w);
    IndicesComplete(w, TimeIndex(w), |w|, a);
    assert !HasFactor(w);
    assert !IsFactor(w[a]);
    d :| 0 <= d < |SchemaOf(w).valueIndices| && SchemaOf(w).valueIndices[d] == a;
  }

  ghost predicate LabelsOk(w: Frame) { forall a :: 0 <= a < |w| ==> LS.LabelsValid(Set(w[a].labels)) }

  /** One key, one set of labels. */
  lemma KeysAreSets(w: Frame, c: Conversion, d: nat, e: nat)
    requires WL.Accepted(w) && LabelsOk(w) && WL.IndicesOk(w, c.vs) && c.wide == w && |c.keys| == |c.vs|
    requires WL.AreGroupKeys(w, c.vs, c.keys) && d < |c.vs| && e < |c.vs|
    ensures c.keys[d] == c.keys[e] <==> Set(w[c.vs[d]].labels) == Set(w[c.vs[e]].labels)
  {
    assert c.keys[d] == WL.LabelKey(w[c.vs[d]].labels) && c.keys[e] == WL.LabelKey(w[c.vs[e]].labels);
    assert LS.LabelsValid(Set(w[c.vs[d]].labels)) && LS.LabelsValid(Set(w[c.vs[e]].labels));
    LS.LabelKeyExact(w[c.vs[d]].labels, w[c.vs[e]].labels);
  }

  // ----- rows -----

  /** The conversion, and what it knows. */
  ghost predicate Known(w: Frame, c: Conversion) {
    && WL.Accepted(w) && LabelsOk(w) && c.wide == w && c.t == TimeIndex(w) && c.Valid() && Typed(c)
    && c.vs == SchemaOf(w).valueIndices && WL.AreGroupKeys(w, c.vs, c.keys)
  }

  lemma KnownConversion(w: Frame)
    requires WL.Accepted(w) && LabelsOk(w)
    ensures WL.IndicesOk(w, SchemaOf(w).valueIndices) && Known(w, ConversionOf(w)) && ConversionOf(w).Long() == WL.LongOf(w)
  {
    WideFacts(w);
    ConversionIsLong(w);
    AcceptedIsTyped(w);
  }

  lemma ZeroIs(t: FieldType)
    requires !t.kind.StringKind? && !t.kind.BoolKind?
    ensures IsZero(t, Zero(t))
  {
  }

  lemma BesideIs(w: Frame, c: Conversion, d: nat, e: nat)
    requires Known(w, c) && d < |c.vs| && e < |c.vs|
    ensures Beside(w, c.vs[d], c.vs[e]) <==> c.keys[d] == c.keys[e]
  {
    WideFacts(w);
    KeysAreSets(w, c, d, e);
  }

  lemma LastInPlace(w: Frame, vs: seq<nat>, keys: seq<GoString>, d: nat, name: GoString, e: int, i: nat)
    requires WL.IndicesOk(w, vs) && |keys| == |vs| && d < |vs| && i < |vs| && keys[i] == keys[d] && w[vs[i]].name == name
    requires forall x, y :: 0 <= x < y < |vs| ==> vs[x] < vs[y]
    requires e == LastColumn(w, vs, keys, |vs|, keys[d], name) && (e >= 0 ==> Beside(w, vs[d], vs[e]))
    requires LastNamed(w, vs[d], name, vs[i])
    ensures e == i
  {
  }

  lemma LastIsAt(w: Frame, c: Conversion, d: nat, name: GoString, e: int, b: nat)
    requires Known(w, c) && d < |c.vs| && c.vs[d] < |w| && b < |w| && LastNamed(w, c.vs[d], name, b)
    requires e == LastColumn(c.wide, c.vs, c.keys, |c.vs|, c.keys[d], name)
    requires e >= 0 ==> c.vs[e] < |w| && Beside(w, c.vs[d], c.vs[e])
    ensures e >= 0 && b == c.vs[e]
  {
    var i := PlaceOf(w, b);
    BesideIs(w, c, d, i);
    LastInPlace(w, c.vs, c.keys, d, name, e, i);
  }

  lemma LastIs(w: Frame, c: Conversion, d: nat, name: GoString, e: int)
    requires Known(w, c) && d < |c.vs| && e == LastColumn(c.wide, c.vs, c.keys, |c.vs|, c.keys[d], name)
    ensures c.vs[d] < |w|
    ensures forall b: nat :: b < |w| && LastNamed(w, c.vs[d], name, b) ==> e >= 0 && b == c.vs[e]
    ensures e >= 0 ==> Beside(w, c.vs[d], c.vs[e]) && w[c.vs[e]].name == name
  {
    if e >= 0 { BesideIs(w, c, d, e); }
    forall b: nat | b < |w| && LastNamed(w, c.vs[d], name, b) ensures e >= 0 && b == c.vs[e] { LastIsAt(w, c, d, name, e, b); }
  }

  /** Column `v` of the names is long column `j`. */
  lemma ValueCellIs(w: Frame, c: Conversion, d: nat, r: nat, v: nat, j: nat)
    requires Known(w, c) && d < |c.vs| && r < |c.Ids()| && c.Ids()[r].group == c.keys[d] && v < |c.Plan().names| && j == 1 + v
    ensures r < |c.Long()[j].cells| && c.vs[d] < |w|
    ensures ValueIs(w, c.vs[d], c.Ids()[r].row, c.Long()[j], c.Long()[j].cells[r])
  {
    ValueAt(c, r, v);
    var name := c.Plan().names[v];
    var e := LastColumn(c.wide, c.vs, c.keys, |c.vs|, c.keys[d], name);
    LastIs(w, c, d, name, e);
    var i := NameHasColumn(c, v);
    assert !IsFactor(c.wide[c.vs[i]]);
    ZeroIs(c.Plan().types[name]);
  }

  /** Column `k` of the label keys is long column `j`. */
  lemma FactorCellIs(w: Frame, c: Conversion, d: nat, r: nat, k: nat, j: nat)
    requires Known(w, c) && d < |c.vs| && r < |c.Ids()| && c.Ids()[r].group == c.keys[d] && k < |c.Plan().factors|
    requires j == 1 + |c.Plan().names| + k
    ensures r < |c.Long()[j].cells| && c.vs[d] < |w| && FactorIs(w, c.vs[d], c.Long()[j], c.Long()[j].cells[r])
  {
    var e := FactorAt(c, r, k);
    KeysAreSets(w, c, d, e);
  }

  lemma RowsThere(w: Frame, c: Conversion, r: nat)
    requires Known(w, c) && r < |c.Ids()|
    ensures InRows(c.Long(), r)
  {
    var g := c.Long();
    forall j | 0 <= j < |g| ensures r < |g[j].cells| { LongIsTyped(c, j); }
  }

  lemma ValuesStandHere(w: Frame, c: Conversion, g: Frame, n: nat, d: nat, r: nat)
    requires Known(w, c) && d < |c.vs| && c.vs[d] < |w| && r < |c.Ids()| && c.Ids()[r].group == c.keys[d]
    requires g == c.Long() && n == |c.Plan().names| && 1 + n <= |g| && InRows(g, r)
    ensures ValuesStand(w, g, n, c.vs[d], c.Ids()[r].row, r)
  {
    forall j: nat | 1 <= j <= n ensures ValueIs(w, c.vs[d], c.Ids()[r].row, g[j], g[j].cells[r]) { ValueCellIs(w, c, d, r, j - 1, j); }
  }

  lemma FactorsStandHere(w: Frame, c: Conversion, g: Frame, n: nat, d: nat, r: nat)
    requires Known(w, c) && d < |c.vs| && c.vs[d] < |w| && r < |c.Ids()| && c.Ids()[r].group == c.keys[d]
    requires g == c.Long() && n == |c.Plan().names| && InRows(g, r)
    ensures FactorsStand(w, g, n, c.vs[d], r)
  {
    forall j: nat | n < j < |g| ensures FactorIs(w, c.vs[d], g[j], g[j].cells[r]) { FactorCellIs(w, c, d, r, j - 1 - n, j); }
  }

  lemma RowStands(w: Frame, c: Conversion, d: nat, r: nat)
    requires Known(w, c) && d < |c.vs| && r < |c.Ids()| && c.Ids()[r].group == c.keys[d]
    ensures StandsFor(w, c.Long(), |c.Plan().names|, c.vs[d], c.Ids()[r].row, r)
  {
    WideFacts(w);
    TimeAt(c, r);
    RowsThere(w, c, r);
    ValuesStandHere(w, c, c.Long(), |c.Plan().names|, d, r);
    FactorsStandHere(w, c, c.Long(), |c.Plan().names|, d, r);
  }

  // ----- the long frame -----

  lemma ValueHead(w: Frame, c: Conversion, j: nat)
    requires Known(w, c) && 1 <= j <= |c.Plan().names|
    ensures j < |c.Long()| && HasNamed(w, c.Long()[j].name, c.Long()[j].ftype)
  {
    WideFacts(w);
    var d := NameHasColumn(c, j - 1);
    assert w[c.vs[d]].name == c.Long()[j].name;
  }

  lemma ValueNamed(w: Frame, c: Conversion, a: nat)
    requires Known(w, c) && a < |w| && a != TimeIndex(w)
    ensures IsNamed(c.Long(), 1, 1 + |c.Plan().names|, w[a].name)
  {
    var d := PlaceOf(w, a);
    var v := NameIndex(c, d);
    assert c.Long()[1 + v].name == w[a].name;
  }

  /** Column `i` of the label keys is long column `j`. */
  lemma FactorColumn(c: Conversion, i: nat, j: nat)
    requires c.Valid() && i < |c.Plan().factors| && j == 1 + |c.Plan().names| + i
    ensures j < |c.Long()| && c.Long()[j].name == c.Plan().factors[i] && c.Long()[j].ftype == FieldType(StringKind, false)
  {
  }

  lemma FactorHead(w: Frame, c: Conversion, j: nat)
    requires Known(w, c) && |c.Plan().names| < j < |c.Long()|
    ensures c.Long()[j].ftype == FieldType(StringKind, false) && HasLabel(w, c.Long()[j].name)
  {
    var fs, i := c.Plan().factors, j - 1 - |c.Plan().names|;
    LongWidth(c);
    FactorColumn(c, i, j);
    assert fs[i] in fs;
    LabelsAreFactors(w, c, fs[i]);
  }

  lemma LongWidth(c: Conversion)
    requires c.Valid()
    ensures |c.Long()| == 1 + |c.Plan().names| + |c.Plan().factors|
  {
  }

  lemma FactorNamed(w: Frame, c: Conversion, k: GoString)
    requires Known(w, c) && HasLabel(w, k)
    ensures IsNamed(c.Long(), 1 + |c.Plan().names|, |c.Long()|, k)
  {
    var fs, n := c.Plan().factors, |c.Plan().names|;
    LabelsAreFactors(w, c, k);
    var i :| 0 <= i < |fs| && fs[i] == k;
    FactorColumn(c, i, 1 + n + i);
  }

  lemma ValueColumns(w: Frame, c: Conversion, g: Frame, n: nat)
    requires Known(w, c) && g == c.Long() && n == |c.Plan().names| && 1 + n <= |g|
    ensures ValuesShaped(w, g, n)
  {
    forall j: nat | 1 <= j <= n ensures HasNamed(w, g[j].name, g[j].ftype) { ValueHead(w, c, j); }
    forall a: nat | a < |w| && a != TimeIndex(w) ensures IsNamed(g, 1, 1 + n, w[a].name) { ValueNamed(w, c, a); }
  }

  lemma FactorColumns(w: Frame, c: Conversion, g: Frame, n: nat)
    requires Known(w, c) && g == c.Long() && n == |c.Plan().names|
    ensures FactorsShaped(w, g, n)
  {
    forall j: nat | n < j < |g| ensures g[j].ftype == FieldType(StringKind, false) && HasLabel(w, g[j].name) {
      FactorHead(w, c, j);
    }
    forall k | HasLabel(w, k) ensures IsNamed(g, 1 + n, |g|, k) { FactorNamed(w, c, k); }
  }

  lemma NamesRise(w: Frame, c: Conversion)
    requires Known(w, c)
    ensures 1 + |c.Plan().names| <= |c.Long()|
    ensures Rising(c.Long(), 1, 1 + |c.Plan().names|) && Rising(c.Long(), 1 + |c.Plan().names|, |c.Long()|)
  {
    var g, p, n := c.Long(), c.Plan(), |c.Plan().names|;
    forall j, l | 1 <= j < l < 1 + n ensures Less(g[j].name, g[l].name) { assert Less(p.names[j - 1], p.names[l - 1]); }
    forall j, l | 1 + n <= j < l < |g| ensures Less(g[j].name, g[l].name) {
      assert Less(p.factors[j - 1 - n], p.factors[l - 1 - n]);
    }
  }

  lemma ColumnsShaped(w: Frame, c: Conversion)
    requires Known(w, c)
    ensures Shaped(w, c.Long(), |c.Plan().names|)
  {
    WideFacts(w);
    NamesRise(w, c);
    ValueColumns(w, c, c.Long(), |c.Plan().names|);
    FactorColumns(w, c, c.Long(), |c.Plan().names|);
  }

  lemma LabelsAreFactors(w: Frame, c: Conversion, k: GoString)
    requires Known(w, c)
    ensures HasLabel(w, k) <==> k in c.Plan().factors
  {
    WL.FactorsExact(w, c.vs, |c.vs|, k);
    assert k in c.Plan().factors <==> k in WL.FactorsOf(w, c.vs, |c.vs|);
    WideFacts(w);
    if HasLabel(w, k) {
      var a: nat :| a < |w| && a != TimeIndex(w) && k in Set(w[a].labels);
      var d := PlaceOf(w, a);
    }
  }

  /** The long frame's columns, and which rows they have: every wide row and value column have a long row, and every long
      row is that of some. */
  lemma LongFrameIs(w: Frame) returns (n: nat)
    requires WL.Accepted(w) && LabelsOk(w)
    ensures Shaped(w, WL.LongOf(w), n)
    ensures forall a: nat, i: nat :: a < |w| && a != TimeIndex(w) && i < |w[TimeIndex(w)].cells| ==> HasRow(w, WL.LongOf(w), n, a, i)
    ensures forall r: nat :: r < |WL.LongOf(w)[0].cells| ==> IsRow(w, WL.LongOf(w), n, r)
  {
    KnownConversion(w);
    var c := ConversionOf(w);
    n := |c.Plan().names|;
    ColumnsShaped(w, c);
    forall a: nat, i: nat | a < |w| && a != TimeIndex(w) && i < |w[TimeIndex(w)].cells| ensures HasRow(w, c.Long(), n, a, i) {
      RowOfColumn(w, c, a, i);
    }
    forall r: nat | r < |c.Long()[0].cells| ensures IsRow(w, c.Long(), n, r) { ColumnOfRow(w, c, r); }
  }

  ghost predicate HasRow(w: Frame, g: Frame, n: nat, a: nat, i: nat) { exists r: nat :: StandsFor(w, g, n, a, i, r) }

  ghost predicate IsRow(w: Frame, g: Frame, n: nat, r: nat) { exists a: nat, i: nat :: StandsFor(w, g, n, a, i, r) }

  lemma RowOfColumn(w: Frame, c: Conversion, a: nat, i: nat)
    requires Known(w, c) && a < |w| && a != TimeIndex(w) && i < |w[TimeIndex(w)].cells|
    ensures HasRow(w, c.Long(), |c.Plan().names|, a, i)
  {
    var d := PlaceOf(w, a);
    var r := RowOf(c, i, c.keys[d]);
    RowStands(w, c, d, r);
  }

  lemma ColumnOfRow(w: Frame, c: Conversion, r: nat)
    requires Known(w, c) && c.Long() != [] && r < |c.Long()[0].cells|
    ensures IsRow(w, c.Long(), |c.Plan().names|, r)
  {
    assert c.Long()[0].cells == WL.TimeCells(c.Plan(), c.Ids());
    assert WL.IdOk(c.Plan(), c.Ids()[r]);
    GroupsExact(c, c.Ids()[r].group);
    var d :| 0 <= d < |c.keys| && c.keys[d] == c.Ids()[r].group;
    RowStands(w, c, d, r);
  }

  // ----- the order of the rows -----

  predicate PairsOf(ps: seq<Pair>, l: Labels) {
    && (forall i, j :: 0 <= i < j < |ps| ==> Less(ps[i].key, ps[j].key))
    && (forall i :: 0 <= i < |ps| ==> ps[i].key in l && l[ps[i].key] == ps[i].value)
    && |ps| == |l|
  }

  /** The text that stands for a label set: a JSON array of its pairs in the order of their keys. */
  ghost predicate KeyText(l: Labels, t: GoString) {
    exists ps :: PairsOf(ps, l) && t == [0x5B] + Commas(PairTexts(ps)) + [0x5D]
  }

  lemma TuplesAreAll(l: Labels)
    ensures PairsOf(WL.Tuples(l), l)
  {
    LS.ListSize(SortedList(l.Keys), l.Keys);
    assert |l.Keys| == |l|;
  }

  lemma LabelKeyIs(labels: Option<Labels>)
    ensures KeyText(Set(labels), WL.LabelKey(labels))
  {
    TuplesAreAll(Set(labels));
    MapKeyIs(WL.Tuples(Set(labels)));
  }

  /** The row of wide row `i` and column `a` may come before that of `j` and `b`. */
  ghost predicate ComesFirst(w: Frame, a: nat, i: nat, b: nat, j: nat)
    requires a < |w| && b < |w|
  {
    i < j || (i == j && exists s, t :: KeyText(Set(w[a].labels), s) && KeyText(Set(w[b].labels), t) && Less(s, t))
  }

  lemma RowsInOrder(w: Frame, c: Conversion, r: nat, q: nat) returns (a: nat, i: nat, b: nat, j: nat)
    requires Known(w, c) && r < q < |c.Ids()|
    ensures StandsFor(w, c.Long(), |c.Plan().names|, a, i, r) && StandsFor(w, c.Long(), |c.Plan().names|, b, j, q)
    ensures ComesFirst(w, a, i, b, j)
  {
    var d, e := GroupColumn(c, r), GroupColumn(c, q);
    RowStands(w, c, d, r);
    RowStands(w, c, e, q);
    a, i, b, j := c.vs[d], c.Ids()[r].row, c.vs[e], c.Ids()[q].row;
    RowIdsInOrder(c.Plan().groups, c.rows, r, q);
    assert c.keys[d] == WL.LabelKey(w[c.vs[d]].labels) && c.keys[e] == WL.LabelKey(w[c.vs[e]].labels);
    LabelKeyIs(w[a].labels);
    LabelKeyIs(w[b].labels);
  }

  ghost function GroupColumn(c: Conversion, r: nat): (d: nat)
    requires c.Valid() && r < |c.Ids()|
    ensures d < |c.vs| && c.keys[d] == c.Ids()[r].group
  {
    GroupIsKey(c, r);
    var d :| 0 <= d < |c.vs| && c.keys[d] == c.Ids()[r].group;
    d
  }

  lemma GroupIsKey(c: Conversion, r: nat)
    requires c.Valid() && r < |c.Ids()|
    ensures c.Ids()[r].group in c.keys
  {
    assert WL.IdOk(c.Plan(), c.Ids()[r]);
    GroupsExact(c, c.Ids()[r].group);
  }

  ghost predicate Ordered(w: Frame, g: Frame, n: nat, r: nat, q: nat) {
    exists a: nat, i: nat, b: nat, j: nat ::
      StandsFor(w, g, n, a, i, r) && StandsFor(w, g, n, b, j, q) && ComesFirst(w, a, i, b, j)
  }

  /** The long rows come in the order of the wide rows, and for one wide row in the order of the label sets' texts. */
  lemma LongRowsOrdered(w: Frame, r: nat, q: nat) returns (n: nat)
    requires WL.Accepted(w) && LabelsOk(w) && WL.LongOf(w) != [] && r < q < |WL.LongOf(w)[0].cells|
    ensures Shaped(w, WL.LongOf(w), n) && Ordered(w, WL.LongOf(w), n, r, q)
  {
    KnownConversion(w);
    var c := ConversionOf(w);
    n := |c.Plan().names|;
    ColumnsShaped(w, c);
    assert c.Long()[0].cells == WL.TimeCells(c.Plan(), c.Ids());
    var a, i, b, j := RowsInOrder(w, c, r, q);
  }

  // ----- which frames are refused -----

  predicate SameLengths(f: Frame) { forall j :: 0 <= j < |f| ==> |f[j].cells| == |f[0].cells| }

  /** Two value columns of one name have different types. */
  predicate TypesClash(w: Frame) {
    exists a, b :: 0 <= a < |w| && 0 <= b < |w| && a != TimeIndex(w) && b != TimeIndex(w) && Clashes(w[a], w[b])
  }

  predicate Clashes(a: Field, b: Field) { a.name == b.name && a.ftype != b.ftype }

  predicate SomeTimeMissing(w: Frame)
    requires TimeIndex(w) < |w|
  {
    exists i :: 0 <= i < |w[TimeIndex(w)].cells| && MissingAt(w, i)
  }

  predicate MissingAt(w: Frame, i: nat) { TimeIndex(w) < |w| && i < |w[TimeIndex(w)].cells| && w[TimeIndex(w)].cells[i].Null? }

  lemma PlaceThere(w: Frame, a: nat)
    requires IsSeries(w) && !HasFactor(w) && a < |w| && a != TimeIndex(w)
    ensures a in SchemaOf(w).valueIndices
  {
    SeriesTypeExact(w);
    assert !IsFactor(w[a]);
  }

  lemma ClashSeen(w: Frame, vs: seq<nat>, a: nat, b: nat)
    requires WL.IndicesOk(w, vs) && a in vs && b in vs && Clashes(w[a], w[b])
    ensures !WL.SameTypes(w, vs, |vs|)
  {
    var d :| 0 <= d < |vs| && vs[d] == a;
    var e :| 0 <= e < |vs| && vs[e] == b;
    assert w[vs[d]].name == w[vs[e]].name && w[vs[d]].ftype != w[vs[e]].ftype;
  }

  lemma ValuesAreColumns(w: Frame)
    requires IsSeries(w)
    ensures WL.IndicesOk(w, SchemaOf(w).valueIndices)
    ensures forall d :: 0 <= d < |SchemaOf(w).valueIndices| ==> SchemaOf(w).valueIndices[d] != TimeIndex(w)
  {
    SeriesTypeExact(w);
  }

  lemma ClashIs(w: Frame)
    requires IsSeries(w) && !HasFactor(w)
    ensures WL.IndicesOk(w, SchemaOf(w).valueIndices)
    ensures WL.SameTypes(w, SchemaOf(w).valueIndices, |SchemaOf(w).valueIndices|) <==> !TypesClash(w)
  {
    var vs := SchemaOf(w).valueIndices;
    ValuesAreColumns(w);
    if TypesClash(w) {
      var a: nat, b: nat :| a < |w| && b < |w| && a != TimeIndex(w) && b != TimeIndex(w) && Clashes(w[a], w[b]);
      PlaceThere(w, a);
      PlaceThere(w, b);
      ClashSeen(w, vs, a, b);
    }
    forall i, j | 0 <= i < |vs| && 0 <= j < |vs| && Clashes(w[vs[i]], w[vs[j]]) ensures TypesClash(w) {}
    assert (forall i, j :: 0 <= i < |vs| && 0 <= j < |vs| ==> !Clashes(w[vs[i]], w[vs[j]])) ==> WL.SameTypes(w, vs, |vs|);
  }

  lemma TimesMissing(w: Frame)
    requires IsSeries(w) && SameLengths(w)
    ensures SchemaOf(w).timeIndex == TimeIndex(w) < |w|
    ensures SomeTimeMissing(w) <==> exists i :: 0 <= i < |w[0].cells| && w[SchemaOf(w).timeIndex].cells[i].Null?
  {
    SeriesTypeExact(w);
    assert |w[TimeIndex(w)].cells| == |w[0].cells|;
    if i :| 0 <= i < |w[0].cells| && w[TimeIndex(w)].cells[i].Null? { assert MissingAt(w, i); }
  }

  lemma WideOrNot(w: Frame)
    ensures SchemaOf(w).seriesType.Wide? <==> IsSeries(w) && !HasFactor(w)
    ensures IsSeries(w) ==> TimeIndex(w) < |w|
  {
    SeriesTypeExact(w);
  }

  /** What is left once the frame is a wide series with rows: one name with two types; a missing time. */
  lemma TypesThenTimes(w: Frame)
    requires IsSeries(w) && !HasFactor(w) && SchemaOf(w).seriesType.Wide? && SameLengths(w) && w[0].cells != []
    requires TimeIndex(w) < |w|
    ensures WL.Refusal(w) == if TypesClash(w) then Some(WL.DifferentTypes)
                             else if SomeTimeMissing(w) then Some(WL.NullTime) else None
  {
    ClashIs(w);
    TimesMissing(w);
  }

  /** The first checks. */
  lemma LengthsFirst(w: Frame)
    requires SchemaOf(w).seriesType.Wide?
    ensures WL.Refusal(w) == Some(WL.RaggedFrame) <==> !SameLengths(w)
    ensures WL.Refusal(w) == Some(WL.NoRows) <==> SameLengths(w) && w[0].cells == []
  {
  }

  /** Each refusal, in the order of the checks: no wide series; ragged; empty; one name with two types; a missing time. */
  lemma RefusalExact(w: Frame)
    ensures WL.Refusal(w) == Some(WL.NotWideSeries) <==> !(IsSeries(w) && !HasFactor(w))
    ensures IsSeries(w) && !HasFactor(w) ==>
              && TimeIndex(w) < |w| && (WL.Refusal(w) == Some(WL.RaggedFrame) <==> !SameLengths(w))
              && (WL.Refusal(w) == Some(WL.NoRows) <==> SameLengths(w) && w[0].cells == [])
              && (SameLengths(w) && w[0].cells != [] ==>
                    WL.Refusal(w) == if TypesClash(w) then Some(WL.DifferentTypes)
                                     else if SomeTimeMissing(w) then Some(WL.NullTime) else None)
  {
    WideOrNot(w);
    if IsSeries(w) && !HasFactor(w) {
      LengthsFirst(w);
      if SameLengths(w) && w[0].cells != [] { TypesThenTimes(w); }
    }
  }
}
