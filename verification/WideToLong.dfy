/** data/time_series.go `WideToLong`: one long row per wide row and label set, whatever order Go walks its maps in. */
module WideToLong {
  import opened GoText
  import opened Outcomes
  import opened Frames
  import opened TupleKeys
  import opened SortedKeys

  datatype Error = NotWideSeries | RaggedFrame | NoRows | DifferentTypes | NullTime

  // ----- labels to a map key -----

  function LabelsOrEmpty(labels: Option<Labels>): Labels { if labels.Some? then labels.value else map[] }

  /** labelsToTupleLabels. */
  ghost function Tuples(l: Labels): (ps: seq<Pair>)
    ensures |ps| == |SortedList(l.Keys)|
    ensures forall i :: 0 <= i < |ps| ==> ps[i].key == SortedList(l.Keys)[i] && ps[i].key in l && ps[i].value == l[ps[i].key]
  {
    var ks := SortedList(l.Keys);
    assert forall i :: 0 <= i < |ks| ==> ks[i] in l;
    seq(|ks|, i requires 0 <= i < |ks| => Pair(ks[i], l[ks[i]]))
  }

  /** labelsTupleKey; nil labels and empty ones have one key. */
  ghost function LabelKey(labels: Option<Labels>): GoString { MapKey(Tuples(LabelsOrEmpty(labels))) }

  predicate KeysIncrease(ps: seq<Pair>) { forall i, j :: 0 <= i < j < |ps| ==> Less(ps[i].key, ps[j].key) }

  lemma {:induction false} SortedStays(ps: seq<Pair>)
    requires KeysIncrease(ps)
    ensures SortByKey(ps) == ps
    decreases |ps|
  {
    if ps != [] {
      SortedStays(ps[1..]);
      if |ps| > 1 { LessTotal(ps[0].key, ps[1].key); }
      assert ps == [ps[0]] + ps[1..];
    }
  }

  /** labelsTupleKey; it sorts twice. */
  method LabelsTupleKey(labels: Option<Labels>) returns (key: GoString)
    ensures key == LabelKey(labels)
  {
    var l := LabelsOrEmpty(labels);
    var ks := SortedKeysOf(l.Keys);
    var ps := [];
    for i := 0 to |ks|
      invariant |ps| == i && forall j :: 0 <= j < i ==> ps[j] == Tuples(l)[j]
    {
      ps := ps + [Pair(ks[i], l[ks[i]])];
    }
    assert ps == Tuples(l);
    SortedStays(ps);
    key := MapKey(SortByKey(ps));
  }

  // ----- what the long frame is -----

  /** Of the first `n` value columns `vs`, those whose label set is `key`; `keys` are their label sets. */
  function Members(keys: seq<GoString>, vs: seq<nat>, n: nat, key: GoString): (ms: seq<nat>)
    requires n <= |vs| == |keys|
  {
    if n == 0 then []
    else Members(keys, vs, n - 1, key) + if keys[n - 1] == key then [vs[n - 1]] else []
  }

  lemma {:induction false} MembersExact(keys: seq<GoString>, vs: seq<nat>, n: nat, key: GoString, c: nat)
    requires n <= |vs| == |keys|
    ensures c in Members(keys, vs, n, key) <==> exists i :: 0 <= i < n && vs[i] == c && keys[i] == key
    decreases n
  {
    if n > 0 { MembersExact(keys, vs, n - 1, key, c); }
  }

  /** The last of the first `n` columns in `ms` with the given name. */
  function LastNamed(f: Frame, ms: seq<nat>, n: nat, name: GoString): (c: Option<nat>)
    requires n <= |ms| && forall i :: 0 <= i < |ms| ==> ms[i] < |f|
    ensures c.Some? ==> c.value in ms && f[c.value].name == name
  {
    if n == 0 then None
    else if f[ms[n - 1]].name == name then Some(ms[n - 1])
    else LastNamed(f, ms, n - 1, name)
  }

  /** The tables WideToLong builds before it fills in rows. */
  datatype Plan = Plan(wide: Frame, timeIndex: nat, names: seq<GoString>, types: map<GoString, FieldType>,
                       factors: seq<GoString>, groups: seq<GoString>, members: map<GoString, seq<nat>>) {
    ghost predicate Ok() {
      && timeIndex < |wide| && Increasing(names) && Increasing(factors) && Increasing(groups)
      && (forall j :: 0 <= j < |names| ==> names[j] in types)
      && (forall k :: k in groups ==> k in members && members[k] != [])
      && (forall k {:trigger MembersOk(members[k])} :: k in members ==> MembersOk(members[k]))
    }

    ghost predicate MembersOk(ms: seq<nat>) {
      forall i :: 0 <= i < |ms| ==>
        && ms[i] < |wide| && wide[ms[i]].name in names
        && forall k :: k in LabelsOrEmpty(wide[ms[i]].labels) ==> k in factors
    }

    /** The value of column `name` for wide row `i` and the first `n` columns `ms` of a group. */
    function ValueCell(name: GoString, i: nat, ms: seq<nat>, n: nat): Cell
      requires name in types && n <= |ms|
      requires forall j :: 0 <= j < |ms| ==> ms[j] < |wide| && i < |wide[ms[j]].cells|
    {
      var c := LastNamed(wide, ms, n, name);
      if c.Some? then wide[c.value].cells[i] else Zero(types[name])
    }

    /** The factor `k` of a group, taken from its first column. */
    function FactorCell(k: GoString, ms: seq<nat>): Cell
      requires ms != [] && ms[0] < |wide|
    {
      var l := LabelsOrEmpty(wide[ms[0]].labels);
      Val(StrVal(if k in l then l[k] else []))
    }
  }

  /** A long row comes from a wide row and a label set. */
  datatype RowId = RowId(row: nat, group: GoString)

  ghost predicate IdsOk(p: Plan, ids: seq<RowId>) {
    p.Ok() && forall r {:trigger IdOk(p, ids[r])} :: 0 <= r < |ids| ==> IdOk(p, ids[r])
  }

  ghost predicate IdOk(p: Plan, id: RowId)
    requires p.Ok()
  {
    && id.group in p.groups && id.row < |p.wide[p.timeIndex].cells| && p.MembersOk(p.members[id.group])
    && forall j :: 0 <= j < |p.members[id.group]| ==> id.row < |p.wide[p.members[id.group][j]].cells|
  }

  const STRING := FieldType(StringKind, false)

  ghost function TimeCells(p: Plan, ids: seq<RowId>): (cs: seq<Cell>)
    requires IdsOk(p, ids)
    ensures |cs| == |ids|
    ensures forall r :: 0 <= r < |ids| ==> IdOk(p, ids[r]) && cs[r] == p.wide[p.timeIndex].cells[ids[r].row]
  {
    seq(|ids|, r requires 0 <= r < |ids| => assert IdOk(p, ids[r]); p.wide[p.timeIndex].cells[ids[r].row])
  }

  ghost function ValueCells(p: Plan, name: GoString, ids: seq<RowId>): (cs: seq<Cell>)
    requires IdsOk(p, ids) && name in p.types
    ensures |cs| == |ids|
    ensures forall r :: 0 <= r < |ids| ==>
              IdOk(p, ids[r]) && var ms := p.members[ids[r].group]; cs[r] == p.ValueCell(name, ids[r].row, ms, |ms|)
  {
    seq(|ids|, r requires 0 <= r < |ids| =>
      assert IdOk(p, ids[r]);
      p.ValueCell(name, ids[r].row, p.members[ids[r].group], |p.members[ids[r].group]|))
  }

  ghost function FactorCells(p: Plan, k: GoString, ids: seq<RowId>): (cs: seq<Cell>)
    requires IdsOk(p, ids)
    ensures |cs| == |ids|
    ensures forall r :: 0 <= r < |ids| ==> IdOk(p, ids[r]) && cs[r] == p.FactorCell(k, p.members[ids[r].group])
  {
    seq(|ids|, r requires 0 <= r < |ids| => assert IdOk(p, ids[r]); p.FactorCell(k, p.members[ids[r].group]))
  }

  /** The long frame with rows `ids`: time, value columns by name, factor columns by name. */
  ghost function FrameFor(p: Plan, ids: seq<RowId>): (f: Frame)
    requires IdsOk(p, ids)
    ensures |f| == 1 + |p.names| + |p.factors|
    ensures f[0] == Field(p.wide[p.timeIndex].name, FieldType(TimeKind, false), None, TimeCells(p, ids))
    ensures forall j :: 1 <= j <= |p.names| ==>
              f[j] == Field(p.names[j - 1], p.types[p.names[j - 1]], None, ValueCells(p, p.names[j - 1], ids))
    ensures forall j :: 1 + |p.names| <= j < |f| ==>
              var k := p.factors[j - 1 - |p.names|]; f[j] == Field(k, STRING, None, FactorCells(p, k, ids))
  {
    [Field(p.wide[p.timeIndex].name, FieldType(TimeKind, false), None, TimeCells(p, ids))]
    + seq(|p.names|, j requires 0 <= j < |p.names| =>
        Field(p.names[j], p.types[p.names[j]], None, ValueCells(p, p.names[j], ids)))
    + seq(|p.factors|, j requires 0 <= j < |p.factors| =>
        Field(p.factors[j], STRING, None, FactorCells(p, p.factors[j], ids)))
  }

  // ----- filling in one row -----

  function SetLast(f: Field, c: Cell): Field
    requires f.cells != []
  {
    SetCell(f, |f.cells| - 1, c)
  }

  /** longFrame.Extend(1). */
  method ExtendAll(f: Frame) returns (r: Frame)
    ensures |r| == |f| && forall j :: 0 <= j < |f| ==> r[j] == Extend(f[j])
  {
    r := f;
    for j := 0 to |f|
      invariant |r| == |f|
      invariant forall q :: 0 <= q < |f| ==> r[q] == if q < j then Extend(f[q]) else f[q]
    {
      r := r[j := Extend(r[j])];
    }
  }

  /** `now` is column `before` with one more cell. */
  predicate Grown(before: Field, now: Field, c: Cell) { now == before.(cells := before.cells + [c]) }

  ghost predicate Fillable(p: Plan, i: nat, ms: seq<nat>) {
    p.Ok() && p.MembersOk(ms) && ms != [] && forall j :: 0 <= j < |ms| ==> i < |p.wide[ms[j]].cells|
  }

  /** The value columns of the row being filled, after the first `n` columns of the group. */
  ghost predicate ValuesSet(p: Plan, before: Frame, now: Frame, i: nat, ms: seq<nat>, n: nat)
    requires Fillable(p, i, ms) && n <= |ms|
  {
    && |now| == |before| == 1 + |p.names| + |p.factors|
    && forall j :: 1 <= j <= |p.names| ==> Grown(before[j], now[j], p.ValueCell(p.names[j - 1], i, ms, n))
  }

  /** The factor columns of the row being filled: `l` has been copied except for `left`. */
  ghost predicate FactorsSet(p: Plan, before: Frame, now: Frame, l: Labels, left: set<GoString>) {
    && |now| == |before| == 1 + |p.names| + |p.factors|
    && forall j :: 1 + |p.names| <= j < |now| ==>
         Grown(before[j], now[j], FactorText(l, p.factors[j - 1 - |p.names|], left))
  }

  function FactorText(l: Labels, k: GoString, left: set<GoString>): Cell {
    Val(StrVal(if k in l && k !in left then l[k] else []))
  }

  /** A name's column; `base` is where the names' columns start. */
  predicate IndexOk(idx: map<GoString, nat>, names: seq<GoString>, base: nat) {
    forall j :: 0 <= j < |names| ==> names[j] in idx && idx[names[j]] == base + j
  }

  lemma OneIndex(idx: map<GoString, nat>, names: seq<GoString>, base: nat, k: GoString)
    requires IndexOk(idx, names, base) && k in names
    ensures k in idx && base <= idx[k] < base + |names| && names[idx[k] - base] == k
    ensures forall j :: 0 <= j < |names| && names[j] == k ==> j == idx[k] - base
  {
  }

  /** valueNameToLongFieldIdx and factorNameToLongFieldIdx. */
  method IndexNames(names: seq<GoString>, base: nat) returns (idx: map<GoString, nat>)
    requires Increasing(names)
    ensures IndexOk(idx, names, base)
  {
    idx := map[];
    for j := 0 to |names|
      invariant forall q :: 0 <= q < j ==> names[q] in idx && idx[names[q]] == base + q
    {
      forall q | 0 <= q < j ensures names[q] != names[j] { LessTotal(names[q], names[j]); }
      var slot: nat := base + j;
      idx := idx[names[j] := slot];
    }
  }

  /** Copies a label map into the factor columns, in whatever order the map is walked. */
  method SetFactors(p: Plan, factorIdx: map<GoString, nat>, l: Labels, f: Frame, ghost before: Frame) returns (now: Frame)
    requires p.Ok() && IndexOk(factorIdx, p.factors, 1 + |p.names|) && forall k :: k in l ==> k in p.factors
    requires FactorsSet(p, before, f, l, l.Keys)
    ensures FactorsSet(p, before, now, l, {}) && forall j :: 0 <= j <= |p.names| ==> now[j] == f[j]
  {
    now := f;
    var left := l.Keys;
    while left != {}
      invariant left <= l.Keys && FactorsSet(p, before, now, l, left)
      invariant forall j :: 0 <= j <= |p.names| ==> now[j] == f[j]
      decreases left
    {
      var k :| k in left;
      OneIndex(factorIdx, p.factors, 1 + |p.names|, k);
      now := SetFactor(p, now, before, l, left, k, factorIdx[k]);
      left := left - {k};
    }
  }

  method SetFactor(p: Plan, f: Frame, ghost before: Frame, l: Labels, ghost left: set<GoString>, k: GoString, slot: nat)
    returns (now: Frame)
    requires FactorsSet(p, before, f, l, left) && k in left && k in l
    requires 1 + |p.names| <= slot < 1 + |p.names| + |p.factors|
    requires forall j :: 0 <= j < |p.factors| ==> (p.factors[j] == k <==> j == slot - 1 - |p.names|)
    ensures FactorsSet(p, before, now, l, left - {k}) && now == f[slot := now[slot]]
  {
    assert Grown(before[slot], f[slot], FactorText(l, k, left));
    now := f[slot := SetLast(f[slot], Val(StrVal(l[k])))];
    assert Grown(before[slot], now[slot], FactorText(l, k, left - {k}));
    forall j | 1 + |p.names| <= j < |now|
      ensures Grown(before[j], now[j], FactorText(l, p.factors[j - 1 - |p.names|], left - {k}))
    {
      if j != slot { assert Grown(before[j], f[j], FactorText(l, p.factors[j - 1 - |p.names|], left)); }
    }
  }

  /** Copies one wide column's cell into the value column of its name. */
  method SetValue(p: Plan, valueIdx: map<GoString, nat>, f: Frame, ghost before: Frame, i: nat, ms: seq<nat>, n: nat)
    returns (now: Frame)
    requires Fillable(p, i, ms) && n < |ms| && IndexOk(valueIdx, p.names, 1) && ValuesSet(p, before, f, i, ms, n)
    ensures ValuesSet(p, before, now, i, ms, n + 1)
    ensures forall j :: |p.names| < j < |f| ==> now[j] == f[j]
    ensures now[0] == f[0]
  {
    var wideField := p.wide[ms[n]];
    OneIndex(valueIdx, p.names, 1, wideField.name);
    var slot := valueIdx[wideField.name];
    assert Grown(before[slot], f[slot], p.ValueCell(wideField.name, i, ms, n));
    now := f[slot := SetLast(f[slot], wideField.cells[i])];
    forall j | 1 <= j <= |p.names| ensures Grown(before[j], now[j], p.ValueCell(p.names[j - 1], i, ms, n + 1)) {
      if j != slot { assert Grown(before[j], f[j], p.ValueCell(p.names[j - 1], i, ms, n)); }
    }
  }

  lemma ExtendedRow(p: Plan, before: Frame, now: Frame, i: nat, ms: seq<nat>, l: Labels)
    requires Fillable(p, i, ms) && |now| == |before| == 1 + |p.names| + |p.factors|
    requires forall j :: 1 <= j < |now| ==> now[j] == Extend(before[j])
    requires forall j :: 1 <= j <= |p.names| ==> before[j].ftype == p.types[p.names[j - 1]]
    requires forall j :: |p.names| < j < |now| ==> before[j].ftype == STRING
    ensures ValuesSet(p, before, now, i, ms, 0) && FactorsSet(p, before, now, l, l.Keys)
  {
  }

  lemma CellsSnoc(p: Plan, ids: seq<RowId>, id: RowId)
    requires IdsOk(p, ids) && IdOk(p, id)
    ensures IdsOk(p, ids + [id])
    ensures TimeCells(p, ids + [id]) == TimeCells(p, ids) + [p.wide[p.timeIndex].cells[id.row]]
    ensures forall name :: name in p.types ==>
              ValueCells(p, name, ids + [id])
              == ValueCells(p, name, ids) + [p.ValueCell(name, id.row, p.members[id.group], |p.members[id.group]|)]
    ensures forall k ::
              FactorCells(p, k, ids + [id]) == FactorCells(p, k, ids) + [p.FactorCell(k, p.members[id.group])]
  {
  }

  ghost predicate RowReady(p: Plan, ids: seq<RowId>, id: RowId, now: Frame, l: Labels)
    requires IdsOk(p, ids) && IdOk(p, id) && Fillable(p, id.row, p.members[id.group])
  {
    var f, ms := FrameFor(p, ids), p.members[id.group];
    && ValuesSet(p, f, now, id.row, ms, |ms|) && FactorsSet(p, f, now, l, {})
    && l == LabelsOrEmpty(p.wide[ms[0]].labels) && Grown(f[0], now[0], p.wide[p.timeIndex].cells[id.row])
  }

  lemma ValueFilled(p: Plan, ids: seq<RowId>, id: RowId, now: Frame, l: Labels, j: nat)
    requires IdsOk(p, ids) && IdOk(p, id) && Fillable(p, id.row, p.members[id.group]) && RowReady(p, ids, id, now, l)
    requires 1 <= j <= |p.names|
    ensures j < |now| && IdsOk(p, ids + [id]) && now[j] == FrameFor(p, ids + [id])[j]
  {
    CellsSnoc(p, ids, id);
    var ms := p.members[id.group];
    assert Grown(FrameFor(p, ids)[j], now[j], p.ValueCell(p.names[j - 1], id.row, ms, |ms|));
  }

  lemma FactorColumnSnoc(p: Plan, ids: seq<RowId>, id: RowId, j: nat)
    requires IdsOk(p, ids) && IdOk(p, id) && |p.names| < j < 1 + |p.names| + |p.factors|
    ensures IdsOk(p, ids + [id])
    ensures var before, after := FrameFor(p, ids)[j], FrameFor(p, ids + [id])[j];
            after == before.(cells := before.cells + [p.FactorCell(p.factors[j - 1 - |p.names|], p.members[id.group])])
  {
    CellsSnoc(p, ids, id);
  }

  lemma FactorFilled(p: Plan, ids: seq<RowId>, id: RowId, now: Frame, l: Labels, j: nat)
    requires IdsOk(p, ids) && IdOk(p, id) && Fillable(p, id.row, p.members[id.group]) && RowReady(p, ids, id, now, l)
    requires |p.names| < j < 1 + |p.names| + |p.factors|
    ensures j < |now| && IdsOk(p, ids + [id]) && now[j] == FrameFor(p, ids + [id])[j]
  {
    FactorColumnSnoc(p, ids, id, j);
    assert Grown(FrameFor(p, ids)[j], now[j], FactorText(l, p.factors[j - 1 - |p.names|], {}));
  }

  lemma RowFilled(p: Plan, ids: seq<RowId>, id: RowId, now: Frame, l: Labels)
    requires IdsOk(p, ids) && IdOk(p, id) && Fillable(p, id.row, p.members[id.group]) && RowReady(p, ids, id, now, l)
    ensures IdsOk(p, ids + [id]) && now == FrameFor(p, ids + [id])
  {
    CellsSnoc(p, ids, id);
    var g := FrameFor(p, ids + [id]);
    forall j: nat | j < |g| ensures now[j] == g[j] {
      if 1 <= j <= |p.names| {
        ValueFilled(p, ids, id, now, l, j);
      } else if j > |p.names| {
        FactorFilled(p, ids, id, now, l, j);
      }
    }
  }

  /** The row being filled, after the first `n` columns of the group. */
  ghost predicate Filling(p: Plan, before: Frame, now: Frame, i: nat, ms: seq<nat>, l: Labels, n: nat)
    requires Fillable(p, i, ms) && n <= |ms| && i < |p.wide[p.timeIndex].cells|
  {
    && ValuesSet(p, before, now, i, ms, n) && FactorsSet(p, before, now, l, if n == 0 then l.Keys else {})
    && Grown(before[0], now[0], p.wide[p.timeIndex].cells[i])
  }

  /** One column of the group: its cell, and from the first column the labels. */
  method CopyColumn(p: Plan, valueIdx: map<GoString, nat>, factorIdx: map<GoString, nat>, ghost before: Frame, f: Frame,
                    i: nat, ms: seq<nat>, n: nat) returns (now: Frame)
    requires Fillable(p, i, ms) && n < |ms| && i < |p.wide[p.timeIndex].cells|
    requires IndexOk(valueIdx, p.names, 1) && IndexOk(factorIdx, p.factors, 1 + |p.names|)
    requires Filling(p, before, f, i, ms, LabelsOrEmpty(p.wide[ms[0]].labels), n)
    ensures Filling(p, before, now, i, ms, LabelsOrEmpty(p.wide[ms[0]].labels), n + 1)
  {
    now := f;
    ghost var l := LabelsOrEmpty(p.wide[ms[0]].labels);
    if n == 0 {
      now := SetFactors(p, factorIdx, LabelsOrEmpty(p.wide[ms[n]].labels), now, before);
      SameValues(p, before, f, now, i, ms);
    }
    ghost var was := now;
    now := SetValue(p, valueIdx, now, before, i, ms, n);
    SameFactors(p, before, was, now, l);
  }

  /** A new row with its time, everything else zero. */
  method StartRow(p: Plan, f: Frame, id: RowId, ghost ids: seq<RowId>) returns (now: Frame)
    requires IdsOk(p, ids) && f == FrameFor(p, ids) && IdOk(p, id) && Fillable(p, id.row, p.members[id.group])
    ensures var ms := p.members[id.group]; Filling(p, f, now, id.row, ms, LabelsOrEmpty(p.wide[ms[0]].labels), 0)
  {
    now := ExtendAll(f);
    now := now[0 := SetLast(now[0], p.wide[p.timeIndex].cells[id.row])];
    ExtendedRow(p, f, now, id.row, p.members[id.group], LabelsOrEmpty(p.wide[p.members[id.group][0]].labels));
  }

  /** One row of the long frame. */
  method FillRow(p: Plan, valueIdx: map<GoString, nat>, factorIdx: map<GoString, nat>, f: Frame, id: RowId,
                 ghost ids: seq<RowId>) returns (now: Frame)
    requires IdsOk(p, ids) && f == FrameFor(p, ids) && IdOk(p, id) && Fillable(p, id.row, p.members[id.group])
    requires IndexOk(valueIdx, p.names, 1) && IndexOk(factorIdx, p.factors, 1 + |p.names|)
    ensures IdsOk(p, ids + [id]) && now == FrameFor(p, ids + [id])
  {
    var ms := p.members[id.group];
    ghost var l := LabelsOrEmpty(p.wide[ms[0]].labels);
    now := StartRow(p, f, id, ids);
    for n := 0 to |ms|
      invariant Filling(p, f, now, id.row, ms, l, n)
    {
      now := CopyColumn(p, valueIdx, factorIdx, f, now, id.row, ms, n);
    }
    RowFilled(p, ids, id, now, l);
  }

  lemma SameValues(p: Plan, before: Frame, was: Frame, now: Frame, i: nat, ms: seq<nat>)
    requires Fillable(p, i, ms) && ValuesSet(p, before, was, i, ms, 0) && |now| == |was|
    requires forall j :: 0 <= j <= |p.names| ==> now[j] == was[j]
    ensures ValuesSet(p, before, now, i, ms, 0)
  {
    forall j | 1 <= j <= |p.names| ensures Grown(before[j], now[j], p.ValueCell(p.names[j - 1], i, ms, 0)) {
      assert Grown(before[j], was[j], p.ValueCell(p.names[j - 1], i, ms, 0));
    }
  }

  lemma SameFactors(p: Plan, before: Frame, was: Frame, now: Frame, l: Labels)
    requires FactorsSet(p, before, was, l, {}) && |now| == |was|
    requires forall j :: |p.names| < j < |was| ==> now[j] == was[j]
    ensures FactorsSet(p, before, now, l, {})
  {
    forall j | 1 + |p.names| <= j < |now|
      ensures Grown(before[j], now[j], FactorText(l, p.factors[j - 1 - |p.names|], {}))
    {
      assert Grown(before[j], was[j], FactorText(l, p.factors[j - 1 - |p.names|], {}));
    }
  }

  // ----- the rows in order -----

  /** One wide row, the first label sets. */
  function GroupIds(i: nat, groups: seq<GoString>): (ids: seq<RowId>)
    ensures |ids| == |groups| && forall g :: 0 <= g < |groups| ==> ids[g] == RowId(i, groups[g])
  {
    seq(|groups|, g requires 0 <= g < |groups| => RowId(i, groups[g]))
  }

  /** The first `n` wide rows, every label set each. */
  function RowIds(groups: seq<GoString>, n: nat): seq<RowId> {
    if n == 0 then [] else RowIds(groups, n - 1) + GroupIds(n - 1, groups)
  }

  ghost predicate Fits(p: Plan, rows: nat) {
    p.Ok() && (forall c :: 0 <= c < |p.wide| ==> |p.wide[c].cells| == rows)
  }

  lemma EveryIdOk(p: Plan, rows: nat, id: RowId)
    requires Fits(p, rows) && id.row < rows && id.group in p.groups
    ensures IdOk(p, id) && Fillable(p, id.row, p.members[id.group])
  {
    assert p.MembersOk(p.members[id.group]);
  }

  /** The populating loops; None says that a time is null. */
  method Populate(p: Plan, rows: nat, f: Frame) returns (long: Option<Frame>)
    requires Fits(p, rows) && f == FrameFor(p, [])
    ensures long.Some? <==> forall i :: 0 <= i < rows ==> p.wide[p.timeIndex].cells[i].Val?
    ensures long.Some? ==> IdsOk(p, RowIds(p.groups, rows)) && long.value == FrameFor(p, RowIds(p.groups, rows))
  {
    var valueIdx := IndexNames(p.names, 1);
    var factorIdx := IndexNames(p.factors, 1 + |p.names|);
    var now := f;
    for i := 0 to rows
      invariant IdsOk(p, RowIds(p.groups, i)) && now == FrameFor(p, RowIds(p.groups, i))
      invariant forall q :: 0 <= q < i ==> p.wide[p.timeIndex].cells[q].Val?
    {
      if p.wide[p.timeIndex].cells[i].Null? {
        return None;
      }
      now := PopulateRow(p, rows, valueIdx, factorIdx, now, i, RowIds(p.groups, i));
    }
    long := Some(now);
  }

  method PopulateRow(p: Plan, rows: nat, valueIdx: map<GoString, nat>, factorIdx: map<GoString, nat>, f: Frame, i: nat,
                     ghost ids: seq<RowId>) returns (now: Frame)
    requires Fits(p, rows) && i < rows && IdsOk(p, ids) && f == FrameFor(p, ids)
    requires IndexOk(valueIdx, p.names, 1) && IndexOk(factorIdx, p.factors, 1 + |p.names|)
    ensures IdsOk(p, ids + GroupIds(i, p.groups)) && now == FrameFor(p, ids + GroupIds(i, p.groups))
  {
    now := f;
    assert ids + GroupIds(i, []) == ids;
    for g := 0 to |p.groups|
      invariant IdsOk(p, ids + GroupIds(i, p.groups[..g])) && now == FrameFor(p, ids + GroupIds(i, p.groups[..g]))
    {
      EveryIdOk(p, rows, RowId(i, p.groups[g]));
      now := FillRow(p, valueIdx, factorIdx, now, RowId(i, p.groups[g]), ids + GroupIds(i, p.groups[..g]));
      assert ids + GroupIds(i, p.groups[..g + 1]) == ids + GroupIds(i, p.groups[..g]) + [RowId(i, p.groups[g])];
    }
    assert p.groups[..|p.groups|] == p.groups;
  }

  // ----- gathering the schema -----

  predicate IndicesOk(f: Frame, vs: seq<nat>) { forall i :: 0 <= i < |vs| ==> vs[i] < |f| }

  /** Columns with one name have one type. */
  predicate SameTypes(f: Frame, vs: seq<nat>, n: nat)
    requires IndicesOk(f, vs) && n <= |vs|
  {
    forall i, j :: 0 <= i < n && 0 <= j < n && f[vs[i]].name == f[vs[j]].name ==> f[vs[i]].ftype == f[vs[j]].ftype
  }

  /** The type of each name's first column. */
  function TypesOf(f: Frame, vs: seq<nat>, n: nat): map<GoString, FieldType>
    requires IndicesOk(f, vs) && n <= |vs|
  {
    if n == 0 then map[] else AddType(TypesOf(f, vs, n - 1), f[vs[n - 1]].name, f[vs[n - 1]].ftype)
  }

  lemma {:induction false} TypesExact(f: Frame, vs: seq<nat>, n: nat, k: GoString)
    requires IndicesOk(f, vs) && n <= |vs|
    ensures k in TypesOf(f, vs, n) <==> exists i :: 0 <= i < n && f[vs[i]].name == k
    ensures k in TypesOf(f, vs, n) ==> exists i :: 0 <= i < n && f[vs[i]].name == k && f[vs[i]].ftype == TypesOf(f, vs, n)[k]
    decreases n
  {
    if n > 0 { TypesExact(f, vs, n - 1, k); }
  }

  function AddType(m: map<GoString, FieldType>, name: GoString, t: FieldType): map<GoString, FieldType> {
    if name in m then m else m[name := t]
  }

  function AddMember(m: map<GoString, seq<nat>>, key: GoString, c: nat): map<GoString, seq<nat>> {
    m[key := (if key in m then m[key] else []) + [c]]
  }

  function FactorsOf(f: Frame, vs: seq<nat>, n: nat): set<GoString>
    requires IndicesOk(f, vs) && n <= |vs|
  {
    if n == 0 then {} else FactorsOf(f, vs, n - 1) + LabelsOrEmpty(f[vs[n - 1]].labels).Keys
  }

  lemma {:induction false} FactorsExact(f: Frame, vs: seq<nat>, n: nat, k: GoString)
    requires IndicesOk(f, vs) && n <= |vs|
    ensures k in FactorsOf(f, vs, n) <==> exists i :: 0 <= i < n && k in LabelsOrEmpty(f[vs[i]].labels)
    decreases n
  {
    if n > 0 { FactorsExact(f, vs, n - 1, k); }
  }

  /** The first `n` columns by label set. */
  function MembersOf(keys: seq<GoString>, vs: seq<nat>, n: nat): map<GoString, seq<nat>>
    requires n <= |vs| == |keys|
  {
    if n == 0 then map[] else AddMember(MembersOf(keys, vs, n - 1), keys[n - 1], vs[n - 1])
  }

  lemma {:induction false} MembersOfExact(keys: seq<GoString>, vs: seq<nat>, n: nat, k: GoString)
    requires n <= |vs| == |keys|
    ensures k in MembersOf(keys, vs, n) <==> Members(keys, vs, n, k) != []
    ensures k in MembersOf(keys, vs, n) ==> MembersOf(keys, vs, n)[k] == Members(keys, vs, n, k)
    decreases n
  {
    if n > 0 { MembersOfExact(keys, vs, n - 1, k); }
  }

  ghost predicate AreGroupKeys(f: Frame, vs: seq<nat>, keys: seq<GoString>)
    requires IndicesOk(f, vs) && |keys| == |vs|
  {
    forall i {:trigger LabelKey(f[vs[i]].labels)} :: 0 <= i < |vs| ==> keys[i] == LabelKey(f[vs[i]].labels)
  }

  method GroupKeyAt(f: Frame, vs: seq<nat>, ghost keys: seq<GoString>, i: nat) returns (key: GoString)
    requires IndicesOk(f, vs) && |keys| == |vs| && AreGroupKeys(f, vs, keys) && i < |vs|
    ensures key == keys[i]
  {
    key := LabelsTupleKey(f[vs[i]].labels);
  }

  ghost function GroupKeys(f: Frame, vs: seq<nat>): (keys: seq<GoString>)
    requires IndicesOk(f, vs)
    ensures |keys| == |vs| && AreGroupKeys(f, vs, keys)
  {
    seq(|vs|, i requires 0 <= i < |vs| => LabelKey(f[vs[i]].labels))
  }

  /** The plan for value columns `vs` with label sets `keys`. */
  ghost function PlanFor(f: Frame, t: nat, vs: seq<nat>, keys: seq<GoString>): Plan
    requires IndicesOk(f, vs) && |keys| == |vs|
  {
    Plan(f, t, SortedList(TypesOf(f, vs, |vs|).Keys), TypesOf(f, vs, |vs|), SortedList(FactorsOf(f, vs, |vs|)),
         SortedList(MembersOf(keys, vs, |vs|).Keys), MembersOf(keys, vs, |vs|))
  }

  lemma MembersAreOk(f: Frame, t: nat, vs: seq<nat>, keys: seq<GoString>, key: GoString)
    requires IndicesOk(f, vs) && |keys| == |vs|
    ensures PlanFor(f, t, vs, keys).MembersOk(Members(keys, vs, |vs|, key))
  {
    var p, ms := PlanFor(f, t, vs, keys), Members(keys, vs, |vs|, key);
    forall i | 0 <= i < |ms|
      ensures ms[i] < |f| && f[ms[i]].name in p.names && forall l :: l in LabelsOrEmpty(f[ms[i]].labels) ==> l in p.factors
    {
      MembersExact(keys, vs, |vs|, key, ms[i]);
      var j :| 0 <= j < |vs| && vs[j] == ms[i];
      TypesExact(f, vs, |vs|, f[ms[i]].name);
      assert f[ms[i]].name in p.types.Keys;
      forall l | l in LabelsOrEmpty(f[ms[i]].labels) ensures l in p.factors {
        FactorsExact(f, vs, |vs|, l);
      }
    }
  }

  lemma PlanFits(f: Frame, t: nat, vs: seq<nat>, keys: seq<GoString>, rows: nat)
    requires IndicesOk(f, vs) && |keys| == |vs| && t < |f| && Rectangular(f, rows)
    ensures Fits(PlanFor(f, t, vs, keys), rows)
  {
    var p := PlanFor(f, t, vs, keys);
    forall k | k in p.members ensures p.members[k] != [] && p.MembersOk(p.members[k]) {
      MembersOfExact(keys, vs, |vs|, k);
      MembersAreOk(f, t, vs, keys, k);
    }
    assert forall k :: k in p.groups ==> k in p.members.Keys;
    assert forall k :: k in p.names ==> k in p.types.Keys;
  }

  ghost function PlanOf(f: Frame): Plan
    requires IndicesOk(f, SchemaOf(f).valueIndices)
  {
    PlanFor(f, SchemaOf(f).timeIndex, SchemaOf(f).valueIndices, GroupKeys(f, SchemaOf(f).valueIndices))
  }

  /** What one column adds; None says that its name already has another type. */
  method GatherColumn(f: Frame, vs: seq<nat>, ghost keys: seq<GoString>, i: nat, types: map<GoString, FieldType>,
                      labelKeys: set<GoString>, members: map<GoString, seq<nat>>)
    returns (r: Option<(map<GoString, FieldType>, set<GoString>, map<GoString, seq<nat>>)>)
    requires IndicesOk(f, vs) && i < |vs| == |keys| && AreGroupKeys(f, vs, keys)
    requires Gathered(f, vs, keys, i, types, labelKeys, members)
    ensures r.Some? <==> (f[vs[i]].name in types ==> types[f[vs[i]].name] == f[vs[i]].ftype)
    ensures r.Some? ==> Gathered(f, vs, keys, i + 1, r.value.0, r.value.1, r.value.2)
  {
    var wideField := f[vs[i]];
    OneMoreColumn(f, vs, keys, i, types, labelKeys, members);
    if wideField.name in types && wideField.ftype != types[wideField.name] {
      return None;
    }
    var tKey := GroupKeyAt(f, vs, keys, i);
    r := Some((AddType(types, wideField.name, wideField.ftype), labelKeys + LabelsOrEmpty(wideField.labels).Keys,
               AddMember(members, tKey, vs[i])));
  }

  /** The gathering loop; None says that one name has two types. */
  method Gather(f: Frame, t: nat, vs: seq<nat>, ghost keys: seq<GoString>) returns (p: Option<Plan>)
    requires IndicesOk(f, vs) && |keys| == |vs| && AreGroupKeys(f, vs, keys)
    ensures p.Some? <==> SameTypes(f, vs, |vs|)
    ensures p.Some? ==> p.value == PlanFor(f, t, vs, keys)
  {
    var types: map<GoString, FieldType> := map[];
    var uniqueLabelKeys: set<GoString> := {};
    var members: map<GoString, seq<nat>> := map[];
    for i := 0 to |vs|
      invariant SameTypes(f, vs, i) && Gathered(f, vs, keys, i, types, uniqueLabelKeys, members)
    {
      OneMoreType(f, vs, i);
      var more := GatherColumn(f, vs, keys, i, types, uniqueLabelKeys, members);
      if more.None? {
        return None;
      }
      types, uniqueLabelKeys, members := more.value.0, more.value.1, more.value.2;
    }
    p := SortTables(f, t, types, uniqueLabelKeys, members);
  }

  method SortTables(f: Frame, t: nat, types: map<GoString, FieldType>, labelKeys: set<GoString>, members: map<GoString, seq<nat>>)
    returns (p: Option<Plan>)
    ensures p == Some(Plan(f, t, SortedList(types.Keys), types, SortedList(labelKeys), SortedList(members.Keys), members))
  {
    var names := SortedKeysOf(types.Keys);
    var groups := SortedKeysOf(members.Keys);
    var factors := SortedKeysOf(labelKeys);
    p := Some(Plan(f, t, names, types, factors, groups, members));
  }

  /** What the gathering loop knows after `i` columns. */
  ghost predicate Gathered(f: Frame, vs: seq<nat>, keys: seq<GoString>, i: nat, types: map<GoString, FieldType>,
                           labelKeys: set<GoString>, members: map<GoString, seq<nat>>)
    requires IndicesOk(f, vs) && i <= |vs| == |keys|
  {
    types == TypesOf(f, vs, i) && labelKeys == FactorsOf(f, vs, i) && members == MembersOf(keys, vs, i)
  }

  lemma TypesStep(f: Frame, vs: seq<nat>, i: nat)
    requires IndicesOk(f, vs) && i < |vs|
    ensures TypesOf(f, vs, i + 1) == AddType(TypesOf(f, vs, i), f[vs[i]].name, f[vs[i]].ftype)
  {
  }

  lemma MembersStep(keys: seq<GoString>, vs: seq<nat>, i: nat)
    requires i < |vs| == |keys|
    ensures MembersOf(keys, vs, i + 1) == AddMember(MembersOf(keys, vs, i), keys[i], vs[i])
  {
  }

  lemma OneMoreColumn(f: Frame, vs: seq<nat>, keys: seq<GoString>, i: nat, types: map<GoString, FieldType>,
                      labelKeys: set<GoString>, members: map<GoString, seq<nat>>)
    requires IndicesOk(f, vs) && i < |vs| == |keys| && Gathered(f, vs, keys, i, types, labelKeys, members)
    ensures Gathered(f, vs, keys, i + 1, AddType(types, f[vs[i]].name, f[vs[i]].ftype),
                     labelKeys + LabelsOrEmpty(f[vs[i]].labels).Keys, AddMember(members, keys[i], vs[i]))
  {
    TypesStep(f, vs, i);
    MembersStep(keys, vs, i);
  }

  lemma OneMoreType(f: Frame, vs: seq<nat>, i: nat)
    requires IndicesOk(f, vs) && i < |vs| && SameTypes(f, vs, i)
    ensures var types, name := TypesOf(f, vs, i), f[vs[i]].name;
            (name in types ==> types[name] == f[vs[i]].ftype) <==> SameTypes(f, vs, i + 1)
    ensures !SameTypes(f, vs, i + 1) ==> !SameTypes(f, vs, |vs|)
  {
    TypesExact(f, vs, i, f[vs[i]].name);
  }

  // ----- WideToLong -----

  /** The order of the checks: types before times. */
  function Refusal(wide: Frame): Option<Error> {
    var sch := SchemaOf(wide);
    if !sch.seriesType.Wide? then Some(NotWideSeries)
    else if RowLen(wide).None? then Some(RaggedFrame)
    else if RowLen(wide).value == 0 then Some(NoRows)
    else if !SameTypes(wide, sch.valueIndices, |sch.valueIndices|) then Some(DifferentTypes)
    else if exists i :: 0 <= i < RowLen(wide).value && wide[sch.timeIndex].cells[i].Null? then Some(NullTime)
    else None
  }

  ghost predicate Accepted(wide: Frame) {
    AllTyped(wide) && Refusal(wide).None?
  }

  function RowsOf(wide: Frame): nat { if wide == [] then 0 else |wide[0].cells| }

  // ----- the order of the times, which is not checked -----

  /** Same names, types and lengths, and nulls in the same places of the time column. */
  predicate SameShape(w: Frame, v: Frame) {
    && |w| == |v|
    && (forall j :: 0 <= j < |w| ==> w[j].name == v[j].name && w[j].ftype == v[j].ftype && |w[j].cells| == |v[j].cells|)
    && var t := TimeIndex(w);
       t < |w| ==> forall i :: 0 <= i < |w[t].cells| ==> (w[t].cells[i].Null? <==> v[t].cells[i].Null?)
  }

  predicate SameTypesAs(w: Frame, v: Frame) { |w| == |v| && forall j :: 0 <= j < |w| ==> w[j].ftype == v[j].ftype }

  lemma {:induction false} SameTimeIndex(w: Frame, v: Frame)
    requires SameTypesAs(w, v)
    ensures TimeIndex(w) == TimeIndex(v)
    decreases |w|
  {
    if w != [] { SameTimeIndex(w[1..], v[1..]); }
  }

  lemma {:induction false} SameIndices(w: Frame, v: Frame, t: nat, n: nat)
    requires n <= |w| && SameTypesAs(w, v)
    ensures FactorIndices(w, n) == FactorIndices(v, n) && ValueIndices(w, t, n) == ValueIndices(v, t, n)
    decreases n
  {
    if n > 0 { SameIndices(w, v, t, n - 1); }
  }

  lemma SameSchema(w: Frame, v: Frame)
    requires SameTypesAs(w, v)
    ensures SchemaOf(w) == SchemaOf(v)
  {
    SameTimeIndex(w, v);
    SameIndices(w, v, TimeIndex(w), |w|);
  }

  /** Whether and how a frame is refused does not depend on the values of its times. */
  lemma RefusalIgnoresTimes(w: Frame, v: Frame)
    requires SameShape(w, v)
    ensures Refusal(w) == Refusal(v)
  {
    SameSchema(w, v);
    SameLengths(w, v);
    if SchemaOf(w).seriesType.Wide? && RowLen(w).Some? {
      var vs, t := SchemaOf(w).valueIndices, TimeIndex(w);
      SameNamesSameTypes(w, v, vs);
      assert (exists i :: 0 <= i < RowLen(w).value && w[t].cells[i].Null?)
         <==> (exists i :: 0 <= i < RowLen(v).value && v[t].cells[i].Null?);
    }
  }

  lemma SameNamesSameTypes(w: Frame, v: Frame, vs: seq<nat>)
    requires IndicesOk(w, vs) && SameTypesAs(w, v) && forall j :: 0 <= j < |w| ==> w[j].name == v[j].name
    ensures SameTypes(w, vs, |vs|) <==> SameTypes(v, vs, |vs|)
  {
    forall i, j | 0 <= i < |vs| && 0 <= j < |vs|
      ensures w[vs[i]].name == v[vs[i]].name && w[vs[i]].ftype == v[vs[i]].ftype
      ensures w[vs[j]].name == v[vs[j]].name && w[vs[j]].ftype == v[vs[j]].ftype
    {
    }
  }

  lemma SameLengths(w: Frame, v: Frame)
    requires |w| == |v| && forall j :: 0 <= j < |w| ==> |w[j].cells| == |v[j].cells|
    ensures RowLen(w) == RowLen(v)
  {
  }

  /** The frame with other times. */
  function WithTimes(w: Frame, ts: seq<int>): Frame
    requires TimeIndex(w) < |w|
  {
    w[TimeIndex(w) := w[TimeIndex(w)].(cells := TimesAsCells(ts))]
  }

  function TimesAsCells(ts: seq<int>): (cs: seq<Cell>)
    ensures |cs| == |ts| && forall i :: 0 <= i < |ts| ==> cs[i] == Val(TimeVal(ts[i]))
  {
    seq(|ts|, i requires 0 <= i < |ts| => Val(TimeVal(ts[i])))
  }

  lemma WithTimesTyped(w: Frame, ts: seq<int>)
    requires AllTyped(w) && TimeIndex(w) < |w|
    ensures AllTyped(WithTimes(w, ts))
  {
    var v := WithTimes(w, ts);
    forall j | 0 <= j < |v| ensures WellTyped(v[j]) { assert WellTyped(w[j]); }
  }

  lemma WithTimesShape(w: Frame, ts: seq<int>)
    requires TimeIndex(w) < |w| && |ts| == |w[TimeIndex(w)].cells|
    requires forall i :: 0 <= i < |ts| ==> w[TimeIndex(w)].cells[i].Val?
    ensures SameShape(w, WithTimes(w, ts))
  {
  }

  lemma AcceptedTimes(w: Frame)
    requires Accepted(w)
    ensures TimeIndex(w) < |w| && |w[TimeIndex(w)].cells| == RowsOf(w)
    ensures forall i :: 0 <= i < RowsOf(w) ==> w[TimeIndex(w)].cells[i].Val?
  {
  }

  /** An accepted frame stays accepted with any times at all. */
  lemma AnyTimesAreAccepted(w: Frame, ts: seq<int>)
    requires Accepted(w) && |ts| == RowsOf(w)
    ensures TimeIndex(w) < |w| && AllTyped(WithTimes(w, ts)) && Refusal(WithTimes(w, ts)).None?
  {
    AcceptedTimes(w);
    WithTimesTyped(w, ts);
    WithTimesShape(w, ts);
    RefusalIgnoresTimes(w, WithTimes(w, ts));
  }

  /** Some row is earlier than the one above it. */
  predicate Unsorted(w: Frame) {
    var t := TimeIndex(w);
    t < |w| && exists i :: 1 <= i < |w[t].cells| && EarlierThanAbove(w[t].cells, i)
  }

  predicate EarlierThanAbove(cells: seq<Cell>, i: nat)
    requires 1 <= i < |cells|
  {
    && cells[i].Val? && cells[i].v.TimeVal? && cells[i - 1].Val? && cells[i - 1].v.TimeVal?
    && cells[i].v.at < cells[i - 1].v.at
  }

  /** Two rows at `a` and `b`, with one column of numbers. */
  predicate TwoRows(w: Frame, a: int, b: int) {
    && |w| == 2 && w[0].ftype == FieldType(TimeKind, false) && w[0].cells == [Val(TimeVal(a)), Val(TimeVal(b))]
    && w[1].ftype == FieldType(NumberKind(0), false) && w[1].cells == [Val(NumVal(7)), Val(NumVal(8))]
  }

  lemma TwoRowsSchema(w: Frame, a: int, b: int)
    requires TwoRows(w, a, b)
    ensures TimeIndex(w) == 0 && SchemaOf(w) == Schema(SeriesType.Wide, 0, [1], [])
  {
    assert TimeIndex(w) == 0;
    assert ValueIndices(w, 0, 1) == [] && FactorIndices(w, 1) == [];
  }

  lemma TwoRowsTyped(w: Frame, a: int, b: int)
    requires TwoRows(w, a, b)
    ensures AllTyped(w) && RowLen(w) == Some(2)
  {
    assert WellTyped(w[0]) && WellTyped(w[1]);
  }

  lemma TwoRowsAccepted(w: Frame, a: int, b: int)
    requires TwoRows(w, a, b)
    ensures AllTyped(w) && Refusal(w).None? && TimeIndex(w) == 0
  {
    TwoRowsSchema(w, a, b);
    TwoRowsTyped(w, a, b);
    NotRefused(w, Schema(SeriesType.Wide, 0, [1], []), 2);
  }

  lemma TwoRowsExist(a: int, b: int)
    ensures exists w :: TwoRows(w, a, b)
  {
    var w := [Field([], FieldType(TimeKind, false), None, [Val(TimeVal(a)), Val(TimeVal(b))]),
              Field([], FieldType(NumberKind(0), false), None, [Val(NumVal(7)), Val(NumVal(8))])];
    assert TwoRows(w, a, b);
  }

  /** One frame with descending times that is accepted. */
  lemma DescendingIsAccepted()
    ensures exists w :: Accepted(w) && Unsorted(w)
  {
    TwoRowsExist(2, 1);
    var w :| TwoRows(w, 2, 1);
    TwoRowsAccepted(w, 2, 1);
    TwoRowsUnsorted(w, 2, 1);
  }

  lemma TwoRowsUnsorted(w: Frame, a: int, b: int)
    requires TwoRows(w, a, b) && TimeIndex(w) == 0 && b < a
    ensures Unsorted(w)
  {
    assert EarlierThanAbove(w[0].cells, 1);
  }

  ghost function LongOf(wide: Frame): Frame
    requires Accepted(wide)
  {
    var p := PlanOf(wide);
    PlanFits(wide, SchemaOf(wide).timeIndex, SchemaOf(wide).valueIndices, GroupKeys(wide, SchemaOf(wide).valueIndices),
             RowsOf(wide));
    AllIdsOk(p, RowsOf(wide), RowsOf(wide));
    FrameFor(p, RowIds(p.groups, RowsOf(wide)))
  }

  lemma {:induction false} AllIdsOk(p: Plan, rows: nat, n: nat)
    requires Fits(p, rows) && n <= rows
    ensures IdsOk(p, RowIds(p.groups, n))
    decreases n
  {
    if n > 0 {
      AllIdsOk(p, rows, n - 1);
      var was, ids := RowIds(p.groups, n - 1), RowIds(p.groups, n);
      forall r | 0 <= r < |ids| ensures IdOk(p, ids[r]) {
        if r < |was| {
          assert ids[r] == was[r];
        } else {
          EveryIdOk(p, rows, RowId(n - 1, p.groups[r - |was|]));
        }
      }
    }
  }

  lemma NotRefused(w: Frame, sch: Schema, n: nat)
    requires SchemaOf(w) == sch && sch.seriesType.Wide? && RowLen(w) == Some(n) && n > 0
    requires SameTypes(w, sch.valueIndices, |sch.valueIndices|)
    requires forall i :: 0 <= i < n ==> w[sch.timeIndex].cells[i].Val?
    ensures Refusal(w).None?
  {
  }

  lemma RefusedLate(w: Frame, sch: Schema, n: nat)
    requires SchemaOf(w) == sch && sch.seriesType.Wide? && RowLen(w) == Some(n) && n > 0
    ensures !SameTypes(w, sch.valueIndices, |sch.valueIndices|) ==> Refusal(w) == Some(DifferentTypes)
    ensures SameTypes(w, sch.valueIndices, |sch.valueIndices|) && !(forall i :: 0 <= i < n ==> w[sch.timeIndex].cells[i].Val?) ==>
              Refusal(w) == Some(NullTime)
  {
  }

  lemma LongIs(w: Frame, p: Plan, n: nat)
    requires Accepted(w) && p == PlanOf(w) && n == RowsOf(w) && IdsOk(p, RowIds(p.groups, n))
    ensures LongOf(w) == FrameFor(p, RowIds(p.groups, n))
  {
  }

  /** Past the checks of the frame's form: its types and times decide. */
  method Convert(wideFrame: Frame, sch: Schema, wideLen: nat) returns (r: Result<Frame, Error>)
    requires AllTyped(wideFrame) && sch == SchemaOf(wideFrame) && sch.seriesType.Wide?
    requires RowLen(wideFrame) == Some(wideLen) && wideLen > 0
    ensures r.Err? ==> Refusal(wideFrame) == Some(r.error)
    ensures r.Ok? ==> Refusal(wideFrame).None? && r.value == LongOf(wideFrame)
  {
    ghost var keys := GroupKeys(wideFrame, sch.valueIndices);
    RefusedLate(wideFrame, sch, wideLen);
    var plan := Gather(wideFrame, sch.timeIndex, sch.valueIndices, keys);
    if plan.None? {
      return Err(DifferentTypes);
    }
    PlanFits(wideFrame, sch.timeIndex, sch.valueIndices, keys, wideLen);
    var longFrame := EmptyLong(plan.value);
    var long := Populate(plan.value, wideLen, longFrame);
    if long.None? {
      return Err(NullTime);
    }
    NotRefused(wideFrame, sch, wideLen);
    LongIs(wideFrame, plan.value, wideLen);
    r := Ok(long.value);
  }

  method WideToLong(wideFrame: Frame) returns (r: Result<Frame, Error>)
    requires AllTyped(wideFrame)
    ensures r.Err? <==> Refusal(wideFrame).Some?
    ensures r.Err? ==> Some(r.error) == Refusal(wideFrame)
    ensures r.Ok? ==> r.value == LongOf(wideFrame)
  {
    var sch := TimeSeriesSchema(wideFrame);
    if !sch.seriesType.Wide? {
      return Err(NotWideSeries);
    }
    var wideLen := RowLen(wideFrame);
    if wideLen.None? {
      return Err(RaggedFrame);
    }
    if wideLen.value == 0 {
      return Err(NoRows);
    }
    r := Convert(wideFrame, sch, wideLen.value);
  }

  /** The long frame's columns, without rows. */
  method EmptyLong(p: Plan) returns (longFrame: Frame)
    requires p.Ok()
    ensures longFrame == FrameFor(p, [])
  {
    longFrame := [Field(p.wide[p.timeIndex].name, FieldType(TimeKind, false), None, [])];
    for j := 0 to |p.names|
      invariant |longFrame| == 1 + j && longFrame[0] == Field(p.wide[p.timeIndex].name, FieldType(TimeKind, false), None, [])
      invariant forall q :: 1 <= q <= j ==> longFrame[q] == Field(p.names[q - 1], p.types[p.names[q - 1]], None, [])
    {
      longFrame := longFrame + [Field(p.names[j], p.types[p.names[j]], None, [])];
    }
    ghost var withValues := longFrame;
    for j := 0 to |p.factors|
      invariant |longFrame| == |withValues| + j && forall q :: 0 <= q < |withValues| ==> longFrame[q] == withValues[q]
      invariant forall q :: |withValues| <= q < |longFrame| ==> longFrame[q] == Field(p.factors[q - |withValues|], STRING, None, [])
    {
      longFrame := longFrame + [Field(p.factors[j], STRING, None, [])];
    }
    assert longFrame == FrameFor(p, []);
  }
}
