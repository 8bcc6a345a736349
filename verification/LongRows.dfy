/** What the long frame made by `WideToLong` holds, row by row. */
module LongRows {
  import opened GoText
  import opened Outcomes
  import opened Frames
  import opened TupleKeys
  import opened SortedKeys
  import opened WideToLong

  /** Everything WideToLong derives from a wide frame: value columns, their label sets, plan, rows, result. */
  datatype Conversion = Conversion(wide: Frame, t: nat, vs: seq<nat>, keys: seq<GoString>, rows: nat) {
    ghost predicate Valid() {
      && IndicesOk(wide, vs) && |keys| == |vs| && t < |wide| && Fits(Plan(), rows) && IdsOk(Plan(), Ids())
    }

    ghost function Plan(): Plan
      requires IndicesOk(wide, vs) && |keys| == |vs|
    {
      PlanFor(wide, t, vs, keys)
    }

    ghost function Ids(): seq<RowId>
      requires IndicesOk(wide, vs) && |keys| == |vs|
    {
      RowIds(Plan().groups, rows)
    }

    ghost function Long(): Frame
      requires Valid()
    {
      FrameFor(Plan(), Ids())
    }
  }

  ghost function ConversionOf(w: Frame): Conversion
    requires IndicesOk(w, SchemaOf(w).valueIndices)
  {
    Conversion(w, SchemaOf(w).timeIndex, SchemaOf(w).valueIndices, GroupKeys(w, SchemaOf(w).valueIndices), RowsOf(w))
  }

  lemma ConversionIsLong(w: Frame)
    requires Accepted(w)
    ensures ConversionOf(w).Valid() && ConversionOf(w).Long() == LongOf(w)
    ensures AreGroupKeys(w, ConversionOf(w).vs, ConversionOf(w).keys)
  {
    var c := ConversionOf(w);
    PlanFits(w, c.t, c.vs, c.keys, c.rows);
    AllIdsOk(c.Plan(), c.rows, c.rows);
  }

  // ----- rows -----

  lemma {:induction false} EveryRowId(groups: seq<GoString>, n: nat, i: nat, g: nat)
    requires i < n && g < |groups|
    ensures RowId(i, groups[g]) in RowIds(groups, n)
    decreases n
  {
    if i < n - 1 {
      EveryRowId(groups, n - 1, i, g);
    } else {
      assert GroupIds(i, groups)[g] == RowId(i, groups[g]);
    }
  }

  /** As many long rows as wide rows times label sets, in the order of the wide rows. */
  lemma {:induction false} RowIdsExact(groups: seq<GoString>, n: nat)
    ensures |RowIds(groups, n)| == n * |groups|
    ensures forall r :: 0 <= r < |RowIds(groups, n)| ==> RowIds(groups, n)[r].row < n && RowIds(groups, n)[r].group in groups
    ensures forall r, q :: 0 <= r < q < |RowIds(groups, n)| ==> RowIds(groups, n)[r].row <= RowIds(groups, n)[q].row
    decreases n
  {
    if n > 0 {
      RowIdsExact(groups, n - 1);
      var was, ids := RowIds(groups, n - 1), RowIds(groups, n);
      assert ids == was + GroupIds(n - 1, groups);
      assert n * |groups| == (n - 1) * |groups| + |groups|;
    }
  }

  /** No wide row and label set have two long rows. */
  lemma {:induction false} RowIdsDiffer(groups: seq<GoString>, n: nat)
    requires forall i, j :: 0 <= i < j < |groups| ==> groups[i] != groups[j]
    ensures forall r, q :: 0 <= r < q < |RowIds(groups, n)| ==> RowIds(groups, n)[r] != RowIds(groups, n)[q]
    decreases n
  {
    if n > 0 {
      RowIdsDiffer(groups, n - 1);
      RowIdsExact(groups, n - 1);
      var was, more, ids := RowIds(groups, n - 1), GroupIds(n - 1, groups), RowIds(groups, n);
      assert ids == was + more;
      forall r, q | 0 <= r < q < |ids| ensures ids[r] != ids[q] {
        if r >= |was| { assert more[r - |was|] != more[q - |was|]; }
      }
    }
  }

  /** Rows of one wide row come in the order of their label sets' keys. */
  lemma {:induction false} RowIdsInOrder(groups: seq<GoString>, n: nat, r: nat, q: nat)
    requires Increasing(groups) && r < q < |RowIds(groups, n)|
    ensures RowIds(groups, n)[r].row < RowIds(groups, n)[q].row
            || (RowIds(groups, n)[r].row == RowIds(groups, n)[q].row
                && Less(RowIds(groups, n)[r].group, RowIds(groups, n)[q].group))
    decreases n
  {
    var was, more, ids := RowIds(groups, n - 1), GroupIds(n - 1, groups), RowIds(groups, n);
    assert ids == was + more;
    RowIdsExact(groups, n - 1);
    if q < |was| {
      RowIdsInOrder(groups, n - 1, r, q);
    } else if r >= |was| {
      assert ids[r] == more[r - |was|] && ids[q] == more[q - |was|];
    }
  }

  // ----- cells -----

  /** The last of the first `n` value columns with this label set and name. */
  function LastColumn(w: Frame, vs: seq<nat>, keys: seq<GoString>, n: nat, key: GoString, name: GoString): (j: int)
    requires IndicesOk(w, vs) && n <= |vs| == |keys|
    ensures -1 <= j < n
    ensures j >= 0 ==> keys[j] == key && w[vs[j]].name == name
    ensures forall i :: j < i < n && keys[i] == key ==> w[vs[i]].name != name
  {
    if n == 0 then -1
    else if keys[n - 1] == key && w[vs[n - 1]].name == name then n - 1
    else LastColumn(w, vs, keys, n - 1, key, name)
  }

  lemma {:induction false} LastNamedPrefix(f: Frame, ms: seq<nat>, c: nat, n: nat, name: GoString)
    requires n <= |ms| && c < |f| && forall i :: 0 <= i < |ms| ==> ms[i] < |f|
    ensures LastNamed(f, ms + [c], n, name) == LastNamed(f, ms, n, name)
    decreases n
  {
    if n > 0 { LastNamedPrefix(f, ms, c, n - 1, name); }
  }

  lemma {:induction false} LastNamedIs(w: Frame, vs: seq<nat>, keys: seq<GoString>, n: nat, key: GoString, name: GoString)
    requires IndicesOk(w, vs) && n <= |vs| == |keys|
    ensures forall i :: 0 <= i < |Members(keys, vs, n, key)| ==> Members(keys, vs, n, key)[i] < |w|
    ensures var ms, j := Members(keys, vs, n, key), LastColumn(w, vs, keys, n, key, name);
            LastNamed(w, ms, |ms|, name) == if j >= 0 then Some(vs[j]) else None
    decreases n
  {
    if n > 0 {
      LastNamedIs(w, vs, keys, n - 1, key, name);
      var ms := Members(keys, vs, n - 1, key);
      if keys[n - 1] == key {
        LastNamedPrefix(w, ms, vs[n - 1], |ms|, name);
        assert Members(keys, vs, n, key) == ms + [vs[n - 1]];
      } else {
        assert Members(keys, vs, n, key) == ms;
      }
    }
  }

  lemma {:induction false} FirstMember(keys: seq<GoString>, vs: seq<nat>, n: nat, key: GoString) returns (e: nat)
    requires n <= |vs| == |keys| && Members(keys, vs, n, key) != []
    ensures e < n && keys[e] == key && Members(keys, vs, n, key)[0] == vs[e]
    ensures forall i :: 0 <= i < e ==> keys[i] != key
    decreases n
  {
    if Members(keys, vs, n - 1, key) != [] {
      e := FirstMember(keys, vs, n - 1, key);
    } else {
      e := n - 1;
      forall i | 0 <= i < e ensures keys[i] != key {
        MembersExact(keys, vs, n - 1, key, vs[i]);
      }
    }
  }

  /** Where a column's name is among the sorted names. */
  lemma NameIndex(c: Conversion, j: nat) returns (v: nat)
    requires c.Valid() && j < |c.vs|
    ensures v < |c.Plan().names| && c.Plan().names[v] == c.wide[c.vs[j]].name
  {
    TypesExact(c.wide, c.vs, |c.vs|, c.wide[c.vs[j]].name);
    assert c.wide[c.vs[j]].name in c.Plan().types.Keys;
    v :| 0 <= v < |c.Plan().names| && c.Plan().names[v] == c.wide[c.vs[j]].name;
  }

  lemma NameHasColumn(c: Conversion, v: nat) returns (j: nat)
    requires c.Valid() && v < |c.Plan().names|
    ensures j < |c.vs| && c.wide[c.vs[j]].name == c.Plan().names[v]
    ensures c.wide[c.vs[j]].ftype == c.Plan().types[c.Plan().names[v]]
  {
    var name := c.Plan().names[v];
    assert name in c.Plan().types.Keys;
    TypesExact(c.wide, c.vs, |c.vs|, name);
    j :| 0 <= j < |c.vs| && c.wide[c.vs[j]].name == name && c.wide[c.vs[j]].ftype == c.Plan().types[name];
  }

  /** Every label set is a group, and every group is some column's label set. */
  lemma GroupsExact(c: Conversion, key: GoString)
    requires c.Valid()
    ensures key in c.Plan().groups <==> key in c.keys
  {
    MembersOfExact(c.keys, c.vs, |c.vs|, key);
    var ms := Members(c.keys, c.vs, |c.vs|, key);
    assert key in c.Plan().groups <==> key in c.Plan().members.Keys;
    if ms != [] {
      MembersExact(c.keys, c.vs, |c.vs|, key, ms[0]);
    }
    if key in c.keys {
      var j :| 0 <= j < |c.keys| && c.keys[j] == key;
      MembersExact(c.keys, c.vs, |c.vs|, key, c.vs[j]);
    }
  }

  /** A value cell: from the last column with the row's label set and the name, else the zero value. */
  lemma ValueAt(c: Conversion, r: nat, v: nat)
    requires c.Valid() && r < |c.Ids()| && v < |c.Plan().names|
    ensures var id, name := c.Ids()[r], c.Plan().names[v];
            var j := LastColumn(c.wide, c.vs, c.keys, |c.vs|, id.group, name);
            && id.row < c.rows && |c.Long()[1 + v].cells| == |c.Ids()|
            && c.Long()[1 + v].cells[r]
               == if j >= 0 then c.wide[c.vs[j]].cells[id.row] else Zero(c.Plan().types[name])
  {
    var id, name := c.Ids()[r], c.Plan().names[v];
    assert IdOk(c.Plan(), id);
    MembersOfExact(c.keys, c.vs, |c.vs|, id.group);
    LastNamedIs(c.wide, c.vs, c.keys, |c.vs|, id.group, name);
    assert c.Long()[1 + v].cells == ValueCells(c.Plan(), name, c.Ids());
  }

  /** A factor cell: the label of the row's label set, taken from its first column. */
  lemma FactorAt(c: Conversion, r: nat, k: nat) returns (e: nat)
    requires c.Valid() && r < |c.Ids()| && k < |c.Plan().factors|
    ensures e < |c.vs| && c.keys[e] == c.Ids()[r].group && forall i :: 0 <= i < e ==> c.keys[i] != c.keys[e]
    ensures var f := c.Long()[1 + |c.Plan().names| + k];
            |f.cells| == |c.Ids()|
            && f.cells[r] == Val(StrVal(LabelText(c.wide[c.vs[e]].labels, c.Plan().factors[k])))
  {
    var id, p := c.Ids()[r], c.Plan();
    assert IdOk(p, id);
    MembersOfExact(c.keys, c.vs, |c.vs|, id.group);
    e := FirstMember(c.keys, c.vs, |c.vs|, id.group);
    FactorColumnIs(c, k);
  }

  lemma FactorColumnIs(c: Conversion, k: nat)
    requires c.Valid() && k < |c.Plan().factors|
    ensures var p := c.Plan(); c.Long()[1 + |p.names| + k].cells == FactorCells(p, p.factors[k], c.Ids())
  {
  }

  function LabelText(labels: Option<Labels>, k: GoString): GoString {
    if k in LabelsOrEmpty(labels) then LabelsOrEmpty(labels)[k] else []
  }
}
