/** The shape of the frame `WideToLong` returns: rectangular, one row for each wide row and label set. */
module LongShape {
  import opened GoText
  import opened Outcomes
  import opened Frames
  import opened TupleKeys
  import opened SortedKeys
  import opened LongRows
  import opened LongSide
  import opened WideLongWide
  import WL = WideToLong

  lemma {:induction false} ListSize(ks: seq<GoString>, s: set<GoString>)
    requires Lists(ks, s)
    ensures |ks| == |s|
    decreases |ks|
  {
    if ks == [] {
      ListEmpty(ks, s);
    } else {
      var tail, rest := ks[1..], s - {ks[0]};
      ListTail(ks, s);
      ListSize(tail, rest);
      assert s == rest + {ks[0]} && ks[0] in ks;
    }
  }

  lemma ListTail(ks: seq<GoString>, s: set<GoString>)
    requires Lists(ks, s) && ks != []
    ensures Lists(ks[1..], s - {ks[0]}) && ks[0] in s
  {
    assert ks[0] in ks;
    forall k ensures k in ks[1..] <==> k in s - {ks[0]} {
      if k in ks[1..] {
        var i :| 1 <= i < |ks| && ks[i] == k;
        assert Less(ks[0], ks[i]) && ks[i] in ks;
        LessTotal(ks[0], ks[i]);
      }
      if k in s - {ks[0]} {
        var i :| 0 <= i < |ks| && ks[i] == k;
        assert ks[1..][i - 1] == k;
      }
    }
  }

  /** The label set of value column `d`; nil labels are the empty set. */
  function LabelSetOf(w: Frame, d: nat): Labels
    requires WL.IndicesOk(w, SchemaOf(w).valueIndices) && d < Columns(w)
  {
    WL.LabelsOrEmpty(Column(w, d).labels)
  }

  /** The label sets of the value columns, in their order. */
  function AllLabelSets(w: Frame): (ls: seq<Labels>)
    requires WL.IndicesOk(w, SchemaOf(w).valueIndices)
    ensures |ls| == Columns(w) && forall d :: 0 <= d < |ls| ==> ls[d] == LabelSetOf(w, d)
  {
    seq(Columns(w), d requires 0 <= d < Columns(w) => LabelSetOf(w, d))
  }

  function Elements<T(==)>(xs: seq<T>): set<T> { set x | x in xs }

  /** Lists that repeat in the same places have as many distinct elements. */
  lemma {:induction false} AsMany<A, B>(xs: seq<A>, ys: seq<B>)
    requires |xs| == |ys| && forall i, j :: 0 <= i < |xs| && 0 <= j < |xs| ==> (xs[i] == xs[j] <==> ys[i] == ys[j])
    ensures |Elements(xs)| == |Elements(ys)|
    decreases |xs|
  {
    if xs != [] {
      var n := |xs| - 1;
      AsMany(xs[..n], ys[..n]);
      OneMore(xs, n);
      OneMore(ys, n);
      if xs[n] in xs[..n] {
        var i :| 0 <= i < n && xs[i] == xs[n];
        assert ys[..n][i] == ys[n];
      }
      if ys[n] in ys[..n] {
        var i :| 0 <= i < n && ys[i] == ys[n];
        assert xs[..n][i] == xs[n];
      }
    } else {
      assert Elements(xs) == {} && Elements(ys) == {};
    }
  }

  lemma OneMore<T>(xs: seq<T>, n: nat)
    requires |xs| == n + 1
    ensures |Elements(xs)| == |Elements(xs[..n])| + if xs[n] in xs[..n] then 0 else 1
  {
    assert xs == xs[..n] + [xs[n]];
    assert Elements(xs) == Elements(xs[..n]) + {xs[n]};
  }

  ghost predicate AllLabelsValid(w: Frame)
    requires WL.IndicesOk(w, SchemaOf(w).valueIndices)
  {
    forall d {:trigger LabelSetOf(w, d)} :: 0 <= d < Columns(w) ==> LabelsValid(LabelSetOf(w, d))
  }

  ghost predicate LabelsValid(l: Labels) { forall k :: k in l ==> ValidUtf8(k) && ValidUtf8(l[k]) }

  lemma TuplesValid(l: Labels)
    requires LabelsValid(l)
    ensures AllValid(WL.Tuples(l))
  {
  }

  lemma TuplesTell(a: Labels, b: Labels)
    requires WL.Tuples(a) == WL.Tuples(b)
    ensures a == b
  {
    var ps := WL.Tuples(a);
    forall k ensures k in a <==> k in b {
      assert k in SortedList(a.Keys) <==> k in a.Keys;
      assert k in SortedList(b.Keys) <==> k in b.Keys;
      assert SortedList(a.Keys) == SortedList(b.Keys) by {
        forall i | 0 <= i < |ps| ensures SortedList(a.Keys)[i] == SortedList(b.Keys)[i] { assert ps[i].key == SortedList(a.Keys)[i]; }
      }
    }
    forall k | k in a ensures a[k] == b[k] {
      var i :| 0 <= i < |SortedList(a.Keys)| && SortedList(a.Keys)[i] == k;
      assert ps[i].value == a[k] && ps[i].value == b[k];
    }
  }

  /** On valid UTF-8 the keys of two label sets agree exactly when the sets do. */
  lemma LabelKeyExact(a: Option<Labels>, b: Option<Labels>)
    requires LabelsValid(WL.LabelsOrEmpty(a)) && LabelsValid(WL.LabelsOrEmpty(b))
    ensures WL.LabelKey(a) == WL.LabelKey(b) <==> WL.LabelsOrEmpty(a) == WL.LabelsOrEmpty(b)
  {
    var l, m := WL.LabelsOrEmpty(a), WL.LabelsOrEmpty(b);
    TuplesValid(l);
    TuplesValid(m);
    MapKeyInjective(WL.Tuples(l), WL.Tuples(m));
    if WL.Tuples(l) == WL.Tuples(m) { TuplesTell(l, m); }
  }

  /** As many keys as label sets. */
  lemma AsManyKeys(w: Frame, keys: seq<GoString>)
    requires WL.IndicesOk(w, SchemaOf(w).valueIndices) && |keys| == Columns(w) && AllLabelsValid(w)
    requires WL.AreGroupKeys(w, SchemaOf(w).valueIndices, keys)
    ensures |Elements(keys)| == |Elements(AllLabelSets(w))|
  {
    var sets := AllLabelSets(w);
    forall d, e | 0 <= d < |keys| && 0 <= e < |keys| ensures keys[d] == keys[e] <==> sets[d] == sets[e] {
      assert keys[d] == WL.LabelKey(Column(w, d).labels) && keys[e] == WL.LabelKey(Column(w, e).labels);
      assert LabelsValid(LabelSetOf(w, d)) && LabelsValid(LabelSetOf(w, e));
      LabelKeyExact(Column(w, d).labels, Column(w, e).labels);
    }
    AsMany(keys, sets);
  }

  lemma GroupCount(c: Conversion)
    requires c.Valid()
    ensures |c.Plan().groups| == |Elements(c.keys)|
  {
    var groups, keys := c.Plan().groups, Elements(c.keys);
    forall k ensures k in groups <==> k in keys { GroupsExact(c, k); }
    ListSize(groups, keys);
  }

  lemma ConversionIsRectangular(c: Conversion)
    requires c.Valid() && Typed(c)
    ensures Rectangular(c.Long(), |c.Ids()|)
  {
    forall j | 0 <= j < |c.Long()| ensures |c.Long()[j].cells| == |c.Ids()| && WellTyped(c.Long()[j]) { LongIsTyped(c, j); }
  }

  function Times(rows: nat, sets: nat): nat { rows * sets }

  /** The long frame is rectangular and typed, with as many rows as the wide frame has rows times distinct label sets. */
  lemma LongIsRectangular(w: Frame)
    requires WL.IndicesOk(w, SchemaOf(w).valueIndices) && AllLabelsValid(w) && WL.Accepted(w)
    ensures Rectangular(WL.LongOf(w), Times(WL.RowsOf(w), |Elements(AllLabelSets(w))|))
  {
    var c := ConversionOf(w);
    AcceptedIsTyped(w);
    ConversionIsLong(w);
    GroupCount(c);
    AsManyKeys(w, c.keys);
    RowIdsExact(c.Plan().groups, c.rows);
    ConversionIsRectangular(c);
  }
}
