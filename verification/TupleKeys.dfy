/** The tuple-label helpers of data/time_series.go: sorting by key, the map key, and back to labels. */
module TupleKeys {
  import opened GoText
  import opened Outcomes

  // ----- SortBtKey -----

  function Insert(p: Pair, ps: seq<Pair>): (r: seq<Pair>)
    ensures |r| == |ps| + 1
  {
    if ps == [] then [p] else if Less(ps[0].key, p.key) then [ps[0]] + Insert(p, ps[1..]) else [p] + ps
  }

  /** sort.Slice by key; on the distinct keys it is used with, any sort gives this list. */
  function SortByKey(ps: seq<Pair>): (r: seq<Pair>)
    ensures |r| == |ps|
  {
    if ps == [] then [] else Insert(ps[0], SortByKey(ps[1..]))
  }

  /** In the order of the keys. */
  predicate InKeyOrder(ps: seq<Pair>) { forall i, j :: 0 <= i < j < |ps| ==> !Less(ps[j].key, ps[i].key) }

  lemma {:induction false} InsertSorts(p: Pair, ps: seq<Pair>)
    requires InKeyOrder(ps)
    ensures InKeyOrder(Insert(p, ps)) && multiset(Insert(p, ps)) == multiset{p} + multiset(ps)
    decreases |ps|
  {
    if ps != [] {
      var r := Insert(p, ps);
      assert ps == [ps[0]] + ps[1..];
      if Less(ps[0].key, p.key) {
        InsertSorts(p, ps[1..]);
        forall q | q in r[1..] ensures !Less(q.key, ps[0].key) {
          assert q in multiset(r[1..]);
          if q == p { LessTotal(ps[0].key, p.key); }
        }
      } else {
        forall q | q in ps ensures !Less(q.key, p.key) {
          LessTotal(ps[0].key, p.key);
          if Less(q.key, p.key) {
            if Less(p.key, ps[0].key) { LessTransitive(q.key, p.key, ps[0].key); }
          }
        }
      }
    }
  }

  /** The pairs themselves, in the order of their keys. */
  lemma {:induction false} SortByKeySorts(ps: seq<Pair>)
    ensures InKeyOrder(SortByKey(ps)) && multiset(SortByKey(ps)) == multiset(ps)
    decreases |ps|
  {
    if ps != [] {
      SortByKeySorts(ps[1..]);
      InsertSorts(ps[0], SortByKey(ps[1..]));
      assert ps == [ps[0]] + ps[1..];
    }
  }

  predicate SameKeys(ps: seq<Pair>, qs: seq<Pair>) {
    |ps| == |qs| && forall i :: 0 <= i < |ps| ==> ps[i].key == qs[i].key
  }

  predicate SameValues(ps: seq<Pair>, qs: seq<Pair>) {
    |ps| == |qs| && forall i :: 0 <= i < |ps| ==> Units(ps[i].value) == Units(qs[i].value)
  }

  lemma {:induction false} InsertKeepsOrder(p: Pair, q: Pair, ps: seq<Pair>, qs: seq<Pair>)
    requires p.key == q.key && SameKeys(ps, qs)
    ensures SameKeys(Insert(p, ps), Insert(q, qs))
    ensures SameValues(Insert(p, ps), Insert(q, qs)) <==> Units(p.value) == Units(q.value) && SameValues(ps, qs)
    decreases |ps|
  {
    var r, s := Insert(p, ps), Insert(q, qs);
    if ps != [] {
      assert ps[0].key == qs[0].key;
      if Less(ps[0].key, p.key) {
        InsertKeepsOrder(p, q, ps[1..], qs[1..]);
        SplitSame(r, s);
        SplitSame(ps, qs);
      } else {
        SplitSame(r, s);
      }
    } else {
      assert r == [p] && s == [q] && r[0] == p && s[0] == q;
    }
  }

  lemma SplitSame(ps: seq<Pair>, qs: seq<Pair>)
    requires |ps| == |qs| && ps != []
    ensures SameKeys(ps, qs) <==> ps[0].key == qs[0].key && SameKeys(ps[1..], qs[1..])
    ensures SameValues(ps, qs) <==> Units(ps[0].value) == Units(qs[0].value) && SameValues(ps[1..], qs[1..])
  {
    forall i | 0 < i < |ps| ensures ps[i] == ps[1..][i - 1] && qs[i] == qs[1..][i - 1] {}
  }

  /** Sorting by key permutes lists with the same keys in the same way. */
  lemma {:induction false} SortKeepsOrder(ps: seq<Pair>, qs: seq<Pair>)
    requires SameKeys(ps, qs)
    ensures SameKeys(SortByKey(ps), SortByKey(qs))
    ensures SameValues(SortByKey(ps), SortByKey(qs)) <==> SameValues(ps, qs)
    decreases |ps|
  {
    if ps != [] {
      SplitSame(ps, qs);
      SortKeepsOrder(ps[1..], qs[1..]);
      InsertKeepsOrder(ps[0], qs[0], SortByKey(ps[1..]), SortByKey(qs[1..]));
    }
  }

  /** With the same keys, map keys are equal exactly when the values are (malformed bytes blurred). */
  lemma SortedMapKeyExact(ps: seq<Pair>, qs: seq<Pair>)
    requires SameKeys(ps, qs)
    ensures MapKey(SortByKey(ps)) == MapKey(SortByKey(qs)) <==> SameValues(ps, qs)
  {
    SortKeepsOrder(ps, qs);
    MapKeyExact(SortByKey(ps), SortByKey(qs));
  }

  // ----- tupleLablesToLabels -----

  predicate Distinct(names: seq<GoString>) { forall i, j :: 0 <= i < j < |names| ==> names[i] != names[j] }

  /** The labels of the first `n` tuples. */
  function LabelsOf(ps: seq<Pair>, n: nat): (m: map<GoString, GoString>)
    requires n <= |ps|
    ensures m.Keys == set i | 0 <= i < n :: ps[i].key
  {
    if n == 0 then map[] else LabelsOf(ps, n - 1)[ps[n - 1].key := ps[n - 1].value]
  }

  function Keys(ps: seq<Pair>): (ks: seq<GoString>)
    ensures |ks| == |ps| && forall i :: 0 <= i < |ps| ==> ks[i] == ps[i].key
  {
    seq(|ps|, i requires 0 <= i < |ps| => ps[i].key)
  }

  /** tupleLablesToLabels: an error when a key repeats. */
  method TuplesToLabels(ps: seq<Pair>) returns (labels: Option<map<GoString, GoString>>)
    ensures labels.Some? <==> Distinct(Keys(ps))
    ensures labels.Some? ==> labels.value == LabelsOf(ps, |ps|)
  {
    var m: map<GoString, GoString> := map[];
    for i := 0 to |ps|
      invariant m == LabelsOf(ps, i)
      invariant Distinct(Keys(ps)[..i])
    {
      if ps[i].key in m {
        var j :| 0 <= j < i && ps[j].key == ps[i].key;
        assert Keys(ps)[j] == Keys(ps)[i];
        return None;
      }
      m := m[ps[i].key := ps[i].value];
    }
    assert Keys(ps)[..|ps|] == Keys(ps);
    return Some(m);
  }

  /** With distinct keys the labels hold every tuple. */
  lemma {:induction false} LabelsLookup(ps: seq<Pair>, n: nat, i: nat)
    requires i < n <= |ps| && Distinct(Keys(ps))
    ensures ps[i].key in LabelsOf(ps, n) && LabelsOf(ps, n)[ps[i].key] == ps[i].value
    decreases n
  {
    if i < n - 1 {
      LabelsLookup(ps, n - 1, i);
      assert Keys(ps)[i] != Keys(ps)[n - 1];
    }
  }
}
