/** What order `SortWideFrameFields` leaves the columns in, by their names and labels (data/time_series.go). */
module FieldOrder {
  import opened GoText
  import opened Outcomes
  import opened Frames
  import opened SortedKeys
  import opened StableSort
  import opened FieldSort

  /** The value of label `k`; a missing one counts as "". */
  function Value(f: Field, k: GoString): GoString {
    if f.labels.Some? && k in f.labels.value then f.labels.value[k] else []
  }

  /** The columns have the same values for the first `n` keys. */
  predicate SameUpTo(keys: seq<GoString>, a: Field, b: Field, n: nat)
    requires n <= |keys|
  {
    forall m :: 0 <= m < n ==> Value(a, keys[m]) == Value(b, keys[m])
  }

  /** `a` may stand before `b`: by name, then without labels before with, then by the values of the keys in turn, or by the
      label texts when there are no keys. */
  ghost predicate InOrder(keys: seq<GoString>, a: Field, b: Field) {
    && !Less(b.name, a.name)
    && (a.name == b.name ==>
          && (b.labels.None? ==> a.labels.None?)
          && (a.labels.Some? && b.labels.Some? && keys != [] ==>
                forall n :: 0 <= n < |keys| && SameUpTo(keys, a, b, n) ==> !Less(Value(b, keys[n]), Value(a, keys[n])))
          && (a.labels.Some? && b.labels.Some? && keys == [] ==> TextsInOrder(a.labels.value, b.labels.value)))
  }

  ghost predicate TextsInOrder(l: Labels, m: Labels) {
    forall s, t :: IsLabelText(l, s) && IsLabelText(m, t) ==> !Less(t, s)
  }

  /** Neither comes first: one name, labels on both, and the same values, or the same text when there are no keys. */
  ghost predicate Tied(keys: seq<GoString>, a: Field, b: Field) {
    && a.name == b.name && a.labels.Some? && b.labels.Some?
    && if keys != [] then SameUpTo(keys, a, b, |keys|)
       else forall s, t :: IsLabelText(a.labels.value, s) && IsLabelText(b.labels.value, t) ==> s == t
  }

  // ----- one text for a set of labels -----

  lemma {:induction false} SameEntries(l: Labels, ks: seq<GoString>, os: seq<nat>, ps: seq<nat>, s: GoString, t: GoString, n: nat)
    requires EntriesAt(l, ks, os, s) && EntriesAt(l, ks, ps, t) && n <= |ks|
    ensures os[n] == ps[n] <= |s| && ps[n] <= |t| && s[..os[n]] == t[..ps[n]]
    decreases n
  {
    if n > 0 {
      SameEntries(l, ks, os, ps, s, t, n - 1);
      assert EntryAt(l, ks[n - 1], s, os[n - 1], os[n], n == |ks|) && EntryAt(l, ks[n - 1], t, ps[n - 1], ps[n], n == |ks|);
      assert |s[os[n - 1]..os[n]]| == |t[ps[n - 1]..ps[n]]|;
      assert s[..os[n]] == s[..os[n - 1]] + s[os[n - 1]..os[n]];
      assert t[..ps[n]] == t[..ps[n - 1]] + t[ps[n - 1]..ps[n]];
    }
  }

  lemma OneLabelText(l: Labels, s: GoString, t: GoString)
    requires IsLabelText(l, s) && IsLabelText(l, t)
    ensures s == t
  {
    var ks, os :| Increasing(ks) && (forall k :: k in ks <==> k in l) && EntriesAt(l, ks, os, s);
    var js, ps :| Increasing(js) && (forall k :: k in js <==> k in l) && EntriesAt(l, js, ps, t);
    SortedListUnique(ks, js, l.Keys);
    SameEntries(l, ks, os, ps, s, t, |ks|);
    assert s[..|s|] == s && t[..|t|] == t;
  }

  lemma LabelTextIs(l: Labels, s: GoString)
    ensures IsLabelText(l, s) <==> s == LabelText(l)
  {
    LabelTextExact(l);
    if IsLabelText(l, s) { OneLabelText(l, s, LabelText(l)); }
  }

  // ----- from sort keys to names and labels -----

  lemma {:induction false} ValuesAt(keys: seq<GoString>, f: Field, n: nat)
    requires f.labels.Some? && n < |keys|
    ensures Values(keys, f.labels.value)[n] == Value(f, keys[n])
    decreases n
  {
    if n > 0 { ValuesAt(keys[1..], f, n - 1); }
  }

  lemma {:induction false} LexAt(a: seq<GoString>, b: seq<GoString>, n: nat)
    requires n < |a| && n < |b| && a[..n] == b[..n] && Less(a[n], b[n])
    ensures KeyLess(a, b)
    decreases n
  {
    if n > 0 {
      assert a[..n][0] == b[..n][0] && a[..n][1..] == a[1..][..n - 1] && b[..n][1..] == b[1..][..n - 1];
      LexAt(a[1..], b[1..], n - 1);
    }
  }

  lemma ValuesInOrder(keys: seq<GoString>, a: Field, b: Field, n: nat)
    requires a.labels.Some? && b.labels.Some? && n < |keys| && SameUpTo(keys, a, b, n)
    requires Less(Value(b, keys[n]), Value(a, keys[n]))
    ensures KeyLess(Values(keys, b.labels.value), Values(keys, a.labels.value))
  {
    var x, y := Values(keys, b.labels.value), Values(keys, a.labels.value);
    forall m | 0 <= m <= n ensures x[m] == Value(b, keys[m]) && y[m] == Value(a, keys[m]) {
      ValuesAt(keys, a, m);
      ValuesAt(keys, b, m);
    }
    LexAt(x, y, n);
  }

  /** The sort key of a labelled column after its name. */
  lemma LabelledLess(keys: seq<GoString>, a: Field, b: Field)
    requires a.name == b.name && a.labels.Some? && b.labels.Some?
    ensures var l, m := a.labels.value, b.labels.value;
            KeyLess(SortKey(keys, b), SortKey(keys, a)) <==>
              if keys == [] then Less(LabelText(m), LabelText(l)) else KeyLess(Values(keys, m), Values(keys, l))
  {
    var l, m := a.labels.value, b.labels.value;
    var x := if keys == [] then [LabelText(l)] else Values(keys, l);
    var y := if keys == [] then [LabelText(m)] else Values(keys, m);
    LessTotal(a.name, a.name);
    LessTotal([1], [1]);
    KeyLessCons(b.name, [[1]] + y, a.name, [[1]] + x);
    KeyLessCons([1], y, [1], x);
    if keys == [] { KeyLessCons(LabelText(m), [], LabelText(l), []); }
  }

  lemma NameLess(keys: seq<GoString>, a: Field, b: Field)
    ensures Less(b.name, a.name) ==> KeyLess(SortKey(keys, b), SortKey(keys, a))
    ensures a.name == b.name && b.labels.None? && a.labels.Some? ==> KeyLess(SortKey(keys, b), SortKey(keys, a))
  {
    var x, y := SortKey(keys, a)[1..], SortKey(keys, b)[1..];
    assert SortKey(keys, a) == [a.name] + x && SortKey(keys, b) == [b.name] + y;
    KeyLessCons(b.name, y, a.name, x);
    if b.labels.None? && a.labels.Some? {
      assert y[0] == [] && x[0] == [1] && Less(y[0], x[0]);
    }
  }

  lemma KeysInOrder(keys: seq<GoString>, a: Field, b: Field)
    requires !KeyLess(SortKey(keys, b), SortKey(keys, a))
    ensures InOrder(keys, a, b)
  {
    NameLess(keys, a, b);
    if a.name == b.name && a.labels.Some? && b.labels.Some? {
      LabelledLess(keys, a, b);
      forall n | 0 <= n < |keys| && SameUpTo(keys, a, b, n) ensures !Less(Value(b, keys[n]), Value(a, keys[n])) {
        if Less(Value(b, keys[n]), Value(a, keys[n])) { ValuesInOrder(keys, a, b, n); }
      }
      forall s, t | IsLabelText(a.labels.value, s) && IsLabelText(b.labels.value, t) ensures keys == [] ==> !Less(t, s) {
        LabelTextIs(a.labels.value, s);
        LabelTextIs(b.labels.value, t);
      }
    }
  }

  lemma TiedKeys(keys: seq<GoString>, a: Field, b: Field)
    requires Tied(keys, a, b)
    ensures SortKey(keys, a) == SortKey(keys, b)
  {
    if keys == [] {
      LabelTextExact(a.labels.value);
      LabelTextExact(b.labels.value);
    } else {
      var x, y := Values(keys, a.labels.value), Values(keys, b.labels.value);
      forall n | 0 <= n < |keys| ensures x[n] == y[n] {
        ValuesAt(keys, a, n);
        ValuesAt(keys, b, n);
      }
      assert x == y;
    }
  }

  // ----- ties -----

  lemma {:induction false} PlaceInGroup<T(!new)>(key: T -> seq<GoString>, fs: seq<T>, v: seq<GoString>, i: nat) returns (a: nat)
    requires i < |fs| && key(fs[i]) == v
    ensures a == |Group(key, fs[..i], v)| < |Group(key, fs, v)| && Group(key, fs, v)[a] == fs[i]
    decreases |fs|
  {
    if i == |fs| - 1 {
      a := |Group(key, fs[..i], v)|;
    } else {
      a := PlaceInGroup(key, fs[..|fs| - 1], v, i);
      assert fs[..|fs| - 1][..i] == fs[..i];
    }
  }

  lemma {:induction false} GroupGrows<T(!new)>(key: T -> seq<GoString>, fs: seq<T>, v: seq<GoString>, i: nat, j: nat)
    requires i < j <= |fs| && key(fs[i]) == v
    ensures |Group(key, fs[..i], v)| < |Group(key, fs[..j], v)|
    decreases j
  {
    assert fs[..j][..j - 1] == fs[..j - 1];
    if i < j - 1 { GroupGrows(key, fs, v, i, j - 1); }
  }

  lemma {:induction false} PlaceOf<T(!new)>(key: T -> seq<GoString>, fs: seq<T>, v: seq<GoString>, a: nat) returns (p: nat)
    requires a < |Group(key, fs, v)|
    ensures p < |fs| && fs[p] == Group(key, fs, v)[a] && |Group(key, fs[..p], v)| == a
    decreases |fs|
  {
    var init := fs[..|fs| - 1];
    if a < |Group(key, init, v)| {
      p := PlaceOf(key, init, v, a);
      assert init[..p] == fs[..p];
    } else {
      p := |fs| - 1;
    }
  }

  lemma GroupShrinks<T(!new)>(key: T -> seq<GoString>, fs: seq<T>, v: seq<GoString>, p: nat, q: nat)
    requires p <= |fs| && q <= |fs| && |Group(key, fs[..p], v)| < |Group(key, fs[..q], v)|
    ensures p < q
  {
    if q <= p { GroupOfPrefix(key, fs, v, q, p); }
  }

  lemma {:induction false} GroupOfPrefix<T(!new)>(key: T -> seq<GoString>, fs: seq<T>, v: seq<GoString>, q: nat, p: nat)
    requires q <= p <= |fs|
    ensures |Group(key, fs[..q], v)| <= |Group(key, fs[..p], v)|
    decreases p
  {
    if q < p {
      GroupOfPrefix(key, fs, v, q, p - 1);
      assert fs[..p][..p - 1] == fs[..p - 1];
    }
  }

  /** Elements of one sort key stand in the order in which they came. */
  lemma KeptOrder<T(!new)>(key: T -> seq<GoString>, fs: seq<T>, gs: seq<T>, i: nat, j: nat) returns (p: nat, q: nat)
    requires Rearranged(key, fs, gs) && i < j < |gs| && key(gs[i]) == key(gs[j])
    ensures p < q < |fs| && fs[p] == gs[i] && fs[q] == gs[j]
  {
    var v := key(gs[i]);
    var a := PlaceInGroup(key, gs, v, i);
    var b := PlaceInGroup(key, gs, v, j);
    GroupGrows(key, gs, v, i, j);
    assert Group(key, fs, v) == Group(key, gs, v);
    p := PlaceOf(key, fs, v, a);
    q := PlaceOf(key, fs, v, b);
    GroupShrinks(key, fs, v, p, q);
  }

  // ----- the sorted frame -----

  /** Columns `p` and `q`, in this order, were handed to the sort. */
  ghost predicate CameBefore(frame: Frame, a: Field, b: Field)
    requires TimeIndex(frame) < |frame|
  {
    exists p: nat, q: nat :: p < q < |Others(frame)| && Others(frame)[p] == a && Others(frame)[q] == b
  }

  lemma TieKept(keys: seq<GoString>, frame: Frame, gs: seq<Field>, i: nat, j: nat)
    requires TimeIndex(frame) < |frame| && Rearranged(Ranking(keys), Others(frame), gs) && i < j < |gs| && Tied(keys, gs[i], gs[j])
    ensures CameBefore(frame, gs[i], gs[j])
  {
    TiedKeys(keys, gs[i], gs[j]);
    var p, q := KeptOrder(Ranking(keys), Others(frame), gs, i, j);
  }

  lemma PairInOrder(keys: seq<GoString>, frame: Frame, gs: seq<Field>, i: nat, j: nat)
    requires TimeIndex(frame) < |frame| && Ordered(Ranking(keys), gs) && Rearranged(Ranking(keys), Others(frame), gs) && i < j < |gs|
    ensures InOrder(keys, gs[i], gs[j]) && (Tied(keys, gs[i], gs[j]) ==> CameBefore(frame, gs[i], gs[j]))
  {
    KeysInOrder(keys, gs[i], gs[j]);
    if Tied(keys, gs[i], gs[j]) { TieKept(keys, frame, gs, i, j); }
  }

  /** Any two columns after the time are in order, and tied ones stand as the sort received them. */
  lemma ColumnsInOrder(keys: seq<GoString>, frame: Frame, i: nat, j: nat)
    requires TimeIndex(frame) < |frame| && NoClash(Others(frame)) && 1 <= i < j < |frame|
    ensures var sorted := SortedFrame(keys, frame);
            && |sorted| == |frame| && InOrder(keys, sorted[i], sorted[j])
            && (Tied(keys, sorted[i], sorted[j]) ==> CameBefore(frame, sorted[i], sorted[j]))
  {
    var sorted := SortedFrame(keys, frame);
    SortedFrameExact(keys, frame, sorted);
    assert sorted[1..][i - 1] == sorted[i] && sorted[1..][j - 1] == sorted[j];
    PairInOrder(keys, frame, sorted[1..], i - 1, j - 1);
  }

  lemma OneEntry(l: Labels, k: GoString)
    requires l.Keys == {k}
    ensures IsLabelText(l, k + [0x3D] + l[k])
  {
    var text := k + [0x3D] + l[k];
    assert text[0..|text|] == text && k + [0x3D] + l[k] + [] == text;
    assert EntryAt(l, k, text, 0, |text|, true);
    assert EntriesAt(l, [k], [0, |text|], text);
  }

  lemma {:induction false} LessBehind(a: GoString, s: GoString, t: GoString)
    ensures Less(a + s, a + t) <==> Less(s, t)
    decreases |a|
  {
    if a == [] {
      assert a + s == s && a + t == t;
    } else {
      assert (a + s)[1..] == a[1..] + s && (a + t)[1..] == a[1..] + t;
      LessBehind(a[1..], s, t);
    }
  }

  /** Without sort keys, columns of one name with one label each, of one key, stand in the order of its values. */
  lemma OneLabelOrders(a: Field, b: Field, k: GoString)
    requires InOrder([], a, b) && a.name == b.name && a.labels.Some? && b.labels.Some?
    requires a.labels.value.Keys == {k} && b.labels.value.Keys == {k}
    ensures !Less(b.labels.value[k], a.labels.value[k])
  {
    var l, m := a.labels.value, b.labels.value;
    OneEntry(l, k);
    OneEntry(m, k);
    LessBehind(k + [0x3D], m[k], l[k]);
  }
}
