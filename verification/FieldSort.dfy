/** data/time_series.go `SortWideFrameFields`: time first, the other columns in the one stable order. */
module FieldSort {
  import opened GoText
  import opened Outcomes
  import opened Frames
  import opened SortedKeys
  import opened StableSort

  // ----- Labels.String -----

  function Joined(l: Labels, ks: seq<GoString>): GoString {
    if ks == [] then []
    else ks[0] + [0x3D] + Lookup(l, ks[0]) + if |ks| == 1 then [] else [COMMA, 0x20] + Joined(l, ks[1..])
  }

  /** A missing key counts as "". */
  function Lookup(l: Labels, k: GoString): GoString { if k in l then l[k] else [] }

  ghost function LabelText(l: Labels): GoString { Joined(l, SortedList(l.Keys)) }

  /** `text` with entry `k` of the label text added. */
  function AddEntry(text: GoString, l: Labels, k: GoString, last: bool): GoString {
    var entry := text + k + [0x3D] + Lookup(l, k);
    if last then entry else entry + [COMMA, 0x20]
  }

  lemma JoinedStep(text: GoString, l: Labels, keys: seq<GoString>, i: nat)
    requires i < |keys|
    ensures text + Joined(l, keys[i..]) == AddEntry(text, l, keys[i], i == |keys| - 1) + Joined(l, keys[i + 1..])
  {
    assert keys[i..][1..] == keys[i + 1..];
    var a, b, c := keys[i], Lookup(l, keys[i]), Joined(l, keys[i + 1..]);
    if i < |keys| - 1 {
      assert text + (a + [0x3D] + b + ([COMMA, 0x20] + c)) == text + a + [0x3D] + b + [COMMA, 0x20] + c;
    } else {
      assert text + (a + [0x3D] + b + []) == text + a + [0x3D] + b + [];
    }
  }

  /** The entry of `k`: its key, "=", its value, and ", " unless it is the last. */
  predicate EntryAt(l: Labels, k: GoString, text: GoString, start: nat, end: nat, last: bool) {
    start <= end <= |text| && k in l && text[start..end] == k + [0x3D] + l[k] + if last then [] else [0x2C, 0x20]
  }

  /** `text` is made of the entries of `ks`, one after the other, from `os[0]` to its end. */
  predicate EntriesAt(l: Labels, ks: seq<GoString>, os: seq<nat>, text: GoString) {
    && |os| == |ks| + 1 && os[0] == 0 && os[|ks|] == |text|
    && forall i :: 0 <= i < |ks| ==> EntryAt(l, ks[i], text, os[i], os[i + 1], i == |ks| - 1)
  }

  /** The entries of all labels in the order of their keys. */
  ghost predicate IsLabelText(l: Labels, text: GoString) {
    exists ks, os :: Increasing(ks) && (forall k :: k in ks <==> k in l) && EntriesAt(l, ks, os, text)
  }

  function Moved(os: seq<nat>, n: nat): (ps: seq<nat>)
    ensures |ps| == |os| && forall i :: 0 <= i < |os| ==> ps[i] == os[i] + n
  {
    seq(|os|, i requires 0 <= i < |os| => os[i] + n)
  }

  lemma EntriesCons(l: Labels, ks: seq<GoString>, os: seq<nat>, head: GoString, rest: GoString)
    requires ks != [] && EntriesAt(l, ks[1..], os, rest) && ks[0] in l && (|ks| == 1 ==> rest == [])
    requires head == ks[0] + [0x3D] + l[ks[0]] + if |ks| == 1 then [] else [0x2C, 0x20]
    ensures EntriesAt(l, ks, [0] + Moved(os, |head|), head + rest)
  {
    var text, all := head + rest, [0] + Moved(os, |head|);
    forall i | 0 <= i < |ks| ensures EntryAt(l, ks[i], text, all[i], all[i + 1], i == |ks| - 1) {
      if i == 0 {
        assert text[..|head|] == head;
      } else {
        assert EntryAt(l, ks[1..][i - 1], rest, os[i - 1], os[i], i - 1 == |ks[1..]| - 1);
        assert text[all[i]..all[i + 1]] == rest[os[i - 1]..os[i]];
      }
    }
  }

  lemma JoinedCons(l: Labels, ks: seq<GoString>, head: GoString)
    requires ks != [] && ks[0] in l && head == ks[0] + [0x3D] + l[ks[0]] + if |ks| == 1 then [] else [0x2C, 0x20]
    ensures Joined(l, ks) == head + Joined(l, ks[1..]) && (|ks| == 1 ==> Joined(l, ks[1..]) == [])
  {
  }

  lemma {:induction false} JoinedEntries(l: Labels, ks: seq<GoString>) returns (os: seq<nat>)
    requires forall k :: k in ks ==> k in l
    ensures EntriesAt(l, ks, os, Joined(l, ks))
    decreases |ks|
  {
    if ks == [] {
      os := [0];
    } else {
      var rest := Joined(l, ks[1..]);
      os := JoinedEntries(l, ks[1..]);
      var head := ks[0] + [0x3D] + l[ks[0]] + if |ks| == 1 then [] else [0x2C, 0x20];
      assert ks[0] in ks;
      JoinedCons(l, ks, head);
      EntriesCons(l, ks, os, head, rest);
      os := [0] + Moved(os, |head|);
    }
  }

  lemma LabelTextExact(l: Labels)
    ensures IsLabelText(l, LabelText(l))
  {
    var os := JoinedEntries(l, SortedList(l.Keys));
  }

  /** Labels.String. */
  method LabelString(l: Labels) returns (text: GoString)
    ensures text == LabelText(l)
    ensures IsLabelText(l, text)
  {
    var keys := SortedKeysOf(l.Keys);
    text := JoinKeys(l, keys);
    LabelTextExact(l);
  }

  method JoinKeys(l: Labels, keys: seq<GoString>) returns (text: GoString)
    ensures text == Joined(l, keys)
  {
    text := [];
    assert keys[0..] == keys;
    for i := 0 to |keys|
      invariant text + Joined(l, keys[i..]) == Joined(l, keys)
    {
      JoinedStep(text, l, keys, i);
      text := AddEntry(text, l, keys[i], i == |keys| - 1);
    }
    assert text + [] == text;
  }

  // ----- the comparator -----

  predicate LessOnKeys(keys: seq<GoString>, a: Labels, b: Labels) {
    keys != []
    && (Less(Lookup(a, keys[0]), Lookup(b, keys[0]))
        || (!Less(Lookup(b, keys[0]), Lookup(a, keys[0])) && LessOnKeys(keys[1..], a, b)))
  }

  ghost predicate FieldLess(keys: seq<GoString>, a: Field, b: Field) {
    if Less(a.name, b.name) then true
    else if Less(b.name, a.name) then false
    else if a.labels.None? then true
    else if b.labels.None? then false
    else if keys == [] then Less(LabelText(a.labels.value), LabelText(b.labels.value))
    else LessOnKeys(keys, a.labels.value, b.labels.value)
  }

  /** The function handed to sort.SliceStable. */
  method CompareFields(keys: seq<GoString>, a: Field, b: Field) returns (less: bool)
    ensures less <==> FieldLess(keys, a, b)
  {
    if Less(a.name, b.name) { return true; }
    if Less(b.name, a.name) { return false; }
    if a.labels.None? { return true; }
    if b.labels.None? { return false; }
    if keys == [] {
      var s := LabelString(a.labels.value);
      var t := LabelString(b.labels.value);
      return Less(s, t);
    }
    var i := 0;
    while i < |keys|
      invariant 0 <= i <= |keys|
      invariant LessOnKeys(keys, a.labels.value, b.labels.value) <==> LessOnKeys(keys[i..], a.labels.value, b.labels.value)
    {
      assert keys[i..][1..] == keys[i + 1..];
      var v, w := Lookup(a.labels.value, keys[i]), Lookup(b.labels.value, keys[i]);
      if Less(v, w) { return true; }
      LessTotal(v, w);
      if Less(w, v) { return false; }
      i := i + 1;
    }
    return false;
  }

  // ----- what the comparator orders by -----

  function Values(keys: seq<GoString>, l: Labels): (vs: seq<GoString>)
    ensures |vs| == |keys|
  {
    if keys == [] then [] else [Lookup(l, keys[0])] + Values(keys[1..], l)
  }

  /** The name; then nil labels before others; then the values of the given keys, or the label text. */
  ghost function SortKey(keys: seq<GoString>, f: Field): seq<GoString> {
    [f.name] + match f.labels
               case None => [[]]
               case Some(l) => [[1]] + if keys == [] then [LabelText(l)] else Values(keys, l)
  }

  lemma {:induction false} LessOnKeysExact(keys: seq<GoString>, a: Labels, b: Labels)
    ensures LessOnKeys(keys, a, b) <==> KeyLess(Values(keys, a), Values(keys, b))
    decreases |keys|
  {
    if keys != [] {
      LessTotal(Lookup(a, keys[0]), Lookup(b, keys[0]));
      LessOnKeysExact(keys[1..], a, b);
      assert Values(keys, a)[1..] == Values(keys[1..], a) && Values(keys, b)[1..] == Values(keys[1..], b);
    }
  }

  /** Both lack labels under one name: the comparator puts each before the other. */
  predicate Clash(a: Field, b: Field) { a.name == b.name && a.labels.None? && b.labels.None? }

  /** The comparator is the order of the sort keys, except on a clash. */
  lemma FieldLessExact(keys: seq<GoString>, a: Field, b: Field)
    ensures FieldLess(keys, a, b) <==> KeyLess(SortKey(keys, a), SortKey(keys, b)) || Clash(a, b)
  {
    LessTotal(a.name, b.name);
    var sa, sb := SortKey(keys, a), SortKey(keys, b);
    KeyLessCons(a.name, sa[1..], b.name, sb[1..]);
    assert sa == [a.name] + sa[1..] && sb == [b.name] + sb[1..];
    if a.labels.Some? && b.labels.Some? {
      var la, lb := a.labels.value, b.labels.value;
      LessOnKeysExact(keys, la, lb);
      var va := if keys == [] then [LabelText(la)] else Values(keys, la);
      var vb := if keys == [] then [LabelText(lb)] else Values(keys, lb);
      assert sa[1..] == [[1]] + va && sb[1..] == [[1]] + vb;
      KeyLessCons([1], va, [1], vb);
      if keys == [] { KeyLessCons(LabelText(la), [], LabelText(lb), []); }
    }
  }

  /** It is a strict order on two columns exactly when they do not clash. */
  lemma ComparatorAsymmetric(keys: seq<GoString>, a: Field, b: Field)
    ensures FieldLess(keys, a, b) && FieldLess(keys, b, a) <==> Clash(a, b)
  {
    FieldLessExact(keys, a, b);
    FieldLessExact(keys, b, a);
    KeyLessTotal(SortKey(keys, a), SortKey(keys, b));
  }

  // ----- the sort -----

  ghost function Comparator(keys: seq<GoString>): (Field, Field) -> bool { (a, b) => FieldLess(keys, a, b) }

  ghost function Ranking(keys: seq<GoString>): Field -> seq<GoString> { f => SortKey(keys, f) }

  lemma SameTail<T>(s: seq<T>, t: seq<T>, i: nat)
    requires i < |s| == |t| && s[i..] == t[i..]
    ensures s[i] == t[i] && s[i + 1..] == t[i + 1..]
  {
    assert s[i..][0] == s[i] && t[i..][0] == t[i];
    assert s[i + 1..] == s[i..][1..] && t[i + 1..] == t[i..][1..];
  }

  lemma {:induction false} SortedMore(less: (Field, Field) -> bool, was: seq<Field>, s: seq<Field>, t: seq<Field>, i: nat)
    requires i < |was| == |s| == |t| && s[..i] == Sorted(less, was[..i]) && s[i..] == was[i..]
    requires t[..i + 1] == Insert(less, s[..i], s[i]) && t[i + 1..] == s[i + 1..]
    ensures t[..i + 1] == Sorted(less, was[..i + 1]) && t[i + 1..] == was[i + 1..]
  {
    SameTail(s, was, i);
    SortedPrefix(less, was, i);
  }

  /** sort.SliceStable, as it works on up to 20 columns. */
  method SliceStable(a: array<Field>, keys: seq<GoString>)
    modifies a
    ensures a[..] == Sorted(Comparator(keys), old(a[..]))
  {
    ghost var was, less := a[..], Comparator(keys);
    var i := 0;
    while i < a.Length
      invariant 0 <= i <= a.Length
      invariant a[..i] == Sorted(less, was[..i]) && a[i..] == was[i..]
    {
      ghost var s := a[..];
      assert s[..i] == a[..i] && s[i..] == a[i..] && s[i + 1..] == a[i + 1..];
      InsertLast(a, keys, less, i);
      SortedMore(less, was, s, a[..], i);
      assert a[..][..i + 1] == a[..i + 1] && a[..][i + 1..] == a[i + 1..];
      i := i + 1;
    }
    assert was[..i] == was && a[..i] == a[..];
  }

  /** The inner loop: swaps `a[i]` down to its place. */
  method InsertLast(a: array<Field>, keys: seq<GoString>, ghost less: (Field, Field) -> bool, i: nat)
    requires i < a.Length && less == Comparator(keys)
    modifies a
    ensures a[..i + 1] == Insert(less, old(a[..i]), old(a[i]))
    ensures a[i + 1..] == old(a[i + 1..])
  {
    ghost var p, x := a[..i], a[i];
    var j := i;
    assert p[..i] == p && p[i..] == [];
    while j > 0
      invariant 0 <= j <= i && PutAt(a[..i + 1], p, x, j)
      invariant a[i + 1..] == old(a[i + 1..])
      invariant Insert(less, p, x) == Insert(less, p[..j], x) + p[j..]
    {
      var before := CompareFields(keys, a[j], a[j - 1]);
      if !before {
        break;
      }
      ghost var s := a[..i + 1];
      InsertStep(less, s, p, x, j);
      a[j], a[j - 1] := a[j - 1], a[j];
      j := j - 1;
      assert a[..i + 1] == s[j + 1 := s[j]][j := x];
    }
    InsertStops(less, a[..i + 1], p, x, j);
  }

  // ----- SortWideFrameFields -----

  /** The columns handed to the sort: the last one takes the place of the time. */
  function Others(frame: Frame): (fs: seq<Field>)
    requires TimeIndex(frame) < |frame|
    ensures |fs| == |frame| - 1
    ensures forall p :: 0 <= p < |fs| ==> fs[p] == if p == TimeIndex(frame) then frame[|frame| - 1] else frame[p]
  {
    frame[TimeIndex(frame) := frame[|frame| - 1]][..|frame| - 1]
  }

  ghost function SortedFrame(keys: seq<GoString>, frame: Frame): Frame
    requires TimeIndex(frame) < |frame|
  {
    [frame[TimeIndex(frame)]] + Sorted(Comparator(keys), Others(frame))
  }

  /** None says that the frame is not a wide one. */
  method SortWideFrameFields(frame: Frame, keys: seq<GoString>) returns (r: Option<Frame>)
    ensures r.Some? <==> SchemaOf(frame).seriesType.Wide?
    ensures r.Some? ==> TimeIndex(frame) < |frame| && r.value == SortedFrame(keys, frame)
  {
    var sch := TimeSeriesSchema(frame);
    if !sch.seriesType.Wide? {
      return None;
    }
    var timeIndexField := frame[sch.timeIndex];
    var n := |frame| - 1;
    var swapped := frame[n := timeIndexField][sch.timeIndex := frame[n]];
    var fields := new Field[n](i requires 0 <= i < n => swapped[i]);
    assert fields[..] == Others(frame);
    SliceStable(fields, keys);
    r := Some([timeIndexField] + fields[..]);
  }

  predicate NoClash(fs: seq<Field>) { forall i, j :: 0 <= i < j < |fs| ==> !Clash(fs[i], fs[j]) }

  lemma AllAgree(keys: seq<GoString>, fs: seq<Field>)
    requires NoClash(fs)
    ensures OrdersBy(Comparator(keys), Ranking(keys), fs)
  {
    forall i, j | 0 <= i < j < |fs| ensures Agrees(Comparator(keys), Ranking(keys), fs[j], fs[i]) {
      FieldLessExact(keys, fs[i], fs[j]);
      FieldLessExact(keys, fs[j], fs[i]);
    }
  }

  lemma HeadTail(s: seq<Field>, x: Field, rest: seq<Field>)
    requires s != []
    ensures s == [x] + rest <==> s[0] == x && s[1..] == rest
  {
    assert s == [s[0]] + s[1..];
  }

  /** Time first, then the rest in order, ties as the sort received them; only one frame is so. */
  lemma SortedFrameExact(keys: seq<GoString>, frame: Frame, sorted: Frame)
    requires TimeIndex(frame) < |frame| && NoClash(Others(frame))
    ensures sorted == SortedFrame(keys, frame) <==>
            && sorted != [] && sorted[0] == frame[TimeIndex(frame)]
            && Ordered(Ranking(keys), sorted[1..]) && Rearranged(Ranking(keys), Others(frame), sorted[1..])
  {
    AllAgree(keys, Others(frame));
    if sorted != [] {
      SortedExact(Comparator(keys), Ranking(keys), Others(frame), sorted[1..]);
      HeadTail(sorted, frame[TimeIndex(frame)], Sorted(Comparator(keys), Others(frame)));
    }
  }

  lemma OthersMembers(frame: Frame, t: nat, n: nat)
    requires t <= n && |frame| == n + 1
    ensures multiset(frame) == multiset{frame[t]} + multiset(frame[t := frame[n]][..n])
  {
    var a, b := frame[..t], frame[t + 1..];
    assert frame == a + [frame[t]] + b;
    if t < n {
      assert b == b[..|b| - 1] + [frame[n]];
      assert frame[t := frame[n]][..n] == a + [frame[n]] + b[..|b| - 1];
    } else {
      assert frame[t := frame[n]][..n] == a;
    }
  }

  lemma PermutesAt(less: (Field, Field) -> bool, frame: Frame, t: nat, fs: seq<Field>)
    requires t < |frame| && fs == frame[t := frame[|frame| - 1]][..|frame| - 1]
    ensures multiset([frame[t]] + Sorted(less, fs)) == multiset(frame)
  {
    SortedKeepsMembers(less, fs);
    OthersMembers(frame, t, |frame| - 1);
    var s := Sorted(less, fs);
    calc {
      multiset([frame[t]] + s);
      multiset([frame[t]]) + multiset(s);
      multiset{frame[t]} + multiset(fs);
      multiset(frame);
    }
  }

  /** For any wide frame, clashing columns or not, the result is a permutation. */
  lemma SortedFramePermutes(keys: seq<GoString>, frame: Frame)
    requires TimeIndex(frame) < |frame|
    ensures multiset(SortedFrame(keys, frame)) == multiset(frame)
  {
    PermutesAt(Comparator(keys), frame, TimeIndex(frame), Others(frame));
  }
}
