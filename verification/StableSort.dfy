/** sort.SliceStable for a comparator given as a function, and what makes its result the only one. */
module StableSort {
  import opened GoText

  predicate KeyLess(a: seq<GoString>, b: seq<GoString>) {
    b != [] && (a == [] || Less(a[0], b[0]) || (a[0] == b[0] && KeyLess(a[1..], b[1..])))
  }

  lemma {:induction false} KeyLessTotal(a: seq<GoString>, b: seq<GoString>)
    ensures KeyLess(a, b) || KeyLess(b, a) || a == b
    ensures !(KeyLess(a, b) && KeyLess(b, a)) && !KeyLess(a, a)
    decreases |a|
  {
    if a != [] {
      LessTotal(a[0], a[0]);
      KeyLessTotal(a[1..], a[1..]);
      if b != [] {
        LessTotal(a[0], b[0]);
        KeyLessTotal(a[1..], b[1..]);
        assert a == [a[0]] + a[1..] && b == [b[0]] + b[1..];
      }
    }
  }

  lemma {:induction false} KeyLessTransitive(a: seq<GoString>, b: seq<GoString>, c: seq<GoString>)
    requires KeyLess(a, b) && KeyLess(b, c)
    ensures KeyLess(a, c)
    decreases |a|
  {
    if a != [] {
      if Less(a[0], b[0]) && Less(b[0], c[0]) {
        LessTransitive(a[0], b[0], c[0]);
      } else if a[0] == b[0] == c[0] {
        KeyLessTransitive(a[1..], b[1..], c[1..]);
      }
    }
  }

  lemma KeyLessCons(x: GoString, s: seq<GoString>, y: GoString, t: seq<GoString>)
    ensures KeyLess([x] + s, [y] + t) <==> Less(x, y) || (x == y && KeyLess(s, t))
  {
    assert ([x] + s)[1..] == s && ([y] + t)[1..] == t;
  }

  // ----- insertion sort, as sort.SliceStable works on up to 20 elements -----

  /** Moves `x` leftwards past every element it is less than. */
  function Insert<T>(less: (T, T) -> bool, s: seq<T>, x: T): (r: seq<T>)
    ensures |r| == |s| + 1
  {
    if s != [] && less(x, s[|s| - 1]) then Insert(less, s[..|s| - 1], x) + [s[|s| - 1]] else s + [x]
  }

  function Sorted<T>(less: (T, T) -> bool, fs: seq<T>): (r: seq<T>)
    ensures |r| == |fs|
  {
    if fs == [] then [] else Insert(less, Sorted(less, fs[..|fs| - 1]), fs[|fs| - 1])
  }

  lemma SortedPrefix<T>(less: (T, T) -> bool, s: seq<T>, i: nat)
    requires i < |s|
    ensures Sorted(less, s[..i + 1]) == Insert(less, Sorted(less, s[..i]), s[i])
  {
    assert s[..i + 1][..i] == s[..i];
  }

  /** `s` is `p` with `x` put in at position `j`. */
  predicate PutAt<T(==)>(s: seq<T>, p: seq<T>, x: T, j: nat) {
    && j <= |p| && |s| == |p| + 1 && s[j] == x
    && (forall q :: 0 <= q < j ==> s[q] == p[q])
    && (forall q :: j < q < |s| ==> s[q] == p[q - 1])
  }

  /** One swap: `x` moves past an element it is less than. */
  lemma InsertStep<T>(less: (T, T) -> bool, s: seq<T>, p: seq<T>, x: T, j: nat)
    requires 0 < j && PutAt(s, p, x, j) && less(x, s[j - 1])
    ensures PutAt(s[j := s[j - 1]][j - 1 := x], p, x, j - 1)
    ensures Insert(less, p[..j], x) + p[j..] == Insert(less, p[..j - 1], x) + p[j - 1..]
  {
    assert p[..j][..j - 1] == p[..j - 1];
    assert p[j - 1..] == [p[j - 1]] + p[j..];
  }

  /** `x` has moved down to where it belongs. */
  lemma InsertStops<T>(less: (T, T) -> bool, s: seq<T>, p: seq<T>, x: T, j: nat)
    requires PutAt(s, p, x, j) && (j == 0 || !less(x, s[j - 1]))
    ensures s == Insert(less, p[..j], x) + p[j..]
  {
    assert Insert(less, p[..j], x) == p[..j] + [x];
    assert s == p[..j] + [x] + p[j..];
  }

  // ----- what a stable sort promises -----

  /** The elements with sort key `v`, in order. */
  ghost function Group<T>(key: T -> seq<GoString>, fs: seq<T>, v: seq<GoString>): seq<T> {
    if fs == [] then []
    else Group(key, fs[..|fs| - 1], v) + if key(fs[|fs| - 1]) == v then [fs[|fs| - 1]] else []
  }

  /** The same elements, those with equal sort keys in the same order. */
  ghost predicate Rearranged<T>(key: T -> seq<GoString>, fs: seq<T>, gs: seq<T>) {
    forall v :: Group(key, fs, v) == Group(key, gs, v)
  }

  ghost predicate Ordered<T>(key: T -> seq<GoString>, fs: seq<T>) {
    forall i, j :: 0 <= i < j < |fs| ==> !KeyLess(key(fs[j]), key(fs[i]))
  }

  /** The comparator tells the two elements apart by their sort keys. */
  ghost predicate Agrees<T>(less: (T, T) -> bool, key: T -> seq<GoString>, x: T, y: T) {
    (less(x, y) <==> KeyLess(key(x), key(y))) && (less(y, x) <==> KeyLess(key(y), key(x)))
  }

  /** On `fs`, the comparator is the order of the sort keys. */
  ghost predicate OrdersBy<T>(less: (T, T) -> bool, key: T -> seq<GoString>, fs: seq<T>) {
    forall i, j :: 0 <= i < j < |fs| ==> Agrees(less, key, fs[j], fs[i])
  }

  lemma GroupSnoc<T>(key: T -> seq<GoString>, fs: seq<T>, x: T, v: seq<GoString>)
    ensures Group(key, fs + [x], v) == Group(key, fs, v) + if key(x) == v then [x] else []
  {
    assert (fs + [x])[..|fs|] == fs;
  }

  lemma {:induction false} InsertKeepsGroups<T>(less: (T, T) -> bool, key: T -> seq<GoString>, s: seq<T>, x: T, v: seq<GoString>)
    requires forall i :: 0 <= i < |s| ==> Agrees(less, key, x, s[i])
    ensures Group(key, Insert(less, s, x), v) == Group(key, s + [x], v)
    decreases |s|
  {
    if s != [] && less(x, s[|s| - 1]) {
      var p, y := s[..|s| - 1], s[|s| - 1];
      assert Agrees(less, key, x, y);
      KeyLessTotal(key(x), key(y));
      InsertKeepsGroups(less, key, p, x, v);
      GroupSnoc(key, Insert(less, p, x), y, v);
      GroupSnoc(key, p, x, v);
      GroupSnoc(key, s, x, v);
    }
  }

  lemma {:induction false} InsertKeepsMembers<T>(less: (T, T) -> bool, s: seq<T>, x: T)
    ensures multiset(Insert(less, s, x)) == multiset(s) + multiset{x}
    decreases |s|
  {
    if s != [] && less(x, s[|s| - 1]) {
      InsertKeepsMembers(less, s[..|s| - 1], x);
      assert s == s[..|s| - 1] + [s[|s| - 1]];
    }
  }

  lemma OrderedSnoc<T>(key: T -> seq<GoString>, s: seq<T>, y: T)
    requires Ordered(key, s) && forall f :: f in s ==> !KeyLess(key(y), key(f))
    ensures Ordered(key, s + [y])
  {
  }

  lemma {:induction false} InsertKeepsOrder<T>(less: (T, T) -> bool, key: T -> seq<GoString>, s: seq<T>, x: T)
    requires Ordered(key, s) && forall i :: 0 <= i < |s| ==> Agrees(less, key, x, s[i])
    ensures Ordered(key, Insert(less, s, x))
    decreases |s|
  {
    if s != [] && less(x, s[|s| - 1]) {
      var p, y := s[..|s| - 1], s[|s| - 1];
      InsertKeepsOrder(less, key, p, x);
      assert Agrees(less, key, x, y);
      KeyLessTotal(key(x), key(y));
      InsertKeepsMembers(less, p, x);
      forall f | f in Insert(less, p, x) ensures !KeyLess(key(y), key(f)) {
        assert f in multiset(Insert(less, p, x));
        if f != x { assert f in p; }
      }
      OrderedSnoc(key, Insert(less, p, x), y);
    } else if s != [] {
      var y := s[|s| - 1];
      assert Agrees(less, key, x, y);
      forall f | f in s ensures !KeyLess(key(x), key(f)) {
        if KeyLess(key(x), key(f)) {
          KeyLessTotal(key(f), key(y));
          if KeyLess(key(f), key(y)) { KeyLessTransitive(key(x), key(f), key(y)); }
        }
      }
      OrderedSnoc(key, s, x);
    }
  }

  lemma SameMembersSnoc<T>(p: seq<T>, s: seq<T>, x: T, r: seq<T>, fs: seq<T>)
    requires multiset(p) == multiset(s) && multiset(r) == multiset(s) + multiset{x}
    requires fs != [] && p == fs[..|fs| - 1] && x == fs[|fs| - 1]
    ensures multiset(r) == multiset(fs)
  {
    assert fs == p + [x];
  }

  /** Whatever the comparator, nothing is lost or added. */
  lemma {:induction false} SortedKeepsMembers<T>(less: (T, T) -> bool, fs: seq<T>)
    ensures multiset(Sorted(less, fs)) == multiset(fs)
    decreases |fs|
  {
    if fs != [] {
      var p, x := fs[..|fs| - 1], fs[|fs| - 1];
      SortedKeepsMembers(less, p);
      InsertKeepsMembers(less, Sorted(less, p), x);
      SameMembersSnoc(p, Sorted(less, p), x, Sorted(less, fs), fs);
    }
  }

  lemma InsertIsStable<T(!new)>(less: (T, T) -> bool, key: T -> seq<GoString>, p: seq<T>, s: seq<T>, x: T)
    requires Ordered(key, s) && Rearranged(key, p, s) && multiset(p) == multiset(s)
    requires forall f :: f in p ==> Agrees(less, key, x, f)
    ensures Ordered(key, Insert(less, s, x)) && Rearranged(key, p + [x], Insert(less, s, x))
  {
    forall i | 0 <= i < |s| ensures Agrees(less, key, x, s[i]) {
      assert s[i] in multiset(p);
    }
    InsertKeepsOrder(less, key, s, x);
    forall v ensures Group(key, p + [x], v) == Group(key, Insert(less, s, x), v) {
      InsertKeepsGroups(less, key, s, x, v);
      GroupSnoc(key, p, x, v);
      GroupSnoc(key, s, x, v);
    }
  }

  lemma {:induction false} SortedIsStable<T(!new)>(less: (T, T) -> bool, key: T -> seq<GoString>, fs: seq<T>)
    requires OrdersBy(less, key, fs)
    ensures Ordered(key, Sorted(less, fs)) && Rearranged(key, fs, Sorted(less, fs))
    decreases |fs|
  {
    if fs != [] {
      var p, x := fs[..|fs| - 1], fs[|fs| - 1];
      SortedIsStable(less, key, p);
      SortedKeepsMembers(less, p);
      InsertIsStable(less, key, p, Sorted(less, p), x);
      assert fs == p + [x];
    }
  }

  lemma {:induction false} GroupMembers<T(!new)>(key: T -> seq<GoString>, fs: seq<T>, v: seq<GoString>)
    ensures forall f :: f in Group(key, fs, v) <==> f in fs && key(f) == v
    decreases |fs|
  {
    if fs != [] {
      GroupMembers(key, fs[..|fs| - 1], v);
      assert fs == fs[..|fs| - 1] + [fs[|fs| - 1]];
    }
  }

  lemma GreatestKey<T(!new)>(key: T -> seq<GoString>, fs: seq<T>, gs: seq<T>)
    requires Ordered(key, gs) && Rearranged(key, fs, gs) && fs != []
    ensures gs != [] && !KeyLess(key(gs[|gs| - 1]), key(fs[|fs| - 1]))
  {
    var f := fs[|fs| - 1];
    var v := key(f);
    GroupMembers(key, fs, v);
    GroupMembers(key, gs, v);
    assert f in Group(key, gs, v);
    var i :| 0 <= i < |gs| && gs[i] == f;
    KeyLessTotal(v, v);
  }

  /** Order and stability leave one result, so how sort.SliceStable works does not matter. */
  lemma {:induction false} StableSortUnique<T(!new)>(key: T -> seq<GoString>, fs: seq<T>, gs: seq<T>)
    requires Ordered(key, fs) && Ordered(key, gs) && Rearranged(key, fs, gs)
    ensures fs == gs
    decreases |fs|
  {
    if fs == [] {
      if gs != [] { GreatestKey(key, gs, fs); }
    } else {
      GreatestKey(key, fs, gs);
      GreatestKey(key, gs, fs);
      var p, f, q, g := fs[..|fs| - 1], fs[|fs| - 1], gs[..|gs| - 1], gs[|gs| - 1];
      var v := key(f);
      KeyLessTotal(v, key(g));
      assert fs == p + [f] && gs == q + [g];
      assert f == g by {
        assert Group(key, fs, v)[|Group(key, fs, v)| - 1] == f;
        assert Group(key, gs, v)[|Group(key, gs, v)| - 1] == g;
      }
      forall w ensures Group(key, p, w) == Group(key, q, w) {
        var x := if key(f) == w then [f] else [];
        assert Group(key, fs, w) == Group(key, p, w) + x && Group(key, gs, w) == Group(key, q, w) + x;
        assert (Group(key, p, w) + x)[..|Group(key, p, w)|] == Group(key, p, w);
        assert (Group(key, q, w) + x)[..|Group(key, q, w)|] == Group(key, q, w);
      }
      StableSortUnique(key, p, q);
    }
  }

  /** Being ordered and stable says what the sort returns, no more and no less. */
  lemma SortedExact<T(!new)>(less: (T, T) -> bool, key: T -> seq<GoString>, fs: seq<T>, gs: seq<T>)
    requires OrdersBy(less, key, fs)
    ensures gs == Sorted(less, fs) <==> Ordered(key, gs) && Rearranged(key, fs, gs)
  {
    SortedIsStable(less, key, fs);
    if Ordered(key, gs) && Rearranged(key, fs, gs) {
      StableSortUnique(key, gs, Sorted(less, fs));
    }
  }

  /** No element occurs twice, and no two have one sort key. */
  ghost predicate KeysTell<T>(key: T -> seq<GoString>, fs: seq<T>) {
    forall i, j :: 0 <= i < |fs| && 0 <= j < |fs| && key(fs[i]) == key(fs[j]) ==> i == j
  }

  lemma {:induction false} GroupSingle<T(!new)>(key: T -> seq<GoString>, fs: seq<T>, v: seq<GoString>)
    requires KeysTell(key, fs)
    ensures |Group(key, fs, v)| <= 1
    decreases |fs|
  {
    if fs != [] {
      var p, x := fs[..|fs| - 1], fs[|fs| - 1];
      GroupSingle(key, p, v);
      GroupMembers(key, p, v);
      if Group(key, p, v) != [] {
        var f := Group(key, p, v)[0];
        assert f in Group(key, p, v) && f in p;
      }
    }
  }

  /** Lists of the same elements are rearrangements when sort keys tell the elements apart. */
  lemma SameElementsRearranged<T(!new)>(key: T -> seq<GoString>, fs: seq<T>, gs: seq<T>)
    requires KeysTell(key, fs) && KeysTell(key, gs) && forall f :: f in fs <==> f in gs
    ensures Rearranged(key, fs, gs)
  {
    forall v ensures Group(key, fs, v) == Group(key, gs, v) {
      GroupSingle(key, fs, v);
      GroupSingle(key, gs, v);
      GroupMembers(key, fs, v);
      GroupMembers(key, gs, v);
      var a, b := Group(key, fs, v), Group(key, gs, v);
      assert |a| > 0 ==> a[0] in a && a[0] in b;
      assert |b| > 0 ==> b[0] in b && b[0] in a;
    }
  }

  /** Distinct sort keys: the sorted list is the one ordered list with those elements. */
  lemma SortedOfSame<T(!new)>(less: (T, T) -> bool, key: T -> seq<GoString>, fs: seq<T>, gs: seq<T>)
    requires OrdersBy(less, key, fs) && KeysTell(key, fs) && KeysTell(key, gs)
    requires Ordered(key, gs) && forall f :: f in fs <==> f in gs
    ensures gs == Sorted(less, fs)
  {
    SameElementsRearranged(key, fs, gs);
    SortedExact(less, key, fs, gs);
  }
}
