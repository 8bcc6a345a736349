/** sort.Strings over the keys of a Go map: whatever order the map is walked in, one list results. */
module SortedKeys {
  import opened GoText

  predicate Increasing(ks: seq<GoString>) { forall i, j :: 0 <= i < j < |ks| ==> Less(ks[i], ks[j]) }

  lemma IncreasingTells(ks: seq<GoString>, i: nat, j: nat)
    requires Increasing(ks) && i < |ks| && j < |ks| && ks[i] == ks[j]
    ensures i == j
  {
    LessTotal(ks[i], ks[j]);
  }

  ghost predicate IsLeast(s: set<GoString>, k: GoString) { k in s && forall j :: j in s ==> j == k || Less(k, j) }

  lemma {:induction false} LeastExists(s: set<GoString>)
    requires s != {}
    ensures exists k :: IsLeast(s, k)
    decreases |s|
  {
    var a :| a in s;
    if s == {a} {
      assert IsLeast(s, a);
    } else {
      var rest := s - {a};
      LeastExists(rest);
      var m :| IsLeast(rest, m);
      LessTotal(a, m);
      if Less(a, m) {
        forall j | j in s ensures j == a || Less(a, j) {
          if j != a && j != m { LessTransitive(a, m, j); }
        }
        assert IsLeast(s, a);
      } else {
        assert IsLeast(s, m);
      }
    }
  }

  lemma LeastUnique(s: set<GoString>, a: GoString, b: GoString)
    requires IsLeast(s, a) && IsLeast(s, b)
    ensures a == b
  {
    LessTotal(a, b);
  }

  /** `ks` are the members of `s` in increasing order. */
  ghost predicate Lists(ks: seq<GoString>, s: set<GoString>) { Increasing(ks) && forall k :: k in ks <==> k in s }

  lemma {:induction false} ListExists(s: set<GoString>)
    ensures exists ks :: Lists(ks, s)
    decreases |s|
  {
    if s == {} {
      assert Lists([], s);
    } else {
      LeastExists(s);
      var k :| IsLeast(s, k);
      ListExists(s - {k});
      var rest :| Lists(rest, s - {k});
      assert forall i :: 0 <= i < |rest| ==> rest[i] in s - {k};
      assert Lists([k] + rest, s);
    }
  }

  ghost function SortedList(s: set<GoString>): (ks: seq<GoString>)
    ensures Lists(ks, s)
  {
    ListExists(s);
    var ks :| Lists(ks, s);
    ks
  }

  lemma ListEmpty(ks: seq<GoString>, s: set<GoString>)
    requires Lists(ks, s)
    ensures ks == [] <==> s == {}
  {
    if ks != [] { assert ks[0] in s; }
  }

  lemma ListHead(ks: seq<GoString>, s: set<GoString>)
    requires Lists(ks, s) && ks != []
    ensures IsLeast(s, ks[0]) && Lists(ks[1..], s - {ks[0]})
  {
    var k := ks[0];
    forall j | j in s ensures j == k || Less(k, j) {
      var i :| 0 <= i < |ks| && ks[i] == j;
    }
    forall j ensures j in ks[1..] <==> j in s - {k} {
      if j in ks[1..] {
        var i :| 1 <= i < |ks| && ks[i] == j;
        LessTotal(k, j);
      }
    }
  }

  /** There is one such list. */
  lemma {:induction false} SortedListUnique(ks: seq<GoString>, js: seq<GoString>, s: set<GoString>)
    requires Lists(ks, s) && Lists(js, s)
    ensures ks == js
    decreases |ks|
  {
    ListEmpty(ks, s);
    ListEmpty(js, s);
    if ks != [] {
      ListHead(ks, s);
      ListHead(js, s);
      LeastUnique(s, ks[0], js[0]);
      SortedListUnique(ks[1..], js[1..], s - {ks[0]});
      assert ks == [ks[0]] + ks[1..] && js == [js[0]] + js[1..];
    }
  }

  /** Collecting a map's keys in any order and sorting them, as `for k := range m` and sort.Strings do. */
  method SortedKeysOf(s: set<GoString>) returns (ks: seq<GoString>)
    ensures ks == SortedList(s)
  {
    ks := [];
    var left := s;
    while left != {}
      invariant left <= s && Increasing(ks) && (forall k :: k in ks <==> k in s - left)
      decreases left
    {
      var k :| k in left;
      left := left - {k};
      ks := InsertString(k, ks);
    }
    SortedListUnique(ks, SortedList(s), s);
  }

  /** One step of an insertion sort. */
  method InsertString(k: GoString, ks: seq<GoString>) returns (r: seq<GoString>)
    requires Increasing(ks) && k !in ks
    ensures Increasing(r) && forall j :: j in r <==> j == k || j in ks
  {
    var i := 0;
    while i < |ks| && Less(ks[i], k)
      invariant 0 <= i <= |ks|
      invariant forall j :: 0 <= j < i ==> Less(ks[j], k)
    {
      i := i + 1;
    }
    forall j | i <= j < |ks| ensures Less(k, ks[j]) {
      LessTotal(ks[i], k);
      if j > i { LessTransitive(k, ks[i], ks[j]); }
    }
    r := ks[..i] + [k] + ks[i..];
  }
}
