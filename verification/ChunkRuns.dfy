/** Runs of chunk writes that may fail, and what the accumulator makes of any run. */
module ChunkRuns {
  import opened GoText
  import opened Outcomes
  import opened FrameJson
  import opened ChunkStream

  // ----- runs in which calls may fail -----

  predicate Identified(w: Write) { w.refId != [] && w.frameId != [] }

  /** The call marks `key` as sent, whether it succeeds or not. */
  predicate Marks(w: Write, key: GoString) { Identified(w) && Joined(w, DASH) == key }

  lemma {:induction false} SentExactly(ws: seq<Write>, n: nat, key: GoString)
    requires n <= |ws|
    ensures key in SentUpTo(ws, n) <==> exists i: nat :: i < n && Marks(ws[i], key)
    decreases n
  {
    if n > 0 {
      SentExactly(ws, n - 1, key);
      if i: nat :| i < n - 1 && Marks(ws[i], key) { assert i < n; }
      if Marks(ws[n - 1], key) { assert n - 1 < n; }
    }
  }

  function Reply(ws: seq<Write>, i: nat): Result<Chunk, Refusal>
    requires i < |ws|
  {
    Answer(SentUpTo(ws, i), ws[i])
  }

  /** Call `i` succeeds. */
  predicate Sends(ws: seq<Write>, i: nat) { i < |ws| && Reply(ws, i).Ok? }

  predicate WithSchema(c: Chunk) { c.payload.Some? && c.payload.value.schema.Some? }

  lemma SendsWhat(ws: seq<Write>, i: nat)
    requires Sends(ws, i)
    ensures Identified(ws[i]) && ws[i].taken && !Ragged(ws[i].frame.columns)
    ensures WithSchema(Reply(ws, i).value) <==> forall j: nat :: j < i ==> !Marks(ws[j], Joined(ws[i], DASH))
  {
    SentExactly(ws, i, Joined(ws[i], DASH));
  }

  /** Once a call with a frame's identifiers was made, succeeding or not, no chunk of that frame carries the schema. */
  lemma NoSchemaAgain(ws: seq<Write>, i: nat, j: nat)
    requires i < j && Sends(ws, j) && Identified(ws[i]) && SameId(ws[i], ws[j])
    ensures !WithSchema(Reply(ws, j).value)
  {
    SendsWhat(ws, j);
    assert Marks(ws[i], Joined(ws[j], DASH));
  }

  /** Joining the identifiers loses nothing among calls that have them. */
  predicate IdsApart(ws: seq<Write>, separator: byte) {
    forall i, j {:trigger Joined(ws[i], separator), Joined(ws[j], separator)} ::
      0 <= i < |ws| && 0 <= j < |ws| && Identified(ws[i]) && Identified(ws[j]) ==>
        Joined(ws[i], separator) == Joined(ws[j], separator) ==> SameId(ws[i], ws[j])
  }

  /** Without collisions a chunk carries the schema exactly when no call before it had its identifiers. */
  lemma SchemaExactly(ws: seq<Write>, i: nat)
    requires Sends(ws, i) && IdsApart(ws, DASH)
    ensures WithSchema(Reply(ws, i).value) <==> First(ws, i)
  {
    SendsWhat(ws, i);
    forall j: nat | j < i ensures Marks(ws[j], Joined(ws[i], DASH)) <==> SameId(ws[j], ws[i]) {
      assert Joined(ws[j], DASH) == Joined(ws[i], DASH) <== SameId(ws[j], ws[i]);
    }
    if First(ws, i) {
      forall j: nat | j < i ensures !Marks(ws[j], Joined(ws[i], DASH)) { assert !SameId(ws[j], ws[i]); }
    }
  }

  // ----- the calls that succeed, and their chunks -----

  function Sent(ws: seq<Write>, n: nat): seq<Write>
    requires n <= |ws|
  {
    if n == 0 then [] else Sent(ws, n - 1) + if Sends(ws, n - 1) then [ws[n - 1]] else []
  }

  function SentChunks(ws: seq<Write>, n: nat): seq<Chunk>
    requires n <= |ws|
  {
    if n == 0 then [] else SentChunks(ws, n - 1) + if Sends(ws, n - 1) then [Reply(ws, n - 1).value] else []
  }

  /** The writer called with any writes hands out these chunks. */
  method WriteRun(ws: seq<Write>) returns (cs: seq<Chunk>)
    ensures cs == SentChunks(ws, |ws|)
  {
    var writer := new ChunkedDataWriter(true, _ => None);
    cs := [];
    for i := 0 to |ws|
      invariant fresh(writer) && writer.isJson && writer.sent == SentUpTo(ws, i) && cs == SentChunks(ws, i)
    {
      var r := writer.WriteFrame(ws[i]);
      if r.Ok? {
        cs := cs + [r.value];
      }
    }
  }

  lemma SentNext(ws: seq<Write>, n: nat, w: Write)
    requires 0 < n <= |ws|
    ensures w in Sent(ws, n) <==> w in Sent(ws, n - 1) || (Sends(ws, n - 1) && ws[n - 1] == w)
  {
  }

  lemma {:induction false} SentFrom(ws: seq<Write>, n: nat, w: Write) returns (i: nat)
    requires n <= |ws| && w in Sent(ws, n)
    ensures i < n && Sends(ws, i) && ws[i] == w
    decreases n
  {
    SentNext(ws, n, w);
    if w in Sent(ws, n - 1) {
      i := SentFrom(ws, n - 1, w);
    } else {
      i := n - 1;
    }
  }

  lemma {:induction false} SentInto(ws: seq<Write>, n: nat, i: nat)
    requires i < n <= |ws| && Sends(ws, i)
    ensures ws[i] in Sent(ws, n)
    decreases n
  {
    SentNext(ws, n, ws[i]);
    if i < n - 1 { SentInto(ws, n - 1, i); }
  }

  lemma {:induction false} SentInPairs(ws: seq<Write>, n: nat)
    requires n <= |ws|
    ensures |Sent(ws, n)| == |SentChunks(ws, n)|
    decreases n
  {
    if n > 0 { SentInPairs(ws, n - 1); }
  }

  /** Frames that are sent have typed columns, and times in the first that fit. */
  ghost predicate Readable(ws: seq<Write>) {
    forall i {:trigger Sends(ws, i)} :: 0 <= i < |ws| && Sends(ws, i) ==>
      FrameOk(ws[i].frame.columns) && FirstColumnFits(ws[i].frame.columns)
  }

  /** The first call for the frame of call `i` succeeded. */
  ghost predicate FirstSent(ws: seq<Write>, i: nat) {
    i < |ws| && exists f: nat :: f <= i && IsFirstSent(ws, i, f)
  }

  predicate IsFirstSent(ws: seq<Write>, i: nat, f: nat) {
    i < |ws| && f < |ws| && SameId(ws[f], ws[i]) && First(ws, f) && Sends(ws, f)
  }

  // ----- when all first calls succeed -----

  lemma ChunkOfPrefix(ws: seq<Write>, w: Write, k: nat)
    requires k < |ws|
    ensures ChunkOf(ws + [w], k) == ChunkOf(ws, k)
  {
    var all := ws + [w];
    forall j | 0 <= j < k ensures SameId(all[j], all[k]) <==> SameId(ws[j], ws[k]) {}
  }

  lemma StreamSnoc(ws: seq<Write>, cs: seq<Chunk>, w: Write, c: Chunk)
    requires Stream(ws, cs) && IsNth(ws + [w], |ws|, c)
    ensures Stream(ws + [w], cs + [c])
  {
    var all, chunks := ws + [w], cs + [c];
    forall k: nat | k < |chunks| ensures IsNth(all, k, chunks[k]) {
      if k < |ws| {
        assert IsNth(ws, k, cs[k]);
        ChunkOfPrefix(ws, w, k);
      }
    }
  }

  /** Among the calls that succeed a call is the first of its frame exactly when it is among all calls. */
  lemma FirstAmongSent(ws: seq<Write>, n: nat, sent: seq<Write>)
    requires n < |ws| && sent == Sent(ws, n) && Sends(ws, n) && FirstSent(ws, n)
    ensures First(sent + [ws[n]], |sent|) <==> First(ws, n)
  {
    var all := sent + [ws[n]];
    if First(ws, n) {
      forall j | 0 <= j < |sent| ensures !SameId(all[j], ws[n]) {
        var i := SentFrom(ws, n, sent[j]);
      }
    } else {
      var f: nat :| f <= n && IsFirstSent(ws, n, f);
      SentInto(ws, n, f);
      var j :| 0 <= j < |sent| && sent[j] == ws[f];
      assert SameId(all[j], ws[n]);
    }
  }

  lemma NthIs(ws: seq<Write>, n: nat, sent: seq<Write>)
    requires n < |ws| && sent == Sent(ws, n) && Sends(ws, n) && FirstSent(ws, n) && IdsApart(ws, DASH)
    ensures IsNth(sent + [ws[n]], |sent|, Reply(ws, n).value)
  {
    FirstAmongSent(ws, n, sent);
    SchemaExactly(ws, n);
  }

  lemma {:induction false} SentIsStream(ws: seq<Write>, n: nat)
    requires n <= |ws| && IdsApart(ws, DASH) && forall i: nat :: i < n && Sends(ws, i) ==> FirstSent(ws, i)
    ensures Stream(Sent(ws, n), SentChunks(ws, n))
    decreases n
  {
    if n > 0 {
      SentIsStream(ws, n - 1);
      if Sends(ws, n - 1) {
        NthIs(ws, n - 1, Sent(ws, n - 1));
        StreamSnoc(Sent(ws, n - 1), SentChunks(ws, n - 1), ws[n - 1], Reply(ws, n - 1).value);
      } else {
        assert Sent(ws, n) == Sent(ws, n - 1) && SentChunks(ws, n) == SentChunks(ws, n - 1);
      }
    }
  }

  lemma SentSucceed(ws: seq<Write>)
    requires Readable(ws)
    ensures AllSucceed(Sent(ws, |ws|))
  {
    var sent := Sent(ws, |ws|);
    forall k | 0 <= k < |sent| ensures Succeeds(sent[k]) {
      var i := SentFrom(ws, |ws|, sent[k]);
      SendsWhat(ws, i);
    }
  }

  lemma SentApart(ws: seq<Write>, separator: byte)
    requires IdsApart(ws, separator)
    ensures CollisionFree(Sent(ws, |ws|), separator)
  {
    var sent := Sent(ws, |ws|);
    forall k, l | 0 <= k < |sent| && 0 <= l < |sent| && Joined(sent[k], separator) == Joined(sent[l], separator)
      ensures SameId(sent[k], sent[l])
    {
      var i := SentFrom(ws, |ws|, sent[k]);
      var j := SentFrom(ws, |ws|, sent[l]);
      SendsWhat(ws, i);
      SendsWhat(ws, j);
    }
  }

  /** What a whole run should be put together to: the frames of the calls that succeeded, in order of appearance. */
  ghost predicate Specified(ws: seq<Write>, b: Built) {
    var fs := Firsts(ws, |ws|);
    && |b.frames| == |fs| && (forall k :: 0 <= k < |fs| ==> b.frames[k] == ChunkStream.Whole(ws, |ws|, fs[k]))
    && (forall refId :: ResponseOf(b, refId).frames == Listed(ws, fs, refId))
  }

  lemma SentComesOut(libs: Libs, ws: seq<Write>)
    requires ExactTo53(libs) && Readable(ws) && OneSchema(Sent(ws, |ws|)) && IdsApart(ws, DASH) && IdsApart(ws, PIPE)
    requires forall i: nat :: Sends(ws, i) ==> FirstSent(ws, i)
    ensures var r := AccumulateUpTo(libs, SentChunks(ws, |ws|), |SentChunks(ws, |ws|)|);
            r.Some? && Specified(Sent(ws, |ws|), r.value)
  {
    var sent, cs := Sent(ws, |ws|), SentChunks(ws, |ws|);
    SentSucceed(ws);
    SentApart(ws, PIPE);
    SentIsStream(ws, |ws|);
    SentInPairs(ws, |ws|);
    AccumulatesAll(libs, sent, cs, |sent|);
    var b :| Reached(libs, sent, cs, |sent|, b);
  }

  // ----- when one does not -----

  lemma {:induction false} SentPrefix(ws: seq<Write>, n: nat, m: nat)
    requires n <= m <= |ws|
    ensures SentChunks(ws, n) <= SentChunks(ws, m)
    decreases m
  {
    if n < m { SentPrefix(ws, n, m - 1); }
  }

  lemma {:induction false} SamePrefix(libs: Libs, cs: seq<Chunk>, ds: seq<Chunk>, n: nat)
    requires n <= |cs| && cs <= ds
    ensures AccumulateUpTo(libs, cs, n) == AccumulateUpTo(libs, ds, n)
    decreases n
  {
    if n > 0 {
      SamePrefix(libs, cs, ds, n - 1);
      assert cs[n - 1] == ds[n - 1];
    }
  }

  lemma NewKeyOnly(libs: Libs, b: Built, c: Chunk)
    requires Wf(b) && Accumulate(libs, b, c).Some?
    ensures Accumulate(libs, b, c).value.byKey.Keys <= b.byKey.Keys + {Key(c)}
  {
  }

  /** The accumulator knows only keys of chunks it has seen. */
  lemma {:induction false} KeysAreOfChunks(libs: Libs, cs: seq<Chunk>, n: nat)
    requires n <= |cs|
    ensures forall key :: key in KeysAt(libs, cs, n) ==> exists k: nat :: k < n && Key(cs[k]) == key
    decreases n
  {
    if n > 0 && AccumulateUpTo(libs, cs, n).Some? {
      KeysAreOfChunks(libs, cs, n - 1);
      var b := AccumulateUpTo(libs, cs, n - 1).value;
      AccumulateStep(libs, cs, n, b, cs[n - 1]);
      NewKeyOnly(libs, b, cs[n - 1]);
      forall key | key in KeysAt(libs, cs, n) ensures exists k: nat :: k < n && Key(cs[k]) == key {
        if key != Key(cs[n - 1]) {
          assert key in KeysAt(libs, cs, n - 1);
          var k: nat :| k < n - 1 && Key(cs[k]) == key;
          assert k < n;
        } else {
          assert n - 1 < n;
        }
      }
    }
  }

  /** A chunk without schema for a frame that is not known cannot be read, if it has columns. */
  lemma UnknownFrameFails(libs: Libs, b: Built, c: Chunk)
    requires Wf(b) && c.payload.Some? && c.payload.value.schema.None? && c.payload.value.data.values != []
    requires Key(c) !in b.byKey
    ensures Accumulate(libs, b, c).None?
  {
    NoColumnsNoValues(libs, c.payload.value.data.values, |c.payload.value.data.values|);
  }

  lemma {:induction false} ChunkMembers(ws: seq<Write>, n: nat, k: nat)
    requires n <= |ws| && k < |SentChunks(ws, n)|
    ensures exists i: nat :: i < n && Sends(ws, i) && SentChunks(ws, n)[k] == Reply(ws, i).value
    decreases n
  {
    if k < |SentChunks(ws, n - 1)| {
      ChunkMembers(ws, n - 1, k);
      var i: nat :| i < n - 1 && Sends(ws, i) && SentChunks(ws, n - 1)[k] == Reply(ws, i).value;
      assert i < n;
    } else {
      assert n - 1 < n && Sends(ws, n - 1);
    }
  }

  lemma ReplyKey(ws: seq<Write>, i: nat)
    requires Sends(ws, i)
    ensures Key(Reply(ws, i).value) == Joined(ws[i], PIPE) && Reply(ws, i).value.payload.Some?
    ensures |Reply(ws, i).value.payload.value.data.values| == |ws[i].frame.columns|
  {
  }

  /** No call before `i` with its identifiers succeeded. */
  predicate FirstOfSent(ws: seq<Write>, i: nat) {
    Sends(ws, i) && forall j: nat :: j < i && SameId(ws[j], ws[i]) ==> !Sends(ws, j)
  }

  lemma {:induction false} FindFirstOfSent(ws: seq<Write>, i: nat) returns (f: nat)
    requires Sends(ws, i)
    ensures f <= i && FirstOfSent(ws, f) && SameId(ws[f], ws[i])
    decreases i
  {
    if j: nat :| j < i && SameId(ws[j], ws[i]) && Sends(ws, j) {
      f := FindFirstOfSent(ws, j);
    } else {
      f := i;
    }
  }

  lemma OtherKey(ws: seq<Write>, i: nat, j: nat)
    requires FirstOfSent(ws, i) && IdsApart(ws, PIPE) && j < i && Sends(ws, j)
    ensures Joined(ws[j], PIPE) != Joined(ws[i], PIPE)
  {
    SendsWhat(ws, i);
    SendsWhat(ws, j);
  }

  lemma NotKnown(libs: Libs, ws: seq<Write>, i: nat, cs: seq<Chunk>)
    requires FirstOfSent(ws, i) && IdsApart(ws, PIPE) && cs == SentChunks(ws, i)
    ensures Joined(ws[i], PIPE) !in KeysAt(libs, cs, |cs|)
  {
    KeysAreOfChunks(libs, cs, |cs|);
    forall key | key in KeysAt(libs, cs, |cs|) ensures key != Joined(ws[i], PIPE) {
      var k: nat :| k < |cs| && Key(cs[k]) == key;
      ChunkMembers(ws, i, k);
      var j: nat :| j < i && Sends(ws, j) && cs[k] == Reply(ws, j).value;
      ReplyKey(ws, j);
      OtherKey(ws, i, j);
    }
  }

  /** The first chunk of a frame whose first call failed stops the accumulator. */
  lemma LostFrameFails(libs: Libs, ws: seq<Write>, i: nat, was: seq<Chunk>, c: Chunk)
    requires FirstOfSent(ws, i) && !First(ws, i) && ws[i].frame.columns != [] && IdsApart(ws, DASH) && IdsApart(ws, PIPE)
    requires was == SentChunks(ws, i) && c == Reply(ws, i).value
    ensures AccumulateUpTo(libs, was + [c], |was| + 1).None?
  {
    var cs := was + [c];
    SchemaExactly(ws, i);
    ReplyKey(ws, i);
    NotKnown(libs, ws, i, was);
    SamePrefix(libs, was, cs, |was|);
    SameKeys(libs, was, cs, |was|, |cs|);
    FailsAfter(libs, cs, |cs|, c);
  }

  lemma SameKeys(libs: Libs, was: seq<Chunk>, cs: seq<Chunk>, m: nat, n: nat)
    requires m == n - 1 && m <= |was| && n <= |cs| && AccumulateUpTo(libs, was, m) == AccumulateUpTo(libs, cs, m)
    ensures KeysAt(libs, was, m) == KeysAt(libs, cs, n - 1)
  {
  }

  lemma FailsAfter(libs: Libs, cs: seq<Chunk>, n: nat, c: Chunk)
    requires 0 < n <= |cs| && cs[n - 1] == c && c.payload.Some? && c.payload.value.schema.None?
    requires c.payload.value.data.values != [] && Key(c) !in KeysAt(libs, cs, n - 1)
    ensures AccumulateUpTo(libs, cs, n).None?
  {
    var before := AccumulateUpTo(libs, cs, n - 1);
    if before.Some? {
      AccumulateStep(libs, cs, n, before.value, c);
      UnknownFrameFails(libs, before.value, c);
    }
  }

  lemma LostIsNotFirst(ws: seq<Write>, i: nat, f: nat)
    requires i < |ws| && !FirstSent(ws, i) && f <= i && Sends(ws, f) && SameId(ws[f], ws[i])
    ensures !First(ws, f)
  {
    assert IsFirstSent(ws, i, f) <==> First(ws, f);
  }

  lemma PrefixFails(libs: Libs, some: seq<Chunk>, all: seq<Chunk>)
    requires some <= all && AccumulateUpTo(libs, some, |some|).None?
    ensures AccumulateUpTo(libs, all, |all|).None?
  {
    SamePrefix(libs, some, all, |some|);
    FailureStays(libs, all, |some|, |all|);
  }

  lemma NextSent(ws: seq<Write>, i: nat)
    requires Sends(ws, i)
    ensures SentChunks(ws, i) + [Reply(ws, i).value] <= SentChunks(ws, |ws|)
  {
    SentPrefix(ws, i + 1, |ws|);
    assert SentChunks(ws, i + 1) == SentChunks(ws, i) + [Reply(ws, i).value];
  }

  lemma AlikeIn(sent: seq<Write>, v: Write, w: Write)
    requires OneSchema(sent) && v in sent && w in sent && (SameId(v, w) || (CollisionFree(sent, PIPE) && Joined(v, PIPE) == Joined(w, PIPE)))
    ensures Types(v.frame.columns) == Types(w.frame.columns)
  {
    var k :| 0 <= k < |sent| && sent[k] == v;
    var l :| 0 <= l < |sent| && sent[l] == w;
    assert Joined(sent[k], PIPE) == Joined(sent[l], PIPE);
    assert SameId(sent[k], sent[l]);
    assert HeaderOf(Addressed(v)).types == HeaderOf(Addressed(w)).types;
  }

  lemma SameColumns(ws: seq<Write>, i: nat, j: nat)
    requires OneSchema(Sent(ws, |ws|)) && Sends(ws, i) && Sends(ws, j) && SameId(ws[i], ws[j])
    ensures Types(ws[i].frame.columns) == Types(ws[j].frame.columns)
  {
    SentInto(ws, |ws|, i);
    SentInto(ws, |ws|, j);
    AlikeIn(Sent(ws, |ws|), ws[i], ws[j]);
  }

  lemma OneLostFails(libs: Libs, ws: seq<Write>, i: nat)
    requires Sends(ws, i) && !FirstSent(ws, i) && ws[i].frame.columns != []
    requires OneSchema(Sent(ws, |ws|)) && IdsApart(ws, DASH) && IdsApart(ws, PIPE)
    ensures var cs := SentChunks(ws, |ws|); AccumulateUpTo(libs, cs, |cs|).None?
  {
    var f := FindFirstOfSent(ws, i);
    LostIsNotFirst(ws, i, f);
    SameColumns(ws, f, i);
    assert |Types(ws[f].frame.columns)| == |Types(ws[i].frame.columns)|;
    var was, c := SentChunks(ws, f), Reply(ws, f).value;
    LostFrameFails(libs, ws, f, was, c);
    NextSent(ws, f);
    PrefixFails(libs, was + [c], SentChunks(ws, |ws|));
  }

  // ----- when the accumulator takes a run -----

  /** The state knows the keys of the calls `done`, and the column types of all calls it knows. */
  ghost predicate Typed(done: seq<Write>, all: seq<Write>, b: Built) {
    Wf(b) && (forall w :: w in done ==> Joined(w, PIPE) in b.byKey) && forall w :: w in all ==> TypesAt(w, b)
  }

  /** If the frame of this call is known, it has the types of the call's columns. */
  predicate TypesAt(w: Write, b: Built)
    requires Wf(b)
  {
    Joined(w, PIPE) in b.byKey ==> Types(b.frames[b.byKey[Joined(w, PIPE)]].columns) == Types(w.frame.columns)
  }

  /** Without its first call a frame of no columns is taken as a frame without anything. */
  lemma BlankAccumulates(libs: Libs, b: Built, c: Chunk)
    requires Wf(b) && c.format.Json? && c.payload.Some? && c.payload.value.schema.None?
    requires c.payload.value.data == Doc([], None, None) && Key(c) !in b.byKey
    ensures Accumulate(libs, b, c).Some?
    ensures var after := Accumulate(libs, b, c).value;
            && after.frames == b.frames + [DataFrame([], [], [], [])]
            && after.byKey == b.byKey[Key(c) := |b.frames|]
  {
    assert Valued(libs, [], [], 0) == Ok(EmptyColumns([]));
  }

  predicate SameShape(before: Built, after: Built) {
    && after.byKey == before.byKey && |after.frames| == |before.frames|
    && forall l :: 0 <= l < |before.frames| ==> Types(after.frames[l].columns) == Types(before.frames[l].columns)
  }

  lemma AppendedTypes(f: Frame, g: Frame)
    requires |f| == |g|
    ensures Types(Appended(f, g)) == Types(f)
  {
  }

  lemma KnownAccumulates(libs: Libs, b: Built, w: Write, k: nat)
    requires ExactTo53(libs) && Succeeds(w) && Wf(b) && HasKey(b.byKey, Joined(w, PIPE), k) && TypesAt(w, b)
    ensures Accumulate(libs, b, ChunkFor(w, false)).Some?
    ensures SameShape(b, Accumulate(libs, b, ChunkFor(w, false)).value)
  {
    MoreAccumulates(libs, w, b, k);
    AppendedTypes(b.frames[k].columns, Kept(w).columns);
  }

  lemma TypesAtNew(v: Write, key: GoString, b: Built, f: DataFrame, after: Built)
    requires Wf(b) && TypesAt(v, b) && (Joined(v, PIPE) == key ==> Types(f.columns) == Types(v.frame.columns))
    requires after.frames == b.frames + [f] && after.byKey == b.byKey[key := |b.frames|]
    ensures Wf(after) && TypesAt(v, after)
  {
  }

  /** A frame is added under the key of a call, with its types. */
  lemma TypedNew(done: seq<Write>, all: seq<Write>, w: Write, b: Built, f: DataFrame, after: Built)
    requires Typed(done, all, b) && w in all && OneSchema(all) && CollisionFree(all, PIPE)
    requires Types(f.columns) == Types(w.frame.columns)
    requires after.frames == b.frames + [f] && after.byKey == b.byKey[Joined(w, PIPE) := |b.frames|]
    ensures Typed(done + [w], all, after)
  {
    TypesAtNew(w, Joined(w, PIPE), b, f, after);
    forall v | v in all ensures TypesAt(v, after) {
      if Joined(v, PIPE) == Joined(w, PIPE) { AlikeIn(all, v, w); }
      TypesAtNew(v, Joined(w, PIPE), b, f, after);
    }
  }

  lemma TypedKnown(done: seq<Write>, all: seq<Write>, w: Write, b: Built, after: Built)
    requires Typed(done, all, b) && Joined(w, PIPE) in b.byKey && SameShape(b, after)
    ensures Typed(done + [w], all, after)
  {
    forall v | v in all ensures TypesAt(v, after) { assert TypesAt(v, b); }
  }

  /** The state takes this chunk of call `w`. */
  ghost predicate Takes(libs: Libs, b: Built, c: Chunk, done: seq<Write>, all: seq<Write>, after: Built) {
    Wf(b) && Accumulate(libs, b, c) == Some(after) && Typed(done, all, after)
  }

  lemma TakesNew(libs: Libs, done: seq<Write>, all: seq<Write>, w: Write, b: Built)
    requires ExactTo53(libs) && Typed(done, all, b) && w in all && OneSchema(all) && CollisionFree(all, PIPE)
    requires Succeeds(w) && Joined(w, PIPE) !in b.byKey
    ensures exists after :: Takes(libs, b, ChunkFor(w, true), done + [w], all, after)
  {
    var c := ChunkFor(w, true);
    FirstAccumulates(libs, w, b);
    var after := Accumulate(libs, b, c).value;
    TypedNew(done, all, w, b, Kept(w), after);
    assert Takes(libs, b, c, done + [w], all, after);
  }

  lemma TakesKnown(libs: Libs, done: seq<Write>, all: seq<Write>, w: Write, b: Built)
    requires ExactTo53(libs) && Typed(done, all, b) && w in all && Succeeds(w) && Joined(w, PIPE) in b.byKey
    ensures exists after :: Takes(libs, b, ChunkFor(w, false), done + [w], all, after)
  {
    var c := ChunkFor(w, false);
    assert TypesAt(w, b);
    KnownAccumulates(libs, b, w, b.byKey[Joined(w, PIPE)]);
    var after := Accumulate(libs, b, c).value;
    TypedKnown(done, all, w, b, after);
    assert Takes(libs, b, c, done + [w], all, after);
  }

  lemma TakesBlank(libs: Libs, done: seq<Write>, all: seq<Write>, w: Write, b: Built)
    requires Typed(done, all, b) && w in all && OneSchema(all) && CollisionFree(all, PIPE)
    requires w.frame.columns == [] && Joined(w, PIPE) !in b.byKey
    ensures exists after :: Takes(libs, b, ChunkFor(w, false), done + [w], all, after)
  {
    var c := ChunkFor(w, false);
    assert DocOf([]) == Doc([], None, None);
    BlankAccumulates(libs, b, c);
    var after := Accumulate(libs, b, c).value;
    assert Types(DataFrame([], [], [], []).columns) == Types(w.frame.columns);
    TypedNew(done, all, w, b, DataFrame([], [], [], []), after);
    assert Takes(libs, b, c, done + [w], all, after);
  }

  lemma ReplyIs(ws: seq<Write>, i: nat)
    requires Sends(ws, i) && IdsApart(ws, DASH)
    ensures Reply(ws, i).value == ChunkFor(ws[i], First(ws, i))
  {
    SchemaExactly(ws, i);
    SendsWhat(ws, i);
  }

  /** The key of a frame whose first call was sent before is known. */
  lemma SentIsKnown(ws: seq<Write>, m: nat, b: Built, all: seq<Write>)
    requires m < |ws| && FirstSent(ws, m) && !First(ws, m) && Typed(Sent(ws, m), all, b)
    ensures Joined(ws[m], PIPE) in b.byKey
  {
    var f: nat :| f <= m && IsFirstSent(ws, m, f);
    SentInto(ws, m, f);
    assert Joined(ws[f], PIPE) == Joined(ws[m], PIPE);
  }

  /** Only frames of no columns have lost their first call. */
  ghost predicate OnlyBlankLost(ws: seq<Write>) {
    forall i: nat :: Sends(ws, i) && ws[i].frame.columns != [] ==> FirstSent(ws, i)
  }

  lemma OneTaken(libs: Libs, ws: seq<Write>, m: nat, all: seq<Write>, b: Built)
    requires ExactTo53(libs) && Sends(ws, m) && OnlyBlankLost(ws) && IdsApart(ws, DASH) && IdsApart(ws, PIPE)
    requires OneSchema(all) && CollisionFree(all, PIPE) && ws[m] in all && Succeeds(ws[m])
    requires Typed(Sent(ws, m), all, b) && b.byKey.Keys == KeysAt(libs, SentChunks(ws, m), |SentChunks(ws, m)|)
    ensures exists after :: Takes(libs, b, Reply(ws, m).value, Sent(ws, m) + [ws[m]], all, after)
  {
    ReplyIs(ws, m);
    var w, done := ws[m], Sent(ws, m);
    if First(ws, m) {
      NotKnown(libs, ws, m, SentChunks(ws, m));
      TakesNew(libs, done, all, w, b);
    } else if Joined(w, PIPE) in b.byKey {
      TakesKnown(libs, done, all, w, b);
    } else {
      if FirstSent(ws, m) { SentIsKnown(ws, m, b, all); }
      TakesBlank(libs, done, all, w, b);
    }
  }

  /** The chunks of the first `n` calls are taken. */
  ghost predicate TakenTo(libs: Libs, cs: seq<Chunk>, done: seq<Write>, all: seq<Write>, b: Built) {
    AccumulateUpTo(libs, cs, |cs|) == Some(b) && Typed(done, all, b)
  }

  lemma {:induction false} TakenNext(libs: Libs, cs: seq<Chunk>, c: Chunk, done: seq<Write>, all: seq<Write>, b: Built, after: Built)
    requires AccumulateUpTo(libs, cs, |cs|) == Some(b) && Takes(libs, b, c, done, all, after)
    ensures TakenTo(libs, cs + [c], done, all, after)
  {
    SamePrefix(libs, cs, cs + [c], |cs|);
    AccumulateStep(libs, cs + [c], |cs| + 1, b, c);
  }

  lemma {:induction false} TakenOneMore(libs: Libs, ws: seq<Write>, m: nat, all: seq<Write>, b: Built)
    requires ExactTo53(libs) && Sends(ws, m) && OnlyBlankLost(ws) && IdsApart(ws, DASH) && IdsApart(ws, PIPE)
    requires OneSchema(all) && CollisionFree(all, PIPE) && ws[m] in all && Succeeds(ws[m])
    requires TakenTo(libs, SentChunks(ws, m), Sent(ws, m), all, b)
    ensures exists after :: TakenTo(libs, SentChunks(ws, m) + [Reply(ws, m).value], Sent(ws, m) + [ws[m]], all, after)
  {
    OneTaken(libs, ws, m, all, b);
    var after :| Takes(libs, b, Reply(ws, m).value, Sent(ws, m) + [ws[m]], all, after);
    TakenNext(libs, SentChunks(ws, m), Reply(ws, m).value, Sent(ws, m) + [ws[m]], all, b, after);
  }

  lemma SentStep(ws: seq<Write>, m: nat, n: nat)
    requires m < n == m + 1 <= |ws|
    ensures Sends(ws, m) ==> Sent(ws, n) == Sent(ws, m) + [ws[m]] && SentChunks(ws, n) == SentChunks(ws, m) + [Reply(ws, m).value]
    ensures !Sends(ws, m) ==> Sent(ws, n) == Sent(ws, m) && SentChunks(ws, n) == SentChunks(ws, m)
  {
  }

  lemma SentIsGood(ws: seq<Write>, m: nat)
    requires Sends(ws, m) && AllSucceed(Sent(ws, |ws|))
    ensures ws[m] in Sent(ws, |ws|) && Succeeds(ws[m])
  {
    var all := Sent(ws, |ws|);
    SentInto(ws, |ws|, m);
    var k :| 0 <= k < |all| && all[k] == ws[m];
    assert Succeeds(all[k]);
  }

  lemma NothingTaken(libs: Libs, all: seq<Write>)
    ensures TakenTo(libs, [], [], all, NOTHING)
  {
  }

  lemma {:induction false} TakesRun(libs: Libs, ws: seq<Write>, n: nat, all: seq<Write>)
    requires ExactTo53(libs) && OnlyBlankLost(ws) && IdsApart(ws, DASH) && IdsApart(ws, PIPE)
    requires n <= |ws| && all == Sent(ws, |ws|) && AllSucceed(all) && OneSchema(all) && CollisionFree(all, PIPE)
    ensures exists b :: TakenTo(libs, SentChunks(ws, n), Sent(ws, n), all, b)
    decreases n
  {
    if n == 0 {
      NothingTaken(libs, all);
      assert SentChunks(ws, 0) == [] && Sent(ws, 0) == [];
    } else {
      var m: nat := n - 1;
      TakesRun(libs, ws, m, all);
      SentStep(ws, m, n);
      var b :| TakenTo(libs, SentChunks(ws, m), Sent(ws, m), all, b);
      if Sends(ws, m) {
        SentIsGood(ws, m);
        TakenOneMore(libs, ws, m, all, b);
        var after :| TakenTo(libs, SentChunks(ws, m) + [Reply(ws, m).value], Sent(ws, m) + [ws[m]], all, after);
        assert TakenTo(libs, SentChunks(ws, n), Sent(ws, n), all, after);
      } else {
        assert TakenTo(libs, SentChunks(ws, n), Sent(ws, n), all, b);
      }
    }
  }

  /** A run is taken exactly when no frame with columns has lost its first call. */
  lemma TakenExactly(libs: Libs, ws: seq<Write>)
    requires ExactTo53(libs) && Readable(ws) && OneSchema(Sent(ws, |ws|)) && IdsApart(ws, DASH) && IdsApart(ws, PIPE)
    ensures AccumulateUpTo(libs, SentChunks(ws, |ws|), |SentChunks(ws, |ws|)|).Some? <==> OnlyBlankLost(ws)
  {
    if OnlyBlankLost(ws) {
      SentSucceed(ws);
      SentApart(ws, PIPE);
      TakesRun(libs, ws, |ws|, Sent(ws, |ws|));
    } else {
      var i: nat :| Sends(ws, i) && ws[i].frame.columns != [] && !FirstSent(ws, i);
      OneLostFails(libs, ws, i);
    }
  }

  // ----- one condition for a stream of successful calls -----

  /** The refID a chunk's frame starts with: none without a schema. */
  function HeadOf(c: Chunk): GoString { if WithSchema(c) then c.payload.value.schema.value.refId else [] }

  function RefsOf(frames: seq<DataFrame>): (rs: seq<GoString>)
    ensures |rs| == |frames| && forall k :: 0 <= k < |rs| ==> rs[k] == frames[k].refId
  {
    seq(|frames|, k requires 0 <= k < |frames| => frames[k].refId)
  }

  /** The frames' refIDs after `n` chunks: a chunk starts a frame when its key is new. */
  function FreshHeads(keys: seq<GoString>, heads: seq<GoString>, n: nat): seq<GoString>
    requires n <= |keys| == |heads|
  {
    if n == 0 then [] else FreshHeads(keys, heads, n - 1) + if keys[n - 1] in keys[..n - 1] then [] else [heads[n - 1]]
  }

  /** A chunk that is taken starts a frame or keeps all refIDs. */
  lemma Grows(libs: Libs, b: Built, c: Chunk)
    requires Wf(b) && c.payload.Some? && Accumulate(libs, b, c).Some?
    ensures var after := Accumulate(libs, b, c).value;
            && after.byKey.Keys == b.byKey.Keys + {Key(c)}
            && RefsOf(after.frames) == RefsOf(b.frames) + if Key(c) in b.byKey then [] else [HeadOf(c)]
  {
    var after := Accumulate(libs, b, c).value;
    if Key(c) in b.byKey {
      assert RefsOf(after.frames) == RefsOf(b.frames);
    } else {
      assert RefsOf(after.frames) == RefsOf(b.frames) + [HeadOf(c)];
    }
  }

  /** These are the keys and first refIDs of the chunks. */
  ghost predicate Describes(cs: seq<Chunk>, keys: seq<GoString>, heads: seq<GoString>) {
    |keys| == |heads| == |cs|
    && forall i {:trigger keys[i]} :: 0 <= i < |cs| ==> cs[i].payload.Some? && Key(cs[i]) == keys[i] && HeadOf(cs[i]) == heads[i]
  }

  /** The state knows the first `n` keys and has their frames. */
  ghost predicate Knows(keys: seq<GoString>, heads: seq<GoString>, n: nat, known: set<GoString>, refs: seq<GoString>)
    requires n <= |keys| == |heads|
  {
    (forall key :: key in known <==> key in keys[..n]) && refs == FreshHeads(keys, heads, n)
  }

  lemma KnowsNext(keys: seq<GoString>, heads: seq<GoString>, n: nat, known: set<GoString>, refs: seq<GoString>)
    requires 0 < n <= |keys| == |heads| && Knows(keys, heads, n - 1, known, refs)
    ensures Knows(keys, heads, n, known + {keys[n - 1]}, refs + if keys[n - 1] in known then [] else [heads[n - 1]])
  {
    assert keys[..n] == keys[..n - 1] + [keys[n - 1]];
  }

  lemma {:induction false} TakenKnows(libs: Libs, cs: seq<Chunk>, keys: seq<GoString>, heads: seq<GoString>, n: nat)
    requires Describes(cs, keys, heads) && n <= |cs| && AccumulateUpTo(libs, cs, n).Some?
    ensures var b := AccumulateUpTo(libs, cs, n).value; Knows(keys, heads, n, b.byKey.Keys, RefsOf(b.frames))
    decreases n
  {
    if n > 0 {
      TakenKnows(libs, cs, keys, heads, n - 1);
      var b, c := AccumulateUpTo(libs, cs, n - 1).value, cs[n - 1];
      assert keys[n - 1] == Key(c) && heads[n - 1] == HeadOf(c);
      AccumulateStep(libs, cs, n, b, c);
      Grows(libs, b, c);
      KnowsNext(keys, heads, n, b.byKey.Keys, RefsOf(b.frames));
    }
  }

  lemma FreshIsFirst(ws: seq<Write>, keys: seq<GoString>, n: nat)
    requires n < |ws| && keys == PipeKeys(ws) && keys[n] !in keys[..n]
    ensures First(ws, n)
  {
    forall j | 0 <= j < n ensures !SameId(ws[j], ws[n]) { assert keys[..n][j] == keys[j]; }
  }

  /** There are no more frames than first calls, and as many only if every first call's key is new. */
  lemma {:induction false} NoMoreThanFirsts(ws: seq<Write>, keys: seq<GoString>, heads: seq<GoString>, n: nat)
    requires keys == PipeKeys(ws) && |heads| == |keys| && n <= |ws|
    ensures |FreshHeads(keys, heads, n)| <= |Firsts(ws, n)|
    ensures |FreshHeads(keys, heads, n)| == |Firsts(ws, n)| ==>
              forall i :: 0 <= i < n && First(ws, i) ==> keys[i] !in keys[..i]
    decreases n
  {
    if n > 0 {
      NoMoreThanFirsts(ws, keys, heads, n - 1);
      if keys[n - 1] !in keys[..n - 1] { FreshIsFirst(ws, keys, n - 1); }
    }
  }

  lemma {:induction false} HeadIsThere(keys: seq<GoString>, heads: seq<GoString>, n: nat, i: nat)
    requires i < n <= |keys| == |heads| && keys[i] !in keys[..i]
    ensures heads[i] in FreshHeads(keys, heads, n)
    decreases n
  {
    if i < n - 1 { HeadIsThere(keys, heads, n - 1, i); }
  }

  function HeadsOf(cs: seq<Chunk>): (hs: seq<GoString>)
    ensures |hs| == |cs| && forall i :: 0 <= i < |cs| ==> hs[i] == HeadOf(cs[i])
  {
    seq(|cs|, i requires 0 <= i < |cs| => HeadOf(cs[i]))
  }

  lemma ChunksDescribed(ws: seq<Write>)
    requires AllSucceed(ws)
    ensures Describes(Chunks(ws), PipeKeys(ws), HeadsOf(Chunks(ws)))
  {
    forall i: nat | i < |ws| ensures Chunks(ws)[i].payload.Some? && Key(Chunks(ws)[i]) == Joined(ws[i], PIPE) {
      assert IsChunk(ws, i, Chunks(ws)[i]);
    }
  }

  /** Every frame specified has a refID. */
  lemma SpecifiedRefs(ws: seq<Write>, b: Built)
    requires AllSucceed(ws) && Specified(ws, b)
    ensures |RefsOf(b.frames)| == |Firsts(ws, |ws|)| && [] !in RefsOf(b.frames)
  {
    var fs := Firsts(ws, |ws|);
    forall k | 0 <= k < |fs| ensures b.frames[k].refId != [] {
      assert Succeeds(ws[fs[k]]);
      assert b.frames[k] == ChunkStream.Whole(ws, |ws|, fs[k]);
    }
  }

  /** If the result is as specified, first calls have new keys and send the schema. */
  lemma {:induction false} FirstsAreFresh(libs: Libs, ws: seq<Write>, cs: seq<Chunk>, b: Built)
    requires AllSucceed(ws) && Describes(cs, PipeKeys(ws), HeadsOf(cs)) && |cs| == |ws|
    requires AccumulateUpTo(libs, cs, |cs|) == Some(b) && Specified(ws, b)
    ensures forall i :: 0 <= i < |ws| && First(ws, i) ==> PipeKeys(ws)[i] !in PipeKeys(ws)[..i] && HeadsOf(cs)[i] != []
  {
    var keys, heads := PipeKeys(ws), HeadsOf(cs);
    TakenKnows(libs, cs, keys, heads, |ws|);
    SpecifiedRefs(ws, b);
    NoMoreThanFirsts(ws, keys, heads, |ws|);
    forall i: nat | i < |ws| && First(ws, i) ensures keys[i] !in keys[..i] && heads[i] != [] {
      HeadIsThere(keys, heads, |ws|, i);
    }
  }

  lemma SpecifiedIsCollisionFree(libs: Libs, ws: seq<Write>, b: Built)
    requires AllSucceed(ws) && AccumulateUpTo(libs, Chunks(ws), |ws|) == Some(b) && Specified(ws, b)
    ensures CollisionFree(ws, DASH) && CollisionFree(ws, PIPE)
  {
    ChunksDescribed(ws);
    FirstsAreFresh(libs, ws, Chunks(ws), b);
    var keys := PipeKeys(ws);
    forall k: nat, l: nat | l < k < |ws| && First(ws, k) ensures Joined(ws[l], PIPE) != Joined(ws[k], PIPE) {
      assert keys[..k][l] == keys[l];
    }
    forall i: nat, j: nat | i < |ws| && j < |ws| && Joined(ws[i], PIPE) == Joined(ws[j], PIPE)
      ensures SameId(ws[i], ws[j])
    {
      OneFounder(ws, PIPE, i, j);
    }
    forall i: nat | i < |ws| ensures HasSchema(ws, i) <==> First(ws, i) {
      SchemaIfNotSent(ws, i);
      if !First(ws, i) {
        var j :| 0 <= j < i && SameId(ws[j], ws[i]);
        assert Joined(ws[j], DASH) == Joined(ws[i], DASH);
      }
    }
    SchemaOnFirstExact(ws);
  }

  /** A stream of successful calls is put together as specified exactly when neither joined key collides. */
  lemma StreamExactly(libs: Libs, ws: seq<Write>)
    requires ExactTo53(libs) && AllSucceed(ws) && OneSchema(ws)
    ensures var r := AccumulateUpTo(libs, Chunks(ws), |ws|);
            r.Some? && Specified(ws, r.value) <==> CollisionFree(ws, DASH) && CollisionFree(ws, PIPE)
  {
    var r := AccumulateUpTo(libs, Chunks(ws), |ws|);
    if r.Some? && Specified(ws, r.value) { SpecifiedIsCollisionFree(libs, ws, r.value); }
    if CollisionFree(ws, DASH) && CollisionFree(ws, PIPE) { Reassembled(libs, ws); }
  }

  // ----- one condition for any run -----

  lemma {:induction false} SentPair(ws: seq<Write>, n: nat, k: nat) returns (i: nat)
    requires n <= |ws| && k < |SentChunks(ws, n)| == |Sent(ws, n)|
    ensures i < n && Sends(ws, i) && Sent(ws, n)[k] == ws[i] && SentChunks(ws, n)[k] == Reply(ws, i).value
    decreases n
  {
    SentInPairs(ws, n - 1);
    if k < |SentChunks(ws, n - 1)| {
      i := SentPair(ws, n - 1, k);
    } else {
      i := n - 1;
    }
  }

  /** Where a call that succeeds is among those that do. */
  lemma {:induction false} SentAt(ws: seq<Write>, n: nat, i: nat)
    requires i < n <= |ws| && Sends(ws, i)
    ensures |Sent(ws, i)| == |SentChunks(ws, i)| < |Sent(ws, n)| == |SentChunks(ws, n)|
    ensures var k := |Sent(ws, i)|;
            Sent(ws, n)[..k] == Sent(ws, i) && Sent(ws, n)[k] == ws[i] && SentChunks(ws, n)[k] == Reply(ws, i).value
    decreases n
  {
    SentInPairs(ws, n);
    SentInPairs(ws, i);
    if i < n - 1 {
      SentAt(ws, n - 1, i);
      assert Sent(ws, n - 1)[..|Sent(ws, i)|] == Sent(ws, n)[..|Sent(ws, i)|];
    }
  }

  lemma SentDescribed(ws: seq<Write>)
    ensures |Sent(ws, |ws|)| == |SentChunks(ws, |ws|)|
    ensures Describes(SentChunks(ws, |ws|), PipeKeys(Sent(ws, |ws|)), HeadsOf(SentChunks(ws, |ws|)))
  {
    var sent, cs := Sent(ws, |ws|), SentChunks(ws, |ws|);
    SentInPairs(ws, |ws|);
    forall k: nat | k < |cs| ensures cs[k].payload.Some? && Key(cs[k]) == Joined(sent[k], PIPE) {
      var i := SentPair(ws, |ws|, k);
      ReplyKey(ws, i);
    }
  }

  lemma FirstInSent(ws: seq<Write>, f: nat)
    requires FirstOfSent(ws, f)
    ensures |Sent(ws, f)| < |Sent(ws, |ws|)| && First(Sent(ws, |ws|), |Sent(ws, f)|)
  {
    SentAt(ws, |ws|, f);
    var sent, k := Sent(ws, |ws|), |Sent(ws, f)|;
    forall j | 0 <= j < k ensures !SameId(sent[j], sent[k]) {
      assert sent[..k][j] == sent[j];
      var i := SentFrom(ws, f, sent[j]);
    }
  }

  lemma SpecifiedLosesNone(libs: Libs, ws: seq<Write>, b: Built, f: nat)
    requires Readable(ws) && IdsApart(ws, DASH) && FirstOfSent(ws, f)
    requires AccumulateUpTo(libs, SentChunks(ws, |ws|), |SentChunks(ws, |ws|)|) == Some(b) && Specified(Sent(ws, |ws|), b)
    ensures First(ws, f)
  {
    var sent, cs, k := Sent(ws, |ws|), SentChunks(ws, |ws|), |Sent(ws, f)|;
    SentSucceed(ws);
    SentDescribed(ws);
    FirstInSent(ws, f);
    SentAt(ws, |ws|, f);
    FirstsAreFresh(libs, sent, cs, b);
    assert HeadsOf(cs)[k] != [];
    SchemaExactly(ws, f);
  }

  /** For any run of calls, without collisions: what is sent can be put together at all exactly when no frame with columns
      has lost its first call, and to the rows of all calls that succeeded exactly when no frame has. */
  lemma AnyRunExactly(libs: Libs, ws: seq<Write>)
    requires ExactTo53(libs) && Readable(ws) && OneSchema(Sent(ws, |ws|)) && IdsApart(ws, DASH) && IdsApart(ws, PIPE)
    ensures var r := AccumulateUpTo(libs, SentChunks(ws, |ws|), |SentChunks(ws, |ws|)|);
            && (r.Some? <==> OnlyBlankLost(ws))
            && (r.Some? && Specified(Sent(ws, |ws|), r.value) <==> forall i: nat :: Sends(ws, i) ==> FirstSent(ws, i))
  {
    TakenExactly(libs, ws);
    var r := AccumulateUpTo(libs, SentChunks(ws, |ws|), |SentChunks(ws, |ws|)|);
    if forall i: nat :: Sends(ws, i) ==> FirstSent(ws, i) {
      SentComesOut(libs, ws);
    } else if r.Some? && Specified(Sent(ws, |ws|), r.value) {
      var i: nat :| Sends(ws, i) && !FirstSent(ws, i);
      var f := FindFirstOfSent(ws, i);
      LostIsNotFirst(ws, i, f);
      SpecifiedLosesNone(libs, ws, r.value, f);
    }
  }
}
