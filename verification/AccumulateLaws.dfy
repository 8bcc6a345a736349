/** What `AccumulateJSON` makes of any chunks, whoever sent them (experimental/datasourcetest/chunking.go). */
module AccumulateLaws {
  import opened GoText
  import opened Outcomes
  import opened FrameJson
  import opened ChunkStream

  /** The two chunks carry parts of one frame, as the accumulator's key tells. */
  predicate SameFrame(cs: seq<Chunk>, i: nat, j: nat)
    requires i < |cs| && j < |cs|
  {
    && cs[i].payload.Some? && cs[j].payload.Some?
    && cs[i].refId + [0x7C] + cs[i].frameId == cs[j].refId + [0x7C] + cs[j].frameId
  }

  /** The chunk fs the first of its frame. */
  predicate Starts(cs: seq<Chunk>, i: nat) {
    i < |cs| && cs[i].payload.Some? && forall j :: 0 <= j < i ==> !SameFrame(cs, j, i)
  }

  /** The first chunks of the frames among the first `n`. */
  function AllStarts(cs: seq<Chunk>, n: nat): (fs: seq<nat>)
    requires n <= |cs|
    ensures forall k :: 0 <= k < |fs| ==> fs[k] < n && Starts(cs, fs[k])
    ensures forall i: nat :: i < n && Starts(cs, i) ==> i in fs
    ensures forall k, l :: 0 <= k < l < |fs| ==> fs[k] < fs[l]
  {
    if n == 0 then [] else AllStarts(cs, n - 1) + if Starts(cs, n - 1) then [n - 1] else []
  }

  /** The frame that chunk `i` starts, grown by the chunks of the same frame before `n`; None if one cannot be read. */
  function Grown(libs: Libs, cs: seq<Chunk>, i: nat, n: nat): Option<DataFrame>
    requires i < n <= |cs| && cs[i].payload.Some?
    decreases n
  {
    if n == i + 1 then NewFrame(libs, cs[i].payload.value)
    else
      var f := Grown(libs, cs, i, n - 1);
      if f.None? || !SameFrame(cs, i, n - 1) then f else Extended(libs, f.value, cs[n - 1].payload.value)
  }

  predicate AllJson(cs: seq<Chunk>, n: nat)
    requires n <= |cs|
  {
    forall i :: 0 <= i < n ==> cs[i].format.Json?
  }

  ghost predicate AllGrow(libs: Libs, cs: seq<Chunk>, n: nat)
    requires n <= |cs|
  {
    forall i: nat :: i < n && Starts(cs, i) ==> Grown(libs, cs, i, n).Some?
  }

  /** The frames, in the order in which they start, each under its key. */
  ghost predicate FramesAre(libs: Libs, cs: seq<Chunk>, fs: seq<nat>, n: nat, frames: seq<DataFrame>)
    requires n <= |cs| && forall k :: 0 <= k < |fs| ==> fs[k] < n && cs[fs[k]].payload.Some?
  {
    |frames| == |fs| && forall k: nat :: k < |fs| ==> Grown(libs, cs, fs[k], n) == Some(frames[k])
  }

  predicate KeysAre(cs: seq<Chunk>, fs: seq<nat>, byKey: map<GoString, nat>)
    requires forall k :: 0 <= k < |fs| ==> fs[k] < |cs|
  {
    && (forall k :: 0 <= k < |fs| ==> HasKey(byKey, Key(cs[fs[k]]), k))
    && (forall key :: key in byKey ==> byKey[key] < |fs| && Key(cs[fs[byKey[key]]]) == key)
  }

  /** The frames of a refID, by their places. */
  ghost predicate ListIs(cs: seq<Chunk>, fs: seq<nat>, refId: GoString, ks: seq<nat>)
    requires forall k :: 0 <= k < |fs| ==> fs[k] < |cs|
  {
    && (forall a, b :: 0 <= a < b < |ks| ==> ks[a] < ks[b])
    && (forall k: nat :: k in ks <==> k < |fs| && cs[fs[k]].refId == refId)
  }

  ghost predicate ListsAre(cs: seq<Chunk>, fs: seq<nat>, b: Built)
    requires forall k :: 0 <= k < |fs| ==> fs[k] < |cs|
  {
    forall refId :: ListIs(cs, fs, refId, ResponseOf(b, refId).frames)
  }

  ghost predicate BuiltIs(libs: Libs, cs: seq<Chunk>, n: nat, b: Built)
    requires n <= |cs|
  {
    && FramesAre(libs, cs, AllStarts(cs, n), n, b.frames) && KeysAre(cs, AllStarts(cs, n), b.byKey)
    && ListsAre(cs, AllStarts(cs, n), b)
  }

  // ----- one more chunk -----

  lemma KeyKnown(cs: seq<Chunk>, m: nat, byKey: map<GoString, nat>)
    requires m < |cs| && cs[m].payload.Some? && KeysAre(cs, AllStarts(cs, m), byKey)
    ensures Key(cs[m]) in byKey <==> !Starts(cs, m)
  {
    var fs := AllStarts(cs, m);
    if Key(cs[m]) in byKey { assert SameFrame(cs, fs[byKey[Key(cs[m])]], m); }
    if !Starts(cs, m) {
      var j: nat :| j < m && SameFrame(cs, j, m);
      var i := StartOf(cs, j);
      var k :| 0 <= k < |fs| && fs[k] == i;
      assert HasKey(byKey, Key(cs[i]), k);
    }
  }

  /** The chunk that starts the frame of chunk `j`. */
  lemma {:induction false} StartOf(cs: seq<Chunk>, j: nat) returns (i: nat)
    requires j < |cs| && cs[j].payload.Some?
    ensures i <= j && Starts(cs, i) && SameFrame(cs, i, j)
    decreases j
  {
    if Starts(cs, j) {
      i := j;
    } else {
      var l: nat :| l < j && SameFrame(cs, l, j);
      i := StartOf(cs, l);
    }
  }

  lemma GrownNext(libs: Libs, cs: seq<Chunk>, i: nat, m: nat, n: nat)
    requires i < m < n == m + 1 <= |cs| && cs[i].payload.Some?
    ensures Grown(libs, cs, i, m).None? ==> Grown(libs, cs, i, n).None?
    ensures Grown(libs, cs, i, m).Some? ==>
              Grown(libs, cs, i, n) == if SameFrame(cs, i, m) then Extended(libs, Grown(libs, cs, i, m).value, cs[m].payload.value)
                                       else Grown(libs, cs, i, m)
  {
  }

  /** A chunk that starts no frame: at most the frame at place `p` grows. */
  lemma FramesNext(libs: Libs, cs: seq<Chunk>, m: nat, n: nat, was: seq<DataFrame>, now: seq<DataFrame>)
    requires m < n == m + 1 <= |cs| && !Starts(cs, m) && FramesAre(libs, cs, AllStarts(cs, m), m, was) && |now| == |was|
    requires forall k: nat :: k < |was| ==>
               if SameFrame(cs, AllStarts(cs, m)[k], m) then Extended(libs, was[k], cs[m].payload.value) == Some(now[k])
               else now[k] == was[k]
    ensures AllStarts(cs, n) == AllStarts(cs, m) && FramesAre(libs, cs, AllStarts(cs, n), n, now)
  {
    var fs := AllStarts(cs, m);
    forall k: nat | k < |fs| ensures Grown(libs, cs, fs[k], n) == Some(now[k]) { GrownNext(libs, cs, fs[k], m, n); }
  }

  lemma ListsNext(cs: seq<Chunk>, fs: seq<nat>, b: Built, after: Built, refId: GoString, rsp: Response)
    requires (forall k :: 0 <= k < |fs| ==> fs[k] < |cs|) && ListsAre(cs, fs, b)
    requires after.responses == b.responses[refId := rsp] && rsp.frames == ResponseOf(b, refId).frames
    ensures ListsAre(cs, fs, after)
  {
    forall other ensures ListIs(cs, fs, other, ResponseOf(after, other).frames) {
      assert ListIs(cs, fs, other, ResponseOf(b, other).frames);
    }
  }

  lemma ListsGrow(cs: seq<Chunk>, fs: seq<nat>, m: nat, b: Built, after: Built, rsp: Response)
    requires (forall k :: 0 <= k < |fs| ==> fs[k] < |cs|) && m < |cs| && ListsAre(cs, fs, b)
    requires after.responses == b.responses[cs[m].refId := rsp] && rsp.frames == ResponseOf(b, cs[m].refId).frames + [|fs|]
    ensures ListsAre(cs, fs + [m], after)
  {
    forall other ensures ListIs(cs, fs + [m], other, ResponseOf(after, other).frames) {
      var ks := ResponseOf(b, other).frames;
      assert ListIs(cs, fs, other, ks);
      forall a | 0 <= a < |ks| ensures ks[a] < |fs| { assert ks[a] in ks; }
    }
  }

  lemma NoFrameChunk(libs: Libs, cs: seq<Chunk>, m: nat, n: nat, b: Built)
    requires m < n == m + 1 <= |cs| && Wf(b) && BuiltIs(libs, cs, m, b) && cs[m].format.Json? && cs[m].payload.None?
    ensures Accumulate(libs, b, cs[m]).Some? && BuiltIs(libs, cs, n, Accumulate(libs, b, cs[m]).value)
  {
    var after := Accumulate(libs, b, cs[m]).value;
    FramesNext(libs, cs, m, n, b.frames, after.frames);
    ListsNext(cs, AllStarts(cs, m), b, after, cs[m].refId, after.responses[cs[m].refId]);
  }

  lemma FramesGrow(libs: Libs, cs: seq<Chunk>, fs: seq<nat>, m: nat, n: nat, was: seq<DataFrame>, now: DataFrame)
    requires m < n == m + 1 <= |cs| && Starts(cs, m) && Grown(libs, cs, m, n) == Some(now)
    requires (forall k :: 0 <= k < |fs| ==> fs[k] < m && cs[fs[k]].payload.Some?) && FramesAre(libs, cs, fs, m, was)
    ensures FramesAre(libs, cs, fs + [m], n, was + [now])
  {
    forall k: nat | k < |fs| ensures Grown(libs, cs, fs[k], n) == Some(was[k]) { GrownNext(libs, cs, fs[k], m, n); }
  }

  lemma KeysGrow(cs: seq<Chunk>, fs: seq<nat>, m: nat, byKey: map<GoString, nat>, i: nat)
    requires (forall k :: 0 <= k < |fs| ==> fs[k] < |cs|) && m < |cs| && KeysAre(cs, fs, byKey) && Key(cs[m]) !in byKey && i == |fs|
    ensures KeysAre(cs, fs + [m], byKey[Key(cs[m]) := i])
  {
    forall k | 0 <= k < |fs| ensures HasKey(byKey[Key(cs[m]) := i], Key(cs[fs[k]]), k) { assert HasKey(byKey, Key(cs[fs[k]]), k); }
  }

  lemma FirstChunk(libs: Libs, cs: seq<Chunk>, m: nat, n: nat, b: Built)
    requires m < n == m + 1 <= |cs| && Wf(b) && BuiltIs(libs, cs, m, b) && cs[m].format.Json? && Starts(cs, m)
    ensures Accumulate(libs, b, cs[m]).Some? <==> Grown(libs, cs, m, n).Some?
    ensures Accumulate(libs, b, cs[m]).Some? ==> BuiltIs(libs, cs, n, Accumulate(libs, b, cs[m]).value)
  {
    KeyKnown(cs, m, b.byKey);
    if Accumulate(libs, b, cs[m]).Some? {
      var fs, after := AllStarts(cs, m), Accumulate(libs, b, cs[m]).value;
      assert AllStarts(cs, n) == fs + [m];
      FramesGrow(libs, cs, fs, m, n, b.frames, Grown(libs, cs, m, n).value);
      KeysGrow(cs, fs, m, b.byKey, |b.frames|);
      ListsGrow(cs, fs, m, b, after, after.responses[cs[m].refId]);
    }
  }

  lemma FrameGrows(libs: Libs, cs: seq<Chunk>, m: nat, n: nat, b: Built, k: nat, f: DataFrame)
    requires m < n == m + 1 <= |cs| && BuiltIs(libs, cs, m, b) && !Starts(cs, m) && cs[m].payload.Some?
    requires k < |b.frames| && SameFrame(cs, AllStarts(cs, m)[k], m) && Extended(libs, b.frames[k], cs[m].payload.value) == Some(f)
    ensures AllStarts(cs, n) == AllStarts(cs, m) && FramesAre(libs, cs, AllStarts(cs, n), n, b.frames[k := f])
  {
    var fs := AllStarts(cs, m);
    forall l: nat | l < |fs| ensures SameFrame(cs, fs[l], m) <==> l == k {
      assert HasKey(b.byKey, Key(cs[fs[l]]), l) && HasKey(b.byKey, Key(cs[fs[k]]), k);
    }
    FramesNext(libs, cs, m, n, b.frames, b.frames[k := f]);
  }

  lemma LaterChunk(libs: Libs, cs: seq<Chunk>, m: nat, n: nat, b: Built, k: nat)
    requires m < n == m + 1 <= |cs| && Wf(b) && BuiltIs(libs, cs, m, b) && cs[m].format.Json? && cs[m].payload.Some?
    requires !Starts(cs, m) && Key(cs[m]) in b.byKey && k == b.byKey[Key(cs[m])]
    ensures k < |AllStarts(cs, m)|
    ensures Accumulate(libs, b, cs[m]).Some? <==> Grown(libs, cs, AllStarts(cs, m)[k], n).Some?
    ensures Accumulate(libs, b, cs[m]).Some? ==> BuiltIs(libs, cs, n, Accumulate(libs, b, cs[m]).value)
  {
    var fs := AllStarts(cs, m);
    assert SameFrame(cs, fs[k], m);
    GrownNext(libs, cs, fs[k], m, n);
    if Accumulate(libs, b, cs[m]).Some? {
      var after := Accumulate(libs, b, cs[m]).value;
      FrameGrows(libs, cs, m, n, b, k, after.frames[k]);
      ListsNext(cs, fs, b, after, cs[m].refId, after.responses[cs[m].refId]);
    }
  }

  /** The chunk leaves the frames that other chunks start as they are. */
  lemma OthersGrow(libs: Libs, cs: seq<Chunk>, m: nat, n: nat, but: nat)
    requires m < n == m + 1 <= |cs| && AllGrow(libs, cs, m)
    requires forall i: nat :: i < m && Starts(cs, i) && SameFrame(cs, i, m) ==> i == but
    ensures forall i: nat :: i < m && Starts(cs, i) && i != but ==> Grown(libs, cs, i, n).Some?
  {
    forall i: nat | i < m && Starts(cs, i) && i != but ensures Grown(libs, cs, i, n).Some? { GrownNext(libs, cs, i, m, n); }
  }

  lemma OneStart(cs: seq<Chunk>, i: nat, j: nat, m: nat)
    requires i < |cs| && j < |cs| && m < |cs| && Starts(cs, i) && Starts(cs, j) && SameFrame(cs, i, m) && SameFrame(cs, j, m)
    ensures i == j
  {
    assert SameFrame(cs, i, j) && SameFrame(cs, j, i);
  }

  lemma StepExact(libs: Libs, cs: seq<Chunk>, m: nat, n: nat, b: Built)
    requires m < n == m + 1 <= |cs| && Wf(b) && BuiltIs(libs, cs, m, b) && cs[m].format.Json? && AllGrow(libs, cs, m)
    ensures Accumulate(libs, b, cs[m]).Some? <==> AllGrow(libs, cs, n)
    ensures Accumulate(libs, b, cs[m]).Some? ==> BuiltIs(libs, cs, n, Accumulate(libs, b, cs[m]).value)
  {
    if cs[m].payload.None? {
      OthersGrow(libs, cs, m, n, m);
      NoFrameChunk(libs, cs, m, n, b);
    } else if Starts(cs, m) {
      OthersGrow(libs, cs, m, n, m);
      FirstChunk(libs, cs, m, n, b);
    } else {
      KeyKnown(cs, m, b.byKey);
      var k := b.byKey[Key(cs[m])];
      LaterChunk(libs, cs, m, n, b, k);
      var start := AllStarts(cs, m)[k];
      assert SameFrame(cs, start, m);
      forall i: nat | i < m && Starts(cs, i) && SameFrame(cs, i, m) ensures i == start { OneStart(cs, i, start, m); }
      OthersGrow(libs, cs, m, n, start);
    }
  }

  /** The state after the first `n` chunks, when they are put together. */
  ghost predicate Reached(libs: Libs, cs: seq<Chunk>, n: nat, b: Built) {
    && n <= |cs| && AccumulateUpTo(libs, cs, n) == Some(b)
    && AllJson(cs, n) && AllGrow(libs, cs, n) && BuiltIs(libs, cs, n, b)
  }

  ghost predicate PutTogether(libs: Libs, cs: seq<Chunk>, n: nat) { exists b :: Reached(libs, cs, n, b) }

  lemma ReachedNext(libs: Libs, cs: seq<Chunk>, m: nat, n: nat, b: Built, after: Built)
    requires m < n == m + 1 <= |cs| && Wf(b) && cs[m].format.Json? && Accumulate(libs, b, cs[m]) == Some(after)
    requires AccumulateUpTo(libs, cs, n) == Some(after)
    ensures Reached(libs, cs, m, b) ==> Reached(libs, cs, n, after)
  {
    if Reached(libs, cs, m, b) { StepExact(libs, cs, m, n, b); }
  }

  lemma {:induction false} SomeIsReached(libs: Libs, cs: seq<Chunk>, n: nat)
    requires n <= |cs| && AccumulateUpTo(libs, cs, n).Some?
    ensures PutTogether(libs, cs, n)
    decreases n
  {
    if n == 0 {
      assert Reached(libs, cs, 0, NOTHING);
    } else {
      SomeIsReached(libs, cs, n - 1);
      var b :| Reached(libs, cs, n - 1, b);
      ReachedNext(libs, cs, n - 1, n, b, AccumulateUpTo(libs, cs, n).value);
    }
  }

  /** The first `n` chunks are put together exactly when all are JSON and every frame can be grown by its chunks, each frame
      on its own; the frames come in the order in which they start, and are listed so under their refIDs. */
  lemma {:induction false} AccumulatedExact(libs: Libs, cs: seq<Chunk>, n: nat)
    requires n <= |cs|
    ensures AccumulateUpTo(libs, cs, n).Some? <==> AllJson(cs, n) && AllGrow(libs, cs, n)
    ensures AccumulateUpTo(libs, cs, n).Some? ==> PutTogether(libs, cs, n)
    decreases n
  {
    if AccumulateUpTo(libs, cs, n).Some? {
      SomeIsReached(libs, cs, n);
    } else if AllJson(cs, n) && AllGrow(libs, cs, n) {
      GrewBefore(libs, cs, n - 1, n);
      AccumulatedExact(libs, cs, n - 1);
      var b :| Reached(libs, cs, n - 1, b);
      StepExact(libs, cs, n - 1, n, b);
    }
  }

  lemma GrewBefore(libs: Libs, cs: seq<Chunk>, m: nat, n: nat)
    requires m < n == m + 1 <= |cs| && AllJson(cs, n) && AllGrow(libs, cs, n)
    ensures AllJson(cs, m) && AllGrow(libs, cs, m)
  {
    forall i: nat | i < m && Starts(cs, i) ensures Grown(libs, cs, i, m).Some? { GrownNext(libs, cs, i, m, n); }
  }
}
