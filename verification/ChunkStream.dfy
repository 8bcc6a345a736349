/** Frames sent in chunks (backend/chunked.go) and put together again (experimental/datasourcetest/chunking.go),
    in the JSON format. */
module ChunkStream {
  import opened GoText
  import opened Outcomes
  import opened FrameJson

  // ----- frames and chunks -----

  /** `names` stands for the names of the frame and its fields, `about` for the metadata, labels and configuration. */
  datatype DataFrame = DataFrame(names: GoString, about: GoString, refId: GoString, columns: Frame)

  datatype Header = Header(names: GoString, about: GoString, refId: GoString, types: seq<ColType>)

  /** A frame in JSON: the schema is optional. */
  datatype Payload = Payload(schema: Option<Header>, data: Doc)

  /** A chunk's error text and error source; empty when there is none. */
  datatype Fault = Fault(error: GoString, source: GoString)

  const NO_FAULT := Fault([], [])

  /** The bytes of an Arrow frame are carried as they are. */
  datatype Format = Json | Arrow(bytes: GoString)

  datatype Chunk = Chunk(refId: GoString, frameId: GoString, status: int, format: Format, payload: Option<Payload>, fault: Fault)

  /** The schema as it reads: names and refID are written as they are, the rest like values, up to malformed bytes. */
  function HeaderOf(f: DataFrame): Header { Header(f.names, Decoded(f.about), f.refId, Types(f.columns)) }

  predicate Ragged(f: Frame) { exists j :: 0 <= j < |f| && |f[j].cells| != |f[0].cells| }

  /** FrameToJSON; None stands for its error. */
  function Encode(f: DataFrame, includeSchema: bool): Option<Payload> {
    if Ragged(f.columns) then None
    else Some(Payload(if includeSchema then Some(HeaderOf(f)) else None, DocOf(f.columns)))
  }

  method FrameToJson(f: DataFrame, includeSchema: bool) returns (p: Option<Payload>)
    ensures p == Encode(f, includeSchema)
  {
    var doc := WriteData(f.columns);
    if doc.None? {
      return None;
    }
    p := Some(Payload(if includeSchema then Some(HeaderOf(f)) else None, doc.value));
  }

  // ----- the writer -----

  datatype Refusal = MissingRefId | MissingFrameId | Unencodable | CallbackFailed

  /** A call of WriteFrame: its identifiers, the frame, and whether the callback takes the chunk. */
  datatype Write = Write(refId: GoString, frameId: GoString, frame: DataFrame, taken: bool)

  const DASH: byte := 0x2D
  const PIPE: byte := 0x7C

  function Joined(w: Write, separator: byte): GoString { w.refId + [separator] + w.frameId }

  function Addressed(w: Write): DataFrame { w.frame.(refId := w.refId) }

  /** What JSON keeps of the frame a call sends. */
  function Kept(w: Write): (f: DataFrame)
    ensures |f.columns| == |w.frame.columns| && Types(f.columns) == Types(w.frame.columns)
  {
    DataFrame(w.frame.names, Decoded(w.frame.about), w.refId, KeptFrame(w.frame.columns))
  }

  /** Texts and strings of the call are valid UTF-8. */
  predicate Plain(w: Write) { ValidUtf8(w.frame.about) && TextsValid(w.frame.columns) }

  /** A frame is sent as it is exactly when its strings are valid UTF-8. */
  lemma KeptIsSent(w: Write)
    ensures Kept(w) == Addressed(w) <==> Plain(w)
  {
    DecodedExact(w.frame.about);
    KeptExact(w.frame.columns);
  }

  /** The keys marked as sent after a call: the mark is set before the frame is encoded or taken. */
  function SentAfter(sent: set<GoString>, w: Write): set<GoString> {
    if w.refId == [] || w.frameId == [] then sent else sent + {Joined(w, DASH)}
  }

  function Answer(sent: set<GoString>, w: Write): Result<Chunk, Refusal> {
    if w.refId == [] then Err(MissingRefId)
    else if w.frameId == [] then Err(MissingFrameId)
    else
      var p := Encode(Addressed(w), Joined(w, DASH) !in sent);
      if p.None? then Err(Unencodable)
      else if !w.taken then Err(CallbackFailed)
      else Ok(Chunk(w.refId, w.frameId, 200, Json, p, NO_FAULT))
  }

  /** `marshal` is MarshalArrow; None stands for its error. */
  function ArrowAnswer(marshal: DataFrame -> Option<GoString>, w: Write): Result<Chunk, Refusal> {
    if w.refId == [] then Err(MissingRefId)
    else if w.frameId == [] then Err(MissingFrameId)
    else if marshal(Addressed(w)).None? then Err(Unencodable)
    else if !w.taken then Err(CallbackFailed)
    else Ok(Chunk(w.refId, w.frameId, 200, Arrow(marshal(Addressed(w)).value), None, NO_FAULT))
  }

  /** A JSON chunk: the document of the frame's data, and its schema or not. */
  ghost predicate PayloadSays(c: Chunk, w: Write, withSchema: bool) {
    && c.format.Json? && c.payload.Some? && DocSays(w.frame.columns, c.payload.value.data)
    && (c.payload.value.schema.Some? <==> withSchema)
    && (withSchema ==>
          var h := c.payload.value.schema.value;
          && h.names == w.frame.names && h.refId == w.refId && KeepsText(w.frame.about, h.about)
          && |h.types| == |w.frame.columns| && forall j :: 0 <= j < |h.types| ==> h.types[j] == w.frame.columns[j].ctype)
  }

  class ChunkedDataWriter {
    const isJson: bool
    const marshal: DataFrame -> Option<GoString>
    var sent: set<GoString>

    constructor (isJson: bool, marshal: DataFrame -> Option<GoString>)
      ensures sent == {} && this.isJson == isJson && this.marshal == marshal
    {
      this.isJson, this.marshal, sent := isJson, marshal, {};
    }

    /** Ok carries the chunk the callback took. */
    method WriteFrame(w: Write) returns (r: Result<Chunk, Refusal>)
      modifies this
      ensures isJson ==> sent == SentAfter(old(sent), w) && r == Answer(old(sent), w)
      ensures !isJson ==> sent == old(sent) && r == ArrowAnswer(marshal, w)
      ensures r == Err(MissingRefId) <==> w.refId == []
      ensures r == Err(MissingFrameId) <==> w.refId != [] && w.frameId == []
      ensures isJson ==>
                sent == old(sent) + if w.refId == [] || w.frameId == [] then {} else {w.refId + [0x2D] + w.frameId}
      ensures r.Ok? ==>
                && w.taken && r.value.refId == w.refId && r.value.frameId == w.frameId
                && r.value.status == 200 && r.value.fault == Fault([], [])
      ensures r.Ok? && isJson ==> PayloadSays(r.value, w, w.refId + [0x2D] + w.frameId !in old(sent))
    {
      if w.refId == [] {
        return Err(MissingRefId);
      }
      if w.frameId == [] {
        return Err(MissingFrameId);
      }
      var f := w.frame.(refId := w.refId);
      if !isJson {
        var bytes := marshal(f);
        if bytes.None? {
          return Err(Unencodable);
        }
        if !w.taken {
          return Err(CallbackFailed);
        }
        return Ok(Chunk(w.refId, w.frameId, 200, Arrow(bytes.value), None, NO_FAULT));
      }
      var withSchema := false;
      var key := w.refId + [DASH] + w.frameId;
      if key !in sent {
        withSchema := true;
        sent := sent + {key};
      }
      var p := FrameToJson(f, withSchema);
      if p.None? {
        return Err(Unencodable);
      }
      DecodedUnits(w.frame.about);
      DecodedExact(w.frame.about);
      DocIsSaid(f.columns);
      if !w.taken {
        return Err(CallbackFailed);
      }
      r := Ok(Chunk(w.refId, w.frameId, 200, Json, p, NO_FAULT));
    }
  }

  // ----- the accumulator -----

  /** `frames` are indices into the list of frames built so far. */
  datatype Response = Response(frames: seq<nat>, status: int, fault: Fault)

  datatype Built = Built(frames: seq<DataFrame>, byKey: map<GoString, nat>, responses: map<GoString, Response>)

  function Key(c: Chunk): GoString { c.refId + [PIPE] + c.frameId }

  /** json.Unmarshal of a frame: without a schema it has no columns to read values into. */
  function NewFrame(libs: Libs, p: Payload): Option<DataFrame> {
    var types := if p.schema.Some? then p.schema.value.types else [];
    if !SchemaOk(types) then None
    else
      var columns := ReadOf(libs, types, p.data);
      if columns.Err? then None
      else if p.schema.Some? then Some(DataFrame(p.schema.value.names, p.schema.value.about, p.schema.value.refId, columns.value))
      else Some(DataFrame([], [], [], columns.value))
  }

  /** Field.AppendAll on every column. */
  function Appended(f: Frame, g: Frame): (r: Frame)
    requires |f| == |g|
    ensures |r| == |f| && forall j :: 0 <= j < |r| ==> r[j] == f[j].(cells := f[j].cells + g[j].cells)
  {
    seq(|f|, j requires 0 <= j < |f| => f[j].(cells := f[j].cells + g[j].cells))
  }

  lemma ReadKeepsWidth(libs: Libs, types: seq<ColType>, doc: Doc)
    requires SchemaOk(types) && ReadOf(libs, types, doc).Ok?
    ensures |ReadOf(libs, types, doc).value| == |types|
  {
  }

  /** AppendJSONData: an error if the payload has a schema. */
  function Extended(libs: Libs, f: DataFrame, p: Payload): Option<DataFrame> {
    if p.schema.Some? || !SchemaOk(Types(f.columns)) then None
    else
      var more := ReadOf(libs, Types(f.columns), p.data);
      if more.Err? then None
      else ReadKeepsWidth(libs, Types(f.columns), p.data); Some(f.(columns := Appended(f.columns, more.value)))
  }

  function ResponseOf(b: Built, refId: GoString): Response {
    if refId in b.responses then b.responses[refId] else Response([], 0, NO_FAULT)
  }

  /** What is empty leaves the old value. */
  function Updated(was: Fault, now: Fault): Fault {
    Fault(if now.error != [] then now.error else was.error, if now.source != [] then now.source else was.source)
  }

  predicate Wf(b: Built) { forall k :: k in b.byKey ==> b.byKey[k] < |b.frames| }

  /** The frames after a chunk, with its response's frame list. */
  function Placed(libs: Libs, b: Built, c: Chunk): (r: Option<(Built, seq<nat>)>)
    requires Wf(b)
    ensures r.Some? ==> Wf(r.value.0)
  {
    var listed := ResponseOf(b, c.refId).frames;
    if c.payload.None? then Some((b, listed))
    else if Key(c) in b.byKey then
      var i := b.byKey[Key(c)];
      var f := Extended(libs, b.frames[i], c.payload.value);
      if f.None? then None else Some((b.(frames := b.frames[i := f.value]), listed))
    else
      var f := NewFrame(libs, c.payload.value);
      if f.None? then None
      else
        var i: nat := |b.frames|;
        Some((b.(frames := b.frames + [f.value], byKey := b.byKey[Key(c) := i]), listed + [i]))
  }

  /** One chunk; None stands for an error. */
  function Accumulate(libs: Libs, b: Built, c: Chunk): (r: Option<Built>)
    requires Wf(b)
    ensures r.Some? ==> Wf(r.value)
  {
    if !c.format.Json? then None
    else
      var placed := Placed(libs, b, c);
      if placed.None? then None
      else
        var rsp := Response(placed.value.1, c.status, Updated(ResponseOf(b, c.refId).fault, c.fault));
        Some(placed.value.0.(responses := b.responses[c.refId := rsp]))
  }

  const NOTHING := Built([], map[], map[])

  /** The first `n` chunks. */
  function AccumulateUpTo(libs: Libs, cs: seq<Chunk>, n: nat): (r: Option<Built>)
    requires n <= |cs|
    ensures r.Some? ==> Wf(r.value)
  {
    if n == 0 then Some(NOTHING)
    else
      var b := AccumulateUpTo(libs, cs, n - 1);
      if b.None? then None else Accumulate(libs, b.value, cs[n - 1])
  }

  lemma FailureNext(libs: Libs, cs: seq<Chunk>, n: nat)
    requires 0 < n <= |cs| && AccumulateUpTo(libs, cs, n - 1).None?
    ensures AccumulateUpTo(libs, cs, n).None?
  {
  }

  lemma {:induction false} FailureStays(libs: Libs, cs: seq<Chunk>, m: nat, n: nat)
    requires m <= n <= |cs| && AccumulateUpTo(libs, cs, m).None?
    ensures AccumulateUpTo(libs, cs, n).None?
    decreases n
  {
    if m < n {
      FailureStays(libs, cs, m, n - 1);
      FailureNext(libs, cs, n);
    }
  }

  // ----- what the responses say, by chunk -----

  predicate IsLastText(refs: seq<GoString>, texts: seq<GoString>, n: nat, refId: GoString, i: nat)
    requires i < n <= |refs| == |texts|
  {
    refs[i] == refId && texts[i] != [] && forall j :: i < j < n && refs[j] == refId ==> texts[j] == []
  }

  /** `value` is the last text that is not empty among those of the first `n` chunks with this refID, or empty. */
  predicate LastText(refs: seq<GoString>, texts: seq<GoString>, n: nat, refId: GoString, value: GoString)
    requires n <= |refs| == |texts|
  {
    && (forall i :: 0 <= i < n && IsLastText(refs, texts, n, refId, i) ==> value == texts[i])
    && ((forall i :: 0 <= i < n && refs[i] == refId ==> texts[i] == []) ==> value == [])
  }

  /** `status` is that of the last of the first `n` chunks with this refID. */
  predicate LastStatus(refs: seq<GoString>, cs: seq<Chunk>, n: nat, refId: GoString, status: int)
    requires n <= |refs| == |cs|
  {
    forall i :: 0 <= i < n && refs[i] == refId && (forall j :: i < j < n ==> refs[j] != refId) ==> status == cs[i].status
  }

  function RefIds(cs: seq<Chunk>): (refs: seq<GoString>)
    ensures |refs| == |cs| && forall i :: 0 <= i < |cs| ==> refs[i] == cs[i].refId
  {
    seq(|cs|, i requires 0 <= i < |cs| => cs[i].refId)
  }

  function Errors(cs: seq<Chunk>): (texts: seq<GoString>)
    ensures |texts| == |cs| && forall i :: 0 <= i < |cs| ==> texts[i] == cs[i].fault.error
  {
    seq(|cs|, i requires 0 <= i < |cs| => cs[i].fault.error)
  }

  function Sources(cs: seq<Chunk>): (texts: seq<GoString>)
    ensures |texts| == |cs| && forall i :: 0 <= i < |cs| ==> texts[i] == cs[i].fault.source
  {
    seq(|cs|, i requires 0 <= i < |cs| => cs[i].fault.source)
  }

  /** The responses are those of the refIDs among the first `n` chunks: each with the status of its last chunk, and with
      the last error and the last error source that are not empty. */
  ghost predicate ResponsesSay(cs: seq<Chunk>, n: nat, responses: map<GoString, Response>)
    requires n <= |cs|
  {
    forall refId :: RefSays(cs, n, responses, refId)
  }

  predicate RefSays(cs: seq<Chunk>, n: nat, responses: map<GoString, Response>, refId: GoString)
    requires n <= |cs|
  {
    && (refId in responses <==> refId in RefIds(cs)[..n])
    && (refId in responses ==> ResponseSays(cs, n, refId, responses[refId]))
  }

  predicate ResponseSays(cs: seq<Chunk>, n: nat, refId: GoString, r: Response)
    requires n <= |cs|
  {
    && LastStatus(RefIds(cs), cs, n, refId, r.status)
    && LastText(RefIds(cs), Errors(cs), n, refId, r.fault.error)
    && LastText(RefIds(cs), Sources(cs), n, refId, r.fault.source)
  }

  lemma LastTextNext(refs: seq<GoString>, texts: seq<GoString>, m: nat, n: nat, refId: GoString, value: GoString)
    requires m < n == m + 1 <= |refs| == |texts|
    requires if refId in refs[..m] then LastText(refs, texts, m, refId, value) else value == []
    ensures LastText(refs, texts, n, refId, if refs[m] == refId && texts[m] != [] then texts[m] else value)
  {
    if refId !in refs[..m] {
      forall i | 0 <= i < m ensures refs[i] != refId { assert refs[..m][i] == refs[i]; }
    }
  }

  lemma LastStatusNext(refs: seq<GoString>, cs: seq<Chunk>, m: nat, n: nat, refId: GoString, status: int)
    requires m < n == m + 1 <= |refs| == |cs| && LastStatus(refs, cs, m, refId, status)
    ensures LastStatus(refs, cs, n, refId, if refs[m] == refId then cs[m].status else status)
  {
  }

  /** The error or source that a response goes on with. */
  function Latest(was: GoString, now: GoString): GoString { if now != [] then now else was }

  /** A chunk writes the response of its refID and no other. */
  lemma OneResponse(libs: Libs, b: Built, c: Chunk)
    requires Wf(b) && Accumulate(libs, b, c).Some?
    ensures var was, now := ResponseOf(b, c.refId).fault, Accumulate(libs, b, c).value.responses;
            && c.refId in now && now == b.responses[c.refId := now[c.refId]] && now[c.refId].status == c.status
            && now[c.refId].fault.error == Latest(was.error, c.fault.error)
            && now[c.refId].fault.source == Latest(was.source, c.fault.source)
  {
  }

  lemma SeenSoFar(refs: seq<GoString>, m: nat, n: nat, refId: GoString)
    requires m < n == m + 1 <= |refs|
    ensures refId in refs[..n] <==> refId in refs[..m] || refId == refs[m]
    ensures refId !in refs[..m] ==> forall i :: 0 <= i < m ==> refs[i] != refId
  {
    assert refs[..n] == refs[..m] + [refs[m]];
    if i :| 0 <= i < m && refs[i] == refId { assert refs[..m][i] == refId; }
  }

  /** The response `r` of a refID after one more chunk; `error` and `source` are what it had before, or empty. */
  lemma ResponseNext(cs: seq<Chunk>, m: nat, n: nat, refId: GoString, was: Option<Response>, fault: Fault, r: Response)
    requires m < n == m + 1 <= |cs| && (was.Some? <==> refId in RefIds(cs)[..m])
    requires if was.Some? then ResponseSays(cs, m, refId, was.value) && fault == was.value.fault else fault == NO_FAULT
    requires if cs[m].refId == refId
             then r.status == cs[m].status && r.fault.error == Latest(fault.error, cs[m].fault.error)
                  && r.fault.source == Latest(fault.source, cs[m].fault.source)
             else was == Some(r)
    ensures ResponseSays(cs, n, refId, r)
  {
    var refs := RefIds(cs);
    SeenSoFar(refs, m, n, refId);
    LastTextNext(refs, Errors(cs), m, n, refId, fault.error);
    LastTextNext(refs, Sources(cs), m, n, refId, fault.source);
    if was.Some? { LastStatusNext(refs, cs, m, n, refId, was.value.status); }
  }

  /** What one chunk does to the response of a refID. */
  lemma {:induction false} OneResponseNext(libs: Libs, cs: seq<Chunk>, m: nat, n: nat, b: Built, after: Built, refId: GoString)
    requires m < n == m + 1 <= |cs|
    requires Wf(b) && Accumulate(libs, b, cs[m]) == Some(after)
    ensures RefSays(cs, m, b.responses, refId) ==> RefSays(cs, n, after.responses, refId)
  {
    var was, now := b.responses, after.responses;
    OneResponse(libs, b, cs[m]);
    SeenSoFar(RefIds(cs), m, n, refId);
    if RefSays(cs, m, was, refId) && refId in now {
      var r := if refId in was then Some(was[refId]) else None;
      ResponseNext(cs, m, n, refId, r, ResponseOf(b, refId).fault, now[refId]);
    }
  }

  /** The state after the first `n` chunks says the right responses. */
  ghost predicate Answered(libs: Libs, cs: seq<Chunk>, n: nat, b: Built) {
    n <= |cs| && AccumulateUpTo(libs, cs, n) == Some(b) && ResponsesSay(cs, n, b.responses)
  }

  lemma AnsweredNext(libs: Libs, cs: seq<Chunk>, m: nat, n: nat, b: Built, after: Built)
    requires m < n == m + 1 <= |cs| && Wf(b) && Accumulate(libs, b, cs[m]) == Some(after) && AccumulateUpTo(libs, cs, n) == Some(after)
    ensures Answered(libs, cs, m, b) ==> Answered(libs, cs, n, after)
  {
    if Answered(libs, cs, m, b) {
      forall refId ensures RefSays(cs, n, after.responses, refId) { OneResponseNext(libs, cs, m, n, b, after, refId); }
    }
  }

  lemma ResponsesExact(libs: Libs, cs: seq<Chunk>, n: nat) returns (b: Built)
    requires n <= |cs| && AccumulateUpTo(libs, cs, n).Some?
    ensures AccumulateUpTo(libs, cs, n) == Some(b) && ResponsesSay(cs, n, b.responses)
  {
    SomeIsAnswered(libs, cs, n);
    b :| Answered(libs, cs, n, b);
  }

  lemma {:induction false} SomeIsAnswered(libs: Libs, cs: seq<Chunk>, n: nat)
    requires n <= |cs| && AccumulateUpTo(libs, cs, n).Some?
    ensures exists b :: Answered(libs, cs, n, b)
    decreases n
  {
    if n == 0 {
      assert Answered(libs, cs, 0, NOTHING);
    } else {
      SomeIsAnswered(libs, cs, n - 1);
      var b :| Answered(libs, cs, n - 1, b);
      AnsweredNext(libs, cs, n - 1, n, b, AccumulateUpTo(libs, cs, n).value);
    }
  }

  method AppendJsonData(libs: Libs, f: DataFrame, p: Payload) returns (r: Option<DataFrame>)
    ensures r == Extended(libs, f, p)
  {
    if p.schema.Some? || !SchemaOk(Types(f.columns)) {
      return None;
    }
    var more := ReadData(libs, Types(f.columns), p.data);
    if more.Err? {
      return None;
    }
    ReadKeepsWidth(libs, Types(f.columns), p.data);
    var columns := f.columns;
    for i := 0 to |columns|
      invariant |columns| == |f.columns|
      invariant forall j :: 0 <= j < |columns| ==>
                  columns[j] == if j < i then Appended(f.columns, more.value)[j] else f.columns[j]
    {
      columns := columns[i := columns[i].(cells := columns[i].cells + more.value[i].cells)];
    }
    assert columns == Appended(f.columns, more.value);
    r := Some(f.(columns := columns));
  }

  method UnmarshalFrame(libs: Libs, p: Payload) returns (r: Option<DataFrame>)
    ensures r == NewFrame(libs, p)
  {
    var types := if p.schema.Some? then p.schema.value.types else [];
    if !SchemaOk(types) {
      return None;
    }
    var columns := ReadData(libs, types, p.data);
    if columns.Err? {
      return None;
    }
    r := Some(if p.schema.Some? then DataFrame(p.schema.value.names, p.schema.value.about, p.schema.value.refId, columns.value)
              else DataFrame([], [], [], columns.value));
  }

  /** `broken` says whether the iterator ends with an error after these chunks. */
  method AccumulateJson(libs: Libs, chunks: seq<Chunk>, broken: bool) returns (r: Option<Built>)
    ensures r == if broken then None else AccumulateUpTo(libs, chunks, |chunks|)
    ensures r.Some? ==> ResponsesSay(chunks, |chunks|, r.value.responses)
  {
    var frames: seq<DataFrame> := [];
    var frameByKey: map<GoString, nat> := map[];
    var responses: map<GoString, Response> := map[];
    for n := 0 to |chunks|
      invariant AccumulateUpTo(libs, chunks, n) == Some(Built(frames, frameByKey, responses))
    {
      var chunk := chunks[n];
      var done := AddChunk(libs, Built(frames, frameByKey, responses), chunk);
      if done.None? {
        FailureStays(libs, chunks, n + 1, |chunks|);
        return None;
      }
      frames, frameByKey, responses := done.value.frames, done.value.byKey, done.value.responses;
    }
    if broken {
      return None;
    }
    ghost var b := ResponsesExact(libs, chunks, |chunks|);
    r := Some(Built(frames, frameByKey, responses));
  }

  method AddChunk(libs: Libs, b: Built, chunk: Chunk) returns (r: Option<Built>)
    requires Wf(b)
    ensures r == Accumulate(libs, b, chunk)
    ensures !chunk.format.Json? ==> r.None?
    ensures r.Some? && chunk.payload.Some? ==>
              r.value.byKey.Keys == b.byKey.Keys + {chunk.refId + [0x7C] + chunk.frameId}
    ensures chunk.format.Json? && chunk.payload.None? ==>
              && r.Some? && r.value.frames == b.frames && r.value.byKey == b.byKey
              && r.value.responses.Keys == b.responses.Keys + {chunk.refId}
  {
    if !chunk.format.Json? {
      return None;
    }
    var rsp := ResponseOf(b, chunk.refId);
    var now := b;
    if chunk.payload.Some? {
      var key := chunk.refId + [PIPE] + chunk.frameId;
      if key in b.byKey {
        var i := b.byKey[key];
        var f := AppendJsonData(libs, b.frames[i], chunk.payload.value);
        if f.None? {
          return None;
        }
        now := now.(frames := b.frames[i := f.value]);
      } else {
        var f := UnmarshalFrame(libs, chunk.payload.value);
        if f.None? {
          return None;
        }
        var i: nat := |b.frames|;
        now := now.(frames := b.frames + [f.value], byKey := b.byKey[key := i]);
        rsp := rsp.(frames := rsp.frames + [i]);
      }
    }
    rsp := rsp.(status := chunk.status);
    if chunk.fault.error != [] {
      rsp := rsp.(fault := rsp.fault.(error := chunk.fault.error));
    }
    if chunk.fault.source != [] {
      rsp := rsp.(fault := rsp.fault.(source := chunk.fault.source));
    }
    r := Some(now.(responses := b.responses[chunk.refId := rsp]));
  }

  // ----- what the accumulator should build -----

  predicate SameId(v: Write, w: Write) { v.refId == w.refId && v.frameId == w.frameId }

  /** Calls that succeed: identifiers, well-formed frames whose first column fits, a callback that takes the chunk. */
  predicate AllSucceed(ws: seq<Write>) {
    forall i {:trigger Succeeds(ws[i])} :: 0 <= i < |ws| ==> Succeeds(ws[i])
  }

  predicate Succeeds(w: Write) {
    w.refId != [] && w.frameId != [] && w.taken && FrameOk(w.frame.columns) && FirstColumnFits(w.frame.columns)
  }

  /** One schema per frame. */
  predicate OneSchema(ws: seq<Write>) {
    forall i, j {:trigger SameId(ws[i], ws[j])} ::
      0 <= i < |ws| && 0 <= j < |ws| && SameId(ws[i], ws[j]) ==> HeaderOf(Addressed(ws[i])) == HeaderOf(Addressed(ws[j]))
  }

  /** Joining the identifiers loses nothing among these calls. */
  predicate CollisionFree(ws: seq<Write>, separator: byte) {
    forall i, j {:trigger Joined(ws[i], separator), Joined(ws[j], separator)} ::
      0 <= i < |ws| && 0 <= j < |ws| && Joined(ws[i], separator) == Joined(ws[j], separator) ==> SameId(ws[i], ws[j])
  }

  /** No call before `i` has its identifiers. */
  predicate First(ws: seq<Write>, i: nat)
    requires i < |ws|
  {
    forall j :: 0 <= j < i ==> !SameId(ws[j], ws[i])
  }

  /** The first calls of each frame, among the first `n`, in order. */
  function Firsts(ws: seq<Write>, n: nat): (fs: seq<nat>)
    requires n <= |ws|
    ensures forall k :: 0 <= k < |fs| ==> fs[k] < n && First(ws, fs[k])
    ensures forall k, l :: 0 <= k < l < |fs| ==> fs[k] < fs[l]
  {
    if n == 0 then [] else Firsts(ws, n - 1) + if First(ws, n - 1) then [n - 1] else []
  }

  lemma {:induction false} FirstsComplete(ws: seq<Write>, n: nat, i: nat)
    requires i < n <= |ws| && First(ws, i)
    ensures i in Firsts(ws, n)
    decreases n
  {
    if i < n - 1 { FirstsComplete(ws, n - 1, i); }
  }

  /** All rows sent for the frame of call `i`, by the first `n` calls, in column `j`. */
  function RowsWritten(ws: seq<Write>, n: nat, i: nat, j: nat): seq<Cell>
    requires n <= |ws| && i < |ws|
  {
    if n == 0 then []
    else
      RowsWritten(ws, n - 1, i, j)
      + if SameId(ws[n - 1], ws[i]) && j < |ws[n - 1].frame.columns| then Kept(ws[n - 1]).columns[j].cells else []
  }

  /** The frame of call `i` after the first `n` calls: its schema, and all rows written to it. */
  function Whole(ws: seq<Write>, n: nat, i: nat): (f: DataFrame)
    requires n <= |ws| && i < |ws|
    ensures |f.columns| == |ws[i].frame.columns|
    ensures forall j :: 0 <= j < |f.columns| ==>
              f.columns[j] == Column(ws[i].frame.columns[j].ctype, RowsWritten(ws, n, i, j))
  {
    Kept(ws[i]).(columns := seq(|ws[i].frame.columns|, j requires 0 <= j < |ws[i].frame.columns| =>
      Column(ws[i].frame.columns[j].ctype, RowsWritten(ws, n, i, j))))
  }

  /** The positions in `fs` of the calls with this refID. */
  function Listed(ws: seq<Write>, fs: seq<nat>, refId: GoString): (ks: seq<nat>)
    requires forall k :: 0 <= k < |fs| ==> fs[k] < |ws|
  {
    if fs == [] then []
    else Listed(ws, fs[..|fs| - 1], refId) + if ws[fs[|fs| - 1]].refId == refId then [|fs| - 1] else []
  }

  // ----- what is sent -----

  function SentUpTo(ws: seq<Write>, n: nat): set<GoString>
    requires n <= |ws|
  {
    if n == 0 then {} else SentAfter(SentUpTo(ws, n - 1), ws[n - 1])
  }

  lemma {:induction false} SentExact(ws: seq<Write>, n: nat, key: GoString)
    requires n <= |ws| && AllSucceed(ws)
    ensures key in SentUpTo(ws, n) <==> exists i :: 0 <= i < n && Joined(ws[i], DASH) == key
    decreases n
  {
    if n > 0 {
      SentExact(ws, n - 1, key);
      assert Succeeds(ws[n - 1]);
    }
  }

  lemma NotRagged(f: Frame)
    requires FrameOk(f)
    ensures !Ragged(f)
  {
  }

  /** The schema goes out with the first chunk of each frame and with no other. */
  lemma SchemaOnFirst(ws: seq<Write>, i: nat)
    requires i < |ws| && AllSucceed(ws) && CollisionFree(ws, DASH)
    ensures var w := ws[i];
            Answer(SentUpTo(ws, i), w)
            == Ok(Chunk(w.refId, w.frameId, 200, Json,
                        Some(Payload(if First(ws, i) then Some(HeaderOf(Addressed(w))) else None, DocOf(w.frame.columns))), NO_FAULT))
  {
    assert Succeeds(ws[i]);
    NotRagged(ws[i].frame.columns);
    SentExact(ws, i, Joined(ws[i], DASH));
    if First(ws, i) {
      forall j | 0 <= j < i ensures Joined(ws[j], DASH) != Joined(ws[i], DASH) { assert !SameId(ws[j], ws[i]); }
    } else {
      var j :| 0 <= j < i && SameId(ws[j], ws[i]);
      assert Joined(ws[j], DASH) == Joined(ws[i], DASH);
    }
  }

  lemma AnswerIsOk(ws: seq<Write>, i: nat)
    requires i < |ws| && AllSucceed(ws)
    ensures Answer(SentUpTo(ws, i), ws[i]).Ok?
  {
    assert Succeeds(ws[i]);
    NotRagged(ws[i].frame.columns);
  }

  predicate IsChunk(ws: seq<Write>, i: nat, c: Chunk)
    requires i < |ws|
  {
    Answer(SentUpTo(ws, i), ws[i]) == Ok(c)
  }

  function ChunkAt(ws: seq<Write>, i: nat): (c: Chunk)
    requires i < |ws| && AllSucceed(ws)
    ensures IsChunk(ws, i, c)
  {
    AnswerIsOk(ws, i);
    Answer(SentUpTo(ws, i), ws[i]).value
  }

  /** The chunks of a run of successful calls. */
  function Chunks(ws: seq<Write>): (cs: seq<Chunk>)
    requires AllSucceed(ws)
    ensures |cs| == |ws| && forall i {:trigger IsChunk(ws, i, cs[i])} :: 0 <= i < |cs| ==> IsChunk(ws, i, cs[i])
  {
    seq(|ws|, i requires 0 <= i < |ws| => ChunkAt(ws, i))
  }

  predicate HasSchema(ws: seq<Write>, i: nat)
    requires i < |ws| && AllSucceed(ws)
  {
    Chunks(ws)[i].payload.Some? && Chunks(ws)[i].payload.value.schema.Some?
  }

  lemma SchemaIfNotSent(ws: seq<Write>, i: nat)
    requires i < |ws| && AllSucceed(ws)
    ensures HasSchema(ws, i) <==> forall j :: 0 <= j < i ==> Joined(ws[j], DASH) != Joined(ws[i], DASH)
  {
    assert Succeeds(ws[i]) && IsChunk(ws, i, Chunks(ws)[i]);
    SentExact(ws, i, Joined(ws[i], DASH));
  }

  lemma {:induction false} FounderOf(ws: seq<Write>, i: nat) returns (f: nat)
    requires i < |ws|
    ensures f <= i && SameId(ws[f], ws[i]) && First(ws, f)
    decreases i
  {
    if j: nat :| j < i && SameId(ws[j], ws[i]) {
      f := FounderOf(ws, j);
    } else {
      f := i;
    }
  }

  /** Calls that share a joined key belong to one frame, when every first call has a joined key of its own. */
  lemma OneFounder(ws: seq<Write>, separator: byte, i: nat, j: nat)
    requires i < |ws| && j < |ws| && Joined(ws[i], separator) == Joined(ws[j], separator)
    requires forall k, l {:trigger Joined(ws[l], separator), Joined(ws[k], separator)} ::
               0 <= l < k < |ws| && First(ws, k) ==> Joined(ws[l], separator) != Joined(ws[k], separator)
    ensures SameId(ws[i], ws[j])
  {
    var f := FounderOf(ws, i);
    var g := FounderOf(ws, j);
    assert Joined(ws[f], separator) == Joined(ws[g], separator);
  }

  /** The schema goes out exactly with the first chunk of each frame precisely when joined keys do not collide. */
  lemma SchemaOnFirstExact(ws: seq<Write>)
    requires AllSucceed(ws)
    ensures (forall i :: 0 <= i < |ws| ==> (HasSchema(ws, i) <==> First(ws, i))) <==> CollisionFree(ws, DASH)
  {
    forall i | 0 <= i < |ws| ensures CollisionFree(ws, DASH) ==> (HasSchema(ws, i) <==> First(ws, i)) {
      if CollisionFree(ws, DASH) {
        SchemaOnFirst(ws, i);
        assert IsChunk(ws, i, Chunks(ws)[i]);
      }
    }
    if forall i :: 0 <= i < |ws| ==> (HasSchema(ws, i) <==> First(ws, i)) {
      forall i: nat | i < |ws| ensures HasSchema(ws, i) <==> forall j :: 0 <= j < i ==> Joined(ws[j], DASH) != Joined(ws[i], DASH) {
        SchemaIfNotSent(ws, i);
      }
      forall i: nat, j: nat | i < |ws| && j < |ws| && Joined(ws[i], DASH) == Joined(ws[j], DASH)
        ensures SameId(ws[i], ws[j])
      {
        OneFounder(ws, DASH, i, j);
      }
    }
  }

  method WriteNext(writer: ChunkedDataWriter, ws: seq<Write>, i: nat) returns (c: Chunk)
    requires i < |ws| && AllSucceed(ws) && writer.isJson && writer.sent == SentUpTo(ws, i)
    modifies writer
    ensures writer.sent == SentUpTo(ws, i + 1) && c == Chunks(ws)[i]
  {
    AnswerIsOk(ws, i);
    var r := writer.WriteFrame(ws[i]);
    c := r.value;
    assert IsChunk(ws, i, Chunks(ws)[i]);
  }

  lemma OneMore(all: seq<Chunk>, i: nat, cs: seq<Chunk>, c: Chunk)
    requires i < |all| && cs == all[..i] && c == all[i]
    ensures cs + [c] == all[..i + 1]
  {
  }

  method WriteAll(ws: seq<Write>) returns (cs: seq<Chunk>)
    requires AllSucceed(ws)
    ensures cs == Chunks(ws)
  {
    var writer := new ChunkedDataWriter(true, _ => None);
    cs := [];
    for i := 0 to |ws|
      invariant fresh(writer) && writer.isJson && writer.sent == SentUpTo(ws, i) && cs == Chunks(ws)[..i]
    {
      var c := WriteNext(writer, ws, i);
      OneMore(Chunks(ws), i, cs, c);
      cs := cs + [c];
    }
  }

  // ----- one chunk read -----

  lemma FrameComesBack(libs: Libs, w: Write)
    requires ExactTo53(libs) && Succeeds(w)
    ensures SchemaOk(Types(w.frame.columns))
    ensures ReadOf(libs, Types(w.frame.columns), DocOf(w.frame.columns)) == Ok(Kept(w).columns)
  {
    ReadsKeptExact(libs, w.frame.columns);
  }

  lemma NewFrameIs(libs: Libs, w: Write)
    requires ExactTo53(libs) && Succeeds(w)
    ensures NewFrame(libs, Payload(Some(HeaderOf(Addressed(w))), DocOf(w.frame.columns))) == Some(Kept(w))
  {
    FrameComesBack(libs, w);
  }

  lemma ExtendedIs(libs: Libs, f: DataFrame, w: Write)
    requires ExactTo53(libs) && Succeeds(w) && Types(f.columns) == Types(w.frame.columns)
    ensures |f.columns| == |w.frame.columns|
    ensures Extended(libs, f, Payload(None, DocOf(w.frame.columns)))
         == Some(f.(columns := Appended(f.columns, Kept(w).columns)))
  {
    FrameComesBack(libs, w);
    assert |Types(f.columns)| == |f.columns|;
  }

  // ----- the state after each chunk -----

  /** The accumulator has, for each frame in order of appearance, all rows written to it so far. */
  ghost predicate Tracks(ws: seq<Write>, n: nat, b: Built)
    requires n <= |ws|
  {
    var fs := Firsts(ws, n);
    FramesTrack(ws, n, fs, b.frames) && KeysTrack(ws, fs, b.byKey) && ListsTrack(ws, fs, b)
  }

  ghost predicate FramesTrack(ws: seq<Write>, n: nat, fs: seq<nat>, frames: seq<DataFrame>)
    requires n <= |ws| && forall k :: 0 <= k < |fs| ==> fs[k] < |ws|
  {
    |frames| == |fs| && forall k :: 0 <= k < |fs| ==> frames[k] == Whole(ws, n, fs[k])
  }

  ghost predicate ListsTrack(ws: seq<Write>, fs: seq<nat>, b: Built)
    requires forall k :: 0 <= k < |fs| ==> fs[k] < |ws|
  {
    forall refId :: ResponseOf(b, refId).frames == Listed(ws, fs, refId)
  }

  ghost predicate KeysTrack(ws: seq<Write>, fs: seq<nat>, byKey: map<GoString, nat>)
    requires forall k :: 0 <= k < |fs| ==> fs[k] < |ws|
  {
    && (forall k :: 0 <= k < |fs| ==> HasKey(byKey, Joined(ws[fs[k]], PIPE), k))
    && (forall key :: key in byKey ==> byKey[key] < |fs| && Joined(ws[fs[byKey[key]]], PIPE) == key)
  }

  predicate HasKey(byKey: map<GoString, nat>, key: GoString, k: nat) { key in byKey && byKey[key] == k }

  /** A call for a frame that is not `i`'s writes no row to it; one for `i`'s frame adds its rows. */
  lemma WholeStep(ws: seq<Write>, n: nat, i: nat)
    requires n < |ws| && i < |ws| && OneSchema(ws)
    ensures !SameId(ws[n], ws[i]) ==> Whole(ws, n + 1, i) == Whole(ws, n, i)
    ensures SameId(ws[n], ws[i]) ==>
              && |ws[n].frame.columns| == |ws[i].frame.columns|
              && Whole(ws, n + 1, i) == Whole(ws, n, i).(columns := Appended(Whole(ws, n, i).columns, Kept(ws[n]).columns))
  {
    var a, b := Whole(ws, n, i), Whole(ws, n + 1, i);
    if SameId(ws[n], ws[i]) {
      assert HeaderOf(Addressed(ws[n])).types == HeaderOf(Addressed(ws[i])).types;
      assert |Types(ws[n].frame.columns)| == |Types(ws[i].frame.columns)|;
      assert b.columns == Appended(a.columns, Kept(ws[n]).columns);
    } else {
      forall j | 0 <= j < |a.columns| ensures RowsWritten(ws, n + 1, i, j) == RowsWritten(ws, n, i, j) {}
      assert b.columns == a.columns;
    }
  }

  lemma {:induction false} NothingWrittenBefore(ws: seq<Write>, n: nat, i: nat, j: nat)
    requires n <= i < |ws| && First(ws, i)
    ensures RowsWritten(ws, n, i, j) == []
    decreases n
  {
    if n > 0 {
      NothingWrittenBefore(ws, n - 1, i, j);
      assert !SameId(ws[n - 1], ws[i]);
    }
  }

  lemma WholeOfFirst(ws: seq<Write>, i: nat)
    requires i < |ws| && First(ws, i)
    ensures Whole(ws, i + 1, i) == Kept(ws[i])
  {
    forall j | 0 <= j < |ws[i].frame.columns| ensures RowsWritten(ws, i + 1, i, j) == Kept(ws[i]).columns[j].cells {
      NothingWrittenBefore(ws, i, i, j);
    }
    assert Whole(ws, i + 1, i).columns == Kept(ws[i]).columns;
  }

  lemma TypesOfWhole(ws: seq<Write>, n: nat, i: nat)
    requires n <= |ws| && i < |ws|
    ensures Types(Whole(ws, n, i).columns) == Types(ws[i].frame.columns)
  {
  }

  /** Two first calls of one frame are one call. */
  lemma FirstsDiffer(ws: seq<Write>, n: nat, k: nat, l: nat)
    requires n <= |ws| && k < |Firsts(ws, n)| && l < |Firsts(ws, n)| && SameId(ws[Firsts(ws, n)[k]], ws[Firsts(ws, n)[l]])
    ensures k == l
  {
    var fs := Firsts(ws, n);
    assert First(ws, fs[k]) && First(ws, fs[l]);
  }

  /** Where the frame of a call that is not the first of its frame is. */
  lemma Found(ws: seq<Write>, n: nat, b: Built) returns (k: nat)
    requires n < |ws| && Tracks(ws, n, b) && !First(ws, n) && CollisionFree(ws, PIPE)
    ensures k < |Firsts(ws, n)| && SameId(ws[Firsts(ws, n)[k]], ws[n]) && HasKey(b.byKey, Joined(ws[n], PIPE), k)
  {
    var fs := Firsts(ws, n);
    var j :| 0 <= j < n && SameId(ws[j], ws[n]);
    var f := FounderOf(ws, j);
    FirstsComplete(ws, n, f);
    k :| 0 <= k < |fs| && fs[k] == f;
    assert HasKey(b.byKey, Joined(ws[fs[k]], PIPE), k);
  }

  /** The key of a first call is new. */
  lemma NotFound(ws: seq<Write>, n: nat, b: Built)
    requires n < |ws| && Tracks(ws, n, b) && First(ws, n) && CollisionFree(ws, PIPE)
    ensures Joined(ws[n], PIPE) !in b.byKey
  {
    forall key | key in b.byKey ensures key != Joined(ws[n], PIPE) {
      var f := Firsts(ws, n)[b.byKey[key]];
      assert Joined(ws[f], PIPE) == key && !SameId(ws[f], ws[n]);
    }
  }

  function ChunkFor(w: Write, withSchema: bool): Chunk {
    Chunk(w.refId, w.frameId, 200, Json,
          Some(Payload(if withSchema then Some(HeaderOf(Addressed(w))) else None, DocOf(w.frame.columns))), NO_FAULT)
  }

  /** The chunk of call `n`. */
  function ChunkOf(ws: seq<Write>, n: nat): Chunk
    requires n < |ws|
  {
    ChunkFor(ws[n], First(ws, n))
  }

  /** The state after a first call. */
  function WithNew(b: Built, w: Write): Built {
    var i: nat, rsp := |b.frames|, ResponseOf(b, w.refId);
    Built(b.frames + [Kept(w)], b.byKey[Joined(w, PIPE) := i],
          b.responses[w.refId := Response(rsp.frames + [i], 200, rsp.fault)])
  }

  lemma FirstAccumulates(libs: Libs, w: Write, b: Built)
    requires ExactTo53(libs) && Succeeds(w) && Wf(b) && Joined(w, PIPE) !in b.byKey
    ensures Accumulate(libs, b, ChunkFor(w, true)) == Some(WithNew(b, w))
  {
    NewFrameIs(libs, w);
  }

  /** The state after another call. */
  function WithMore(b: Built, w: Write, k: nat): Built
    requires k < |b.frames| && |b.frames[k].columns| == |w.frame.columns|
  {
    var rsp := ResponseOf(b, w.refId);
    Built(b.frames[k := b.frames[k].(columns := Appended(b.frames[k].columns, Kept(w).columns))], b.byKey,
          b.responses[w.refId := Response(rsp.frames, 200, rsp.fault)])
  }

  lemma MoreAccumulates(libs: Libs, w: Write, b: Built, k: nat)
    requires ExactTo53(libs) && Succeeds(w) && Wf(b) && HasKey(b.byKey, Joined(w, PIPE), k) && k < |b.frames|
    requires Types(b.frames[k].columns) == Types(w.frame.columns)
    ensures |b.frames[k].columns| == |w.frame.columns|
    ensures Accumulate(libs, b, ChunkFor(w, false)) == Some(WithMore(b, w, k))
  {
    ExtendedIs(libs, b.frames[k], w);
  }

  lemma ListedSnoc(ws: seq<Write>, fs: seq<nat>, f: nat, refId: GoString)
    requires f < |ws| && forall k :: 0 <= k < |fs| ==> fs[k] < |ws|
    ensures Listed(ws, fs + [f], refId) == Listed(ws, fs, refId) + if ws[f].refId == refId then [|fs|] else []
  {
    assert (fs + [f])[..|fs|] == fs;
  }

  lemma ListedAfterNew(ws: seq<Write>, n: nat, b: Built, refId: GoString)
    requires n < |ws| && First(ws, n) && |b.frames| == |Firsts(ws, n)|
    requires ResponseOf(b, refId).frames == Listed(ws, Firsts(ws, n), refId)
    requires ResponseOf(b, ws[n].refId).frames == Listed(ws, Firsts(ws, n), ws[n].refId)
    ensures ResponseOf(WithNew(b, ws[n]), refId).frames == Listed(ws, Firsts(ws, n + 1), refId)
  {
    ListedSnoc(ws, Firsts(ws, n), n, refId);
  }

  lemma {:induction false} KeysSnoc(ws: seq<Write>, fs: seq<nat>, f: nat, byKey: map<GoString, nat>, key: GoString)
    requires (forall k :: 0 <= k < |fs| ==> fs[k] < |ws|) && f < |ws| && KeysTrack(ws, fs, byKey)
    requires key == Joined(ws[f], PIPE) && key !in byKey
    ensures KeysTrack(ws, fs + [f], byKey[key := |fs|])
  {
    var all, m := fs + [f], byKey[key := |fs|];
    forall k: nat | k < |all| ensures HasKey(m, Joined(ws[all[k]], PIPE), k) {
      if k < |fs| { assert HasKey(byKey, Joined(ws[fs[k]], PIPE), k); }
    }
  }

  lemma KeysAfterNew(ws: seq<Write>, n: nat, b: Built)
    requires n < |ws| && First(ws, n) && KeysTrack(ws, Firsts(ws, n), b.byKey) && |b.frames| == |Firsts(ws, n)|
    requires Joined(ws[n], PIPE) !in b.byKey
    ensures KeysTrack(ws, Firsts(ws, n + 1), WithNew(b, ws[n]).byKey)
  {
    KeysSnoc(ws, Firsts(ws, n), n, b.byKey, Joined(ws[n], PIPE));
  }

  lemma FramesAfterNew(ws: seq<Write>, n: nat, b: Built)
    requires n < |ws| && First(ws, n) && OneSchema(ws) && FramesTrack(ws, n, Firsts(ws, n), b.frames)
    ensures FramesTrack(ws, n + 1, Firsts(ws, n + 1), WithNew(b, ws[n]).frames)
  {
    var fs, fsAfter := Firsts(ws, n), Firsts(ws, n + 1);
    assert fsAfter == fs + [n];
    forall k | 0 <= k < |fsAfter| ensures WithNew(b, ws[n]).frames[k] == Whole(ws, n + 1, fsAfter[k]) {
      if k < |fs| {
        assert !SameId(ws[fs[k]], ws[n]);
        WholeStep(ws, n, fs[k]);
      } else {
        WholeOfFirst(ws, n);
      }
    }
  }

  lemma TracksNew(ws: seq<Write>, n: nat, b: Built)
    requires n < |ws| && First(ws, n) && OneSchema(ws) && Tracks(ws, n, b) && Joined(ws[n], PIPE) !in b.byKey
    ensures Tracks(ws, n + 1, WithNew(b, ws[n]))
  {
    KeysAfterNew(ws, n, b);
    FramesAfterNew(ws, n, b);
    forall refId ensures ResponseOf(WithNew(b, ws[n]), refId).frames == Listed(ws, Firsts(ws, n + 1), refId) {
      ListedAfterNew(ws, n, b, refId);
    }
  }

  lemma FramesAfterMore(ws: seq<Write>, n: nat, b: Built, k: nat)
    requires n < |ws| && !First(ws, n) && OneSchema(ws) && FramesTrack(ws, n, Firsts(ws, n), b.frames)
    requires k < |b.frames| && SameId(ws[Firsts(ws, n)[k]], ws[n]) && |b.frames[k].columns| == |ws[n].frame.columns|
    ensures Firsts(ws, n + 1) == Firsts(ws, n)
    ensures FramesTrack(ws, n + 1, Firsts(ws, n), WithMore(b, ws[n], k).frames)
  {
    var fs := Firsts(ws, n);
    forall l: nat | l < |b.frames| ensures WithMore(b, ws[n], k).frames[l] == Whole(ws, n + 1, fs[l]) {
      WholeStep(ws, n, fs[l]);
      if SameId(ws[n], ws[fs[l]]) { FirstsDiffer(ws, n, k, l); }
    }
  }

  lemma MoreKeeps(ws: seq<Write>, fs: seq<nat>, b: Built, w: Write, k: nat)
    requires forall l :: 0 <= l < |fs| ==> fs[l] < |ws|
    requires k < |b.frames| && |b.frames[k].columns| == |w.frame.columns|
    ensures WithMore(b, w, k).byKey == b.byKey
    ensures ListsTrack(ws, fs, b) ==> ListsTrack(ws, fs, WithMore(b, w, k))
  {
    assert forall refId :: ResponseOf(WithMore(b, w, k), refId).frames == ResponseOf(b, refId).frames;
  }

  lemma TracksMore(ws: seq<Write>, n: nat, b: Built, k: nat)
    requires n < |ws| && !First(ws, n) && OneSchema(ws) && Tracks(ws, n, b)
    requires k < |b.frames| && SameId(ws[Firsts(ws, n)[k]], ws[n]) && |b.frames[k].columns| == |ws[n].frame.columns|
    ensures Tracks(ws, n + 1, WithMore(b, ws[n], k))
  {
    FramesAfterMore(ws, n, b, k);
    MoreKeeps(ws, Firsts(ws, n), b, ws[n], k);
  }

  predicate IsNth(ws: seq<Write>, i: nat, c: Chunk)
    requires i < |ws|
  {
    c == ChunkOf(ws, i)
  }

  /** The state after chunk `n - 1`. */
  ghost predicate Next(libs: Libs, ws: seq<Write>, n: nat, b: Built, c: Chunk, after: Built) {
    n <= |ws| && Wf(b) && Accumulate(libs, b, c) == Some(after) && Tracks(ws, n, after)
  }

  lemma OneNewChunk(libs: Libs, ws: seq<Write>, n: nat, next: nat, b: Built, c: Chunk)
    requires ExactTo53(libs) && n < next == n + 1 <= |ws| && Succeeds(ws[n]) && OneSchema(ws) && CollisionFree(ws, PIPE)
    requires First(ws, n) && Wf(b) && Tracks(ws, n, b) && IsNth(ws, n, c)
    ensures exists after :: Next(libs, ws, next, b, c, after)
  {
    NotFound(ws, n, b);
    FirstAccumulates(libs, ws[n], b);
    TracksNew(ws, n, b);
    assert Next(libs, ws, next, b, c, WithNew(b, ws[n]));
  }

  lemma OneMoreChunk(libs: Libs, ws: seq<Write>, n: nat, next: nat, b: Built, c: Chunk)
    requires ExactTo53(libs) && n < next == n + 1 <= |ws| && Succeeds(ws[n]) && OneSchema(ws) && CollisionFree(ws, PIPE)
    requires !First(ws, n) && Wf(b) && Tracks(ws, n, b) && IsNth(ws, n, c)
    ensures exists after :: Next(libs, ws, next, b, c, after)
  {
    var k := Found(ws, n, b);
    var f := Firsts(ws, n)[k];
    TypesOfWhole(ws, n, f);
    assert HeaderOf(Addressed(ws[f])).types == HeaderOf(Addressed(ws[n])).types;
    MoreAccumulates(libs, ws[n], b, k);
    TracksMore(ws, n, b, k);
    assert Next(libs, ws, next, b, c, WithMore(b, ws[n], k));
  }

  /** The chunks of these calls, each with the schema exactly when it is the first of its frame. */
  predicate Stream(ws: seq<Write>, cs: seq<Chunk>) {
    |cs| == |ws| && forall i {:trigger IsNth(ws, i, cs[i])} :: 0 <= i < |cs| ==> IsNth(ws, i, cs[i])
  }

  lemma ChunksAreStream(ws: seq<Write>)
    requires AllSucceed(ws) && CollisionFree(ws, DASH)
    ensures Stream(ws, Chunks(ws))
  {
    forall i: nat | i < |ws| ensures IsNth(ws, i, Chunks(ws)[i]) {
      SchemaOnFirst(ws, i);
      assert IsChunk(ws, i, Chunks(ws)[i]);
    }
  }

  lemma AccumulateStep(libs: Libs, cs: seq<Chunk>, n: nat, b: Built, c: Chunk)
    requires 0 < n <= |cs| && AccumulateUpTo(libs, cs, n - 1) == Some(b) && cs[n - 1] == c
    ensures Wf(b) && AccumulateUpTo(libs, cs, n) == Accumulate(libs, b, c)
  {
  }

  /** The first `n` chunks have been taken, and nothing is lost. */
  ghost predicate Reached(libs: Libs, ws: seq<Write>, cs: seq<Chunk>, n: nat, b: Built) {
    n <= |ws| && n <= |cs| && AccumulateUpTo(libs, cs, n) == Some(b) && Tracks(ws, n, b)
  }

  lemma ReachedBy(libs: Libs, ws: seq<Write>, cs: seq<Chunk>, n: nat, before: Built, b: Built)
    requires 0 < n <= |ws| && n <= |cs| && Reached(libs, ws, cs, n - 1, before) && Next(libs, ws, n, before, cs[n - 1], b)
    ensures Reached(libs, ws, cs, n, b)
  {
    AccumulateStep(libs, cs, n, before, cs[n - 1]);
  }

  lemma NextChunk(libs: Libs, ws: seq<Write>, n: nat, next: nat, b: Built, c: Chunk)
    requires ExactTo53(libs) && n < next == n + 1 <= |ws| && Succeeds(ws[n]) && OneSchema(ws) && CollisionFree(ws, PIPE)
    requires Wf(b) && Tracks(ws, n, b) && IsNth(ws, n, c)
    ensures exists after :: Next(libs, ws, next, b, c, after)
  {
    if First(ws, n) {
      OneNewChunk(libs, ws, n, next, b, c);
    } else {
      OneMoreChunk(libs, ws, n, next, b, c);
    }
  }

  lemma ReachNext(libs: Libs, ws: seq<Write>, cs: seq<Chunk>, n: nat, before: Built, c: Chunk)
    requires 0 < n <= |ws| && n <= |cs| && cs[n - 1] == c && Reached(libs, ws, cs, n - 1, before)
    requires exists b :: Next(libs, ws, n, before, c, b)
    ensures exists b :: Reached(libs, ws, cs, n, b)
  {
    var b :| Next(libs, ws, n, before, c, b);
    ReachedBy(libs, ws, cs, n, before, b);
  }

  lemma ReachedAtStart(libs: Libs, ws: seq<Write>, cs: seq<Chunk>)
    ensures Reached(libs, ws, cs, 0, NOTHING)
  {
  }

  lemma NthSucceeds(ws: seq<Write>, cs: seq<Chunk>, i: nat)
    requires AllSucceed(ws) && Stream(ws, cs) && i < |ws|
    ensures Succeeds(ws[i]) && IsNth(ws, i, cs[i])
  {
  }

  lemma ReachOneMore(libs: Libs, ws: seq<Write>, cs: seq<Chunk>, m: nat, n: nat, before: Built)
    requires ExactTo53(libs) && AllSucceed(ws) && OneSchema(ws) && CollisionFree(ws, PIPE) && Stream(ws, cs)
    requires m < n == m + 1 <= |ws| && Reached(libs, ws, cs, m, before)
    ensures exists b :: Reached(libs, ws, cs, n, b)
  {
    NthSucceeds(ws, cs, m);
    ReachedIs(libs, ws, cs, m, before);
    NextChunk(libs, ws, m, n, before, cs[m]);
    ReachNext(libs, ws, cs, n, before, cs[m]);
  }

  lemma ReachedIs(libs: Libs, ws: seq<Write>, cs: seq<Chunk>, n: nat, b: Built)
    requires Reached(libs, ws, cs, n, b)
    ensures n <= |ws| && Wf(b) && Tracks(ws, n, b)
  {
  }

  lemma {:induction false} AccumulatesAll(libs: Libs, ws: seq<Write>, cs: seq<Chunk>, n: nat)
    requires ExactTo53(libs) && AllSucceed(ws) && OneSchema(ws) && CollisionFree(ws, PIPE) && Stream(ws, cs) && n <= |ws|
    ensures exists b :: Reached(libs, ws, cs, n, b)
    decreases n
  {
    if n == 0 {
      ReachedAtStart(libs, ws, cs);
    } else {
      AccumulatesAll(libs, ws, cs, n - 1);
      var before :| Reached(libs, ws, cs, n - 1, before);
      ReachOneMore(libs, ws, cs, n - 1, n, before);
    }
  }

  /** Reassembly: each frame comes out once, in order of appearance under its refID, with the schema of its first call
      and the rows of all its calls in order. */
  lemma Reassembled(libs: Libs, ws: seq<Write>)
    requires ExactTo53(libs) && AllSucceed(ws) && OneSchema(ws) && CollisionFree(ws, DASH) && CollisionFree(ws, PIPE)
    ensures var b := AccumulateUpTo(libs, Chunks(ws), |ws|);
            var fs := Firsts(ws, |ws|);
            && b.Some? && |b.value.frames| == |fs|
            && (forall k :: 0 <= k < |fs| ==> b.value.frames[k] == Whole(ws, |ws|, fs[k]))
            && (forall refId :: ResponseOf(b.value, refId).frames == Listed(ws, fs, refId))
  {
    ChunksAreStream(ws);
    AccumulatesAll(libs, ws, Chunks(ws), |ws|);
    var b :| Reached(libs, ws, Chunks(ws), |ws|, b);
  }

  /** The keys known after the first `n` chunks. */
  function KeysAt(libs: Libs, cs: seq<Chunk>, n: nat): set<GoString>
    requires n <= |cs|
  {
    var b := AccumulateUpTo(libs, cs, n);
    if b.None? then {} else b.value.byKey.Keys
  }

  /** A chunk that is taken leaves its key behind, and keys stay. */
  lemma KeysStay(libs: Libs, b: Built, c: Chunk)
    requires Wf(b) && c.payload.Some? && Accumulate(libs, b, c).Some?
    ensures Accumulate(libs, b, c).value.byKey.Keys == b.byKey.Keys + {Key(c)}
  {
  }

  /** A chunk with a schema is not taken when its key is known. */
  lemma SchemaNeedsNewKey(libs: Libs, b: Built, c: Chunk)
    requires Wf(b) && c.payload.Some? && c.payload.value.schema.Some? && Accumulate(libs, b, c).Some?
    ensures Key(c) !in b.byKey.Keys
  {
  }

  /** One chunk: its key is known after it, and was not known before it if it carries a schema. */
  predicate KeyStep(before: set<GoString>, after: set<GoString>, key: GoString, hasSchema: bool) {
    after == before + {key} && (hasSchema ==> key !in before)
  }

  predicate Carries(c: Chunk, key: GoString, hasSchema: bool) {
    c.payload.Some? && Key(c) == key && (c.payload.value.schema.Some? <==> hasSchema)
  }

  lemma KeysNext(libs: Libs, cs: seq<Chunk>, n: nat, c: Chunk, key: GoString, hasSchema: bool)
    requires 0 < n <= |cs| && cs[n - 1] == c && Carries(c, key, hasSchema) && AccumulateUpTo(libs, cs, n).Some?
    ensures KeyStep(KeysAt(libs, cs, n - 1), KeysAt(libs, cs, n), key, hasSchema)
  {
    var b := AccumulateUpTo(libs, cs, n - 1).value;
    AccumulateStep(libs, cs, n, b, c);
    KeysStay(libs, b, c);
    if hasSchema { SchemaNeedsNewKey(libs, b, c); }
  }

  lemma TakenSoFar(libs: Libs, cs: seq<Chunk>, n: nat)
    requires n <= |cs| && AccumulateUpTo(libs, cs, |cs|).Some?
    ensures AccumulateUpTo(libs, cs, n).Some?
  {
    if AccumulateUpTo(libs, cs, n).None? { FailureStays(libs, cs, n, |cs|); }
  }

  lemma TakenStep(libs: Libs, cs: seq<Chunk>, n: nat, key: GoString, hasSchema: bool)
    requires 0 < n <= |cs| && Carries(cs[n - 1], key, hasSchema) && AccumulateUpTo(libs, cs, |cs|).Some?
    ensures KeyStep(KeysAt(libs, cs, n - 1), KeysAt(libs, cs, n), key, hasSchema)
  {
    TakenSoFar(libs, cs, n);
    KeysNext(libs, cs, n, cs[n - 1], key, hasSchema);
  }

  lemma ChunkKey(ws: seq<Write>, i: nat, c: Chunk)
    requires i < |ws| && IsNth(ws, i, c)
    ensures Carries(c, Joined(ws[i], PIPE), First(ws, i))
  {
  }

  /** `sets` are the keys known between chunks with these keys. */
  ghost predicate KeyRun(keys: seq<GoString>, schemas: seq<bool>, sets: seq<set<GoString>>) {
    |keys| == |schemas| == |sets| - 1
    && forall n {:trigger sets[n]} :: 0 < n < |sets| ==> KeyStep(sets[n - 1], sets[n], keys[n - 1], schemas[n - 1])
  }

  lemma {:induction false} KeysSeen(keys: seq<GoString>, schemas: seq<bool>, sets: seq<set<GoString>>, j: nat, n: nat)
    requires j < n <= |keys| && KeyRun(keys, schemas, sets)
    ensures keys[j] in sets[n]
    decreases n
  {
    assert KeyStep(sets[n - 1], sets[n], keys[n - 1], schemas[n - 1]);
    if j < n - 1 { KeysSeen(keys, schemas, sets, j, n - 1); }
  }

  lemma SchemaKeyIsNew(keys: seq<GoString>, schemas: seq<bool>, sets: seq<set<GoString>>, j: nat, n: nat)
    requires j < n < |keys| && KeyRun(keys, schemas, sets) && schemas[n]
    ensures keys[j] != keys[n]
  {
    KeysSeen(keys, schemas, sets, j, n);
    assert KeyStep(sets[n], sets[n + 1], keys[n], schemas[n]);
  }

  ghost predicate AllCarry(cs: seq<Chunk>, keys: seq<GoString>, schemas: seq<bool>) {
    |keys| == |schemas| == |cs| && forall i {:trigger keys[i]} :: 0 <= i < |cs| ==> Carries(cs[i], keys[i], schemas[i])
  }

  lemma KeyStepAt(libs: Libs, cs: seq<Chunk>, keys: seq<GoString>, schemas: seq<bool>, n: nat)
    requires AllCarry(cs, keys, schemas) && 0 < n <= |cs| && AccumulateUpTo(libs, cs, |cs|).Some?
    ensures KeyStep(KeysAt(libs, cs, n - 1), KeysAt(libs, cs, n), keys[n - 1], schemas[n - 1])
  {
    assert Carries(cs[n - 1], keys[n - 1], schemas[n - 1]);
    TakenStep(libs, cs, n, keys[n - 1], schemas[n - 1]);
  }

  ghost function KeySets(libs: Libs, cs: seq<Chunk>): (sets: seq<set<GoString>>)
    ensures |sets| == |cs| + 1 && forall n :: 0 <= n <= |cs| ==> sets[n] == KeysAt(libs, cs, n)
  {
    seq(|cs| + 1, n requires 0 <= n <= |cs| => KeysAt(libs, cs, n))
  }

  lemma {:induction false} TakenRun(libs: Libs, cs: seq<Chunk>, keys: seq<GoString>, schemas: seq<bool>)
    requires AllCarry(cs, keys, schemas) && AccumulateUpTo(libs, cs, |cs|).Some?
    ensures KeyRun(keys, schemas, KeySets(libs, cs))
  {
    var sets := KeySets(libs, cs);
    forall n: nat | 0 < n < |sets| ensures KeyStep(sets[n - 1], sets[n], keys[n - 1], schemas[n - 1]) {
      KeyStepAt(libs, cs, keys, schemas, n);
    }
  }

  function PipeKeys(ws: seq<Write>): (keys: seq<GoString>)
    ensures |keys| == |ws| && forall i :: 0 <= i < |ws| ==> keys[i] == Joined(ws[i], PIPE)
  {
    seq(|ws|, i requires 0 <= i < |ws| => Joined(ws[i], PIPE))
  }

  function FirstFlags(ws: seq<Write>): (flags: seq<bool>)
    ensures |flags| == |ws| && forall i :: 0 <= i < |ws| ==> flags[i] == First(ws, i)
  {
    seq(|ws|, i requires 0 <= i < |ws| => First(ws, i))
  }

  /** A stream that is taken whole has keys that do not collide. */
  lemma TakenIsCollisionFree(libs: Libs, ws: seq<Write>, cs: seq<Chunk>)
    requires Stream(ws, cs) && AccumulateUpTo(libs, cs, |cs|).Some?
    ensures CollisionFree(ws, PIPE)
  {
    var keys, flags := PipeKeys(ws), FirstFlags(ws);
    forall i: nat | i < |cs| ensures Carries(cs[i], keys[i], flags[i]) {
      assert IsNth(ws, i, cs[i]);
      ChunkKey(ws, i, cs[i]);
    }
    TakenRun(libs, cs, keys, flags);
    var sets := KeySets(libs, cs);
    forall k: nat, l: nat | l < k < |ws| && First(ws, k) ensures Joined(ws[l], PIPE) != Joined(ws[k], PIPE) {
      SchemaKeyIsNew(keys, flags, sets, l, k);
    }
    forall i: nat, j: nat | i < |ws| && j < |ws| && Joined(ws[i], PIPE) == Joined(ws[j], PIPE)
      ensures SameId(ws[i], ws[j])
    {
      OneFounder(ws, PIPE, i, j);
    }
  }

  /** Given the schemas go out right, the stream can be put together precisely when the accumulator's keys do not
      collide either. */
  lemma ReassembledExact(libs: Libs, ws: seq<Write>)
    requires ExactTo53(libs) && AllSucceed(ws) && OneSchema(ws) && CollisionFree(ws, DASH)
    ensures AccumulateUpTo(libs, Chunks(ws), |ws|).Some? <==> CollisionFree(ws, PIPE)
  {
    ChunksAreStream(ws);
    if CollisionFree(ws, PIPE) {
      Reassembled(libs, ws);
    } else if AccumulateUpTo(libs, Chunks(ws), |ws|).Some? {
      TakenIsCollisionFree(libs, ws, Chunks(ws));
    }
  }

  // ----- when joined keys are distinct -----

  lemma {:induction false} SplitAtSeparator(a: GoString, b: GoString, x: GoString, y: GoString, separator: byte)
    requires a + [separator] + x == b + [separator] + y && separator !in a && separator !in b
    ensures a == b && x == y
    decreases |a|
  {
    SeparatorTail(a, x, separator);
    SeparatorTail(b, y, separator);
    assert a != [] ==> a[0] in a;
    assert b != [] ==> b[0] in b;
    if a != [] {
      SplitAtSeparator(a[1..], b[1..], x, y, separator);
      assert a == [a[0]] + a[1..] && b == [b[0]] + b[1..];
    }
  }

  lemma SeparatorTail(a: GoString, x: GoString, separator: byte)
    ensures var s := a + [separator] + x;
            && s[0] == (if a == [] then separator else a[0])
            && s[1..] == if a == [] then x else a[1..] + [separator] + x
  {
  }

  /** RefIDs without the separator are enough. */
  lemma PlainRefIdsDoNotCollide(ws: seq<Write>, separator: byte)
    requires forall i :: 0 <= i < |ws| ==> separator !in ws[i].refId
    ensures CollisionFree(ws, separator)
  {
    forall i, j | 0 <= i < |ws| && 0 <= j < |ws| && Joined(ws[i], separator) == Joined(ws[j], separator)
      ensures SameId(ws[i], ws[j])
    {
      SplitAtSeparator(ws[i].refId, ws[j].refId, ws[i].frameId, ws[j].frameId, separator);
    }
  }

  /** Otherwise the second frame can lose its schema: "a-b","c" and "a","b-c" share a key. */
  lemma CollidingKeysLoseSchema(f: DataFrame)
    requires FrameOk(f.columns)
    ensures var v, w := Write([0x61, DASH, 0x62], [0x63], f, true), Write([0x61], [0x62, DASH, 0x63], f, true);
            && !SameId(v, w)
            && Answer(SentAfter({}, v), w).Ok? && Answer(SentAfter({}, v), w).value.payload.value.schema.None?
  {
    NotRagged(f.columns);
    var v, w := Write([0x61, DASH, 0x62], [0x63], f, true), Write([0x61], [0x62, DASH, 0x63], f, true);
    assert Joined(v, DASH) == Joined(w, DASH);
  }

  /** A first call that fails has marked its key all the same: the schema never goes out, and no chunk of the frame
      can be read. */
  lemma FailedFirstCallLosesSchema(libs: Libs, w: Write, more: Write)
    requires w.refId != [] && w.frameId != [] && SameId(w, more) && more.taken && FrameOk(more.frame.columns)
    requires !w.taken || Ragged(w.frame.columns)
    requires more.frame.columns != []
    ensures Answer({}, w).Err? && Answer(SentAfter({}, w), more).Ok?
    ensures Answer(SentAfter({}, w), more).value.payload.value.schema.None?
    ensures Accumulate(libs, NOTHING, Answer(SentAfter({}, w), more).value).None?
  {
    NotRagged(more.frame.columns);
    assert Joined(w, DASH) == Joined(more, DASH);
    var doc := DocOf(more.frame.columns);
    NoColumnsNoValues(libs, doc.values, |doc.values|);
  }

  lemma {:induction false} NoColumnsNoValues(libs: Libs, values: seq<seq<Token>>, n: nat)
    requires 0 < n <= |values|
    ensures Valued(libs, [], values, n).Err?
    decreases n
  {
    if n > 1 { NoColumnsNoValues(libs, values, n - 1); }
  }
}
