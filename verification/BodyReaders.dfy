/** The readers around a captured body: backend/httpclient/max_bytes_reader.go, and `readAndRestoreBody` with the
    readers it returns (backend/harcapture/harcapture.go). A stream is its remaining bytes and how it ends; every
    reader is shown to hand out its stream and nothing else, however the reads are sized and chunked. */
module BodyReaders {
  import opened GoText
  import opened GoInts
  import opened Outcomes

  datatype Ending = EOF | Fault(code: nat) | TooLarge(limit: int)

  /** The io.Reader contract on a stream: the bytes are the next ones, and an error is the stream's ending after its
      last byte. */
  predicate Delivers(rest: GoString, ending: Ending, size: nat, bytes: GoString, err: Option<Ending>, after: GoString) {
    && |bytes| <= size && rest == bytes + after
    && (err.Some? ==> err.value == ending && after == [])
  }

  /** Without bytes or an error a read has used up one of the reader's stalls. */
  predicate Progresses(size: nat, bytes: GoString, err: Option<Ending>, stalls: nat, stallsAfter: nat) {
    stallsAfter <= stalls && (size > 0 && bytes == [] && err.None? ==> stallsAfter < stalls)
  }

  /** A reader that has reported its ending reports it again whenever it is asked for bytes. */
  predicate Sticks(ended: bool, ending: Ending, size: nat, bytes: GoString, err: Option<Ending>, endedAfter: bool) {
    && (ended || err.Some? ==> endedAfter)
    && (ended && size > 0 ==> bytes == [] && err == Some(ending))
  }

  // ----- runs of reads -----

  datatype Event = Event(size: nat, bytes: GoString, err: Option<Ending>)

  /** A run of reads from a stream with `rest` left, leaving `after`; `ended` says whether the ending was reported. */
  predicate Run(rest: GoString, ending: Ending, ended: bool, events: seq<Event>, after: GoString)
    decreases |events|
  {
    if events == [] then after == rest
    else
      && OneRead(rest, ending, ended, events[0])
      && Run(rest[|events[0].bytes|..], ending, ended || events[0].err.Some?, events[1..], after)
  }

  predicate OneRead(rest: GoString, ending: Ending, ended: bool, e: Event) {
    && |e.bytes| <= |rest| && Delivers(rest, ending, e.size, e.bytes, e.err, rest[|e.bytes|..])
    && (ended && e.size > 0 ==> e.bytes == [] && e.err == Some(ending))
  }

  function AllBytes(events: seq<Event>): GoString {
    if events == [] then [] else events[0].bytes + AllBytes(events[1..])
  }

  predicate AnyError(events: seq<Event>) { exists i :: 0 <= i < |events| && events[i].err.Some? }

  /** A run hands out the stream from its start. */
  lemma {:induction false} RunIsPrefix(rest: GoString, ending: Ending, ended: bool, events: seq<Event>, after: GoString)
    requires Run(rest, ending, ended, events, after)
    ensures rest == AllBytes(events) + after
    decreases |events|
  {
    if events != [] {
      var b := events[0].bytes;
      RunIsPrefix(rest[|b|..], ending, ended || events[0].err.Some?, events[1..], after);
      Shift(b, AllBytes(events[1..]), after);
    } else {
      assert [] + after == after;
    }
  }

  /** The consumer's view: reading until an error gives exactly the stream, then its ending; from then on there are no
      bytes, and every read that asks for some gets the ending again. */
  lemma {:induction false} RunEnds(rest: GoString, ending: Ending, ended: bool, events: seq<Event>, after: GoString, i: nat)
    requires Run(rest, ending, ended, events, after) && i < |events| && events[i].err.Some?
    ensures events[i].err.value == ending && after == [] && AllBytes(events[..i + 1]) == rest
    ensures forall j :: i < j < |events| ==>
              events[j].bytes == [] && (events[j].size > 0 ==> events[j].err == Some(ending))
    decreases |events|
  {
    var e := events[0];
    var next := rest[|e.bytes|..];
    if i > 0 {
      RunEnds(next, ending, ended || e.err.Some?, events[1..], after, i - 1);
      assert events[..i + 1][1..] == events[1..][..i];
    } else {
      NothingLeft(ending, events[1..], after);
      assert events[..1] == [e] && AllBytes([e]) == e.bytes + [];
    }
    forall j | i < j < |events|
      ensures events[j].bytes == [] && (events[j].size > 0 ==> events[j].err == Some(ending))
    {
      assert events[j] == events[1..][j - 1];
    }
  }

  lemma {:induction false} NothingLeft(ending: Ending, events: seq<Event>, after: GoString)
    requires Run([], ending, true, events, after)
    ensures after == []
    ensures forall j :: 0 <= j < |events| ==>
              events[j].bytes == [] && (events[j].size > 0 ==> events[j].err == Some(ending))
    decreases |events|
  {
    if events != [] {
      NothingLeft(ending, events[1..], after);
      forall j | 1 <= j < |events|
        ensures events[j].bytes == [] && (events[j].size > 0 ==> events[j].err == Some(ending))
      {
        assert events[j] == events[1..][j - 1];
      }
    }
  }

  lemma RunOne(rest: GoString, ending: Ending, ended: bool, e: Event, after: GoString)
    requires Delivers(rest, ending, e.size, e.bytes, e.err, after)
    requires ended && e.size > 0 ==> e.bytes == [] && e.err == Some(ending)
    ensures Run(rest, ending, ended, [e], after)
  {
    assert rest[|e.bytes|..] == after;
    assert [e][1..] == [];
  }

  lemma RunCons(rest: GoString, ending: Ending, ended: bool, first: Event, tail: seq<Event>, after: GoString)
    requires OneRead(rest, ending, ended, first)
    requires Run(rest[|first.bytes|..], ending, ended || first.err.Some?, tail, after)
    ensures Run(rest, ending, ended, [first] + tail, after)
  {
    assert ([first] + tail)[1..] == tail;
  }

  /** One read more. */
  lemma {:induction false} RunSnoc(rest: GoString, ending: Ending, ended: bool, events: seq<Event>, mid: GoString, e: Event,
                                   after: GoString)
    requires Run(rest, ending, ended, events, mid) && Delivers(mid, ending, e.size, e.bytes, e.err, after)
    requires (ended || AnyError(events)) && e.size > 0 ==> e.bytes == [] && e.err == Some(ending)
    ensures Run(rest, ending, ended, events + [e], after)
    decreases |events|
  {
    if events == [] {
      RunOne(rest, ending, ended, e, after);
      assert events + [e] == [e];
    } else {
      var first, tail := events[0], events[1..];
      ErrorCons(first, tail);
      assert events == [first] + tail && events + [e] == [first] + (tail + [e]);
      RunSnoc(rest[|first.bytes|..], ending, ended || first.err.Some?, tail, mid, e, after);
      RunCons(rest, ending, ended, first, tail + [e], after);
    }
  }

  lemma ErrorCons(e: Event, events: seq<Event>)
    ensures AnyError([e] + events) <==> e.err.Some? || AnyError(events)
  {
    var all := [e] + events;
    if AnyError(events) {
      var i :| 0 <= i < |events| && events[i].err.Some?;
      assert all[i + 1].err.Some?;
    }
    if e.err.Some? { assert all[0].err.Some?; }
  }

  lemma ErrorSnoc(events: seq<Event>, e: Event)
    ensures AnyError(events + [e]) <==> AnyError(events) || e.err.Some?
  {
    var all := events + [e];
    if AnyError(events) {
      var i :| 0 <= i < |events| && events[i].err.Some?;
      assert all[i].err.Some?;
    }
    if e.err.Some? { assert all[|events|].err.Some?; }
  }

  // ----- the underlying body -----

  /** Any body: it splits its bytes as it likes, may report its ending with the last bytes or later, and may return
      nothing a bounded number of times. Once it has reported its ending it reports it again, except that a read of no
      bytes may pass without. */
  class Source {
    const data: GoString
    const ending: Ending
    var pos: nat
    var stalls: nat
    var ended: bool
    var closed: bool

    ghost predicate Valid()
      reads this
    {
      pos <= |data| && (ended ==> pos == |data|)
    }

    ghost function Rest(): GoString
      requires Valid()
      reads this
    {
      data[pos..]
    }

    constructor (data: GoString, ending: Ending, stalls: nat)
      ensures Valid() && Rest() == data && this.ending == ending && !ended && !closed
    {
      this.data, this.ending, this.pos, this.stalls, this.ended, this.closed := data, ending, 0, stalls, false, false;
    }

    method Read(size: nat) returns (bytes: GoString, err: Option<Ending>)
      requires Valid()
      modifies this`pos, this`stalls, this`ended
      ensures Valid() && Delivers(old(Rest()), ending, size, bytes, err, Rest())
      ensures Progresses(size, bytes, err, old(stalls), stalls) && Sticks(old(ended), ending, size, bytes, err, ended)
    {
      var mayEnd: bool := *;
      if ended {
        return [], if size > 0 || mayEnd then Some(ending) else None;
      }
      var n: nat :| n <= size && n <= |data| - pos;
      if n == 0 && size > 0 {
        if stalls > 0 {
          stalls := stalls - 1;
          return [], None;
        }
        if pos < |data| {
          n := 1;
        }
      }
      bytes := data[pos..pos + n];
      pos := pos + n;
      err := None;
      if pos == |data| && (mayEnd || (n == 0 && size > 0)) {
        err, ended := Some(ending), true;
      }
    }

    method Close()
      modifies this`closed
      ensures closed
    {
      closed := true;
    }
  }

  // ----- maxBytesReader -----

  /** What a limit makes of a stream: its first bytes, then its own ending or, if there was more, the error. */
  function LimitedRest(rest: GoString, limit: nat): GoString { if |rest| <= limit then rest else rest[..limit] }

  function LimitedEnding(rest: GoString, ending: Ending, remaining: nat, limit: int): Ending {
    if |rest| <= remaining then ending else TooLarge(limit)
  }

  /** Limits that leave room for the extra byte that tells whether there is more. */
  predicate Workable(limit: int) { 0 <= limit < MAX64 }

  /** The length a buffer is cut down to. */
  function Room(remaining: int): int { Wrap64(remaining + 1) }

  /** The cut is out of range at the largest int64, where adding one wraps, and below -1. */
  lemma RoomExact(remaining: int)
    requires Int64(remaining)
    ensures Room(remaining) < 0 <==> remaining == MAX64 || remaining < -1
    ensures Workable(remaining) ==> Room(remaining) == remaining + 1
  {
  }

  /** What a Read does: its results, where `n` need not be the number of bytes, or a panic. */
  datatype Outcome = Returned(n: int, bytes: GoString, err: Option<Ending>) | Panicked

  class MaxBytesReader {
    const r: Source
    const limit: int
    var remainingBytes: int
    var err: Option<Ending>

    ghost predicate Valid()
      reads this, r
    {
      && r.Valid() && Int64(limit) && Int64(remainingBytes)
      && if Workable(limit) then
           0 <= remainingBytes <= limit
           && (err.Some? ==> err == Some(TooLarge(limit)) || (r.Rest() == [] && err == Some(r.ending)))
         else if err.None? then remainingBytes == limit
         else limit == -1 && err == Some(TooLarge(-1))
    }

    predicate Ended()
      reads this
    {
      err.Some?
    }

    /** The bytes still to come. */
    ghost function Rest(): GoString
      requires Valid() && Workable(limit)
      reads this, r
    {
      if err.Some? then [] else LimitedRest(r.Rest(), remainingBytes)
    }

    ghost function End(): Ending
      requires Valid() && Workable(limit)
      reads this, r
    {
      if err.Some? then err.value else LimitedEnding(r.Rest(), r.ending, remainingBytes, limit)
    }

    constructor (r: Source, limit: int)
      requires r.Valid() && Int64(limit)
      ensures Valid() && this.r == r && this.limit == limit && err.None?
      ensures Workable(limit) ==>
                Rest() == LimitedRest(r.Rest(), limit) && End() == LimitedEnding(r.Rest(), r.ending, limit, limit)
      ensures Workable(limit) ==>
                if |r.Rest()| <= limit then Rest() == r.Rest() && End() == r.ending
                else Rest() == r.Rest()[..limit] && End() == TooLarge(limit)
    {
      this.r, this.limit, this.remainingBytes, this.err := r, limit, limit, None;
    }

    /** Under a workable limit a read delivers the next bytes of the limited stream; under another one, the first read
        that asks for bytes panics, or, under -1, claims to have read -1 of them. */
    method Read(size: nat) returns (o: Outcome)
      requires Valid()
      modifies this, r`pos, r`stalls, r`ended
      ensures Valid() && r.closed == old(r.closed)
      ensures o.Panicked? <==> old(err).None? && size > 0 && (limit == MAX64 || limit < -1)
      ensures Workable(limit) ==>
                && o.Returned? && o.n == |o.bytes|
                && Delivers(old(Rest()), old(End()), size, o.bytes, o.err, Rest()) && End() == old(End())
                && Progresses(size, o.bytes, o.err, old(r.stalls), r.stalls)
                && Sticks(old(Ended()), old(End()), size, o.bytes, o.err, Ended())
      ensures limit == -1 && old(err).None? && size > 0 ==> o == Returned(-1, [], Some(TooLarge(-1)))
      ensures old(err).Some? ==> o == Returned(0, [], old(err))
      ensures o.Returned? && o.err.Some? ==> err == o.err
    {
      if err.Some? {
        return Returned(0, [], err);
      }
      if size == 0 {
        return Returned(0, [], None);
      }
      RoomExact(remainingBytes);
      var n: nat := size;
      if size > Room(remainingBytes) {
        if Room(remainingBytes) < 0 {
          return Panicked;
        }
        n := Room(remainingBytes);
      }
      ghost var rest := r.Rest();
      var bytes, e := r.Read(n);
      assert rest == bytes + r.Rest();
      if |bytes| <= remainingBytes {
        LimitAfterRead(rest, bytes, r.Rest(), remainingBytes);
        remainingBytes := remainingBytes - |bytes|;
        err := e;
        return Returned(|bytes|, bytes, e);
      }
      assert Workable(limit) ==> LimitedRest(rest, remainingBytes) == bytes[..remainingBytes];
      var taken := remainingBytes;
      remainingBytes := 0;
      err := Some(TooLarge(limit));
      return Returned(taken, if taken < 0 then [] else bytes[..taken], err);
    }

    method Close()
      modifies r`closed
      ensures r.closed
    {
      r.Close();
    }
  }

  /** A read of a new limiter that asks for bytes panics exactly under the largest limit and under limits below -1. */
  method ReadFresh(r: Source, limit: int, size: nat) returns (o: Outcome)
    requires r.Valid() && Int64(limit) && size > 0
    modifies r
    ensures o.Panicked? <==> limit == MAX64 || limit < -1
    ensures limit == -1 ==> o == Returned(-1, [], Some(TooLarge(-1)))
  {
    var l := new MaxBytesReader(r, limit);
    o := l.Read(size);
  }

  /** At the largest limit the cut wraps to the least int64. */
  lemma LargestLimitWraps()
    ensures Int64(MAX64) && Room(MAX64) == MIN64
  {
  }

  lemma LimitAfterRead(rest: GoString, bytes: GoString, after: GoString, remaining: nat)
    requires rest == bytes + after && |bytes| <= remaining
    ensures LimitedRest(rest, remaining) == bytes + LimitedRest(after, remaining - |bytes|)
    ensures |rest| <= remaining <==> |after| <= remaining - |bytes|
  {
  }

  // ----- a response or request body: any of the above -----

  datatype Body = Raw(s: Source) | Limited(l: MaxBytesReader) {
    ghost function Repr(): set<object> { if Raw? then {s} else {l, l.r} }

    ghost predicate Valid()
      reads Repr()
    {
      if Raw? then s.Valid() else l.Valid() && Workable(l.limit)
    }

    ghost function Rest(): GoString
      requires Valid()
      reads Repr()
    {
      if Raw? then s.Rest() else l.Rest()
    }

    ghost function End(): Ending
      requires Valid()
      reads Repr()
    {
      if Raw? then s.ending else l.End()
    }

    function Origin(): Source { if Raw? then s else l.r }

    predicate Ended()
      reads Repr()
    {
      if Raw? then s.ended else l.Ended()
    }

    method Read(size: nat) returns (bytes: GoString, err: Option<Ending>)
      requires Valid()
      modifies Repr()
      ensures Valid() && Delivers(old(Rest()), old(End()), size, bytes, err, Rest()) && End() == old(End())
      ensures Progresses(size, bytes, err, old(Origin().stalls), Origin().stalls)
      ensures Sticks(old(Ended()), old(End()), size, bytes, err, Ended())
      ensures Origin().closed == old(Origin().closed)
    {
      if Raw? {
        bytes, err := s.Read(size);
      } else {
        var o := l.Read(size);
        bytes, err := o.bytes, o.err;
      }
    }

    method Close()
      modifies Origin()`closed
      ensures Origin().closed
    {
      if Raw? {
        s.Close();
      } else {
        l.Close();
      }
    }
  }

  // ----- the readers readAndRestoreBody returns -----

  /** bytes.Reader. */
  class BytesReader {
    const data: GoString
    var pos: nat

    ghost predicate Valid()
      reads this
    {
      pos <= |data|
    }

    ghost function Rest(): GoString
      requires Valid()
      reads this
    {
      data[pos..]
    }

    constructor (data: GoString)
      ensures Valid() && Rest() == data
    {
      this.data, this.pos := data, 0;
    }

    method Read(size: nat) returns (bytes: GoString, err: Option<Ending>)
      requires Valid()
      modifies this
      ensures Valid() && Delivers(old(Rest()), EOF, size, bytes, err, Rest())
      ensures err.Some? <==> old(Rest()) == []
      ensures size > 0 && err.None? ==> bytes != []
    {
      if pos >= |data| {
        return [], Some(EOF);
      }
      var n := if size < |data| - pos then size else |data| - pos;
      bytes := data[pos..pos + n];
      pos := pos + n;
      return bytes, None;
    }
  }

  /** errorReader. */
  class ErrorReader {
    const r: BytesReader
    const err: Ending

    ghost predicate Valid()
      reads this, r
    {
      r.Valid()
    }

    constructor (data: GoString, err: Ending)
      ensures Valid() && fresh(r) && r.Rest() == data && this.err == err
    {
      this.r := new BytesReader(data);
      this.err := err;
    }

    method Read(size: nat) returns (bytes: GoString, e: Option<Ending>)
      requires Valid()
      modifies r
      ensures Valid() && Delivers(old(r.Rest()), err, size, bytes, e, r.Rest())
      ensures e.Some? <==> old(r.Rest()) == []
      ensures size > 0 && e.None? ==> bytes != []
    {
      bytes, e := r.Read(size);
      if e == Some(EOF) {
        e := Some(err);
      }
    }
  }

  /** bodyRemainder: io.MultiReader over the buffered head and the rest of the body. */
  class BodyRemainder {
    const head: BytesReader
    const tail: Body
    var headDone: bool
    var tailDone: bool

    ghost function Repr(): set<object> { {this, head} + tail.Repr() }

    ghost predicate Valid()
      reads Repr()
    {
      && head.Valid() && tail.Valid() && head !in tail.Repr() && this !in tail.Repr()
      && (headDone ==> head.Rest() == []) && (tailDone ==> headDone && tail.Rest() == [] && tail.End() == EOF)
    }

    ghost function Rest(): GoString
      requires Valid()
      reads Repr()
    {
      head.Rest() + tail.Rest()
    }

    predicate Ended()
      reads Repr()
    {
      headDone && (tailDone || tail.Ended())
    }

    constructor (captured: GoString, tail: Body)
      requires tail.Valid()
      ensures Valid() && this.tail == tail && Rest() == captured + tail.Rest() && fresh(head)
    {
      this.head := new BytesReader(captured);
      this.tail, headDone, tailDone := tail, false, false;
    }

    method Read(size: nat) returns (bytes: GoString, err: Option<Ending>)
      requires Valid()
      modifies Repr()
      ensures Valid() && Delivers(old(Rest()), old(tail.End()), size, bytes, err, Rest()) && tail.End() == old(tail.End())
      ensures Progresses(size, bytes, err, old(tail.Origin().stalls), tail.Origin().stalls)
      ensures Sticks(old(Ended()), old(tail.End()), size, bytes, err, Ended())
    {
      ghost var h, t := head.Rest(), tail.Rest();
      if !headDone {
        bytes, err := head.Read(size);
        if err.None? {
          assert h + t == bytes + (head.Rest() + t);
          return;
        }
        headDone := true;
      }
      assert h == [] && h + t == t;
      if tailDone {
        return [], Some(EOF);
      }
      bytes, err := tail.Read(size);
      if err == Some(EOF) {
        tailDone := true;
      }
      assert head.Rest() + tail.Rest() == tail.Rest();
    }
  }

  datatype Restored = Failing(er: ErrorReader) | Whole(br: BytesReader) | Remainder(bm: BodyRemainder) {
    ghost function Repr(): set<object> {
      match this
      case Failing(er) => {er, er.r}
      case Whole(br) => {br}
      case Remainder(bm) => bm.Repr()
    }

    ghost predicate Valid()
      reads Repr()
    {
      match this
      case Failing(er) => er.Valid()
      case Whole(br) => br.Valid()
      case Remainder(bm) => bm.Valid()
    }

    ghost function Rest(): GoString
      requires Valid()
      reads Repr()
    {
      match this
      case Failing(er) => er.r.Rest()
      case Whole(br) => br.Rest()
      case Remainder(bm) => bm.Rest()
    }

    /** How often it may still return nothing. */
    ghost function Stalls(): nat
      reads Repr()
    {
      if Remainder? then bm.tail.Origin().stalls else 0
    }

    ghost predicate Ended()
      requires Valid()
      reads Repr()
    {
      if Remainder? then bm.Ended() else Rest() == []
    }

    ghost function End(): Ending
      requires Valid()
      reads Repr()
    {
      match this
      case Failing(er) => er.err
      case Whole(_) => EOF
      case Remainder(bm) => bm.tail.End()
    }

    method Read(size: nat) returns (bytes: GoString, err: Option<Ending>)
      requires Valid()
      modifies Repr()
      ensures Valid() && Delivers(old(Rest()), old(End()), size, bytes, err, Rest()) && End() == old(End())
      ensures Progresses(size, bytes, err, old(Stalls()), Stalls())
      ensures Sticks(old(Ended()), old(End()), size, bytes, err, Ended())
    {
      match this
      case Failing(er) => bytes, err := er.Read(size);
      case Whole(br) => bytes, err := br.Read(size);
      case Remainder(bm) => bytes, err := bm.Read(size);
    }

    /** Only a remainder still has a body to close. */
    method Close()
      modifies if Remainder? then {bm.tail.Origin()} else {}
      ensures Remainder? ==> bm.tail.Origin().closed
    {
      if Remainder? {
        bm.tail.Close();
      }
    }
  }

  // ----- what a consumer of these readers gets -----

  /** Where a reader stood before a run: the stream left, its ending, and whether that was reported. */
  datatype Past = Past(rest: GoString, ending: Ending, ended: bool)

  /** The run since then. */
  ghost predicate SoFar(before: Past, events: seq<Event>, rest: GoString, ending: Ending, ended: bool) {
    && ending == before.ending && Run(before.rest, before.ending, before.ended, events, rest)
    && (before.ended || AnyError(events) ==> ended)
  }

  lemma OneMoreRead(before: Past, events: seq<Event>, mid: GoString, ending: Ending, ended: bool, e: Event, rest: GoString,
                    endedAfter: bool)
    requires SoFar(before, events, mid, ending, ended) && Delivers(mid, ending, e.size, e.bytes, e.err, rest)
    requires Sticks(ended, ending, e.size, e.bytes, e.err, endedAfter)
    ensures SoFar(before, events + [e], rest, ending, endedAfter)
  {
    RunSnoc(before.rest, before.ending, before.ended, events, mid, e, rest);
    ErrorSnoc(events, e);
  }

  function SizesOf(events: seq<Event>): (sizes: seq<nat>)
    ensures |sizes| == |events| && forall i :: 0 <= i < |sizes| ==> sizes[i] == events[i].size
  {
    seq(|events|, i requires 0 <= i < |events| => events[i].size)
  }

  lemma SizesSnoc(events: seq<Event>, e: Event, sizes: seq<nat>, i: nat)
    requires i < |sizes| && SizesOf(events) == sizes[..i] && e.size == sizes[i]
    ensures SizesOf(events + [e]) == sizes[..i + 1]
  {
  }

  method ReadOnce(x: Body, size: nat, ghost before: Past, ghost events: seq<Event>) returns (e: Event)
    requires x.Valid() && SoFar(before, events, x.Rest(), x.End(), x.Ended())
    modifies x.Repr()
    ensures x.Valid() && SoFar(before, events + [e], x.Rest(), x.End(), x.Ended()) && e.size == size
  {
    ghost var mid, ending, ended := x.Rest(), x.End(), x.Ended();
    var bytes, err := x.Read(size);
    e := Event(size, bytes, err);
    OneMoreRead(before, events, mid, ending, ended, e, x.Rest(), x.Ended());
  }

  /** Any reads of a body, limited or not, are a run of its stream. */
  method ReadSizes(x: Body, sizes: seq<nat>) returns (events: seq<Event>)
    requires x.Valid()
    modifies x.Repr()
    ensures x.Valid() && x.End() == old(x.End())
    ensures SizesOf(events) == sizes
    ensures Run(old(x.Rest()), old(x.End()), old(x.Ended()), events, x.Rest())
  {
    events := [];
    ghost var before := Past(x.Rest(), x.End(), x.Ended());
    for i := 0 to |sizes|
      invariant x.Valid() && SizesOf(events) == sizes[..i] && SoFar(before, events, x.Rest(), x.End(), x.Ended())
    {
      var e := ReadOnce(x, sizes[i], before, events);
      SizesSnoc(events, e, sizes, i);
      events := events + [e];
    }
    assert sizes[..|sizes|] == sizes;
  }

  method ReadRestoredOnce(x: Restored, size: nat, ghost before: Past, ghost events: seq<Event>) returns (e: Event)
    requires x.Valid() && SoFar(before, events, x.Rest(), x.End(), x.Ended())
    modifies x.Repr()
    ensures x.Valid() && SoFar(before, events + [e], x.Rest(), x.End(), x.Ended()) && e.size == size
  {
    ghost var mid, ending, ended := x.Rest(), x.End(), x.Ended();
    var bytes, err := x.Read(size);
    e := Event(size, bytes, err);
    OneMoreRead(before, events, mid, ending, ended, e, x.Rest(), x.Ended());
  }

  /** The same for a restored body. */
  method ReadRestored(x: Restored, sizes: seq<nat>) returns (events: seq<Event>)
    requires x.Valid()
    modifies x.Repr()
    ensures x.Valid() && x.End() == old(x.End())
    ensures SizesOf(events) == sizes
    ensures Run(old(x.Rest()), old(x.End()), old(x.Ended()), events, x.Rest())
  {
    events := [];
    ghost var before := Past(x.Rest(), x.End(), x.Ended());
    for i := 0 to |sizes|
      invariant x.Valid() && SizesOf(events) == sizes[..i] && SoFar(before, events, x.Rest(), x.End(), x.Ended())
    {
      var e := ReadRestoredOnce(x, sizes[i], before, events);
      SizesSnoc(events, e, sizes, i);
      events := events + [e];
    }
    assert sizes[..|sizes|] == sizes;
  }

  /** io.ReadAll on a body, with buffers of any size: the stream and its ending, which has to arrive. */
  method ReadAll(x: Body) returns (all: GoString, ending: Ending)
    requires x.Valid()
    modifies x.Repr()
    ensures x.Valid() && all == old(x.Rest()) && ending == old(x.End()) == x.End() && x.Ended()
  {
    all := [];
    ghost var whole, end := x.Rest(), x.End();
    assert [] + x.Rest() == x.Rest();
    while true
      invariant x.Valid() && x.End() == end && whole == all + x.Rest()
      decreases |x.Rest()|, x.Origin().stalls
    {
      var free: nat :| free > 0;
      var bytes, err := x.Read(free);
      Shift(all, bytes, x.Rest());
      all := all + bytes;
      if err.Some? {
        return all, err.value;
      }
    }
  }

  /** The same on a restored body. */
  method ReadAllRestored(x: Restored) returns (all: GoString, ending: Ending)
    requires x.Valid()
    modifies x.Repr()
    ensures x.Valid() && all == old(x.Rest()) && ending == old(x.End()) == x.End() && x.Ended()
  {
    all := [];
    ghost var whole, end := x.Rest(), x.End();
    assert [] + x.Rest() == x.Rest();
    while true
      invariant x.Valid() && x.End() == end && whole == all + x.Rest()
      decreases |x.Rest()|, x.Stalls()
    {
      var free: nat :| free > 0;
      var bytes, err := x.Read(free);
      Shift(all, bytes, x.Rest());
      all := all + bytes;
      if err.Some? {
        return all, err.value;
      }
    }
  }

  // ----- readAndRestoreBody -----

  /** io.Copy into a buffer from a reader limited to `limit` bytes; None when it ended without an error. */
  method CopyLimited(rc: Body, limit: nat) returns (captured: GoString, err: Option<Ending>)
    requires rc.Valid()
    modifies rc.Repr()
    ensures rc.Valid() && rc.End() == old(rc.End()) && old(rc.Rest()) == captured + rc.Rest() && |captured| <= limit
    ensures err.Some? ==> err == Some(rc.End()) && err != Some(EOF) && rc.Rest() == []
    ensures err.None? ==> |captured| == limit || (rc.Rest() == [] && rc.End() == EOF)
    ensures rc.Origin().closed == old(rc.Origin().closed)
  {
    captured, err := [], None;
    ghost var all, ending := rc.Rest(), rc.End();
    var left := limit;
    assert [] + rc.Rest() == rc.Rest();
    while left > 0
      invariant rc.Valid() && rc.End() == ending && all == captured + rc.Rest() && |captured| + left == limit
      invariant left >= 0
      invariant rc.Origin().closed == old(rc.Origin().closed)
      decreases |rc.Rest()|, rc.Origin().stalls
    {
      var free: nat :| free > 0;
      var bytes, e := rc.Read(if free > left then left else free);
      Shift(captured, bytes, rc.Rest());
      captured := captured + bytes;
      left := left - |bytes|;
      if e == Some(EOF) {
        return captured, None;
      }
      if e.Some? {
        return captured, e;
      }
    }
  }

  lemma Shift(a: GoString, b: GoString, c: GoString)
    ensures a + (b + c) == a + b + c
  {
  }

  /** The consumer of the restored body sees the original stream and ending; the capture is complete exactly when it
      holds the whole body, which fits the cap and ended cleanly. */
  method ReadAndRestoreBody(rc: Body, maxBodyBytes: nat)
    returns (captured: GoString, sizeUnknown: bool, restored: Restored)
    requires rc.Valid()
    modifies rc.Repr()
    ensures restored.Valid() && restored.Rest() == old(rc.Rest()) && restored.End() == old(rc.End())
    ensures fresh(restored.Repr() - rc.Repr())
    ensures !sizeUnknown <==> |old(rc.Rest())| <= maxBodyBytes && old(rc.End()) == EOF
    ensures !sizeUnknown ==> captured == old(rc.Rest())
    ensures captured <= old(rc.Rest()) && |captured| <= maxBodyBytes + 1
    ensures sizeUnknown ==> captured == old(rc.Rest()) || captured == LimitedRest(old(rc.Rest()), maxBodyBytes)
    ensures if restored.Remainder? then restored.bm.tail == rc else rc.Origin().closed
  {
    ghost var all := rc.Rest();
    var err;
    captured, err := CopyLimited(rc, maxBodyBytes + 1);
    assert captured == all[..|captured|];
    if err.Some? {
      assert captured + [] == captured;
      rc.Close();
      var er := new ErrorReader(captured, err.value);
      return captured, true, Failing(er);
    }
    if |captured| <= maxBodyBytes {
      assert captured + [] == captured;
      rc.Close();
      var br := new BytesReader(captured);
      return captured, false, Whole(br);
    }
    var bm := new BodyRemainder(captured, rc);
    return captured[..maxBodyBytes], true, Remainder(bm);
  }

  /** What a response limit makes of a stream; a limit that is not positive is none. */
  function AdmittedRest(rest: GoString, limit: int): GoString { if limit <= 0 then rest else LimitedRest(rest, limit) }

  function AdmittedEnding(rest: GoString, ending: Ending, limit: int): Ending {
    if limit <= 0 then ending else LimitedEnding(rest, ending, limit, limit)
  }

  /** The body ResponseLimitMiddleware hands on under the limit it resolved; None when the first read of it panics. */
  method LimitBody(s: Source, limit: int) returns (body: Option<Body>)
    requires s.Valid() && Int64(limit)
    modifies s
    ensures body.None? <==> limit == MAX64
    ensures body.Some? ==> body.value.Valid() && body.value.Rest() == AdmittedRest(old(s.Rest()), limit)
    ensures body.Some? ==> body.value.End() == AdmittedEnding(old(s.Rest()), s.ending, limit)
    ensures body.Some? ==> body.value.Origin() == s && fresh(body.value.Repr() - {s})
  {
    if limit <= 0 {
      return Some(Body.Raw(s));
    }
    var l := new MaxBytesReader(s, limit);
    if limit == MAX64 {
      var size: nat :| size > 0;
      var o := l.Read(size);
      assert o.Panicked?;
      return None;
    }
    return Some(Limited(l));
  }

  /** Capture over the limiter: the consumer sees the limited stream, whatever was captured; None when the first read
      panics. */
  method CaptureLimited(s: Source, limit: int, maxBodyBytes: nat)
    returns (captured: GoString, sizeUnknown: bool, restored: Option<Restored>)
    requires s.Valid() && Int64(limit)
    modifies s
    ensures restored.None? <==> limit == MAX64
    ensures restored.Some? ==>
              && restored.value.Valid() && restored.value.Rest() == AdmittedRest(old(s.Rest()), limit)
              && fresh(restored.value.Repr() - {s})
              && restored.value.End() == AdmittedEnding(old(s.Rest()), s.ending, limit)
    ensures restored.Some? ==>
              (!sizeUnknown <==> (limit <= 0 || |old(s.Rest())| <= limit) && |old(s.Rest())| <= maxBodyBytes && s.ending == EOF)
    ensures restored.Some? && !sizeUnknown ==> captured == old(s.Rest())
    ensures restored.Some? ==> captured <= AdmittedRest(old(s.Rest()), limit)
  {
    var body := LimitBody(s, limit);
    if body.None? {
      return [], true, None;
    }
    var whole;
    captured, sizeUnknown, whole := ReadAndRestoreBody(body.value, maxBodyBytes);
    restored := Some(whole);
  }

  /** End to end: a consumer of a captured response reads the limited stream and its ending, whatever the sizes, unless
      the limit is the largest int64. */
  method CaptureThenRead(s: Source, limit: int, maxBodyBytes: nat)
    returns (captured: GoString, read: Option<(GoString, Ending)>)
    requires s.Valid() && Int64(limit)
    modifies s
    ensures read == if limit == MAX64 then None
                    else Some((AdmittedRest(old(s.Rest()), limit), AdmittedEnding(old(s.Rest()), s.ending, limit)))
    ensures read.Some? ==> captured <= read.value.0
    ensures limit != 0x7FFF_FFFF_FFFF_FFFF ==>
              read == if limit <= 0 || |old(s.Rest())| <= limit then Some((old(s.Rest()), s.ending))
                      else Some((old(s.Rest())[..limit], TooLarge(limit)))
  {
    var sizeUnknown, restored;
    captured, sizeUnknown, restored := CaptureLimited(s, limit, maxBodyBytes);
    if restored.None? {
      return captured, None;
    }
    var all, ending := ReadAllRestored(restored.value);
    read := Some((all, ending));
  }
}
