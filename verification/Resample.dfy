/** data/sqlutil/resample.go `ResampleWideFrame`: a scan that resumes from row to row, proved equal to looking up
    each tick on its own. */
module Resample {
  import opened GoText
  import opened Outcomes
  import opened Frames

  /** How a call ends. `Panicked`: a nil was inserted into a non-nullable column. */
  datatype Failure = NotTimeSeries | Ragged | NilTime | Panicked

  datatype Answer = Unchanged | Resampled(frame: Frame) | Failed(why: Failure)

  function TimeOf(c: Cell): Option<int> { if c.Val? && c.v.TimeVal? then Some(c.v.at) else None }

  function TimesOf(f: Field): (ts: seq<Option<int>>)
    ensures |ts| == |f.cells| && forall i :: 0 <= i < |ts| ==> ts[i] == TimeOf(f.cells[i])
  {
    seq(|f.cells|, i requires 0 <= i < |f.cells| => TimeOf(f.cells[i]))
  }

  /** The input as the scan sees it: the frame, its schema, and each row's time. */
  datatype Source = Source(frame: Frame, sch: Schema, times: seq<Option<int>>, fill: Fill, interval: int) {
    predicate Valid() {
      && sch == SchemaOf(frame) && sch.timeIndex < |frame| && interval != 0
      && times == TimesOf(frame[sch.timeIndex]) && forall j :: 0 <= j < |frame| ==> |frame[j].cells| == |times|
    }
  }

  // ----- the rows of the result -----

  /** getRowFillValues for one column: `inWindow` is the last row of the window, or -1; `last` the last row seen, or -1. */
  function FillCell(s: Source, j: nat, c: int, inWindow: int, last: int): Cell
    requires s.Valid() && j < |s.frame| && -1 <= inWindow < |s.times| && -1 <= last < |s.times|
  {
    if j == s.sch.timeIndex then Val(TimeVal(c))
    else if j in s.sch.valueIndices then
      if inWindow >= 0 then s.frame[j].cells[inWindow]
      else
        var missing := GetMissing(s.fill, s.frame[j], last);
        if missing.Some? then missing.value else Null
    else if last >= 0 then s.frame[j].cells[last] else Null
  }

  function FillRow(s: Source, c: int, inWindow: int, last: int): (row: seq<Cell>)
    requires s.Valid() && -1 <= inWindow < |s.times| && -1 <= last < |s.times|
    ensures |row| == |s.frame|
    ensures forall j :: 0 <= j < |row| ==> row[j] == FillCell(s, j, c, inWindow, last)
  {
    seq(|s.frame|, j requires 0 <= j < |s.frame| => FillCell(s, j, c, inWindow, last))
  }

  /** InsertRow succeeds unless a nil meets a non-nullable column. */
  predicate Insertable(s: Source, row: seq<Cell>)
    requires |row| == |s.frame|
  {
    forall j :: 0 <= j < |row| && row[j].Null? ==> s.frame[j].ftype.nullable
  }

  // ----- the scan -----

  /** How the scan for one tick ends: at a nil time, or with the last row seen and the last row of the window. */
  datatype Scan = NilFound | Done(last: int, inWindow: int)

  /** The inner loop from row `i` on. */
  function ScanFrom(ts: seq<Option<int>>, interval: int, c: int, i: nat, last: int, inWindow: int): (r: Scan)
    requires i <= |ts| && -1 <= last < |ts| && -1 <= inWindow < |ts|
    ensures r.Done? ==> -1 <= r.last < |ts| && -1 <= r.inWindow < |ts|
    decreases |ts| - i
  {
    if i == |ts| then Done(last, inWindow)
    else if ts[i].None? then NilFound
    else if ts[i].value > c - interval && ts[i].value > c then Done(last, inWindow)
    else ScanFrom(ts, interval, c, i + 1, i, if ts[i].value > c - interval then i else inWindow)
  }

  /** Where the scan resumes; a scan that stopped at row 0 starts over. */
  function Resume(last: int): nat { if last > 0 then last + 1 else 0 }

  /** The frame so far and the last row seen, or how the call failed. */
  datatype State = Going(rows: seq<seq<Cell>>, last: int) | Stopped(why: Failure)

  /** One iteration of the outer loop. */
  function Step(s: Source, st: State, c: int): (r: State)
    requires s.Valid() && (st.Going? ==> -1 <= st.last < |s.times|)
    ensures r.Going? ==> -1 <= r.last < |s.times|
  {
    if st.Stopped? then st
    else
      var scan := ScanFrom(s.times, s.interval, c, Resume(st.last), st.last, -1);
      if scan.NilFound? then Stopped(NilTime)
      else
        var row := FillRow(s, c, scan.inWindow, scan.last);
        if Insertable(s, row) then Going(st.rows + [row], scan.last) else Stopped(Panicked)
  }

  function Tick(from: int, interval: int, k: nat): int { if k == 0 then from else Tick(from, interval, k - 1) + interval }

  /** The state after the first `n` ticks. */
  function After(s: Source, from: int, n: nat): (st: State)
    requires s.Valid()
    ensures st.Going? ==> -1 <= st.last < |s.times|
  {
    if n == 0 then Going([], -1) else Step(s, After(s, from, n - 1), Tick(from, s.interval, n - 1))
  }

  /** Number of ticks from `from` up to `to`. */
  function TickCount(from: int, to: int, interval: int): nat
    requires interval > 0
  {
    if from > to then 0 else (to - from) / interval + 1
  }

  lemma {:induction false} TickIs(from: int, interval: int, k: nat)
    ensures Tick(from, interval, k) == from + k * interval
    decreases k
  {
    if k > 0 {
      TickIs(from, interval, k - 1);
      assert k * interval == (k - 1) * interval + interval;
    }
  }

  lemma FloorExact(d: int, interval: int, k: nat)
    requires interval > 0 && d >= 0
    ensures k * interval <= d <==> k <= d / interval
  {
    var q := d / interval;
    assert q * interval <= d < q * interval + interval;
    if k <= q {
      MulOrder(k, q, interval);
    } else {
      MulOrder(q + 1, k, interval);
      assert (q + 1) * interval == q * interval + interval;
    }
  }

  /** The ticks up to `to` are the first `TickCount`. */
  lemma TicksExact(from: int, to: int, interval: int, k: nat)
    requires interval > 0
    ensures Tick(from, interval, k) <= to <==> k < TickCount(from, to, interval)
  {
    TickIs(from, interval, k);
    if from <= to {
      FloorExact(to - from, interval, k);
    } else {
      MulOrder(0, k, interval);
    }
  }

  lemma MulOrder(a: nat, b: nat, c: int)
    requires a <= b && c > 0
    ensures a * c <= b * c
  {
  }

  // ----- looking each tick up on its own -----

  /** The first row without a time, or the number of rows. */
  function FirstNil(ts: seq<Option<int>>): (z: nat)
    ensures z <= |ts| && (z < |ts| ==> ts[z].None?)
    ensures forall i :: 0 <= i < z ==> ts[i].Some?
  {
    if ts == [] || ts[0].None? then 0 else 1 + FirstNil(ts[1..])
  }

  /** Ascending up to the first missing time. */
  predicate Ascending(ts: seq<Option<int>>) {
    forall i, j :: 0 <= i < j < FirstNil(ts) ==> ts[i].value <= ts[j].value
  }

  /** The last of the first `n` rows no later than `c`, or -1. */
  function LastUpTo(ts: seq<Option<int>>, n: nat, c: int): (p: int)
    requires n <= |ts| && forall i :: 0 <= i < n ==> ts[i].Some?
    ensures -1 <= p < n && (p >= 0 ==> ts[p].value <= c)
    ensures forall i :: p < i < n ==> ts[i].value > c
  {
    if n == 0 then -1 else if ts[n - 1].value <= c then n - 1 else LastUpTo(ts, n - 1, c)
  }

  /** The row to use at `c`, or -1. */
  function RowAt(s: Source, c: int): (p: int)
    ensures -1 <= p < |s.times|
  {
    LastUpTo(s.times, FirstNil(s.times), c)
  }

  /** A tick's cell: a value column takes the last row no later than the tick if that is within one interval,
      else the fill value; the other columns always take that row. */
  function LookupCell(s: Source, j: nat, c: int): Cell
    requires s.Valid() && j < |s.frame|
  {
    var p, field := RowAt(s, c), s.frame[j];
    if j == s.sch.timeIndex then Val(TimeVal(c))
    else if p >= 0 && (j !in s.sch.valueIndices || s.times[p].value > c - s.interval) then field.cells[p]
    else if j !in s.sch.valueIndices then Null
    else
      match s.fill
      case NoFill => Null
      case NullFill => Null
      case Constant(convert) => if field.ftype.kind.NumberKind? then Val(NumVal(convert(field.ftype.kind.code))) else Null
      case Previous => if p >= 0 then field.cells[p] else Null
  }

  function LookupRow(s: Source, c: int): (row: seq<Cell>)
    requires s.Valid()
    ensures |row| == |s.frame|
  {
    seq(|s.frame|, j requires 0 <= j < |s.frame| => LookupCell(s, j, c))
  }

  /** A tick looked up on its own; one that has every row before a missing time behind it fails. */
  function LookupStep(s: Source, st: State, c: int): State
    requires s.Valid()
  {
    if st.Stopped? then st
    else if NilReached(s, c) then Stopped(NilTime)
    else if Insertable(s, LookupRow(s, c)) then Going(st.rows + [LookupRow(s, c)], RowAt(s, c))
    else Stopped(Panicked)
  }

  predicate NilReached(s: Source, c: int) {
    FirstNil(s.times) < |s.times| && RowAt(s, c) + 1 == FirstNil(s.times)
  }

  /** The rows of the first `n` ticks, each looked up on its own. */
  function LookedUp(s: Source, from: int, n: nat): State
    requires s.Valid()
  {
    if n == 0 then Going([], -1) else LookupStep(s, LookedUp(s, from, n - 1), Tick(from, s.interval, n - 1))
  }

  lemma {:induction false} ScanExact(s: Source, c: int, i: nat, last: int, inWindow: int)
    requires s.Valid() && s.interval > 0 && Ascending(s.times) && i <= RowAt(s, c) + 1 && -1 <= last < |s.times| && -1 <= inWindow < |s.times|
    ensures var z, p := FirstNil(s.times), RowAt(s, c);
            ScanFrom(s.times, s.interval, c, i, last, inWindow)
            == if z < |s.times| && p == z - 1 then NilFound
               else if p < i then Done(last, inWindow)
               else Done(p, if s.times[p].value > c - s.interval then p else inWindow)
    decreases |s.times| - i
  {
    var p := RowAt(s, c);
    if i <= p {
      assert s.times[i].value <= s.times[p].value;
      ScanExact(s, c, i + 1, i, if s.times[i].value > c - s.interval then i else inWindow);
    }
  }

  lemma RowAtGrows(s: Source, c: int, d: int)
    requires Ascending(s.times) && c <= d
    ensures RowAt(s, c) <= RowAt(s, d)
  {
  }

  lemma FillIsLookup(s: Source, c: int)
    requires s.Valid()
    ensures var p := RowAt(s, c);
            FillRow(s, c, if p >= 0 && s.times[p].value > c - s.interval then p else -1, p) == LookupRow(s, c)
  {
    var p := RowAt(s, c);
    var row := FillRow(s, c, if p >= 0 && s.times[p].value > c - s.interval then p else -1, p);
    forall j | 0 <= j < |row| ensures row[j] == LookupRow(s, c)[j] {}
  }

  lemma ScanIsRowAt(s: Source, last: int, prev: int, c: int)
    requires s.Valid() && s.interval > 0 && Ascending(s.times) && c == prev + s.interval && (last == -1 || last == RowAt(s, prev))
    ensures var z, p := FirstNil(s.times), RowAt(s, c);
            ScanFrom(s.times, s.interval, c, Resume(last), last, -1)
            == if z < |s.times| && p == z - 1 then NilFound
               else Done(p, if p >= 0 && s.times[p].value > c - s.interval then p else -1)
  {
    RowAtGrows(s, prev, c);
    ScanExact(s, c, Resume(last), last, -1);
    if RowAt(s, c) == last && last >= 0 { assert s.times[last].value <= prev; }
  }

  lemma StepIsLookup(s: Source, st: State, prev: int, c: int)
    requires s.Valid() && s.interval > 0 && Ascending(s.times) && c == prev + s.interval
    requires st.Going? ==> st.last == -1 || st.last == RowAt(s, prev)
    ensures Step(s, st, c) == LookupStep(s, st, c)
    ensures Step(s, st, c).Going? ==> Step(s, st, c).last == RowAt(s, c)
  {
    if st.Going? {
      ScanIsRowAt(s, st.last, prev, c);
      FillIsLookup(s, c);
    }
  }

  /** Resuming the scan, and starting it over at row 0, make no difference: it equals looking each tick up. */
  lemma {:induction false} ScanIsLookup(s: Source, from: int, n: nat)
    requires s.Valid() && s.interval > 0 && Ascending(s.times)
    ensures After(s, from, n) == LookedUp(s, from, n)
    ensures n > 0 && After(s, from, n).Going? ==> After(s, from, n).last == RowAt(s, Tick(from, s.interval, n - 1))
    ensures n == 0 ==> After(s, from, n) == Going([], -1)
    decreases n
  {
    if n > 0 {
      ScanIsLookup(s, from, n - 1);
      var c := Tick(from, s.interval, n - 1);
      var prev := if n == 1 then c - s.interval else Tick(from, s.interval, n - 2);
      StepIsLookup(s, After(s, from, n - 1), prev, c);
    }
  }

  // ----- ResampleWideFrame -----

  function SourceOf(f: Frame, fill: Fill, interval: int): Source {
    var sch := SchemaOf(f);
    Source(f, sch, if sch.timeIndex < |f| then TimesOf(f[sch.timeIndex]) else [], fill, interval)
  }

  /** The resampled frame with the given rows. */
  function FrameOf(f: Frame, rows: seq<seq<Cell>>): (r: Frame)
    requires forall k :: 0 <= k < |rows| ==> |rows[k]| == |f|
    ensures |r| == |f|
    ensures forall j :: 0 <= j < |f| ==>
              && r[j].name == f[j].name && r[j].ftype == f[j].ftype && r[j].labels == f[j].labels
              && |r[j].cells| == |rows| && forall k :: 0 <= k < |rows| ==> r[j].cells[k] == rows[k][j]
  {
    seq(|f|, j requires 0 <= j < |f| => f[j].(cells := Column(rows, j, |f|)))
  }

  function Column(rows: seq<seq<Cell>>, j: nat, width: nat): (cs: seq<Cell>)
    requires j < width && forall k :: 0 <= k < |rows| ==> |rows[k]| == width
    ensures |cs| == |rows| && forall k :: 0 <= k < |rows| ==> cs[k] == rows[k][j]
  {
    seq(|rows|, k requires 0 <= k < |rows| => rows[k][j])
  }

  lemma {:induction false} RowsSized(s: Source, from: int, n: nat)
    requires s.Valid()
    ensures var st := After(s, from, n);
            st.Going? ==> |st.rows| == n && forall k :: 0 <= k < n ==> |st.rows[k]| == |s.frame|
    decreases n
  {
    if n > 0 { RowsSized(s, from, n - 1); }
  }

  /** Ticks of a call that ends: with a negative interval the first one decides. */
  function Ticks(from: int, to: int, interval: int): nat
    requires interval != 0
  {
    if interval > 0 then TickCount(from, to, interval) else if from <= to then 1 else 0
  }

  /** The calls that run forever: a negative interval, and a first tick that succeeds. */
  predicate NeverEnds(f: Frame, fill: Fill, from: int, to: int, interval: int) {
    && interval < 0 && from <= to && !SchemaOf(f).seriesType.NotSeries? && RowLen(f).Some?
    && Step(SourceOf(f, fill, interval), Going([], -1), from).Going?
  }

  /** What a call that ends returns. Ragged columns are noticed when the first tick is scanned. */
  function Expected(f: Frame, fill: Fill, from: int, to: int, interval: int): Answer
    requires !NeverEnds(f, fill, from, to, interval)
  {
    if SchemaOf(f).seriesType.NotSeries? then Failed(NotTimeSeries)
    else if interval == 0 then Unchanged
    else if from > to then Resampled(FrameOf(f, []))
    else if RowLen(f).None? then Failed(Ragged)
    else
      var s, n := SourceOf(f, fill, interval), Ticks(from, to, interval);
      RowsSized(s, from, n);
      match After(s, from, n)
      case Stopped(why) => Failed(why)
      case Going(rows, _) => Resampled(FrameOf(f, rows))
  }

  /** The inner loop. `consumed` counts the rows it moves past. */
  method ScanRows(s: Source, c: int, last: int) returns (r: Scan, ghost consumed: nat)
    requires s.Valid() && -1 <= last < |s.times|
    ensures r == ScanFrom(s.times, s.interval, c, Resume(last), last, -1)
    ensures r.Done? ==> r.last == if consumed == 0 then last else Resume(last) + consumed - 1
    ensures Resume(last) + consumed <= |s.times|
  {
    var initialRowIdx := 0;
    if last > 0 {
      initialRowIdx := last + 1;
    }
    var lastSeen, inWindow := last, -1;
    consumed := 0;
    while initialRowIdx < |s.times|
      invariant Resume(last) <= initialRowIdx <= |s.times| && consumed == initialRowIdx - Resume(last)
      invariant -1 <= lastSeen < |s.times| && -1 <= inWindow < |s.times|
      invariant if consumed == 0 then lastSeen == last else lastSeen == initialRowIdx - 1
      invariant ScanFrom(s.times, s.interval, c, Resume(last), last, -1)
             == ScanFrom(s.times, s.interval, c, initialRowIdx, lastSeen, inWindow)
    {
      var t := TimeOf(s.frame[s.sch.timeIndex].cells[initialRowIdx]);
      if t.None? {
        return NilFound, consumed;
      }
      var previousTime := c - s.interval;
      if t.value > previousTime {
        if t.value <= c {
          inWindow := initialRowIdx;
        } else {
          break;
        }
      }
      lastSeen := initialRowIdx;
      initialRowIdx := initialRowIdx + 1;
      consumed := consumed + 1;
    }
    r := Done(lastSeen, inWindow);
  }

  /** getRowFillValues. */
  method RowFillValues(s: Source, c: int, inWindow: int, last: int) returns (vals: seq<Cell>)
    requires s.Valid() && -1 <= inWindow < |s.times| && -1 <= last < |s.times|
    ensures vals == FillRow(s, c, inWindow, last)
  {
    vals := [];
    for i := 0 to |s.frame|
      invariant |vals| == i && forall j :: 0 <= j < i ==> vals[j] == FillCell(s, j, c, inWindow, last)
    {
      if i == s.sch.timeIndex {
        vals := vals + [Val(TimeVal(c))];
        continue;
      }
      var isValueField := IsValueField(s.sch.valueIndices, i);
      var newVal := Null;
      if isValueField {
        if inWindow >= 0 {
          newVal := s.frame[i].cells[inWindow];
        } else {
          var missing := GetMissing(s.fill, s.frame[i], last);
          if missing.Some? {
            newVal := missing.value;
          }
        }
      } else if last >= 0 {
        newVal := s.frame[i].cells[last];
      }
      vals := vals + [newVal];
    }
  }

  method IsValueField(valueIndices: seq<nat>, i: nat) returns (b: bool)
    ensures b <==> i in valueIndices
  {
    for k := 0 to |valueIndices|
      invariant i !in valueIndices[..k]
    {
      if valueIndices[k] == i {
        return true;
      }
    }
    assert valueIndices[..|valueIndices|] == valueIndices;
    return false;
  }

  /** InsertRow at the end of the frame; None stands for the panic. */
  method InsertRow(f: Frame, ghost rows: seq<seq<Cell>>, row: seq<Cell>, out: Frame) returns (r: Option<Frame>)
    requires |row| == |f| && (forall k :: 0 <= k < |rows| ==> |rows[k]| == |f|) && out == FrameOf(f, rows)
    ensures r.Some? <==> forall j :: 0 <= j < |row| && row[j].Null? ==> f[j].ftype.nullable
    ensures r.Some? ==> r.value == FrameOf(f, rows + [row])
  {
    var now := out;
    for j := 0 to |row|
      invariant |now| == |f|
      invariant forall i :: 0 <= i < j && row[i].Null? ==> f[i].ftype.nullable
      invariant forall i :: 0 <= i < |f| ==> now[i] == if i < j then FrameOf(f, rows + [row])[i] else out[i]
    {
      if row[j].Null? && !now[j].ftype.nullable {
        return None;
      }
      now := now[j := now[j].(cells := now[j].cells + [row[j]])];
      assert now[j].cells == FrameOf(f, rows + [row])[j].cells;
    }
    r := Some(now);
  }

  /** One tick: scan, fill values, insertion. `rows` are the rows inserted so far. */
  method ResampleTick(s: Source, c: int, last: int, frame: Frame, ghost rows: seq<seq<Cell>>)
    returns (r: Result<(Frame, int), Failure>, ghost more: nat)
    requires s.Valid() && -1 <= last < |s.times| && RowsOk(s, rows) && frame == FrameOf(s.frame, rows)
    ensures var st := Step(s, Going(rows, last), c);
            && (r.Err? <==> st.Stopped?) && (r.Err? ==> r.error == st.why)
            && (r.Ok? ==> RowsOk(s, st.rows) && r.value.0 == FrameOf(s.frame, st.rows) && r.value.1 == st.last)
    ensures r.Ok? ==> r.value.1 == if more == 0 then last else Resume(last) + more - 1
    ensures Resume(last) + more <= |s.times|
  {
    var scan;
    scan, more := ScanRows(s, c, last);
    if scan.NilFound? {
      return Err(NilTime), more;
    }
    var fieldVals := RowFillValues(s, c, scan.inWindow, scan.last);
    var inserted := InsertRow(s.frame, rows, fieldVals, frame);
    if inserted.None? {
      return Err(Panicked), more;
    }
    r := Ok((inserted.value, scan.last));
  }

  predicate RowsOk(s: Source, rows: seq<seq<Cell>>) { forall k :: 0 <= k < |rows| ==> |rows[k]| == |s.frame| }

  lemma AfterNext(s: Source, from: int, n: nat, next: nat, rows: seq<seq<Cell>>, last: int)
    requires s.Valid() && next == n + 1 && After(s, from, n) == Going(rows, last)
    ensures -1 <= last < |s.times| && After(s, from, next) == Step(s, Going(rows, last), Tick(from, s.interval, n))
    ensures Tick(from, s.interval, next) == Tick(from, s.interval, n) + s.interval
  {
  }

  /** The frame built so far holds the rows of the first `n` ticks. */
  ghost predicate Holds(s: Source, from: int, n: nat, frame: Frame, last: int)
    requires s.Valid()
  {
    var st := After(s, from, n);
    -1 <= last < |s.times| && st.Going? && st.last == last && RowsOk(s, st.rows) && frame == FrameOf(s.frame, st.rows)
  }

  /** Tick `n`, on the frame of those before it. */
  method NextTick(s: Source, c: int, last: int, frame: Frame, ghost from: int, ghost n: nat, ghost next: nat)
    returns (r: Result<(Frame, int), Failure>, ghost more: nat)
    requires s.Valid() && Holds(s, from, n, frame, last) && c == Tick(from, s.interval, n) && next == n + 1
    ensures r.Err? ==> After(s, from, next) == Stopped(r.error)
    ensures r.Ok? ==> Holds(s, from, next, r.value.0, r.value.1)
    ensures r.Ok? ==> r.value.1 == if more == 0 then last else Resume(last) + more - 1
    ensures Resume(last) + more <= |s.times| && c + s.interval == Tick(from, s.interval, next)
  {
    ghost var rows := After(s, from, n).rows;
    r, more := ResampleTick(s, c, last, frame, rows);
    AfterNext(s, from, n, next, rows, last);
  }

  /** The guard of the outer loop holds for exactly the first `n` ticks; of a negative interval only the first counts. */
  ghost predicate GuardIs(from: int, to: int, interval: int, n: nat) {
    forall k: nat {:trigger Tick(from, interval, k)} :: interval > 0 || k == 0 ==> (Tick(from, interval, k) <= to <==> k < n)
  }

  lemma GuardExact(from: int, to: int, interval: int)
    requires interval != 0
    ensures GuardIs(from, to, interval, Ticks(from, to, interval))
  {
    if interval > 0 {
      forall k: nat ensures Tick(from, interval, k) <= to <==> k < Ticks(from, to, interval) {
        TicksExact(from, to, interval, k);
      }
    }
  }

  /** The outer loop. */
  method ResampleTicks(s: Source, from: int, to: int, empty: Frame, ghost n: nat)
    returns (r: Result<Frame, Failure>, ghost ticks: nat, ghost consumed: nat)
    requires s.Valid() && empty == FrameOf(s.frame, []) && GuardIs(from, to, s.interval, n)
    requires s.interval < 0 && from <= to ==> After(s, from, 1).Stopped? && n == 1
    ensures consumed <= |s.times| + ticks && ticks <= n
    ensures var st := After(s, from, n);
            && (r.Err? <==> st.Stopped?) && (r.Err? ==> r.error == st.why)
            && (r.Ok? ==> ticks == n && RowsOk(s, st.rows) && r.value == FrameOf(s.frame, st.rows))
  {
    var resampledFrame, currentTime, lastSeenRowIdx := empty, from, -1;
    ticks, consumed := 0, 0;
    while currentTime <= to
      invariant currentTime == Tick(from, s.interval, ticks) && ticks <= n && (s.interval < 0 ==> ticks == 0)
      invariant Holds(s, from, ticks, resampledFrame, lastSeenRowIdx) && consumed <= lastSeenRowIdx + 1 + ticks
      decreases n - ticks
    {
      var tick;
      ghost var more;
      tick, more := NextTick(s, currentTime, lastSeenRowIdx, resampledFrame, from, ticks, ticks + 1);
      consumed, ticks := consumed + more, ticks + 1;
      if tick.Err? {
        StoppedStays(s, from, ticks, n);
        return Err(tick.error), ticks, consumed;
      }
      resampledFrame, lastSeenRowIdx := tick.value.0, tick.value.1;
      currentTime := currentTime + s.interval;
    }
    r := Ok(resampledFrame);
  }

  lemma ReadyToTick(f: Frame, fill: Fill, from: int, to: int, interval: int)
    requires !NeverEnds(f, fill, from, to, interval) && from <= to && interval != 0
    requires !SchemaOf(f).seriesType.NotSeries? && RowLen(f).Some?
    ensures var s, n := SourceOf(f, fill, interval), Ticks(from, to, interval);
            && s.Valid() && GuardIs(from, to, interval, n) && f != [] && |s.times| == |f[0].cells|
            && (interval < 0 ==> After(s, from, 1).Stopped? && n == 1)
  {
    var s := SourceOf(f, fill, interval);
    GuardExact(from, to, interval);
    assert After(s, from, 1) == Step(s, After(s, from, 0), Tick(from, interval, 0));
  }

  /** `consumed` counts the rows the inner loop moves past in the whole call. The precondition leaves out exactly the
      calls that never end (NeverEndsExactly). */
  method ResampleWideFrame(f: Frame, fill: Fill, from: int, to: int, interval: int)
    returns (r: Answer, ghost ticks: nat, ghost consumed: nat)
    requires !NeverEnds(f, fill, from, to, interval)
    ensures r == Expected(f, fill, from, to, interval)
    ensures consumed <= (if f == [] then 0 else |f[0].cells|) + ticks
    ensures interval != 0 ==> ticks <= Ticks(from, to, interval)
  {
    ticks, consumed := 0, 0;
    var sch := TimeSeriesSchema(f);
    if sch.seriesType.NotSeries? {
      return Failed(NotTimeSeries), ticks, consumed;
    }
    if interval == 0 {
      return Unchanged, ticks, consumed;
    }
    var resampledFrame := EmptyCopy(f);
    if from > to {
      return Resampled(resampledFrame), ticks, consumed;
    }
    var rowLen := RowLen(f);
    if rowLen.None? {
      return Failed(Ragged), ticks, consumed;
    }
    var s := SourceOf(f, fill, interval);
    ReadyToTick(f, fill, from, to, interval);
    var done;
    done, ticks, consumed := ResampleTicks(s, from, to, resampledFrame, Ticks(from, to, interval));
    r := if done.Err? then Failed(done.error) else Resampled(done.value);
  }

  method EmptyCopy(f: Frame) returns (r: Frame)
    ensures r == FrameOf(f, [])
  {
    r := [];
    for j := 0 to |f|
      invariant |r| == j && forall i :: 0 <= i < j ==> r[i] == FrameOf(f, [])[i]
    {
      r := r + [Field(f[j].name, f[j].ftype, f[j].labels, [])];
      assert r[j].cells == FrameOf(f, [])[j].cells;
    }
  }

  lemma {:induction false} StoppedStays(s: Source, from: int, n: nat, m: nat)
    requires s.Valid() && n <= m && After(s, from, n).Stopped?
    ensures After(s, from, m) == After(s, from, n)
    decreases m
  {
    if n < m { StoppedStays(s, from, n, m - 1); }
  }

  // ----- what a call returns, for times in order -----

  /** The resampled rows are the ticks looked up one by one. */
  lemma ResampledIsLookup(f: Frame, fill: Fill, from: int, to: int, interval: int)
    requires interval > 0 && from <= to && !SchemaOf(f).seriesType.NotSeries? && RowLen(f).Some?
    requires Ascending(SourceOf(f, fill, interval).times)
    ensures SourceOf(f, fill, interval).Valid()
    ensures match LookedUp(SourceOf(f, fill, interval), from, TickCount(from, to, interval))
            case Stopped(why) => Expected(f, fill, from, to, interval) == Failed(why)
            case Going(rows, _) =>
              && (forall k :: 0 <= k < |rows| ==> |rows[k]| == |f|)
              && Expected(f, fill, from, to, interval) == Resampled(FrameOf(f, rows))
  {
    var s, n := SourceOf(f, fill, interval), TickCount(from, to, interval);
    ScanIsLookup(s, from, n);
    RowsSized(s, from, n);
  }

  /** The row of tick `k`: at `from + k * interval`, its cells looked up. */
  lemma {:induction false} LookedUpRow(s: Source, from: int, n: nat, k: nat)
    requires s.Valid() && k < n && LookedUp(s, from, n).Going?
    ensures |LookedUp(s, from, n).rows| == n
    ensures LookedUp(s, from, n).rows[k] == LookupRow(s, from + k * s.interval)
    decreases n
  {
    TickIs(from, s.interval, n - 1);
    if k < n - 1 {
      LookedUpRow(s, from, n - 1, k);
    } else if n > 1 {
      LookedUpRow(s, from, n - 1, 0);
    }
  }

  lemma LookedUpRows(s: Source, from: int, n: nat)
    requires s.Valid() && LookedUp(s, from, n).Going?
    ensures |LookedUp(s, from, n).rows| == n
    ensures forall k :: 0 <= k < n ==> LookedUp(s, from, n).rows[k] == LookupRow(s, from + k * s.interval)
  {
    if n > 0 { LookedUpRow(s, from, n, 0); }
    forall k | 0 <= k < n ensures LookedUp(s, from, n).rows[k] == LookupRow(s, from + k * s.interval) {
      LookedUpRow(s, from, n, k);
    }
  }

  /** The frame has one row per tick, each looked up on its own. */
  predicate LooksUp(s: Source, from: int, n: nat, frame: Frame)
    requires s.Valid()
  {
    && |frame| == |s.frame| && (forall j :: 0 <= j < |frame| ==> |frame[j].cells| == n)
    && forall j, k :: 0 <= j < |frame| && 0 <= k < n ==> frame[j].cells[k] == LookupCell(s, j, from + k * s.interval)
  }

  lemma FrameLooksUp(s: Source, from: int, n: nat)
    requires s.Valid() && LookedUp(s, from, n).Going?
    ensures var rows := LookedUp(s, from, n).rows;
            (forall k :: 0 <= k < |rows| ==> |rows[k]| == |s.frame|) && LooksUp(s, from, n, FrameOf(s.frame, rows))
  {
    LookedUpRows(s, from, n);
    var rows := LookedUp(s, from, n).rows;
    var frame := FrameOf(s.frame, rows);
    forall j, k | 0 <= j < |frame| && 0 <= k < n ensures frame[j].cells[k] == LookupCell(s, j, from + k * s.interval) {
      assert frame[j].cells[k] == rows[k][j] && rows[k] == LookupRow(s, from + k * s.interval);
    }
  }

  lemma NilReachedExact(s: Source, c: int)
    requires Ascending(s.times) && FirstNil(s.times) < |s.times|
    ensures NilReached(s, c) <==> FirstNil(s.times) == 0 || s.times[FirstNil(s.times) - 1].value <= c
  {
  }

  lemma LookupStepNullable(s: Source, st: State, c: int)
    requires s.Valid() && st.Going?
    requires forall j :: 0 <= j < |s.frame| && j != s.sch.timeIndex ==> s.frame[j].ftype.nullable
    ensures LookupStep(s, st, c).Going? <==> !NilReached(s, c)
    ensures LookupStep(s, st, c).Going? || LookupStep(s, st, c) == Stopped(NilTime)
  {
  }

  /** A missing time fails the call exactly when the last tick has all rows before it behind it, if no nil is inserted. */
  lemma {:induction false} NilTimeExact(s: Source, from: int, n: nat)
    requires s.Valid() && s.interval > 0 && Ascending(s.times) && n > 0 && FirstNil(s.times) < |s.times|
    requires forall j :: 0 <= j < |s.frame| && j != s.sch.timeIndex ==> s.frame[j].ftype.nullable
    ensures var z := FirstNil(s.times);
            LookedUp(s, from, n) == Stopped(NilTime)
            <==> z == 0 || s.times[z - 1].value <= Tick(from, s.interval, n - 1)
    ensures LookedUp(s, from, n).Going? || LookedUp(s, from, n) == Stopped(NilTime)
    decreases n
  {
    var c := Tick(from, s.interval, n - 1);
    NilReachedExact(s, c);
    if n > 1 { NilTimeExact(s, from, n - 1); }
    if LookedUp(s, from, n - 1).Going? { LookupStepNullable(s, LookedUp(s, from, n - 1), c); }
  }

  /** Where the inner loop stops: at a row without a time, or one after the window and the tick. */
  predicate StopsAt(ts: seq<Option<int>>, interval: int, c: int, i: nat, e: nat) {
    && i <= e <= |ts| && (forall k :: i <= k < e ==> ts[k].Some? && (ts[k].value <= c - interval || ts[k].value <= c))
    && (e < |ts| && ts[e].Some? ==> ts[e].value > c - interval && ts[e].value > c)
  }

  /** The last row of the window before `e`, or the one found before. */
  predicate LastInWindow(ts: seq<Option<int>>, interval: int, c: int, i: nat, e: nat, was: int, w: int)
    requires StopsAt(ts, interval, c, i, e)
  {
    if forall k :: i <= k < e ==> ts[k].value <= c - interval then w == was
    else i <= w < e && ts[w].value > c - interval && forall k :: w < k < e ==> ts[k].value <= c - interval
  }

  /** The inner loop on any times, in order or not. */
  lemma {:induction false} ScanStops(ts: seq<Option<int>>, interval: int, c: int, i: nat, last: int, was: int) returns (e: nat)
    requires i <= |ts| && -1 <= last < |ts| && -1 <= was < |ts|
    ensures StopsAt(ts, interval, c, i, e)
    ensures var r := ScanFrom(ts, interval, c, i, last, was);
            if e < |ts| && ts[e].None? then r.NilFound?
            else r.Done? && r.last == (if e == i then last else e - 1) && LastInWindow(ts, interval, c, i, e, was, r.inWindow)
    decreases |ts| - i
  {
    if i == |ts| || ts[i].None? || (ts[i].value > c - interval && ts[i].value > c) {
      e := i;
    } else {
      e := ScanStops(ts, interval, c, i + 1, i, if ts[i].value > c - interval then i else was);
    }
  }

  // ----- which ticks fail -----

  /** Tick `k` inserts a nil into a non-nullable column. */
  predicate NilInserted(s: Source, from: int, k: nat)
    requires s.Valid()
  {
    var c := Tick(from, s.interval, k);
    !NilReached(s, c) && !Insertable(s, LookupRow(s, c))
  }

  predicate NilMet(s: Source, from: int, k: nat) { NilReached(s, Tick(from, s.interval, k)) }

  lemma NilStaysMet(s: Source, from: int, k: nat, n: nat)
    requires s.Valid() && s.interval > 0 && Ascending(s.times) && k <= n && NilMet(s, from, k)
    ensures NilMet(s, from, n)
    decreases n
  {
    if k < n {
      NilStaysMet(s, from, k, n - 1);
      RowAtGrows(s, Tick(from, s.interval, n - 1), Tick(from, s.interval, n));
    }
  }

  datatype Verdict = Fine | MetNil | PutNil

  function VerdictOf(s: Source, from: int, k: nat): Verdict
    requires s.Valid()
  {
    if NilMet(s, from, k) then MetNil else if NilInserted(s, from, k) then PutNil else Fine
  }

  function Verdicts(s: Source, from: int, n: nat): (vs: seq<Verdict>)
    requires s.Valid()
    ensures |vs| == n && forall k :: 0 <= k < n ==> vs[k] == VerdictOf(s, from, k)
  {
    seq(n, k requires 0 <= k < n => VerdictOf(s, from, k))
  }

  /** What the ticks come to. */
  predicate Outcome(vs: seq<Verdict>, st: State) {
    && (st == Stopped(Panicked) <==> PutNil in vs)
    && (st == Stopped(NilTime) <==> vs != [] && vs[|vs| - 1].MetNil? && PutNil !in vs)
    && (st.Going? || st == Stopped(Panicked) || st == Stopped(NilTime))
  }

  predicate Follows(st: State, v: Verdict, next: State) {
    if st.Stopped? then next == st
    else if v.MetNil? then next == Stopped(NilTime)
    else if v.PutNil? then next == Stopped(Panicked) else next.Going?
  }

  lemma TickOutcome(s: Source, from: int, m: nat, n: nat)
    requires s.Valid() && n > 0 && m == n - 1
    ensures Follows(LookedUp(s, from, m), VerdictOf(s, from, m), LookedUp(s, from, n))
  {
  }

  lemma OutcomeNext(vs: seq<Verdict>, v: Verdict, st: State, next: State)
    requires Outcome(vs, st) && Follows(st, v, next) && (vs != [] && vs[|vs| - 1].MetNil? ==> v.MetNil?)
    ensures Outcome(vs + [v], next)
  {
    var all := vs + [v];
    assert PutNil in vs ==> PutNil in all;
    assert all[|all| - 1] == v;
  }

  lemma MetStays(s: Source, from: int, m: nat)
    requires s.Valid() && s.interval > 0 && Ascending(s.times)
    ensures var vs := Verdicts(s, from, m);
            vs != [] && vs[|vs| - 1].MetNil? ==> VerdictOf(s, from, m).MetNil?
  {
    if m > 0 && NilMet(s, from, m - 1) { NilStaysMet(s, from, m - 1, m); }
  }

  lemma OneVerdictMore(s: Source, from: int, m: nat, n: nat)
    requires s.Valid() && n == m + 1
    ensures Verdicts(s, from, n) == Verdicts(s, from, m) + [VerdictOf(s, from, m)]
  {
  }

  lemma VerdictsNext(s: Source, from: int, m: nat, n: nat, st: State, next: State)
    requires s.Valid() && s.interval > 0 && Ascending(s.times) && n == m + 1
    requires Outcome(Verdicts(s, from, m), st) && Follows(st, VerdictOf(s, from, m), next)
    ensures Outcome(Verdicts(s, from, n), next)
  {
    MetStays(s, from, m);
    OutcomeNext(Verdicts(s, from, m), VerdictOf(s, from, m), st, next);
    OneVerdictMore(s, from, m, n);
  }

  lemma {:induction false} LookedUpOutcome(s: Source, from: int, n: nat)
    requires s.Valid() && s.interval > 0 && Ascending(s.times)
    ensures Outcome(Verdicts(s, from, n), LookedUp(s, from, n))
    decreases n
  {
    if n > 0 {
      var m: nat := n - 1;
      LookedUpOutcome(s, from, m);
      TickOutcome(s, from, m, n);
      VerdictsNext(s, from, m, n, LookedUp(s, from, m), LookedUp(s, from, n));
    }
  }

  /** A call panics exactly when some tick inserts a nil before the scan meets a missing time; it fails for a missing
      time exactly when the last tick has met it and no tick before inserted a nil. */
  lemma LookedUpExact(s: Source, from: int, n: nat)
    requires s.Valid() && s.interval > 0 && Ascending(s.times)
    ensures LookedUp(s, from, n) == Stopped(Panicked) <==> exists k: nat :: k < n && NilInserted(s, from, k)
    ensures LookedUp(s, from, n) == Stopped(NilTime) <==>
              n > 0 && NilMet(s, from, n - 1) && forall k: nat :: k < n ==> !NilInserted(s, from, k)
    ensures LookedUp(s, from, n).Going? || LookedUp(s, from, n) == Stopped(Panicked) || LookedUp(s, from, n) == Stopped(NilTime)
  {
    LookedUpOutcome(s, from, n);
    PutNilExact(s, from, n);
  }

  lemma PutNilExact(s: Source, from: int, n: nat)
    requires s.Valid()
    ensures PutNil in Verdicts(s, from, n) <==> exists k: nat :: k < n && NilInserted(s, from, k)
  {
    var vs := Verdicts(s, from, n);
    if k: nat :| k < n && NilInserted(s, from, k) { assert vs[k] == PutNil; }
    if PutNil in vs {
      var k: nat :| k < n && vs[k] == PutNil;
      assert NilInserted(s, from, k);
    }
  }

  // ----- the same for a caller: on columns, fill and range -----

  /** No row is at or before `c`. */
  predicate NoRowBy(s: Source, c: int) { forall i :: 0 <= i < |s.times| && s.times[i].Some? ==> s.times[i].value > c }

  /** No row is in the interval that ends at `c`. */
  predicate EmptyWindow(s: Source, c: int) {
    forall i :: 0 <= i < |s.times| && s.times[i].Some? ==> !(c - s.interval < s.times[i].value <= c)
  }

  predicate SomeEmptyWindow(s: Source, from: int, n: nat) {
    exists k: nat :: k < n && EmptyWindow(s, Tick(from, s.interval, k))
  }

  /** The column gets a nil it cannot hold: with Previous fill, or for a factor, when no row is at or before the first tick;
      otherwise when some tick's interval has no row, unless the fill is a constant of the column's type. */
  predicate Starves(s: Source, j: nat, from: int, n: nat)
    requires s.Valid() && j < |s.frame|
  {
    && j != s.sch.timeIndex && !s.frame[j].ftype.nullable
    && if j !in s.sch.valueIndices || s.fill.Previous? then NoRowBy(s, from)
       else !(s.fill.Constant? && s.frame[j].ftype.kind.NumberKind?) && SomeEmptyWindow(s, from, n)
  }

  /** Every row has a time, in order. */
  predicate TimesInOrder(s: Source) { FirstNil(s.times) == |s.times| && Ascending(s.times) }

  lemma RowAtExact(s: Source, c: int)
    requires TimesInOrder(s)
    ensures RowAt(s, c) == -1 <==> NoRowBy(s, c)
    ensures RowAt(s, c) >= 0 && s.times[RowAt(s, c)].value > c - s.interval <==> !EmptyWindow(s, c)
  {
    var p := RowAt(s, c);
    if !EmptyWindow(s, c) {
      var i :| 0 <= i < |s.times| && s.times[i].Some? && c - s.interval < s.times[i].value <= c;
      assert i <= p && s.times[i].value <= s.times[p].value;
    }
  }

  /** When a tick's cell in a non-nullable column is nil. */
  lemma CellIsNil(s: Source, j: nat, c: int)
    requires s.Valid() && TimesInOrder(s) && j < |s.frame| && j != s.sch.timeIndex
    requires WellTyped(s.frame[j]) && !s.frame[j].ftype.nullable
    ensures LookupCell(s, j, c).Null? <==>
              if j !in s.sch.valueIndices || s.fill.Previous? then NoRowBy(s, c)
              else !(s.fill.Constant? && s.frame[j].ftype.kind.NumberKind?) && EmptyWindow(s, c)
  {
    RowAtExact(s, c);
  }

  lemma {:induction false} LaterTick(from: int, interval: int, k: nat)
    requires interval > 0
    ensures Tick(from, interval, k) >= from
    decreases k
  {
    if k > 0 { LaterTick(from, interval, k - 1); }
  }

  /** Column `j` gets a nil at tick `k`. */
  predicate NilAt(s: Source, j: nat, from: int, k: nat)
    requires s.Valid() && j < |s.frame|
  {
    !s.frame[j].ftype.nullable && LookupCell(s, j, Tick(from, s.interval, k)).Null?
  }

  lemma StarvesExact(s: Source, j: nat, from: int, n: nat)
    requires s.Valid() && s.interval > 0 && TimesInOrder(s) && AllTyped(s.frame) && j < |s.frame| && n > 0
    ensures Starves(s, j, from, n) <==> exists k: nat :: k < n && NilAt(s, j, from, k)
  {
    assert WellTyped(s.frame[j]);
    if j != s.sch.timeIndex && !s.frame[j].ftype.nullable {
      forall k: nat
        ensures NilAt(s, j, from, k) <==>
                  if j !in s.sch.valueIndices || s.fill.Previous? then NoRowBy(s, Tick(from, s.interval, k))
                  else !(s.fill.Constant? && s.frame[j].ftype.kind.NumberKind?) && EmptyWindow(s, Tick(from, s.interval, k))
        ensures NoRowBy(s, Tick(from, s.interval, k)) ==> NoRowBy(s, from)
      {
        CellIsNil(s, j, Tick(from, s.interval, k));
        LaterTick(from, s.interval, k);
      }
      if NoRowBy(s, from) { assert NoRowBy(s, Tick(from, s.interval, 0)); }
    }
  }

  ghost predicate SomeStarves(s: Source, from: int, n: nat)
    requires s.Valid()
  {
    exists j: nat :: j < |s.frame| && Starves(s, j, from, n)
  }

  lemma NeverMet(s: Source, c: int)
    requires TimesInOrder(s)
    ensures !NilReached(s, c)
  {
  }

  lemma NilInsertedExact(s: Source, from: int, k: nat)
    requires s.Valid() && TimesInOrder(s)
    ensures NilInserted(s, from, k) <==> exists j: nat :: j < |s.frame| && NilAt(s, j, from, k)
  {
    var c := Tick(from, s.interval, k);
    NeverMet(s, c);
    var row := LookupRow(s, c);
    if NilInserted(s, from, k) {
      var j :| 0 <= j < |row| && row[j].Null? && !s.frame[j].ftype.nullable;
      assert NilAt(s, j, from, k);
    }
    if j: nat :| j < |s.frame| && NilAt(s, j, from, k) { assert row[j].Null?; }
  }

  lemma SomeStarvesExact(s: Source, from: int, n: nat)
    requires s.Valid() && s.interval > 0 && TimesInOrder(s) && AllTyped(s.frame) && n > 0
    ensures SomeStarves(s, from, n) <==> exists k: nat :: k < n && NilInserted(s, from, k)
  {
    if SomeStarves(s, from, n) {
      var j: nat :| j < |s.frame| && Starves(s, j, from, n);
      StarvesExact(s, j, from, n);
      var k: nat :| k < n && NilAt(s, j, from, k);
      NilInsertedExact(s, from, k);
    }
    if k: nat :| k < n && NilInserted(s, from, k) {
      NilInsertedExact(s, from, k);
      var j: nat :| j < |s.frame| && NilAt(s, j, from, k);
      StarvesExact(s, j, from, n);
    }
  }

  /** On times in order: a panic exactly when some column starves; otherwise one row for each of the
      floor((to - from) / interval) + 1 ticks, looked up on its own, and none when `from` is after `to`. */
  lemma ResampledExactly(f: Frame, fill: Fill, from: int, to: int, interval: int)
    requires interval > 0 && !SchemaOf(f).seriesType.NotSeries? && RowLen(f).Some? && AllTyped(f)
    requires TimesInOrder(SourceOf(f, fill, interval))
    ensures SourceOf(f, fill, interval).Valid()
    ensures var s, n, r := SourceOf(f, fill, interval), TickCount(from, to, interval), Expected(f, fill, from, to, interval);
            if from <= to && SomeStarves(s, from, n) then r == Failed(Panicked) else r.Resampled? && LooksUp(s, from, n, r.frame)
  {
    var s, n := SourceOf(f, fill, interval), TickCount(from, to, interval);
    if from <= to {
      SomeStarvesExact(s, from, n);
      LookedUpExact(s, from, n);
      NeverMet(s, Tick(from, interval, n - 1));
      ResampledIsLookup(f, fill, from, to, interval);
      if !SomeStarves(s, from, n) { FrameLooksUp(s, from, n); }
    }
  }

  /** One row, at time 1, of plain numbers. */
  const ONE_ROW := [Field([], FieldType(TimeKind, false), None, [Val(TimeVal(1))]),
                    Field([], FieldType(NumberKind(0), false), None, [Val(NumVal(7))])]

  lemma OneRowIs()
    ensures SchemaOf(ONE_ROW) == Schema(Wide, 0, [1], []) && RowLen(ONE_ROW) == Some(1) && AllTyped(ONE_ROW)
    ensures TimesOf(ONE_ROW[0]) == [Some(1)] && FirstNil([Some(1)]) == 1
  {
    assert TimeIndex(ONE_ROW) == 0;
    assert ValueIndices(ONE_ROW, 0, 1) == [] && FactorIndices(ONE_ROW, 1) == [];
    assert [Some(1)][1..] == [];
  }

  /** One input that panics: its first tick comes before its first row. */
  lemma NilPanics()
    ensures Expected(ONE_ROW, NoFill, 0, 0, 1) == Failed(Panicked)
  {
    OneRowIs();
    var s := SourceOf(ONE_ROW, NoFill, 1);
    assert EmptyWindow(s, Tick(0, 1, 0));
    assert Starves(s, 1, 0, 1);
    ResampledExactly(ONE_ROW, NoFill, 0, 0, 1);
  }

  // ----- negative intervals -----

  lemma {:induction false} TicksFall(from: int, to: int, interval: int, k: nat)
    requires interval < 0 && from <= to
    ensures Tick(from, interval, k) <= from <= to
    decreases k
  {
    if k > 0 { TicksFall(from, to, interval, k - 1); }
  }

  /** Row `i`, if there is one, ends the scan at tick `c` and at every earlier tick. */
  predicate Blocks(s: Source, i: nat, c: int) {
    i >= |s.times| || (s.times[i].Some? && s.times[i].value > c - s.interval)
  }

  /** A scan with a negative interval finds no row in its window, and stops before a row that blocks it. */
  lemma {:induction false} FallingScan(s: Source, c: int, i: nat, last: int)
    requires s.interval < 0 && i <= |s.times| && -1 <= last < i && last < |s.times|
    ensures var r := ScanFrom(s.times, s.interval, c, i, last, -1);
            r.Done? ==> r.inWindow == -1 && if r.last < i then r.last == last && Blocks(s, i, c) else Blocks(s, r.last + 1, c)
    ensures Blocks(s, i, c) ==> ScanFrom(s.times, s.interval, c, i, last, -1) == Done(last, -1)
    decreases |s.times| - i
  {
    if i < |s.times| && s.times[i].Some? && !(s.times[i].value > c - s.interval) { FallingScan(s, c, i + 1, i); }
  }

  lemma FallingRow(s: Source, c: int, d: int, last: int)
    requires s.Valid() && -1 <= last < |s.times|
    ensures Insertable(s, FillRow(s, c, -1, last)) <==> Insertable(s, FillRow(s, d, -1, last))
  {
    var a, b := FillRow(s, c, -1, last), FillRow(s, d, -1, last);
    forall j | 0 <= j < |a| ensures a[j].Null? <==> b[j].Null? {}
  }

  /** The scan of a tick that has settled: the last row seen stays. */
  ghost predicate Settled(s: Source, last: int, c: int) {
    -1 <= last < |s.times| && Blocks(s, last + 1, c) && (last >= 0 ==> s.times[last].Some?)
  }

  lemma SettledScan(s: Source, last: int, c: int)
    requires s.interval < 0 && Settled(s, last, c)
    ensures ScanFrom(s.times, s.interval, c, Resume(last), last, -1) == Done(last, -1)
  {
    if last != 0 {
      FallingScan(s, c, last + 1, last);
    } else if !Blocks(s, 0, c) {
      FallingScan(s, c, 1, 0);
    }
  }

  lemma FirstScanSettles(s: Source, c: int)
    requires s.Valid() && s.interval < 0 && Step(s, Going([], -1), c).Going?
    ensures Settled(s, Step(s, Going([], -1), c).last, c)
    ensures Insertable(s, FillRow(s, c, -1, Step(s, Going([], -1), c).last))
  {
    FallingScan(s, c, 0, -1);
    PassedRowsHaveTimes(s, c, 0, -1);
  }

  lemma {:induction false} PassedRowsHaveTimes(s: Source, c: int, i: nat, last: int)
    requires i <= |s.times| && -1 <= last < |s.times|
    ensures var r := ScanFrom(s.times, s.interval, c, i, last, -1);
            r.Done? && r.last != last ==> i <= r.last && s.times[r.last].Some?
    decreases |s.times| - i
  {
    PassedFrom(s, c, i, last, -1);
  }

  lemma {:induction false} PassedFrom(s: Source, c: int, i: nat, last: int, inWindow: int)
    requires i <= |s.times| && -1 <= last < |s.times| && -1 <= inWindow < |s.times|
    ensures var r := ScanFrom(s.times, s.interval, c, i, last, inWindow);
            r.Done? && r.last != last ==> i <= r.last && s.times[r.last].Some?
    decreases |s.times| - i
  {
    if i < |s.times| && s.times[i].Some? {
      PassedFrom(s, c, i + 1, i, if s.times[i].value > c - s.interval then i else inWindow);
    }
  }

  /** After a first tick that succeeds every tick succeeds. */
  lemma {:induction false} FallingTicks(s: Source, from: int, k: nat)
    requires s.Valid() && s.interval < 0 && k > 0 && Step(s, Going([], -1), from).Going?
    ensures After(s, from, k).Going? && After(s, from, k).last == Step(s, Going([], -1), from).last
    decreases k
  {
    if k > 1 {
      FallingTicks(s, from, k - 1);
      FirstScanSettles(s, from);
      var c, last := Tick(from, s.interval, k - 1), After(s, from, k - 1).last;
      TicksFall(from, from, s.interval, k - 1);
      SettledScan(s, last, c);
      FallingRow(s, from, c, last);
    }
  }

  /** With a negative interval and a range that is not empty the guard of the loop always holds, so a call ends exactly
      when some tick fails, and that is decided by the first one. */
  lemma NeverEndsExactly(f: Frame, fill: Fill, from: int, to: int, interval: int)
    requires interval < 0 && from <= to && !SchemaOf(f).seriesType.NotSeries? && RowLen(f).Some?
    ensures SourceOf(f, fill, interval).Valid()
    ensures forall k: nat :: Tick(from, interval, k) <= to
    ensures NeverEnds(f, fill, from, to, interval) <==> forall k: nat :: After(SourceOf(f, fill, interval), from, k).Going?
  {
    var s := SourceOf(f, fill, interval);
    forall k: nat ensures Tick(from, interval, k) <= to { TicksFall(from, to, interval, k); }
    if NeverEnds(f, fill, from, to, interval) {
      forall k: nat ensures After(s, from, k).Going? {
        if k > 0 { FallingTicks(s, from, k); }
      }
    } else {
      assert After(s, from, 1) == Step(s, After(s, from, 0), Tick(from, interval, 0));
    }
  }
}
