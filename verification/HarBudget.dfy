/** backend/harcapture: how captured bodies become HAR text, and the budget that bounds what is retained. */
module HarBudget {
  import opened GoText
  import opened Outcomes

  // ----- entries -----

  datatype Text = Text(mimeType: GoString, text: GoString, encoding: GoString)

  /** sdkHARQueryInfo; `about` stands for its other fields. */
  datatype QueryInfo = QueryInfo(about: GoString, args: seq<GoString>, statementTruncated: bool, argsTruncated: bool, error: GoString)

  /** sdkHAREntry; `about` stands for everything the budget does not count. */
  datatype Entry = Entry(about: GoString, content: Text, postData: Option<Text>, query: Option<QueryInfo>)

  function ArgsBytes(args: seq<GoString>, n: nat): int
    requires n <= |args|
  {
    if n == 0 then 0 else ArgsBytes(args, n - 1) + EscapedLen(args[n - 1])
  }

  function QueryBytes(q: Option<QueryInfo>): int {
    if q.None? then 0 else EscapedLen(q.value.error) + ArgsBytes(q.value.args, |q.value.args|)
  }

  function PayloadBytes(e: Entry): int {
    EscapedLen(e.content.text) + (if e.postData.Some? then EscapedLen(e.postData.value.text) else 0) + QueryBytes(e.query)
  }

  /** sdkHARQueryInfo.payloadBytes. */
  method QueryPayloadBytes(q: Option<QueryInfo>) returns (n: int)
    ensures n == QueryBytes(q)
  {
    if q.None? {
      return 0;
    }
    n := JsonEscapedLen(q.value.error);
    for i := 0 to |q.value.args|
      invariant n == EscapedLen(q.value.error) + ArgsBytes(q.value.args, i)
    {
      var a := JsonEscapedLen(q.value.args[i]);
      n := n + a;
    }
  }

  /** sdkHAREntry.payloadBytes. */
  method EntryPayloadBytes(e: Entry) returns (n: int)
    ensures n == PayloadBytes(e)
  {
    n := JsonEscapedLen(e.content.text);
    if e.postData.Some? {
      var p := JsonEscapedLen(e.postData.value.text);
      n := n + p;
    }
    var q := QueryPayloadBytes(e.query);
    n := n + q;
  }

  function DropArgs(q: QueryInfo): QueryInfo {
    if q.args == [] then q else q.(args := [], argsTruncated := true)
  }

  function Emptied(t: Text): Text { t.(text := [], encoding := []) }

  /** dropPayload. */
  function Dropped(e: Entry): Entry {
    e.(content := Emptied(e.content),
       postData := if e.postData.Some? then Some(Emptied(e.postData.value)) else None,
       query := if e.query.Some? then Some(DropArgs(e.query.value)) else None)
  }

  /** What a trimmed entry still costs: two quotes per empty text, and the query's error. */
  lemma Residual(e: Entry)
    ensures PayloadBytes(Dropped(e))
         == 2 + (if e.postData.Some? then 2 else 0) + (if e.query.Some? then EscapedLen(e.query.value.error) else 0)
    ensures PayloadBytes(Dropped(e)) <= 4 + (if e.query.Some? then EscapedLen(e.query.value.error) else 0)
    ensures 2 <= PayloadBytes(Dropped(e)) <= PayloadBytes(e)
  {
    EscapedLenPositive(e.content.text);
    if e.postData.Some? { EscapedLenPositive(e.postData.value.text); }
    if e.query.Some? {
      EscapedLenPositive(e.query.value.error);
      ArgsPositive(e.query.value.args, |e.query.value.args|);
    }
  }

  lemma EscapedLenPositive(s: GoString)
    ensures EscapedLen(s) >= 2
  {
    EscapedLenExact(s);
  }

  lemma {:induction false} ArgsPositive(args: seq<GoString>, n: nat)
    requires n <= |args|
    ensures ArgsBytes(args, n) >= 2 * n
    decreases n
  {
    if n > 0 {
      ArgsPositive(args, n - 1);
      EscapedLenPositive(args[n - 1]);
    }
  }

  /** Trimming keeps the rest of the entry, its error too, and says that arguments are missing if there were any. */
  lemma DropKeeps(e: Entry)
    ensures var d := Dropped(e);
            && d.about == e.about && d.content == Text(e.content.mimeType, [], [])
            && d.postData == (if e.postData.Some? then Some(Text(e.postData.value.mimeType, [], [])) else None)
            && (d.query.Some? <==> e.query.Some?)
            && (e.query.Some? ==>
                  && d.query.value.about == e.query.value.about && d.query.value.error == e.query.value.error
                  && d.query.value.args == [] && (d.query.value.statementTruncated <==> e.query.value.statementTruncated)
                  && (d.query.value.argsTruncated <==> e.query.value.argsTruncated || e.query.value.args != []))
            && Dropped(d) == d
  {
  }

  // ----- the bytes json.Marshal really writes -----

  function QuotedArgs(args: seq<GoString>, n: nat): nat
    requires n <= |args|
  {
    if n == 0 then 0 else QuotedArgs(args, n - 1) + |Quote(args[n - 1])|
  }

  /** Length of the entry's payload strings in the document. */
  function EncodedBytes(e: Entry): nat {
    |Quote(e.content.text)| + (if e.postData.Some? then |Quote(e.postData.value.text)| else 0)
    + (if e.query.Some? then |Quote(e.query.value.error)| + QuotedArgs(e.query.value.args, |e.query.value.args|) else 0)
  }

  lemma {:induction false} ArgsCover(args: seq<GoString>, n: nat)
    requires n <= |args|
    ensures QuotedArgs(args, n) <= ArgsBytes(args, n)
    decreases n
  {
    if n > 0 {
      ArgsCover(args, n - 1);
      EscapedLenExact(args[n - 1]);
    }
  }

  /** The budget's measure never falls below the encoded size, whatever the bytes. */
  lemma PayloadCoversEncoding(e: Entry)
    ensures EncodedBytes(e) <= PayloadBytes(e)
  {
    EscapedLenExact(e.content.text);
    if e.postData.Some? { EscapedLenExact(e.postData.value.text); }
    if e.query.Some? {
      EscapedLenExact(e.query.value.error);
      ArgsCover(e.query.value.args, |e.query.value.args|);
    }
  }

  /** Literal U+FFFD characters in the payload strings. */
  function Replacements(e: Entry): nat {
    LiteralReplacements(Units(e.content.text)) + (if e.postData.Some? then LiteralReplacements(Units(e.postData.value.text)) else 0)
    + (if e.query.Some? then LiteralReplacements(Units(e.query.value.error)) + ArgsReplacements(e.query.value.args, |e.query.value.args|)
       else 0)
  }

  function ArgsReplacements(args: seq<GoString>, n: nat): nat
    requires n <= |args|
  {
    if n == 0 then 0 else ArgsReplacements(args, n - 1) + LiteralReplacements(Units(args[n - 1]))
  }

  lemma {:induction false} ArgsExact(args: seq<GoString>, n: nat)
    requires n <= |args|
    ensures ArgsBytes(args, n) == QuotedArgs(args, n) + 3 * ArgsReplacements(args, n)
    decreases n
  {
    if n > 0 {
      ArgsExact(args, n - 1);
      EscapedLenExact(args[n - 1]);
    }
  }

  /** The measure is the encoded size, and 3 for each literal U+FFFD. */
  lemma PayloadExact(e: Entry)
    ensures PayloadBytes(e) == EncodedBytes(e) + 3 * Replacements(e)
  {
    EscapedLenExact(e.content.text);
    if e.postData.Some? { EscapedLenExact(e.postData.value.text); }
    if e.query.Some? {
      EscapedLenExact(e.query.value.error);
      ArgsExact(e.query.value.args, |e.query.value.args|);
    }
  }

  // ----- the buffer -----

  const DEFAULT_MAX_TOTAL := 268435456

  /** What appendEntry stores of `e` with `retained` bytes in the buffer. */
  function Stored(e: Entry, retained: int, maxTotal: int): Entry {
    if retained + PayloadBytes(e) > maxTotal then Dropped(e) else e
  }

  function Total(es: seq<Entry>): int { if es == [] then 0 else Total(es[..|es| - 1]) + PayloadBytes(es[|es| - 1]) }

  /** Trimming leaves the statement's flag as it was, for every query entry. */
  lemma StatementFlagStays(e: Entry)
    requires e.query.Some?
    ensures Dropped(e).query.Some?
    ensures Dropped(e).query.value.statementTruncated <==> e.query.value.statementTruncated
  {
  }

  /** A statement that is stored shorter than it came is reported as truncated, as the field's documentation says. */
  predicate StatementReported(e: Entry, stored: Entry)
    requires e.query.Some? && e.postData.Some? && stored.query.Some? && stored.postData.Some?
  {
    stored.postData.value.text != e.postData.value.text ==> stored.query.value.statementTruncated
  }

  /** What a caller can check of an entry: it fits, or has no statement to lose, or was flagged before. */
  predicate Reportable(e: Entry, retained: int, maxTotal: int)
    requires e.query.Some? && e.postData.Some?
  {
    retained + PayloadBytes(e) <= maxTotal || e.postData.value.text == [] || e.query.value.statementTruncated
  }

  /** The documentation holds for an append exactly when the entry is reportable. */
  lemma StatementReportedExactly(e: Entry, retained: int, maxTotal: int)
    requires e.query.Some? && e.postData.Some?
    ensures var stored := Stored(e, retained, maxTotal);
            && stored.query.Some? && stored.postData.Some?
            && (StatementReported(e, stored) <==> Reportable(e, retained, maxTotal))
  {
    StatementFlagStays(e);
  }

  class Buffer {
    var entries: seq<Entry>
    var retained: int
    const maxTotalBytes: int

    /** The running total is the sum of what is stored. */
    ghost predicate Valid()
      reads this
    {
      retained == Total(entries)
    }

    /** Zero means unset. */
    function MaxTotal(): int { if maxTotalBytes == 0 then DEFAULT_MAX_TOTAL else maxTotalBytes }

    constructor (maxTotalBytes: int)
      ensures Valid() && entries == [] && this.maxTotalBytes == maxTotalBytes
    {
      this.maxTotalBytes := maxTotalBytes;
      entries := [];
      retained := 0;
    }

    method AppendEntry(e: Entry)
      requires Valid()
      modifies this
      ensures Valid() && entries == old(entries) + [Stored(e, old(retained), MaxTotal())]
    {
      var entry := e;
      var payload := EntryPayloadBytes(entry);
      if retained + payload > MaxTotal() {
        entry := Dropped(entry);
        var rest := EntryPayloadBytes(entry);
        retained := retained + rest;
      } else {
        retained := retained + payload;
      }
      entries := entries + [entry];
    }
  }

  /** What a buffer holds after any sequence of appends. */
  function After(es: seq<Entry>, maxTotal: int): (held: seq<Entry>)
    ensures |held| == |es|
  {
    if es == [] then []
    else
      var held := After(es[..|es| - 1], maxTotal);
      held + [Stored(es[|es| - 1], Total(held), maxTotal)]
  }

  method AppendAll(es: seq<Entry>, maxTotalBytes: int) returns (b: Buffer)
    ensures fresh(b) && b.Valid() && b.maxTotalBytes == maxTotalBytes && b.entries == After(es, b.MaxTotal())
    ensures b.MaxTotal() == if maxTotalBytes == 0 then 268435456 else maxTotalBytes
    ensures b.retained == Total(b.entries)
  {
    b := new Buffer(maxTotalBytes);
    for i := 0 to |es|
      invariant fresh(b) && b.Valid() && b.maxTotalBytes == maxTotalBytes && b.entries == After(es[..i], b.MaxTotal())
    {
      b.AppendEntry(es[i]);
      assert es[..i + 1][..i] == es[..i];
    }
    assert es[..|es|] == es;
  }

  /** The entries that were trimmed, weighed by what they still cost. */
  function Residuals(es: seq<Entry>, maxTotal: int): int {
    if es == [] then 0
    else
      var p, e := es[..|es| - 1], es[|es| - 1];
      Residuals(p, maxTotal)
      + if Total(After(p, maxTotal)) + PayloadBytes(e) > maxTotal then PayloadBytes(Dropped(e)) else 0
  }

  function EncodedTotal(es: seq<Entry>): nat {
    if es == [] then 0 else EncodedTotal(es[..|es| - 1]) + EncodedBytes(es[|es| - 1])
  }

  lemma {:induction false} EncodedWithinTotal(es: seq<Entry>)
    ensures EncodedTotal(es) <= Total(es)
    decreases |es|
  {
    if es != [] {
      EncodedWithinTotal(es[..|es| - 1]);
      PayloadCoversEncoding(es[|es| - 1]);
    }
  }

  /** After any appends, what is retained, and so what is encoded, is within the budget plus the residuals. */
  lemma {:induction false} BudgetHolds(es: seq<Entry>, maxTotal: int)
    requires maxTotal >= 0
    ensures Total(After(es, maxTotal)) <= maxTotal + Residuals(es, maxTotal)
    ensures EncodedTotal(After(es, maxTotal)) <= maxTotal + Residuals(es, maxTotal)
    decreases |es|
  {
    if es != [] {
      BudgetHolds(es[..|es| - 1], maxTotal);
      ResidualsGrow(es, maxTotal);
      var held := After(es, maxTotal);
      assert held[..|held| - 1] == After(es[..|es| - 1], maxTotal);
    }
    EncodedWithinTotal(After(es, maxTotal));
  }

  lemma ResidualsGrow(es: seq<Entry>, maxTotal: int)
    requires es != []
    ensures Residuals(es, maxTotal) >= Residuals(es[..|es| - 1], maxTotal) >= 0
    decreases |es|
  {
    Residual(es[|es| - 1]);
    if |es| > 1 { ResidualsGrow(es[..|es| - 1], maxTotal); }
  }

  /** Entry `i` is kept whole exactly when it fits in what is left, and otherwise loses its payload and nothing else. */
  lemma {:induction false} TrimmedExactly(es: seq<Entry>, maxTotal: int, i: nat)
    requires i < |es|
    ensures var before := Total(After(es[..i], maxTotal));
            After(es, maxTotal)[i] == if before + PayloadBytes(es[i]) > maxTotal then Dropped(es[i]) else es[i]
    decreases |es|
  {
    if i == |es| - 1 {
      assert es[..|es| - 1] == es[..i];
    } else {
      TrimmedExactly(es[..|es| - 1], maxTotal, i);
      assert es[..|es| - 1][..i] == es[..i];
    }
  }

  /** Entry `i` has a statement. */
  predicate HasStatement(es: seq<Entry>, i: nat) { i < |es| && es[i].query.Some? && es[i].postData.Some? }

  /** Over any appends: each statement's fate is reported exactly when its entry was reportable on arrival. */
  lemma RunReportsExactly(es: seq<Entry>, maxTotal: int, i: nat)
    requires HasStatement(es, i)
    ensures var held := After(es, maxTotal);
            && HasStatement(held, i)
            && (StatementReported(es[i], held[i]) <==> Reportable(es[i], Total(After(es[..i], maxTotal)), maxTotal))
  {
    TrimmedExactly(es, maxTotal, i);
    StatementReportedExactly(es[i], Total(After(es[..i], maxTotal)), maxTotal);
  }

  /** One append that goes unreported: a statement of one byte over a budget of nothing. */
  lemma DroppedStatementIsNotFlagged()
    ensures exists e: Entry, maxTotal: int ::
              e.query.Some? && e.postData.Some? && maxTotal > 0 && !StatementReported(e, Stored(e, 0, maxTotal))
  {
    var e := Entry([], Text([], [], []), Some(Text([], [0x61], [])), Some(QueryInfo([], [], false, false, [])));
    Residual(e);
    assert e.query.Some? && !StatementReported(e, Stored(e, 0, 1));
  }
}
