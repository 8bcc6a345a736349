# Data frames, instances and captured bodies of the Grafana plugin SDK: a verified model

This project models the parts of the Grafana plugin SDK for Go that carry the most state and the most promises, and
proves what they promise. Every operation the SDK writes as a loop over changing state is a method with that loop,
proved against a specification; the theorems are lemmas about the specifications.

* **Time-series reshaping** (`Frames`, `TupleKeys`, `SortedKeys`, `StableSort`, `FieldSort`, `RowProcessor`,
  `LongToWide`, `WideToLong`, `LongRows`, `LongSide`, `WideLongWide`, `LongWideLong`, `LongShape`, `Resample`). The one-pass pivot
  with its growing, back-filled columns is proved equal to a description in which every cell is the value of the last
  long row with its time and factors. `FieldOrder`, `PivotLaws`, `LongLaws` and `ResampleLaws` say what sorting, the two
  conversions and resampling answer in terms of the cells, labels and names of the two frames alone, without any function
  of the model that computes the answer: texts byte by byte, cells by their rows, refusals by the input. `WideToLong` is proved independent of the order in which Go walks its maps. The two
  conversions are composed in both directions. The resuming scan of `ResampleWideFrame` is proved equal to looking every
  tick up on its own.
* **Instance manager** (`Freshness`, `Instances`). `Get` is a step relation over any number of goroutines, one shared
  access a step, with the locker, the disposal timers and the gauge. The invariant is inductive over every interleaving.
* **Frame JSON and chunk streams** (`FrameJson`, `ReadLaws`, `ChunkStream`, `ChunkRuns`, `AccumulateLaws`). A frame's data is split over values, entities and
  nanoseconds and put together again; frames are sent in chunks, the schema once, and reassembled.
* **Captured bodies** (`BodyReaders`, `BodyText`, `HarBudget`). Readers that must not change what their consumer sees, and
  a byte budget that rests on a bound for JSON escaping (`GoText`).
* **Macro arguments** (`MacroArgs`). The bracket scanner, with a print and parse round trip.

`GoInts` is int64 with its wrap-around. `GoText` holds what the others need of Go's strings: byte order, UTF-8 decoding rune by rune with malformed bytes as
`range` treats them, and the text `encoding/json` writes for a string (section 7 of RFC 8259, with Go's HTML escapes).

## What the code needs, and where its documentation says otherwise

* `instanceManager.Get` keeps its lifecycle under two assumptions about the provider: no replacing `NewInstance` fails,
  and `NewInstance` never gives back an instance it made before; nothing in
  backend/instancemgmt/instance_manager.go:126-154 checks either. `StepKeepsInvExactly` proves that these two steps, and no
  others, break the invariant. `LifecycleNeedsItsAssumption` and `LifecycleNeedsNewInstances` are runs from the empty
  manager, one for each, in which an instance is disposed twice; in `ReusedIsScheduled` every further lookup loads an
  instance that already has its disposal timer. Giving back an instance without a disposer is ruled out as well: no
  disposal goes wrong, but calls then hold an instance that was since made for other settings, and it is retired again.
* Without these assumptions, over every run, the gauge falls short by exactly the number of replacements that failed, the
  locks stay sound and nobody panics (`GaugeLaw`, `GaugeAtRest`).
* Two columns with one name and nil labels each sort before the other (data/time_series.go:632-634).
  `ComparatorAsymmetric` says that this is the only case.
* `MapKey` tells factor texts apart exactly up to which malformed UTF-8 bytes they hold (`MapKeyExact`,
  `MapKeyCollision`).
* The documentation of `WideToLong` promises an error when the time index is not ascending (data/time_series.go:420).
  The code does not look at the order: refusal does not depend on the values of the times (`RefusalIgnoresTimes`), so every
  accepted frame is accepted with any other times (`AnyTimesAreAccepted`, `DescendingIsAccepted`).
* The documentation of `sdkHARQueryInfo` says that `StatementTruncated` reports a statement cut by the buffer's budget
  (backend/harcapture/querycapture.go:58-62). `dropPayload` never changes it, so that is true of an append if and only if
  the entry fits, or has no statement, or was flagged before (`StatementReportedExactly`, `RunReportsExactly`;
  `DroppedStatementIsNotFlagged` is an input where it fails).
* A stream of successful `WriteFrame` calls is put together as it should be if and only if neither the keys joined with `-`
  nor those joined with `|` collide (`StreamExactly`). The mark that a schema was sent is set before the frame is encoded
  and taken, so after a call with a frame's identifiers, failed or not, no later chunk of the frame carries the schema
  (`NoSchemaAgain`). A run that may contain failing calls comes out as it should if and only if the first call of every
  frame that is sent succeeded; it can be read at all if and only if this holds of the frames with columns, the others
  coming out as blank frames (`AnyRunExactly`).
* The first column's time decoder multiplies milliseconds by 10^6 in int64, and JSON text replaces a malformed byte of a
  string by U+FFFD. The round trip of a frame is exact if and only if those products fit and its strings are valid UTF-8
  (`RoundTripExact`; `MalformedStringIsReplaced` is an input). With the products alone, what JSON keeps of the frame comes
  back (`ReadsKeptExact`), and goes round unchanged from then on (`RoundTripSettles`); the same is what a stream of chunks
  delivers (`KeptIsSent`). The earliest int64 instant shows the difference between the two encoders
  (`EarliestInstantWraps`).
* `maxBytesReader` adds one to its remaining bytes in int64 (backend/httpclient/max_bytes_reader.go:47-49). A read for bytes
  of a new reader panics if and only if the limit is 2^63 - 1 or below -1, and under -1 it reports a count of -1
  (`ReadFresh`, `LargestLimitWraps`); the limited stream is delivered under all others. The
  middleware accepts a response limit of 2^63 - 1, the only one under which capturing a response panics
  (`CaptureThenRead`).
* `ResampleWideFrame` inserts a nil into a non-nullable column, and panics, if and only if some column starves: with
  Previous fill, or for a factor, when no row is at or before `From`; otherwise when some tick's interval has no row, unless
  the fill is a constant of the column's type (`ResampledExactly`; `NilPanics` is an input). With a missing time the first
  of the two failures decides (`LookedUpExact`).
* With a negative interval and a range that is not empty the loop's guard stays true, so a call ends if and only if its
  first tick fails (`NeverEndsExactly`); the precondition of the method leaves out exactly the calls that never end.

## Model

| member | source | states |
|---|---|---|
| GoText.JsonEscapedLen | backend/harcapture/harcapture.go:411-428 | the loop computes a length that is never below what json.Marshal writes for the string, malformed bytes included |
| GoText.EscapedLenExact | backend/harcapture/harcapture.go:396-428 | the estimate is the true encoded length plus exactly 3 for each literally encoded U+FFFD |
| GoText.MapKeyExact | data/time_series.go:566-573 | two tuple lists have one key if and only if they agree rune by rune, malformed bytes blurred |
| GoText.MapKeyInjective | data/time_series.go:566-573 | on valid UTF-8 equal keys mean equal tuple lists |
| GoText.MapKeyCollision | data/time_series.go:566-573 | off valid UTF-8 two different tuple lists can share a key |
| GoText.MapKeyIs | data/time_series.go:566-573 | the key is a JSON array of arrays of two strings, byte by byte |
| GoText.LessExact | data/labels.go:67 | strings are ordered by the first byte in which they differ, and a string comes after its beginnings |
| GoText.EncodingIsDecoded | data/sqlutil/macros.go:187 | whatever follows it, the UTF-8 encoding of a scalar value decodes to that value and takes exactly its bytes |
| GoText.SequenceExact | data/sqlutil/macros.go:187 | a string is malformed at its start if and only if it does not start with the encoding of a scalar value |
| GoText.UnitsExact | data/sqlutil/macros.go:187 | every string is cut, from its start to its end, into encodings of scalar values and single bytes that start none |
| GoText.EscapeExact | backend/harcapture/harcapture.go:396-428 | what JSON writes for each rune, code point by code point: letters, numbers in four hex digits, or the rune itself |
| GoText.QuoteExact | backend/harcapture/harcapture.go:396-428 | a string is written rune by rune between quotes |
| GoText.DecodedUnits | data/frame_json.go:1039 | what is read back of a written string has its runes in order, and U+FFFD for each malformed byte |
| Freshness.Equal | config/grafana_cfg.go:91-108 | whatever order the map is walked in, the answer is equality of the configurations, nil included |
| Freshness.NeedsUpdate | backend/datasource/instance_provider.go:65-87 | true if and only if the update time or the configuration differs |
| Freshness.UpToDateIsEquivalence | backend/datasource/instance_provider.go:65-87 | being up to date is reflexive, symmetric and transitive, as the double check in Get needs |
| Instances.InitInv | backend/instancemgmt/instance_manager.go:80-102 | a new manager satisfies the invariant |
| Instances.InstallKeepsLocks | backend/instancemgmt/locker.go:66-72 | creating a mutex on demand keeps one mutex per key and its counts right |
| Instances.MoveKeepsLocks | backend/instancemgmt/locker.go:21-72 | every step keeps one mutex per key, its state exactly the goroutines holding it, and writers exclusive |
| Instances.NeverPanics | backend/instancemgmt/locker.go:27-53 | RUnlock and Unlock always find their key's mutex, held |
| Instances.StepKeepsInv | backend/instancemgmt/instance_manager.go:104-155 | every step of Get, of a timer or of the gauge keeps the invariant unless a replacement fails or NewInstance gives back an earlier instance |
| Instances.StepKeepsInvExactly | backend/instancemgmt/instance_manager.go:134-154 | a step breaks the invariant if and only if it is a failing NewInstance in a replacement or a NewInstance that gives back an instance made before |
| Instances.RunKeepsInv | backend/instancemgmt/instance_manager.go:104-155 | the invariant holds after every run without a failing replacement or a reused instance |
| Instances.Lifecycle | backend/instancemgmt/instance_manager.go:104-155 | over all runs in which no replacement fails and no instance is given twice: the gauge is cached instances plus pending disposals, corrected for calls between retiring, storing and Inc; each instance is disposed and retired at most once; nobody panics; every call that succeeds returns an instance made for its key from an equivalent request, that is one with the same update time and configuration |
| Instances.GaugeLaw | backend/instancemgmt/instance_manager.go:104-155 | over every run, failing and reusing ones included: the gauge plus the number of failed replacements is cached instances plus pending disposals, corrected as in Lifecycle; mutexes count their holders, and nobody panics |
| Instances.CallsFailExactly | backend/instancemgmt/instance_manager.go:104-155 | over every run: a call that has returned failed if and only if its request has no settings or its own NewInstance failed, and no instance is ever made for a request without settings |
| Instances.GaugeAtRest | backend/instancemgmt/instance_manager.go:134-152 | with all calls and timers done the gauge falls short of the cached instances by exactly the replacements that failed |
| Instances.LoadsAreLive | backend/instancemgmt/instance_manager.go:110-132 | neither lookup of Get can load an instance that is already retired |
| Instances.AtRest | backend/instancemgmt/instance_manager.go:126-152 | with all calls and timers done the gauge counts the cache, and a disposer was disposed exactly once if it is no longer cached and never otherwise |
| Instances.NoDeadlock | backend/instancemgmt/locker.go:21-53 | while a call is unfinished some unfinished call can take its next step, also when waiting writers hold back new readers |
| Instances.SingleCreation | backend/instancemgmt/instance_manager.go:104-155 | any interleaving of calls with equivalent settings, no failing factory and no instance given twice makes at most one instance of the key, and every finished call returned it |
| Instances.FailedReplacementsDisposeTwice | backend/instancemgmt/instance_manager.go:134-147 | two calls whose replacement fails dispose the cached instance twice |
| Instances.FirstCallCaches | backend/instancemgmt/instance_manager.go:104-155 | a call on an empty manager runs to the end, caches and returns its new instance and leaves the lock free |
| Instances.LifecycleNeedsItsAssumption | backend/instancemgmt/instance_manager.go:134-147 | from a new manager there is a run of three calls with failing replacements in which one instance is disposed twice |
| Instances.ReuseBreaksInv | backend/instancemgmt/instance_manager.go:126-154 | giving back an instance that is scheduled, about to be stored, or cached for another key breaks the invariant, and it always is one of these |
| Instances.ReusedIsScheduled | backend/instancemgmt/instance_manager.go:126-154 | after two calls to a provider that gives back its instance, the cached instance has its disposal timer and no call is under way |
| Instances.LifecycleNeedsNewInstances | backend/instancemgmt/instance_manager.go:126-154 | from a new manager there is a run of three calls to such a provider in which the instance is disposed twice |
| Frames.TimeSeriesSchema | data/time_series.go:72-111 | the loops find the first time column, the factor columns and the value columns as specified |
| Frames.IndicesComplete | data/time_series.go:72-111 | every column is a factor exactly when it is a string or bool, and a value exactly when it is neither that nor the time index |
| Frames.SeriesTypeExact | data/time_series.go:72-111 | a frame is a series if and only if it has a time column and a column that is neither that nor a string or bool; long with a string or bool column, wide without; the schema lists exactly these columns |
| TupleKeys.TuplesToLabels | data/time_series.go:554-563 | the labels hold every tuple, or a key repeats and the call fails |
| TupleKeys.LabelsLookup | data/time_series.go:554-563 | with distinct keys every tuple can be looked up in the labels |
| TupleKeys.SortedMapKeyExact | data/time_series.go:566-583 | sorting by key and joining tells tuple lists with the same keys apart exactly by their values |
| TupleKeys.SortByKeySorts | data/time_series.go:575-583 | the sorted list holds the same tuples, in the order of their keys |
| SortedKeys.SortedKeysOf | data/time_series.go:468-478 | collecting a map's keys in any order and sorting them gives the one increasing list of them |
| SortedKeys.SortedListUnique | data/time_series.go:468-478 | there is only one increasing list of a set of strings |
| StableSort.SortedKeepsMembers | data/time_series.go:619-662 | whatever the comparator, insertion sort loses and adds nothing |
| StableSort.StableSortUnique | data/time_series.go:619-662 | order and stability leave one result, so the algorithm of sort.SliceStable does not matter |
| StableSort.SortedExact | data/time_series.go:619-662 | with a comparator that is a strict order of sort keys, being ordered and stable is exactly being the sorted list |
| FieldSort.LabelString | data/labels.go:60-82 | the text by position: the keys in increasing order at offsets that grow by key, value and separators, each followed by "=", its value, and ", " unless it is last |
| FieldSort.LabelTextExact | data/labels.go:60-82 | the text the comparison uses is that text |
| FieldSort.CompareFields | data/time_series.go:619-662 | the comparison with its loop over label keys decides the specified order |
| FieldSort.FieldLessExact | data/time_series.go:619-662 | the comparator is the lexicographic order of name, nil labels first, then label values (missing is ""), except on two unlabelled columns of one name |
| FieldSort.ComparatorAsymmetric | data/time_series.go:632-637 | both of two columns sort before the other if and only if they share a name and have nil labels |
| FieldSort.SliceStable | data/time_series.go:619-662 | the in-place swapping leaves the array in the one stable order |
| FieldSort.SortWideFrameFields | data/time_series.go:608-668 | swapping the time out, sorting and putting it back gives the specified frame, or the frame is no wide one |
| FieldSort.SortedFrameExact | data/time_series.go:608-668 | with no clash the result is the one frame that has the time first and the rest ordered and stable |
| FieldSort.SortedFramePermutes | data/time_series.go:608-668 | the result has exactly the columns of the input, clashing or not |
| FieldOrder.ColumnsInOrder | data/time_series.go:608-668 | with no clash, any two columns after the time are in order by name, then unlabelled first, then by the values of the keys in turn (missing is "") or, without keys, by the label texts; and tied ones stand as they came |
| FieldOrder.OneLabelOrders | data/time_series.go:644-646 | without sort keys, columns of one name labelled on one shared key stand in the order of its values |
| RowProcessor.SameSeriesExact | data/time_series.go:326-353 | two rows get one series key if and only if their factor texts agree |
| RowProcessor.TimesCover | data/time_series.go:299-325 | the time column holds exactly the times of the rows processed |
| RowProcessor.CellOfNewTime | data/time_series.go:299-321 | extending a column and filling from its previous cell is what the cell's definition asks of a new time, in each fill mode |
| RowProcessor.CellBeforeBirth | data/time_series.go:376-382 | back-filling a column born late is what the cells' definition asks of earlier times, in each fill mode |
| RowProcessor.CellAfterRow | data/time_series.go:387-394 | a row decides the cell of its series and time and no other so far |
| RowProcessor.LongRowProcessor.constructor | data/time_series.go:238-256 | the initial state is the pivot of no rows |
| RowProcessor.LongRowProcessor.AdvanceTime | data/time_series.go:299-321 | every column grows by one cell: the time, the fill value, or zero |
| RowProcessor.LongRowProcessor.AddSeries | data/time_series.go:355-386 | one back-filled column per value column is appended and indexed, nothing else changes |
| RowProcessor.LongRowProcessor.SetRow | data/time_series.go:387-394 | the row's values land in the columns of its series, in the current row, and nowhere else |
| RowProcessor.LongRowProcessor.FactorKey | data/time_series.go:326-353 | the series key and the label tuples of a row; what the texts are is PivotLaws.ColumnsAre |
| RowProcessor.LongRowProcessor.StepTime | data/time_series.go:294-325 | a later time advances every column, the same time none, an earlier one is told apart |
| RowProcessor.LongRowProcessor.EnsureSeries | data/time_series.go:355-386 | a new series gets its columns, a known one keeps them; repeated label keys fail |
| RowProcessor.LongRowProcessor.FinishRow | data/time_series.go:387-394 | after the row the wide frame is the pivot of one row more |
| RowProcessor.LongRowProcessor.Process | data/time_series.go:293-397 | one row: the specified error, or a wide frame that is the pivot of one row more, columns equally long |
| LongToWide.FaultExact | data/time_series.go:293-325 | processing stops at the first row that is unsorted or has no time |
| LongToWide.ProcessRows | data/time_series.go:238-261 | the loop over the rows gives the first error in order or the pivot of all rows |
| LongToWide.LongToWide | data/time_series.go:216-278 | exactly the specified refusals, in the order of the checks, and else the sorted pivot; said of the cells alone in PivotLaws |
| LongToWide.WideTimes | data/time_series.go:299-325 | the wide times are strictly increasing and exactly the times of the input |
| LongToWide.EveryColumnLands | data/time_series.go:355-394 | every series and value column has a wide column whose every cell is the last matching row's value, else what the fill mode says |
| LongToWide.EveryColumnIsOne | data/time_series.go:355-394 | every wide column but the time is one of those |
| LongToWide.OneColumnEach | data/time_series.go:355-386 | no series and value column get two columns |
| LongToWide.LabelsTellFounders | data/time_series.go:341-365 | series with the same labels are the same series |
| LongToWide.WideNoTwins | data/time_series.go:355-386 | with distinct value names no two wide columns are equal |
| LongToWide.WideOrdered | data/time_series.go:263-266 | the value columns are ordered by name, then factor values |
| PivotLaws.RefusalExact | data/time_series.go:216-325 | each refusal by the input alone: no long series; ragged; no rows; a null first time; two factor columns of one name; the first row whose time is null or before that of the row above it |
| PivotLaws.WideTimesAre | data/time_series.go:238-325 | the wide time column is named as the long one, without labels and not nullable, and holds exactly the times of the rows, increasing |
| PivotLaws.ColumnsAre | data/time_series.go:293-397 | every other wide column belongs to a value column and to a row that is the first with its factors. It has that name and kind, nullable if the long one is or under null or previous fill. Its labels are exactly the factor columns: a string as it is, "true", "false", and for null "" or "false". The cell at a time is that of the last such row at the time, else the fill: null or zero, the constant, or the last such row before |
| PivotLaws.RowsHaveColumns | data/time_series.go:293-397 | every row and value column have such a column, that of the first row with the same factors |
| PivotLaws.ColumnsOrdered | data/time_series.go:263-266 | the wide columns are in order by name, then by the values of the factors in column order |
| WideToLong.LabelsTupleKey | data/time_series.go:586-600 | whatever order the label map is walked in, the key is that of the tuples in key order |
| WideToLong.MembersExact | data/time_series.go:456-460 | a label set's list holds exactly the columns with that label set |
| WideToLong.SetFactors | data/time_series.go:515-519 | whatever order the label map is walked in, each factor column gets its label or stays empty |
| WideToLong.CopyColumn | data/time_series.go:513-523 | one column of a label set: its value, and the labels from the first |
| WideToLong.FillRow | data/time_series.go:509-525 | one long row is filled as specified and no other row changes |
| WideToLong.Gather | data/time_series.go:444-465 | the gathering loop builds the specified tables or finds one name with two types |
| WideToLong.Populate | data/time_series.go:502-526 | the nested loops give the specified rows, or a time is null |
| WideToLong.WideToLong | data/time_series.go:426-533 | exactly the specified refusals, in the order of the checks, and else the one long frame, whatever order the maps are walked in |
| WideToLong.RefusalIgnoresTimes | data/time_series.go:427-440 | whether and how a frame is refused depends on names, types, lengths and missing times only, not on the values of the times |
| WideToLong.AnyTimesAreAccepted | data/time_series.go:417-422 | an accepted frame is accepted with any other times, against the documented error for times out of order |
| WideToLong.DescendingIsAccepted | data/time_series.go:417-422 | a frame with descending times that is accepted |
| LongRows.RowIdsExact | data/time_series.go:502-526 | the rows come in the order of the wide rows, one for each wide row and group |
| LongShape.LabelKeyExact | data/time_series.go:586-600 | on valid UTF-8 two label sets have one key if and only if they are equal |
| LongShape.LongIsRectangular | data/time_series.go:473-526 | the long frame is rectangular and typed, with as many rows as wide rows times distinct label sets |
| LongRows.GroupsExact | data/time_series.go:456-473 | every label set is a group and every group some column's label set |
| LongRows.ValueAt | data/time_series.go:513-522 | a value cell is that of the last wide column with the row's label set and the name, else zero |
| LongRows.FactorAt | data/time_series.go:513-519 | a factor cell is the label of the first column of the row's label set, "" if it has none |
| LongLaws.RefusalExact | data/time_series.go:426-465 | each refusal by the input alone: no wide series; ragged; no rows; two value columns of one name and different types; a null time |
| LongLaws.LongFrameIs | data/time_series.go:444-533 | the long columns are the time, the value names in increasing order with their types, and the label keys in increasing order as strings; every wide row and value column have a long row and every long row stands for some: its time, for each name the cell of the last column with those labels, zero or null if there is none, and for each key the label or "" |
| LongLaws.LongRowsOrdered | data/time_series.go:502-526 | the long rows come in the order of the wide rows, and for one wide row in the order of the JSON texts of their label sets |
| WideLongWide.ConversionComesBack | data/time_series.go:216-278 | converting the long form back gives the time column and the sorted wide value columns |
| WideLongWide.WideLongWideIdentity | data/time_series.go:426-533 | wide to long to wide is the identity on times, types, labels and cells, columns in canonical order, for frames with increasing times, one non-empty shared label-key set, distinct (name, labels) and every combination present |
| LongWideLong.WideAccepted | data/time_series.go:426-465 | the wide frame made from a long one is never refused |
| LongWideLong.EveryRowSays | data/time_series.go:502-526 | every row of the second long frame stands for a series of the first at one of its times |
| LongWideLong.EverySeriesSaid | data/time_series.go:502-526 | every series of the first long frame has a row at every time |
| LongWideLong.LongWideLongLosesNothing | data/time_series.go:216-533 | long to wide to long: every input row comes back with its factors and, last row deciding, its values; every value name survives; every output row stands for an input series and time, with zero or null where it had no row |
| LongWideLong.LongWideLongOnce | data/time_series.go:216-533 | no two output rows stand for one series and time |
| Resample.TicksExact | data/sqlutil/resample.go:97 | the ticks are From + k * interval for k below floor((To - From) / interval) + 1, none when From is after To |
| Resample.ScanRows | data/sqlutil/resample.go:98-127 | the inner loop finds the last row seen and the last row of the window, or a nil time, and counts the rows it passes |
| Resample.ScanStops | data/sqlutil/resample.go:98-127 | on any times, in order or not, the loop stops at the first row without a time or after both the window and the tick; the row of the window is the last one before it later than the tick minus the interval |
| Resample.RowFillValues | data/sqlutil/resample.go:15-64 | the row of fill values, column by column |
| Resample.InsertRow | data/sqlutil/resample.go:132 | the row is appended to every column, or a nil meets a non-nullable column |
| Resample.ResampleTicks | data/sqlutil/resample.go:97-136 | the outer loop makes one row per tick until one fails, and passes at most source rows + ticks rows in all |
| Resample.ResampleWideFrame | data/sqlutil/resample.go:73-139 | the answer of every call that ends, errors and panic included, and the bound on the rows passed |
| Resample.ScanIsLookup | data/sqlutil/resample.go:93-136 | resuming from the last row seen, and starting over at row 0, give what looking each tick up on its own gives |
| Resample.ResampledIsLookup | data/sqlutil/resample.go:73-139 | the call's result is the ticks looked up one by one |
| Resample.LookedUpExact | data/sqlutil/resample.go:97-136 | a call panics if and only if some tick puts a nil into a non-nullable column before the scan meets a missing time, and reports a missing time if and only if the last tick has met it and no tick put a nil |
| Resample.StarvesExact | data/sqlutil/resample.go:45-61 | a column gets a nil it cannot hold at some tick if and only if, by fill mode, no row is at or before the first tick or some interval has no row |
| Resample.ResampledExactly | data/sqlutil/resample.go:73-139 | on times in order: a panic if and only if some column starves, else exactly floor((To - From) / interval) + 1 rows, row k at From + k * interval, each cell the last row no later than the tick if within one interval, else the fill value |
| Resample.NilPanics | data/sqlutil/resample.go:45-61 | one row of plain numbers and a tick before it: a panic |
| Resample.NeverEndsExactly | data/sqlutil/resample.go:97-127 | with a negative interval and a range that is not empty the guard holds for every tick, and a call never ends if and only if its first tick succeeds |
| Resample.NilTimeExact | data/sqlutil/resample.go:109-112 | a missing time fails the call if and only if the last tick is at or after the row before it |
| ResampleLaws.AnswerExact | data/sqlutil/resample.go:73-97 | the answers that need no row, each if and only if: no time series; the frame unchanged for an interval of zero; ragged with From not after To |
| ResampleLaws.ResampledExact | data/sqlutil/resample.go:73-139 | on times in order, by cells: the row for tick k is at From + k * interval, for every k up to To; a string or bool cell is that of the last row no later than the tick, or null; a value cell is that row if it is less than one interval old, else null, the row before, or the constant. A panic if and only if some such cell would be null in a column that cannot hold it |
| ResampleLaws.MissingTimeExact | data/sqlutil/resample.go:98-127 | with nullable columns, a first missing time fails the call if and only if some tick in range is not before the row above it |
| FrameJson.WriteColumn | data/frame_json.go:985-1050 | one column's tokens, entity rows and nanoseconds |
| FrameJson.WriteData | data/frame_json.go:968-1066 | the document or the error on ragged columns; by cell: the token, the entity rows of NaN and both infinities, the nanoseconds below a millisecond, and a channel only if some column needs it |
| FrameJson.DocIsSaid | data/frame_json.go:985-1066 | the same law of the specified document, stated on its tokens, rows and remainders |
| FrameJson.ReadVector | data/frame_json.go:449-636 | null tokens leave the blank value, others are decoded, numbers and strings in columns of another kind included; the first failure, an error or a panic, is the column's |
| FrameJson.FirstColumnTokens | data/frame_json.go:449-636 | what the first column makes of tokens of other kinds: numbers and texts are converted where they can be, a text in a time column is an error, a number in a bool column a panic |
| FrameJson.FirstColumnIntegers | data/frame_json.go:449-636 | integers in the first column: narrower ones convert decimals and texts with wrap-around, 64-bit ones take neither, but unsigned ones parse texts |
| FrameJson.LaterColumnTokens | data/frame_json.go:449-636 | a later column takes the numbers that fit its kind and width, and nothing of another kind |
| FrameJson.NullTokens | data/frame_json.go:449-636 | null leaves null, or the zero value in a column that cannot hold it |
| ReadLaws.ReadExact | data/frame_json.go:286-391 | any document, written by anyone, is read as a frame if and only if every column of values is in the schema, as long as the first and reads token by token, special values go into float columns at rows that are there, and nanoseconds to rows of times or nulls; the cells are then the values, under the special values, plus the nanoseconds. Else it fails with the fault of the first column of values that has one, or with a panic |
| FrameJson.ReadValues | data/frame_json.go:291-337 | the first column by its own decoder, the others by theirs, all of one length |
| FrameJson.ReadEntities | data/frame_json.go:339-357 | special values are set at their rows |
| FrameJson.ReadNanos | data/frame_json.go:359-387 | nanoseconds are added to non-null times |
| FrameJson.ReadData | data/frame_json.go:286-391 | the three channels in the order they are written, with each failure |
| FrameJson.ReadTimeExact | data/frame_json.go:1364-1367 | splitting milliseconds with Go's truncating division loses nothing, negative ones included |
| FrameJson.MarksReadBack | data/frame_json.go:339-405 | the entity rows put NaN and both infinities back and leave nulls null |
| FrameJson.NanosOrNot | data/frame_json.go:359-387 | adding the remainders, or leaving them out when all are zero, restores the nanoseconds |
| FrameJson.ReadsBack | data/frame_json.go:286-391 | reading what was written never fails |
| FrameJson.RoundTripExact | data/frame_json.go:286-391 | reading what was written gives the same frame if and only if the first column's milliseconds times 10^6 fit in int64 and its strings are valid UTF-8 |
| FrameJson.ReadsKeptExact | data/frame_json.go:286-391 | what JSON keeps of a frame, malformed bytes replaced, comes back if and only if those products fit |
| FrameJson.KeptExact | data/frame_json.go:1039 | JSON keeps a frame as it is if and only if its strings are valid UTF-8 |
| FrameJson.RoundTripSettles | data/frame_json.go:286-391 | what came back once comes back unchanged on every further round trip |
| FrameJson.MalformedStringIsReplaced | data/frame_json.go:1039 | a string of one malformed byte comes back as U+FFFD |
| FrameJson.TwoEncodersOneInstant | data/frame_json.go:1324-1332 | both encoders of an int64 instant decode to it, with floor or truncating division; the first column agrees on Arrow's always and on the frame's exactly within int64 |
| FrameJson.EarliestInstantWraps | data/frame_json.go:534-541 | the earliest int64 instant written by the frame encoder does not come back through the first column |
| FrameJson.WriteArrowTimestamps | data/frame_json.go:1310-1343 | for each timestamp milliseconds and a rest with ms * 10^6 + rest == ns, |rest| < 10^6, and the sign of ns or 0; null and 0 for a null; the rests are left out if and only if every timestamp is a multiple of 10^6 |
| FrameJson.ArrowIsWritten | data/frame_json.go:1324-1332 | the same law of the specified tokens and rests, for every list of timestamps |
| FrameJson.ArrowRoundTrip | data/frame_json.go:1310-1376 | what Arrow writes for any int64 timestamps reads back as them, as the first column and as any other |
| ChunkStream.FrameToJson | data/frame_json.go:160-178 | data with or without the schema, or the error |
| ChunkStream.ChunkedDataWriter.WriteFrame | backend/chunked.go:56-100 | in both formats the chunk or the refusal; in JSON the keys marked as sent, also by calls that fail, in Arrow none |
| ChunkStream.KeptIsSent | data/frame_json.go:872-966 | what a chunk delivers of its frame is the frame itself if and only if its strings, labels and metadata are valid UTF-8 |
| ChunkStream.WriteAll | backend/chunked.go:56-100 | a run of calls that succeed emits the specified chunks |
| ChunkStream.SchemaOnFirst | backend/chunked.go:85-92 | without collisions the chunk of a call carries the schema exactly when it is the first of its frame |
| ChunkStream.SchemaOnFirstExact | backend/chunked.go:85-92 | the schema goes out exactly on first chunks if and only if the joined keys do not collide |
| ChunkStream.AppendJsonData | data/frame_json.go:215-236 | rows are appended to every column, or the payload has a schema or cannot be read |
| ChunkStream.UnmarshalFrame | data/frame_json.go:238-272 | a new frame from schema and data |
| ChunkStream.AddChunk | experimental/datasourcetest/chunking.go:98-127 | one chunk extends its frame, found under refID, "|" and frameID, or starts one, and writes its response: the status, and the error and the error source if they are not empty |
| ChunkStream.AccumulateJson | experimental/datasourcetest/chunking.go:88-130 | the loop over the chunks builds the specified state or fails, also when the iterator ends with an error; by chunk indices, the responses are those of the refIDs, each with the status of its last chunk and the last error and error source that are not empty |
| ChunkStream.ResponsesExact | experimental/datasourcetest/chunking.go:119-127 | that law of any number of chunks, with any statuses, errors and sources |
| AccumulateLaws.AccumulatedExact | experimental/datasourcetest/chunking.go:88-130 | any chunks, whoever sent them, are put together if and only if all are JSON and every frame can be grown by its own chunks; the frames come in the order in which they start, each under its key, and are listed so under their refIDs |
| ChunkStream.FirstsComplete | backend/chunked.go:85-92 | every first call is in the list of frames |
| ChunkStream.Reassembled | experimental/datasourcetest/chunking.go:88-130 | each frame comes out once, in order of appearance under its refID, with its first call's schema and the rows of all its calls in order, strings as JSON keeps them |
| ChunkStream.ReassembledExact | experimental/datasourcetest/chunking.go:103-117 | given the schemas go out right, the accumulator succeeds if and only if its joined keys do not collide |
| ChunkRuns.StreamExactly | experimental/datasourcetest/chunking.go:88-130 | a stream of successful calls is put together as specified if and only if neither the writer's nor the accumulator's joined keys collide |
| ChunkRuns.WriteRun | backend/chunked.go:56-100 | the writer called with any writes, failing ones included, hands out the specified chunks |
| ChunkRuns.SentExactly | backend/chunked.go:85-91 | a key is marked if and only if some call with identifiers had it, whether it succeeded or not |
| ChunkRuns.NoSchemaAgain | backend/chunked.go:85-99 | once a call with a frame's identifiers was made, no later chunk of the frame carries the schema |
| ChunkRuns.SchemaExactly | backend/chunked.go:85-92 | in any run, without collisions, a chunk carries the schema if and only if no call before it had its identifiers |
| ChunkRuns.SentIsStream | backend/chunked.go:56-100 | when first calls succeed, the successful calls of a run send what they would have sent alone |
| ChunkRuns.AnyRunExactly | experimental/datasourcetest/chunking.go:88-130 | for any run, without collisions: the stream gives the frames of all successful calls, with their rows in order, if and only if the first call of every frame sent succeeded, and can be read at all if and only if no frame with columns has lost its first call |
| ChunkStream.PlainRefIdsDoNotCollide | backend/chunked.go:87 | refIDs without the separator are enough |
| ChunkStream.CollidingKeysLoseSchema | backend/chunked.go:87-91 | "a-b" with "c" and "a" with "b-c" share a key, and the second frame goes out without schema |
| ChunkStream.FailedFirstCallLosesSchema | backend/chunked.go:85-99 | an instance: after a first call that fails the next chunk of the frame has no schema and cannot be read |
| BodyReaders.RunIsPrefix | backend/httpclient/max_bytes_reader.go:37-63 | a run of reads hands out the stream from its start |
| BodyReaders.RunEnds | backend/httpclient/max_bytes_reader.go:37-63 | reading until an error gives exactly the stream and then its ending; afterwards there are no bytes, and every read that asks for some gets the ending again |
| BodyReaders.ReadSizes | backend/httpclient/max_bytes_reader.go:37-63 | any reads of a body, through the limiter or not, are such a run of its stream |
| BodyReaders.ReadAll | backend/httpclient/max_bytes_reader.go:37-63 | reading a body, through the limiter or not, with buffers of any size ends, with exactly its stream and its ending |
| BodyReaders.MaxBytesReader.constructor | backend/httpclient/max_bytes_reader.go:26-28 | for any int64 limit; from 0 to 2^63 - 2 the limited stream is the first bytes up to the limit, then the original ending or, if there was more, the error |
| BodyReaders.MaxBytesReader.Read | backend/httpclient/max_bytes_reader.go:37-63 | under any read sizes and chunking a read delivers the next bytes of the limited stream and its ending; an error is kept, and every later read returns it and no bytes; under the limits left the first read for bytes panics or reports -1 |
| BodyReaders.ReadFresh | backend/httpclient/max_bytes_reader.go:47-49 | a read for bytes of a new reader panics if and only if the limit is 2^63 - 1 or below -1 |
| BodyReaders.RoomExact | backend/httpclient/max_bytes_reader.go:47-49 | the buffer is cut out of range if and only if the remaining bytes are 2^63 - 1 or below -1, and elsewhere to one byte more than remain |
| BodyReaders.LargestLimitWraps | backend/httpclient/max_bytes_reader.go:47-49 | at 2^63 - 1 the sum wraps to -2^63 |
| BodyReaders.MaxBytesReader.Close | backend/httpclient/max_bytes_reader.go:65-67 | the underlying body is closed |
| BodyReaders.ErrorReader.Read | backend/harcapture/harcapture.go:250-256 | the buffered bytes, then the error in place of EOF |
| BodyReaders.BodyRemainder.Read | backend/harcapture/harcapture.go:260-266 | the buffered head, then the rest of the body and its ending, which repeats |
| BodyReaders.CopyLimited | backend/harcapture/harcapture.go:222-225 | copying up to the limit takes bytes off the front of the body and reports any error but EOF |
| BodyReaders.ReadAndRestoreBody | backend/harcapture/harcapture.go:209-241 | the consumer sees the original stream and ending; the capture is reported complete if and only if the body fits the cap and ended cleanly, and then equals it; the body is closed or handed on |
| BodyReaders.LimitBody | backend/httpclient/response_limit_middleware.go:57-77 | the body handed on under any int64 limit: unlimited when it is not positive, and one whose first read panics exactly at 2^63 - 1 |
| BodyReaders.CaptureLimited | backend/harcapture/harcapture.go:199-241 | capture over the limiter, under any int64 limit, hands out the limited stream and is complete exactly when the whole body fits both limits; it panics exactly at 2^63 - 1 |
| BodyReaders.Restored.Read | backend/harcapture/harcapture.go:229-240 | each reader handed back delivers its stream, goes on until the ending, and repeats it |
| BodyReaders.ReadRestored | backend/harcapture/harcapture.go:209-266 | any reads of a restored body are a run of the original stream, its ending repeated |
| BodyReaders.ReadAllRestored | backend/harcapture/harcapture.go:209-266 | reading a restored body with buffers of any size ends, with exactly the original stream and ending |
| BodyReaders.CaptureThenRead | backend/harcapture/harcapture.go:199-241 | end to end, under any int64 limit but 2^63 - 1, where it panics: the consumer of a captured, limited response reads the limited stream and its ending |
| BodyText.EncodeBodyRoundTrip | backend/harcapture/harcapture.go:381-394 | the kept bytes come back from text and encoding whatever they are, the text is valid UTF-8, and base64 is used exactly for bytes that are not |
| BodyText.Encode64Exact | backend/harcapture/harcapture.go:381-394 | base64 group by group: three bytes as four digits of six bits, and one or two bytes padded with "=" |
| BodyText.Base64CostsItsLength | backend/harcapture/harcapture.go:385-428 | a base64 body is charged its exact encoded length |
| HarBudget.QueryPayloadBytes | backend/harcapture/querycapture.go:80-89 | the query's error and arguments, summed by the loop |
| HarBudget.EntryPayloadBytes | backend/harcapture/harcapture.go:155-161 | the entry's content, post data and query |
| HarBudget.Residual | backend/harcapture/harcapture.go:165-173 | a trimmed entry costs at most 4 and the escaped length of its error, and never more than before |
| HarBudget.DropKeeps | backend/harcapture/querycapture.go:91-100 | trimming keeps metadata and error, flags arguments as truncated exactly if there were any, and is idempotent |
| HarBudget.StatementReportedExactly | backend/harcapture/harcapture.go:131-149 | an append reports a lost statement if and only if the entry fits, has no statement, or was flagged before |
| HarBudget.RunReportsExactly | backend/harcapture/harcapture.go:131-149 | the same for each entry of any sequence of appends |
| HarBudget.DroppedStatementIsNotFlagged | backend/harcapture/harcapture.go:165-173 | an append whose dropped statement is not reported |
| HarBudget.PayloadCoversEncoding | backend/harcapture/harcapture.go:151-161 | the measure is never below the bytes json.Marshal writes for the payload |
| HarBudget.PayloadExact | backend/harcapture/harcapture.go:155-161 | the measure is exactly the bytes json.Marshal writes for the payload plus 3 for each literal U+FFFD in it |
| HarBudget.Buffer.AppendEntry | backend/harcapture/harcapture.go:131-149 | the entry is stored whole or trimmed, and retained stays the sum of what is stored |
| HarBudget.AppendAll | backend/harcapture/harcapture.go:131-149 | any sequence of appends |
| HarBudget.BudgetHolds | backend/harcapture/harcapture.go:131-149 | after any appends retained, and the bytes encoded, are within the budget plus the residuals of trimmed entries |
| HarBudget.TrimmedExactly | backend/harcapture/harcapture.go:136-147 | each entry is kept whole if and only if it fits in what is left when it arrives |
| MacroArgs.ParseArgs | data/sqlutil/macros.go:178-215 | the rune loop returns the specified arguments and length for every string, malformed bytes included; the text up to the length is the pieces between brackets and top-level commas, and each argument is its piece without the spaces around it; no arguments without a positive length |
| MacroArgs.ListRead | data/sqlutil/macros.go:187-211 | that law of what parsing gives for any string |
| MacroArgs.SpaceExact | data/sqlutil/macros.go:197-203 | which runes are trimmed, by code point |
| MacroArgs.PiecesPrintBack | data/sqlutil/macros.go:187-211 | joining the arguments read gives back the text read, each bracket-balanced without a top-level comma |
| MacroArgs.PrintedReadsBack | data/sqlutil/macros.go:187-211 | scanning joined balanced pieces gives back the pieces |
| MacroArgs.ClosesFirst | data/sqlutil/macros.go:187-211 | the list ends at the first point where the brackets balance, and fails exactly when there is none |
| MacroArgs.ParsePrinted | data/sqlutil/macros.go:178-215 | parsing printed arguments, whatever follows, gives back the list and its exact length |
| MacroArgs.LengthExact | data/sqlutil/macros.go:178-215 | the length is 0 exactly without an opening bracket, -1 exactly when it is never closed, else that of the shortest balanced prefix |

## Left out

- TTL instance manager (backend/instancemgmt/instance_manager_ttl.go): it rests on the expiry of a library cache.
- Instances.NoDeadlock: the steps let new readers pass a waiting writer, so the safety results cover more interleavings than Go's RWMutex has; only this lemma counts such readers as blocked. Fairness is not stated.
- Instances.Lifecycle: the time a disposal waits is left open, a timer may fire in any later step; cache keys are unbounded and entries are never removed, as in the code.
- Freshness.NeedsUpdate: logging and the update counter are left out, and `instanceKey` is the key a request carries.
- FieldSort.SliceStable: insertion sort, which is what Go's stable sort does on up to 20 columns; for more, StableSort.StableSortUnique covers columns that do not clash. On more than 20 columns with clashing ones the result of Go's merge passes is not modelled.
- SortedKeys.SortedKeysOf: the names are collected in an arbitrary order and sorted by insertion; equal strings do not occur.
- LongToWide.LongToWide: Meta, Name and Config of frames are left out; numbers are carried by their representation, and a fill constant by its conversion to each numeric type.
- WideLongWide.WideLongWideIdentity: the labels have to be valid UTF-8, since malformed bytes share a map key.
- LongLaws.LongFrameIs: the labels have to be valid UTF-8, as label sets that share a map key otherwise share a row with the factors of the first (LongRowsOrdered likewise); LongRows.ValueAt and LongRows.FactorAt are about all frames.
- FieldOrder.ColumnsInOrder: like FieldSort.SortedFrameExact, about frames without two unlabelled columns of one name.
- LongWideLong.LongWideLongLosesNothing: no fill; factor texts are those the labels carry, a null factor being "" or "false".
- Resample.ResampleWideFrame: times are unbounded integers, so the saturation of time.Time is not modelled, and a nullable time column holds values rather than pointers to the loop's time.
- FrameJson.RoundTripExact: JSON is a tree of tokens; a finite number is carried as a value of its column's width, a string as what its text reads as, and a NaN is one value.
- FrameJson.ReadVector: the conversions of strconv, fmt and float64 are parameters; arrays and objects as values, entity names other than the three that are written, and rounding a foreign decimal to float32 are not modelled.
- FrameJson.ReadData: the order with "nanos" before "values", which the writer never produces, and json.RawMessage columns are left out.
- ChunkStream.AccumulateJson: frames are held in a list with indices instead of pointers.
- ChunkStream.ChunkedDataWriter.WriteFrame: calls are serialised by its mutex; error chunks (`WriteError`) are left out, and what `MarshalArrow` writes is a parameter. SetRefID on the caller's frame is part of the chunk, not a change seen by the caller.
- AccumulateArrow merges only with the latest frame of a refID and is left out.
- BodyReaders.MaxBytesReader.Read: a buffer passed to Read is a size, and the bytes read are returned.
- BodyReaders.LimitBody: which of the configured limits applies is the caller's; the log line and the size error of the wrapper around the limiter are left out.
- ChunkStream.KeptIsSent: the JSON library writes names and refIDs byte by byte and everything else through its value encoder; that gRPC refuses identifiers that are not UTF-8 is left out.
- BodyReaders.ReadAndRestoreBody: growing the buffer by Content-Length changes nothing that is read and is left out.
- HarBudget.Buffer.AppendEntry: entries are values (post data and query are shared pointers in Go), byte counts do not overflow int64, and calls are serialised by the mutex.
- BodyText.EncodeBodyRoundTrip: base64 encoding and decoding (RFC 4648, section 4) stand in for Go's library; the SDK itself only encodes.
- Interpolate and its regular expression, and the single macros, are left out.
- Proxy, TLS, tracing, metrics, logging, settings parsing, middleware and redaction lists: plumbing.
