# substreams-sink-sql core, modelled in Dafny

This project models the decision logic of the SQL sink for Substreams. The
sinker receives blocks of decoded database changes from a Substreams module.
It applies each table change through a loader as an insert, update or delete.
It remembers the last cursor and final block height it has seen, and it flushes
the loader when a block interval is reached or the loader asks for it.

Besides the sinker, the model covers the flush-interval settings that
`substreams-sink-sql run` derives from its flags. It also covers the
conversion of a change's text value into what the ClickHouse driver takes for
`time.Time` and slice columns.

Modules:

- `Results`: `Option`, `Result` and `Outcome`.
- `Changes`: the data model.
  - Table changes: primary-key variants, operation kinds, fields.
  - Cursors.
  - The loader calls, as `StoreOp`.
  - The sinker's errors.
- `Apply`: `applyDatabaseChanges`.
  - Table check, primary-key resolution, field collection, the reversibility tag and dispatch.
  - Dispatch runs over a `Loader` whose key expansion and per-call verdicts are opaque functions.
  - Every call the sinker makes is appended to a log, whatever the loader answers.
- `Sinker`: the rest of the sinker.
  - `HandleBlockScopedData`, the `flush` guard and `HandleBlockUndoSignal`.
  - `batchBlockModulo` and the flush trigger.
  - The cursor branch of `Run`.
  - A driver `Process` that hands a stream of block and undo events to the handlers.
- `RunConfig`: the flag defaults, the deprecated `flush-interval` override and the `handleReorgs` derivation of `sinkRunE`.
- `Calendar`: days-from-civil arithmetic, proved equal to a month-by-month reference count.
- `Decimal`: decimal digit strings.
- `JsonArray`: a parser and a renderer for bracketed JSON arrays of strings or integers.
- `ClickHouse`: `convertToType` for dates, date-times and arrays, with the test vectors as lemmas.

Go's `uint64(int)` conversion in `batchBlockModulo` is modelled as a
two's-complement reinterpretation. Block numbers are 64-bit unsigned and flag
values 64-bit signed subset types of `int`.

The ClickHouse dialect's implementation, db/dialect_clickhouse.go, is not part
of this model. `ClickHouse.ConvertToType` is a specification reconstructed
from `Test_convertToType`:

- A bare `YYYY-MM-DD` is kept as text after its month is checked.
- A date-time comes in one of two spellings and becomes Unix seconds in UTC:
  - `YYYY-MM-DDTHH:MM:SSZ`, the whole-second `Z` form of a date-time in section 5.6 of RFC 3339;
  - `YYYY-MM-DD HH:MM:SS`.
- String and integer slices are parsed from a JSON array literal.
- A slice of `time.Time` is refused by type name.

The test compares errors by their full text (`assert.EqualError`), so the model
keeps errors structured as `ConvertError`. `Message` renders them, and the two
failing vectors are proved against their exact expected text.

## Model

| member | source | states |
|---|---|---|
| Apply.ReversibleAt | sinker/sinker.go:219-222 | A write is tagged reversible exactly when its block is above the final block, and the tag is the block's own number. |
| Apply.FieldMap | sinker/sinker.go:214-217 | The column map holds exactly the columns named by the fields, and each column's value is that of the last field with that name. |
| Apply.ApplyChange | sinker/sinker.go:190-243 | For one change: an unknown table fails with the table, the loader's identifier and the known tables, and makes no call. A single key is expanded through the loader, and the loader's error is passed on without a call. A composite key is used as given. A missing key shape fails without a call. Create, update and delete each make exactly one call of the matching kind with the change's table, keys and reversibility tag; insert and update also carry the last-value field map. Unset and unrecognised kinds make no call and succeed. The outcome is the loader's verdict on the call, and a rejected call fails as an insert, update or delete failure carrying the loader's cause. |
| Apply.ApplyChanges | sinker/sinker.go:189-245 | `applyDatabaseChanges`: the changes are applied in list order and the calls only ever extend the log, at most one per change. A block that applies makes exactly one call per create, update or delete change. The split, first-failure and planned-writes lemmas below state the rest. |
| Apply.ApplyChangesSplit | sinker/sinker.go:190-245 | Applying a concatenation of change lists is applying the first list and, only if that succeeded, the second list after it. |
| Apply.FirstFailureStops | sinker/sinker.go:190-245 | When every change before index k succeeds and change k fails, the block's result is change k's: the earlier calls stay in the log and no later change makes a call. |
| Apply.UnknownTableStops | sinker/sinker.go:190-198 | A change for an unknown table ends the block with the unknown-table error, after exactly the calls of the changes before it. |
| Apply.AppliedBlockMadePlannedWrites | sinker/sinker.go:190-245 | A block that applies without error had every table known and every key resolved. Its log grew by exactly the planned row writes, in list order, one per create, update or delete change. |
| Apply.AcceptingLoaderApplies | sinker/sinker.go:190-245 | Against a loader that accepts every call, a block whose tables are all known and whose keys all resolve applies without error. |
| Sinker.ToUint64 | sinker/sinker.go:257-261 | Go's `uint64` conversion keeps non-negative values and adds 2^64 to negative ones. |
| Sinker.BatchBlockModulo | sinker/sinker.go:251-265 | Block-count flushing is disabled exactly when the live interval is 0 in live mode, or the batch interval is not positive in catch-up mode. A positive batch interval is used as is in catch-up mode. A non-negative live interval is used as is in live mode, and a negative one wraps to a value above 2^63 - 1. |
| Sinker.FlushDue | sinker/sinker.go:140 | The loader's row-count verdict always forces a flush. With block-count flushing disabled, it is the only reason to flush. With it enabled, block 0 always flushes. |
| Sinker.FlushTrigger | sinker/sinker.go:140 | In catch-up mode a block flushes iff the batch interval is positive and divides the block number, or the loader needs a flush. In live mode the live interval decides in the same way. When that interval is 0, the block-count trigger never fires and only the loader's verdict flushes. When it is negative, the block number is taken modulo its wrapped unsigned value. |
| Sinker.DoFlush | sinker/sinker.go:153-167 | Before any cursor is seen, a flush is a successful no-op. Otherwise it makes one flush call with the module hash, the last cursor and the last final height. It succeeds iff the loader accepts that call, and a failure names the cursor. |
| Sinker.HandleBlockScopedData | sinker/sinker.go:106-151 | Data from another module is rejected and the state is unchanged. A failed apply keeps the calls made and returns the wrapped error, leaving the cursor and final height as they were. A successful apply, including one with an empty map output, records the block's cursor and final height. It then flushes exactly when due, with that cursor and height, and its outcome is the flush's. This is the intended behaviour; see "## Findings" for the empty-output path as written. |
| Sinker.HandleBlockScopedDataAsWritten | sinker/sinker.go:116-138 | As written, with the flush mutex: a block from the right module with an empty map output ends in Go's fatal "unlock of unlocked mutex". Every other block ends as `Sinker.HandleBlockScopedData` says. |
| Sinker.EmptyOutputDiverges | sinker/sinker.go:116-138 | For any empty map output from the right module, the as-written handler dies. The intended handler records the block's cursor and final height, and returns success when no flush is due. |
| Sinker.HandleBlockUndoSignal | sinker/sinker.go:247-249 | An undo makes one revert call with the module hash, the cursor and the last valid block. It leaves the sinker's cursor and final height alone and succeeds iff the loader accepts the revert. Otherwise it returns the loader's revert error. |
| Sinker.StartCursor | sinker/sinker.go:54-73 | Startup fails without writing when the cursor load fails for a reason other than "not found". When the cursor is found and the module hash matches, the stream resumes from it without writing. A missing cursor gets a blank cursor row first, and a module mismatch writes the loaded cursor back under the current hash. Startup then succeeds iff that write is accepted, and a rejected write fails with the error of the write that failed, carrying the loader's cause. |
| Sinker.NoFlushBeforeFirstBlock | sinker/sinker.go:155-158 | From a fresh sinker, a stream handled without error that held no block event has seen no cursor, so a flush then writes nothing and succeeds. |
| Sinker.CursorRowFirst | sinker/sinker.go:60-73 | After a startup that wrote a cursor row, because none was found or the module changed, that row is the one call appended to the earlier log. Every call the stream then makes comes after it, each flush included. |
| Sinker.ProcessRecordsLastBlock | sinker/sinker.go:136-137 | After a stream of events is handled without error, the sinker's cursor and final height are those of the last block event. Undo signals never move them, and with no block event they are unchanged. |
| RunConfig.Resolve | cmd/substreams-sink-sql/run.go:75-96 | A non-zero deprecated `flush-interval` becomes the batch block interval, and otherwise `batch-block-flush-interval` does. Reorgs are handled iff `undo-buffer-size` is 0. The row and live intervals pass through unchanged. |
| RunConfig.Configure | cmd/substreams-sink-sql/run.go:96 | The loader the sinker sees takes its batch block and live intervals from the resolved settings, and keeps its tables and identifier. |
| RunConfig.LegacyIntervalWins | cmd/substreams-sink-sql/run.go:91-94 | Once `flush-interval` is non-zero, the value of `batch-block-flush-interval` no longer affects the settings. |
| RunConfig.DefaultSettings | cmd/substreams-sink-sql/run.go:30-34 | The default flags give batch block interval 1000, row interval 100000, live interval 1, and reorgs handled. |
| RunConfig.DefaultFlushSchedule | cmd/substreams-sink-sql/run.go:30-34 | With the default flags, a catch-up block flushes iff its number is a multiple of 1000 or the loader needs a flush, and every live block flushes. |
| Calendar.DaysFromCivilIsEpochDays | db/dialect_clickhouse_test.go:33-46 | For every year, before or after 1970, the closed-form days-from-civil count equals a reference count from 1970-01-01. The reference adds whole months, then whole years of 365 or 366 days, then days, and is negative before 1970. |
| ClickHouse.ConvertToType | db/dialect_clickhouse_test.go:20-70 | A slice of times is refused by name. A bare date succeeds iff its month is in range and is then kept as text; otherwise it fails naming the value and "month out of range". A date-time in either spelling likewise succeeds iff its month is in range, and then gives Unix seconds. Other text fails naming the value. A string or int slice succeeds iff the array literal parses, with the parsed elements in order, and otherwise fails naming the value and the parse error. |
| ClickHouse.MessageMentions | db/dialect_clickhouse_test.go:26-31 | Every failure's message contains the offending value and the reason, or the refused type name. |
| ClickHouse.EpochSecondsCount | db/dialect_clickhouse_test.go:33-46 | For any four-digit year, a date-time with its month in range converts to the reference day count times 86400 plus the clock's seconds. Instants before 1970 get negative seconds. |
| ClickHouse.LayoutsAgree | db/dialect_clickhouse_test.go:33-46 | The space-separated spelling of an RFC 3339 UTC date-time converts to the same instant, and it fails exactly when the RFC 3339 form does. |
| ClickHouse.StringArrayRoundTrip | db/dialect_clickhouse_test.go:48-52 | The array literal of any list of strings without control characters, with any whitespace after the commas, converts back to that list. |
| ClickHouse.IntArrayRoundTrip | db/dialect_clickhouse_test.go:54-58 | The array literal of any list of 64-bit integers, with any whitespace after the commas, converts back to that list. |
| JsonArray.ParseArrayOfRender | db/dialect_clickhouse_test.go:48-58 | Parsing the rendered literal of renderable items of one kind gives back the items. |
| Decimal.DigitsRoundTrip | db/dialect_clickhouse_test.go:54-58 | Reading the decimal spelling of a natural number gives the number back. |
| ClickHouse.DateVector | db/dialect_clickhouse_test.go:21-25 | "2021-01-01" converts to the same text. |
| ClickHouse.InvalidDateVector | db/dialect_clickhouse_test.go:27-31 | "2021-99-01" fails as a date with "month out of range". |
| ClickHouse.InvalidDateMessage | db/dialect_clickhouse_test.go:30 | That failure reads exactly `could not convert 2021-99-01 to date: parsing time "2021-99-01": month out of range`. |
| ClickHouse.UtcDateTimeVector | db/dialect_clickhouse_test.go:34-38 | "2021-01-01T00:00:00Z" converts to 1609459200. |
| ClickHouse.SpacedDateTimeVector | db/dialect_clickhouse_test.go:41-45 | "2021-01-01 00:00:00" converts to 1609459200 too. |
| ClickHouse.StringArrayVector | db/dialect_clickhouse_test.go:48-52 | `["field1", "field2"]` converts to the strings field1 and field2. |
| ClickHouse.IntArrayVector | db/dialect_clickhouse_test.go:54-58 | `[1, 2]` converts to the integers 1 and 2. |
| ClickHouse.PreEpochVector | db/dialect_clickhouse_test.go:33-46 | "1969-12-31T23:59:59Z" converts to -1, one second before the epoch. |
| ClickHouse.TimeArrayVector | db/dialect_clickhouse_test.go:66-70 | Any value for a slice of `time.Time` is refused with the type name "Time". |
| ClickHouse.TimeArrayMessage | db/dialect_clickhouse_test.go:69 | That refusal reads exactly `"Time" is not supported as Clickhouse Array type`. |

## Left out

- Protobuf decoding of the map output and the type-URL check (sinker/sinker.go:113-126): a block carries its decoded table changes, or `None` when the map output is empty.
- The flush mutex (sinker/sinker.go:33, 128-138, 160-161) only matters between goroutines, and the model is sequential.
  - `flush` reads `lastSeenCursor` before locking (sinker/sinker.go:156 against 160). That is a concurrency defect a sequential model cannot show.
  - The unbalanced `Unlock` on an empty map output is not concurrent. It is listed under "## Findings".
- Sinker.HandleBlockScopedData: on an empty map output the source dies with Go's fatal `sync: unlock of unlocked mutex` at sinker/sinker.go:138. The model follows the evident intent instead: it records the cursor, then decides the flush. `Sinker.HandleBlockScopedDataAsWritten` keeps the fatal path.
- The shutter and `OnTerminating` (sinker/sinker.go:75-88): process lifecycle.
- Stats, metrics, logging and the slow-flush duration thresholds (sinker/sinker.go:90-102, 163-184): timing and I/O that make no decision.
- The `flush` wrapper's logging of the flushed row count is left out for the same reason. Its error path is modelled.
- Loader internals: SQL generation, `Flush` transactionality, `Revert`, `GetPrimaryKey`, `GetCursor` and cursor storage live outside the sinker's code.
  - The loader's answers are opaque functions of the calls made before.
  - `FlushNeeded` and its `batch-row-flush-interval` row counting are an opaque boolean input.
- A nil `isLive` panics in `batchBlockModulo` (sinker/sinker.go:252-254). The model takes `isLive` as a plain boolean.
- The error texts of the sinker are structured `Error` values, not formatted strings.
- The command setup in run.go (cmd/substreams-sink-sql/run.go:22-29, 35-73, 77-89, 97-108) is CLI plumbing. This covers cobra, endpoint and network resolution, and building and supervising the sinker.
- The float slice vector (db/dialect_clickhouse_test.go:60-65): floating point.
- ClickHouse.ConvertToType: several departures from the reconstructed behaviour.
  - It validates only the month of a date or date-time, the one range check the tests show. Days, hours, minutes and seconds are not range-checked.
  - It chooses between date and date-time by the text's shape.
  - It refuses the other date-time spellings that section 5.6 of RFC 3339 allows: fractional seconds (`2021-01-01T00:00:00.5Z`) and numeric offsets (`+00:00`). The tests show neither.
  - Its reason for text in no known spelling ("cannot parse as a date-time") is a placeholder, not Go's `time.Parse` wording.
  - Its slice-unmarshal error wording is a placeholder as well.
  - The target word "time" in a date-time failure (`could not convert ... to time: ...`) is a placeholder too. The tests only show the date form, `to date`.
- The JSON array parser reads neither `\u` escapes nor `null`, and an integer slice takes 64-bit integers only.

## Findings

| source | as written | input that shows it | evidently intended | confidence | as-written member | corrected member |
|---|---|---|---|---|---|---|
| sinker/sinker.go:116-138 | `flushMutex.Lock()` sits inside `if mapOutput.String() != ""`, but `flushMutex.Unlock()` at line 138 runs after the `if` whatever the output was | a block from the expected module whose map output is empty; Go stops the process with `sync: unlock of unlocked mutex` | lock around the whole update of `lastSeenCursor` and `lastSeenFinalBlock`, so that an empty block records its cursor and goes on to the flush decision | not executed; high, from the source text and Go's documented `sync.Mutex` behaviour | Sinker.HandleBlockScopedDataAsWritten, Sinker.EmptyOutputDiverges | Sinker.HandleBlockScopedData |
