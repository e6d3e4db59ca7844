# Verified model of pg-snowflake-cdc

A Dafny model of the change-data-capture pipeline, from WAL bytes to replicated tables, and of the
two scripts that write the same tables. A statement, a connection or a poll may fail at any point
of a run, and a process may die at any point. What is proved holds for every input and every run that
meets the hypotheses listed below; where a property fails, its exact condition is proved.

| files | what they model |
|---|---|
| `values`, `columns`, `events` | rows, insertion-ordered dictionaries, column renaming, change events |
| `tables`, `statements` | current tables as bags of rows; MERGE, DELETE and INSERT as templates with bound parameters |
| `batches`, `replay` | what one batch of events turns into, against replaying the events one by one |
| `attempts`, `outcomes`, `cycles`, `cuts`, `history` | retries and all they can leave behind, whole runs of the sink, which logs may be cut anywhere, the history tables |
| `sink`, `snowflake_sink` | the sink's abstract state and its steps; the class, statement by statement |
| `utf8`, `wire`, `parser`, `pgoutput_parser`, `codec`, `stream`, `texts` | UTF-8 and bytes, the decoder, the parser class, the server's encoder, whole sessions, and messages in plain values and byte by byte |
| `source`, `fidelity` | PostgreSQL's own table, what each message means there, and when the replicated table mirrors it; what every stored row says in the source's values |
| `pipeline`, `runs`, `service` | the poll/reconnect loop as a state machine, what holds in every reachable state, and the loops themselves |
| `restarts` | crashes in any state, and the lives of the service one after the other |
| `lsn` | LSN text and the rows of a consuming poll |
| `backfill`, `backfill_job`, `paging`, `reconcile` | the two repair scripts, and what paging misses when ids repeat |

`dafny verify dfyconfig.toml` checks the whole project.

## How to read it

- **Tables** are bags of rows, since Snowflake enforces no key: sequences compared as multisets.
  `Slice(pk, t, k)` is the rows of key `k`. `Alike` says that two tables agree under every key.
- **Statements** are atomic. Each may succeed, fail without effect, or take effect and then report
  failure (`Fate`). A statement that took effect is a `Done`: the call and, for a MERGE, the rows
  its QUALIFY kept.
- **The dedup** orders by a column that is constant in its partition, so a MERGE may keep any one
  row for each key (`IsPick`). `LastWins` is the pick the source intends.
- **An attempt** is any first part of the statements of any first part of the buffer (`Part`,
  `Attempt`). **A cycle** is one confirmed batch: its stopped attempts, then the write that
  completed.
- **A run** is any sequence of `Pipeline.Next` steps from `START`: connect, fail to connect, poll,
  empty poll, failing poll (before or after the slot has forgotten its messages), skip, publish,
  raise, finish or leave a poll, leave a session, stop, and a signal at any moment.
  `Service.CdcService` holds the loops themselves; its `Valid()` says that what has happened so far is
  such a run, each method only extends that run over the same warehouse contents, and so the theorems of
  `Runs` are about it (`Service.Serve`). `Restarts` lets a process die in any state.
- **Failures** of the warehouse are counted, and so are the mishaps of the backfill: nothing reports a failure
  that did not happen.
- **A stop** of the backfill is where one run of one table ended. Each run of the script leaves the
  recorded stops alone or adds one, to the table it stopped in.
- **The source** (`Source`) gives every message PostgreSQL's meaning, not the parser's: a column sent
  as unchanged TOAST keeps its value, a Truncate empties its relations, an update replaces the row of
  its old key. `Denotes` in `Codec` is what the parser should report, and reports.
- **The WAL** of a run is what the slot handed out (`Carries`), whether or not it was decoded.

## Main results

The other rows of the table below lead to these.

- One batch against in-order replay, with exact conditions: `Replay.LastWinsBatchIsReplay`,
  `Replay.EveryPickBatchIsReplay`, `Cycles.BatchIsReplayDb`; on whole logs, for every cut:
  `Cuts.EveryLastWinsCut`, `Cuts.EveryCut`.
- Retries are harmless and flush boundaries do not matter: `Attempts.FailedAttemptsAreAbsorbed`,
  `Cycles.RunIsReplay`, `Cycles.CutsAgree`; what they can leave behind, exactly:
  `Outcomes.DriftedIsExact`.
- The table in any state, in the middle of a write and over crashes: `Runs.TableInAnyState`,
  `Restarts.RestartsReplayDurable`, `Restarts.RestartsMayHold`; one row per key:
  `Runs.OneRowPerKey`, `Restarts.RestartsKeepKeysUnique`.
- The history is at least once and recoverable: `HistoryTables.EventOccurs`,
  `HistoryTables.DedupByLsnRecoversLog`, `Restarts.RestartsHistory`.
- The replica mirrors PostgreSQL's table, with the exact condition: `Source.ReplayTracksSource`; value by
  value: `Fidelity.RunHoldsSource`, and in the history `Fidelity.EventIsInHistory`.
- The parser inverts the encoder, in plain texts and values and on arbitrary bytes: `Codec.TupleInverts`,
  `Stream.StreamInverts`, `Texts.InsertOfTexts`, `Utf8.TextInverts`, `Utf8.BytesInvert`,
  `Stream.StateIsLatest`, `Stream.EventCarriesLatest`.
- Every reachable state of the service: `Runs.NothingLostOrDoubled`, `Runs.UnprocessedIsOneTail`,
  `Runs.WatermarkIsSafe`, `Runs.BufferIsBounded`, `Runs.SleepsDouble`; the loops themselves are runs, poll
  by poll: `Service.CdcService.Session`, `Service.CdcService.Run`, `Service.Serve`.
- From WAL bytes to tables, source and history: `Runs.WalToTables`, `Runs.WalMirrorsSource`,
  `Runs.WalToHistory`.
- The repair scripts: `BackfillJobs.BackfillJob.RunScript`, `BackfillJobs.LoadAll`,
  `BackfillJobs.LoadsOnceIffCleanStops`, `Paging.MissedRows`, `Reconcile.ChunksAreOneMerge`,
  `Reconcile.RerunRepairs`.
- Smaller ones: `Statements.BindExact`, `Columns.RenameInverts`, `Lsn.RoundTrip`, `Sink.FlushSleeps`.

## Hypotheses

The code does not enforce these; each is stated where it is needed and nowhere else.

- `Config.Ok`, `Settings.Ok`: batch size and retries are at least 1, the two back-off bases are not
  negative, table names are all different, keys are not empty, and a replicated table is no
  partition. With no retries a flush would confirm its batch without writing it
  (`Warehousing.SnowflakeSink.WriteWithRetries`).
- `Tidy`, `SameColumns`, `Selected`, `SameKeys`: the rows of one table share the first row's
  columns, and (where keys matter) no key column is NULL.
- `Faithful`: each confirmed batch meets the exact condition under which a batch equals replay. Every
  cut of a log meets it if and only if the log never upserts a key after a delete of it and, for an
  arbitrary pick, all upserts of a key carry one row (`Cuts.EveryCut`, `Cuts.CalmLogIsFaithful`,
  `Cuts.LastWinsLogIsFaithful`).
- `Allowed`: what PostgreSQL promises of its messages: a relation is announced before its changes, a
  tuple has a value for each column, an insert uses a new key, an update or a delete names a row
  that exists, and an update without an old tuple carries its key. No two columns of the relation
  share a Snowflake column; in strict camelCase that is a theorem (`Columns.StrictCamelApart`).
- `NothingBreaks`: the exact condition of `Source.ReplayTracksSource`. Only the comparison with the
  source needs it.
- `NothingLost`: no session left messages over. `Runs.WhatWasDecoded` says what is missing otherwise.
- `Settled`: between flushes, when no stopped attempt is waiting to be absorbed. In any other state
  `Runs.TableInAnyState` says what each key may hold.
- `AcceptedTidy`, `LivesTidy`: `Faithful` and `Tidy` for what a sink has accepted, life by life.
- `LsnsDistinct`: change LSNs are distinct within a table; the exact condition of history
  deduplication.
- `Ordered`: commit LSNs are positive and arrive in non-decreasing order. Only the watermark needs
  it.
- `Ascending`: paging ids are positive and unique, and the source does not change meanwhile. What is
  missed otherwise is exactly `Paging.MissedRows`.
- `Apart`: no two columns of a row share a Snowflake column. `NoCdcColumn`: none is called like one of the
  three columns that the history adds. `Plain`: the source's rows are apart to begin with.
- `pageSize`, `insertBatch` and the chunk `size` are at least 1.

## Where the code and its own documentation disagree

The model follows the code.

- `src/snowflake_sink.py:161-163` promises that only the last occurrence of a key is applied, but
  the window's ORDER BY is one of its PARTITION BY columns (`src/snowflake_sink.py:170-175`).
  `Replay.LastWinsBatchIsReplay` gives the exact condition for the intended pick and
  `Replay.EveryPickBatchIsReplay` the exact, stronger one for the pick the code leaves open.
- Within one batch all upserts of a table come before all its deletes
  (`src/snowflake_sink.py:365-371`), so a key that is deleted and then inserted again in one batch
  is lost: `Replay.RevivedKeyIsLost`.
- `README.md:75-77` and `sql/postgres_setup.sql:26-31` say that REPLICA IDENTITY FULL keeps unchanged
  TOAST columns from turning into NULL. It adds the old tuple, but the upsert never reads `before`
  (`src/snowflake_sink.py:381`), and the new tuple's `u` becomes NULL
  (`src/pgoutput_parser.py:77-78`): `Source.FullIdentityLosesToast`, `Source.LostColumn`.
- `README.md:16` says that the current table is kept in sync. The publication is created without a
  `publish` option (`src/pg_replication.py:147-150`), so a TRUNCATE is published; the parser skips it
  (`src/pgoutput_parser.py:119`) and the rows stay: `Source.TruncateLeavesRows`. An update that
  changes the key leaves the old row behind: `Source.KeyChangeLeavesStaleRow`. The exact condition for
  a mirror is `Source.ReplayTracksSource`.
- `src/main.py:11-12` says that no events are lost across reconnects. The consuming poll takes
  messages out of the slot, and those not yet decoded when its loop is left are gone:
  `Runs.ShutdownCanDropMessages`, exactly characterised by `Runs.UnprocessedIsOneTail`.
- `src/snowflake_sink.py:14-15`, `src/snowflake_sink.py:326-327`, `src/main.py:187` and
  `README.md:61-63` say that unflushed events are delivered again after a restart. They have left the
  slot, so they are not: `Restarts.CrashCanDropMessages`. What a process had consumed and not
  confirmed when it dies is its buffer and its left-over tails (`Restarts.CrashSplitsLog`). Nothing of
  the tails is in the tables. Of the buffer everything may be (`Restarts.CrashCanKeepBuffer`), or
  nothing, or a part: a key holds nothing but what `Restarts.RestartsMayHold` lists, each outcome for one
  buffer is produced by some stopped attempts on it (`Outcomes.DriftedIsExact`), and every key the
  buffer does not touch holds the replay of the confirmed log (`Restarts.RestartsReplayDurable`).
- `src/snowflake_sink.py:16-20` offers deduplication of the history by `_CDC_LSN`. Rows written by
  one multi-row record share an LSN, and then deduplication drops events:
  `HistoryTables.DedupByLsnRecoversLog` holds if and only if the LSNs are distinct.
- `src/pgoutput_parser.py:120` does not catch the OverflowError of a commit timestamp outside years
  1 to 9999, so such a Begin message leaves the poll loop too: `Stream.UncaughtIsBadTimestamp`.
- `scripts/backfill.py:183` says that no duplicates are possible on resume. A run that stops inside
  a page after the first checkpoint repeats that page's rows: `Backfill.ResumeCanDuplicate`; the
  exact condition is `BackfillJobs.LoadsOnceIffCleanStops`.
- `scripts/backfill.py:74` and `scripts/backfill.py:195` page on `id` alone, where the key of the shipped
  `customers` table is (`ID`, `TENANT_ID`) (`src/snowflake_sink.py:90`). If an id repeats, the rows that a
  page cuts off from an earlier row with the same id are never loaded: `Paging.MissedRows`,
  `Paging.RepeatedIdIsMissed`.
- After an error inside a session `attempt` is 0, so the first back-off is half of `BACKOFF_BASE`
  (`src/main.py:108`, `src/main.py:182`).

## Model

| member | source | states |
|---|---|---|
| Columns.RenameInverts | src/snowflake_sink.py:105-111 | on ASCII names in strict camelCase the renaming has a left inverse, so it loses nothing |
| Columns.RenameInjective | src/snowflake_sink.py:105-111 | two different ASCII columns in strict camelCase never share a Snowflake column |
| Columns.StrictCamelApart | src/snowflake_sink.py:105-111 | a relation whose columns are ASCII and strict camelCase has no two columns that share a Snowflake column |
| Columns.RenameIdempotent | src/snowflake_sink.py:105-111 | renaming a renamed column changes nothing, for every ASCII name |
| Columns.CamelAndSnakeCollide | src/snowflake_sink.py:105-111 | outside strict camelCase it fails: for all lower-case words p and q, camelCase and snake_case spellings collide |
| Columns.WordBecomesUpper | src/snowflake_sink.py:105-111 | a lower-case word becomes its capitals, letter by letter |
| Columns.CamelBecomesUpperSnake | src/snowflake_sink.py:105-111 | a camelCase name of any two words becomes the capitals of both with an underscore between |
| Columns.BuildSfRow | src/snowflake_sink.py:121-133 | the loop computes the specified conversion, and for columns that stay apart the output holds the source row: under each renamed column its value, a document in `metadata` or `tags` as its dumped text, and no other column |
| Columns.BuildLoadRow | scripts/backfill.py:86-94 | the backfill's loop computes its own conversion, and its output holds the source row with every document as its dumped text |
| Columns.RowToSfKeepsPlaces | src/snowflake_sink.py:121-133 | no two columns with different Snowflake names collapse: the output has every column, renamed, in its place |
| Columns.RowToSfKeepsValues | src/snowflake_sink.py:121-133 | a column that stays apart is stored under its new name with the very value of the source row; only a document that the conversion dumps is stored as its text |
| Columns.RowToSfInventsNothing | src/snowflake_sink.py:121-133 | every stored value is so the value of some column with that Snowflake name, for any names |
| Columns.RowHeld | src/snowflake_sink.py:121-133 | the converted row has exactly the renamed columns of the source row, each with its value |
| Tables.PickAt | src/snowflake_sink.py:170-175 | whatever the QUALIFY keeps, each key of the source has exactly one of its own rows, and no other key has any |
| Tables.LastWinsIsPick | src/snowflake_sink.py:161-175 | the intended last-wins result is one the QUALIFY may return |
| Tables.LastWinsAt | src/snowflake_sink.py:161-163 | under each key last-wins keeps the last row of that key |
| Tables.PickWithIsPick | src/snowflake_sink.py:170-175 | every row of the source can be the one kept for its key |
| Tables.SliceMerge | src/snowflake_sink.py:176-187 | a MERGE from a deduplicated source updates or inserts each complete key on its own and leaves other keys alone; rows with a NULL key are only added |
| Tables.MergeColumns | src/snowflake_sink.py:176-187 | a matched row keeps its key columns and every column the source row does not list, and takes the others; an unmatched source row is inserted as it is |
| Tables.SliceDelete | src/snowflake_sink.py:396-401 | a DELETE empties exactly the bound key, and nothing if that key has a NULL |
| Tables.MergeAbsorbs | src/snowflake_sink.py:176-187 | merging a key and then merging it again is merging the later row alone |
| Tables.MergeTells | src/snowflake_sink.py:176-187 | merging two different rows of one key leaves different tables, so the pick is visible |
| Statements.BindExact | src/snowflake_sink.py:148-195 | placeholders number exactly the flattened parameters, and binding them in order gives back every row on the first row's columns |
| Statements.FlattenAt | src/snowflake_sink.py:385-388 | parameter i * columns + j is row i's value for column j |
| Statements.RunAt | src/snowflake_sink.py:361-373 | running statements on the warehouse changes each table as its own statements alone would |
| Statements.RunKeepsPkUnique | src/snowflake_sink.py:156-187 | no MERGE, whichever rows it picks, and no DELETE gives a complete key a second row |
| Batches.ExampleSchemaValid | src/snowflake_sink.py:66-92 | the shipped table map, partition prefixes and key columns meet the hypotheses on a schema |
| Batches.FirstPrefixDecides | src/snowflake_sink.py:81-86 | for every schema the first prefix that fits a name gives its parent, and a name that none fits stays |
| Batches.ExamplePartitions | src/snowflake_sink.py:66-86 | in the shipped schema every name that begins with `customers_` becomes `customers`, and no other name changes |
| Batches.OrderHas | src/snowflake_sink.py:357-361 | the grouping visits each table with events exactly once |
| Batches.OrderIsFirstSeen | src/snowflake_sink.py:357-359 | and in the order of their first events |
| Batches.ProgramOn | src/snowflake_sink.py:352-373 | on each current and history table a batch executes exactly the statements of that table's own events, in order |
| Batches.RunBatchAt | src/snowflake_sink.py:365-373 | after one MERGE and then the DELETEs each deleted key is empty and every other key is merged with its pick |
| Replay.ReplayDbAt | src/snowflake_sink.py:352-373 | replaying a log on the warehouse replays on each table that table's own events |
| Replay.ReplayAt | src/snowflake_sink.py:5-7 | replaying event by event leaves, under each key, nothing after a last delete, the last upsert after an earlier delete, and a merge of the last upsert otherwise |
| Replay.StartedDeletes | src/snowflake_sink.py:396-402 | a write that stops early has deleted the first keys of the batch, a complete one all of them |
| Replay.StartedPicks | src/snowflake_sink.py:380-388 | a write that stops early has merged one allowed pick of all upserts, or nothing |
| Replay.FinishedAt | src/snowflake_sink.py:352-402 | what one complete batch leaves under each key, for every allowed pick |
| Replay.RevivedKeyIsLost | src/snowflake_sink.py:365-371 | a key deleted and inserted again in one batch is missing afterwards though replay keeps it |
| Replay.LastWinsBatchIsReplay | src/snowflake_sink.py:352-402 | with the intended pick a batch leaves the table that in-order replay leaves if and only if every key it deletes has a delete as its last event |
| Replay.AnyPickBatchIsReplay | src/snowflake_sink.py:352-402 | for any pick a batch leaves the table of in-order replay when deletes come last and all upserts of a key that is not deleted carry the last one's row |
| Replay.SomePickDiffers | src/snowflake_sink.py:170-175 | if two upserts of a kept key differ, some allowed pick leaves a different table |
| Replay.EveryPickBatchIsReplay | src/snowflake_sink.py:352-402 | the two conditions together are exactly when every allowed pick agrees with replay |
| Attempts.MergeKeepsDrifted | src/snowflake_sink.py:176-187 | merging any upserted row of the batch keeps a key among what stopped attempts may have made of it |
| Attempts.AttemptKeepsDrifted | src/snowflake_sink.py:312-334 | after any attempt that stops after any of its statements, on any first part of the batch, a key holds its old rows, those with one of the batch's upserts merged, or, if the batch deletes it, nothing or one of the upserts |
| Attempts.MergeRepairs | src/snowflake_sink.py:176-187 | merging an upsert of the batch then leaves what it would have left on the old rows |
| Attempts.FailedAttemptsAreAbsorbed | src/snowflake_sink.py:299-350 | after any sequence of stopped attempts, on the batch or on a shorter buffer that later grew, a complete write leaves exactly the table that write alone would have left |
| Attempts.AttemptFromProgram | src/snowflake_sink.py:352-402 | an attempt's statements on a current table are MERGEs and DELETEs by its configured key |
| Attempts.KeysStayUnique | src/snowflake_sink.py:380-402 | any mixture of attempts, re-batched in any way and with any picks, keeps one row per primary key |
| Outcomes.EveryDriftOccurs | src/snowflake_sink.py:299-350 | every outcome listed for a key is produced by some stopped attempts: none at all, one that stops right after its MERGE, one that takes all of the table's statements, or that and then a MERGE |
| Outcomes.DriftedIsExact | src/snowflake_sink.py:299-350 | what stopped attempts can make of the rows of a key is exactly what is listed, in both directions |
| Cycles.CycleIsReplay | src/snowflake_sink.py:299-350 | one confirmed batch with all its stopped attempts leaves what replaying the batch leaves, under the batch condition |
| Cycles.RunIsReplay | src/snowflake_sink.py:224-248 | flush boundaries do not matter: for any log cut into batches that each meet the condition, the table is that of replaying the whole log |
| Cycles.RunIsReplayDb | src/snowflake_sink.py:352-373 | for every current table of the warehouse at once, a run of batches leaves what replaying its whole log leaves |
| Cycles.CutsAgree | src/main.py:118-164 | two ways of cutting one log into batches that meet the condition leave the same current table |
| Cycles.BatchIsReplayDb | src/snowflake_sink.py:352-373 | one last-wins batch of many tables equals replay on all of them if and only if deletes come last on each |
| Cuts.EveryLastWinsCut | src/snowflake_sink.py:239-241 | with the intended pick every cut of a log into batches meets the batch condition if and only if no key is upserted after a delete of it |
| Cuts.EveryCut | src/snowflake_sink.py:239-241 | for any pick, every cut does so if and only if, in addition, all upserts of a key carry one row |
| Cuts.CalmLogIsFaithful | src/snowflake_sink.py:239-241 | every run of batches that confirms such a log meets the condition batch by batch |
| Cuts.LastWinsLogIsFaithful | src/snowflake_sink.py:161-163 | where every confirmed MERGE takes the intended pick, a log without revived keys is enough for that, however often a key is rewritten |
| Source.CarriedKeyIsTrue | src/snowflake_sink.py:381-388 | a complete key in the new tuple is the key of the row at the source |
| Source.StepMirrors | src/snowflake_sink.py:365-402 | replaying one message keeps the table an exact mirror of the source if and only if it is no key change, no update with an unchanged TOAST column that holds a value, and no Truncate that removes a row |
| Source.KeyChangeLeavesStaleRow | src/snowflake_sink.py:380-388 | an update that changes the key leaves the old row behind |
| Source.LostColumn | src/pgoutput_parser.py:77-78 | a column sent as unchanged TOAST is NULL in the table afterwards though the source keeps its value |
| Source.FullIdentityLosesToast | src/pgoutput_parser.py:183-192 | for every such update under full identity the event carries the value before and NULL after |
| Source.TruncateLeavesRows | src/pgoutput_parser.py:108-127 | a Truncate empties the relation at the source and leaves its rows in the table |
| Source.ReplayTracksSource | src/snowflake_sink.py:5-7 | replay mirrors the source after every message of a log if and only if no message of those three kinds occurs |
| Source.RunMirrorsSource | src/snowflake_sink.py:352-402 | batching, picks and retries included, the current table then holds exactly the source's rows, each once, as of the confirmed messages |
| Fidelity.MirroredValues | README.md:16 | a table that mirrors the source has, under each of the source's keys, one row with the source's value in every column, and no row under any other key |
| Fidelity.AfterIsPlain | src/pgoutput_parser.py:71-84 | no message brings a document or two columns that share a name into the source's rows |
| Fidelity.RunHoldsSource | README.md:16 | end to end, value by value: batches, retries and deduplication included, each key of the source has one row in the table, with the source's values |
| HistoryTables.CycleHistory | src/snowflake_sink.py:312-334 | a confirmed batch appends what its stopped attempts had inserted and then each of its rows once |
| HistoryTables.EventOccurs | src/snowflake_sink.py:16-20 | a confirmed batch adds to the copies of each history row exactly its own and those that its stopped attempts had inserted, whatever the LSNs |
| HistoryTables.DistinctEventOccurs | src/snowflake_sink.py:16-20 | with distinct LSNs each event with row data occurs once more than the number of stopped attempts that had inserted it |
| HistoryTables.HistoryHasLog | src/snowflake_sink.py:404-430 | over a whole run a history table gets the rows of the confirmed log and no others, on top of what it held |
| HistoryTables.DedupByLsnRecoversLog | src/snowflake_sink.py:16-20 | deduplicating by `_CDC_LSN`, whichever copy is kept, gives exactly the confirmed event log if and only if LSNs are distinct within the table |
| Fidelity.HistoryGains | src/snowflake_sink.py:404-417 | one event more adds exactly one row: the new row of an insert or an update with `I` or `U`, the old row of a delete with `D`, with every value, the LSN and the time; an event without that row adds none |
| Fidelity.EventIsInHistory | src/snowflake_sink.py:404-430 | every event of a confirmed batch that leaves a row is in the history table with all its values |
| Sink.SinkKeepsKeysUnique | src/snowflake_sink.py:156-187 | in every sink state, in the middle of any retry too, a table that started with one row per key has one |
| Sink.SinkDrifts | src/snowflake_sink.py:299-350 | in every sink state, in the middle of a write or of a retry too, a key holds the replay of the confirmed log or what stopped attempts on the buffer may have made of it |
| Sink.SinkHistory | src/snowflake_sink.py:404-430 | in every sink state a history table holds the rows of the confirmed events and those that stopped attempts on the buffer have inserted, and no others |
| Sink.GivingUpCanHaveWritten | src/snowflake_sink.py:325-334 | a flush may give up with every statement of its batch in effect |
| Sink.WatermarkIsMax | src/snowflake_sink.py:336-340 | the returned LSN is attained in the batch and bounds every event of it |
| Sink.SleptIsBounded | src/snowflake_sink.py:317-323 | n sleeps last at most base * (2 ** n - 1) and at most a minute each |
| Sink.FlushSleeps | src/snowflake_sink.py:312-334 | one flush of R retries sleeps at most min(base * (2 ** (R - 1) - 1), 60 * (R - 1)) |
| Sink.WaitsArePaced | src/snowflake_sink.py:317-323 | the first sleep is the base, each later one twice the one before, none longer than 60 seconds |
| Sink.FlushedKeepsOk | src/snowflake_sink.py:299-350 | a flush moves the buffer to the confirmed log and neither loses nor reorders an event |
| Sink.AttemptsSurviveGrowth | src/snowflake_sink.py:304-342 | attempts on a buffer stay attempts on a first part of it when it grows |
| Sink.PublishedKeepsOk | src/snowflake_sink.py:224-241 | publishing adds exactly the event, normalised, when its table is mapped, and nothing otherwise |
| Sink.PublishRaisedKeepsOk | src/snowflake_sink.py:236-241 | a publish whose flush raises has added the event all the same: it is in the buffer |
| Sink.PartitionIsAccepted | src/snowflake_sink.py:231-236 | an event of a partition is accepted, and buffered, as one of the parent of the first prefix that fits |
| Sink.OtherNamesStay | src/snowflake_sink.py:231-236 | an event that no prefix fits keeps its name, and is skipped if that is no replicated table |
| Warehousing.Warehouse.Execute | src/snowflake_sink.py:388 | one statement takes effect entirely or not at all, and success means that it did; failures are counted |
| Warehousing.CollectUpserts | src/snowflake_sink.py:381-383 | the loop collects the converted after-rows of events that have one |
| Warehousing.CollectHistory | src/snowflake_sink.py:405-417 | the loop collects the history rows: after-state, or before-state for a delete, with operation, LSN and time |
| Warehousing.SelectEvents | src/snowflake_sink.py:365-366 | the two comprehensions split a table's events by kind, keeping their order |
| Warehousing.MaxLsn | src/snowflake_sink.py:340 | the loop computes the specified maximum, falling back to the change LSN where the commit LSN is 0 |
| Warehousing.SnowflakeSink.constructor | src/snowflake_sink.py:206-212 | a new sink has accepted nothing, and counts its interval from the clock |
| Warehousing.SnowflakeSink.MergeCurrent | src/snowflake_sink.py:380-388 | executes exactly the specified MERGE, or a first part of it |
| Warehousing.SnowflakeSink.DeleteCurrent | src/snowflake_sink.py:396-401 | executes the specified DELETEs in order, stopping at the first failure |
| Warehousing.SnowflakeSink.InsertHistory | src/snowflake_sink.py:404-428 | executes exactly the specified history INSERT, or a first part of it |
| Warehousing.SnowflakeSink.WriteTable | src/snowflake_sink.py:361-373 | MERGE, then DELETEs, then history, and success means that all took effect |
| Warehousing.SnowflakeSink.GroupByTable | src/snowflake_sink.py:357-359 | the grouping keeps first-seen table order and each table's events in order |
| Warehousing.SnowflakeSink.WriteTables | src/snowflake_sink.py:361-373 | the loop over the tables executes their statements one table after the other, stopping at the first failure |
| Warehousing.SnowflakeSink.WriteBatch | src/snowflake_sink.py:352-378 | what reached the warehouse is a first part of the batch's program, all of it on success |
| Warehousing.SnowflakeSink.WriteWithRetries | src/snowflake_sink.py:312-334 | the retry loop makes at most the configured attempts, stops one exactly for each failure of the warehouse, sleeps the doubling waits between them, and succeeds only with a complete write; with no attempts to make it succeeds having written nothing |
| Warehousing.SnowflakeSink.Flush | src/snowflake_sink.py:299-350 | returns the watermark of a completely written batch and restarts the interval, returns None for an empty buffer, or raises, after as many failures of the warehouse as there are retries, keeping the buffer; one doubling sleep after each failure but a last |
| Warehousing.SnowflakeSink.Publish | src/snowflake_sink.py:224-241 | skips unmapped tables, buffers the normalised event, and flushes exactly when the batch is full or the interval since the last flush is over; only a flush that succeeds restarts the interval |
| Utf8.TextInverts | src/pgoutput_parser.py:59 | every text, of any characters, comes back from its UTF-8 bytes |
| Utf8.BytesInvert | src/pgoutput_parser.py:59 | every valid byte string is the encoding of the text that it decodes to |
| Utf8.ValidBytesApart | src/pgoutput_parser.py:59 | two different valid byte strings never decode alike |
| Utf8.AsciiText | src/pgoutput_parser.py:59 | ASCII text is encoded byte by byte: as many bytes, each the code of its character |
| Utf8.InvalidBytesShow | src/pgoutput_parser.py:84 | bytes that are not UTF-8 decode to a text with a replacement character |
| Utf8.BadWidthIsLongest | src/pgoutput_parser.py:84 | one replacement character stands for the longest start of a well-formed sequence, and for one byte where there is none |
| Wire.CStringInverts | src/pgoutput_parser.py:50-59 | reading a NUL-terminated UTF-8 string gives it back with exactly its end offset |
| Codec.ColumnInverts | src/pgoutput_parser.py:71-84 | one encoded column, of any kind, reads back as its value and its end offset |
| Codec.TupleInverts | src/pgoutput_parser.py:62-86 | an encoded tuple followed by any tail reads back as that tuple and exactly its end offset |
| Codec.RelationInverts | src/pgoutput_parser.py:141-162 | an encoded Relation message reads back as the relation it defines |
| Codec.BeginInverts | src/pgoutput_parser.py:133-139 | an encoded Begin message sets exactly the commit LSN and the commit time |
| Codec.InsertInverts | src/pgoutput_parser.py:164-170 | an encoded Insert decodes to the event it denotes |
| Codec.UpdateInverts | src/pgoutput_parser.py:172-192 | an encoded Update decodes to the event it denotes, with or without an old tuple before the new one |
| Codec.DeleteInverts | src/pgoutput_parser.py:194-207 | an encoded Delete decodes to the event it denotes |
| Codec.ParseInverts | src/pgoutput_parser.py:98-127 | parsing any well-formed encoded message does to the state exactly what the message denotes |
| Decoding.PgOutputParser.constructor | src/pgoutput_parser.py:93-96 | a new parser knows no relation and no transaction |
| Decoding.PgOutputParser.ReadColumnAt | src/pgoutput_parser.py:71-84 | the body of the loop over the columns reads one column of any kind, or raises, on any bytes |
| Decoding.PgOutputParser.ReadTupleAt | src/pgoutput_parser.py:62-86 | the loop over the columns computes the specified row and offset, or raises, on any bytes |
| Decoding.PgOutputParser.HandleBeginMessage | src/pgoutput_parser.py:133-139 | the assignments in their order, so a short message may set the LSN and not the time |
| Decoding.PgOutputParser.ReadColumnList | src/pgoutput_parser.py:151-158 | the loop over the column descriptions computes the specified list, or raises |
| Decoding.PgOutputParser.HandleRelationMessage | src/pgoutput_parser.py:141-162 | the cache changes only after the whole message was read |
| Decoding.PgOutputParser.HandleInsertMessage | src/pgoutput_parser.py:164-170 | the handler's reply on any bytes |
| Decoding.PgOutputParser.HandleUpdateMessage | src/pgoutput_parser.py:172-192 | the handler's reply on any bytes, old tuple read before new |
| Decoding.PgOutputParser.HandleDeleteMessage | src/pgoutput_parser.py:194-207 | the handler's reply on any bytes |
| Decoding.PgOutputParser.ParseMessage | src/pgoutput_parser.py:98-127 | the dispatcher's reply and new state on any bytes |
| Stream.StreamInverts | src/pgoutput_parser.py:89-127 | for any well-formed stream of messages, decoding its encoding gives the same events in the same order |
| Stream.EncodedIsClean | src/pgoutput_parser.py:120-127 | no message of an encoded stream raises |
| Stream.ParseChanges | src/pgoutput_parser.py:133-162 | one message of any bytes changes the relations only if it is a fully parsed Relation message and only at its OID, and the context only as far as a Begin's bytes reach |
| Stream.StateIsLatest | src/pgoutput_parser.py:93-162 | after any byte stream the cache and the context are exactly those of the latest message of each kind |
| Stream.EventReportsState | src/pgoutput_parser.py:164-226 | an event comes only from a change message of a known relation, its rows are exactly the tuples of that message read with that relation's columns, and it reports the current context |
| Stream.EventCarriesLatest | src/pgoutput_parser.py:164-226 | on any byte stream an event carries the name and the columns of the latest relation for its OID, exactly the rows read with them, and the LSN and time of the latest Begin that held them |
| Stream.UncaughtIsBadTimestamp | src/pgoutput_parser.py:120-139 | an exception escapes `parse` if and only if a Begin holds a timestamp outside Python's range |
| Texts.InsertOfTexts | src/pgoutput_parser.py:141-170 | after any state, a table announced under any names and an insert of any NULLs, texts and raw bytes give an event with exactly that schema, table, column names and values |
| Texts.ExtraColumnName | src/pgoutput_parser.py:73 | a value beyond the relation's columns goes under `col_` and its position in decimal |
| Texts.IntegersAreBigEndian | src/pgoutput_parser.py:66-83 | 16-, 32- and 64-bit integers are read most significant byte first |
| Texts.RelationOnTheWire | src/pgoutput_parser.py:141-162 | the bytes of one Relation message, written out, define its relation |
| Texts.InsertOnTheWire | src/pgoutput_parser.py:164-170 | the bytes of one Insert, written out, give its event |
| Texts.UpdateOnTheWire | src/pgoutput_parser.py:172-192 | the bytes of one Update with the old key and an unchanged TOAST column, written out, give its event |
| Texts.DeleteOnTheWire | src/pgoutput_parser.py:194-207 | the bytes of one Delete with the whole old row, written out, give its event |
| Texts.BeginOnTheWire | src/pgoutput_parser.py:133-139 | the bytes of one Begin, written out, set its commit LSN and its time |
| Texts.TimesAreTheCalendars | src/pgoutput_parser.py:133-139 | the epoch and the range of commit times are those of the Gregorian calendar |
| Pipeline.BackoffGrows | src/main.py:182 | the reconnect delay never shrinks with the attempt count and stays below the cap |
| Pipeline.BackoffDoubles | src/main.py:182 | the delay is half the base for attempt 0, the base for attempt 1, twice the one before up to attempt 7 and the same from then on, all cut at the cap |
| Pipeline.NextConserves | src/main.py:97-187 | every step keeps conservation and keeps the parser that of the current session |
| Pipeline.NextExits | src/main.py:113-164 | every step keeps polls well accounted: completed, running, or left early as the last of their session |
| Pipeline.NextDelays | src/main.py:99-184 | every step keeps each delay of a streak that of its attempt, non-decreasing and capped |
| Runs.ReachableKeeps | src/main.py:97-187 | conservation, the parser in step with its session, the accounting of polls and the delay bounds hold in every reachable state |
| Runs.NothingLostOrDoubled | src/main.py:97-164 | in every reachable state the confirmed batches followed by the buffer are exactly the mapped events decoded so far, in WAL order |
| Runs.StrikesAreRaises | src/snowflake_sink.py:325-334 | the sink's count is the number of publishes that raised since the last confirmed batch, counted along the run |
| Runs.BufferIsBounded | src/snowflake_sink.py:236-241 | the buffer never exceeds the batch size - 1 plus the publishes that raised since the last confirmed batch |
| Runs.DelaysGrowToCap | src/main.py:99-184 | over a streak of failed connects the delays never decrease and stay below `BACKOFF_MAX` |
| Runs.SleepsDouble | src/main.py:99-184 | in every run a first failed connect sleeps the base, a failure inside a session half of it, and each later failed connect twice as long up to the seventh and no longer after it, none above the cap |
| Runs.OneRowPerKey | README.md:78-81 | in every reachable state each current table that started with one row per key has one row per key |
| Runs.TableInAnyState | src/snowflake_sink.py:299-350 | in every reachable state, between flushes or not, each key that the buffer neither upserts nor deletes holds the replay of the confirmed log, and each other key one of the rows that stopped attempts may have made of it |
| Runs.ConsumedSplits | src/pg_replication.py:259-294 | a session has processed what it consumed, except exactly the tail of its last poll, and how that poll ended says whether there is one |
| Runs.UnprocessedIsOneTail | src/main.py:127-153 | in every reachable state that is all that is unprocessed: a tail after every poll left by shutdown or failed itself, after a raising publish or an unrepresentable timestamp exactly if messages followed, and after no completed poll |
| Runs.ExitsHaveCauses | src/main.py:113-184 | each mark of a poll (completed, left by shutdown, publish or parse, failed) comes only from the step of that kind |
| Runs.ShutdownCanDropMessages | src/main.py:127-129 | for every non-empty poll there is a run that stops cleanly with all of it consumed and none decoded |
| Runs.WatermarksGrow | src/snowflake_sink.py:336-350 | the values returned by successive flushes never decrease |
| Runs.BelowWatermarkIsDurable | src/snowflake_sink.py:336-350 | every event with a strictly smaller commit LSN is in a confirmed batch by then |
| Runs.WatermarkIsSafe | src/snowflake_sink.py:9-13 | in every reachable state in which no tail was dropped, watermarks never go back and every consumed event strictly below one is durable |
| Runs.WhatWasDecoded | src/main.py:127-153 | in every reachable state each session has decoded exactly a first part of what the slot handed it, the rest is what its last poll left over, and with nothing left over that part is everything |
| Runs.DecodedIsMeant | src/main.py:127-137 | the events decoded over all sessions are those the decoded streams denote |
| Runs.DecodedToTables | src/main.py:97-187 | between flushes each current table is the in-order replay of the decoded messages, up to the events still in the buffer, whatever tails were dropped |
| Runs.WalToTables | src/main.py:97-187 | from bytes to tables: if no tail was dropped, that is the replay of everything the slot handed out, through any reconnects, retries and re-batching |
| Runs.DecodedMirrorsSource | src/main.py:97-187 | between flushes the current table holds exactly the source's rows after some first decoded messages, and the rest of them are the buffer, if none breaks the mirror |
| Runs.WalMirrorsSource | src/main.py:97-187 | if no tail was dropped and no message breaks the mirror, between flushes the current table holds exactly the source's rows up to the buffered changes; with an empty buffer, exactly what the source holds |
| Runs.WalToHistory | src/snowflake_sink.py:16-20 | if no tail was dropped, deduplicating a history table by LSN gives exactly the history row of each event the slot handed out, up to the buffer, if and only if the LSNs are distinct |
| Restarts.CrashSplitsLog | src/main.py:187 | in any reachable state the messages a process has consumed are those of its confirmed batches and of its buffer, and the tails its sessions left over |
| Restarts.CrashCanDropMessages | src/snowflake_sink.py:14-15 | for every non-empty poll there is a run that consumes it and dies with none of it durable |
| Restarts.CrashCanKeepBuffer | src/snowflake_sink.py:14-16 | a process between polls can also go on to write its whole buffer, be told that this failed, and die with nothing more confirmed |
| Restarts.RestartsKeepKeysUnique | src/snowflake_sink.py:156-187 | one row per primary key survives crashes anywhere and any number of restarts |
| Restarts.RestartsMayHold | src/snowflake_sink.py:14-16 | wherever the processes died, in the middle of a write too, a key holds what replaying each life's confirmed events and one of the outcomes of its stopped attempts, life after life, can leave |
| Restarts.RestartsReplayDurable | src/snowflake_sink.py:14-16 | each key that no process's last buffer touches holds the replay of the confirmed batches of all lives |
| Restarts.SettledRestartsReplay | src/snowflake_sink.py:14-16 | if every process died between flushes, whole tables are that replay |
| Restarts.RestartsHistory | src/snowflake_sink.py:16-20 | over any lives a history table gets the rows of the confirmed events and those a stopped attempt had inserted for a last buffer, and no others |
| Service.CdcService.constructor | src/main.py:51-55 | the service starts in the machine's initial state, over one sink |
| Service.CdcService.MaybeSignal | src/main.py:58-65 | a signal sets the flag and is one step of the machine |
| Service.CdcService.HandleMessage | src/main.py:131-153 | parse, filter and publish of one message make exactly the machine's step for its outcome, and add that one state to the run so far |
| Service.CdcService.NextMessage | src/main.py:127-153 | one turn of that loop: it is left by the flag, or handles the next message |
| Service.CdcService.DrainPoll | src/main.py:127-153 | the loop over one poll extends the run so far, over the same warehouse contents; it has handled every message, or was left by the flag before one, or by a publish or the parser that raised |
| Service.CdcService.PollOnce | src/main.py:113-153 | by the answer of the slot: a poll that fails or holds an unreadable LSN is given up and backed off from; an empty answer is a flush and the same connection goes on; any other is a poll of exactly its messages, drained |
| Service.RowMessagesMean | src/main.py:115-131 | the messages of an answer have the payloads of its rows and the LSNs that the cells stand for |
| Service.CdcService.FlushBetweenPolls | src/main.py:118-122 | a flush outside the message loop confirms the buffer and goes on, or gives up, after as many failures of the warehouse as there are retries, and backs off |
| Service.CdcService.Session | src/main.py:107-164 | a connection's life: its polls one after the other, each as its answer says, until one raises, a signal has arrived or all rounds are made, and after a signal the flush that leaves it |
| Service.CdcService.Connection | src/main.py:98-111 | an attempt to connect, with a fresh parser and the same sink: one that fails backs off, one that opens is a session |
| Service.CdcService.Run | src/main.py:97-188 | the whole service extends the run so far, over the same warehouse contents; without a signal it makes all its connections, and after one it is stopped |
| Service.Serve | src/main.py:51-188 | from a new sink to the end of the service: what it has done to the warehouse is what a run of the machine does from the contents it found, and every table found with one row per key still has one row per key |
| Lsn.OrIsPlus | src/pg_replication.py:172 | or-ing a number below 2 ** n into one shifted by n adds it |
| Lsn.PairValue | src/pg_replication.py:169-172 | reading `hi/lo` gives hi * 2 ** 32 + lo when lo is below 2 ** 32 |
| Lsn.RoundTrip | src/pg_replication.py:169-177 | reading a printed LSN returns it, for every non-negative integer |
| Lsn.ReadingKeepsOrder | src/pg_replication.py:169-172 | reading keeps the order of LSNs |
| Lsn.PairValueIffDisjoint | src/pg_replication.py:169-172 | for any hi and lo, reading `hi/lo` gives hi * 2 ** 32 + lo exactly when hi has no bit in common with lo above lo's 32 bits |
| Lsn.ReadIsHalves | src/pg_replication.py:169-172 | text is read exactly if it is two non-empty hexadecimal halves with one slash between |
| Lsn.HalvesRead | src/pg_replication.py:169-172 | two halves, digit by digit in either case, are read as hi * 2 ** 32 + lo |
| Lsn.PrintedMeans | src/pg_replication.py:175-177 | the printed form of a number stands for that number |
| Lsn.PrintedShape | src/pg_replication.py:175-177 | it is the upper-case digits of the high half without leading zeros, a slash, and exactly eight of the low half |
| Lsn.PollChanges | src/pg_replication.py:290-294 | the loop returns every row, in slot order, with the number that its cell stands for, digit by digit, or raises exactly if one text is not two hexadecimal halves |
| Backfill.AboveIsTail | scripts/backfill.py:194-198 | the rows above a checkpoint are exactly those after the rows it covers |
| Backfill.TargetAfterRun | scripts/backfill.py:177-224 | what the target holds after a run that stops anywhere |
| Backfill.StopKeepsProgress | scripts/backfill.py:246-254 | a run that stops anywhere leaves a state from which the next one goes on, with its page in flight as the only extra |
| Backfill.CompletedLoad | scripts/backfill.py:177-224 | after any stops, a run to the end leaves every source row once plus exactly the rows in flight at those stops |
| Backfill.CleanStopsIffNoExtras | scripts/backfill.py:181-183 | there are no extra rows if and only if every stop was at a checkpoint or before the first one |
| Backfill.ResumeCanDuplicate | scripts/backfill.py:181-183 | two runs, the first stopped inside its second page, load a row twice, for every two-row source |
| BackfillJobs.PageIsNext | scripts/backfill.py:194-200 | each page is the next rows of the source, full unless it reaches its end, and is empty only there |
| BackfillJobs.InsertBinds | scripts/backfill.py:155-172 | one multi-row INSERT binds exactly the rows of its batch, column by column |
| Fidelity.LoadedHolds | scripts/backfill.py:86-94 | a loaded row holds its source row: each value as it is, every document as its dumped text |
| BackfillJobs.BackfillJob.constructor | scripts/backfill.py:139-145 | a first run starts with checkpoint 0 and no earlier stop for every table, and none done |
| BackfillJobs.BackfillJob.InsertPage | scripts/backfill.py:202-211 | INSERTs of full batches but the last append the first rows of the page, all of them unless one fails |
| BackfillJobs.BackfillJob.SaveCheckpoint | scripts/backfill.py:148-150 | a write that raises leaves the file as it was, torn, or with its new content, and nothing makes a torn file readable again |
| BackfillJobs.BackfillJob.EmptyIfFresh | scripts/backfill.py:189-191 | the table is truncated only on a fresh start |
| BackfillJobs.BackfillJob.LoadPage | scripts/backfill.py:202-219 | a page is loaded and then checkpointed, or the run stops with part of it loaded, or with all of it and its checkpoint written although the write raised |
| BackfillJobs.BackfillJob.BackfillTable | scripts/backfill.py:177-224 | from any checkpoint the loop appends the source from there on, wherever it stops |
| BackfillJobs.BackfillJob.RunTable | scripts/backfill.py:240-254 | the table is loaded from its checkpoint to the end and its stops are as before, or exactly one stop is added that says where this run ended; no other table changes |
| BackfillJobs.BackfillJob.RunScript | scripts/backfill.py:229-257 | one run finishes listed tables in order and adds at most one stop, in the next one; every other table, checkpoint and stop is as before; it completes exactly if nothing has failed, with all listed tables done and no stop added; with a torn checkpoint file it touches nothing |
| BackfillJobs.LoadsOnceIffCleanStops | scripts/backfill.py:181-183 | a completely loaded table has every source row exactly once if and only if each earlier stop was clean |
| BackfillJobs.StoppedRunsLoadAtLeastOnce | scripts/backfill.py:17-19 | wherever runs stopped a completely loaded table misses no row, and every extra copy comes from a page in flight at a stop |
| BackfillJobs.LoadAll | scripts/backfill.py:12-19 | started again until it completes, the script misses no row of a listed table; if the first start completes every row is there exactly once, and each further start adds at most one page of copies to a table; tables that are not listed stay as they were |
| Paging.MissedRows | scripts/backfill.py:193-213 | for ids that may repeat, the rows never loaded from a checkpoint on are exactly those it covers and those that a page cuts off from an earlier row with the same id |
| Paging.UniqueIdsMissNone | scripts/backfill.py:193-213 | with positive unique ids every row is loaded |
| Paging.RepeatedIdIsMissed | scripts/backfill.py:193-213 | of two rows with one id, a row a page, the second is never loaded |
| Reconcile.ChunkSizes | scripts/reconcile.py:70-76 | the chunks are all rows in order, and every chunk but the last is full |
| Reconcile.ChunksAt | scripts/reconcile.py:70-80 | in chunks of any size each selected row is merged once and every other key is left alone |
| Reconcile.ChunksAreOneMerge | scripts/reconcile.py:66-84 | the chunked MERGEs leave the table that one MERGE of all selected rows leaves |
| Reconcile.TargetAgrees | scripts/reconcile.py:56-84 | afterwards the target agrees with the source on every selected key and is unchanged on all others |
| Fidelity.ReconciledHolds | scripts/reconcile.py:56-84 | under the key of a selected row every row of the target then has that row's values, column by column |
| Reconcile.StoppedAfterRows | scripts/reconcile.py:70-80 | a script that stopped has reconciled exactly some first rows |
| Reconcile.RerunRepairs | scripts/reconcile.py:56-84 | running it again after it stopped anywhere leaves what one clean run leaves |
| Reconcile.MergeChunk | scripts/reconcile.py:74-78 | executes exactly the MERGE of the fetched chunk |
| Reconcile.ReconcileTable | scripts/reconcile.py:66-84 | the loop executes the MERGEs of successive chunks, all of them on success, and counts every row |

## Left out

- Service.CdcService.Run: the two loops run at most `connects` connections of at most `rounds` polls each; both numbers are arbitrary, and `Runs` has no bound.
- Stream.EventCarriesLatest: claims nothing about the values of a truncated last column, which the code cuts short silently and the model cuts short too.
- Lsn.PairValue: Python's `int(text, 16)` also accepts signs, underscores, spaces and `0x`; the model reads plain hexadecimal digits.
- HistoryTables.DedupByLsnRecoversLog: `_LOADED_AT` is not modelled, so any copy may be the one kept; timestamps are exact microseconds where the code goes through floating-point milliseconds and text.
- Columns.RenameIdempotent: only ASCII letters change case; Python's `upper()` also changes other letters and can make two names one (`straße`, `strasse`), so nothing is claimed of names outside ASCII.
- Databases, drivers, credentials, Key Vault, publication and slot set-up, termination of stale backends: only "a statement takes effect or fails" and "the slot hands out messages and forgets them" remain.
- SQL text and quoting: statements are structured data with placeholders. A statement that names a missing column is one that fails.
- JSON encoding, PARSE_JSON and Snowflake's casting: values are opaque once bound.
- `advance_slot`: the service never calls it, and discards the watermark; only the returned watermark is modelled.
- Clocks, signals, failures and the contents of polls are arbitrary values chosen at each step.
- KeyboardInterrupt (`src/main.py:166-168`): SIGINT has a handler, so it does not arise from a signal.
- `src/monitoring.py`, `src/health.py`, `src/sync_check.py`, logging and metrics: no effect on what is written.
- Truncating a partition of a table that is published through its root: PostgreSQL sends no message for it.
- A torn checkpoint file is left to the operator: the model's script does not go on until it is repaired.
- Changes of the source while the backfill or the reconcile reads it.
