# Alarm bridge: a verified model

The service receives alarm samples, batches them, writes them to MySQL history tables by tag prefix, spills
to a local store when an insert fails and replays from it later. Beside that path stand a realtime status
table, monthly archives, daily statistics, an inbox for WCS events, the scanner of status-map texts, a
metadata index and an import script. This project models these parts in Dafny and proves what they keep over
all inputs and all runs. `dafny verify dfyconfig.toml` checks everything.

## How the parts are modelled

- **Sink.** `SinkMachine` is a machine of single statements (one INSERT of a group, one write, removal or
  flush of the store) with crash and abort as steps; an INSERT of a group is atomic. `SinkWorkerSpec` says
  what the worker's functions do with given failures, `SinkWorkerRuns` shows that each is a run of the
  machine, and the classes of `SinkService` and `Buffer` are proved equal to it. Failures are inputs: the set
  of tables that are down, those of them whose INSERT took effect all the same, how many store operations
  succeed before one fails, and how many entries can be read.
- **Realtime table.** The `ON DUPLICATE KEY UPDATE` clauses are programs of a small language with SQL NULLs,
  run left to right. The spliced condition of `fault_count` is parsed with SQL precedence, once as written
  (`A OR (B AND C AND D)`) and once as meant (`(A OR B) AND C AND D`).
- **History.** Tables are maps from id to row. The archive procedure is a class whose statements fail at any
  point (`fault` counts the statements before the failing one); queries and statistics are compared with one
  logical table.
- **WCS inbox.** `WcsInbox` interleaves any number of connections, one statement a step; `WcsProcedures` are
  the three stored procedures, each proved to be a run of that machine. `WcsArchive` runs the machine beside
  the archive. The catalogue lookups use three-valued logic.
- **Texts and import.** The scanner, the metadata index and the importer are loops proved against functions,
  and the functions against independent statements.
- **Told without the functions.** `Routing`, `FaultFlags`, `HistoryAnswers`, `RealtimeColumns`, `DailyCounts` and
  `WcsEvents` say what the parts yield in terms of the columns and characters of their inputs alone, and are
  proved of the functions.

## What was found

- `fault_count` as written exceeds the edge count by exactly one for a row that was seeded and whose first
  sample is no fault, and agrees otherwise (`RealtimeConvergence.AsWrittenAgreesExactly`).
- Replay is at least once, not exactly once. Samples received once each are in one place at every moment of a
  run if and only if no INSERT that took effect is reported as failed, as when its reply is lost, and no crash
  and no abort meets a waiting sample, an inserted entry not removed yet, an unflushed entry that goes or an
  unflushed removal (`SinkLedger.ExactlyOnceExactly`). Without crashes and aborts the lost replies alone decide
  (`SinkLedger.LostRepliesExactly`). A later crash or abort can undo a repetition, so looking only at the end or
  only between calls does not tell (`SinkLedger.CrashCanUndo`, `SinkLedger.AbortCanUndo`).
- Replay stands still as long as the oldest `batch_size` entries all belong to tables that are down
  (`SinkReplay.HeadOfLineBlocks`).
- A failing realtime upsert is swallowed, so a realtime row can stay behind its history, exactly when the upsert
  of the newest row did not come through (`RealtimeHistory.AgreesWithHistoryExactly`).
- The status-map round trip holds for every map exactly when the prefix offers the scanner no code of its own
  (`StatusMap.RoundTripExactly`), which `StatusMap.QuietExactly` puts as a condition on its characters.
- The hot table is queried only when the caller's current month is a first of a month
  (`HistoryTables.HotTableSelected`). An OFFSET without a LIMIT does not parse, so such a query has no answer.
- While the archiving of a month is broken off, its rows can be returned twice or not at all
  (`HistoryQuery.ReturnedOnceExactly`), and a pass that stopped right after creating the month's table hides
  the month from the statistics (`DailyStats.EmptyArchiveHidesTheDay`).
- Archiving loses a row exactly when a row of the month meets a different row of the same id in the month
  table (`HistoryRows.ArchivingKeepsAllExactly`).
- Five attempts are the limit if and only if there is at most one batch runner and nobody calls the procedure
  directly, as writing an event does. In general the exact limit of an event is four and one for each runner, if
  there is any, and one for each direct call (`WcsLimits`).
- An event is stuck in `processing` exactly when a call of it ended without its handler taking effect: the
  connection was lost, or the handler's own UPDATE failed (`WcsRuns.AttemptsEnd`).
- The monthly archive takes the rows of processed events out of the tables their mappings name, and nothing
  updates the mappings; the rows are then in the archive of their month (`WcsArchive.MappingLeadsExactly`).
- If the claiming UPDATE itself may fail, its handler takes `processed` back and lets a second connection in
  beside the holder; then a plain failure can take `processed` back too
  (`WcsClaims.FailureCanUndoProcessed`). Events whose claims do not fail keep one holder and stay processed.
- WCS events share a realtime row also when a slash merely divides device key and fault code elsewhere
  (`WcsCatalog.RealtimeRowsMeetExactly`).
- The `NOT IN` test on the WCS history table never fires; a NULL table name fails at the PREPARE.
- Prefixes without an ASCII letter or digit all share the empty safe name, so the imported subscriptions of
  two of them are rejected (`Importer.WithoutAsciiNameIsEmpty`).
- The importer and the service trim prefixes by different sets of characters, which matters exactly where
  `Importer.ImportedPointIsRouted` says.

## Model

| member | source | states |
|---|---|---|
| StatusMap.DigitRunEnd | src/types.rs:434-444 | the loop ends behind the longest run of ASCII digits from the start |
| StatusMap.ScanSegment | src/types.rs:402-429 | the inner loop terminates and returns the first label the segment gives for the code |
| StatusMap.DescriptionLabelForCode | src/types.rs:400-432 | the loop over segments returns the label of the first segment that has one |
| StatusMap.RoundTrip | src/types.rs:400-432 | looking a code up in a printed map gives the first label listed for it and nothing for other codes, for every quiet prefix |
| StatusMap.LoudPrefixFails | src/types.rs:412-428 | a prefix that offers a code of its own makes some printed map answer wrongly |
| StatusMap.RoundTripExactly | src/types.rs:400-464 | the round trip holds for all maps and codes if and only if the prefix is quiet |
| StatusMap.QuietFrom | src/types.rs:446-459 | a prefix in which no digit comes, over blanks, before a delimiter is quiet |
| StatusMap.QuietExactly | src/types.rs:402-429 | a prefix is quiet if and only if every delimiter of it, and the colon after it, that stands behind a digit stands behind one the scanner steps over: a digit after blanks after a digit not stepped over |
| StatusMap.RoundTripByCharacters | src/types.rs:400-464 | the round trip holds for all maps and codes if and only if the characters of the prefix meet that condition |
| StatusMap.AnyMarksRead | src/types.rs:400-464 | an entry with any of the four delimiters, whitespace before it, marks around its label and a semicolon of either width behind it is read as that label |
| Samples.FscFollowsItsMap | src/types.rs:192-258 | the fault flag and remark of an FSC point follow the first label its printed map lists for its code; without one they follow the raw value |
| FaultFlags.FlagExactly | src/types.rs:192-208 | the fault flag of every sample: that of the label its description lists for its code, if it is an FSC point with one, and otherwise 1 exactly for true, a number other than zero and a text that is neither false nor zero nor blank |
| FaultFlags.StateExactly | src/types.rs:210-221 | `tag_state` is the value as it is printed |
| FaultFlags.RemarkExactly | src/types.rs:241-258 | the remark of every sample: the text before the first colon and the label, or the description, or for a blank one the tag |
| Routing.TableExactly | src/sink.rs:266-272 | a sample belongs in the table of the route named by the trimmed text before the first dot of its tag, and in the default table exactly when no route is named so; the tag is what stands behind the first `;s=` of the node id, or the alias |
| Routing.RowsWhereTheyBelong | src/sink.rs:266-272 | after every run of the sink each history row is in that table |
| Decimal.PadInjective | src/history.rs:36 | zero-padded numerals of different numbers differ |
| Text.WhitespaceIs | src/types.rs:171-176 | what the service trims are the 25 characters of the Unicode property White_Space |
| Text.PyWhitespaceIs | scripts/import_opcua_alarm_points.py:144-148 | the import script strips four control characters more |
| Grouping.GroupByKey | src/sink.rs:435-461 | the grouping loop yields a stable partition: keys ascending, each group the items of its key in order |
| Grouping.CollectIsPartition | src/sink.rs:435-461 | every key has exactly one, non-empty group, holding its items in order |
| Grouping.CollectFlatten | src/sink.rs:435-461 | grouping loses and invents no item |
| Buffer.KeyOrder | src/buffer.rs:50 | big-endian key bytes compare as the ids do, so key order is age |
| Buffer.InsertPuts | src/buffer.rs:43-56 | a write to the ordered map leaves the new record and the others under their keys |
| Buffer.RemoveTakes | src/buffer.rs:74-79 | a removal takes away the record of its key and no other |
| Buffer.SampleBuffer.PushMany | src/buffer.rs:43-56 | the samples are appended under increasing ids; after a failing write those before it stay |
| Buffer.SampleBuffer.DrainBatch | src/buffer.rs:58-72 | the oldest `limit` entries, in order, or an error when one of them cannot be read; the store is unchanged |
| Buffer.SampleBuffer.Ack | src/buffer.rs:74-79 | exactly the given entries are removed, up to a failing removal |
| Buffer.SampleBuffer.Flush | src/buffer.rs:89-92 | everything the process sees is on disk, or the flush fails and the disk is as before |
| Buffer.WithoutAllMembers | src/buffer.rs:74-79 | an entry stays exactly when its id was not removed |
| SinkMachine.StepKeeps | src/sink.rs:567-717 | every statement, also an INSERT that took effect and was reported as failed, abort and crash keeps routing, order of ids, and that removed entries are in their table |
| SinkMachine.RunKeeps | src/sink.rs:567-717 | so does every run |
| SinkTheorems.Conservation | src/sink.rs:567-711 | after every run, with failing inserts, aborts, crashes and restarts, the samples received and those written twice are those pending, buffered, inserted and lost, each as often, and every row is in its routed table (`Routing.TableExactly` says which); without crash and abort nothing is lost, and nothing is written twice if no INSERT that took effect was reported as failed |
| SinkTheorems.LeavesOnlyInserted | src/sink.rs:687-698 | between crashes an entry leaves the store only by an acknowledgement after its insert |
| SinkTheorems.AtLeastOnce | src/sink.rs:681-717 | an entry once on disk is, after any further steps and crashes, still on disk or in its table |
| SinkTheorems.UnflushedWriteMayStay | src/buffer.rs:43-56 | an entry not flushed yet may or may not be there after a crash |
| SinkTheorems.UnflushedRemovalMayStay | src/buffer.rs:74-79 | so may an entry whose removal is not flushed yet |
| SinkTheorems.CrashCanDuplicate | src/sink.rs:687-697 | a crash between insert and acknowledgement leads to a second insert |
| SinkTheorems.DuplicateFromStart | src/sink.rs:567-717 | a whole run from the start that receives one sample and ends with two rows because of such a crash |
| SinkTheorems.LostReplyDuplicates | src/sink.rs:634-648 | a run without crash and abort that ends with two rows, because the reply of the INSERT was lost |
| SinkLedger.BookedBy | src/sink.rs:567-717 | what each crash, abort and INSERT reported as failed adds to the lost and to the twice written samples; no other step adds any |
| SinkLedger.MeetsExactly | src/sink.rs:567-717 | a step loses or repeats something if and only if it is an INSERT that took effect and was reported as failed, or a crash or abort that meets a waiting sample, an inserted entry not removed, an unflushed entry that goes or an unflushed removal |
| SinkLedger.ConservedAtEndExactly | src/sink.rs:567-717 | after any run every sample is there exactly once if and only if as many of each were lost as were written twice |
| SinkLedger.LostRepliesExactly | src/sink.rs:624-711 | after a run without crash and abort the samples received are those waiting, buffered and inserted if and only if no INSERT that took effect was reported as failed |
| SinkLedger.ConservedThroughoutExactly | src/sink.rs:567-717 | every sample is in exactly one place at every moment of a run if and only if each step lost just what it repeated |
| SinkLedger.ExactlyOnceExactly | src/sink.rs:567-717 | for samples received once each: in one place at every moment, if and only if no INSERT that took effect was reported as failed and no crash and no abort met anything |
| SinkLedger.CrashCanUndo | src/sink.rs:646-711 | at the end alone this fails: a run whose abort leaves an inserted entry behind and whose crash takes it away again |
| SinkLedger.AbortCanUndo | src/sink.rs:634-648 | between calls alone it fails too: an INSERT reported as failed, and an abort before its sample is buffered |
| SinkLedger.DuplicateIsMet | src/sink.rs:687-697 | the crash of `CrashCanDuplicate` meets an inserted entry and repeats just its sample |
| SinkWorkerRuns.RunReaches | src/sink.rs:567-622 | the whole `run` is a crash-free run of the machine, with no abort when it ends without error, and no INSERT reported as failed that took effect when the weather has none |
| SinkOutcomes.LoopTakes | src/sink.rs:583-609 | the select loop takes every sample and keeps fewer than `batch_size` waiting |
| SinkOutcomes.FullBatchExact | src/sink.rs:502-509 | a full batch of the select loop has exactly `batch_size` samples when that is at least 1 |
| SinkOutcomes.DrainBatchExact | src/sink.rs:611-615 | so has a full batch of the drain after shutdown, which leaves fewer for the last flush |
| SinkOutcomes.ShutdownDrains | src/sink.rs:611-621 | when `run` ends without error the builder is empty, the store is on disk, and the samples received or queued and those written twice are in history or in the store; none is written twice if no failing INSERT took effect |
| SinkOutcomes.RestartIsSound | src/sink.rs:581 | a worker that starts on any left-over store meets the invariant |
| SinkReplay.FlushExactly | src/sink.rs:624-653 | each table's share of a batch goes, in order, to history when its INSERT takes effect and to the store when it is reported as failed |
| SinkReplay.FlushOkExactly | src/sink.rs:646-647 | a flush ends without error if and only if the store can do a write for each sample of a failing table and a flush for each such table |
| SinkReplay.ReplayRemovesExactly | src/sink.rs:681-711 | a replay removes exactly those of the oldest `batch_size` entries whose INSERT is reported as done |
| SinkReplay.ReplayLog | src/sink.rs:681-711 | within a table replayed entries are inserted oldest first, whether or not the INSERT is reported as failed |
| SinkReplay.ReplayOkExactly | src/sink.rs:681-717 | a replay ends without error if and only if the oldest entries can be read and the store can do a removal for each entry of an accepting table and a flush for each such table |
| SinkReplay.HeadOfLineBlocks | src/sink.rs:681-711 | a replay removes nothing from the store if and only if the oldest `batch_size` entries all belong to tables that are down |
| SinkReplay.ReplaysRemove | src/sink.rs:681-711 | after n replays with all tables up the oldest n * batch_size entries are gone, each table has its share in order |
| SinkReplay.BufferEmpties | src/sink.rs:681-711 | n entries are gone after ceil(n / batch_size) such replays |
| SinkService.BatchBuilder.Push | src/sink.rs:502-509 | the builder hands out everything as soon as it has `batch_size` samples |
| SinkService.BatchBuilder.Flush | src/sink.rs:511-513 | the rest is handed out and nothing waits |
| SinkService.SinkWorker.FlushNewSamples | src/sink.rs:624-653 | the loop over the groups has the specified outcome, with an INSERT that took effect although it failed, and an error of a write or of the flush of the store |
| SinkService.SinkWorker.ReplayBuffered | src/sink.rs:681-717 | the replay loop has the specified outcome, with an INSERT that took effect although it failed, and an error of reading, removing or flushing |
| SinkService.SinkWorker.SelectLoop | src/sink.rs:583-609 | the loop over samples and ticks has the specified outcome |
| SinkService.SinkWorker.DrainQueue | src/sink.rs:611-615 | the drain after shutdown has the specified outcome |
| SinkService.SinkWorker.RunWorker | src/sink.rs:567-622 | `run` from the first replay to the last flush has the specified outcome |
| RealtimeLanguage.OrderInvisible | src/sink.rs:102-116 | when no right-hand side reads an earlier target, left-to-right assignment equals simultaneous assignment |
| RealtimeLanguage.NullCompares | src/sink.rs:94-96 | a comparison with NULL is unknown |
| RealtimeUpsert.CountConditionShape | src/sink.rs:94-111 | the spliced text parses as `A OR (B AND C AND D)`, the intended one as `(A OR B) AND C AND D` |
| RealtimeUpsert.UpsertMeaning | src/sink.rs:102-116 | column by column, what an accepted or rejected sample does to an existing row; which columns these are is said by `RealtimeColumns.ColumnsShowLastWriter` |
| RealtimeUpsert.UpsertIsSimultaneous | src/sink.rs:102-116 | the clause equals one simultaneous update from the old row, although the guard of `updated_at` reads the replaced `last_fault_at` |
| RealtimeUpsert.ValueFirstNeverCounts | src/sink.rs:111-112 | with `tag_value` assigned before `fault_count` no edge would ever be counted |
| RealtimeUpsert.SeedMeaning | src/sink.rs:74-82 | a seed replaces its eight columns and nothing else |
| RealtimeUpsert.WcsLayoutValid | migrations/202605200001_add_realtime_fault_count.sql:234-251 | the column order of the WCS clause has the properties the theorems ask for |
| RealtimeUpsert.WcsMeaning | migrations/202605200001_add_realtime_fault_count.sql:233-252 | the WCS clause replaces every listed column and counts only edges |
| RealtimeConvergence.Convergence | src/sink.rs:86-118 | over every arrival order, with seeds anywhere, the row shows the last-arriving sample with the greatest timestamp |
| RealtimeConvergence.NewestExists | src/sink.rs:94 | every non-empty run has such a sample |
| RealtimeConvergence.FaultCountExact | src/sink.rs:94-111 | the count is the number of edges along the accepted samples, plus, as written, exactly one for a seeded row whose first sample is no fault |
| RealtimeConvergence.AsWrittenAgreesExactly | src/sink.rs:94-111 | written and intended count agree if and only if the row was not seeded or its first sample is a fault |
| RealtimeConvergence.RepeatExactly | src/sink.rs:86-118 | a sample that arrives again leaves what the row shows and counts as it was if and only if it is older than the sample shown or looks the same; and when it leaves the count alone, exactly |
| RealtimeConvergence.SinkClausesValid | src/sink.rs:102-116 | the column order of the two statements has the properties the theorems ask for; that no column is missing is `RealtimeColumns.ColumnsShowLastWriter` |
| RealtimeConvergence.WcsRowExact | migrations/202605200001_add_realtime_fault_count.sql:225-252 | a WCS row shows every column of the last statement, with any values and times, and counts the edges over all statements |
| RealtimeColumns.ColumnsShowLastWriter | src/sink.rs:74-116 | after every run of samples and seeds source system, location, device type, device id, alias, tag, fault type and description each hold what the last event that writes offered: the last sample none before it is newer than, or a later seed |
| RealtimeColumns.LastWriterExists | src/sink.rs:74-116 | every non-empty run has such an event |
| RealtimeColumns.EveryRowShowsLastWriter | src/sink.rs:393-431 | the same for every row of the table, over all chunks, replays and seeds |
| RealtimeColumns.UpdatedByLastTouch | src/sink.rs:116 | `updated_at` is the time of the last sample that wrote, or of a later seed that brought a new text |
| RealtimeColumns.SeededOnly | src/sink.rs:70-82 | a row without a sample has no status and counts no fault |
| RealtimeColumns.WcsColumnsShowLast | migrations/202605200001_add_realtime_fault_count.sql:225-252 | a WCS row holds in each of its columns but the count what the last statement offered, and its time in `updated_at` |
| RealtimeTable.RowIsItsOwnRun | migrations/202605180002_align_schema_comments_and_realtime.sql:113 | each row of the table is the run of its own key's events |
| RealtimeTable.LooseRows | src/sink.rs:393-431 | each write without a node id inserts a row of its own, in order |
| RealtimeTable.EveryRowConverges | src/sink.rs:393-431 | convergence and count of every row of the whole table |
| RealtimeTable.StatusTable.WriteChunked | src/sink.rs:402-429 | chunks of 500 up to the first failing statement are written, in order |
| RealtimeHistory.ShowsExactly | src/sink.rs:306-324 | whatever upserts fail, a row shows a history row if and only if the newest row whose upsert came through looks the same |
| RealtimeHistory.AgreesWithHistoryExactly | src/sink.rs:306-324 | after any run of the worker the realtime row of a point shows the newest row of its history if and only if the upsert of that row came through |
| Calendar.InMonth | src/history.rs:132-143 | a time is in a month exactly between the first instants of that month and the next |
| HistoryTables.ArchiveNameValid | src/history.rs:34-39 | a valid base table has an archive name exactly for years from 0 on |
| HistoryTables.ArchiveNamesDiffer | src/history.rs:34-39 | archive names are injective in year and month and differ from the base table |
| HistoryTables.SelectTables | src/history.rs:41-63 | the month loop terminates with the specified list or error |
| HistoryTables.SelectionExact | src/history.rs:41-63 | success if and only if the inputs are valid; the list is the months up to the current one, in order, without repeats, and `dedup` removes nothing |
| HistoryTables.SelectedMonths | src/history.rs:52-59 | a month is listed if and only if it overlaps the range and is not after the current one |
| HistoryTables.HotTableSelected | src/history.rs:53-55 | the hot table is read if and only if the given current month is a first of a month inside the range |
| HistoryQuery.CountExactly | src/history.rs:65-96 | how often the UNION ALL returns a row: once for its month's archive and once for the hot table when the range reaches the current month |
| HistoryQuery.ReturnedOnceExactly | src/history.rs:65-96 | a stored row is returned once unless its month's archiving was broken off; exactly when twice, exactly when never |
| HistoryQuery.CountsLikeLogical | src/history.rs:65-96 | with all past months archived each row is returned as often as from the one logical table |
| HistoryQuery.QueryRefines | src/history.rs:65-96 | then the database's answer is exactly the page of the logical table's rows in the order of `HistoryAnswers.AnswersExactly`; any other result is impossible |
| HistoryQuery.FilterSql | src/history.rs:98-116 | the text grows by one clause for each filter given, in the order of the columns |
| HistoryQuery.WhereMeans | src/history.rs:80-116 | the WHERE clause with its optional clauses, under three-valued logic, takes exactly the rows in the range whose filtered columns have the wanted value; NULL passes no filter |
| HistoryQuery.PagesTile | src/history.rs:118-130 | two adjacent LIMIT/OFFSET pages are the page over both |
| HistoryQuery.PagesAreAll | src/history.rs:118-130 | consecutive pages of n rows, up to the last row, are together what the query gives without LIMIT and OFFSET |
| HistoryQuery.PagesAreTheListing | src/history.rs:65-130 | the answers to the queries for consecutive pages of the physical tables are together every wanted row of the logical table once, newest first in the sense of `HistoryAnswers.PagesNewestFirst` |
| HistoryAnswers.AnswersExactly | src/history.rs:65-130 | with all past months archived a query is answered exactly with a page of the rows in its range whose filtered columns have the wanted values, later times first and equal times by descending id |
| HistoryAnswers.AnswersNewestFirst | src/history.rs:86-89 | whatever the tables hold, no row of an answer is older than a later one |
| HistoryAnswers.PagesNewestFirst | src/history.rs:86-130 | every row of a page is newer than every row of a later page |
| HistoryQuery.ArchivingKeepsLogical | migrations/202605180003_add_wcs_direct_write_compat.sql:552-627 | wherever an archive pass stops the tables store the same logical rows; a finished month is clear in the hot table |
| HistoryQuery.CallIsPassStep | migrations/202605180003_add_wcs_direct_write_compat.sql:501-630 | a call over all enabled sources, stopped anywhere, is such a pass for each of them |
| HistoryRuns.InsertKeepsStores | migrations/202605180003_add_wcs_direct_write_compat.sql:501-630 | a row inserted into the hot table under a fresh id is one more stored row |
| HistoryRuns.TakenByItsMonth | migrations/202605180003_add_wcs_direct_write_compat.sql:603-618 | only an archive pass over the row's own month takes a row out of the hot table, and then that month's table has it |
| HistoryRuns.FinishedTakes | migrations/202605180003_add_wcs_direct_write_compat.sql:603-618 | a pass that goes through takes every row of its month |
| HistoryRuns.ArchivedRunIsSettled | migrations/202605180003_add_wcs_direct_write_compat.sql:501-630 | after any run of inserts and stopped, retried and finished passes the tables store the inserted rows; queries see the logical table in every past month if and only if each has a finished pass after its last insert |
| HistoryRuns.InsertedRowsAreReturned | src/history.rs:65-96 | from empty tables on, after such a run a query is answered with exactly the page of all rows ever inserted that it wants |
| HistoryAnswers.InsertedRowsNewestFirst | src/history.rs:65-96 | after such a run the answer is the page, newest first, of the rows of the run's inserts that are asked for |
| HistoryRows.PartwayKeepsRows | migrations/202605180003_add_wcs_direct_write_compat.sql:574-618 | wherever a pass stops no row is lost and none invented |
| HistoryRows.PartwayOutsideUntouched | migrations/202605180003_add_wcs_direct_write_compat.sql:580-607 | rows outside the month are untouched |
| HistoryRows.PartwayRetries | migrations/202605180003_add_wcs_direct_write_compat.sql:574-618 | a rerun from wherever a pass stopped ends where an undisturbed pass ends |
| HistoryRows.ArchivingKeepsAllExactly | migrations/202605180003_add_wcs_direct_write_compat.sql:580-607 | a finished pass keeps every row if and only if equal ids mean equal rows in that month |
| HistoryRows.CountNeverLow | migrations/202605180003_add_wcs_direct_write_compat.sql:589-601 | given that, the target never counts fewer rows than the source |
| ArchiveProcedure.TargetIsArchiveName | migrations/202605180003_add_wcs_direct_write_compat.sql:556 | the procedure and the query builder give a month's table the same name |
| ArchiveProcedure.CleanIsUnique | migrations/202605180003_add_wcs_direct_write_compat.sql:501-630 | a call that goes through has only one outcome |
| ArchiveProcedure.RetryReachesTheSame | migrations/202605180003_add_wcs_direct_write_compat.sql:501-630 | from wherever a call stopped, a later call that goes through reaches the tables of one undisturbed call |
| ArchiveProcedure.NoRowLost | migrations/202605180003_add_wcs_direct_write_compat.sql:501-630 | after any stop every row is in the hot table or its month table |
| ArchiveProcedure.ArchiveStore.DeleteMonth | migrations/202605180003_add_wcs_direct_write_compat.sql:603-618 | the batched delete loop terminates, removes only rows of the month, all of them when it ends, and `v_deleted` is their number; it ends if and only if ceil(n / 5000) + 1 statements run, and otherwise each that ran took 5000 rows |
| ArchiveProcedure.ArchiveStore.ArchiveRows | migrations/202605180003_add_wcs_direct_write_compat.sql:567-618 | create, copy, count and delete of one table, with the counts reported, stopped by any fault; it goes through if and only if the source exists, the counts agree and its statements all run |
| ArchiveProcedure.ArchiveStore.ArchiveTable | migrations/202605180003_add_wcs_direct_write_compat.sql:552-627 | one turn of the cursor loop with its run record, closed as completed or failed |
| ArchiveProcedure.ArchiveStore.ArchiveMonth | migrations/202605180003_add_wcs_direct_write_compat.sql:501-630 | bad, current and future months change nothing; otherwise the outcome is clean or a stop between; a past month goes through if and only if every source exists, every check on the counts passes and all statements run, as many as the rows ask for; the run records are those of the first sources in order, all but the last completed, each with the rows that came and went |
| DailyStats.CollectedRows | migrations/202605180001_create_alarm_monthly_archive_and_stats.sql:251-286 | a row is counted if and only if it is a fault row of the day in the table its enabled source is read from, with blanks replaced (`DailyCounts.RefreshedShows` says how) |
| DailyStats.LabelsFilled | migrations/202605180001_create_alarm_monthly_archive_and_stats.sql:274-277 | every label is the trimmed column or its placeholder and never blank; the fault type falls back to the tag |
| DailyStats.DeviceNumbers | migrations/202605180001_create_alarm_monthly_archive_and_stats.sql:298-323 | the device number is the catalogue's when it lists devices there, otherwise at most the fault count (`DailyCounts.RefreshedShows` says how many) |
| DailyCounts.ReadFromIs | migrations/202605180001_create_alarm_monthly_archive_and_stats.sql:256-266 | a day of a past month is read from the table named by source, underscore and the six digits of the month, if there is one, and otherwise from the source |
| DailyCounts.RefreshedShows | migrations/202605180001_create_alarm_monthly_archive_and_stats.sql:251-325 | after a refresh a group has an entry if and only if a fault row of the day that is read has its text or placeholder; the entry counts these rows, and its device number is the catalogue's count when that is positive and otherwise the number of different trimmed device ids among them |
| DailyStats.CollectedSize | migrations/202605180001_create_alarm_monthly_archive_and_stats.sql:251-286 | as many rows are counted as the sources have fault rows of the day |
| DailyStats.DayTotal | migrations/202605180001_create_alarm_monthly_archive_and_stats.sql:294-325 | the fault counts of a day add up to the number of rows counted, grouped by any column |
| DailyStats.SameTotals | migrations/202605180001_create_alarm_monthly_archive_and_stats.sql:294-325 | the three tables have equal totals |
| DailyStats.ReplacedOfDate | migrations/202605180001_create_alarm_monthly_archive_and_stats.sql:290-325 | a refresh replaces its day and leaves the other days |
| DailyStats.RefreshTwice | migrations/202605180001_create_alarm_monthly_archive_and_stats.sql:290-325 | refreshing twice is refreshing once |
| DailyStats.RefreshRepairs | migrations/202605180001_create_alarm_monthly_archive_and_stats.sql:290-325 | wherever a refresh breaks off, the next one that goes through leaves the tables of an undisturbed refresh, and the other days were never touched |
| DailyStats.DayMissingExactly | migrations/202605180001_create_alarm_monthly_archive_and_stats.sql:290-325 | a broken refresh leaves a table without the day if and only if it stopped between the DELETE and the INSERT of that table |
| DailyStats.CountsLikeLogicalExactly | migrations/202605180001_create_alarm_monthly_archive_and_stats.sql:256-266 | a source is counted like its logical table if and only if an existing archive of a past month lacks none of the day's fault rows |
| DailyStats.ReadSurvivesArchiving | migrations/202605180001_create_alarm_monthly_archive_and_stats.sql:256-284 | when archiving leaves what a refresh reads unchanged, exactly |
| DailyStats.RefreshSurvivesArchiving | migrations/202605180001_create_alarm_monthly_archive_and_stats.sql:251-325 | refreshing a past day gives the same statistics before and after a whole archive call |
| DailyStats.EmptyArchiveHidesTheDay | migrations/202605180001_create_alarm_monthly_archive_and_stats.sql:256-266 | after a stop between CREATE and copy a refresh reads nothing |
| StatsProcedure.StatsStore.Refresh | migrations/202605180001_create_alarm_monthly_archive_and_stats.sql:209-328 | fails without change on a NULL date or a missing table; otherwise the statements up to a failing one are done, and when none fails all three tables are replaced, total the day's fault rows and show them by `DailyCounts.ShowsDay` |
| WcsCatalog.LeastIgnoresOrder | migrations/202605200001_add_realtime_fault_count.sql:103-106 | ORDER BY ... LIMIT 1 does not depend on the order of the rows |
| WcsCatalog.NotATableMeans | migrations/202605200001_add_realtime_fault_count.sql:131-133 | the NOT IN test holds for another name only; for NULL it is unknown |
| WcsCatalog.DeviceChosen | migrations/202605200001_add_realtime_fault_count.sql:97-106 | the first applicable device row by own area, then id; none if and only if none applies |
| WcsCatalog.NoTableExactly | migrations/202605200001_add_realtime_fault_count.sql:113-133 | an event has no table if and only if no device row applies and neither area code nor location names an area (`WcsEvents.TableExactly` says which table otherwise) |
| WcsCatalog.FaultTestMeans | migrations/202605200001_add_realtime_fault_count.sql:150-155 | under NULL comparison a row passes WHERE exactly when each restriction is absent, blank or met |
| WcsCatalog.FaultChosen | migrations/202605200001_add_realtime_fault_count.sql:141-169 | the chosen row applies and none that applies is preferred; the fallback is used if and only if none applies |
| WcsCatalog.FaultOrderIrrelevant | migrations/202605200001_add_realtime_fault_count.sql:156-162 | the choice does not depend on the order of the catalogue |
| WcsCatalog.TagValueClean | migrations/202605200001_add_realtime_fault_count.sql:173-182 | the inferred tag value is trimmed and not blank, and when it is '0', exactly |
| WcsCatalog.RealtimeRowsMeetExactly | migrations/202605200001_add_realtime_fault_count.sql:185 | two events share a realtime row if and only if their tables agree and their device keys and fault codes do, or one device key goes on with a slash where the other fault code begins |
| WcsEvents.MappedBy | migrations/202605200001_add_realtime_fault_count.sql:78-120 | the event's columns are its own texts, and where it has none those of its device row: of its own area if any is, with the smallest id; without a row they stay as they came |
| WcsEvents.TableExactly | migrations/202605200001_add_realtime_fault_count.sql:113-133 | the table is the device row's; without one it is cpk_alarm_log if and only if the area code is CPK or the location has 成品 in it, flk_alarm_log if and only if not that but FLK or 辅料, ylk_alarm_log if and only if neither but YLK or 原料, and none otherwise |
| WcsEvents.InfoTold | migrations/202605200001_add_realtime_fault_count.sql:135-169 | name, tag, fault type and default value are those of the preferred fault-code row, or the fallback texts |
| WcsEvents.ValueFlags | migrations/202605200001_add_realtime_fault_count.sql:173-182 | the tag value follows the event's flag, then its fault value, which is normal for seven words in any case, then the default |
| WcsEvents.RowDescribed | migrations/202605200001_add_realtime_fault_count.sql:171-221 | every column of the history row, from the texts of the event, its device row and its fault-code row |
| WcsEvents.WrittenEvent | migrations/202605180004_add_wcs_sync_write_proc.sql:22-46 | a request without a fault code is refused; otherwise each column of the inbox row is the request's text of the same name without the spaces around it, and NULL for none |
| WcsInbox.StepKeeps | migrations/202605200001_add_realtime_fault_count.sql:50-265 | every statement of any connection keeps the invariant of the inbox |
| WcsInbox.ProcessedStays | migrations/202605200001_add_realtime_fault_count.sql:60-69 | no step changes a processed event |
| WcsInbox.HoldOrigin | migrations/202605200001_add_realtime_fault_count.sql:60-69 | a connection comes to hold an event only by claiming it |
| WcsRuns.OneHolder | migrations/202605200001_add_realtime_fault_count.sql:60-69 | in every interleaving at most one connection holds an event in `processing` |
| WcsRuns.DuplicateExactly | migrations/202605180004_add_wcs_sync_write_proc.sql:27-42 | an event is found instead of inserted if and only if the inbox has its event id; events without an id are always inserted |
| WcsRuns.EventIdsUnique | migrations/202605180004_add_wcs_sync_write_proc.sql:27-42 | after every run no two entries of the inbox have the same event id |
| WcsRuns.ProcessedForever | migrations/202605180004_add_wcs_sync_write_proc.sql:27-46 | whatever the inbox procedures do next, `processed`, the mapping and the row written for the event stay, also when the event id is written again |
| WcsRuns.ProcessedPointsToItsRow | migrations/202605200001_add_realtime_fault_count.sql:223-264 | a processed event points to a row that was written for its table and derived from the event |
| WcsEvents.ProcessedRowSpelledOut | migrations/202605200001_add_realtime_fault_count.sql:71-264 | after every run a processed event points to a row in the table it goes to, with these columns, and its mapping has the fault type of its fault-code row |
| WcsArchive.ProcessedRowIsKept | migrations/202605180003_add_wcs_direct_write_compat.sql:574-618 | with other writers and archive passes stopped anywhere in between, a processed event stays so, and the row derived from it is in the mapped table or, unchanged and under the same id, in that table's archive of the row's month |
| WcsArchive.MappingLeadsExactly | migrations/202605180003_add_wcs_direct_write_compat.sql:574-618 | the mapping still leads to the row if and only if no archive pass took it; only a pass over the row's month can, and one that goes through does |
| WcsRuns.RowsWithinAttempts | migrations/202605200001_add_realtime_fault_count.sql:60-63 | an event has at most as many history rows as attempts, and at least one once processed |
| WcsRuns.RowsExactly | migrations/202605200001_add_realtime_fault_count.sql:60-223 | an event has exactly as many history rows as attempts, less the calls that failed or were lost before the INSERT, and less the call that has it still before it |
| WcsRuns.UnmappedNeverProcessed | migrations/202605200001_add_realtime_fault_count.sql:122-133 | an event without a table writes no row and its call can only fail or be lost |
| WcsRuns.AttemptsEnd | migrations/202605200001_add_realtime_fault_count.sql:50-69 | an event nobody holds is in `processing` if and only if a call of it ended without its handler taking effect; otherwise, once attempted, it is processed or failed, and failed without a table |
| WcsRuns.LostStaysProcessing | migrations/202605200001_add_realtime_fault_count.sql:60-65 | such an event is never claimed again |
| WcsRuns.LossHangs | migrations/202605200001_add_realtime_fault_count.sql:60-65 | a run in which a connection is lost after the claim and the event is stuck |
| WcsLimits.AttemptsWithin | migrations/202605180003_add_wcs_direct_write_compat.sql:476-493 | an event has at most four attempts and one for each batch runner, if there is any, and one for each direct call |
| WcsLimits.AttemptsReached | migrations/202605180003_add_wcs_direct_write_compat.sql:476-493 | for every set of runners and number of direct calls a run meets this bound |
| WcsLimits.LimitExactly | migrations/202605180004_add_wcs_sync_write_proc.sql:41-46 | no run exceeds five attempts if and only if there is at most one batch runner and no direct call |
| WcsLimits.OneRunnerAndWriters | migrations/202605180004_add_wcs_sync_write_proc.sql:27-46 | with one runner beside writers of new events the limit is six, and it is met |
| WcsClaims.LeavesProcessed | migrations/202605200001_add_realtime_fault_count.sql:50-69 | when the claiming UPDATE may fail, an event leaves `processed` if and only if a claim of it fails or a call that still holds it fails |
| WcsClaims.SoleRun | migrations/202605200001_add_realtime_fault_count.sql:50-69 | an event no claim of which fails has one holder at most and is processed for good, whatever happens to the others |
| WcsClaims.FailureCanUndoProcessed | migrations/202605200001_add_realtime_fault_count.sql:50-69 | a run in which `processed` is left by a plain failure, after a claim failed |
| WcsClaims.ProcessedForGoodExactly | migrations/202605200001_add_realtime_fault_count.sql:50-69 | events are processed for good if and only if their claims cannot fail |
| WcsClaims.OneHolderExactly | migrations/202605200001_add_realtime_fault_count.sql:50-69 | at most one connection holds an event, in `processing`, if and only if its claims cannot fail |
| WcsProcedures.CallRuns | migrations/202605200001_add_realtime_fault_count.sql:11-265 | a call, direct or in a batch, is a run of the machine |
| WcsProcedures.EndsProcessedExactly | migrations/202605200001_add_realtime_fault_count.sql:60-265 | a call without failing statement ends processed if and only if the event has a table, else failed without writing |
| WcsProcedures.InboxStore.WriteRows | migrations/202605200001_add_realtime_fault_count.sql:71-252 | mapping, history insert and realtime write, up to a failing statement; table and columns are those of `WcsEvents` |
| WcsProcedures.InboxStore.ProcessEvent | migrations/202605200001_add_realtime_fault_count.sql:11-265 | claim, attempt count, rows and final status |
| WcsProcedures.InboxStore.ProcessInbox | migrations/202605180003_add_wcs_direct_write_compat.sql:459-497 | exactly the first eligible ids, 500 without a valid batch size, are attempted once, and each whose call gets that far has one more history row and one realtime write, in order; the batch is a run of the machine and stays within five attempts |
| WcsProgress.InboxSettles | migrations/202605180003_add_wcs_direct_write_compat.sql:459-497 | with no new events, whatever calls fail, after (attempts left) / limit + 5 batches no event is eligible: each is processed, has used its five attempts, or hangs in `processing` |
| WcsProcedures.InboxStore.WriteEvent | migrations/202605180004_add_wcs_sync_write_proc.sql:5-57 | a blank fault code changes nothing; otherwise the event is inserted or found by its id and processed: inbox, history and realtime writes are those of one call for it, as a run of the machine |
| Metadata.FromRows | src/metadata.rs:40-64 | the three maps hold, for each cleaned key, the last row with it, and the entries are counted |
| Metadata.LastRowMeans | src/metadata.rs:44-62 | what the last row with a key is |
| Metadata.LookupIsScan | src/metadata.rs:66-76 | the indexed lookup equals a scan: the last row at the best level of node id, alias, parsed tag, tag name; none if and only if no row matches |
| Metadata.LookupFinds | src/metadata.rs:40-88 | a lookup gives the trimmed fault type of the last row whose node id is the sample's but for whitespace, or else its alias, its tag as the parsed tag, or its tag as the tag name; none if and only if no row has any of them |
| Metadata.BlankMatchesNothing | src/metadata.rs:84-88 | a blank text matches no row |
| Importer.ValidateAlarmPoints | scripts/import_opcua_alarm_points.py:115-137 | accepted if and only if the count agrees and names are present and distinct and descriptions present; otherwise the first failure is reported |
| Importer.NamesAgree | scripts/import_opcua_alarm_points.py:182 | two names agree if and only if safe names and numbers do |
| Importer.WithoutAsciiNameIsEmpty | scripts/import_opcua_alarm_points.py:204-205 | a prefix without ASCII letter or digit has the empty safe name |
| Importer.SafeNameIs | scripts/import_opcua_alarm_points.py:204-205 | the safe name of a text is its longest runs of ASCII letters and digits, in lower case and joined by single underscores |
| Importer.WordsExist | scripts/import_opcua_alarm_points.py:204-205 | every text has such runs |
| Importer.AlnumIs | scripts/import_opcua_alarm_points.py:205 | the characters kept are the ten digits and the letters that are one of 26 in lower case |
| Importer.ChunksPartition | scripts/import_opcua_alarm_points.py:199-201 | chunks are the items in order, each of 1 to `size`, all but the last full |
| Importer.SliceChunks | scripts/import_opcua_alarm_points.py:199-201 | the slicing loop yields these chunks |
| Importer.BuildSubscriptions | scripts/import_opcua_alarm_points.py:162-196 | fails exactly for a maximum below 1 or a point without prefix, otherwise one subscription per chunk of each prefix group |
| Importer.SubscriptionsPartition | scripts/import_opcua_alarm_points.py:171-195 | the subscriptions partition the points, in order within each prefix, 1 to `max` tags each |
| Importer.SubscriptionsSpelledOut | scripts/import_opcua_alarm_points.py:171-195 | every subscription is a numbered chunk of one prefix: its name, its settings 500, 10 and 30, and the node id and alias of each of its 1 to `max` points |
| Importer.NamesDistinctIff | scripts/import_opcua_alarm_points.py:178-182 | names are distinct if and only if different prefixes have different safe names |
| Importer.ValidateUniqueNames | src/config.rs:552-565 | the loop accepts exactly distinct names |
| Importer.UpdateRoutes | scripts/import_opcua_alarm_points.py:239-240 | every imported prefix gets the given table, other routes stay |
| Importer.ImportedPointIsRouted | src/sink.rs:266-272 | the service reads back the imported tag name and takes the route the importer entered, if and only if Python strips no more of the prefix than Rust |
| Importer.AcceptedExactly | src/config.rs:387-418 | the service's checks accept the subscriptions of points with prefixes if and only if different prefixes have different safe names |
| Importer.RejectedExactly | src/config.rs:387-424 | a subscription is rejected if and only if its name or an alias is blank, it has no tags, interval or keep-alive count is zero, or the lifetime is below three keep-alive counts and below 2^32 - 1 |

## Left out

- SinkService.SinkWorker.RunWorker: seeding the realtime table at the start of `run` is not part of it; seeds are events of `RealtimeConvergence`.
- SinkMachine.StepKeeps: the realtime write after a history insert has no step of its own, because its failure changes neither history nor the store; what it writes is `RealtimeTable`.
- RealtimeTable.RowIsItsOwnRun: rows with a blank node id have no key in the source and are kept apart here.
- HistoryTables.SelectTables: the panic of the date library beyond its last year is not modelled, and years have no upper bound.
- HistoryQuery.QueryRefines: the columns are those of the filter and the order; binding the parameters is left to the caller, as in the source.
- ArchiveProcedure.ArchiveStore.ArchiveMonth: inserts into a month while it is archived are outside the model, and the columns added by the column helper carry no data.
- WcsInbox.StepKeeps: the catalogues do not change during a run of the inbox.
- WcsProcedures.InboxStore.WriteEvent: the raw payload column and an error of the inserting statement are not modelled.
- WcsProcedures.InboxStore.ProcessEvent: the claiming statement itself does not fail here; `WcsClaims` is the machine in which it may. The error text of a failed event is not kept.
- Importer.AcceptedExactly: parsing the node ids is not part of it.
- Importer.UpdateRoutes: of `update_config` only the routes are modelled; the other settings, `build_description_map` and the XML and YAML handling are left out as simple maps.
- Samples dropped on a full channel, timers and the shutdown timeout: the model starts with what the worker receives, and timers are events.
- Collations, truncation of columns and reset of auto-increment ids: comparison is equality and ids are fresh.
- The location, device, device id and tag that `alarm_log_fields` parses from a tag name: the realtime statements and the metadata lookup take them as given.
- Text to number parsing and float printing: a sample carries whether its value is zero and its printed form.
- Most of `src/config.rs`, the OPC UA client, metrics, logging and the MySQL pool: they would add only easy members.
