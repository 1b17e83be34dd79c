# A verified model of OpenObserve's ordering, ownership and deletion logic

This project models the parts of OpenObserve that decide in which order things happen, who owns a
piece of work, and what is deleted, and proves properties of the model for all inputs, all runs and
all interleavings. `dafny verify dfyconfig.toml` checks it.

| module | what it models |
|---|---|
| `Options`, `StringOrder`, `Sorting` | optional values, and the orders and stable sorts that the program takes from its standard libraries |
| `TableSort`, `Migration` | the cross-database migrator: the foreign-key sort, the paginated copy, and the referential integrity of a whole run |
| `MessageScanner`, `BatchTranslator`, `PendingTranslation`, `LocaleSync`, `TranslationProgram` | the translation engine: message grammar and validation, split-and-retry batches over an arbitrary service, chunked work lists, the three-tree protocol over repeated runs, and the program that joins them |
| `TimeRanges`, `RetentionPlan` | stored time ranges, the plan of what retention may delete, and its day jobs |
| `DeletionPipeline`, `DumpRewrite`, `StorageGc` | the bookkeeping from the file list to the object store, the rewrite of dumped file lists, and the storage collector |
| `StatsOwnership`, `FirstBoot` | two multi-node protocols as interleaved steps with crashes |
| `FileGrouping`, `Snowflake`, `VerticalPivot` | file grouping, Snowflake ids and their bucket, and the row-to-column pivot |

Loops that update variables are methods with invariants, proved against functions or predicates;
objects that update their fields (`Migration.Target`, `BatchTranslator.Service`,
`TranslationProgram.Repository`, `DeletionPipeline.World`, `DumpRewrite.Meta`, the Snowflake generator and
bucket) are classes. The two protocols are functions from a state and a step to a state, so that a
run is a list of steps of any nodes in any order. A call that may fail is a nondeterministic
choice (a run over reliable calls is proved to succeed), or takes its failure pattern as a parameter
where the statement depends on it.

## What the proofs found

Where a promise of the code's own names, comments or documentation fails, the model follows the
code, a lemma shows a failing input, and another one states when the promise holds.

- **Cascading truncation** (src/migration/adapter/postgres.rs:341-347). With truncation on, a table that was
  excluded from the migration is emptied as well when it references a selected one
  (`Migration.ExcludedChildIsEmptied`). A table outside the selection is left as it was exactly when it
  was empty or no walk along the foreign keys leads from it to a truncated table (`OutsideUnchangedIff`).
- **Translation retries** (scripts/translations/translator.py:705-707, 745-746). A failed leaf is said to be
  retried by the next run. After a full run it never is: the leaf now exists and has no recorded
  hash, so the next run adopts it and certifies the stale or English value with the current hash
  (`LocaleSync.FailedLeafIsAdopted`). A leaf is pending after a run exactly when that run was a
  subset run and the retained state records a different hash (`LocaleSync.RetryIff`).
- **Null list elements** (scripts/translations/translator.py:850-855). A list leaf with a null element can
  never be translated, whatever the service answers (`PendingTranslation.NullElementBlocksLeaf`); a leaf
  is translated exactly when all its strings validate and it has no such element (`TranslatedIff`).
- **Leaves that are no text** (scripts/translations/translator.py:752-774, 808-811). A number, boolean or null leaf
  is sent to the service and never translated (`PendingTranslation.BareLeafIsNeverTranslated`). The program
  crashes exactly when such a leaf gets a message of the grammar for an answer (`TranslatePending`), after
  the locales before have been written.
- **Flattening of time ranges** (src/config/src/meta/stream.rs:961-982). A range nested in an earlier one
  cuts the earlier one short (`TimeRanges.NestedRangeLosesDays`). Nothing is lost exactly when a
  linear scan of the sorted ranges succeeds (`TimeRanges.FlattenLosslessIff`).
- **Red days** (src/compaction/src/retention.rs:157-196). A protected day directly before the retention
  boundary is planned for deletion (`RetentionPlan.LastRedDayIsPlanned`), and so is the last day of a
  range when the extended retention period starts during that day, because the filter compares with
  the range's stored end (`FirstRetainedRedDayIsPlanned`). `RedDayPlannedIff` says exactly which
  instants are planned, for every instant of the original range.
- **Day jobs** (src/compaction/src/retention.rs:236-254). Jobs are said to be only for the days that a range
  covers fully. A range that starts late in the day gets a job for its partial first day, and may get none
  for its last whole day (`RetentionPlan.PartialDayGetsJob`, `WholeDayJobIff`). The jobs are those of the
  whole days exactly when the range starts at midnight or is shorter than a day (`JobsAreWholeDaysIff`).
- **Widened day jobs** (src/compaction/src/retention.rs:470-489). A range that does not end at midnight has
  a part of its shield deleted by a job that is widened to the whole day (`RetentionPlan.NoonEndIsUnsafe`).
  A job is safe exactly when no shield ends inside its day (`DayJobSafeIff`, `GenerateRetentionJobs`).
- **Storage collector** (src/cli/basic/gc.rs:259-265). It reads the stored ranges as half-open, so it
  deletes the day at a range's end which the planner keeps (`StorageGc.DayAtRangeEndIsDeleted`). For any
  stored ranges it deletes an instant that the planner keeps exactly when the day of that instant meets
  no stored range and the shield of a range that ended before reaches it (`PlannerKeepsMoreIff`).
- **Stats ownership** (src/compaction/src/stats.rs:31-134, src/db/src/compact/stats.rs:18-33). A read that
  fails under the lock counts as "no owner, offset 0" and steals the job
  (`StatsOwnership.FailedLockedReadStealsJob`, `TwoOwnersExist`); at most one live node acts as the owner
  throughout a run exactly when no take-over binds the job while another one does (`SingleLiveOwner`), and
  the first one that does so is made by a node whose own last read under the lock failed
  (`FirstStealFollowsFailedRead`), though a later one need not be (`LaterStealAfterGoodRead`). An owner that
  commits and crashes between the locked read and the liveness check of a take-over makes the offset fall
  (`StaleTakeOverExists`). In every run, whatever fails,
  the committed intervals leave no gap (`CommitsHaveNoGap`), and they tile the timeline exactly when no bind
  and no commit starts from an offset other than the stored one (`CommitsTileIff`).
- **First boot** (src/core/src/bootstrap.rs:148-168). The secrets agree in every interleaving. The instance
  id may not (`FirstBoot.InstanceIdsMayDiffer`): the finished nodes of a run agree on it exactly when no
  two different ids were stored (`IdsAgreeIff`). Nor may the salt when some nodes set it themselves
  (`MixedSaltMayDiffer`): all runs agree on it exactly when no node does (`SaltsAgreeIff`).
- **Object deletion** (src/infra/src/storage/mod.rs:416-497). The store reports success also for objects
  that it failed to delete; a queue row then goes while such an object stays, and exactly then
  (`DeletionPipeline.RowGoneIffNothingStuck`, `StuckObjectOutlivesRow`).
- **Queueing for deletion** (src/infra/src/file_list/sqlite.rs:176-218). Rows are committed a hundred at a time
  and a retry starts over, so files are queued again after an insert that failed half-way
  (`DumpRewrite.HalfFailedInsertQueuesTwice`); they are queued once exactly when no insert does
  (`DumpRewrite.QueuedOnceIff`), and always if a batch has at most a hundred files
  (`DeletionPipeline.World.WriteFileList`).
- **Delayed deletion** (src/compaction/src/lib.rs:421-443). The offset is advanced after the drain loop also
  when a batch failed and old rows are left (`DeletionPipeline.World.RunDelayDeletion`).
- **Dump rewrite** (src/compaction/src/dump.rs:387-532). After five failed attempts the call still reports
  success and drops the statistics of dumps that stay live (`DumpRewrite.FailedRewriteStats`). A
  rewritten dump carries the deleted range as its label, so a query for a kept record's own hour never
  lists it (`KeptRecordsNotListed`). The table refuses the labels 0 and 1, with which the kept records
  would be lost (`RewriteConservesIff`); no caller produces them, thanks to the exception for 1970-01-01,
  so the rewrite of every day job conserves the kept records (`DayJobRewriteConserves`).
- **Snowflake ids** (src/config/src/ider.rs:234-236). The time is 42 bits wide, but the signed shift overflows
  from 2^41 milliseconds on: ids become negative (`Snowflake.OverflowBreaksOrder`). Decoding returns the
  time exactly until then (`DecodeIff`), and two ids are in order exactly when both were issued before
  that moment or both after it (`PackOrderIff`).

## Model

| member | source | states |
|---|---|---|
| TableSort.SortTablesByDependencies | src/migration/migrator.rs:242-307 | the imperative sort returns `SortSpec`, the list built by always emitting the least table whose in-set parents are all out, then the leftovers in input order; the in-degree counters never go below zero |
| TableSort.BuildGraph | src/migration/migrator.rs:246-268 | in-degrees count the in-set foreign keys of a table, duplicates and self-references included, and the dependents lists hold one entry per key |
| TableSort.ReleaseDependents | src/migration/migrator.rs:280-295 | one pop keeps the queue equal to the set of ready tables, in descending order, and the counters equal to the unemitted parents |
| TableSort.DecrementAll | src/migration/migrator.rs:283-293 | decrementing once per dependent entry never underflows and inserts a table exactly when its counter reaches zero |
| TableSort.QueueOrderSound | src/migration/migrator.rs:270-295 | queue-phase output has no duplicates, only unemitted tables, each after all its in-set parents, and stops only when nothing is ready |
| TableSort.EachStepEmitsLeastReady | src/migration/migrator.rs:270-295 | every queue-phase step emits the least ready table in string order |
| TableSort.SortSound | src/migration/migrator.rs:242-307 | the result is a permutation of the distinct input tables with the queue-phase order as a parents-first prefix |
| TableSort.LeftoverHasLeftoverParent | src/migration/migrator.rs:297-304 | each table left to the fallback references an in-set table that is left over too |
| TableSort.LeftoverReachesCycle | src/migration/migrator.rs:297-304 | each table left to the fallback lies on a foreign-key cycle or leads to one |
| TableSort.LeftoversInOrder | src/migration/migrator.rs:297-304 | the tables left to the fallback follow the sorted ones in the order of the input |
| TableSort.ParentsFirstIffAcyclic | src/migration/migrator.rs:240-307 | all parents come before their children in the whole result if and only if the in-set foreign keys have no cycle |
| TableSort.SortIgnoresKeyOrder | src/migration/migrator.rs:270-295 | any order and repetition of the foreign keys gives the same result |
| Migration.MigrateTable | src/migration/migrator.rs:385-445 | pagination writes each row exactly once and in order; a failure leaves a prefix of the rows written |
| Migration.RunMigration | src/migration/migrator.rs:65-200 | whatever fails, the target is what truncating a prefix of the sorted tables leaves, cascades included, overlaid with a prefix of the complete copy in dependency order; on success both are complete, and after a truncation each selected table holds exactly the source's rows and each other table was spared or emptied; a run fails only when a call does |
| Migration.CascadeIff | src/migration/adapter/postgres.rs:341-347 | a cascading truncation empties exactly the table and those from which a walk along the foreign keys leads to it |
| Migration.OutsideUnchangedIff | src/migration/adapter/postgres.rs:341-347 | after truncating the selected tables another table is unchanged if and only if it was empty or leads to none of them, and always without cascades |
| Migration.ExcludedChildIsEmptied | src/migration/adapter/postgres.rs:341-347 | an input: a selection of a parent alone empties its excluded child |
| Migration.CompleteRunHolds | src/migration/migrator.rs:150-182 | truncating and copying everything leaves in each selected table exactly the source's rows, and spares the other tables exactly as `OutsideUnchangedIff` says |
| Migration.TableOfExact | src/migration/migrator.rs:410-439 | for rows with distinct keys the table holds each of them under its key, and no other key |
| Migration.WholeRunIntegrity | src/migration/migrator.rs:164-182 | without a cycle and with a consistent source, after every single row each row written so far has its in-set parents in the target, whatever the target held before |
| Migration.CycleBreaksIntegrity | src/migration/migrator.rs:297-304 | acyclicity is needed: for every cyclic selection, self-references included, some consistent source has after some row of its copy a written row whose in-set parent is missing |
| Migration.CopiesEveryRow | src/migration/migrator.rs:410-439 | after a complete copy the target holds every source row of every migrated table |
| MessageScanner.ScanTokens | scripts/translations/translator.py:323-394 | the index-driven scanner returns the tokens of the parsed pieces, and `compilable` exactly when the parse reaches the end |
| MessageScanner.PieceAtComplete | scripts/translations/translator.py:341-392 | a delimited piece that occurs at a position is the piece that is read there |
| MessageScanner.PieceAtSound | scripts/translations/translator.py:341-392 | a piece that is read occurs in the text, is of the grammar, and is delimited |
| MessageScanner.ParseOfRender | scripts/translations/translator.py:323-394 | scanning the rendering of any well-formed sequence of pieces returns exactly these pieces |
| MessageScanner.RenderOfParse | scripts/translations/translator.py:323-394 | an accepted message is the rendering of the well-formed pieces read from it |
| MessageScanner.ScanIff | scripts/translations/translator.py:323-394 | a message compiles with some tokens if and only if it is the rendering of well-formed pieces with these tokens |
| MessageScanner.FaultyMessage | scripts/translations/translator.py:323-394 | of a message that does not compile exactly the pieces up to the first place at which no piece of the grammar occurs are read |
| MessageScanner.TokenIff | scripts/translations/translator.py:346-391 | two pieces have the same token if and only if they have the same kind and content: placeholder name, escape body, printf letter, or modifier and key of a link; white space does not matter |
| MessageScanner.TokensAgreeIff | scripts/translations/translator.py:770-771 | token multisets are equal if and only if the multisets of placeholder names, escape bodies, printf letters and links are |
| MessageScanner.ValidateIff | scripts/translations/translator.py:752-774 | a translation is accepted if and only if it is not blank, is a message of the grammar with the source's token multiset, and has its number of plural separators |
| MessageScanner.ValidateMessages | scripts/translations/translator.py:397-399 | between two well-formed messages acceptance compares token multisets and separators only |
| MessageScanner.AcceptedIff | scripts/translations/translator.py:752-774 | the same told by contents: a translation is accepted if and only if it has a character that is no white space, is a message of the grammar, has the placeholder names, escape bodies, printf letters and links read from the source, each as often, and as many separator characters |
| MessageScanner.AcceptedMessages | scripts/translations/translator.py:752-774 | between two messages of the grammar acceptance compares these contents and the number of separator characters only |
| MessageScanner.RenamedPlaceholderIsRejected | scripts/translations/translator.py:752-774 | a translation that lacks a placeholder name of its source is rejected |
| StringOrder.SortedEqualIff | scripts/translations/translator.py:770-771 | comparing sorted token lists compares their multisets |
| StringOrder.LessIff | src/migration/migrator.rs:270-295 | names are compared by their first different character, and a proper prefix comes first |
| BatchTranslator.Service.TranslateBatch | scripts/translations/translator.py:530-610 | the retry loop and the recursion compute `Batch`, results and number of requests, for every service |
| BatchTranslator.BatchContract | scripts/translations/translator.py:539-541 | for up to 2^32 items: results are aligned, at most 3(2n-1) requests with 3 tries, and no result is missing if every item requested alone is answered within its tries |
| BatchTranslator.BatchCalls | scripts/translations/translator.py:561-607 | n items cost at most tries times 2n-1 requests |
| BatchTranslator.ResultIsAnswer | scripts/translations/translator.py:574-587 | every result is the service's answer for that item, at the item's place in some completely answered request |
| BatchTranslator.NoneOnlyAlone | scripts/translations/translator.py:599-610 | an item is given up only after it was requested alone, as often as allowed in a row, in vain |
| PendingTranslation.TranslatePending | scripts/translations/translator.py:777-857 | for every chunk size, order of completion and interleaving of the batches' requests the result is the one determined by the batches' results in work-list order; it crashes if and only if something other than a string gets a message for an answer |
| PendingTranslation.ChunksSound | scripts/translations/translator.py:814-814 | the chunks are the work list in order, none of them empty and all but the last of full size |
| PendingTranslation.CollectResults | scripts/translations/translator.py:821-843 | for every order of completion the results, stored by index, are those of a batch over each chunk, with any answers to its own requests |
| PendingTranslation.FlatAt | scripts/translations/translator.py:792-811 | each non-blank string of each leaf stands in the work list at its index |
| PendingTranslation.PutBackOne | scripts/translations/translator.py:845-847 | putting one validated result back fills exactly its own slot |
| PendingTranslation.TranslatedIff | scripts/translations/translator.py:849-857 | a leaf is translated if and only if it is a string or a list, each of its strings has a validating answer at its own place and no other element is null; it is then the source's leaf with exactly its strings replaced by their answers |
| PendingTranslation.TranslatedStringIsSafe | scripts/translations/translator.py:777-788 | a string put into a leaf is the answer for that string, is a message of the grammar, and keeps the tokens and separators of its source |
| PendingTranslation.NullElementBlocksLeaf | scripts/translations/translator.py:850-855 | a list leaf with a null element is never translated |
| PendingTranslation.BareLeafIsNeverTranslated | scripts/translations/translator.py:808-857 | a leaf that is neither a string nor a list is never translated, and crashes the program if its answer is a message |
| PendingTranslation.EveryStringAnswered | scripts/translations/translator.py:777-857 | if the service answers every item requested alone within its tries, every string of the work list gets an answer, for chunks of up to 2^32 |
| PendingTranslation.ChunkContract | scripts/translations/translator.py:530-610 | with the program's own settings: n strings, up to 2^32, cost at most 3(2n-1) requests, and each has an answer if each, requested alone, is answered by one of any three requests in a row |
| PendingTranslation.EveryAnswerValidates | scripts/translations/translator.py:777-847 | if moreover every complete reply has a validating answer for each text, every entry of the work list gets a validating answer |
| LocaleSync.BuildLocaleTree | scripts/translations/translator.py:665-712 | the loop builds `BuildLocale`, and its counters count each leaf once as kept or pending and each pending one as translated or failed |
| LocaleSync.PendingIff | scripts/translations/translator.py:633-662 | the recursive collection returns exactly the paths whose source leaf needs a translation |
| LocaleSync.BuiltLeaf | scripts/translations/translator.py:665-712 | path by path: a built locale has exactly the source's leaves, each blank, kept, translated, stale or English |
| LocaleSync.PendingExactly | scripts/translations/translator.py:617-662 | a leaf is pending if and only if it is not blank and is missing in the locale or has an outdated recorded hash |
| LocaleSync.LeafOutcome | scripts/translations/translator.py:665-712 | an answered pending leaf takes its answer, a leaf that is not pending stays, a blank one is copied, and leaves absent from the source are pruned |
| LocaleSync.BuiltState | scripts/translations/translator.py:724-749 | path by path: the state records the current hash if the leaf is blank, or did not fail and is present in all locales, and nothing otherwise |
| LocaleSync.RecordedAfterFullRun | scripts/translations/main.py:165-174 | a full run records the current hash of a leaf unless the leaf failed in some locale |
| LocaleSync.RetryIff | scripts/translations/translator.py:617-630 | after any run a leaf is pending for a processed locale if and only if the run was a subset run and the retained state records a different hash |
| LocaleSync.NothingPendingAfterFullRun | scripts/translations/main.py:134-174 | after a full run nothing is pending in any supported locale, whatever the service answered |
| LocaleSync.FullRunsReachFixpoint | scripts/translations/main.py:134-174 | the second full run writes no locale and records every hash, the third changes nothing, for any answers and any order of locales |
| LocaleSync.FailedLeafIsAdopted | scripts/translations/translator.py:704-710 | a leaf that failed in a full run is not retried; the next full run certifies its stale or English value |
| LocaleSync.SameLeafAt | scripts/translations/main.py:160-160 | objects that are equal up to the order of their keys, which the program does not rewrite, have the same leaves |
| TranslationProgram.TranslateLocale | scripts/translations/main.py:140-150 | with the service's answers to the pending leaves in work-list order: a pending leaf is translated if and only if it is a string, or a list without null, and each of its strings has a validating answer at its place; its value is then the leaf with exactly these answers; it crashes if and only if some other leaf gets a message for an answer |
| TranslationProgram.Repository.Translate | scripts/translations/main.py:103-187 | one run of the program, for any source, is `Run` with the answers that each locale's own service gives, from the files as the locales before left them; it refuses an empty selection or source, a crash leaves the locales before it written and the state as it was, failures are reported exactly when some leaf failed, and with services that answer well it finishes without any |
| TranslationProgram.CrashIff | scripts/translations/translator.py:752-774 | validation raises an error if and only if a leaf that is neither a string nor a list gets a message for an answer |
| TranslationProgram.NothingFails | scripts/translations/main.py:134-187 | if the source is made of strings and lists without null, and every service answers each text asked for alone and always with something that validates, no run crashes and no leaf fails in any locale |
| TranslationProgram.WellServedLeaf | scripts/translations/main.py:134-160 | and each pending leaf of each locale's file is then replaced, string by string, by its answers |
| TranslationProgram.WholeRunSound | scripts/translations/main.py:134-174 | after a whole run every leaf of every locale is what it was, the source's own, or an element-wise validated translation of it |
| TimeRanges.SplitByRange | src/config/src/meta/stream.rs:940-959 | splitting is set difference with ordered, non-empty parts when the ranges meet, and an error otherwise |
| TimeRanges.FlattenOverlappingRanges | src/config/src/meta/stream.rs:961-982 | the loop computes `Flattened` |
| TimeRanges.FlattenLosslessIff | src/config/src/meta/stream.rs:961-982 | flattening never protects a new instant, and loses none if and only if the scan `Lossless` succeeds |
| TimeRanges.KeptReachExact | src/config/src/meta/stream.rs:961-982 | the scan's reach is the first instant that the flattened ranges leave open |
| TimeRanges.AscendingEndsLossless | src/config/src/meta/stream.rs:961-982 | ends that do not go down in start order are enough |
| TimeRanges.NestedRangeLosesDays | src/config/src/meta/stream.rs:971-973 | a nested range makes flattening forget days of the outer one |
| RetentionPlan.SplitAll | src/compaction/src/retention.rs:189-227 | the split loop removes exactly the shields of the clipped ranges and leaves ordered, disjoint, non-empty ranges |
| RetentionPlan.GenerateTimeRangesForDeletion | src/compaction/src/retention.rs:142-234 | the plan covers exactly the original range minus the shields of the clipped ranges, in order and without overlap |
| RetentionPlan.RetentionSandwich | src/compaction/src/retention.rs:142-234 | the plan never meets a clipped protected range and covers everything outside the day-extended ones |
| RetentionPlan.RedDayPlannedIff | src/compaction/src/retention.rs:157-196 | an instant of the original range is planned if and only if no flattened range protects it: one that shields it, not on a dropped last day, and with neither the instant nor its stored end before the last retained time |
| RetentionPlan.LastRedDayIsPlanned | src/compaction/src/retention.rs:194-196 | a protected last day before the boundary is planned for deletion |
| RetentionPlan.FirstRetainedRedDayIsPlanned | src/compaction/src/retention.rs:172-185 | a protected day on which the extended retention period starts is planned for deletion |
| RetentionPlan.GenerateDeletionDates | src/compaction/src/retention.rs:236-254 | consecutive days from the start, as many as whole days fit before the end; a day gets a job if and only if it is from the first day on and before the end's day, and is not the last of these when the range starts later in the day than it ends |
| RetentionPlan.WholeDayJobIff | src/compaction/src/retention.rs:236-254 | a whole day of the range gets its job unless it is the last one and the range starts later in the day than it ends; a job's day is whole unless it is the first one and the range starts after midnight |
| RetentionPlan.JobsAreWholeDaysIff | src/compaction/src/retention.rs:236-254 | the jobs are exactly those of the whole days if and only if the range starts at midnight or is shorter than a day |
| RetentionPlan.PartialDayGetsJob | src/compaction/src/retention.rs:236-254 | an input for which a partial day gets a job and a whole one gets none |
| RetentionPlan.DayJobSafeIff | src/compaction/src/retention.rs:470-489 | a day job, widened to its whole day, stays before the boundary, and is outside every shield if and only if no shield ends inside that day |
| RetentionPlan.GenerateRetentionJobs | src/compaction/src/retention.rs:257-361 | the days with a job are exactly those that the ranges of the exact plan get, each from the creation of the stream or from the earliest hour with data that the range asks for; for any stored ranges no job reaches the boundary and each is safe if and only if no shield ends inside its day; with ranges that end at midnight all are safe |
| RetentionPlan.WholePlannedDayHasJob | src/compaction/src/retention.rs:321-345 | every whole day of a planned range, from its earliest data on, has a job, but for the last one when the jobs start later in the day than the range ends |
| RetentionPlan.PlannedDataHasJob | src/compaction/src/retention.rs:321-345 | every hour with data that a later planned range asks for is in the day of a job, but for the same case and for the day in which the range ends |
| RetentionPlan.EmptyRangeHasNoJob | src/compaction/src/retention.rs:334-336 | a later planned range without data has no job |
| RetentionPlan.JobCoversDay | src/compaction/src/retention.rs:470-489 | a job deletes exactly the instants of its day, from one millisecond on for 1970-01-01 |
| RetentionPlan.NoonEndIsUnsafe | src/compaction/src/retention.rs:470-489 | an input for which the condition of the exact statement fails: with an end at noon a widened job deletes shielded instants |
| RetentionPlan.SafeJobKeepsRedDays | src/compaction/src/retention.rs:257-361 | a safe job deletes no protected instant, and with lossless settings each red day that it deletes was lost by clipping |
| RetentionPlan.JobRangeIsLabel | src/compaction/src/retention.rs:475-489 | the range of a day job never starts at 0 nor ends at 1 |
| DeletionPipeline.World.WriteFileList | src/compaction/src/retention.rs:602-667 | on success every file left the list and is queued, in order; on failure a prefix did, and at most one chunk left without being queued; only files that left are queued again, and none is when a chunk is one transaction |
| DeletionPipeline.World.WriteChunk | src/compaction/src/retention.rs:607-664 | up to five attempts leave the chunk untouched, or gone from the list, or gone and queued, besides the files that failed attempts have queued |
| DeletionPipeline.World.BatchAddDeleted | src/infra/src/file_list/sqlite.rs:176-218 | rows are committed a hundred at a time: success queues all files, failure a proper prefix of whole transactions |
| DeletionPipeline.World.DeleteFromStorage | src/infra/src/storage/mod.rs:416-497 | success removes all keys the store can delete; failure removes some of them |
| DeletionPipeline.World.Delete | src/compaction/src/deleted.rs:59-113 | one batch removes only objects of old queued rows that left the file list, and rows only after their deletable objects, of all four kinds, and makes progress |
| DeletionPipeline.World.Drain | src/compaction/src/lib.rs:403-447 | the drain loop ends, keeps both properties over all its batches, and leaves no eligible row when nothing failed |
| DeletionPipeline.World.RunDelayDeletion | src/compaction/src/lib.rs:403-447 | besides what the drain loop keeps, the offset becomes the time limit exactly when its write succeeds, and always if it can be written, whether or not the queue was drained |
| DeletionPipeline.RowGoneIffNothingStuck | src/infra/src/storage/mod.rs:416-497 | a removed row has no object left if and only if the store could delete every object of it that was there |
| DeletionPipeline.GoneRowLeavesNothing | src/compaction/src/deleted.rs:66-89 | when a row is gone and nothing of it was stuck, the store holds neither its data file, unless that is in the WAL, nor the inverted index, metrics index and flattened objects that the file is flagged to have |
| DeletionPipeline.QueryOldest | src/compaction/src/deleted.rs:59-64 | a batch is the first ten thousand rows, in order of creation, of those created before the time limit |
| DeletionPipeline.StuckObjectOutlivesRow | src/infra/src/storage/mod.rs:416-497 | a run without any reported failure after which the queue is empty and an object of the only row is still there |
| DeletionPipeline.RemovedWereQueued | src/compaction/src/deleted.rs:32-57 | every removed object belonged to a queued row whose file had left the list |
| DeletionPipeline.RemovedObjectIsNamed | src/compaction/src/deleted.rs:66-89 | a removed object is the data file, or a derived object of a kind that the file is flagged to have, of an old queued row whose file had left the list |
| DeletionPipeline.ListedObjectsStay | src/compaction/src/deleted.rs:32-113 | when no object belongs to two files, no object of a file that is still in the file list is removed |
| DumpRewrite.ChunkByDate | src/compaction/src/dump.rs:427-432 | regrouping keeps the records in order, each exactly once, in chunks of one date that are as long as possible |
| DumpRewrite.ApplyWithRetry | src/compaction/src/dump.rs:475-494 | over five attempts the dumps are replaced if and only if the first call succeeds once, and the queue gets what each later attempt commits until one succeeds |
| DumpRewrite.AddedParts | src/compaction/src/dump.rs:483-491 | the attempts queue all items, in order, if one of them succeeds, after items that failed attempts left behind; there are none of these if and only if no attempt fails half-way |
| DumpRewrite.QueuedOnceIff | src/infra/src/file_list/sqlite.rs:176-218 | the items are queued once or not at all if and only if no attempt fails half-way, which cannot happen to a hundred items or fewer |
| DumpRewrite.HalfFailedInsertQueuesTwice | src/infra/src/file_list/sqlite.rs:176-218 | a failure pattern for which the first hundred of any 101 items are queued twice |
| DumpRewrite.DeleteByTimeRange | src/compaction/src/dump.rs:387-532 | the live dumps, the queue and the statistics after every failure pattern; told by times: nothing happens if and only if no record of a listed dump has an hour that meets the range; a stored rewrite with an accepted label takes away exactly the copies of such records in listed dumps; their data files and these dumps are queued if an attempt stores them all, and nothing else ever is |
| DumpRewrite.ListedIff | src/infra/src/file_list/sqlite.rs:470-496 | a dump is listed if and only if its label and the range have an instant in common and the label ends by the upper bound |
| DumpRewrite.InRangeIff | src/compaction/src/dump.rs:409-416 | a record is deleted if and only if its hour and the range have an instant in common |
| DumpRewrite.ItemsAre | src/compaction/src/dump.rs:446-458 | what is queued is the data file of each deleted record and each listed dump |
| DumpRewrite.ProcessedIff | src/compaction/src/dump.rs:475-481 | the dumps are replaced if and only if one of five attempts succeeds |
| DumpRewrite.RewriteConservesIff | src/compaction/src/dump.rs:414-494 | a stored rewrite takes away exactly the copies in listed dumps of records whose hour meets the range, unless the table refuses the new label and there was something to keep |
| DumpRewrite.DayJobRewriteConserves | src/compaction/src/dump.rs:414-494 | the stored rewrite of every retention day job takes away exactly the copies in listed dumps of the records of the 24 hours of its day |
| DumpRewrite.RewrittenRecords | src/compaction/src/dump.rs:433-473 | the new dumps hold each kept record exactly once |
| DumpRewrite.KeptNeverQueued | src/compaction/src/dump.rs:414-447 | no kept record's data file is queued for deletion, whatever fails |
| DumpRewrite.KeptRecordsNotListed | src/infra/src/file_list/sqlite.rs:470-496 | a rewritten dump is not listed by a query for the hour of a record it keeps |
| DumpRewrite.FailedRewriteStats | src/compaction/src/dump.rs:475-531 | after a failed rewrite the live dumps keep their statistics if and only if every drop fails too |
| StorageGc.DaysAreContiguous | src/cli/basic/gc.rs:303-312 | the next date starts when a date ends, across months, years and leap years |
| StorageGc.MonthStarts | src/cli/basic/gc.rs:303-312 | the day of the year on which each month starts, in common and in leap years |
| StorageGc.MonthPruneSound | src/cli/basic/gc.rs:238-242 | a pruned month holds no expired day |
| StorageGc.YearPruneSound | src/cli/basic/gc.rs:226-231 | a pruned year holds no expired day |
| StorageGc.GcPrefix | src/cli/basic/gc.rs:205-292 | the pruned walk counts and deletes exactly what the unpruned day filter selects; a dry run counts the same and deletes nothing; a walk that fails has counted a prefix of the selected days and deleted nothing outside it |
| StorageGc.PlannerKeepsMoreIff | src/cli/basic/gc.rs:259-265 | for all stored ranges and every instant of a day before the boundary: the collector deletes it although the planner keeps it if and only if its day meets no stored range and a flattened range that ended before, within the extended retention and not a day before the boundary, still shields it |
| StorageGc.DayAtRangeEndIsDeleted | src/cli/basic/gc.rs:259-265 | an input: the planner keeps a whole day that the collector deletes |
| StorageGc.FlattenedRedDay | src/config/src/meta/stream.rs:961-982 | a day that meets a flattened range meets a stored one |
| StatsOwnership.StepKeepsInv | src/compaction/src/stats.rs:31-134 | every step of every node, crash and failure keeps the ownership invariant, but for a failed read under the lock |
| StatsOwnership.SingleLiveOwner | src/compaction/src/stats.rs:165-185 | in every run at most one live node acts as the owner at any moment if and only if no take-over binds the job while another one does, which never happens when the reads under the lock succeed |
| StatsOwnership.FirstStealFollowsFailedRead | src/compaction/src/stats.rs:165-185 | the first take-over that binds the job while another live node acts as its owner is made by a node whose own last read under the lock failed |
| StatsOwnership.LaterStealAfterGoodRead | src/compaction/src/stats.rs:165-185 | a run in which, after a steal, another node reads the record under the lock successfully and still binds the job while the first owner works |
| StatsOwnership.OffsetDropsIff | src/compaction/src/stats.rs:170-184 | in every state a step makes the offset fall if and only if it is a bind or a commit of a lower one; while the locked reads succeed that is exactly a take-over that writes back an offset the previous owner has advanced since, and that owner has crashed |
| StatsOwnership.OffsetMonotoneIff | src/compaction/src/stats.rs:31-134 | in every run the offset never falls if and only if no bind and no commit writes a lower one, which is when no take-over is stale if the locked reads succeed |
| StatsOwnership.CommitsHaveNoGap | src/compaction/src/stats.rs:60-134 | in every run from a non-negative offset, whatever fails, the committed intervals have no gap and the offset stays within what they cover |
| StatsOwnership.CommitsTileIff | src/compaction/src/stats.rs:60-134 | in every run the committed intervals tile the timeline throughout, without gap or overlap, if and only if no bind and no commit starts from an offset other than the stored one; when the locked reads succeed, at the end if and only if no take-over was stale |
| StatsOwnership.StaleTakeOverExists | src/compaction/src/stats.rs:165-185 | a run in which a take-over makes the offset fall from 20 to 5 |
| StatsOwnership.FailedLockedReadStealsJob | src/db/src/compact/stats.rs:18-33 | after a failed read under the lock the node owns the job with offset 0 while other owners go on |
| StatsOwnership.TwoOwnersExist | src/compaction/src/stats.rs:165-185 | a run with a failed read under the lock in which two live nodes are past the ownership check |
| StatsOwnership.OwnerCommits | src/compaction/src/stats.rs:31-134 | a live owner can commit everything up to the latest update, without the lock |
| StatsOwnership.TakesOver | src/compaction/src/stats.rs:165-185 | a live node can take over a record without a live owner when the lock is free, and commits from the stored offset on |
| StatsOwnership.StepsBack | src/compaction/src/stats.rs:41-44 | a node that finds another live owner, with or without the lock, leaves the record and gives the lock back |
| StatsOwnership.FailureEndsRun | src/compaction/src/stats.rs:165-185 | a call that fails leaves the record alone, and unless it was a read it ends the node's run without the lock |
| FirstBoot.StepKeepsSecrets | src/db/src/metas.rs:103-131 | no step changes a stored secret |
| FirstBoot.SecretsStay | src/db/src/metas.rs:103-131 | a secret once stored stays for the rest of every run |
| FirstBoot.FirstBootAgreement | src/core/src/bootstrap.rs:72-113 | in every interleaving a stored id implies stored secrets, and any two nodes that finish hold the same token, and the same salt when no node sets it |
| FirstBoot.InstanceIdsMayDiffer | src/core/src/bootstrap.rs:148-168 | two nodes may finish with different instance ids |
| FirstBoot.IdsAgreeIff | src/core/src/bootstrap.rs:148-168 | in every run the finished nodes agree on the instance id if and only if no two different ids were stored |
| FirstBoot.MixedSaltMayDiffer | src/core/src/bootstrap.rs:148-168 | whenever some node sets the salt, any two nodes that do not may finish with different salts |
| FirstBoot.SaltsAgreeIff | src/core/src/bootstrap.rs:148-168 | all runs agree on the salt of the nodes that do not set it if and only if no node sets it |
| FirstBoot.FifthFailureIsFinal | src/core/src/bootstrap.rs:72-113 | a node starts over after a failed read and gives up with the fifth |
| FileGrouping.SplitBySize | src/cli/basic/test.rs:60-98 | consecutive groups that are singletons or fit, none of which had room for the next file |
| FileGrouping.GroupByFileSize | src/cli/basic/test.rs:60-78 | the groups cut the files, in order of size, each exactly once, into maximal fitting groups |
| FileGrouping.GroupByFileTime | src/cli/basic/test.rs:80-98 | the groups cut the files, in order of start, each exactly once, into maximal fitting groups |
| FileGrouping.GreedyOptimal | src/cli/basic/test.rs:60-98 | for non-negative sizes no cut of the list into singletons or fitting groups has fewer groups |
| FileGrouping.ChainFiles | src/cli/basic/test.rs:100-127 | first-fit chains hold exactly the files, do not overlap, and for files that span more than an instant are as many as files are open at the busiest instant |
| FileGrouping.ChainsAreOptimal | src/cli/basic/test.rs:100-127 | no way of putting the sorted files into chains, whatever their times, uses fewer chains than first fit |
| FileGrouping.ChainsAreColoring | src/cli/basic/test.rs:100-127 | the chains are the classes of a proper coloring: of two files in one chain the later one starts when the earlier one has ended |
| FileGrouping.FewestOverlapFreeClasses | src/cli/basic/test.rs:100-127 | for files that span more than an instant no partition into classes without overlaps has fewer classes |
| FileGrouping.InstantGetsOwnChain | src/cli/basic/test.rs:100-127 | a file of a single instant may need a chain although it overlaps nothing |
| FileGrouping.GroupByTimeRange | src/cli/basic/test.rs:100-127 | the final groups are a permutation of the input, free of overlaps, each a singleton or fitting; they are the maximal cuts of first-fit chains |
| Snowflake.OrIsSum | src/config/src/ider.rs:234-236 | the bit-or of the three fields, read as a signed word, is the sum that `Pack` computes, also after an overflow |
| Snowflake.DecodeIff | src/config/src/ider.rs:162-164 | the decoded time is the packed time if and only if the shift does not overflow |
| Snowflake.MachinesDisjoint | src/config/src/ider.rs:234-236 | different machine ids never share an id, also after overflow |
| Snowflake.PackIncreases | src/config/src/ider.rs:234-236 | later positions give larger ids before 2^41 milliseconds |
| Snowflake.OverflowBreaksOrder | src/config/src/ider.rs:234-236 | from 2^41 milliseconds on ids are negative |
| Snowflake.PackOrderIff | src/config/src/ider.rs:234-236 | ids of later positions are larger if and only if both are from before 2^41 milliseconds or both from then on |
| Snowflake.BidingTimeConditions | src/config/src/ider.rs:324-333 | the spin loop ends with a time after the last one |
| Snowflake.SnowflakeIdGenerator.RealTimeGenerate | src/config/src/ider.rs:213-237 | the id is the packing of a later position at the clock's time |
| Snowflake.SnowflakeIdGenerator.Generate | src/config/src/ider.rs:244-264 | the id is the packing of a later position not after the clock; the panic is unreachable |
| Snowflake.SnowflakeIdGenerator.LazyGenerate | src/config/src/ider.rs:271-281 | the id is the packing of the next position |
| Snowflake.GenerateMany | src/config/src/ider.rs:213-264 | any mix of clocked calls gives strictly increasing ids; the decoded time of each does not exceed the clock at its own call, and equals it for a real-time call |
| Snowflake.SnowflakeIdBucket.GetId | src/config/src/ider.rs:297-303 | each call serves the next position, across refills |
| Snowflake.BucketEqualsLazy | src/config/src/ider.rs:285-310 | a bucket serves exactly the stream of a lazy generator that starts at the same position |
| VerticalPivot.Pivot | src/compaction/src/flatten.rs:238-284 | every column has one entry per row, the row's value or null, also when its key first appears late, and columns stand in order of first appearance |
| VerticalPivot.KeysOfFirstRows | src/compaction/src/flatten.rs:238-284 | for every n the keys of the first n rows are the first columns |
| VerticalPivot.AddRow | src/compaction/src/flatten.rs:249-274 | the fields of a row keep the columns aligned, with nulls for the rows before a new key |
| VerticalPivot.PadMissing | src/compaction/src/flatten.rs:275-283 | exactly the columns without an entry for the row get a null |
| VerticalPivot.GenerateVerticalPartition | src/compaction/src/flatten.rs:213-302 | the first cell that is no object decides between the parse error and the panic; otherwise other columns are unchanged, the source column is nulled, and the new columns are the pivot |
| VerticalPivot.RowRecoverable | src/compaction/src/flatten.rs:238-301 | each row's non-null fields can be read back from the output columns |

## Assumptions

- A `DbAdapter` reads rows in a fixed order and an upsert overwrites by key, one row per statement.
- `TRUNCATE … CASCADE` empties the tables that reference the truncated one, directly or not, along the
  foreign keys by which the migrator sorts; the SQLite adapter's DELETE empties one table
  (src/migration/adapter/sqlite.rs:335-340).
- A transaction of the deletion pipeline and of the dump rewrite is atomic, and one that reports an error
  has changed nothing. A batch insert or removal takes several of them, and an object-store call that
  fails may have removed part of its objects.
- In `StatsOwnership` the lock is correct and freed on a crash, the view of live nodes is correct, and
  a crashed node id never comes back; the record's first offset is not negative. In `FirstBoot`
  `get_for_update` is atomic.
- Stored time ranges are not inverted (settings validation, src/schema/src/lib.rs:407-415), and
  timestamps are positive.
- The metadata store answers with the earliest hour with data among those that it is asked for
  (src/infra/src/file_list/sqlite.rs:766-792).
- Hashes, blankness tests, JSON parsing and the Unicode character classes are parameters; of the
  classes only `MessageScanner.Sane` is used (quotes and braces are neither white space nor digits,
  identifier characters and digits are not white space).
- In `Snowflake` the clock does not go back and does not stop.

## Left out

- Incremental migration, the timestamp column, table filtering and count validation: filters over a table list and a row predicate.
- Prompt building, glossary, temperature and back-off of the translation client: the service is arbitrary, so they cannot matter to what is proved.
- `--check` mode of the translation program and the writing of files through a temporary one.
- Parquet and Arrow encoding, SQL, JSON parsing and the regular-expression engine; the link pattern is written out as a function.
- Merging, dump generation, workers, keep-alive tasks and job pick-up of the compactor.
- The stats computation itself between reading and committing an offset, and the check of the salt's length.
- 64-bit overflow, except for the Snowflake shift: other sums of timestamps, sizes and offsets stay far below it.
- Random, UUID and KSUID ids, start-up, telemetry, command line, HTTP and the web front end.
- GcPrefix: an object counts as deleted when the store was asked to delete it; that the store may fail silently is stated by DeletionPipeline.RowGoneIffNothingStuck.
- FewestOverlapFreeClasses: needs `min_ts < max_ts`, as InstantGetsOwnChain shows; ChainsAreOptimal is the statement for all files.
- FirstBootAgreement: agreement on the salt is claimed when no node sets it; SaltsAgreeIff shows that this is needed.
- FirstStealFollowsFailedRead: speaks of the first such bind of a run; LaterStealAfterGoodRead shows that a later one may follow a read that succeeded.
- RunDelayDeletion: one organization; the program does the same for each in turn and stops when an offset cannot be written.
