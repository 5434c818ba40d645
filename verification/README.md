# Verified model of the database core

A Dafny model of the parts of the library that keep two copies of something in step, schedule work, or
rewrite one thing into another, with proofs of what each is there for. Check it with
`dafny verify dfyconfig.toml`.

## What is modelled

**Records over the bridge.** The native side remembers which record ids it has sent (`NativeRecords`), the
JavaScript side keeps one model per id and throws when it is sent an id it does not hold (`RecordCaches`).
`RecordBridge.Database` is the two together with every operation that touches them. Its `Agrees()` says that
whatever id the native side believes to be sent is cached, and that collections cache sanitized models of
their own table by their ids. Every operation keeps it, whether it succeeds or fails, but for a query that
throws half-way, of which `FetchQuery` says exactly when. `Stale()` is the set of cached models that are out
of step: those that do not hold what selecting their row and sanitizing it would give, although no change of
them is prepared. Every operation says which models may join it, and those that can put one out of step say of
each model that was in step exactly when; the cache is transparent while `Stale()` is empty.
`Submissions` says of the records handed to a batch, by the change prepared of each, what becomes of their rows,
of the cached models and of the native side's belief that they were sent. `DatabaseTraces` has the database as
a value, a `Moment`, and what each command makes of it; `DatabaseSteps` says the same command by command in
terms of rows, records and prepared changes.
`DatabaseRuns.Run` puts any operations together, in any order, on any rows that earlier launches left; it is
proved to go through a trace of such moments, along which the cache is transparent for as long as every command
was `Safe`, batches and mass destroys included.
`BatchEncoding` holds the encoder of batches and the meaning of its statements, `BridgeTheory`,
`BridgeSnapshots` and `ChangeSets` the argument on values, `RawRecords` the sanitizing, `Models` and
`ChangeTracking` the edits and the text that lists changed columns. Queries go over the bridge compressed or
plain, batches as objects or as JSON; the operations are proved for both.

**Prepared statements.** `StatementCaches` is the cache, with each handle tracked as prepared or finalized;
finalizing, resetting, binding or stepping a handle that is not live violates a precondition, so a verified
method is one that never does. Which handles are in use is tracked besides, and every call with its outcome.
`PreparedStatements` is the code that holds handles meanwhile, with the calls that it makes in each case.
`LruTheory` is what such a cache holds after any accesses.

**Readers and writers.** `WorkQueueTheory` has the queue as a state, the synchronous part of user code as a
tree of calls (a tree stands for what the code turns out to do, so that all trees cover all behaviour), and
the events of the event loop between. `SubActions` is what becomes of the work that is handed over: carried out
where it is let through, started when the line is empty, waiting otherwise. `WorkQueues.WorkQueue` is the object; its methods are proved to take
exactly the steps of the theory. `QuietItems` is which waiting items run for certain.

**Notifications and seeding.** `Notifications` and `Seeds`: value-level steps with theorems over all runs, and
an object each whose methods take those steps.

**Transformations.** `DeletedRows` (queries without deleted records), `QueryDescriptions` (building and
extending), `TurboSync` (rows bound from JSON against sanitizing and inserting), `Descendants`
(records below a record, and marking them).

Numbers are reals with NaN and the infinities apart; ids, names and texts are strings; SQL statements
that the library generates are values (`Sql`, `InsertStatement`) rather than text. What may fail for reasons
outside is an input of the model (`commits`, `steps`, `Launch`), or fails at will where only safety is at stake
(`SqliteHandles`).

## Where the code does less than it says

Each of these is stated with its exact condition; `FailingInputs` has an input for it unless noted.

* `Query.extend` promises all clauses of the query; a `take` or `skip` of zero is dropped by its truthiness
  test (`src/Query/index.ts:171-172`). `ExtendIsConcatenation` says exactly when the result is the same;
  `ZeroTake`.
* A native query that throws after some rows has marked the ids of those rows as sent
  (`native/shared/Database-query.cpp:61-79`) although nothing is sent. `Database.FetchQuery` says exactly
  when the two sides still agree; `HalfwayQuery`. Having the native side forget what it sent restores the
  agreement, which is what a run does then.
* After the native half of a batch alone, a created id is believed to be sent but is not cached yet;
  `AgreementBetweenHalves` says exactly when that matters; `BetweenHalves`.
* An updater that throws leaves the assignments it has made, and the record in its editing state, with no
  change prepared (`src/Model/index.ts:149-166`), so that later assignments go through as well.
  `Database.PrepareUpdate` and `Database.Assign` say exactly when the cached record gets out of step;
  `ThrowingUpdater`.
* Updating through an instance that is not the cached one leaves the cached one with old values. Of a batch
  that succeeds `PerformBatch` says that a cached model that was in step gets out of step if and only if no
  change of it is prepared afterwards and the last write to its record had other columns, status or changes;
  `AnotherInstance`.
* Records that a failing batch has taken up to be updated or deleted, which are those before the first record
  without a prepared change, lose their prepared changes but keep their new values
  (`src/Database/index.ts:481-528`). `PerformBatch` says that a cached model that was in step gets out of step
  if and only if it was taken up and differs from its row; `FailedBatch`.
* A mass destroy that meets a record with a pending change after SQLite has committed stops
  (`src/Database/index.ts:581-630`): the models up to that record are marked, the rows of all are gone, and
  the caches stay as they were. `PerformMassDestroy` says exactly which models are out of step then;
  `HalfwayDestroy`.
* A query is to leave deleted records out, but a raw SQL query is run as it is
  (`src/adapters/sqlite/encodeQuery/index.ts:211-216`). `QueryKeepsMeaning` says exactly when the result is
  the same, `RawSelectKeepsMeaning` what that means for a plain select; `RawQuery`.
* A sub-action directly inside the block of another uses up the flag that the outer one set
  (`src/Database/WorkQueue.ts:407-420`), so that a request after it is queued behind the item that makes it.
  `SubActionLetsOneThrough` says exactly when a sub-action lets a request through; `NestedSubActionQueues` is
  the input.
* In turbo sync a record without an id is bound with the id of the record before it. The primary key refuses
  that, and the whole load with it: `LoadRecords` says exactly when a load goes through, `LoadedRowsAreOwn` that
  the rows of one that does have their own ids; `MissingId`. A key given twice can keep its first value;
  `TurboSyncRefinesSanitizing` says exactly when; `RepeatedKey`.
* `fetchDescendants` never ends when a record is among its own descendants: `FetchingEndsIff`; `OwnChild`.
* The description that a query hands to `destroyMatching` always has a condition
  (`src/QueryDescription/helpers.ts:117-122`), so `isUnconditional` (`src/adapters/sqlite/index.ts:379-384`)
  is never true for it: `NeverUnconditional`. `DestroyMatching` is still proved for both values.

## Model

| member | source | states |
|---|---|---|
| LruTheory.StackProperty | native/shared/StatementCache.h:66-88 | after any accesses at capacity c the cache is the c most recently used distinct texts, in order |
| LruTheory.RecencyOrder | native/shared/StatementCache.h:119 | an earlier place in the list means a later last use |
| LruTheory.Inclusion | native/shared/StatementCache.h:66-88 | a smaller cache is always a prefix of a larger one, so its hits are hits there |
| LruTheory.AlwaysARecencyPrefix | native/shared/StatementCache.h:84-115 | with capacity changes and clears anywhere between, the cache is a prefix of the recency list of the uses since the last clear |
| LruTheory.HeldSurvives | native/shared/StatementCache.h:108-115 | an entry survives exactly while fewer distinct other texts than the capacity are used |
| LruTheory.CyclicWorkingSet | native/shared/StatementCache.h:23-28 | k statements in a fixed cycle: an access hits if and only if k fits the capacity and it is not the first pass |
| StatementCaches.CapacityForTables | native/shared/StatementCache.h:30-40 | the smaller of 2000 and 100 plus 10 a table |
| StatementCaches.StatementCache.Get | native/shared/StatementCache.h:64-73 | hits if and only if cached; the handle is live and becomes most recent |
| StatementCaches.StatementCache.Insert | native/shared/StatementCache.h:75-82 | new text first, the rest cut to the capacity; cached handles are again exactly the live ones; the new entry is never the one evicted |
| StatementCaches.StatementCache.SetCapacity | native/shared/StatementCache.h:84-88 | keeps exactly the most recent prefix; capacity at least 1 |
| StatementCaches.StatementCache.EvictDownTo | native/shared/StatementCache.h:108-115 | finalizes exactly what it drops, each handle once |
| StatementCaches.StatementCache.Clear | native/shared/StatementCache.h:93-100 | afterwards no handle is live |
| StatementCaches.TouchPermutes | native/shared/StatementCache.h:71 | moving to the front keeps the same texts without duplicates |
| PreparedStatements.AccessMovesBackOne | native/shared/Database-sqlite.cpp:15-35 | one more access moves an entry back at most one place |
| PreparedStatements.HeldAcrossTwoNeedsThree | native/shared/Database-batch.cpp:180-219 | a select held across the mutation and the commit stays cached if and only if the capacity is at least 3 |
| PreparedStatements.NativeDatabase.PrepareQuery | native/shared/Database-sqlite.cpp:15-35 | a cached statement is reset and any other prepared; the handle returned is live and that of the text; entries that stay keep their handles |
| PreparedStatements.NativeDatabase.ExecuteQuery | native/shared/Database-sqlite.cpp:152-156 | the calls made: opened and bound, or refused and left reset; the statement returned is the most recent one |
| PreparedStatements.NativeDatabase.ExecuteUpdate | native/shared/Database-sqlite.cpp:173-184 | the calls made: opened, bound, stepped once and reset, or refused; succeeds if and only if the step is the last one; a statement held meanwhile keeps its live handle, one place further back; no statement is left in use |
| PreparedStatements.NativeDatabase.MutateAndCommit | native/shared/Database-batch.cpp:205-219 | the mutation runs if there are rows, and the commit after it succeeded; wherever they stop, the select held meanwhile is cached under the same live handle |
| PreparedStatements.NativeDatabase.DestroyMatching | native/shared/Database-batch.cpp:171-223 | the calls made, in order: begin, the select stepped through, mutation, commit, and a rollback if anything after the begin fails; succeeds if and only if all of it does; on every path the select is live when it is reset, and no statement is left in use |
| PreparedStatements.NativeDatabase.ReleaseMemory | native/shared/Database.cpp:71-86 | no handle is left live |
| PreparedStatements.NativeDatabase.FitToSchema | native/shared/Database.cpp:93-98 | the capacity is that for the tables counted, or the base if the count cannot be read; keeps the most recent statements that fit; the one-off count is finalized |
| RawRecords.SanitizeFits | src/RawRecord/index.ts:36-69 | sanitizing gives a value of the column's type and leaves exactly those alone |
| RawRecords.UnfitIsReplaced | src/RawRecord/index.ts:45-68 | a value that does not fit, NaN, infinite, undefined or of another type, becomes null if the column is optional and else empty, zero or false; 1 and 0 become booleans in a boolean column |
| RawRecords.SanitizeRaw | src/RawRecord/index.ts:93-128 | the loop computes the specified sanitized record |
| RawRecords.SanitizedRawIs | src/RawRecord/index.ts:93-128 | id, status and changes are those that come with the record, created if no other status does; without an id it is a new one; each column gets its sanitized value |
| RawRecords.SanitizedRawIsSanitized | src/RawRecord/index.ts:21-28 | exactly the columns of the schema, each with a fitting value |
| RawRecords.ColumnRoundTrip | src/RawRecord/index.ts:51-59 | storing a fitting value in SQLite and sanitizing it again gives it back, booleans included |
| BatchEncoding.GroupOperations | src/adapters/sqlite/encodeBatch/index.ts:65-90 | nothing lost or reordered, groups uniform and as long as possible |
| BatchEncoding.EncodedBatchMeansIt | src/adapters/sqlite/encodeBatch/index.ts:140-180 | running the encoded groups is applying the operations one by one, failures included |
| BatchEncoding.StoredRoundTrip | src/adapters/sqlite/encodeBatch/index.ts:19-53 | storing a sanitized record, selecting its row and sanitizing again gives the record back |
| CacheKeys.CacheKeyInjective | native/shared/Database.h:162-164 | keys are equal if and only if table and id are, for table names without a dollar sign |
| CacheKeys.CacheKeysCollide | native/shared/Database.h:162-164 | two tables can share a key if and only if one name is the other or extends it by a dollar sign |
| BridgeTheory.EntryKeepsMirror | src/Collection/index.ts:364-373 | one operation of a batch, on the row and on the cached model, keeps them in step, whichever instance it is made by, but for a model whose record another instance updates |
| BridgeTheory.BatchKeepsMirror | src/Database/index.ts:469-558 | a whole batch in any order of creates, updates and destroys: every cached model again has a row that loads as its values, but for those whose record another instance updates |
| BridgeTheory.UndestroyedStays | src/Collection/index.ts:364-373 | what was cached or is created stays cached unless its id is destroyed |
| BridgeTheory.UntouchedKeepsModel | src/Collection/index.ts:364-373 | a record neither created nor destroyed keeps its one model |
| BridgeTheory.LastChangeDecides | src/Collection/index.ts:364-373 | one model per id: a record is cached afterwards as the instance that created it last, not at all if it was destroyed last, else as before |
| BridgeTheory.UpdateByAnotherInstance | src/Database/index.ts:498-500 | storing the values of another instance keeps the cached model in step if and only if both have the same columns, status and changes |
| BridgeTheory.LastWriteDecides | src/Database/index.ts:498-500 | a row that survives a batch is the one that the last create or update of it stored, whatever was created, updated or destroyed before |
| BridgeTheory.EncodedKeys | native/shared/Database-batch.cpp:17-35 | the first arguments of encoded creates and deletes are their ids; updates add no key |
| BridgeTheory.BatchKeys | native/shared/Database-batch.cpp:42-48 | a key is added (removed) if and only if the batch creates (destroys) that record |
| BridgeTheory.AgreementBetweenHalves | native/shared/Database-batch.cpp:42-48 | after the native half alone the sides agree if and only if every surviving created record was cached already |
| Submissions.RowsAfterBatch | src/Database/index.ts:481-528 | the statements of a batch go through if and only if no record is created that has a row by then; and then each record of each table has a row if and only if it was created and not destroyed since, or had one and was not destroyed, with the values written last, and deleted if it was marked after that |
| Submissions.LastDecides | src/Database/index.ts:504-509 | the last change submitted of a record decides: to be destroyed, its row is gone; to be marked, a row that is there keeps its columns and changes and has status deleted; to be created or updated, the row has the submitted values |
| Submissions.CacheAfterBatch | src/Collection/index.ts:364-373 | a record is cached as the instance created last, not if it was marked or destroyed last, and as before if neither |
| Submissions.SentAfterBatch | native/shared/Database-batch.cpp:42-48 | an id is believed to be sent if it was or is created, unless the batch marks or destroys it |
| NativeRecords.DecodedRowIsLoaded | src/adapters/sqlite/makeDispatcher/decodeQueryResult/index.ts:25-30 | a decoded compressed row is the row as a dictionary |
| NativeRecords.DecodeQueryResult | src/adapters/sqlite/makeDispatcher/decodeQueryResult/index.ts:7-34 | decodes every item in order |
| NativeRecords.DecodedItemIsSent | native/shared/Database-query.cpp:103-118 | the compressed form carries the same ids and rows as the plain one |
| NativeRecords.ItemIs | native/shared/Database-query.cpp:103-118 | a bare id exactly where the id was sent before, by an earlier query or earlier in the result; else the row's values in the order of the table |
| NativeRecords.NativeDatabase.Find | native/shared/Database-query.cpp:36-52 | the bare id once sent, else the row, marked as sent; nothing for an absent row |
| NativeRecords.NativeDatabase.Query | native/shared/Database-query.cpp:54-82 | a row exactly where an id is sent for the first time, repeats within one result included; when stepping throws, exactly the ids of the rows stepped are marked |
| NativeRecords.NativeDatabase.QueryAsArray | native/shared/Database-query.cpp:84-122 | the same compressed |
| NativeRecords.NativeDatabase.Batch | native/shared/Database-batch.cpp:10-49 | succeeds if and only if every statement and the commit do; all statements or none; the sent ids change only after the commit |
| NativeRecords.NativeDatabase.BatchJson | native/shared/Database-batch.cpp:93-154 | the same for a batch as JSON, whose keys are read as the first argument of each operation |
| NativeRecords.EncodedKeysAreText | src/adapters/sqlite/makeDispatcher/index.native.ts:93-95 | of a batch that the encoder makes, both forms add and remove the same keys |
| NativeRecords.NativeDatabase.DestroyMatching | native/shared/Database-batch.cpp:171-230 | exactly the selected rows are deleted or marked, with or without the whole-table statement, and their ids forgotten |
| NativeRecords.DestroyedIs | native/shared/Database-batch.cpp:205-216 | exactly the rows of the ids are gone, or have status deleted and are otherwise as they were |
| NativeRecords.FallbackDestroysTheSame | src/Database/index.ts:643-665 | a batch that destroys the ids one by one does to rows and sent ids what destroyMatching does |
| RecordCaches.RecordCache.ModelForRaw | src/Collection/RecordCache.ts:122-140 | the cached instance wins, else a new one is made and cached |
| RecordCaches.RecordCache.RecordFromQueryResult | src/Collection/RecordCache.ts:69-75 | throws if and only if a bare id is not cached |
| RecordCaches.RecordCache.RecordsFromQueryResult | src/Collection/RecordCache.ts:65-67 | if each bare id is cached or came as a row before, never throws; cached instances are handed out unchanged |
| RecordCaches.EditsKeepSanitized | src/Model/index.ts:483-494 | any edits keep a record sanitized, under the same id, and not disposable |
| RecordBridge.ResultsNameSelected | src/adapters/common.ts:56-63 | results name the selected ids, and a raw among them is what its row loads as |
| RecordBridge.Database.constructor | src/Collection/RecordCache.ts:39-47 | a database opened on any rows starts in agreement, with new and empty caches |
| RecordBridge.Database.FetchQuery | src/Collection/index.ts:283-295 | never meets an uncached id; one model per row, cached instances as they were, new ones with the values of an uncached select, compressed or not; after a native throw the sides agree if and only if the rows stepped were cached |
| RecordBridge.Database.FetchRecord | src/Collection/index.ts:330-362 | finds a record if and only if it is cached or its row exists, and keeps agreement |
| RecordBridge.Database.CollectOperations | src/Database/index.ts:481-528 | succeeds if and only if every record has a prepared change and none to update or destroy comes twice; one operation per record in order, grouped per table |
| RecordBridge.Database.ApplyChanges | src/Database/index.ts:551-553 | the change sets per table change each cache as the whole batch would |
| RecordBridge.Database.PerformBatch | src/Database/index.ts:469-558 | succeeds if and only if SQLite commits, every record has a prepared change, none to update or destroy comes twice, and what is created is new; then rows, sent ids and caches are what the changes prepared of the records say, each record's by its last one, records are unprepared, and a cached model that was in step is out of step if and only if it has no prepared change and the last write to its record had other values; on failure rows, sent ids and caches stay, the records taken up to be updated or deleted, and no others, lose their prepared change, and a cached model that was in step is out of step if and only if it was taken up and differs from its row |
| RecordBridge.Database.PrepareUpdate | src/Model/index.ts:149-166 | keeps agreement and makes the record fit for a batch; refused exactly on a pending change or an edit of a deleted record; a cached model gets out of step if and only if the updater throws after assignments that leave it different |
| RecordBridge.Database.Assign | src/Model/index.ts:483-518 | an assignment outside an updater goes through exactly in the editing state; a cached model gets out of step if and only if that changes it with no change prepared |
| RecordBridge.Database.PrepareMarkAsDeleted | src/Model/index.ts:208-218 | refused exactly on a pending change; keeps agreement, and no model gets out of step |
| RecordBridge.Database.PrepareDestroyPermanently | src/Model/index.ts:243-253 | refused exactly on a pending change; keeps agreement, and no model gets out of step |
| RecordBridge.Database.PrepareCreate | src/Model/index.ts:393-424 | a new record, sanitized, fit for a batch, not cached yet |
| RecordBridge.Database.PrepareCreateFromDirtyRaw | src/Model/index.ts:426-432 | the same from a dirty raw record, whose own id is kept if it has one |
| RecordBridge.Database.PerformMassDestroy | src/Database/index.ts:581-630 | succeeds if and only if SQLite commits and no selected cached record has a pending change; then rows and cached models of exactly the selected ids go, the models marked as deleted; when SQLite does not commit nothing changes; half-way the rows are gone, the caches are as before, exactly the models before the first pending one are marked, and a cached model that was in step is out of step if and only if its row is gone, or is marked while the model was not got to, holds no prepared change and was not deleted before |
| RecordBridge.Database.UnsafeReset | src/Database/index.ts:889-899 | nothing stored, sent or cached is left |
| RecordBridge.Database.ClearCachedRecords | src/Collection/RecordCache.ts:104-106 | forgetting the sent ids at any time is harmless, and restores agreement |
| BridgeSnapshots.BatchKeepsConsistent | src/Database/index.ts:469-558 | a batch of any submitted records on all tables at once: caches, rows and models fit again, with the displaced models given up |
| BridgeSnapshots.MassDestroyKeepsConsistent | src/Database/index.ts:581-630 | the same for a mass destroy, finished or stopped half-way |
| BridgeSnapshots.StepAfterBatch | src/Database/index.ts:469-558 | after a batch a cached model that was in step before is in step if and only if its change is prepared or the last write to its record had its values |
| BridgeSnapshots.StepHalfway | src/Database/index.ts:581-630 | after a mass destroy that stopped half-way, a cached model that was in step before is out of step if and only if its row is gone, or is marked while the model was not got to, holds no prepared change and was not deleted before |
| DatabaseRuns.Run | src/Database/index.ts:469-630 | any sequence of fetches, finds, new records, edits, assignments, deletions, batches, mass destroys and resets, failing or not, on any rows, goes through a trace in which each command makes of the database exactly what it should and the two sides agree after each one; after any initial part whose commands were all safe the cache is transparent |
| DatabaseRuns.Step | src/Database/index.ts:469-630 | one command takes the database from the moment it shows to the one that follows by that command, and keeps agreement |
| DatabaseSteps.BatchStep | src/Database/index.ts:469-558 | a batch in a run: whether it succeeds, and for every record its row, its cached model and whether it is believed to be sent; none of them changes when it fails |
| DatabaseSteps.MassDestroyStep | src/Database/index.ts:581-630 | a mass destroy in a run: exactly the wanted rows are gone or marked, exactly their ids are not believed to be sent, and exactly their models are dropped unless one has a pending change |
| DatabaseSteps.FetchStep | src/Collection/index.ts:283-295 | a query in a run gives one model for each row, in order: the cached one as it was, or a new one of what the row loads as |
| DatabaseSteps.FindStep | src/Collection/index.ts:330-362 | a find in a run gives a model if and only if the record is cached or has a row |
| DatabaseSteps.ChangeFollows | src/Model/index.ts:149-253 | a change of a held record in a run finds it sanitized, and does to it what the three rows below say |
| DatabaseSteps.EditStep | src/Model/index.ts:149-166 | an update of a record: the columns hold what was assigned last, exactly those given another value are listed besides, and the change is prepared unless the updater throws; nothing else changes |
| DatabaseSteps.SetStep | src/Model/index.ts:483-494 | an assignment to a record changes its column, list and status exactly when the record is in its editing state and the value differs; nothing else changes |
| DatabaseSteps.DeleteStep | src/Model/index.ts:208-253 | marking a record as deleted or destroying it is refused on a pending change, and else prepares the one that was asked for |
| DatabaseSteps.NewRecordStep | src/Model/index.ts:393-424 | a new record in a run has the given id, the values assigned last, and lists exactly the columns assigned |
| DatabaseSteps.OrdinaryBatchIsSafe | src/Database/index.ts:469-558 | a batch that creates what is new and updates records through their cached instances is safe |
| DatabaseSteps.OrdinaryMassDestroyIsSafe | src/Database/index.ts:581-630 | a mass destroy is safe if and only if it is not committed or meets no pending change |
| DatabaseTraces.SafeCommand | src/Database/index.ts:469-630 | no model gets out of step by an edit that does not throw, an assignment to no record left in its editing state, a batch that succeeds and leaves no model behind another instance's write, or a mass destroy that does not stop half-way |
| DatabaseTraces.TransparentWhileSafe | src/Database/index.ts:469-630 | along a trace the models out of step are among those at its start, for as long as commands are safe |
| DatabaseTraces.OnlyWritesAreUnsafe | src/Model/index.ts:149-166 | in a run from launch whose updaters never throw, every command but batches and mass destroys is safe |
| ChangeTracking.SplitJoin | src/sync/helpers.ts:4-9 | splitting joined comma-free names gives them back |
| ChangeTracking.AddedNames | src/sync/helpers.ts:4-9 | the text lists the old names and the new one, each once, if and only if the name has no comma and the set is not the empty name alone |
| ChangeTracking.AddedColumn | src/sync/helpers.ts:4-9 | for column names: exactly the old names and the new one, without duplicates |
| ChangeTracking.AddedTwice | src/sync/helpers.ts:4-9 | adding again changes nothing |
| ChangeTracking.EditsAreTracked | src/Model/index.ts:483-494 | after any run of edits every column that differs from load is listed, nothing listed is lost, no duplicates, and the status is updated unless created |
| ChangeTracking.ListedIffChanged | src/Model/index.ts:488-493 | a column is listed after a run of edits if and only if it was before or some edit of the run gave it another value |
| ChangeTracking.UpdatedIffChanged | src/Model/index.ts:488-493 | edits of which none changes a value leave the record as it was, status included; any other run makes it an updated one unless it is created |
| ChangeTracking.EditsAssign | src/Model/index.ts:483-487 | every column has the value assigned last, sanitized |
| Models.Model.SetRaw | src/Model/index.ts:483-518 | refused outside an edit or on a deleted record; else the column has the sanitized value, and is listed and the record updated if and only if that is another value than before; a column set while creating is noted |
| Models.Model.PrepareUpdate | src/Model/index.ts:149-166 | throws exactly on a pending change, a disposable record, an edit of a deleted one, or when the updater does; the edits made stay, are tracked exactly, and after a throwing updater so does the editing state |
| Models.Model.BuildNew | src/Model/index.ts:404-419 | the builder's columns are set, then marked once it is done |
| Models.BuiltRecordListsItsColumns | src/Model/index.ts:412-419 | a created record stays created and lists each column set |
| WorkQueueTheory.ExecKeeps | src/Database/WorkQueue.ts:310-420 | whatever calls synchronous code nests, the invariant holds again and the head stays the head |
| WorkQueueTheory.ExecuteNextKeeps | src/Database/WorkQueue.ts:422-474 | what shift() removes is the item that was started; a work that throws at once included |
| WorkQueueTheory.StepKeeps | src/Database/WorkQueue.ts:422-474 | every event keeps the invariant, and settled, started and skipped are final |
| WorkQueueTheory.ReachableStates | src/Database/WorkQueue.ts:364-371 | every reachable state: one running item, the head; no lost wakeup, and a timer always finds a head; order of starts; nothing settled twice or started after being dropped; the flag down; no reader running a writer's block; with detection on, the head never waiting for its own request behind it |
| WorkQueueTheory.StartedAreTheOthers | src/Database/WorkQueue.ts:422-474 | what was started is exactly what is not waiting and was never aborted or rejected, in the order requested |
| WorkQueueTheory.EventuallySettled | src/Database/WorkQueue.ts:465-473 | any run with as many finishes and timers as the item has turns left settles it |
| WorkQueueTheory.FinishedInterfaceRefused | src/Database/WorkQueue.ts:77-87 | the interface of a settled item is refused in every later state |
| WorkQueueTheory.LetThroughIff | src/Database/WorkQueue.ts:325-333 | a block uses the flag by its first request or nested sub-action, and only an allowed request gets through |
| WorkQueueTheory.SubActionLetsOneThrough | src/Database/WorkQueue.ts:407-420 | a sub-action lets a request through if and only if its block makes an allowed one first; never two |
| WorkQueueTheory.NestedSubActionQueues | src/Database/WorkQueue.ts:407-420 | a nested sub-action makes the outer one's request wait behind its own item |
| SubActions.LetThroughIsRun | src/Database/WorkQueue.ts:325-333 | the work of a request that skips the line is run before the call returns: its requests wait behind the head; if it throws so does the call, and what follows is not executed; if it completes what follows goes on |
| SubActions.CallRunsInPlace | src/Database/WorkQueue.ts:407-420 | calling a reader or writer from a reader or writer is, for any work and for anything that follows, running the work in place with its errors caught |
| SubActions.RefusedCallDoesNothing | src/Database/WorkQueue.ts:328-331 | a reader that calls a writer runs nothing of it |
| SubActions.NestedRequestsWait | src/Database/WorkQueue.ts:407-420 | at any depth of nested calls, the requests of the innermost work are in line afterwards, in order and owned by the head |
| SubActions.StartedAtOnce | src/Database/WorkQueue.ts:364-367 | a request to an empty line is started at once, its own requests wait behind it, and it is settled if it throws at once |
| SubActions.TimerRunsTheHead | src/Database/WorkQueue.ts:422-448 | the scheduled start runs the head's work in the head's flow |
| SubActions.AwaitIs | src/Database/WorkQueue.ts:387-402 | awaiting drops and settles exactly the head's own waiting request, if it is that and detection is on; any other await leaves the line as it is |
| SubActions.AbortLeavesTheHead | src/Database/WorkQueue.ts:517-523 | aborting, wherever it is called, leaves the head alone in line, drops and settles everything behind it, and throws if and only if nothing is in line |
| SubActions.OutsideOwnsNothing | src/Database/WorkQueue.ts:249-262 | requests made outside the work belong to no item |
| WorkQueueTheory.RejectRemovesOnly | src/Database/WorkQueue.ts:387-405 | the guard removes the one item waited for |
| QuietItems.QuietItemRuns | src/Database/WorkQueue.ts:376-380 | an item that no code awaits in the flow of the one that requested it, and that nothing aborts, is never dropped; with enough finishes and timers it runs, after the one that requested it |
| QuietItems.ExecLeaves | src/Database/WorkQueue.ts:387-405 | synchronous code without such an await and without an abort, however nested, leaves the item waiting |
| FailingInputs.NestedWriter | src/Database/WorkQueue.ts:335-346 | a nested awaited writer: rejected with detection, waiting for itself without |
| WorkQueueTheory.AbortKeeps | src/Database/WorkQueue.ts:517-523 | exactly the head stays; everything behind it is dropped and settled |
| WorkQueues.WorkQueue.Execute | src/Database/WorkQueue.ts:310-420 | the object takes exactly the steps of the theory |
| WorkQueues.WorkQueue.Request | src/Database/WorkQueue.ts:320-371 | enqueue |
| WorkQueues.WorkQueue.StartHead | src/Database/WorkQueue.ts:422-460 | the start of a head |
| WorkQueues.WorkQueue.FinishHead | src/Database/WorkQueue.ts:451-474 | settling, shifting and scheduling |
| WorkQueues.WorkQueue.CallSubAction | src/Database/WorkQueue.ts:407-420 | callReader and callWriter |
| WorkQueues.WorkQueue.Then | src/Database/WorkQueue.ts:387-402 | the guarded promise |
| WorkQueues.WorkQueue.AbortPendingWork | src/Database/WorkQueue.ts:517-523 | aborting |
| WorkQueues.WorkQueue.Turn | src/Database/WorkQueue.ts:422-474 | every turn of the event loop is a step of the theory and keeps the invariant |
| Notifications.MergeKeeps | src/Database/index.ts:714-726 | merging per table loses, invents and reorders nothing, and names each table once |
| Notifications.Conservation | src/Database/index.ts:670-732 | whenever no batch is open, each collection has been told exactly the changes committed to its table, in order and once |
| Notifications.HeldBack | src/Database/index.ts:670-680 | while a batch is open nothing is delivered, whatever is committed |
| Notifications.DeliveredAtOnce | src/Database/index.ts:670-680 | with no batch open every commit is delivered at once, in order |
| Notifications.LastEndDelivers | src/Database/index.ts:707-730 | the end of the last open batch delivers each table once, in the order of first change, with all its changes in order; any other end delivers nothing |
| Notifications.Notifier.Notify | src/Database/index.ts:670-680 | held back while a batch is open, else delivered in order |
| Notifications.Notifier.End | src/Database/index.ts:707-730 | the last batch to end delivers everything held back, once per table |
| Seeds.DatabaseSeed | src/Database/seed.ts:53-86 | accepts exactly the valid lists, and returns them sorted by version |
| Seeds.MarkerRoundTrip | src/Database/index.ts:287-293 | the marker written for a version is read back as that version |
| Seeds.SeededDatabase.RunSeed | src/Database/index.ts:283-355 | attempts, records and reports exactly as specified, and leaves the marker of the last record |
| Seeds.StepIsRetried | src/Database/index.ts:310-334 | a step is attempted until it succeeds, at most once more than it has retries; after the first success it is recorded if the marker can be written, and a failure for any other reason follows exactly 1 + retries failed attempts |
| Seeds.LaunchRunsPending | src/Database/index.ts:286-355 | a launch whose marker cannot be read fails at once; any other runs exactly the steps of later versions than the marker's, in turn, until one is not recorded |
| Seeds.SeededDatabase.UnsafeReset | src/Database/index.ts:916-926 | forgets the marker, then seeds again if asked |
| Seeds.HistoryInOrder | src/Database/index.ts:283-355 | over any launches and resets, killed at any point or not: a step is attempted only as the first unrecorded one, recorded only after an attempt that succeeded, and seeding is done only when all are recorded |
| Seeds.MarkerIsOfPrefix | src/Database/index.ts:295 | the marker is 0 or the last version of a recorded initial part |
| Seeds.AttemptedInTurn | src/Database/index.ts:309-352 | when a step is attempted, exactly the earlier versions are recorded since the last reset |
| Seeds.LaunchIsBounded | src/Database/index.ts:310-334 | one launch makes at most the sum of 1 + retries attempts |
| Seeds.EndsOnce | src/Database/index.ts:336-354 | a launch ends with one failure or with onDone, which then names every pending step |
| QueryDescriptions.ExtractClauses | src/QueryDescription/helpers.ts:22-83 | the loop computes the specified description, or throws on a raw query beside other clauses |
| QueryDescriptions.ExtractThrowsIff | src/QueryDescription/helpers.ts:65-76 | throws if and only if a raw query stands beside a condition, order, limit, offset or transform |
| QueryDescriptions.BuildThrowsIff | src/QueryDescription/helpers.ts:85-92 | throws besides if and only if the last offset is not zero and there is no limit, or the last one is zero |
| QueryDescriptions.ExtendIsConcatenation | src/Query/index.ts:157-176 | extending by b describes a + b if and only if no zero take or skip is lost |
| QueryDescriptions.ExtendWithSql | src/QueryDescription/helpers.ts:65-76 | with a raw query in b the check comes out the same |
| QueryDescriptions.ExtendTwice | src/Query/index.ts:157-176 | extending by b, then c, is extending by b + c, under the same condition |
| QueryDescriptions.ExtendThrowsIff | src/Query/index.ts:164 | extending throws if and only if the query was built from a raw one |
| QueryDescriptions.BuildExtended | src/QueryDescription/helpers.ts:85-92 | the query built is the same, errors included |
| DeletedRows.ClauseKeepsMeaning | src/QueryDescription/helpers.ts:96-115 | a rewritten condition, nested to any depth, holds of a row exactly when the original holds of it with deleted rows gone |
| DeletedRows.QueryKeepsMeaning | src/QueryDescription/helpers.ts:117-128 | the same rows in the same order as on the database without deleted rows, for every query without raw SQL; for one with it, if and only if its own rows are the same on both |
| DeletedRows.RawSelectKeepsMeaning | src/adapters/sqlite/encodeQuery/index.ts:211-216 | a raw select of the rows of a table that meet a condition leaves deleted records out if and only if no deleted row meets it |
| DeletedRows.NeverUnconditional | src/adapters/sqlite/index.ts:379-384 | the description handed on always has a condition |
| TurboSync.InsertSqlFor | native/shared/Database-turboSync.cpp:12-23 | the statement generated: the list of columns and the list of values |
| TurboSync.InsertedColumns | native/shared/Database-turboSync.cpp:12-23 | what it stores under each name: parameter 1 as the id, parameter j + 2 in column j, status synced, no changes, and nothing else |
| TurboSync.BindRecord | native/shared/Database-turboSync.cpp:118-166 | the parameters after one record; throws exactly on an id that is no string |
| TurboSync.LoadRecords | native/shared/Database-turboSync.cpp:115-170 | a load goes through if and only if every record is bound and its id is neither stored already nor bound by an earlier record; then it inserts one row for each |
| TurboSync.LoadsIff | native/shared/Database-turboSync.cpp:140-170 | a load goes through if and only if every id given is a text and no row would get an id that is stored already or that an earlier row has |
| TurboSync.LoadedRowsAreOwn | native/shared/Database-turboSync.cpp:140-144 | in a load that goes through each row depends on its own record alone: a record without an id gets through only while no id was bound before it |
| TurboSync.BoundIsSanitized | native/shared/Database-turboSync.cpp:146-165 | a column is bound to its sanitized value unless, and only unless, its last value is unacceptable and the last acceptable one before is not the default |
| TurboSync.DependsOnlyOnItsRecord | native/shared/Database-turboSync.cpp:140-144 | the parameters bound are independent of earlier records if and only if the record has an id |
| TurboSync.TurboSyncRefinesSanitizing | native/shared/Database-turboSync.cpp:115-170 | selecting row i gives what selecting the ordinary insert of the sanitized record i gives, if and only if no key of it is shadowed so; it then sanitizes to that record, synced and unchanged; distinct keys never are shadowed |
| FailingInputs.RepeatedKey | native/shared/Database-turboSync.cpp:136-166 | an input with a repeated key where the two differ |
| FailingInputs.MissingId | native/shared/Database-turboSync.cpp:140-144 | a record without an id gets the one of the record before, which the primary key refuses |
| Descendants.InnerIs | src/Model/helpers.ts:40-49 | exactly the proper descendants, each after all of its own |
| Descendants.FetchedAreDescendants | src/Model/helpers.ts:51-56 | de-duplicated: each once, still after its own descendants, and not the record itself |
| Descendants.FetchingEndsIff | src/Model/helpers.ts:40-49 | ends if and only if no record at or below is its own descendant |
| Descendants.MarkEach | src/Model/index.ts:208-218 | preparing a list throws if and only if one has a pending change, is disposable, or is listed twice; else each is marked as deleted and otherwise as it was |
| Descendants.MarkWithDescendants | src/Model/index.ts:263-270 | marks the descendants, each after its own, and the record itself last; throws only on a change prepared before |
| FailingInputs.HalfwayQuery | native/shared/Database-query.cpp:61-79 | a query that throws after its first row: the sides disagree |
| FailingInputs.ThrowingUpdater | src/Model/index.ts:149-166 | an updater that throws after an assignment: the cached record is out of step |
| FailingInputs.FailedBatch | src/Database/index.ts:481-528 | a batch of one renamed record fails: its model is out of step |
| FailingInputs.HalfwayDestroy | src/Database/index.ts:581-630 | a mass destroy of two records stops at the pending one: the model of the other is out of step |
| FailingInputs.AnotherInstance | src/Database/index.ts:498-500 | a record held over a reset is updated after it was created anew: the new model is out of step |
| FailingInputs.BetweenHalves | native/shared/Database-batch.cpp:42-48 | a created record between the halves of a batch |
| FailingInputs.ZeroTake | src/Query/index.ts:171-172 | a query with `Q.take(0)`, extended by nothing, is a different query |
| FailingInputs.RawQuery | src/adapters/sqlite/encodeQuery/index.ts:211-216 | a raw select gives a deleted record |
| FailingInputs.OwnChild | src/Model/helpers.ts:40-49 | fetching the descendants of a record that is its own child never ends |

## Left out

- RecordBridge.Database.PerformBatch: the two halves are one step of the model; `AgreementBetweenHalves` says exactly when a read between them would meet a disagreement.
- RecordBridge.Database.UnsafeReset: a reset that fails in the middle, which leaves a database without tables, is not modelled.
- DatabaseRuns.Run: queries name the ids they want and select those that exist; a query that throws half-way after uncached rows is followed by forgetting the sent ids; commands that name no table or record there is do nothing.
- RecordBridge.Database.PerformMassDestroy: that the mutation selects the same rows as the select before it is part of the model of the statement.
- NativeRecords.NativeDatabase.Batch: dropping and recreating indices around large batches, which changes no row, is left out.
- PreparedStatements.NativeDatabase.PrepareQuery: SQLite is taken to return a handle when it reports success.
- Models.Model.PrepareUpdate: the updater is the list of edits it makes, `updatedAt` among them, and whether it throws after them; one that changes the id or the status directly is not modelled.
- TurboSync.LoadRecords: the residual values are left out, and the transaction around it is that nothing is inserted when it throws; numbers in the JSON are finite.
- Seeds.MarkerRoundTrip: texts with blanks or a sign, which the library never writes, are not parsed.
- Seeds.SeededDatabase.RunSeed: being killed is a session of the history, not a path of this method; `onError` and `onDone` do not throw, and a marker that cannot be written is not written in part.
- DeletedRows.QueryKeepsMeaning: `on` is "some associated row meets all conditions"; the SQL joins that implement it, where a left join can meet conditions with no row, are not modelled. Raw expressions speak of the current row only; what a raw query gives is any function of the database.
- WorkQueues.WorkQueue.Turn: a flow is known exactly across awaits; the one-microtask heuristic without such a context, the stuck warnings and the stack names are left out.
- Notifications.Conservation: subscribers do not throw; which subscribers of several tables are called is left out.
- Descendants.MarkWithDescendants: the graph does not change while it is fetched; the database it is fetched from is not part of it.
- Checks that the source makes only outside production (raw queries beside other clauses, skip without take, seed steps) are taken as made.
- SQLite, JSON parsing, locks, memory signals and the bridge encodings of values: foreign calls.
- Rx observables, React hooks, decorators, the Loki adapter, migrations, the sync protocol and the HTTP layer: not part of this model.
