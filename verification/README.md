# DashDashGo, modelled in Dafny

DashDashGo downloads a report, cleans it and loads it into a ClickHouse table. This project models the
parts that decide whether the table can be trusted, and proves what they promise. All paths below are
those of the repository.

`dafny verify dfyconfig.toml` checks the whole project.

## What is modelled

**The load protocol** (`warehouse`, `load_protocol`, `load_limits`, `loader`). The table is a list of stored
rows with key, record, run id and version, plus the window of the newest 1000 insert tokens. Inserts may
be acknowledged, lost, or stored and reported failed; merges may drop dominated rows at any time; a run
can be counted and deleted. FINAL shows the newest version of each key.

**Runs** (`load_phase`, `stages`, `orchestrator`, `run_sequence`, with `errors`, `retry`, `metadata`, `tracker`). The
orchestrator as a class over the table, the metadata log and a clock: stages, retries, duplicate
detection, load, verification, rollback and the terminal status. Whatever may go wrong outside the
program goes through the class `Outside`, which keeps the errors it raised, so contracts can say that a
failure had a cause. The invariant of the class is the statement about all runs: as long as every
failed load was undone, readers see the overlay of the datasets of all SUCCESS runs in the order of
their start times. `RunSequence.RunAll` states it for any sequence of requests, refused ones included. At
every write of a run, any number of records of other requests may have been written in between; a run
reads and keeps its own.

**Starting runs** (`runner`). A state machine over submit, run_now, worker threads and process crashes, with
the claim set of each process and the lock of each report. It proves what the orchestrator's class takes
for granted: one run of a report at a time, no load of the report by anyone else meanwhile
(`OthersDoNotLoad`), and start times that increase in load order.

**The data path** (`frames`, `strings`, `coercion`, `quality`, `service`, `verdicts`, `fingerprint`, `compute`,
`exact_values`, `flatten`, `flat_names`, `flat_frames`). Column-wise coercion and the rule loop against a
verdict per row, natural-key uniqueness, the order-independent fingerprint with the CSV quoting of section 2
of RFC 4180, the compute interpreter, and flattening of values, of names and of whole frames. `verdicts` says
of rows and frames, in terms of their cells only, what is kept, rejected and refused; `exact_values` says
what expressions are worth as mathematics.

**Two stateful cores** (`redactor`, `store`). Replacing secrets in log text, and the versioned config store.

## Assumptions

- A clock never shows the same instant twice, and run ids are not reused; versions therefore differ
  between runs. One report writes a table, and its destination does not change.
- The metadata writes of a run succeed; recording a refused request may fail.
- Configuration is valid: positive batch size and attempts, at least one column, different column names
  without ':', and no negative share of invalid rows.
- How a cell of a column is rendered is a parameter. Runs, duplicate detection and the overlay are
  proved for any rendering, in terms of rendered lines. Only the statements that compare datasets
  instead of their lines ask that different cells one column can hold have different texts
  (`Schema.RendersApart`); nothing is asked across columns.
- Content hashes are injective, files are written atomically.
- Stored keys that differ in Python differ in the table.

## Where the code does less than it says

- The comment on `rollback` (src/dashdashgo/warehouse/loader.py:121-125) says each key shows its previous
  version again; the repository's README.md adds that after a merge versions may be gone and "come back on
  the next successful run". A third case exists: a merge can keep an outdated version and drop the one that
  was visible, so the rollback shows old data. Each key shows its previous version again, whatever is
  merged, exactly when the run only inserted keys that were not stored before
  (`RollbackRestoresIffKeysAreNew`); each key shows its previous version or nothing exactly when no outdated
  version with other data was stored for a key the run touched (`RollbackSafeIffVersionsAgree`).
  `RunRollsBack` ties both to the rows a run had stored. And keys need not come back with the next
  successful run: while the data repeats the run is skipped and leaves the gap (`RunAfterLostKey`).
- Only the program's own errors are rolled back (src/dashdashgo/orchestration/pipeline.py:203); an
  unexpected exception or an interrupt during the load leaves its rows visible
  (`LeftBehindRowsAreVisible`), and from then on the invariant about the overlay makes no promise.
- Insert tokens make retries harmless up to 1000 batches and not beyond
  (`RetryIsDroppedIffWithinWindow`); verification then refuses the doubled load. Without a retry no number
  of batches and no merge makes it fail.
- Redaction can leave a secret readable when the secret starts or ends with '*' or contains eight of them
  (`NeverLeaksIffMaskSafe`).
- Flattening silently overwrites a value when two paths give the same name, the later one stays
  (`NothingLostIffNamesApart`, `KeyWithSeparatorLosesAValue`). Keys that do not contain the separator are
  safe exactly when the separator does not overlap itself (`SeparatesAllIffNoBorder`,
  `LongSeparatorLosesAValue`). A cell that is no object survives the flattening of its column exactly when
  it is null and the column generates any (`LeafIsKeptIffNull`).
- A Decimal whose rounded coefficient needs more than 28 digits raises decimal.InvalidOperation, which the
  per-cell handler does not catch: the stage fails instead of the row (`DecimalAcceptance`).
- `run_now` discards a claim it never made (`RunNowDropsTheClaim`): the claim of a report is exact in a
  process, in every interleaving, exactly when run_now of that report is not used there
  (`ClaimsExactIffNoRunNow`).
- "Any null operand gives null" (src/dashdashgo/ingestion/transforms.py:505) does not hold for chained
  comparisons (`ChainBeforeNull`): under every arithmetic a null column decides the result exactly when it
  is named somewhere outside the third and later operands of comparisons (`NullDecidesIffForced`,
  `EveryNullDecidesIff`). Named only there, it still does in the rows where all earlier comparisons of the
  chain are true. The repository's README.md lists the operator `//`, which the code does not have.
- "Any edit can be inspected or rolled back" (src/dashdashgo/config/store.py:8-9) holds for 50 saves: the
  history is pruned, and the first of 51 different texts is nowhere on disk after the saves (`SaveEach`).

## Model

| member | source | states |
|---|---|---|
| `Orchestrator.PipelineOrchestrator.Run` | src/dashdashgo/orchestration/pipeline.py:65-99 | Every run, for any rendering and whatever others record meanwhile, keeps the invariant that readers see the key-by-key overlay of the datasets of all SUCCESS runs, in the order they were loaded, while every failed load was undone; its record is complete; SUCCESS loads the clean rows, stored once each, and inserted plus rejected records are all rows; SKIPPED leaves the view alone because the lines are those of the last load; FAILED names the stage it was in and has a cause, an outside fault or refused rows, never the number of batches or a merge; after a rollback readers see the earlier view, or what RolledBack still promises where merges took rows; whatever happens, keys the run does not carry show what they showed; and an interrupt is raised again exactly when one came in |
| `Orchestrator.PipelineOrchestrator.Track` | src/dashdashgo/orchestration/pipeline.py:65-99 | The same from the table the run finds |
| `Orchestrator.PipelineOrchestrator.Conduct` | src/dashdashgo/orchestration/pipeline.py:65-99 | One run tracked from its QUEUED record to its end, with merges before it; its promises are about the table before those |
| `Orchestrator.PipelineOrchestrator.Supervise` | src/dashdashgo/orchestration/pipeline.py:76-98 | Failures before and after the stages, and interrupts, still end the run exactly once; a run that already ended is not touched; what is no Exception is raised again exactly when it came in |
| `Orchestrator.PipelineOrchestrator.Execute` | src/dashdashgo/orchestration/pipeline.py:101-217 | Started under a new start time, then SUCCESS, SKIPPED or FAILED; only an interrupt leaves it RUNNING for the caller, and any interrupt that came in does escape |
| `Orchestrator.PipelineOrchestrator.Process` | src/dashdashgo/orchestration/pipeline.py:113-208 | Loads unless the lines are those of the last load and no reload is forced; it fails only if something outside failed or the rows were refused, however many batches there are |
| `Orchestrator.PipelineOrchestrator.LoadDataset` | src/dashdashgo/orchestration/pipeline.py:188-208 | The dataset is overlaid on the view and put on record; or something outside failed, and after the rollback the view is the earlier one unless merges had taken the last newest row of a key |
| `Orchestrator.PipelineOrchestrator.SkipDuplicate` | src/dashdashgo/orchestration/pipeline.py:181-186 | Nothing is loaded; the stages left out are recorded and the duplicate is named |
| `Orchestrator.Ingest` | src/dashdashgo/orchestration/pipeline.py:114-180 | Success means the source is accepted, the dataset is its clean rows, its fingerprint is recorded, and a duplicate is named exactly when the last load carries that fingerprint; the table is untouched |
| `Orchestrator.CheckAndNote` | src/dashdashgo/orchestration/pipeline.py:141-164 | The quality stage and the counts and fingerprint it puts on record |
| `Orchestrator.Prepare` | src/dashdashgo/orchestration/pipeline.py:114-139 | Stages up to transform in pipeline order; a failure comes from outside and names a stage before quality |
| `Orchestrator.RepeatsIffSameLines` | src/dashdashgo/orchestration/pipeline.py:166-173 | Fingerprint equality with the last load holds exactly when the rendered rows are the same, in any order |
| `Orchestrator.SameLinesIffSameData` | src/dashdashgo/ingestion/service.py:36-43 | Where the cells of each column have different texts, those are exactly the same rows |
| `Orchestrator.SkipVerdict` | src/dashdashgo/orchestration/pipeline.py:181-186 | Leaving out a repeated dataset changes the view exactly if some row of it is not shown; over the overlay of all loads it changes nothing |
| `Orchestrator.SkippingIsSound` | src/dashdashgo/orchestration/pipeline.py:181-186 | While the table shows the overlay of all loads, loading the last load's data again changes nothing |
| `Warehouse.ReloadAfterAnotherLoadMatters` | src/dashdashgo/orchestration/pipeline.py:167-173 | X, Y, X: the third load changes the view, so only the latest load may be compared |
| `Warehouse.OverlayChangesNothingIff` | src/dashdashgo/orchestration/pipeline.py:166-186 | Loading a dataset changes nothing exactly when every record of it is shown already |
| `RunSequence.RunAll` | src/dashdashgo/orchestration/pipeline.py:65-99 | After any sequence of requests the loads are the clean rows of the SUCCESS runs, in order, and as long as each failed load was undone (one of the program's own errors, the delete succeeded, every earlier row is still outlived) readers see exactly those datasets loaded one after the other over what they saw before, from an empty table on the overlay of all loads; skipped, refused and rolled-back runs contribute nothing; whatever failed, keys no request carries show what they showed |
| `RunSequence.RunOne` | src/dashdashgo/orchestration/runner.py:99-122 | One request: it adds its dataset exactly when it ends SUCCESS, any other end that was undone or came before the load leaves the view as it was, a rollback that met merges leaves what RolledBack says, and other keys are always kept; an interrupt is what it raises exactly when one came in |
| `RunSequence.Refuse` | src/dashdashgo/orchestration/runner.py:106-122 | With the lock busy the record goes from QUEUED to FAILED with error stage queued, or stays QUEUED when that cannot be saved; refused or not, an interrupt is raised exactly when one came in; versions of other runs, loads and their order stay as they are |
| `RunSequence.RefuseQueued` | src/dashdashgo/orchestration/runner.py:106-122 | Table and loads are untouched by a refused request |
| `RunSequence.RefusedVersionsAreForeign` | src/dashdashgo/orchestration/runner.py:106-122 | Records of a refused request, saved while a run of the report is going on, keep that run's invariants |
| `RunSequence.RunAfterLostKey` | src/dashdashgo/orchestration/pipeline.py:166-186 | A run that is skipped leaves a lost key lost, although loading its data would have changed the view |
| `RunSequence.Queue` | src/dashdashgo/orchestration/runner.py:86-95 | A run starts as one QUEUED record under an id nobody used |
| `LoadPhase.LoadAndVerify` | src/dashdashgo/orchestration/pipeline.py:188-207 | Success stores each dataset row exactly once and overlays it on the view; only outside faults make it fail, for any number of batches; a failure of the program's own kind whose delete succeeds leaves no row of the run and, under any merges, what RolledBack says of the view, without merges the table exactly as before; any failure leaves other keys alone |
| `LoadPhase.InsertWithRetry` | src/dashdashgo/orchestration/pipeline.py:190-197 | Retries exactly while attempts fail with retryable errors and attempts remain; every mix of lost, stored and stored-but-failed inserts keeps the job's progress invariant; without a fault every row is stored once |
| `LoadPhase.LoadStage` | src/dashdashgo/orchestration/pipeline.py:190-198 | The retried load as one recorded stage |
| `LoadPhase.VerifyStage` | src/dashdashgo/orchestration/pipeline.py:200-202 | Fails by itself only when the count differs |
| `LoadPhase.Confirm` | src/dashdashgo/orchestration/pipeline.py:200-202 | A confirmed load is exact and overlays the earlier view, with merges at any point; a load that stored each batch once, or that fits the window, is refused only for an outside fault |
| `LoadPhase.Undo` | src/dashdashgo/orchestration/pipeline.py:203-207 | The delete is attempted; a delete failing with the program's own error does not replace the original one; when it succeeds, under any merges, RolledBack holds, and other keys are kept even when it does not |
| `LoadPhase.VerifiedLoad` | src/dashdashgo/warehouse/loader.py:106-118 | A matching count after a completed load means the run's rows are the dataset and the view its overlay |
| `LoadPhase.CountMatchesIfStoredOnce` | src/dashdashgo/ingestion/quality.py:128-138 | With each batch stored once merging never spoils the count, for any number of batches |
| `LoadPhase.CountMatchesWithinWindow` | src/dashdashgo/warehouse/loader.py:106-118 | With at most 1000 batches that is so whatever was retried |
| `LoadProtocol.JobOfDataset` | src/dashdashgo/warehouse/loader.py:87-97 | A dataset with unique natural keys, cut into batches, has each key in one batch only and loses no row |
| `LoadProtocol.FlattenChunks` | src/dashdashgo/warehouse/loader.py:87-88 | The batches, one after the other, are the dataset |
| `LoadProtocol.ChunkCount` | src/dashdashgo/warehouse/loader.py:87-88 | So many batches suffice exactly when there are at most so many times the batch size rows |
| `LoadProtocol.ProgressStarts` | src/dashdashgo/warehouse/loader.py:72-78 | A new run starts with nothing of it in the table |
| `LoadProtocol.InsertKeepsProgress` | src/dashdashgo/warehouse/loader.py:92-97 | An insert that reaches the server, for the first or a later time, keeps committed blocks complete and, within the window, stored once |
| `LoadProtocol.MergeKeepsProgress` | src/dashdashgo/ingestion/quality.py:128-138 | Background merges never take a row of the current run away, because natural keys are unique within the dataset and its version is newest |
| `LoadProtocol.FirstInsertKeepsStoredOnce` | src/dashdashgo/warehouse/loader.py:89-97 | The first insert of a block stores its rows once and doubles none |
| `LoadProtocol.MergeKeepsStoredOnce` | src/dashdashgo/ingestion/quality.py:128-138 | Merges neither double nor drop a row of the run |
| `LoadProtocol.StoredOnceIsExact` | src/dashdashgo/warehouse/loader.py:106-118 | A completed load that stored each row once holds exactly the dataset |
| `LoadProtocol.ExactlyOnce` | src/dashdashgo/warehouse/loader.py:87-104 | With at most 1000 batches a completed load holds each dataset row exactly once under its run id, whatever was retried |
| `LoadProtocol.VerifiedCountIsExact` | src/dashdashgo/warehouse/loader.py:106-118 | Beyond the window a matching count still means none missing, doubled or foreign |
| `LoadProtocol.RollbackRestoresTheView` | src/dashdashgo/warehouse/loader.py:120-131 | Without merges in between, deleting the run's rows restores the earlier view |
| `LoadProtocol.CompletedLoadOverlays` | src/dashdashgo/warehouse/reader.py:48-67 | A completed load overlays its dataset on the earlier view, key by key |
| `LoadProtocol.UncommittedKeyIsKept` | src/dashdashgo/warehouse/reader.py:48-67 | Keys without a committed row of the run show what they showed before |
| `LoadLimits.RollbackSafeIffVersionsAgree` | src/dashdashgo/warehouse/loader.py:120-125 | Under arbitrary merges a rollback shows earlier data or nothing for every key exactly when no outdated version with other data was stored for a touched key |
| `LoadLimits.RunRollsBack` | src/dashdashgo/warehouse/loader.py:120-131 | After the rollback of a run, whatever it had inserted and whatever merges ran: only earlier rows are left, other keys show what they showed, its keys show the earlier data or nothing if their stored versions agreed, and everything is as before if its keys were new or every earlier row is still outlived |
| `LoadLimits.RunIsInsertedOver` | src/dashdashgo/warehouse/loader.py:87-131 | What a run has stored is a merge of the earlier rows and its own, so the conditions above apply to it |
| `LoadLimits.RunKeepsOthers` | src/dashdashgo/warehouse/reader.py:48-67 | Before any rollback a run shows in its own keys only |
| `LoadLimits.RolledBackAfterMerges` | src/dashdashgo/warehouse/loader.py:120-131 | Merges before the run do not change these promises |
| `LoadLimits.MergesBetweenInserts` | src/dashdashgo/warehouse/loader.py:87-97 | Merges between two inserts of a run are merges after both |
| `LoadLimits.OutdatedVersionResurfaces` | src/dashdashgo/warehouse/loader.py:120-125 | Otherwise a merge schedule makes that outdated version visible |
| `LoadLimits.StaleVersionAfterRollback` | src/dashdashgo/warehouse/loader.py:120-125 | The smallest case: the data of the run before last becomes visible again |
| `LoadLimits.RollbackRestoresIffKeysAreNew` | src/dashdashgo/warehouse/loader.py:120-125 | Under arbitrary merges the view after the rollback is the view before the run exactly when no inserted key was stored before |
| `LoadLimits.TouchedKeyVanishes` | src/dashdashgo/warehouse/loader.py:120-125 | Otherwise a merge schedule makes the key disappear |
| `LoadLimits.LeftBehindRowsAreVisible` | src/dashdashgo/orchestration/pipeline.py:203-207 | Without a rollback readers see the earlier view exactly when the landed blocks only repeat shown records |
| `LoadLimits.RetryIsDroppedIffWithinWindow` | src/dashdashgo/warehouse/ddl.py:19-21 | A retry after a committed last block drops block 0 exactly when the load has at most 1000 batches; beyond that it is stored twice |
| `LoadLimits.WindowAfter` | src/dashdashgo/warehouse/ddl.py:51 | The window holds the newest 1000 tokens |
| `Loader.WarehouseLoader.Load` | src/dashdashgo/warehouse/loader.py:72-104 | Success sends every row and commits every block; what was committed stays committed; other runs' rows are not changed by it |
| `Loader.WarehouseLoader.InsertBatch` | src/dashdashgo/warehouse/loader.py:89-97 | One tokened insert with merges in the background |
| `Loader.WarehouseLoader.Verify` | src/dashdashgo/warehouse/loader.py:106-118 | Succeeds only with the expected number of stored rows of the run |
| `Loader.WarehouseLoader.Rollback` | src/dashdashgo/warehouse/loader.py:120-131 | Success leaves no row of the run; without merges exactly the other rows |
| `Loader.ClickHouseTable.InsertBlock` | src/dashdashgo/warehouse/loader.py:92-97 | A block is stored unless its token is still in the window; an error leaves open whether it was |
| `Loader.ClickHouseTable.CountRun` | src/dashdashgo/warehouse/loader.py:107-112 | The number of stored rows of a run |
| `Loader.ClickHouseTable.DeleteRun` | src/dashdashgo/warehouse/loader.py:126-130 | Removes exactly the rows of a run; an error leaves open whether it did |
| `Loader.ClickHouseTable.BackgroundMerge` | src/dashdashgo/warehouse/ddl.py:46-51 | Rows only disappear when a row of the same key and no older version remains |
| `Warehouse.MergesKeepTheView` | src/dashdashgo/warehouse/reader.py:48-67 | Merges never change what FINAL shows |
| `Warehouse.NewestSurvives` | src/dashdashgo/warehouse/ddl.py:46-51 | A newest row survives every merge |
| `Warehouse.NewestIsShown` | src/dashdashgo/warehouse/reader.py:48-67 | FINAL shows the newest version of a key |
| `Warehouse.ShownRow` | src/dashdashgo/warehouse/reader.py:48-67 | Everything FINAL shows is a newest stored row |
| `Frames.SameKeyIffAgree` | src/dashdashgo/ingestion/quality.py:128 | Records share a natural key exactly when their cells agree in every key column |
| `Frames.UniqueIffNoTwoAgree` | src/dashdashgo/ingestion/quality.py:128 | Natural keys are unique exactly when no two rows agree in every key column |
| `Retry.CallWithRetry` | src/dashdashgo/utils/retry.py:49-81 | The result is that of the first attempt that succeeds, fails for good or is the last, with the delays in between; it stops early on a failure only if that is one not to be retried |
| `Retry.BackoffIsMonotoneAndCapped` | src/dashdashgo/utils/retry.py:34-36 | Delays never shrink and never exceed the maximum |
| `Retry.HealsIff` | src/dashdashgo/utils/retry.py:39-43 | Retried are the program's own errors that say so, other exceptions that look like network or browser failures, and never an interrupt |
| `Retry.DelaysMultiply` | src/dashdashgo/utils/retry.py:34-36 | The first delay is the initial one, each later one the one before times the multiplier, all up to the maximum |
| `Retry.RetriedInterrupt` | src/dashdashgo/utils/retry.py:65-69 | An interrupt ends the attempts: if one came in it is the outcome |
| `Metadata.RunRepository.LatestLoad` | src/dashdashgo/metadata/repository.py:219-225 | The SUCCESS run of the report with the greatest start time among current versions |
| `Metadata.LatestLoadIff` | src/dashdashgo/metadata/repository.py:219-225 | That is the run that started last among those whose last saved version is a SUCCESS of the report |
| `Metadata.LatestLoadEndedLast` | src/dashdashgo/metadata/repository.py:219-225 | Latest by start time is the load that ended last |
| `Metadata.UnloadedVersionKeepsLoads` | src/dashdashgo/metadata/repository.py:162-165 | Versions that are no load of the report leave its loads alone |
| `Metadata.ForeignVersionKeeps` | src/dashdashgo/metadata/repository.py:162-165 | What other requests save leaves a run's versions and the report's loads alone |
| `Metadata.RunRepository.VersionsMeanwhile` | src/dashdashgo/metadata/repository.py:162-165 | Any number of such versions in between |
| `Metadata.NewLoadIsLast` | src/dashdashgo/metadata/repository.py:162-165 | A load that started after the earlier ones becomes the last |
| `Tracker.StepKeepsLifecycle` | src/dashdashgo/metadata/tracker.py:54-89 | Statuses are QUEUED, RUNNING with one start time, then one terminal status, or QUEUED then FAILED |
| `Tracker.StagesEndOnce` | src/dashdashgo/metadata/tracker.py:91-147 | Every stage that starts has exactly one matching end, except those still running |
| `Tracker.HeadlinesArePrefix` | src/dashdashgo/orchestration/pipeline.py:114-202 | A headline stage is entered only after every earlier one of the pipeline |
| `Tracker.OnlyLastOrRepeatedFail` | src/dashdashgo/orchestration/pipeline.py:114-202 | Only the last headline stage, or a repeated acquisition attempt, failed |
| `Tracker.RunTracker.Save` | src/dashdashgo/metadata/tracker.py:54-56 | Saving a version keeps the lifecycle and the order of loads, whatever other requests saved in between |
| `Tracker.RunTracker.Start` | src/dashdashgo/metadata/tracker.py:63-64 | RUNNING with a new start time |
| `Tracker.RunTracker.Succeed` | src/dashdashgo/metadata/tracker.py:66-72 | SUCCESS with the inserted count |
| `Tracker.RunTracker.Skip` | src/dashdashgo/metadata/tracker.py:66-75 | SKIPPED naming the duplicate |
| `Tracker.RunTracker.Fail` | src/dashdashgo/metadata/tracker.py:77-89 | FAILED, attributed to the current headline stage, else to the error's own stage |
| `Tracker.RunTracker.StageStart` | src/dashdashgo/metadata/tracker.py:91-108 | The stage is running innermost; a headline stage becomes the current one |
| `Tracker.RunTracker.StageEnd` | src/dashdashgo/metadata/tracker.py:109-142 | The innermost stage ends with its outcome |
| `Tracker.RunTracker.SkippedStage` | src/dashdashgo/metadata/tracker.py:149-164 | A skipped stage is recorded without being entered |
| `Stages.Acquire` | src/dashdashgo/acquisition/service.py:55-68 | Building the adapter may fail and leave no record of acquisition; otherwise the attempts under retry |
| `Stages.TryAttempts` | src/dashdashgo/acquisition/service.py:58-68 | One headline stage per attempt, all but the last failed with retryable errors |
| `Stages.AttemptsKeepOrder` | src/dashdashgo/acquisition/service.py:58-68 | Repeated acquisition attempts keep the pipeline order |
| `Stages.Attempt` | src/dashdashgo/acquisition/service.py:70-114 | Sub-steps in order until one fails, each recorded, nested in the attempt and not moving the headline stage; without a failed sub-step it ends before the first, after the browser or the login, or after the last |
| `Stages.LogIn` | src/dashdashgo/acquisition/service.py:78-90 | Browser and login, with what may fail around them |
| `Stages.OnPage` | src/dashdashgo/acquisition/service.py:91-108 | The sub-steps after the login, each recorded with its outcome, up to the first that fails |
| `Stages.CheckQuality` | src/dashdashgo/orchestration/pipeline.py:141-160 | Succeeds exactly when the source is accepted, unless something outside fails; an interrupt is the result exactly when one came in |
| `Stages.FindDuplicate` | src/dashdashgo/orchestration/pipeline.py:166-180 | Names the last load exactly when it carries the same fingerprint |
| `Stages.LastLoaded` | src/dashdashgo/metadata/repository.py:219-225 | The latest load on record is the load before this run, whatever other requests recorded meanwhile |
| `Runner.EveryInterleavingIsSafe` | src/dashdashgo/orchestration/runner.py:41-178 | All invariants below hold after every interleaving of submit, run_now, execution and crashes |
| `Runner.OneRunPerReport` | src/dashdashgo/orchestration/runner.py:41-55 | At most one run of a report is inside the orchestrator, across threads and processes |
| `Runner.StartsFollowLoadOrder` | src/dashdashgo/orchestration/runner.py:103-104 | SUCCESS records of a report have increasing start times in load order |
| `Runner.RefusedIffLockHeld` | src/dashdashgo/orchestration/runner.py:41-55 | A run is refused exactly when another request of its report, of any process, holds the lock; nothing else changes |
| `Runner.NextPhaseIff` | src/dashdashgo/orchestration/runner.py:41-178 | A request can come exactly where the code takes it: claimed if nobody claimed the report in its process, locked or refused as the lock is free or held by another, started after every earlier start, over before or after it discards its claim |
| `Runner.EveryRequestCanEnd` | src/dashdashgo/orchestration/runner.py:41-174 | From any state whose lock table is right every request can end, in at most eight steps of its own, its lock released; if nobody is in its way it can load, once |
| `Runner.OthersDoNotLoad` | src/dashdashgo/orchestration/runner.py:103-104 | While a request holds the lock of its report nobody else loads that report, and only a crash of its process takes the lock away |
| `Runner.ClaimedIffPending` | src/dashdashgo/orchestration/runner.py:147-178 | While nobody in a process uses run_now for a report, the report is claimed there exactly while one run of it is pending |
| `Runner.ClaimsExactIffNoRunNow` | src/dashdashgo/orchestration/runner.py:123-174 | A claim is exact in all interleavings exactly when run_now of that report is not used in that process |
| `Runner.RunNowDropsTheClaim` | src/dashdashgo/orchestration/runner.py:122-125 | With one run_now of it in the same process, any process, two submitted runs of a report can be pending |
| `Runner.MoveKeepsLocks` | src/dashdashgo/orchestration/runner.py:41-55 | The lock table names exactly the requests that hold a lock |
| `Runner.MoveKeepsLoads` | src/dashdashgo/orchestration/runner.py:99-104 | A run in progress started after all loads of its report |
| `Runner.MoveKeepsClaims` | src/dashdashgo/orchestration/runner.py:161-174 | Claiming and discarding keep a report's claim exact where nobody uses run_now for it |
| `Runner.MoveKeepsNoStaleClaim` | src/dashdashgo/orchestration/runner.py:122-125 | In any process a claimed report has a pending run, so a claim never blocks it for good |
| `IngestionService.Validate` | src/dashdashgo/ingestion/service.py:80-101 | The dataset is the rows without messages, coerced and in order; the rejected frame is the others as they came, with their messages; it fails exactly when a column is missing, a converter raises something unexpected, a gate refuses or clean rows share a key |
| `IngestionService.KeptRowsAreClean` | src/dashdashgo/ingestion/quality.py:121-122 | The kept rows are a filter of the rows by what is reported against each |
| `IngestionService.RejectedRowsAreDirty` | src/dashdashgo/ingestion/service.py:50-55 | The rejected rows are the complementary filter, with messages |
| `IngestionService.CleanAndDirtyPartition` | src/dashdashgo/ingestion/quality.py:106-108 | Kept and rejected rows add up to all rows |
| `IngestionService.CleanRowsHaveColumns` | src/dashdashgo/ingestion/coercion.py:225-227 | Dataset rows have exactly the destination columns |
| `IngestionService.CleanCellsAreHeld` | src/dashdashgo/ingestion/coercion.py:206-227 | Every cell of the dataset is one its column's converter gives, or null |
| `IngestionService.JoinOneMore` | src/dashdashgo/ingestion/service.py:54 | The messages of a rejected row are joined in order with "; " in between |
| `Verdicts.CleanRowsAreTheKept` | src/dashdashgo/ingestion/service.py:80-101 | The dataset is, in order, the rows whose cells each are an allowed blank or converted and satisfy every rule, with exactly the destination columns |
| `Verdicts.DirtyRowsAreTheOthers` | src/dashdashgo/ingestion/service.py:50-55 | The rejected frame is, in order, all other rows as they came, with what is reported against them |
| `Verdicts.NoMessagesIffKept` | src/dashdashgo/ingestion/quality.py:90-103 | Nothing is reported against a row exactly when it is kept |
| `Verdicts.AcceptedIff` | src/dashdashgo/ingestion/service.py:80-101 | A frame is accepted exactly when it has every destination column, no converter crashes, the rows not kept are tolerated, at most the allowed share, and leave enough, and no two kept rows agree in every key column |
| `Verdicts.RequiredColumnsHoldNoNull` | src/dashdashgo/ingestion/coercion.py:210-215 | Where converters give no null, no null is loaded into a column that is not nullable |
| `Verdicts.ReportedAboutColumn` | src/dashdashgo/ingestion/quality.py:90-103 | Of a column one problem at most is reported: that of its coercion, else that of the first rule its value violates |
| `Quality.RowIsKeptIff` | src/dashdashgo/ingestion/quality.py:90-103 | A row is kept exactly when every cell coerced or is an allowed null and its converted cells satisfy every rule; otherwise it has at most one message per column |
| `Quality.NoViolationIffSatisfied` | src/dashdashgo/ingestion/quality.py:64-76 | A rule holds of a value exactly when it is blank and not required, or a number from the minimum to the maximum, if there are any, whose text is an allowed one and matches the pattern; else the first of these that fails is reported |
| `Quality.GateIsOpenIff` | src/dashdashgo/ingestion/quality.py:107-122 | The gates are open exactly when no row is invalid or the policy tolerates it, the invalid rows are at most the allowed share of all, and enough valid rows are left |
| `Quality.FirstGateRefuses` | src/dashdashgo/ingestion/quality.py:107-122 | The policy refuses before the share, the share before the size |
| `Quality.CleanIffRulesHold` | src/dashdashgo/ingestion/quality.py:92-103 | Skipping rules on columns that already failed never changes the verdict |
| `Quality.OneMessagePerColumn` | src/dashdashgo/ingestion/quality.py:94-97 | At most one message per column |
| `Quality.PositionsPartition` | src/dashdashgo/ingestion/quality.py:105-122 | Kept and rejected positions partition the rows, in row order |
| `Quality.ApplyRule` | src/dashdashgo/ingestion/quality.py:92-103 | One rule over all rows |
| `Quality.CheckKeys` | src/dashdashgo/ingestion/quality.py:121-139 | Accepts exactly when no two kept rows agree in every key column; otherwise names the original positions of all rows that agree with another |
| `Quality.Evaluate` | src/dashdashgo/ingestion/quality.py:84-139 | Rules, then the gates in order, then the key check, whose refusal names the rows that agree in every key column |
| `Coercion.CoerceFrame` | src/dashdashgo/ingestion/coercion.py:196-227 | A blank cell is null in the result and reported as missing exactly when its column is not nullable; any other cell gets its converter's value, or is null and reported with the converter's reason, and nothing else is said about its column; it fails exactly when a converter raises something else on a cell that is not blank |
| `Coercion.CellsAreHandled` | src/dashdashgo/ingestion/coercion.py:210-223 | The same of one row |
| `Coercion.MissingIffBlank` | src/dashdashgo/ingestion/frames.py:20-25 | Missing are null and the texts of which stripping leaves nothing |
| `Coercion.AsciiBlankIff` | src/dashdashgo/ingestion/frames.py:20-25 | An ASCII text is blank exactly when it is all spaces, tabs, line ends and other control characters that count as space |
| `Coercion.CoerceColumn` | src/dashdashgo/ingestion/coercion.py:206-223 | One column of it |
| `Coercion.HalfEvenIsNearest` | src/dashdashgo/ingestion/coercion.py:97 | Half-even rounding is the nearest integer, the even one on a tie |
| `Coercion.DecimalAcceptance` | src/dashdashgo/ingestion/coercion.py:92-102 | Accepted exactly when the rounded coefficient is below 10^P, except that a coefficient of more than 28 digits raises another exception |
| `Coercion.DecimalIsCloseAndStable` | src/dashdashgo/ingestion/coercion.py:92-102 | Within half a unit of the last place, and stable under a second coercion |
| `Fingerprint.FingerprintIsCanonical` | src/dashdashgo/ingestion/service.py:36-47 | Where different cells of a column have different texts, equal bytes exactly for the same rows in any order |
| `Fingerprint.SameRowsSameLines` | src/dashdashgo/ingestion/service.py:43-46 | Reordered rows give the same lines, whatever the rendering |
| `Fingerprint.SameBytesIffSameLines` | src/dashdashgo/ingestion/service.py:43-46 | With any rendering, equal bytes exactly for the same rendered rows |
| `Fingerprint.OtherNamesOtherFingerprint` | src/dashdashgo/ingestion/service.py:45 | With the same lines, other column names or another order of them give other bytes |
| `Fingerprint.JoinTellsNames` | src/dashdashgo/ingestion/service.py:45 | Names without the separator character are told apart by the joined names |
| `Fingerprint.CsvRoundTrip` | src/dashdashgo/ingestion/service.py:46 | The CSV text determines the rows |
| `Fingerprint.FieldIsWritten` | src/dashdashgo/ingestion/service.py:46 | A field is written as it is unless it holds a comma, a quote or a line end; then in quotes, its own quotes doubled |
| `Fingerprint.SortSorts` | src/dashdashgo/ingestion/service.py:44 | Sorting is an ordered permutation |
| `Fingerprint.LineLeqIff` | src/dashdashgo/ingestion/service.py:44 | Rows are ordered by the first column in which they differ |
| `Fingerprint.TextLeqIff` | src/dashdashgo/ingestion/service.py:44 | Texts are ordered by the first character in which they differ, a beginning before the whole |
| `Fingerprint.SortedIsCanonical` | src/dashdashgo/ingestion/service.py:44 | Two sorted permutations of the same rows are equal |
| `Compute.Evaluate` | src/dashdashgo/ingestion/transforms.py:504-544 | The recursive interpreter with its loops computes the denotation of the expression, whose values ExactValues.EvaluatesToMeaning gives |
| `ExactValues.EvaluatesToMeaning` | src/dashdashgo/ingestion/transforms.py:504-544 | Over exact numbers every accepted expression, on every row of numbers, flags, number texts and blanks, evaluates to its mathematical value, null exactly where that is unknown, and never fails |
| `ExactValues.FailsOnFirstTrouble` | src/dashdashgo/ingestion/transforms.py:485-517 | Without chained comparisons an expression fails exactly when it names a column the row lacks or one that holds no number, and the first of them is reported |
| `ExactValues.WholePowers` | src/dashdashgo/ingestion/transforms.py:443-450 | Whole powers are repeated products, negative ones their inverses |
| `ExactValues.TruncatedIsTowardZero` | src/dashdashgo/ingestion/transforms.py:443-450 | The remainder is that of the quotient cut off toward zero |
| `Compute.AcceptedIffAllPartsAllowed` | src/dashdashgo/ingestion/transforms.py:466-482 | Accepted are exactly the expressions all of whose parts are allowed |
| `Compute.AcceptedIsSupported` | src/dashdashgo/ingestion/transforms.py:466-482 | Accepted expressions never reach unsupported syntax or operators; they only fail on data |
| `Compute.FillingNullsKeepsResults` | src/dashdashgo/ingestion/transforms.py:504-544 | Replacing nulls never changes a result that was not null |
| `Compute.NullDecidesIffForced` | src/dashdashgo/ingestion/transforms.py:504-544 | A null column makes the result null in every row and under every arithmetic exactly when every path evaluates it: of a comparison only the first two operands |
| `Compute.EveryNullDecidesIff` | src/dashdashgo/ingestion/transforms.py:504-505 | Any null operand gives null exactly when all named columns are such |
| `Compute.NullIsContagiousWithoutChains` | src/dashdashgo/ingestion/transforms.py:504-505 | Without chained comparisons a null in any named column gives null |
| `Compute.ChainBeforeNull` | src/dashdashgo/ingestion/transforms.py:530-539 | A chained comparison may be False before it reaches a null |
| `Compute.FirstVerdictDecides` | src/dashdashgo/ingestion/transforms.py:530-539 | A chain is decided by its first pair of neighbours that does not compare as true |
| `Compute.AllTrueIsTrue` | src/dashdashgo/ingestion/transforms.py:530-539 | When no pair does, the chain is true |
| `Flattening.FlattenValue` | src/dashdashgo/ingestion/transforms.py:323-330 | The recursion with its loop assigns exactly the listed entries, in order |
| `Flattening.EndsAreThose` | src/dashdashgo/ingestion/transforms.py:323-330 | The list of ends holds exactly the paths that end at a leaf or a cut-off subtree, each once |
| `Flattening.EntriesFollowEnds` | src/dashdashgo/ingestion/transforms.py:323-330 | The assignments follow the ends one by one: each is the value its path ends at, under the path's name |
| `Flattening.NothingLostIffNamesApart` | src/dashdashgo/ingestion/transforms.py:323-330 | The flat record has one entry per end exactly when no two ends have the same name, and then it is their values in order; otherwise it has fewer |
| `Flattening.ApartIffDistinct` | src/dashdashgo/ingestion/transforms.py:323-330 | Entries have distinct names exactly when ends of the same name are the same |
| `Flattening.LastEndIsFound` | src/dashdashgo/ingestion/transforms.py:330 | Under a shared name the value of the last end is kept |
| `FlatNames.SeparatesAllIffNoBorder` | src/dashdashgo/ingestion/transforms.py:328 | Every object whose keys do not contain the separator gets distinct names exactly when the separator has no proper border or only one level is flattened |
| `FlatNames.SameNameSamePath` | src/dashdashgo/ingestion/transforms.py:328 | The half for separators without a border, path by path |
| `FlatNames.BorderJoinsNames` | src/dashdashgo/ingestion/transforms.py:328 | An object with separator-free keys and two paths of one name for any separator with a border |
| `FlatNames.KeyWithSeparatorLosesAValue` | src/dashdashgo/ingestion/transforms.py:328-330 | A key containing the separator overwrites a nested value |
| `FlatNames.LongSeparatorLosesAValue` | src/dashdashgo/ingestion/transforms.py:316-330 | With the separator aa even keys not containing it collide |
| `FlatFrames.NamesAreThose` | src/dashdashgo/ingestion/transforms.py:348 | Generated columns are the names of all records, each once |
| `FlatFrames.NamesInOrder` | src/dashdashgo/ingestion/transforms.py:348 | They come in the order in which they first appear, row by row |
| `FlatFrames.ExpandColumn` | src/dashdashgo/ingestion/transforms.py:341-357 | The generated columns take the original's place, the others keep theirs; a taken name refuses |
| `FlatFrames.ExpandedValues` | src/dashdashgo/ingestion/transforms.py:341-351 | Each value is found in the column of its path's name, unless a later path has the same name |
| `FlatFrames.FlattenFrame` | src/dashdashgo/ingestion/transforms.py:333-357 | The columns one after the other, each over the frame the ones before it left; refused for a missing column, a clash or a column that is gone |
| `FlatFrames.FlattenedFrame` | src/dashdashgo/ingestion/transforms.py:341-357 | Afterwards the frame holds the unlisted columns, untouched and in order, and exactly the columns generated from each listed one, none lost to a later round; no title repeats |
| `FlatFrames.FlattenedValues` | src/dashdashgo/ingestion/transforms.py:341-357 | In every object of every listed column, the value of the last end of a name is found in the finished frame under that name |
| `FlatFrames.OtherCellsAreNull` | src/dashdashgo/ingestion/transforms.py:343-351 | A generated column is null in the rows that have no end of its name, and in those without an object |
| `FlatFrames.LeafIsKeptIffNull` | src/dashdashgo/ingestion/transforms.py:343-351 | A cell that is no object is held by a generated column exactly when it is null and there is one |
| `FlatFrames.SucceedsIffNoClash` | src/dashdashgo/ingestion/transforms.py:341-357 | Flattening succeeds exactly when, in the starting frame, no listed column generates the title of an unlisted column, of one listed later, or one an earlier listed column generates |
| `FlatFrames.RoundSucceedsIff` | src/dashdashgo/ingestion/transforms.py:352-353 | The same for one round |
| `FlatFrames.OnlyClashesRefuse` | src/dashdashgo/ingestion/transforms.py:339-353 | Listing existing columns once each, only a clash of names refuses |
| `FlatFrames.ObjectColumnsAreFound` | src/dashdashgo/ingestion/transforms.py:336-339 | So it is when none are listed: the columns with objects exist, once each |
| `FlatFrames.ObjectColumnsAreThose` | src/dashdashgo/ingestion/transforms.py:336-338 | They are exactly the columns that hold an object in some row |
| `Redactor.NeverLeaksIffMaskSafe` | src/dashdashgo/observability/logging.py:39-49 | A secret is kept out of every text, whatever else is registered, exactly when it neither starts nor ends with * and holds no eight of them in a row |
| `Redactor.MaskSafeNeverLeaks` | src/dashdashgo/observability/logging.py:44-49 | The completeness half, for any set and order of secrets |
| `Redactor.ReplaceRemoves` | src/dashdashgo/observability/logging.py:47-48 | Replacing a mask-safe secret removes it |
| `Redactor.ReplaceMakesNothingAppear` | src/dashdashgo/observability/logging.py:47-48 | Replacing another secret does not bring one back |
| `Redactor.RedactIsIdempotent` | src/dashdashgo/observability/logging.py:44-49 | Redacting again changes nothing |
| `Redactor.WholeSecretIsMasked` | src/dashdashgo/observability/logging.py:46 | Longest first: a secret containing others is masked as a whole |
| `Redactor.ShorterFirstShowsTheRest` | src/dashdashgo/observability/logging.py:46 | Shortest first would show the rest of it |
| `Redactor.SecretRedactor.Register` | src/dashdashgo/observability/logging.py:39-42 | Values of at least four characters are remembered |
| `Redactor.SecretRedactor.Redact` | src/dashdashgo/observability/logging.py:44-49 | The text with every secret replaced, the longest first; no mask-safe secret is left |
| `Redactor.SecretRedactor.Sorted` | src/dashdashgo/observability/logging.py:46 | The secrets by descending length, ties in any order |
| `Store.ConfigStore.Apply` | src/dashdashgo/config/store.py:174-250 | Over any sequence of operations a text that was ever live is on disk or was pushed out by 50 later texts; a text live at the start is on disk after up to 50 saves of its report; archived files only accumulate; a seeded name that left comes back only by a create |
| `Store.OnDiskIffRecent` | src/dashdashgo/config/store.py:246-250 | A text is on disk exactly when it is live, archived, or fewer than 50 texts of the report were replaced after it |
| `Store.OnDiskUnlessPushedOut` | src/dashdashgo/config/store.py:246-250 | A text that was ever live is on disk unless 50 later texts were replaced after every replacement of it |
| `Store.SaveEach` | src/dashdashgo/config/store.py:174-190 | Saving different texts one after the other, the first is still on disk exactly after at most 50 saves |
| `Store.ConfigStore.Save` | src/dashdashgo/config/store.py:174-190 | Refused exactly when invalid, unknown or changed since it was opened; otherwise the old text enters the history |
| `Store.ConfigStore.Create` | src/dashdashgo/config/store.py:192-207 | An existing report is never replaced |
| `Store.ConfigStore.Archive` | src/dashdashgo/config/store.py:209-214 | The file moves to the archive, text and all |
| `Store.ConfigStore.SeedBundled` | src/dashdashgo/config/store.py:216-239 | Adds exactly the bundled reports never seeded and not present; overwrites nothing |
| `Store.ConfigStore.TakeSnapshot` | src/dashdashgo/config/store.py:246-250 | The replaced text enters the history |
| `Store.HistoryAfterSnapshot` | src/dashdashgo/config/store.py:246-250 | After pruning the history is the newest 50 replaced texts in order |
| `Store.ReportNames` | src/dashdashgo/config/loader.py:29 | Report names are a lower-case letter and one to 62 lower-case letters, digits or underscores |

## Left out

- Browser and dashboard code: acquisition is a sequence of recorded steps that may fail from outside.
- The HTTP API, UI, CLI, scheduler and AI assistant.
- File readers and the other transforms; the rows after the transforms are an input of the run.
- `prepare` and schema drift, storage of artifacts, run summaries and log texts.
- Run record fields that nothing here depends on (trigger, file hash, durations, error texts).
- How pandas renders and sorts missing values: every cell, null or not, has a text here.
- Runs interrupted by a crash and `mark_interrupted`; a crash is modelled only for claims and locks.
- Executor shutdown with cancelled futures.
- Several reports sharing a table, partitions, and storage precision.
- Integer, float, boolean, date and time conversions, NaN and infinite numbers, and texts parsed as
  numbers; a converter is a function that converts, rejects or raises.
- Regular expressions, Python's text of a value and Decimal arithmetic are parameters; `exact_values` fixes the
  arithmetic to exact numbers, except for powers that are not whole, and leaves out Decimal's rounding.
- `compute` writing its columns one after the other; bool-by-bool arithmetic, which gives floats.
- Serialising lists in flattened frames, and frames with repeated column names.
- `archive` and `seed_bundled` racing with `save`; validation and templates of configurations.
- Retry.CallWithRetry: operations are functions of the attempt number; the two retried operations with
  effects repeat its loop in LoadPhase.InsertWithRetry and Stages.Acquire.
- LoadLimits.RollbackSafeIffVersionsAgree: the delete is one step; merges during it are not modelled.
- LoadLimits.RollbackRestoresIffKeysAreNew: likewise one delete, after all merges.
- Orchestrator.PipelineOrchestrator.Run: of a failure whose rows were not deleted it says only that other keys
  are kept; what readers see of its own keys is LoadLimits' subject, and later runs build on whatever that is.
- ExactValues.FailsOnFirstTrouble: a chained comparison may stop before it reads its later operands; with chains
  only that failures come from data is stated (`Compute.AcceptedIsSupported`).
- RunSequence.Refuse: the refused request comes before or after the run that holds the lock; that its
  records may also fall in between is part of every run.
