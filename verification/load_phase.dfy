/** The load and verify stages of one run, under retry, and the rollback that follows a failure. */
module LoadPhase {
  import opened Frames
  import opened Errors
  import opened Retry
  import opened Warehouse
  import opened LoadProtocol
  import opened LoadLimits
  import opened Loader
  import opened Metadata
  import opened Tracker

  /** The tracker is recording a run between two headline stages. */
  ghost predicate Running(tracker: RunTracker)
    reads tracker, tracker.repository
  {
    tracker.Valid() && tracker.run.status == RUNNING && tracker.Open() == [] && PipelineOrder(tracker.Timeline())
  }

  predicate IsNext(timeline: seq<StageRecord>, stage: Stage) {
    && stage.IsHeadline()
    && if timeline == [] then stage == Config
       else timeline[|timeline| - 1].status == Succeeded && Rank(stage) == Rank(timeline[|timeline| - 1].stage) + 1
  }

  predicate EndsWith(timeline: seq<StageRecord>, stage: Stage, status: StageStatus) {
    timeline != [] && timeline[|timeline| - 1].stage == stage && timeline[|timeline| - 1].status == status
  }

  /** The load or its verification failed. */
  predicate LoadFailed(timeline: seq<StageRecord>) {
    EndsWith(timeline, Stage.Load, Failed) || EndsWith(timeline, Stage.Verify, Failed)
  }

  lemma NextStageKeepsOrder(timeline: seq<StageRecord>, record: StageRecord)
    requires PipelineOrder(timeline) && IsNext(timeline, record.stage)
    ensures PipelineOrder(timeline + [record])
  {
    var longer := timeline + [record];
    forall i | 0 <= i < |longer| - 1 ensures Follows(longer[i], longer[i + 1]) {
      if i < |timeline| - 1 { assert Follows(timeline[i], timeline[i + 1]); }
    }
  }

  /** Enter a headline stage. */
  method Enter(tracker: RunTracker, stage: Stage) returns (record: StageRecord)
    requires Running(tracker) && IsNext(tracker.Timeline(), stage)
    modifies tracker`run, tracker.repository
    ensures tracker.Valid() && tracker.run == old(tracker.run).(currentStage := Some(stage))
    ensures record == StageRecord(tracker.run.runId, stage, 1, Started)
    ensures tracker.Open() == [record] && tracker.Timeline() == old(tracker.Timeline()) + [record]
  {
    hide RunTracker.Valid, RunTracker.Timeline, RunTracker.Open, PipelineOrder;
    record := tracker.StageStart(stage, 1);
  }

  /** Leave the only running stage, a headline one. */
  method Leave(tracker: RunTracker, record: StageRecord, failed: bool, ghost before: seq<StageRecord>)
    requires tracker.Valid() && tracker.run.status == RUNNING && tracker.Open() == [record]
    requires record.status == Started && record.runId == tracker.run.runId
    requires tracker.Timeline() == before + [record] && PipelineOrder(before) && IsNext(before, record.stage)
    modifies tracker.repository`stages
    ensures Running(tracker)
    ensures tracker.Timeline() == before + [record.(status := Ending(failed))]
  {
    hide RunTracker.Valid, RunTracker.Timeline, RunTracker.Open, PipelineOrder;
    tracker.StageEnd(record, failed);
    NextStageKeepsOrder(before, record.(status := Ending(failed)));
  }

  /** call_with_retry around WarehouseLoader.load: every attempt inserts the same blocks under the same
      tokens, with the version fixed before the first attempt. */
  method InsertWithRetry(loader: WarehouseLoader, frame: seq<Record>, runId: RunId, version: nat, maxAttempts: nat,
                         ghost job: Job, ghost base: seq<StoredRow>, ghost w0: seq<Token>)
    returns (sent: Result<nat>, attempts: nat, ghost now: set<nat>)
    requires maxAttempts >= 1 && loader.batchSize > 0
    requires job == JobOf(frame, loader.keyColumns, loader.batchSize, runId, version) && job.Valid()
    requires Fresh(base, w0, job) && base == loader.table.rows && w0 == loader.table.window
    modifies loader.table, loader.table.outside
    ensures Retried(old(loader.table.outside.faults), loader.table.outside.faults, ErrorOf(sent), attempts, maxAttempts)
    ensures Progress(base, loader.table.rows, loader.table.window, job, now)
    ensures sent.Success? ==> sent.value == |frame| && now == AllBlocks(job)
    ensures loader.table.outside.faults == old(loader.table.outside.faults) ==>
              StoredOnce(loader.table.rows, job, now)
    ensures !loader.table.merged ==> multiset(Without(loader.table.rows, runId)) == multiset(base)
  {
    ProgressStarts(base, w0, job);
    NoAttemptYet(loader.table.outside.faults);
    hide Progress, Fresh, Without, Job.Valid, JobOf, StoredOnce, Retried, Raised;
    now, attempts := {}, 1;
    ghost var before := loader.table.outside.faults;
    while true
      invariant Retrying(before, loader.table.outside.faults, attempts - 1)
      invariant Progress(base, loader.table.rows, loader.table.window, job, now)
      invariant 1 <= attempts <= maxAttempts
      invariant attempts == 1 ==> now == {} && StoredOnce(loader.table.rows, job, {})
      invariant !loader.table.merged ==> multiset(Without(loader.table.rows, runId)) == multiset(base)
      decreases maxAttempts - attempts
    {
      ghost var during := loader.table.outside.faults;
      sent, now := loader.Load(frame, runId, version, job, base, w0, now);
      if sent.Success? || !sent.error.IsRetryable() || attempts == maxAttempts {
        LastAttempt(before, during, ErrorOf(sent), attempts, maxAttempts);
        return;
      }
      AttemptFails(before, during, attempts - 1, ErrorOf(sent));
      attempts := attempts + 1;
    }
  }

  method LoadStage(tracker: RunTracker, loader: WarehouseLoader, frame: seq<Record>, version: nat, maxAttempts: nat,
                   ghost job: Job, ghost base: seq<StoredRow>, ghost w0: seq<Token>)
    returns (sent: Result<nat>, attempts: nat, ghost now: set<nat>)
    requires Running(tracker) && IsNext(tracker.Timeline(), Stage.Load)
    requires maxAttempts >= 1 && loader.batchSize > 0
    requires job == JobOf(frame, loader.keyColumns, loader.batchSize, tracker.run.runId, version) && job.Valid()
    requires Fresh(base, w0, job) && base == loader.table.rows && w0 == loader.table.window
    modifies tracker`run, tracker.repository, loader.table, loader.table.outside
    ensures Retried(old(loader.table.outside.faults), loader.table.outside.faults, ErrorOf(sent), attempts, maxAttempts)
    ensures Running(tracker) && tracker.run == old(tracker.run).(currentStage := Some(Stage.Load))
    ensures tracker.Timeline() == old(tracker.Timeline())
              + [StageRecord(tracker.run.runId, Stage.Load, 1, Ending(sent.Failure?))]
    ensures Progress(base, loader.table.rows, loader.table.window, job, now)
    ensures sent.Success? ==> sent.value == |frame| && now == AllBlocks(job)
    ensures loader.table.outside.faults == old(loader.table.outside.faults) ==>
              StoredOnce(loader.table.rows, job, now)
    ensures !loader.table.merged ==> multiset(Without(loader.table.rows, job.runId)) == multiset(base)
  {
    hide RunTracker.Valid, RunTracker.Timeline, RunTracker.Open, PipelineOrder, Progress, Fresh, Without, Job.Valid;
    hide StoredOnce;
    ghost var before := tracker.Timeline();
    var record := Enter(tracker, Stage.Load);
    sent, attempts, now := InsertWithRetry(loader, frame, tracker.run.runId, version, maxAttempts, job, base, w0);
    Leave(tracker, record, sent.Failure?, before);
  }

  method VerifyStage(tracker: RunTracker, loader: WarehouseLoader, expected: nat) returns (found: Result<nat>)
    requires Running(tracker) && IsNext(tracker.Timeline(), Stage.Verify)
    modifies tracker`run, tracker.repository, loader.table`rows, loader.table`merged, loader.table.outside
    ensures Running(tracker) && tracker.run == old(tracker.run).(currentStage := Some(Stage.Verify))
    ensures tracker.Timeline() == old(tracker.Timeline())
              + [StageRecord(tracker.run.runId, Stage.Verify, 1, Ending(found.Failure?))]
    ensures Merged(old(loader.table.rows), loader.table.rows)
    ensures found.Success? ==> found.value == expected == |RunRows(loader.table.rows, tracker.run.runId)|
    ensures found.Failure? ==>
              if loader.table.outside.faults == old(loader.table.outside.faults)
              then found.error == DomainError(Stage.Verify, false)
                  && |RunRows(loader.table.rows, tracker.run.runId)| != expected
              else loader.table.outside.faults == old(loader.table.outside.faults) + [found.error]
    ensures found.Success? ==> loader.table.outside.faults == old(loader.table.outside.faults)
    ensures old(loader.table.merged) ==> loader.table.merged
    ensures !loader.table.merged ==> loader.table.rows == old(loader.table.rows)
  {
    hide RunTracker.Valid, RunTracker.Timeline, RunTracker.Open, PipelineOrder, Merged, RunRows;
    ghost var before := tracker.Timeline();
    var record := Enter(tracker, Stage.Verify);
    found := loader.Verify(tracker.run.runId, expected);
    Leave(tracker, record, found.Failure?, before);
  }

  /** What the next run needs of the table: one row per version, none newer than `version`. */
  ghost predicate Orderly(rows: seq<StoredRow>, version: nat) {
    OneRowPerVersion(rows) && forall r | r in rows :: r.version <= version
  }

  lemma FewerRowsStayOrderly(rows: seq<StoredRow>, fewer: seq<StoredRow>, version: nat)
    requires Orderly(rows, version) && forall r | r in fewer :: r in rows
    ensures Orderly(fewer, version)
  {
  }

  lemma InFlightIsOrderly(base: seq<StoredRow>, rows: seq<StoredRow>, window: seq<Token>, w0: seq<Token>, job: Job,
        now: set<nat>)
    requires job.Valid() && Fresh(base, w0, job) && InFlight(base, rows, window, job, now)
    ensures Orderly(rows, job.version)
  {
    InFlightVersions(base, rows, window, job, now, w0);
    forall r | r in rows ensures r.version <= job.version {
      if r.runId == job.runId { assert InBlocks(job, now, r); }
    }
  }

  /** A completed load that verification confirmed, whatever merges ran in between. */
  lemma VerifiedLoad(base: seq<StoredRow>, rows: seq<StoredRow>, rows': seq<StoredRow>, window: seq<Token>,
        w0: seq<Token>,
                     job: Job, frame: seq<Record>, keyColumns: seq<string>)
    requires job.Valid() && Fresh(base, w0, job) && InFlight(base, rows, window, job, AllBlocks(job))
    requires UniqueKeys(frame, keyColumns) && Merged(rows, rows')
    requires Flatten(job.blocks) == StoredRows(frame, keyColumns, job.runId, job.version)
    requires |RunRows(rows', job.runId)| == |frame|
    ensures FinalView(rows') == Overlay(FinalView(base), frame, keyColumns)
    ensures multiset(RunRows(rows', job.runId)) == multiset(StoredRows(frame, keyColumns, job.runId, job.version))
  {
    MergeKeepsInFlight(base, rows, rows', window, w0, job, AllBlocks(job));
    hide InFlight, Fresh, Merged, Job.Valid, FinalView, Overlay;
    VerifiedCountIsExact(base, rows', window, job);
    CompletedLoadOverlays(base, rows', window, w0, job, frame, keyColumns);
  }

  lemma RemainingRows(rows: seq<StoredRow>, between: seq<StoredRow>, after: seq<StoredRow>, runId: RunId)
    requires Merged(rows, between) && (after == between || after == Without(between, runId))
    ensures forall r | r in after :: r in rows
  {
    MergedMembers(rows, between);
    WithoutMembers(between, runId);
  }

  /** A load that stored each batch once is counted right, for any number of batches and whatever merges run:
      merging never spoils the count. */
  lemma CountMatchesIfStoredOnce(base: seq<StoredRow>, rows: seq<StoredRow>, rows': seq<StoredRow>,
                                 window: seq<Token>, w0: seq<Token>, job: Job)
    requires job.Valid() && Fresh(base, w0, job) && Progress(base, rows, window, job, AllBlocks(job))
    requires StoredOnce(rows, job, AllBlocks(job)) && Merged(rows, rows')
    ensures |RunRows(rows', job.runId)| == |Flatten(job.blocks)|
  {
    MergeKeepsProgress(base, rows, rows', window, w0, job, AllBlocks(job));
    MergeKeepsStoredOnce(base, rows, rows', window, w0, job, AllBlocks(job));
    hide InFlight, WithinWindow, Fresh, Merged, Job.Valid, StoredOnce;
    StoredOnceIsExact(base, rows', window, job);
    assert |multiset(RunRows(rows', job.runId))| == |multiset(Flatten(job.blocks))|;
  }

  /** Within the token window that is so whatever was retried. */
  lemma CountMatchesWithinWindow(base: seq<StoredRow>, rows: seq<StoredRow>, rows': seq<StoredRow>, window: seq<Token>,
                                 w0: seq<Token>, job: Job)
    requires job.Valid() && Fresh(base, w0, job) && |job.blocks| <= DEDUP_WINDOW
    requires Progress(base, rows, window, job, AllBlocks(job)) && Merged(rows, rows')
    ensures |RunRows(rows', job.runId)| == |Flatten(job.blocks)|
  {
    hide Progress, Fresh, Merged, Job.Valid, StoredOnce, RunRows, Flatten;
    ProgressWithinWindow(base, rows, window, job, AllBlocks(job));
    CountMatchesIfStoredOnce(base, rows, rows', window, w0, job);
  }

  /** The verify stage after a completed load. */
  method Confirm(tracker: RunTracker, loader: WarehouseLoader, ghost frame: seq<Record>, sent: nat,
                 ghost job: Job, ghost base: seq<StoredRow>, ghost w0: seq<Token>)
    returns (found: Result<nat>)
    requires Running(tracker) && IsNext(tracker.Timeline(), Stage.Verify)
    requires job.Valid() && Fresh(base, w0, job) && job.runId == tracker.run.runId && sent == |frame|
    requires Progress(base, loader.table.rows, loader.table.window, job, AllBlocks(job))
    requires UniqueKeys(frame, loader.keyColumns)
    requires Flatten(job.blocks) == StoredRows(frame, loader.keyColumns, job.runId, job.version)
    modifies tracker`run, tracker.repository, loader.table`rows, loader.table`merged, loader.table.outside
    ensures Running(tracker) && tracker.run == old(tracker.run).(currentStage := Some(Stage.Verify))
    ensures EndsWith(tracker.Timeline(), Stage.Verify, Ending(found.Failure?))
    ensures Orderly(loader.table.rows, job.version)
    ensures found.Success? ==>
              && found.value == |frame|
              && FinalView(loader.table.rows) == Overlay(FinalView(base), frame, loader.keyColumns)
              && multiset(RunRows(loader.table.rows, job.runId))
                 == multiset(StoredRows(frame, loader.keyColumns, job.runId, job.version))
    ensures old(loader.table.outside.faults) <= loader.table.outside.faults
    ensures Interrupted(old(loader.table.outside.faults), loader.table.outside.faults)
       <==> ErrorOf(found) == Some(Interrupt)
    ensures found.Failure? && !found.error.DomainError? ==>
              IsNewestFault(old(loader.table.outside.faults), loader.table.outside.faults, found.error)
    ensures found.Failure? && (old(StoredOnce(loader.table.rows, job, AllBlocks(job))) || |job.blocks| <= DEDUP_WINDOW)
            ==> loader.table.outside.faults != old(loader.table.outside.faults)
    ensures InFlight(base, loader.table.rows, loader.table.window, job, AllBlocks(job))
    ensures old(loader.table.merged) ==> loader.table.merged
    ensures !loader.table.merged ==> loader.table.rows == old(loader.table.rows)
  {
    hide Interrupted;
    hide RunTracker.Valid, RunTracker.Timeline, RunTracker.Open, PipelineOrder;
    hide RunRows, Job.Valid, Merged, FinalView, Overlay, InFlight, WithinWindow, Fresh, Orderly, UniqueKeys;
    hide StoredOnce;
    ghost var loaded := loader.table.rows;
    InFlightIsOrderly(base, loaded, loader.table.window, w0, job, AllBlocks(job));
    ghost var faults := loader.table.outside.faults;
    found := VerifyStage(tracker, loader, sent);
    assert faults + Raised(None) == faults;
    InterruptedBy(faults, None);
    if found.Failure? { InterruptedBy(faults, Some(found.error)); }
    if found.Success? {
      VerifiedLoad(base, loaded, loader.table.rows, loader.table.window, w0, job, frame, loader.keyColumns);
    }
    MergeKeepsInFlight(base, loaded, loader.table.rows, loader.table.window, w0, job, AllBlocks(job));
    if StoredOnce(loaded, job, AllBlocks(job)) {
      CountMatchesIfStoredOnce(base, loaded, loader.table.rows, loader.table.window, w0, job);
    } else if |job.blocks| <= DEDUP_WINDOW {
      CountMatchesWithinWindow(base, loaded, loader.table.rows, loader.table.window, w0, job);
    }
    RemainingRows(loaded, loader.table.rows, loader.table.rows, job.runId);
    FewerRowsStayOrderly(loaded, loader.table.rows, job.version);
  }

  /** Untouched by merges, the earlier rows are all there. */
  lemma SameRowsAreThinned(base: seq<StoredRow>, rows: seq<StoredRow>)
    requires multiset(base) == multiset(rows)
    ensures Thinned(base, rows)
  {
    SameRowsAreMerged(base, rows);
    MergedMembers(base, rows);
  }

  /** Whether the delete took effect or not, the failed run shows in no key but its own. */
  lemma UndoneOrNot(base: seq<StoredRow>, failed: seq<StoredRow>, between: seq<StoredRow>, after: seq<StoredRow>,
                    window: seq<Token>, w0: seq<Token>, job: Job, now: set<nat>)
    requires job.Valid() && Fresh(base, w0, job) && InFlight(base, failed, window, job, now)
    requires Merged(failed, between) && (after == between || after == Without(between, job.runId))
    ensures OthersKept(base, after, KeysIn(Flatten(job.blocks)))
    ensures after == Without(between, job.runId) ==> RolledBack(base, after, KeysIn(Flatten(job.blocks)))
  {
    MergeKeepsInFlight(base, failed, between, window, w0, job, now);
    hide Without, Merged, InFlight, Fresh, OthersKept, Thinned, KeysIn, Flatten, Job.Valid, FinalView;
    hide VersionsAgree, OldOrNothing, AreNew;
    RunKeepsOthers(base, between, window, w0, job, now);
    RunRollsBack(base, failed, between, window, w0, job, now);
  }

  lemma UndoneBy(faults: seq<Error>, trouble: Option<Error>, error: Error)
    ensures var raised := if trouble.Some? && !trouble.value.DomainError? then trouble.value else error;
            && faults <= faults + Raised(trouble)
            && (raised == error || IsNewestFault(faults, faults + Raised(trouble), raised))
            && (error.DomainError? && raised.DomainError? ==> raised == error)
            && (Interrupted(faults, faults + Raised(trouble)) ==> raised == Interrupt)
            && (error.DomainError? && raised == Interrupt ==> Interrupted(faults, faults + Raised(trouble)))
  {
    InterruptedBy(faults, trouble);
  }

  /** _rollback, and the error that propagates after it: a delete failing with one of the program's own
      errors is only logged. */
  method Undo(loader: WarehouseLoader, runId: RunId, error: Error, ghost job: Job, ghost base: seq<StoredRow>,
              ghost w0: seq<Token>, ghost now: set<nat>)
    returns (raised: Error)
    requires job.Valid() && Fresh(base, w0, job) && runId == job.runId
    requires InFlight(base, loader.table.rows, loader.table.window, job, now)
    requires !loader.table.merged ==> multiset(Without(loader.table.rows, job.runId)) == multiset(base)
    modifies loader.table`rows, loader.table`merged, loader.table`deleteFailed, loader.table.outside
    ensures Orderly(loader.table.rows, job.version)
    ensures old(loader.table.outside.faults) <= loader.table.outside.faults
    ensures raised == error || IsNewestFault(old(loader.table.outside.faults), loader.table.outside.faults, raised)
    ensures error.DomainError? && raised.DomainError? ==> raised == error
    ensures Interrupted(old(loader.table.outside.faults), loader.table.outside.faults) ==> raised == Interrupt
    ensures error.DomainError? && raised == Interrupt ==>
              Interrupted(old(loader.table.outside.faults), loader.table.outside.faults)
    ensures OthersKept(base, loader.table.rows, KeysIn(Flatten(job.blocks)))
    ensures raised.DomainError? && !loader.table.deleteFailed ==>
              && (forall r | r in loader.table.rows :: r.runId != job.runId)
              && RolledBack(base, loader.table.rows, KeysIn(Flatten(job.blocks)))
    ensures raised.DomainError? && !loader.table.deleteFailed && !loader.table.merged ==>
              multiset(loader.table.rows) == multiset(base) && Thinned(base, loader.table.rows)
  {
    ghost var failed, window := loader.table.rows, loader.table.window;
    InFlightIsOrderly(base, failed, window, w0, job, now);
    hide Interrupted, IsNewestFault, Raised;
    hide Without, Merged, FinalView, Orderly, InFlight, Fresh, OthersKept, Thinned, KeysIn, Flatten, Job.Valid;
    hide RolledBack;
    raised := error;
    ghost var faults := loader.table.outside.faults;
    var trouble := loader.Rollback(runId);
    UndoneBy(faults, trouble, error);
    ghost var between :| Merged(failed, between)
        && (loader.table.rows == Without(between, job.runId) || (trouble.Some? && loader.table.rows == between));
    RemainingRows(failed, between, loader.table.rows, job.runId);
    FewerRowsStayOrderly(failed, loader.table.rows, job.version);
    UndoneOrNot(base, failed, between, loader.table.rows, window, w0, job, now);
    if trouble.Some? {
      if !trouble.value.DomainError? { raised := trouble.value; }
    } else {
      if !loader.table.merged { SameRowsAreThinned(base, loader.table.rows); }
    }
  }

  /** Load, then verify; a failure that is one of the program's own errors is followed by a rollback. */
  method LoadAndVerify(tracker: RunTracker, loader: WarehouseLoader, frame: seq<Record>, version: nat, maxAttempts: nat)
    returns (found: Result<nat>)
    requires Running(tracker) && IsNext(tracker.Timeline(), Stage.Load)
    requires maxAttempts >= 1 && loader.batchSize > 0 && UniqueKeys(frame, loader.keyColumns)
    requires Fresh(loader.table.rows, loader.table.window,
                   JobOf(frame, loader.keyColumns, loader.batchSize, tracker.run.runId, version))
    modifies tracker`run, tracker.repository, loader.table, loader.table.outside
    ensures Running(tracker)
    ensures tracker.run == old(tracker.run).(currentStage := tracker.run.currentStage)
    ensures Orderly(loader.table.rows, version) && |loader.table.window| <= DEDUP_WINDOW
    ensures found.Success? ==>
              && EndsWith(tracker.Timeline(), Stage.Verify, Succeeded)
              && found.value == |frame|
              && FinalView(loader.table.rows) == Overlay(FinalView(old(loader.table.rows)), frame, loader.keyColumns)
              && multiset(RunRows(loader.table.rows, tracker.run.runId))
                 == multiset(StoredRows(frame, loader.keyColumns, tracker.run.runId, version))
    ensures found.Failure? ==> LoadFailed(tracker.Timeline())
    ensures old(loader.table.outside.faults) <= loader.table.outside.faults
    ensures Interrupted(old(loader.table.outside.faults), loader.table.outside.faults)
       <==> ErrorOf(found) == Some(Interrupt)
    ensures found.Failure? && !found.error.DomainError? ==>
              IsNewestFault(old(loader.table.outside.faults), loader.table.outside.faults, found.error)
    ensures found.Failure? ==>
              && loader.table.outside.faults != old(loader.table.outside.faults)
              && OthersKept(old(loader.table.rows), loader.table.rows, CarriedKeys(frame, loader.keyColumns))
    ensures found.Failure? && found.error.DomainError? && !loader.table.deleteFailed ==>
              && (forall r | r in loader.table.rows :: r.runId != tracker.run.runId)
              && RolledBack(old(loader.table.rows), loader.table.rows, CarriedKeys(frame, loader.keyColumns))
    ensures found.Failure? && found.error.DomainError? && !loader.table.deleteFailed && !loader.table.merged ==>
              && multiset(loader.table.rows) == multiset(old(loader.table.rows))
              && Thinned(old(loader.table.rows), loader.table.rows)
  {
    hide Interrupted;
    hide RunTracker.Valid, RunTracker.Timeline, RunTracker.Open, PipelineOrder;
    hide Without, RunRows, Job.Valid, FinalView, Overlay, InFlight, WithinWindow, Retried, Orderly, UniqueKeys;
    hide StoredOnce, RolledBack, KeysIn, CarriedKeys, Thinned, OthersKept;
    var runId := tracker.run.runId;
    ghost var job := JobOf(frame, loader.keyColumns, loader.batchSize, runId, version);
    ghost var base, w0 := loader.table.rows, loader.table.window;
    ghost var faults := loader.table.outside.faults;
    JobOfDataset(frame, loader.keyColumns, runId, version, loader.batchSize);
    StoredKeys(frame, loader.keyColumns, runId, version);
    loader.table.merged, loader.table.deleteFailed := false, false;
    ghost var now;
    var attempts;
    found, attempts, now := LoadStage(tracker, loader, frame, version, maxAttempts, job, base, w0);
    ErrorsComeFromOutside(faults, loader.table.outside.faults, ErrorOf(found), attempts, maxAttempts);
    RetriedInterrupt(faults, loader.table.outside.faults, ErrorOf(found), attempts, maxAttempts);
    InFlightIsOrderly(base, loader.table.rows, loader.table.window, w0, job, now);
    if found.Success? {
      ghost var loaded := loader.table.outside.faults;
      found := Confirm(tracker, loader, frame, found.value, job, base, w0);
      InterruptedBetween(faults, loaded, loader.table.outside.faults);
    }
    RunKeepsOthers(base, loader.table.rows, loader.table.window, w0, job, now);
    if found.Failure? && found.error.DomainError? {
      ghost var failed := loader.table.outside.faults;
      var raised := Undo(loader, runId, found.error, job, base, w0, now);
      InterruptedBetween(faults, failed, loader.table.outside.faults);
      found := Failure(raised);
    }
  }
}
