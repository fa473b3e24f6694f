/** PipelineOrchestrator: one run of one report, start to finish, over the state earlier runs left. */
module Orchestrator {
  import opened Frames
  import opened Errors
  import opened Retry
  import opened Warehouse
  import opened LoadProtocol
  import opened LoadLimits
  import opened Loader
  import opened Fingerprint
  import opened Metadata
  import opened Tracker
  import opened LoadPhase
  import opened Stages
  import opened IngestionService

  // --- what the loads so far say about the table -------------------------------------------------

  ghost predicate IsDataset(frame: seq<Record>, schema: Schema) {
    && UniqueKeys(frame, schema.uniqueKey)
    && (forall r | r in frame :: HasColumns(r, schema.Columns()))
    && (forall r, c | r in frame && c in r :: schema.CanHold(c, r[c]))
  }

  /** Each load record carries the fingerprint of the dataset it loaded. */
  ghost predicate Describes(records: seq<RunRecord>, loads: seq<seq<Record>>, schema: Schema, clock: nat)
    requires schema.specs != []
  {
    && |records| == |loads|
    && forall i | 0 <= i < |loads| ::
         && IsDataset(loads[i], schema)
         && records[i].dataHash == CanonicalBytes(loads[i], schema.Columns(), schema.render)
         && records[i].startedAt <= clock
  }

  /** The same rows as the last load, in whatever order. */
  ghost predicate SameAsLast(loads: seq<seq<Record>>, frame: seq<Record>) {
    loads != [] && multiset(loads[|loads| - 1]) == multiset(frame)
  }

  /** The same lines as the last load, in whatever order. */
  ghost predicate RepeatsLast(loads: seq<seq<Record>>, frame: seq<Record>, schema: Schema) {
    loads != [] && multiset(Render(loads[|loads| - 1], schema.Columns(), schema.render))
                   == multiset(Render(frame, schema.Columns(), schema.render))
  }

  /** Duplicate detection by fingerprint recognises the lines of the last load, and only those. */
  lemma RepeatsIffSameLines(records: seq<RunRecord>, loads: seq<seq<Record>>, schema: Schema, clock: nat,
                            frame: seq<Record>)
    requires schema.specs != [] && Describes(records, loads, schema, clock)
    ensures Repeats(records, CanonicalBytes(frame, schema.Columns(), schema.render))
        <==> RepeatsLast(loads, frame, schema)
  {
    hide CanonicalBytes, IsDataset, Render;
    if loads != [] {
      SameBytesIffSameLines(loads[|loads| - 1], frame, schema.Columns(), schema.render);
    }
  }

  /** Where the cells of each column have different texts, that is the data of the last load, and only that. */
  lemma SameLinesIffSameData(loads: seq<seq<Record>>, schema: Schema, frame: seq<Record>)
    requires schema.specs != [] && schema.RendersApart() && IsDataset(frame, schema)
    requires loads != [] ==> IsDataset(loads[|loads| - 1], schema)
    ensures RepeatsLast(loads, frame, schema) <==> SameAsLast(loads, frame)
  {
    if loads != [] {
      var last := loads[|loads| - 1];
      RowsAreToldApart(last, frame, schema);
      forall r | r in last + frame ensures HasColumns(r, schema.Columns()) {}
      hide IsDataset, CanonicalBytes, Render, HasColumns, TellsApart, Schema.RendersApart;
      SameBytesIffSameLines(last, frame, schema.Columns(), schema.render);
      FingerprintIsCanonical(last, frame, schema.Columns(), schema.render);
    }
  }

  lemma RowsAreToldApart(a: seq<Record>, b: seq<Record>, schema: Schema)
    requires schema.RendersApart() && IsDataset(a, schema) && IsDataset(b, schema)
    ensures TellsApart(schema.render, schema.Columns(), a + b)
  {
    hide UniqueKeys, Schema.CanHold;
    forall r, c | r in a + b && c in schema.Columns() ensures schema.CanHold(c, Get(r, c)) {
      assert HasColumns(r, schema.Columns());
    }
  }

  /** Skip soundness: while the table shows the overlay of all loads, loading the data of the last load
      again would change nothing a reader can see. */
  lemma SkippingIsSound(records: seq<RunRecord>, loads: seq<seq<Record>>, schema: Schema, clock: nat,
        frame: seq<Record>)
    requires schema.specs != [] && Describes(records, loads, schema, clock) && SameAsLast(loads, frame)
    ensures var view := OverlayAll(loads, schema.uniqueKey); Overlay(view, frame, schema.uniqueKey) == view
  {
    hide CanonicalBytes, HasColumns;
    var view := OverlayAll(loads, schema.uniqueKey);
    var last := loads[|loads| - 1];
    assert IsDataset(last, schema);
    OverlayAt(OverlayAll(loads[..|loads| - 1], schema.uniqueKey), last, schema.uniqueKey);
    forall r | r in frame ensures KeyOf(r, schema.uniqueKey) in view && view[KeyOf(r, schema.uniqueKey)] == r {
      assert r in multiset(last);
      assert r in last;
    }
    OverlayOfShownRecords(view, frame, schema.uniqueKey);
  }

  ghost predicate Shown(frame: seq<Record>, view: map<Key, Record>, keyColumns: seq<string>) {
    forall r | r in frame :: KeyOf(r, keyColumns) in view && view[KeyOf(r, keyColumns)] == r
  }

  /** What leaving out a dataset with the lines of the last load means. */
  lemma SkipVerdict(records: seq<RunRecord>, loads: seq<seq<Record>>, schema: Schema, clock: nat, source: Frame,
                    view: map<Key, Record>)
    requires schema.specs != [] && Describes(records, loads, schema, clock) && schema.Accepts(source)
    ensures var frame := schema.Clean(source.rows);
            && (schema.RendersApart() ==> (RepeatsLast(loads, frame, schema) <==> SameAsLast(loads, frame)))
            && (Overlay(view, frame, schema.uniqueKey) == view <==> Shown(frame, view, schema.uniqueKey))
            && (RepeatsLast(loads, frame, schema) && schema.RendersApart() ==>
                  view == OverlayAll(loads, schema.uniqueKey) ==> Overlay(view, frame, schema.uniqueKey) == view)
  {
    var frame := schema.Clean(source.rows);
    CleanIsDataset(source, schema);
    hide Schema.Clean, Schema.Accepts, Schema.CanHold, CanonicalBytes, RepeatsLast, SameAsLast, HasColumns;
    hide Overlay, OverlayAll;
    OverlayChangesNothingIff(view, frame, schema.uniqueKey);
    if schema.RendersApart() {
      SameLinesIffSameData(loads, schema, frame);
      if SameAsLast(loads, frame) {
        SkippingIsSound(records, loads, schema, clock, frame);
      }
    }
  }

  lemma NextLoadIsDescribed(records: seq<RunRecord>, loads: seq<seq<Record>>, schema: Schema, clock: nat, later: nat,
                            record: RunRecord, frame: seq<Record>)
    requires schema.specs != [] && Describes(records, loads, schema, clock) && clock <= later
    requires IsDataset(frame, schema) && record.startedAt <= later
    requires record.dataHash == CanonicalBytes(frame, schema.Columns(), schema.render)
    ensures Describes(records + [record], loads + [frame], schema, later)
    ensures OverlayAll(loads + [frame], schema.uniqueKey)
        == Overlay(OverlayAll(loads, schema.uniqueKey), frame, schema.uniqueKey)
  {
    hide CanonicalBytes, IsDataset;
    assert (loads + [frame])[..|loads|] == loads;
  }

  lemma CleanIsDataset(source: Frame, schema: Schema)
    requires schema.Accepts(source)
    ensures IsDataset(schema.Clean(source.rows), schema)
  {
    CleanRowsHaveColumns(schema, source.rows);
    CleanCellsAreHeld(schema, source.rows);
  }

  // --- the stages before the dataset is known ----------------------------------------------------

  lemma NothingRaised(before: seq<Error>, after: seq<Error>)
    requires after == before + Raised(None)
    ensures after == before
  {
  }

  /** From configuration to transformation; everything here happens outside the table. */
  method Prepare(tracker: RunTracker, outside: Outside, maxAttempts: nat) returns (error: Option<Error>)
    requires Running(tracker) && tracker.Timeline() == [] && maxAttempts >= 1
    modifies tracker`run, tracker.repository, outside
    ensures Running(tracker)
    ensures tracker.run == old(tracker.run).(currentStage := tracker.run.currentStage, attempts := tracker.run.attempts)
    ensures old(outside.faults) <= outside.faults
    ensures Interrupted(old(outside.faults), outside.faults) <==> error == Some(Interrupt)
    ensures error.None? ==> EndsWith(tracker.Timeline(), Stage.Transform, Succeeded)
    ensures error.Some? ==>
              && IsNewestFault(old(outside.faults), outside.faults, error.value)
              && tracker.Timeline() != []
              && 0 <= Rank(tracker.Timeline()[|tracker.Timeline()| - 1].stage) < Rank(Stage.Quality)
  {
    hide Running, RunTracker.Timeline, Attempts, Retried, Interrupted;
    ghost var start := outside.faults;
    error := OutsideStage(tracker, outside, Config);
    InterruptedBy(start, error);
    if error.Some? { return; }
    NothingRaised(start, outside.faults);
    error := OutsideStage(tracker, outside, Preflight);
    InterruptedBy(start, error);
    if error.Some? { return; }
    NothingRaised(start, outside.faults);
    ghost var before, faults := tracker.Timeline(), outside.faults;
    ghost var built;
    error, built := Acquire(tracker, outside, maxAttempts);
    if built {
      ErrorsComeFromOutside(faults, outside.faults, error, tracker.run.attempts, maxAttempts);
      AttemptsEnd(before, tracker.run.runId, tracker.run.attempts, error.Some?);
      RetriedInterrupt(faults, outside.faults, error, tracker.run.attempts, maxAttempts);
    } else {
      InterruptedBy(faults, error);
    }
    if error.Some? { return; }
    ghost var acquired := outside.faults;
    error := OutsideStage(tracker, outside, Parse);
    InterruptedNext(start, acquired, outside.faults, error);
    if error.Some? { return; }
    NothingRaised(acquired, outside.faults);
    error := OutsideStage(tracker, outside, Stage.Transform);
    InterruptedNext(start, acquired, outside.faults, error);
  }

  datatype Ingested = Ingested(dataset: PreparedDataset, duplicateOf: Option<RunId>)

  /** The quality stage and what it puts on record; keeping a copy of the dataset may still fail. */
  method CheckAndNote(tracker: RunTracker, outside: Outside, source: Frame, schema: Schema)
    returns (result: Result<PreparedDataset>)
    requires Running(tracker) && EndsWith(tracker.Timeline(), Stage.Transform, Succeeded) && schema.specs != []
    modifies tracker`run, tracker.repository, outside
    ensures Running(tracker) && old(outside.faults) <= outside.faults
    ensures Interrupted(old(outside.faults), outside.faults) <==> ErrorOf(result) == Some(Interrupt)
    ensures tracker.run == old(tracker.run).(currentStage := Some(Stage.Quality),
                                             recordsRejected := tracker.run.recordsRejected,
                                             dataHash := tracker.run.dataHash)
    ensures tracker.Timeline() != [] && tracker.Timeline()[|tracker.Timeline()| - 1].stage == Stage.Quality
    ensures result.Success? ==>
              && EndsWith(tracker.Timeline(), Stage.Quality, Succeeded) && schema.Accepts(source)
              && result.value.frame == schema.Clean(source.rows)
              && tracker.run.recordsRejected == |schema.Dirty(source.rows)|
              && tracker.run.dataHash == CanonicalBytes(schema.Clean(source.rows), schema.Columns(), schema.render)
    ensures result.Failure? ==> outside.faults != old(outside.faults) || !schema.Accepts(source)
  {
    assert tracker.run.status == RUNNING;
    hide Running, RunTracker.Timeline, Schema.Accepts, Schema.Clean, Schema.Dirty, CanonicalBytes;
    hide Interrupted;
    result := CheckQuality(tracker, outside, source, schema);
    if result.Failure? { return; }
    Note(tracker, tracker.run.(recordsRejected := |result.value.rejected|, dataHash := result.value.fingerprint));
    ghost var checked := outside.faults;
    var error := outside.Ask();
    InterruptedNext(old(outside.faults), checked, outside.faults, error);
    if error.Some? { result := Failure(error.value); }
  }

  /** Preparation, validation and duplicate detection; the table is not touched. */
  method Ingest(tracker: RunTracker, outside: Outside, maxAttempts: nat, source: Frame, schema: Schema)
    returns (result: Result<Ingested>)
    requires Running(tracker) && tracker.Timeline() == [] && maxAttempts >= 1 && schema.specs != []
    modifies tracker`run, tracker.repository, outside
    ensures Running(tracker) && tracker.Timeline() != [] && old(outside.faults) <= outside.faults
    ensures Interrupted(old(outside.faults), outside.faults) <==> ErrorOf(result) == Some(Interrupt)
    ensures tracker.run == old(tracker.run).(currentStage := tracker.run.currentStage, attempts := tracker.run.attempts,
                                             recordsRejected := tracker.run.recordsRejected,
                                             dataHash := tracker.run.dataHash)
    ensures result.Success? ==>
              && EndsWith(tracker.Timeline(), Dedup, Succeeded) && schema.Accepts(source)
              && result.value.dataset.frame == schema.Clean(source.rows)
              && tracker.run.recordsRejected == |schema.Dirty(source.rows)|
              && tracker.run.dataHash == CanonicalBytes(schema.Clean(source.rows), schema.Columns(), schema.render)
              && result.value.duplicateOf == if Repeats(tracker.earlier, tracker.run.dataHash)
                                             then Some(tracker.earlier[|tracker.earlier| - 1].runId) else None
    ensures result.Failure? ==>
              && !LoadFailed(tracker.Timeline())
              && (outside.faults != old(outside.faults) || !schema.Accepts(source))
  {
    hide Running, RunTracker.Timeline, Schema.Accepts, Schema.Clean, Schema.Dirty, CanonicalBytes, Repeats;
    hide Interrupted;
    ghost var start := outside.faults;
    var error := Prepare(tracker, outside, maxAttempts);
    if error.Some? { return Failure(error.value); }
    ghost var prepared := outside.faults;
    var checked := CheckAndNote(tracker, outside, source, schema);
    InterruptedBetween(start, prepared, outside.faults);
    if checked.Failure? { return Failure(checked.error); }
    ghost var noted := outside.faults;
    var found := FindDuplicate(tracker, outside, tracker.run.dataHash);
    InterruptedNext(start, noted, outside.faults, ErrorOf(found));
    if found.Failure? { return Failure(found.error); }
    result := Success(Ingested(checked.value, found.value));
  }

  /** Record facts about the run between two stages. */
  method Note(tracker: RunTracker, changed: RunRecord)
    requires Running(tracker) && Step(tracker.run, changed) && changed.status == RUNNING
    requires changed.currentStage == tracker.run.currentStage
    modifies tracker`run, tracker.repository`runs
    ensures Running(tracker) && tracker.run == changed && tracker.Timeline() == old(tracker.Timeline())
  {
    hide RunTracker.Valid, RunTracker.Timeline, RunTracker.Open, PipelineOrder;
    tracker.Update(changed);
  }

  lemma LaterClock(records: seq<RunRecord>, loads: seq<seq<Record>>, schema: Schema, clock: nat, later: nat)
    requires schema.specs != [] && Describes(records, loads, schema, clock) && clock <= later
    ensures Describes(records, loads, schema, later)
  {
    hide CanonicalBytes, IsDataset;
  }

  lemma FreshTable(rows: seq<StoredRow>, window: seq<Token>, frame: seq<Record>, keyColumns: seq<string>,
        batchSize: nat,
                   runId: RunId, clock: nat, version: nat)
    requires Orderly(rows, clock) && |window| <= DEDUP_WINDOW && clock < version && batchSize > 0
    requires (forall r | r in rows :: r.runId != runId) && (forall t | t in window :: t.runId != runId)
    ensures Fresh(rows, window, JobOf(frame, keyColumns, batchSize, runId, version))
  {
  }

  lemma EarlierLoadsStarted(records: seq<RunRecord>, loads: seq<seq<Record>>, schema: Schema, clock: nat, later: nat)
    requires schema.specs != [] && Describes(records, loads, schema, clock) && clock < later
    ensures forall record | record in records :: record.startedAt < later
  {
    hide CanonicalBytes, IsDataset;
  }

  lemma ViewOfThinned(before: seq<StoredRow>, rows: seq<StoredRow>, keys: set<Key>)
    ensures RolledBack(before, rows, keys) && Thinned(before, rows) ==> FinalView(rows) == FinalView(before)
  {
  }

  /** A dataset that is loaded, or left out, shows only in its own keys. */
  lemma LoadKeepsOthers(before: seq<StoredRow>, rows: seq<StoredRow>, frame: seq<Record>, keyColumns: seq<string>)
    requires UniqueKeys(frame, keyColumns)
    requires FinalView(rows) == Overlay(FinalView(before), frame, keyColumns) || FinalView(rows) == FinalView(before)
    ensures OthersKept(before, rows, CarriedKeys(frame, keyColumns))
  {
    OverlayAt(FinalView(before), frame, keyColumns);
    hide FinalView, Overlay;
    forall k | k !in CarriedKeys(frame, keyColumns) ensures SameAt(rows, before, k) {
      assert forall r | r in frame :: KeyOf(r, keyColumns) != k;
    }
  }

  lemma LaterStaysOrderly(rows: seq<StoredRow>, clock: nat, later: nat)
    requires Orderly(rows, clock) && clock <= later
    ensures Orderly(rows, later)
  {
  }

  /** The run failed while or after loading. */
  predicate FailedLate(run: RunRecord) {
    run.status == FAILED && (run.errorStage == Some(Stage.Load) || run.errorStage == Some(Stage.Verify))
  }

  // --- the orchestrator --------------------------------------------------------------------------

  class PipelineOrchestrator {
    const report: string
    const schema: Schema
    const maxAttempts: nat
    const loader: WarehouseLoader
    const repository: RunRepository
    /** The last instant the clock showed. */
    var clock: nat
    /** The datasets loaded by the report's SUCCESS runs, in order. */
    ghost var loads: seq<seq<Record>>
    /** No failed run left the table in a state its rollback could not undo. */
    ghost var intact: bool

    constructor (report: string, schema: Schema, maxAttempts: nat, loader: WarehouseLoader, repository: RunRepository)
      requires schema.specs != []
      requires maxAttempts >= 1 && loader.batchSize > 0 && loader.keyColumns == schema.uniqueKey
      requires loader.table.rows == [] && loader.table.window == []
      requires LoadsOf(repository.runs, report) == []
      ensures this.report == report && this.schema == schema && this.maxAttempts == maxAttempts
      ensures this.loader == loader && this.repository == repository && loads == [] && intact
      ensures Valid()
    {
      LoadsAreVersions(repository.runs, report);
      this.report, this.schema, this.maxAttempts := report, schema, maxAttempts;
      this.loader, this.repository, clock := loader, repository, 0;
      loads, intact := [], true;
    }

    ghost predicate Configured() {
      && schema.specs != []
      && maxAttempts >= 1 && loader.batchSize > 0 && loader.keyColumns == schema.uniqueKey
    }

    /** Readers of the table see the overlay of all loads, key by key, in the order they were loaded. */
    ghost predicate TableShowsLoads()
      reads this, loader.table
    {
      && Orderly(loader.table.rows, clock) && |loader.table.window| <= DEDUP_WINDOW
      && (intact ==> FinalView(loader.table.rows) == OverlayAll(loads, schema.uniqueKey))
    }

    ghost predicate IsNewToTable(runId: RunId)
      reads loader.table
    {
      && (forall r | r in loader.table.rows :: r.runId != runId)
      && (forall t | t in loader.table.window :: t.runId != runId)
    }

    /** The table holds each of these rows exactly once under the run's id, and no other row of the run. */
    ghost predicate IsStoredOnce(runId: RunId, frame: seq<Record>)
      reads loader.table
    {
      exists version: nat :: multiset(RunRows(loader.table.rows, runId))
                             == multiset(StoredRows(frame, schema.uniqueKey, runId, version))
    }

    /** The natural keys of the clean rows. */
    function Carried(source: Frame): set<Key> {
      CarriedKeys(schema.Clean(source.rows), schema.uniqueKey)
    }

    /** utcnow(): a clock that never shows the same instant twice. */
    method Now() returns (now: nat)
      modifies this`clock
      ensures now == clock > old(clock)
    {
      now :| now > clock;
      clock := now;
    }

    /** Load and verify the dataset, then end the run; or leave the failure to the caller. */
    method LoadDataset(tracker: RunTracker, frame: seq<Record>) returns (error: Option<Error>)
      requires Configured() && TableShowsLoads() && IsNewToTable(tracker.run.runId)
      requires Running(tracker) && tracker.repository == repository && IsNext(tracker.Timeline(), Stage.Load)
      requires IsDataset(frame, schema) && Describes(tracker.earlier, loads, schema, clock)
      requires tracker.run.dataHash == CanonicalBytes(frame, schema.Columns(), schema.render)
      requires tracker.run.startedAt <= clock
      modifies this, tracker`run, repository, loader.table, loader.table.outside
      ensures tracker.Valid() && tracker.Open() == [] && PipelineOrder(tracker.Timeline())
      ensures TableShowsLoads() && clock > old(clock)
      ensures old(loader.table.outside.faults) <= loader.table.outside.faults
      ensures Interrupted(old(loader.table.outside.faults), loader.table.outside.faults) <==> error == Some(Interrupt)
      ensures error.None? ==>
                && tracker.run == old(tracker.run).(status := SUCCESS, finishedAt := tracker.run.finishedAt,
                                                    currentStage := tracker.run.currentStage,
                                                    recordsInserted := |frame|)
                && loads == old(loads) + [frame] && intact == old(intact)
                && Describes(tracker.earlier + [tracker.run], loads, schema, clock)
                && EndsWith(tracker.Timeline(), Stage.Verify, Succeeded)
                && FinalView(loader.table.rows) == Overlay(FinalView(old(loader.table.rows)), frame, schema.uniqueKey)
                && IsStoredOnce(tracker.run.runId, frame)
      ensures error.Some? ==>
                && tracker.run == old(tracker.run).(currentStage := tracker.run.currentStage)
                && loads == old(loads) && Describes(tracker.earlier, loads, schema, clock)
                && LoadFailed(tracker.Timeline())
                && (error.value.DomainError?
                    || IsNewestFault(old(loader.table.outside.faults), loader.table.outside.faults, error.value))
                && loader.table.outside.faults != old(loader.table.outside.faults)
                && WasUndone(old(loader.table.rows), error.value, tracker.run.runId,
                             CarriedKeys(frame, schema.uniqueKey))
                && (IsThinnedOut(old(loader.table.rows), error.value) ==> intact == old(intact))
    {
      hide RunTracker.Valid, RunTracker.Timeline, RunTracker.Open, PipelineOrder, EndsWith, IsNext;
      hide LoadFailed, Interrupted, FinalView, Overlay, OverlayAll, Describes, CanonicalBytes;
      hide HasColumns, UniqueKeys, RunRows, RolledBack, OthersKept, Thinned, CarriedKeys;
      ghost var before := loader.table.rows;
      var version := Now();
      FreshTable(loader.table.rows, loader.table.window, frame, loader.keyColumns, loader.batchSize, tracker.run.runId,
                 old(clock), version);
      LaterClock(tracker.earlier, loads, schema, old(clock), version);
      var found := LoadAndVerify(tracker, loader, frame, version, maxAttempts);
      if found.Failure? {
        ViewOfThinned(before, loader.table.rows, CarriedKeys(frame, schema.uniqueKey));
        intact := intact && IsThinnedOut(before, found.error);
        return Some(found.error);
      }
      assert IsStoredOnce(tracker.run.runId, frame);
      Conclude(tracker, frame, found.value);
      error := None;
    }

    /** The run that loaded the dataset ends, and the load is on record. */
    method Conclude(tracker: RunTracker, ghost frame: seq<Record>, inserted: nat)
      requires Configured() && Orderly(loader.table.rows, clock) && |loader.table.window| <= DEDUP_WINDOW
      requires Running(tracker) && tracker.repository == repository && inserted == |frame|
      requires IsDataset(frame, schema) && Describes(tracker.earlier, loads, schema, clock)
      requires tracker.run.dataHash == CanonicalBytes(frame, schema.Columns(), schema.render)
      requires tracker.run.startedAt <= clock
      requires intact ==>
                 FinalView(loader.table.rows) == Overlay(OverlayAll(loads, schema.uniqueKey), frame, schema.uniqueKey)
      modifies this`clock, this`loads, tracker`run, repository`runs
      ensures tracker.Valid() && tracker.Open() == [] && tracker.Timeline() == old(tracker.Timeline())
      ensures TableShowsLoads() && clock > old(clock) && loads == old(loads) + [frame]
      ensures tracker.run == old(tracker.run).(status := SUCCESS, finishedAt := tracker.run.finishedAt,
                                                  recordsInserted := inserted)
      ensures Describes(tracker.earlier + [tracker.run], loads, schema, clock)
    {
      hide RunTracker.Valid, RunTracker.Timeline, RunTracker.Open, PipelineOrder;
      hide FinalView, Overlay, OverlayAll, Describes, CanonicalBytes, IsDataset, Orderly;
      var now := Now();
      tracker.Succeed(inserted, now);
      LaterStaysOrderly(loader.table.rows, old(clock), now);
      NextLoadIsDescribed(tracker.earlier, loads, schema, old(clock), now, tracker.run, frame);
      loads := loads + [frame];
    }

    /** A duplicate: nothing is loaded, and the stages left out are recorded as skipped. */
    method SkipDuplicate(tracker: RunTracker, duplicateOf: RunId)
      requires Running(tracker)
      modifies this`clock, tracker`run, tracker.repository
      ensures tracker.Valid() && tracker.Open() == [] && tracker.Timeline() == old(tracker.Timeline())
      ensures tracker.Events() == old(tracker.Events()) + [StageRecord(tracker.run.runId, Stage.Load, 1, Skipped),
                                                           StageRecord(tracker.run.runId, Stage.Verify, 1, Skipped)]
      ensures clock > old(clock)
      ensures tracker.run == old(tracker.run).(status := SKIPPED, finishedAt := Some(clock),
                                                  duplicateOf := Some(duplicateOf))
    {
      hide RunTracker.Valid, RunTracker.Timeline, RunTracker.Open, RunTracker.Events, PipelineOrder;
      tracker.SkippedStage(Stage.Load);
      tracker.SkippedStage(Stage.Verify);
      var now := Now();
      tracker.Skip(duplicateOf, now);
    }

    /** What a run that ends well did: it loaded its clean rows over the earlier view, or left them out
        because they give the lines of the last load. */
    twostate predicate Finished(run: RunRecord, earlier: seq<RunRecord>, timeline: seq<StageRecord>,
                                source: Frame, force: bool)
      reads this, loader.table
    {
      && schema.Accepts(source) && intact == old(intact)
      && (run.status == SUCCESS ==>
            && (force || !RepeatsLast(old(loads), schema.Clean(source.rows), schema))
            && loads == old(loads) + [schema.Clean(source.rows)]
            && FinalView(loader.table.rows)
               == Overlay(FinalView(old(loader.table.rows)), schema.Clean(source.rows), schema.uniqueKey)
            && IsStoredOnce(run.runId, schema.Clean(source.rows))
            && EndsWith(timeline, Stage.Verify, Succeeded)
            && run.recordsInserted == |schema.Clean(source.rows)| && run.recordsRejected == |schema.Dirty(source.rows)|)
      && (run.status == SKIPPED ==>
            && !force && RepeatsLast(old(loads), schema.Clean(source.rows), schema)
            && loads == old(loads) && FinalView(loader.table.rows) == FinalView(old(loader.table.rows))
            && EndsWith(timeline, Dedup, Succeeded)
            && earlier != [] && run.duplicateOf == Some(earlier[|earlier| - 1].runId))
    }

    /** What a failed load that was rolled back leaves of the earlier rows, and what any failed load leaves of
        the keys it does not carry. */
    ghost predicate WasUndone(before: seq<StoredRow>, error: Error, runId: RunId, keys: set<Key>)
      reads loader.table
    {
      && OthersKept(before, loader.table.rows, keys)
      && (error.DomainError? && !loader.table.deleteFailed ==>
            IsGone(runId) && RolledBack(before, loader.table.rows, keys))
      && (error.DomainError? && !loader.table.deleteFailed && !loader.table.merged ==>
            Thinned(before, loader.table.rows))
    }

    /** The rollback succeeded, and no merge had taken the last newest row of a key. */
    ghost predicate IsThinnedOut(before: seq<StoredRow>, error: Error)
      reads loader.table
    {
      error.DomainError? && !loader.table.deleteFailed && Thinned(before, loader.table.rows)
    }

    lemma UndoneKeepsOthers(before: seq<StoredRow>, error: Error, runId: RunId, keys: set<Key>)
      requires WasUndone(before, error, runId, keys)
      ensures OthersKept(before, loader.table.rows, keys)
    {
    }

    /** Merges before the load began do not matter. */
    lemma UndoneAfterMerges(before: seq<StoredRow>, base: seq<StoredRow>, error: Error, runId: RunId, keys: set<Key>)
      requires OneRowPerVersion(before) && Merged(before, base) && FinalView(base) == FinalView(before)
      requires WasUndone(base, error, runId, keys)
      ensures WasUndone(before, error, runId, keys)
      ensures IsThinnedOut(before, error) <==> IsThinnedOut(base, error)
    {
      hide OneRowPerVersion, Merged, FinalView, RolledBack, Thinned, OthersKept;
      OthersKeptAfterMerges(before, base, loader.table.rows, keys);
      if error.DomainError? && !loader.table.deleteFailed {
        RolledBackAfterMerges(before, base, loader.table.rows, keys);
      }
    }

    /** What a run that fails leaves behind: the table as readers saw it, unless the failure came after the
        load began and was not one of the program's own errors, or its rollback failed, or a merge had
        taken the last newest row of a key by then. */
    twostate predicate FailedCleanly(timeline: seq<StageRecord>, error: Error, runId: RunId, source: Frame)
      reads this, loader.table
    {
      && WasUndone(old(loader.table.rows), error, runId, Carried(source))
      && (!LoadFailed(timeline) || IsThinnedOut(old(loader.table.rows), error) ==>
            intact == old(intact) && FinalView(loader.table.rows) == FinalView(old(loader.table.rows)))
    }

    /** Why a run fails: something happened outside, or the rows were refused. Neither merges nor the number of
        batches are a reason. */
    twostate predicate Failing(timeline: seq<StageRecord>, error: Error, runId: RunId, source: Frame)
      reads this, loader.table, loader.table.outside
    {
      && FailedCleanly(timeline, error, runId, source)
      && (error.DomainError?
          || !LoadFailed(timeline)
          || HappenedOutside(old(loader.table.outside.faults), loader.table.outside.faults, error))
      && (loader.table.outside.faults != old(loader.table.outside.faults) || !schema.Accepts(source))
    }

    /** Everything between the start of a run and its end; a failure is left to the caller. */
    method Process(tracker: RunTracker, source: Frame, force: bool) returns (error: Option<Error>)
      requires Configured() && TableShowsLoads() && IsNewToTable(tracker.run.runId)
      requires Running(tracker) && tracker.repository == repository && tracker.Timeline() == []
      requires Describes(tracker.earlier, loads, schema, clock) && tracker.run.startedAt <= clock
      modifies this, tracker`run, repository, loader.table, loader.table.outside
      ensures tracker.Valid() && tracker.Open() == [] && PipelineOrder(tracker.Timeline()) && tracker.Timeline() != []
      ensures tracker.run.runId == old(tracker.run.runId) && tracker.run.report == old(tracker.run.report)
      ensures TableShowsLoads() && clock >= old(clock)
      ensures if tracker.run.status == SUCCESS then Describes(tracker.earlier + [tracker.run], loads, schema, clock)
              else Describes(tracker.earlier, loads, schema, clock)
      ensures old(loader.table.outside.faults) <= loader.table.outside.faults
      ensures Interrupted(old(loader.table.outside.faults), loader.table.outside.faults) <==> error == Some(Interrupt)
      ensures if error.None? then tracker.run.status == SUCCESS || tracker.run.status == SKIPPED
              else tracker.run.status == RUNNING && loads == old(loads)
      ensures error.None? ==> Finished(tracker.run, tracker.earlier, tracker.Timeline(), source, force)
      ensures error.Some? ==> Failing(tracker.Timeline(), error.value, tracker.run.runId, source)
    {
      hide RunTracker.Valid, RunTracker.Timeline, RunTracker.Open, PipelineOrder;
      hide FinalView, Overlay, OverlayAll, Describes, CanonicalBytes, IsDataset, Schema.Accepts;
      hide Orderly, RepeatsLast, Schema.Clean, Schema.Dirty, IsStoredOnce;
      hide Interrupted;
      ghost var faults := loader.table.outside.faults;
      var ingested := Ingest(tracker, loader.table.outside, maxAttempts, source, schema);
      if ingested.Failure? {
        return Some(ingested.error);
      }
      var frame := ingested.value.dataset.frame;
      CleanIsDataset(source, schema);
      RepeatsIffSameLines(tracker.earlier, loads, schema, clock, frame);
      if ingested.value.duplicateOf.Some? && !force {
        SkipDuplicate(tracker, ingested.value.duplicateOf.value);
        LaterClock(tracker.earlier, loads, schema, old(clock), clock);
        LaterStaysOrderly(loader.table.rows, old(clock), clock);
        error := None;
      } else {
        ghost var during := loader.table.outside.faults;
        error := LoadDataset(tracker, frame);
        InterruptedBetween(faults, during, loader.table.outside.faults);
        if error.Some? && !error.value.DomainError? {
          NewestFaultHappened(faults, during, loader.table.outside.faults, loader.table.outside.faults, error.value);
        }
      }
    }

    ghost predicate IsGone(runId: RunId)
      reads loader.table
    {
      forall r | r in loader.table.rows :: r.runId != runId
    }

    // --- run -------------------------------------------------------------------------------------

    /** Between runs: the report's loads are on record, and readers of the table see their overlay. */
    ghost predicate Valid()
      reads this, loader.table, repository
    {
      && Configured() && TableShowsLoads()
      && Settled(repository.runs, report)
      && Describes(LoadsOf(repository.runs, report), loads, schema, clock)
    }

    /** A run that was queued, with an id nobody used before. */
    ghost predicate IsQueued(run: RunRecord)
      reads this, loader.table, repository
    {
      && run.status == QUEUED && run.report == report && run.currentStage.None?
      && VersionsOf(repository.runs, run.runId) == [run] && StagesOf(repository.stages, run.runId) == []
      && IsNewToTable(run.runId)
    }

    /** What is on record about a run once it ended: its statuses, and stages that all ended, properly
        nested, in pipeline order; a failure names the last headline stage entered. */
    ghost predicate RecordedInFull(finished: RunRecord)
      reads this, repository
    {
      var trail := VersionsOf(repository.runs, finished.runId);
      var events := StagesOf(repository.stages, finished.runId);
      && Lifecycle(trail) && trail[|trail| - 1] == finished && finished.status.IsTerminal()
      && Replay(events) == Some([]) && PipelineOrder(Headlines(events))
      && (finished.status == FAILED && Headlines(events) != [] ==> finished.errorStage == LastStage(Headlines(events)))
      && (finished.status == SUCCESS ==> EndsWith(Headlines(events), Stage.Verify, Succeeded))
      && (finished.status == SKIPPED ==> EndsWith(Headlines(events), Dedup, Succeeded))
    }

    /** Start the run, process it, and record a failure; only an interrupt escapes. */
    method Execute(tracker: RunTracker, source: Frame, force: bool) returns (escaped: bool, ghost cause: Option<Error>)
      requires Configured() && TableShowsLoads() && IsNewToTable(tracker.run.runId)
      requires tracker.Valid() && tracker.run.status == QUEUED && tracker.repository == repository
      requires tracker.Open() == [] && tracker.Timeline() == []
      requires Describes(tracker.earlier, loads, schema, clock)
      modifies this, tracker`run, repository, loader.table, loader.table.outside
      ensures tracker.Valid() && tracker.Open() == [] && PipelineOrder(tracker.Timeline()) && tracker.Timeline() != []
      ensures tracker.run.runId == old(tracker.run.runId) && tracker.run.report == old(tracker.run.report)
      ensures escaped <==> cause == Some(Interrupt)
      ensures cause.None? ==> tracker.run.status == SUCCESS || tracker.run.status == SKIPPED
      ensures cause.Some? ==> tracker.run.status == if escaped then RUNNING else FAILED
      ensures tracker.run.status == FAILED ==>
                tracker.run.errorStage == Some(FailureStage(LastStage(tracker.Timeline()), cause.value))
      ensures TableShowsLoads() && clock > old(clock)
      ensures if tracker.run.status == SUCCESS then Describes(tracker.earlier + [tracker.run], loads, schema, clock)
              else Describes(tracker.earlier, loads, schema, clock)
      ensures old(loader.table.outside.faults) <= loader.table.outside.faults
      ensures Interrupted(old(loader.table.outside.faults), loader.table.outside.faults) <==> escaped
      ensures cause.None? ==> Finished(tracker.run, tracker.earlier, tracker.Timeline(), source, force)
      ensures cause.Some? ==>
                loads == old(loads) && Failing(tracker.Timeline(), cause.value, tracker.run.runId, source)
    {
      hide RunTracker.Valid, RunTracker.Timeline, RunTracker.Open, Describes, FinalView, Overlay, OverlayAll, Orderly;
      hide Interrupted, EndsWith, WasUndone, IsThinnedOut, RepeatsLast, Schema.Accepts, Schema.Clean, Schema.Dirty;
      hide PipelineOrchestrator.IsStoredOnce;
      var now := Now();
      LaterClock(tracker.earlier, loads, schema, old(clock), now);
      LaterStaysOrderly(loader.table.rows, old(clock), now);
      EarlierLoadsStarted(tracker.earlier, loads, schema, old(clock), now);
      tracker.Start(now);
      var error := Process(tracker, source, force);
      cause, escaped := error, error.Some? && error.value.Interrupt?;
      if error.Some? && !error.value.Interrupt? {
        End(tracker, error.value);
      }
    }

    /** End a run that failed. */
    method End(tracker: RunTracker, error: Error)
      requires Configured() && TableShowsLoads() && Describes(tracker.earlier, loads, schema, clock)
      requires tracker.Valid() && !tracker.run.status.IsTerminal()
      modifies this`clock, tracker`run, tracker.repository`runs
      ensures tracker.Valid() && tracker.Open() == old(tracker.Open()) && tracker.Timeline() == old(tracker.Timeline())
      ensures tracker.run == old(tracker.run).(status := FAILED, finishedAt := Some(clock),
                                errorStage := Some(FailureStage(LastStage(old(tracker.Timeline())), error)))
      ensures TableShowsLoads() && clock > old(clock) && Describes(tracker.earlier, loads, schema, clock)
    {
      hide Describes, FinalView, OverlayAll, Orderly, RunTracker.Recorded;
      var now := Now();
      LaterClock(tracker.earlier, loads, schema, old(clock), now);
      LaterStaysOrderly(loader.table.rows, old(clock), now);
      tracker.Fail(error, now);
    }

    /** Execute with everything around it: setting up may fail before, closing up after the run ended. */
    method Supervise(tracker: RunTracker, source: Frame, force: bool)
      returns (interrupted: bool, ghost cause: Option<Error>)
      requires Configured() && TableShowsLoads() && IsNewToTable(tracker.run.runId)
      requires tracker.Valid() && tracker.run.status == QUEUED && tracker.repository == repository
      requires tracker.Open() == [] && tracker.Timeline() == []
      requires Describes(tracker.earlier, loads, schema, clock)
      modifies this, tracker`run, repository, loader.table, loader.table.outside
      ensures tracker.Valid() && tracker.Open() == [] && PipelineOrder(tracker.Timeline())
      ensures tracker.run.runId == old(tracker.run.runId) && tracker.run.report == old(tracker.run.report)
      ensures tracker.run.status.IsTerminal() && (tracker.run.status == FAILED <==> cause.Some?)
      ensures tracker.run.status == FAILED ==>
                tracker.run.errorStage == Some(FailureStage(LastStage(tracker.Timeline()), cause.value))
      ensures interrupted <==> Interrupted(old(loader.table.outside.faults), loader.table.outside.faults)
      ensures TableShowsLoads()
      ensures if tracker.run.status == SUCCESS then Describes(tracker.earlier + [tracker.run], loads, schema, clock)
              else Describes(tracker.earlier, loads, schema, clock)
      ensures cause.None? ==> Finished(tracker.run, tracker.earlier, tracker.Timeline(), source, force)
      ensures cause.Some? ==>
                loads == old(loads) && Failing(tracker.Timeline(), cause.value, tracker.run.runId, source)
    {
      hide RunTracker.Valid, RunTracker.Timeline, RunTracker.Open, Describes, FinalView, Overlay, OverlayAll, Orderly;
      hide RepeatsLast, Schema.Accepts, Schema.Clean, Schema.Dirty, PipelineOrchestrator.IsStoredOnce;
      hide Interrupted;
      ghost var start := loader.table.outside.faults;
      cause := None;
      var error := loader.table.outside.Ask();
      InterruptedBy(start, error);
      if error.Some? {
        cause, interrupted := error, error.value.Interrupt?;
        End(tracker, error.value);
        return;
      }
      NothingRaised(start, loader.table.outside.faults);
      interrupted, cause := Execute(tracker, source, force);
      if interrupted {
        End(tracker, Interrupt);
      } else {
        ghost var faults := loader.table.outside.faults;
        var late := loader.table.outside.Ask();
        interrupted := late.Some? && late.value.Interrupt?;
        InterruptedNext(start, faults, loader.table.outside.faults, late);
        if cause.Some? && HappenedOutside(old(loader.table.outside.faults), faults, cause.value) {
          FaultsStay(old(loader.table.outside.faults), faults, loader.table.outside.faults, cause.value);
        }
      }
    }

    /** Track one run from its QUEUED record to its end. */
    method Track(run: RunRecord, source: Frame, force: bool)
      returns (finished: RunRecord, interrupted: bool, ghost cause: Option<Error>)
      requires Valid() && IsQueued(run)
      modifies this, repository, loader.table, loader.table.outside
      ensures interrupted <==> Interrupted(old(loader.table.outside.faults), loader.table.outside.faults)
      ensures Valid() && RecordedInFull(finished)
      ensures finished.runId == run.runId && finished.report == report && finished.status.IsTerminal()
      ensures LoadsOf(repository.runs, report)
              == old(LoadsOf(repository.runs, report)) + if finished.status == SUCCESS then [finished] else []
      ensures finished.status == FAILED <==> cause.Some?
      ensures finished.status == FAILED ==>
                var current := LastStage(Headlines(StagesOf(repository.stages, run.runId)));
                finished.errorStage == Some(FailureStage(current, cause.value))
      ensures cause.None? ==>
                Finished(finished, old(LoadsOf(repository.runs, report)),
                         Headlines(StagesOf(repository.stages, run.runId)), source, force)
      ensures cause.Some? ==>
                && loads == old(loads)
                && Failing(Headlines(StagesOf(repository.stages, run.runId)), cause.value, run.runId, source)
    {
      hide Interrupted;
      hide FinalView, Overlay, OverlayAll, Describes, Orderly, EndsWith, Lifecycle, Replay, Headlines, Settled, LoadsOf;
      hide RepeatsLast, Schema.Accepts, Schema.Clean, Schema.Dirty, PipelineOrchestrator.IsStoredOnce;
      hide WasUndone, IsThinnedOut, CarriedKeys;
      var tracker := new RunTracker(repository, run);
      interrupted, cause := Supervise(tracker, source, force);
      finished := tracker.run;
    }

    /** A tracked run; merges may run at any time before. */
    method Conduct(run: RunRecord, source: Frame, force: bool)
      returns (finished: RunRecord, interrupted: bool, ghost cause: Option<Error>)
      requires Valid() && IsQueued(run)
      modifies this, repository, loader.table, loader.table.outside
      ensures interrupted <==> Interrupted(old(loader.table.outside.faults), loader.table.outside.faults)
      ensures Valid() && RecordedInFull(finished)
      ensures finished.runId == run.runId && finished.report == report && finished.status.IsTerminal()
      ensures LoadsOf(repository.runs, report)
              == old(LoadsOf(repository.runs, report)) + if finished.status == SUCCESS then [finished] else []
      ensures finished.status == FAILED <==> cause.Some?
      ensures finished.status == FAILED ==>
                var current := LastStage(Headlines(StagesOf(repository.stages, run.runId)));
                finished.errorStage == Some(FailureStage(current, cause.value))
      ensures cause.None? ==>
                Finished(finished, old(LoadsOf(repository.runs, report)),
                         Headlines(StagesOf(repository.stages, run.runId)), source, force)
      ensures cause.Some? ==>
                && loads == old(loads)
                && Failing(Headlines(StagesOf(repository.stages, run.runId)), cause.value, run.runId, source)
    {
      hide Interrupted;
      hide FinalView, Overlay, OverlayAll, Describes, Orderly, EndsWith, Lifecycle, Replay, Headlines, Settled, LoadsOf;
      hide RepeatsLast, Schema.Accepts, Schema.Clean, Schema.Dirty, PipelineOrchestrator.IsStoredOnce;
      hide WasUndone, IsThinnedOut, CarriedKeys, Merged, OneRowPerVersion, PipelineOrchestrator.RecordedInFull;
      ghost var before := loader.table.rows;
      loader.table.BackgroundMerge();
      MergeKeepsTable(before, loader.table.rows, clock);
      ghost var base := loader.table.rows;
      finished, interrupted, cause := Track(run, source, force);
      if cause.Some? {
        UndoneAfterMerges(before, base, cause.value, run.runId, Carried(source));
      }
    }

    /** One run. Whatever happens it ends on record; an interrupt ends it too, and is then passed on. */
    method Run(run: RunRecord, source: Frame, force: bool)
      returns (finished: RunRecord, interrupted: bool, ghost cause: Option<Error>)
      requires Valid() && IsQueued(run)
      modifies this, repository, loader.table, loader.table.outside
      ensures interrupted <==> Interrupted(old(loader.table.outside.faults), loader.table.outside.faults)
      ensures Valid() && RecordedInFull(finished)
      ensures finished.runId == run.runId && finished.report == report && finished.status.IsTerminal()
      ensures LoadsOf(repository.runs, report)
              == old(LoadsOf(repository.runs, report)) + if finished.status == SUCCESS then [finished] else []
      ensures finished.status == FAILED <==> cause.Some?
      ensures finished.status == FAILED ==>
                var current := LastStage(Headlines(StagesOf(repository.stages, run.runId)));
                finished.errorStage == Some(FailureStage(current, cause.value))
      ensures cause.None? ==>
                Finished(finished, old(LoadsOf(repository.runs, report)),
                         Headlines(StagesOf(repository.stages, run.runId)), source, force)
      ensures cause.Some? ==>
                && loads == old(loads)
                && Failing(Headlines(StagesOf(repository.stages, run.runId)), cause.value, run.runId, source)
      ensures loads == old(loads) + if finished.status == SUCCESS then [schema.Clean(source.rows)] else []
      ensures finished.status == SUCCESS ==> finished.recordsInserted + finished.recordsRejected == |source.rows|
      ensures schema.RendersApart() ==>
                && (finished.status == SUCCESS ==> force || !SameAsLast(old(loads), schema.Clean(source.rows)))
                && (finished.status == SKIPPED ==> SameAsLast(old(loads), schema.Clean(source.rows)))
      ensures OthersKept(old(loader.table.rows), loader.table.rows, Carried(source))
      ensures finished.status == SKIPPED && old(intact) && schema.RendersApart() ==>
                var view := FinalView(loader.table.rows);
                Overlay(view, schema.Clean(source.rows), schema.uniqueKey) == view
    {
      hide Interrupted;
      hide FinalView, Overlay, OverlayAll, Describes, Orderly, EndsWith, Headlines, LoadsOf, SameAsLast, Shown;
      hide RepeatsLast, Schema.Accepts, Schema.Clean, Schema.Dirty, Schema.RendersApart, Settled;
      hide PipelineOrchestrator.IsStoredOnce, PipelineOrchestrator.RecordedInFull;
      hide WasUndone, IsThinnedOut, CarriedKeys, OthersKept;
      ghost var before := loader.table.rows;
      finished, interrupted, cause := Conduct(run, source, force);
      CleanAndDirtyPartition(schema, source.rows);
      if cause.Some? {
        assert WasUndone(before, cause.value, run.runId, Carried(source));
        UndoneKeepsOthers(before, cause.value, run.runId, Carried(source));
      } else {
        CleanIsDataset(source, schema);
        LoadKeepsOthers(before, loader.table.rows, schema.Clean(source.rows), schema.uniqueKey);
        SkipVerdict(old(LoadsOf(repository.runs, report)), old(loads), schema, old(clock), source,
                    FinalView(loader.table.rows));
      }
    }
  }

  lemma MergeKeepsTable(rows: seq<StoredRow>, rows': seq<StoredRow>, clock: nat)
    requires Orderly(rows, clock) && Merged(rows, rows')
    ensures Orderly(rows', clock) && FinalView(rows') == FinalView(rows) && OneRowPerVersion(rows)
    ensures forall r | r in rows' :: r in rows
  {
    MergesKeepTheView(rows, rows');
    MergedMembers(rows, rows');
  }
}
