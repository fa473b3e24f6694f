/** One run of a report after another, as the run service hands them to the orchestrator under the lock. */
module RunSequence {
  import opened Frames
  import opened Errors
  import opened Warehouse
  import opened LoadLimits
  import opened Metadata
  import opened Tracker
  import opened IngestionService
  import opened Orchestrator

  // --- run ids nobody used before ----------------------------------------------------------------------

  function Joined(ids: seq<RunId>): RunId {
    if ids == [] then "" else ids[0] + Joined(ids[1..])
  }

  lemma {:induction false} JoinedIsLongest(ids: seq<RunId>, id: RunId)
    requires id in ids
    ensures |id| <= |Joined(ids)|
  {
    if id != ids[0] {
      assert id in ids[1..];
      JoinedIsLongest(ids[1..], id);
    }
  }

  function RunIdsOf(runs: seq<RunRecord>, stages: seq<StageRecord>, rows: seq<StoredRow>, window: seq<Token>)
    : seq<RunId>
  {
    seq(|runs|, i requires 0 <= i < |runs| => runs[i].runId)
    + seq(|stages|, i requires 0 <= i < |stages| => stages[i].runId)
    + seq(|rows|, i requires 0 <= i < |rows| => rows[i].runId)
    + seq(|window|, i requires 0 <= i < |window| => window[i].runId)
  }

  lemma {:induction false} NoVersions(log: seq<RunRecord>, runId: RunId)
    requires forall version | version in log :: version.runId != runId
    ensures VersionsOf(log, runId) == []
  {
    if log != [] { NoVersions(log[..|log| - 1], runId); }
  }

  lemma {:induction false} NoStages(log: seq<StageRecord>, runId: RunId)
    requires forall stage | stage in log :: stage.runId != runId
    ensures StagesOf(log, runId) == []
  {
    if log != [] { NoStages(log[..|log| - 1], runId); }
  }

  /** new_run_id(): an id that is nowhere on record and nowhere in the table. */
  method NewRunId(orchestrator: PipelineOrchestrator) returns (runId: RunId)
    ensures VersionsOf(orchestrator.repository.runs, runId) == []
    ensures StagesOf(orchestrator.repository.stages, runId) == []
    ensures orchestrator.IsNewToTable(runId)
  {
    var runs, stages := orchestrator.repository.runs, orchestrator.repository.stages;
    var rows, window := orchestrator.loader.table.rows, orchestrator.loader.table.window;
    var ids := RunIdsOf(runs, stages, rows, window);
    runId := Joined(ids) + "x";
    forall id | id in ids ensures id != runId {
      JoinedIsLongest(ids, id);
    }
    forall i | 0 <= i < |runs| ensures runs[i].runId != runId {
      assert ids[i] in ids && ids[i] == runs[i].runId;
    }
    forall i | 0 <= i < |stages| ensures stages[i].runId != runId {
      assert ids[|runs| + i] in ids && ids[|runs| + i] == stages[i].runId;
    }
    forall i | 0 <= i < |rows| ensures rows[i].runId != runId {
      assert ids[|runs| + |stages| + i] in ids && ids[|runs| + |stages| + i] == rows[i].runId;
    }
    forall i | 0 <= i < |window| ensures window[i].runId != runId {
      assert ids[|runs| + |stages| + |rows| + i] in ids && ids[|runs| + |stages| + |rows| + i] == window[i].runId;
    }
    NoVersions(runs, runId);
    NoStages(stages, runId);
  }

  // --- a sequence of runs ----------------------------------------------------------------------------------

  /** What acquisition and the transforms would deliver, whether a reload is forced, and whether another request
      of the report holds the lock. */
  datatype Request = Request(source: Frame, force: bool, lockBusy: bool)

  /** The datasets the SUCCESS runs loaded, in order. */
  function Loaded(requests: seq<Request>, results: seq<RunRecord>, schema: Schema): seq<seq<Record>>
    requires |requests| == |results|
  {
    if results == [] then []
    else
      var last := |results| - 1;
      Loaded(requests[..last], results[..last], schema)
      + if results[last].status == SUCCESS then [schema.Clean(requests[last].source.rows)] else []
  }

  lemma NextLoaded(before: seq<seq<Record>>, requests: seq<Request>, results: seq<RunRecord>, finished: RunRecord,
                   schema: Schema)
    requires |results| < |requests|
    ensures before + Loaded(requests[..|results| + 1], results + [finished], schema)
         == before + Loaded(requests[..|results|], results, schema)
            + if finished.status == SUCCESS then [schema.Clean(requests[|results|].source.rows)] else []
  {
    var n := |results|;
    assert requests[..n + 1][..n] == requests[..n] && (results + [finished])[..n] == results;
  }

  /** One dataset after the other loaded over a view. */
  function OverlayEach(view: map<Key, Record>, datasets: seq<seq<Record>>, keyColumns: seq<string>): map<Key, Record> {
    if datasets == [] then view
    else
      var last := |datasets| - 1;
      Overlay(OverlayEach(view, datasets[..last], keyColumns), datasets[last], keyColumns)
  }

  lemma NextOverlaid(view: map<Key, Record>, requests: seq<Request>, results: seq<RunRecord>, finished: RunRecord,
                     schema: Schema)
    requires |results| < |requests|
    ensures var before := OverlayEach(view, Loaded(requests[..|results|], results, schema), schema.uniqueKey);
            OverlayEach(view, Loaded(requests[..|results| + 1], results + [finished], schema), schema.uniqueKey)
            == if finished.status == SUCCESS
               then Overlay(before, schema.Clean(requests[|results|].source.rows), schema.uniqueKey) else before
  {
    hide Overlay, Schema.Clean;
    var n := |results|;
    var earlier := Loaded(requests[..n], results, schema);
    assert requests[..n + 1][..n] == requests[..n] && (results + [finished])[..n] == results;
    if finished.status == SUCCESS {
      var dataset := schema.Clean(requests[n].source.rows);
      assert Loaded(requests[..n + 1], results + [finished], schema) == earlier + [dataset];
      assert (earlier + [dataset])[..|earlier|] == earlier;
    } else {
      assert Loaded(requests[..n + 1], results + [finished], schema) == earlier;
    }
  }

  lemma IntactTableShowsLoads(orchestrator: PipelineOrchestrator)
    requires orchestrator.Valid() && orchestrator.intact
    ensures FinalView(orchestrator.loader.table.rows)
         == OverlayAll(orchestrator.loads, orchestrator.schema.uniqueKey)
  {
  }

  /** How a run ended: the error behind a failure, whether its delete failed, and whether every row from before
      the run is still stored or outlived. */
  datatype Ending = Ending(cause: Option<Error>, deleteFailed: bool, thinned: bool) {
    /** A failed load was undone: it failed with one of the program's own errors, the delete succeeded, and
        no merge had taken the last newest row of a key. */
    predicate IsUndone() {
      cause.Some? && cause.value.DomainError? && !deleteFailed && thinned
    }
  }

  /** The run loaded, was left out, failed before loading, or was rolled back. */
  predicate KeptTheView(finished: RunRecord, ending: Ending) {
    !FailedLate(finished) || ending.IsUndone()
  }

  /** The run record is saved as QUEUED before it is handed over. */
  method Queue(orchestrator: PipelineOrchestrator) returns (run: RunRecord)
    requires orchestrator.Valid()
    modifies orchestrator.repository`runs
    ensures orchestrator.Valid() && orchestrator.IsQueued(run)
  {
    var runId := NewRunId(orchestrator);
    run := RunRecord(runId, orchestrator.report, QUEUED, orchestrator.clock, None, None, 0, 0, 0, "", None, None);
    ghost var log := orchestrator.repository.runs;
    forall load | load in LoadsOf(log, run.report) ensures load.runId != runId {
      LoadsAreVersions(log, run.report);
      VersionsAreOfRun(log, runId);
    }
    UnloadedVersionKeepsLoads(log, run, run.report);
    assert (log + [run])[..|log|] == log;
    orchestrator.repository.SaveRun(run);
  }

  // --- requests that find the lock busy -----------------------------------------------------------------

  const CONCURRENT_RUN: Error := DomainError(Stage.Pipeline, false)

  /** The record of a request that was refused. */
  predicate IsRefusal(run: RunRecord, failed: RunRecord) {
    failed == run.(status := FAILED, finishedAt := failed.finishedAt, errorStage := Some(Stage.Queued))
  }

  /** What a refused request saves is nothing to a run of the report that is going on: neither its QUEUED nor
      its FAILED version touches that run's versions or the report's loads. */
  lemma RefusedVersionsAreForeign(log: seq<RunRecord>, version: RunRecord, runId: RunId, report: string)
    requires Settled(log, report) && version.runId != runId && version.status != SUCCESS
    requires forall earlier | earlier in VersionsOf(log, version.runId) :: earlier.status != SUCCESS
    ensures IsForeign(log, version, runId, report)
    ensures Settled(log + [version], report) && LoadsOf(log + [version], report) == LoadsOf(log, report)
    ensures VersionsOf(log + [version], runId) == VersionsOf(log, runId)
  {
    LoadsAreVersions(log, report);
    VersionsAreOfRun(log, version.runId);
    ForeignVersionKeeps(log, version, runId, report);
  }

  /** The request is recorded as FAILED and nothing is started. When not even that can be saved, the record
      stays QUEUED; the program's own errors of saving are only logged, others are raised. */
  method Refuse(repository: RunRepository, outside: Outside, run: RunRecord, now: nat)
    returns (failed: RunRecord, raised: Option<Error>, ghost trouble: Option<Error>)
    requires run.status == QUEUED && VersionsOf(repository.runs, run.runId) == [run]
    modifies repository`runs, outside
    ensures IsRefusal(run, failed) && failed.finishedAt == Some(now)
    ensures outside.faults == old(outside.faults) + Raised(trouble)
    ensures raised == if trouble.Some? && !trouble.value.DomainError? then trouble else None
    ensures VersionsOf(repository.runs, run.runId) == if trouble.None? then [run, failed] else [run]
    ensures Lifecycle(VersionsOf(repository.runs, run.runId))
    ensures forall runId | runId != run.runId ::
              VersionsOf(repository.runs, runId) == old(VersionsOf(repository.runs, runId))
    ensures forall report | old(Settled(repository.runs, report)) ::
              && Settled(repository.runs, report)
              && LoadsOf(repository.runs, report) == old(LoadsOf(repository.runs, report))
  {
    failed := run.(status := FAILED, finishedAt := Some(now), errorStage := Some(Stage.Queued));
    raised := None;
    var error := outside.Ask();
    trouble := error;
    if error.Some? {
      if !error.value.DomainError? { raised := error; }
      return;
    }
    ghost var log := repository.runs;
    assert (log + [failed])[..|log|] == log;
    forall report | Settled(log, report)
      ensures Settled(log + [failed], report) && LoadsOf(log + [failed], report) == LoadsOf(log, report)
    {
      RefusedVersionsAreForeign(log, failed, failed.runId + "x", report);
    }
    repository.SaveRun(failed);
  }

  /** The refused request at the orchestrator: loads, table and the other runs' records stay as they are. */
  method RefuseQueued(orchestrator: PipelineOrchestrator, run: RunRecord)
    returns (failed: RunRecord, raised: Option<Error>)
    requires orchestrator.Valid() && orchestrator.IsQueued(run)
    modifies orchestrator.repository`runs, orchestrator.loader.table.outside
    ensures orchestrator.Valid() && IsRefusal(run, failed)
    ensures raised.Some? ==> !raised.value.DomainError?
    ensures Interrupted(old(orchestrator.loader.table.outside.faults), orchestrator.loader.table.outside.faults)
       <==> raised == Some(Interrupt)
  {
    hide Settled, LoadsOf, VersionsOf, Lifecycle, PipelineOrchestrator.TableShowsLoads, FinalView;
    hide Interrupted;
    ghost var faults, trouble := orchestrator.loader.table.outside.faults, None;
    var outside := orchestrator.loader.table.outside;
    failed, raised, trouble := Refuse(orchestrator.repository, outside, run, orchestrator.clock);
    InterruptedBy(faults, trouble);
  }

  method RunOne(orchestrator: PipelineOrchestrator, request: Request)
    returns (finished: RunRecord, raised: Option<Error>, ghost ending: Ending)
    requires orchestrator.Valid()
    modifies orchestrator, orchestrator.repository, orchestrator.loader.table, orchestrator.loader.table.outside
    ensures orchestrator.Valid() && finished.status.IsTerminal()
    ensures finished.status == FAILED <==> ending.cause.Some?
    ensures Interrupted(old(orchestrator.loader.table.outside.faults), orchestrator.loader.table.outside.faults)
       <==> raised == Some(Interrupt)
    ensures raised.Some? ==> raised.value.Interrupt? || request.lockBusy
    ensures ending.deleteFailed == orchestrator.loader.table.deleteFailed
    ensures ending.thinned == Thinned(old(orchestrator.loader.table.rows), orchestrator.loader.table.rows)
    ensures request.lockBusy ==>
              && finished.status == FAILED && finished.errorStage == Some(Stage.Queued)
              && KeptTheView(finished, ending)
              && orchestrator.loader.table.rows == old(orchestrator.loader.table.rows)
    ensures orchestrator.loads == old(orchestrator.loads)
              + if finished.status == SUCCESS then [orchestrator.schema.Clean(request.source.rows)] else []
    ensures old(orchestrator.intact) && KeptTheView(finished, ending) ==> orchestrator.intact
    ensures finished.status == SUCCESS ==>
              FinalView(orchestrator.loader.table.rows)
              == Overlay(FinalView(old(orchestrator.loader.table.rows)),
                         orchestrator.schema.Clean(request.source.rows), orchestrator.schema.uniqueKey)
    ensures finished.status != SUCCESS && KeptTheView(finished, ending) ==>
              FinalView(orchestrator.loader.table.rows) == FinalView(old(orchestrator.loader.table.rows))
    ensures finished.status == SKIPPED ==> orchestrator.schema.Accepts(request.source)
    ensures finished.status == FAILED && ending.cause.value.DomainError? && !ending.deleteFailed ==>
              RolledBack(old(orchestrator.loader.table.rows), orchestrator.loader.table.rows,
                         orchestrator.Carried(request.source))
    ensures OthersKept(old(orchestrator.loader.table.rows), orchestrator.loader.table.rows,
                       orchestrator.Carried(request.source))
  {
    hide PipelineOrchestrator.Valid, PipelineOrchestrator.IsQueued, PipelineOrchestrator.IsStoredOnce;
    hide FinalView, Overlay, Lifecycle, Replay, Headlines, PipelineOrder, RepeatsLast, HappenedOutside;
    hide PipelineOrchestrator.IsGone, PipelineOrchestrator.Carried, RolledBack, OthersKept, Thinned;
    hide Schema.Accepts, Schema.Clean, Schema.Dirty;
    hide Interrupted;
    ghost var before := orchestrator.loader.table.rows;
    var run := Queue(orchestrator);
    ghost var cause;
    if request.lockBusy {
      UntouchedTable(before, orchestrator.Carried(request.source));
      finished, raised := RefuseQueued(orchestrator, run);
      cause := Some(CONCURRENT_RUN);
    } else {
      var interrupted;
      finished, interrupted, cause := orchestrator.Run(run, request.source, request.force);
      raised := if interrupted then Some(Interrupt) else None;
    }
    ending := Ending(cause, orchestrator.loader.table.deleteFailed, Thinned(before, orchestrator.loader.table.rows));
  }

  lemma UntouchedTable(rows: seq<StoredRow>, keys: set<Key>)
    ensures Thinned(rows, rows) && RolledBack(rows, rows, keys) && OthersKept(rows, rows, keys)
  {
    NothingRolledBack(rows, keys);
    hide Thinned, OthersKept;
  }

  /** A key that readers no longer see stays away when the next run is skipped, although loading its data
      would have brought it back. */
  method RunAfterLostKey(orchestrator: PipelineOrchestrator, request: Request, ghost lost: Record)
    returns (finished: RunRecord)
    requires orchestrator.Valid() && lost in orchestrator.schema.Clean(request.source.rows)
    requires KeyOf(lost, orchestrator.schema.uniqueKey) !in FinalView(orchestrator.loader.table.rows)
    modifies orchestrator, orchestrator.repository, orchestrator.loader.table, orchestrator.loader.table.outside
    ensures finished.status == SKIPPED ==>
              var view := FinalView(orchestrator.loader.table.rows);
              && KeyOf(lost, orchestrator.schema.uniqueKey) !in view
              && Overlay(view, orchestrator.schema.Clean(request.source.rows), orchestrator.schema.uniqueKey) != view
  {
    hide PipelineOrchestrator.Valid, FinalView, Overlay, Schema.Clean, Schema.Accepts, RolledBack, OthersKept;
    ghost var ending;
    var raised;
    finished, raised, ending := RunOne(orchestrator, request);
    if finished.status == SKIPPED {
      CleanIsDataset(request.source, orchestrator.schema);
      OverlayChangesNothingIff(FinalView(orchestrator.loader.table.rows),
                               orchestrator.schema.Clean(request.source.rows), orchestrator.schema.uniqueKey);
    }
  }

  ghost predicate AllKeptTheView(results: seq<RunRecord>, endings: seq<Ending>)
    requires |results| == |endings|
  {
    forall i | 0 <= i < |results| :: KeptTheView(results[i], endings[i])
  }

  lemma OneMoreKeptTheView(results: seq<RunRecord>, endings: seq<Ending>, finished: RunRecord, ending: Ending)
    requires |results| == |endings| && AllKeptTheView(results + [finished], endings + [ending])
    ensures AllKeptTheView(results, endings) && KeptTheView(finished, ending)
  {
    var n := |results|;
    assert (results + [finished])[n] == finished && (endings + [ending])[n] == ending;
    forall i | 0 <= i < n ensures KeptTheView(results[i], endings[i]) {
      assert (results + [finished])[i] == results[i] && (endings + [ending])[i] == endings[i];
    }
  }

  /** After any sequence of requests, whatever failed on the way: the loads are those of the SUCCESS runs in
      order, and as long as every failed load was undone readers see exactly their datasets loaded one after the
      other over what they saw before; skipped, refused and rolled-back runs contribute nothing. From an empty
      table on that is the overlay of all loads. Whatever failed, keys no request carries show what they showed. */
  method RunAll(orchestrator: PipelineOrchestrator, requests: seq<Request>)
    returns (results: seq<RunRecord>, ghost endings: seq<Ending>)
    requires orchestrator.Valid()
    modifies orchestrator, orchestrator.repository, orchestrator.loader.table, orchestrator.loader.table.outside
    ensures orchestrator.Valid() && |results| == |endings| == |requests|
    ensures forall i | 0 <= i < |results| :: results[i].status.IsTerminal()
    ensures forall i | 0 <= i < |results| :: results[i].status == FAILED <==> endings[i].cause.Some?
    ensures forall i | 0 <= i < |results| && requests[i].lockBusy ::
              results[i].errorStage == Some(Stage.Queued) && KeptTheView(results[i], endings[i])
    ensures orchestrator.loads == old(orchestrator.loads) + Loaded(requests, results, orchestrator.schema)
    ensures AllKeptTheView(results, endings) ==>
              FinalView(orchestrator.loader.table.rows)
              == OverlayEach(FinalView(old(orchestrator.loader.table.rows)),
                             Loaded(requests, results, orchestrator.schema), orchestrator.schema.uniqueKey)
    ensures OthersKept(old(orchestrator.loader.table.rows), orchestrator.loader.table.rows,
                       AllCarried(requests, orchestrator.schema))
    ensures old(orchestrator.intact) && AllKeptTheView(results, endings) ==>
              FinalView(orchestrator.loader.table.rows)
              == OverlayAll(old(orchestrator.loads) + Loaded(requests, results, orchestrator.schema),
                            orchestrator.schema.uniqueKey)
  {
    hide PipelineOrchestrator.Valid, FailedLate, Loaded, FinalView, Overlay, OverlayAll, OverlayEach;
    hide KeptTheView, AllKeptTheView, Schema.Clean, Schema.Accepts, RolledBack, OthersKept, AllCarried;
    results, endings := [], [];
    ghost var start, view := orchestrator.loader.table.rows, FinalView(orchestrator.loader.table.rows);
    UntouchedTable(start, AllCarried(requests[..0], orchestrator.schema));
    NothingLoaded(old(orchestrator.loads), view, requests[..0], orchestrator.schema);
    for i := 0 to |requests|
      invariant orchestrator.Valid() && |results| == |endings| == i
      invariant forall k | 0 <= k < i :: results[k].status.IsTerminal()
      invariant forall k | 0 <= k < i :: results[k].status == FAILED <==> endings[k].cause.Some?
      invariant forall k | 0 <= k < i && requests[k].lockBusy ::
          results[k].errorStage == Some(Stage.Queued) && KeptTheView(results[k], endings[k])
      invariant orchestrator.loads == old(orchestrator.loads) + Loaded(requests[..i], results, orchestrator.schema)
      invariant old(orchestrator.intact) && AllKeptTheView(results, endings) ==> orchestrator.intact
      invariant OthersKept(start, orchestrator.loader.table.rows, AllCarried(requests[..i], orchestrator.schema))
      invariant AllKeptTheView(results, endings) ==>
          FinalView(orchestrator.loader.table.rows)
          == OverlayEach(view, Loaded(requests[..i], results, orchestrator.schema), orchestrator.schema.uniqueKey)
    {
      var finished, raised;
      ghost var ending;
      ghost var before := orchestrator.loader.table.rows;
      finished, raised, ending := RunOne(orchestrator, requests[i]);
      NextKept(start, before, orchestrator.loader.table.rows, requests, i, orchestrator.schema);
      NextLoaded(old(orchestrator.loads), requests, results, finished, orchestrator.schema);
      NextOverlaid(view, requests, results, finished, orchestrator.schema);
      if AllKeptTheView(results + [finished], endings + [ending]) {
        OneMoreKeptTheView(results, endings, finished, ending);
      }
      results, endings := results + [finished], endings + [ending];
    }
    assert requests[..|requests|] == requests;
    if orchestrator.intact {
      IntactTableShowsLoads(orchestrator);
    }
  }

  /** The natural keys of the clean rows of all requests. */
  function AllCarried(requests: seq<Request>, schema: Schema): set<Key> {
    if requests == [] then {}
    else
      var last := |requests| - 1;
      AllCarried(requests[..last], schema) + CarriedKeys(schema.Clean(requests[last].source.rows), schema.uniqueKey)
  }

  lemma NextKept(start: seq<StoredRow>, before: seq<StoredRow>, after: seq<StoredRow>, requests: seq<Request>, i: nat,
                 schema: Schema)
    requires i < |requests| && OthersKept(start, before, AllCarried(requests[..i], schema))
    requires OthersKept(before, after, CarriedKeys(schema.Clean(requests[i].source.rows), schema.uniqueKey))
    ensures OthersKept(start, after, AllCarried(requests[..i + 1], schema))
  {
    assert requests[..i + 1][..i] == requests[..i];
    hide FinalView, CarriedKeys, Schema.Clean;
    var keys := AllCarried(requests[..i + 1], schema);
    forall k | k !in keys ensures SameAt(after, start, k) {
      assert SameAt(before, start, k) && SameAt(after, before, k);
    }
  }

  lemma NothingLoaded(before: seq<seq<Record>>, view: map<Key, Record>, requests: seq<Request>, schema: Schema)
    requires requests == []
    ensures before + Loaded(requests, [], schema) == before
    ensures OverlayEach(view, Loaded(requests, [], schema), schema.uniqueKey) == view
  {
  }
}
