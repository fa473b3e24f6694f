/** Run and stage records, and the repository that keeps every saved version of them. */
module Metadata {
  import opened Frames
  import opened Errors
  import opened Warehouse

  datatype RunStatus = QUEUED | RUNNING | SUCCESS | SKIPPED | FAILED {
    predicate IsTerminal() { SUCCESS? || SKIPPED? || FAILED? }
  }

  datatype StageStatus = Started | Succeeded | Failed | Skipped

  datatype RunRecord = RunRecord(
    runId: RunId, report: string, status: RunStatus, startedAt: nat, finishedAt: Option<nat>,
    currentStage: Option<Stage>, attempts: nat, recordsRejected: nat, recordsInserted: nat,
    dataHash: string, duplicateOf: Option<RunId>, errorStage: Option<Stage>)

  datatype StageRecord = StageRecord(runId: RunId, stage: Stage, attempt: nat, status: StageStatus)

  // --- the run log -------------------------------------------------------------------------------

  /** FINAL: a version is current when no later version of its run was saved. */
  predicate IsCurrent(log: seq<RunRecord>, i: nat) {
    i < |log| && forall j | i < j < |log| :: log[j].runId != log[i].runId
  }

  predicate IsLoad(log: seq<RunRecord>, report: string, i: nat) {
    IsCurrent(log, i) && log[i].report == report && log[i].status == SUCCESS
  }

  /** The most recently started run of the report that loaded data. */
  ghost predicate IsLatestLoad(log: seq<RunRecord>, report: string, latest: Option<RunRecord>) {
    match latest
    case None => forall i: nat :: !IsLoad(log, report, i)
    case Some(run) =>
      && (exists i: nat :: IsLoad(log, report, i) && log[i] == run)
      && forall j: nat | IsLoad(log, report, j) :: log[j].startedAt <= run.startedAt
  }

  /** The saved versions of one run, in the order they were saved. */
  function VersionsOf(log: seq<RunRecord>, runId: RunId): seq<RunRecord> {
    if log == [] then []
    else
      var last := log[|log| - 1];
      VersionsOf(log[..|log| - 1], runId) + if last.runId == runId then [last] else []
  }

  /** The saved SUCCESS versions of a report, in the order the loads ended. */
  function LoadsOf(log: seq<RunRecord>, report: string): seq<RunRecord> {
    if log == [] then []
    else
      var last := log[|log| - 1];
      LoadsOf(log[..|log| - 1], report) + if last.status == SUCCESS && last.report == report then [last] else []
  }

  function StagesOf(log: seq<StageRecord>, runId: RunId): seq<StageRecord> {
    if log == [] then []
    else
      var last := log[|log| - 1];
      StagesOf(log[..|log| - 1], runId) + if last.runId == runId then [last] else []
  }

  ghost predicate StartsIncrease(loads: seq<RunRecord>) {
    forall i, j | 0 <= i < j < |loads| :: loads[i].startedAt < loads[j].startedAt
  }

  /** Loads are final versions, and each started after the loads that ended before it. */
  ghost predicate Settled(log: seq<RunRecord>, report: string) {
    && (forall i: nat | i < |log| && log[i].status == SUCCESS && log[i].report == report :: IsCurrent(log, i))
    && StartsIncrease(LoadsOf(log, report))
  }

  lemma {:induction false} LoadsAreVersions(log: seq<RunRecord>, report: string)
    ensures forall run :: run in LoadsOf(log, report) <==> run in log && run.status == SUCCESS && run.report == report
  {
    if log != [] {
      LoadsAreVersions(log[..|log| - 1], report);
      assert log == log[..|log| - 1] + [log[|log| - 1]];
    }
  }

  lemma {:induction false} VersionsAreOfRun(log: seq<RunRecord>, runId: RunId)
    ensures forall run :: run in VersionsOf(log, runId) <==> run in log && run.runId == runId
  {
    if log != [] {
      VersionsAreOfRun(log[..|log| - 1], runId);
      assert log == log[..|log| - 1] + [log[|log| - 1]];
    }
  }

  predicate IsLastVersion(log: seq<RunRecord>, run: RunRecord) {
    var versions := VersionsOf(log, run.runId);
    versions != [] && versions[|versions| - 1] == run
  }

  lemma {:induction false} CurrentIsLastVersion(log: seq<RunRecord>, i: nat)
    requires IsCurrent(log, i)
    ensures IsLastVersion(log, log[i])
  {
    var last := |log| - 1;
    if i < last {
      assert forall j | 0 <= j < last :: log[..last][j] == log[j];
      CurrentIsLastVersion(log[..last], i);
    }
  }

  lemma {:induction false} LastVersionIsCurrent(log: seq<RunRecord>, run: RunRecord)
    requires IsLastVersion(log, run)
    ensures exists i: nat :: IsCurrent(log, i) && log[i] == run
  {
    var last := |log| - 1;
    if log[last].runId == run.runId {
      assert IsCurrent(log, last);
    } else {
      LastVersionIsCurrent(log[..last], run);
      var i: nat :| IsCurrent(log[..last], i) && log[..last][i] == run;
      assert forall j | 0 <= j < last :: log[..last][j] == log[j];
      assert IsCurrent(log, i);
    }
  }

  ghost predicate IsLastLoad(log: seq<RunRecord>, report: string, run: RunRecord) {
    IsLastVersion(log, run) && run.report == report && run.status == SUCCESS
  }

  /** The latest load is the one that started last among the runs of the report whose last saved version says
      SUCCESS; earlier versions of a run do not matter. */
  lemma LatestLoadIff(log: seq<RunRecord>, report: string, latest: Option<RunRecord>)
    ensures IsLatestLoad(log, report, latest) <==>
            match latest
            case None => forall run :: !IsLastLoad(log, report, run)
            case Some(run) =>
              && IsLastLoad(log, report, run)
              && forall other | IsLastLoad(log, report, other) :: other.startedAt <= run.startedAt
  {
    forall i: nat | IsCurrent(log, i) ensures IsLastVersion(log, log[i]) {
      CurrentIsLastVersion(log, i);
    }
    forall run | IsLastVersion(log, run) ensures exists i: nat :: IsCurrent(log, i) && log[i] == run {
      LastVersionIsCurrent(log, run);
    }
    hide IsCurrent, IsLastVersion;
    forall i: nat | IsLoad(log, report, i) ensures IsLastLoad(log, report, log[i]) {}
    forall run | IsLastLoad(log, report, run) ensures exists i: nat :: IsLoad(log, report, i) && log[i] == run {
      var i: nat :| IsCurrent(log, i) && log[i] == run;
      assert IsLoad(log, report, i);
    }
  }

  /** "Latest by started_at" is the load that ended last. */
  lemma LatestLoadEndedLast(log: seq<RunRecord>, report: string, latest: Option<RunRecord>)
    requires Settled(log, report) && IsLatestLoad(log, report, latest)
    ensures var loads := LoadsOf(log, report);
            latest == if loads == [] then None else Some(loads[|loads| - 1])
  {
    var loads := LoadsOf(log, report);
    LoadsAreVersions(log, report);
    hide LoadsOf;
    if latest.Some? {
      var i: nat :| IsLoad(log, report, i) && log[i] == latest.value;
      assert latest.value in loads;
    }
    if loads != [] {
      var last := loads[|loads| - 1];
      assert last in loads;
      var i: nat :| i < |log| && log[i] == last;
      assert IsLoad(log, report, i);
      var k :| 0 <= k < |loads| && loads[k] == latest.value;
    }
  }

  lemma AppendKeepsLoadsCurrent(log: seq<RunRecord>, version: RunRecord, report: string, i: nat)
    requires Settled(log, report) && i < |log| && log[i].status == SUCCESS && log[i].report == report
    requires forall load | load in LoadsOf(log, report) :: load.runId != version.runId
    ensures IsCurrent(log + [version], i)
  {
    LoadsAreVersions(log, report);
    hide LoadsOf, StartsIncrease;
    assert IsCurrent(log, i);
    assert log[i] in LoadsOf(log, report);
  }

  /** Saving a version that is no load of the report leaves the report's loads alone. */
  lemma UnloadedVersionKeepsLoads(log: seq<RunRecord>, version: RunRecord, report: string)
    requires Settled(log, report) && !(version.status == SUCCESS && version.report == report)
    requires forall load | load in LoadsOf(log, report) :: load.runId != version.runId
    ensures Settled(log + [version], report) && LoadsOf(log + [version], report) == LoadsOf(log, report)
  {
    var log' := log + [version];
    assert log'[..|log|] == log;
    forall i: nat | i < |log'| && log'[i].status == SUCCESS && log'[i].report == report ensures IsCurrent(log', i) {
      hide LoadsOf, StartsIncrease, Settled;
      AppendKeepsLoadsCurrent(log, version, report, i);
    }
  }

  lemma LaterStartIncreases(loads: seq<RunRecord>, run: RunRecord)
    requires StartsIncrease(loads) && forall load | load in loads :: load.startedAt < run.startedAt
    ensures StartsIncrease(loads + [run])
  {
  }

  /** A load that started after the earlier loads becomes the last one. */
  lemma NewLoadIsLast(log: seq<RunRecord>, run: RunRecord)
    requires Settled(log, run.report) && run.status == SUCCESS
    requires forall load | load in LoadsOf(log, run.report) :: load.startedAt < run.startedAt && load.runId != run.runId
    ensures Settled(log + [run], run.report) && LoadsOf(log + [run], run.report) == LoadsOf(log, run.report) + [run]
  {
    var log' := log + [run];
    assert log'[..|log|] == log;
    assert LoadsOf(log', run.report) == LoadsOf(log, run.report) + [run];
    hide LoadsOf, StartsIncrease;
    LaterStartIncreases(LoadsOf(log, run.report), run);
    forall i: nat | i < |log'| && log'[i].status == SUCCESS && log'[i].report == run.report ensures IsCurrent(log', i) {
      hide Settled;
      if i < |log| { AppendKeepsLoadsCurrent(log, run, run.report, i); }
    }
  }

  /** A version another request may save while a run of the report is going on: it is of another run, it is
      no load of this report, and a run that loaded is never saved again. */
  predicate IsForeign(log: seq<RunRecord>, version: RunRecord, runId: RunId, report: string) {
    && version.runId != runId
    && !(version.status == SUCCESS && version.report == report)
    && forall load | load in LoadsOf(log, report) :: load.runId != version.runId
  }

  lemma ForeignVersionKeeps(log: seq<RunRecord>, version: RunRecord, runId: RunId, report: string)
    requires Settled(log, report) && IsForeign(log, version, runId, report)
    ensures Settled(log + [version], report) && LoadsOf(log + [version], report) == LoadsOf(log, report)
    ensures VersionsOf(log + [version], runId) == VersionsOf(log, runId)
  {
    UnloadedVersionKeepsLoads(log, version, report);
    assert (log + [version])[..|log|] == log;
  }

  class RunRepository {
    var runs: seq<RunRecord>
    var stages: seq<StageRecord>

    constructor ()
      ensures runs == [] && stages == []
    {
      runs, stages := [], [];
    }

    method SaveRun(run: RunRecord)
      modifies this`runs
      ensures runs == old(runs) + [run]
    {
      runs := runs + [run];
    }

    method SaveStage(stage: StageRecord)
      modifies this`stages
      ensures stages == old(stages) + [stage]
    {
      stages := stages + [stage];
    }

    /** What other requests save in the meantime, run by run of any report. */
    method VersionsMeanwhile(runId: RunId, report: string)
      requires Settled(runs, report)
      modifies this`runs
      ensures Settled(runs, report) && LoadsOf(runs, report) == old(LoadsOf(runs, report))
      ensures VersionsOf(runs, runId) == old(VersionsOf(runs, runId))
    {
      hide Settled, LoadsOf, VersionsOf, IsForeign;
      var others :| others >= 0;
      for i := 0 to others
        invariant Settled(runs, report) && LoadsOf(runs, report) == old(LoadsOf(runs, report))
        invariant VersionsOf(runs, runId) == old(VersionsOf(runs, runId))
      {
        var version: RunRecord := *;
        if IsForeign(runs, version, runId, report) {
          ForeignVersionKeeps(runs, version, runId, report);
          SaveRun(version);
        }
      }
    }

    method StagesMeanwhile(runId: RunId)
      modifies this`stages
      ensures StagesOf(stages, runId) == old(StagesOf(stages, runId))
    {
      var others :| others >= 0;
      for i := 0 to others
        invariant StagesOf(stages, runId) == old(StagesOf(stages, runId))
      {
        var stage: StageRecord := *;
        if stage.runId != runId {
          assert (stages + [stage])[..|stages|] == stages;
          SaveStage(stage);
        }
      }
    }

    /** WHERE report = ... AND status = 'SUCCESS' ORDER BY started_at DESC LIMIT 1, over current versions. */
    method LatestLoad(report: string) returns (latest: Option<RunRecord>)
      ensures IsLatestLoad(runs, report, latest)
    {
      latest := None;
      ghost var at: nat := 0;
      for i := 0 to |runs|
        invariant latest.Some? ==> at < i && IsLoad(runs, report, at) && runs[at] == latest.value
        invariant forall j: nat | j < i && IsLoad(runs, report, j) ::
                    latest.Some? && runs[j].startedAt <= latest.value.startedAt
      {
        if IsLoad(runs, report, i) && (latest.None? || latest.value.startedAt <= runs[i].startedAt) {
          latest, at := Some(runs[i]), i;
        }
      }
    }
  }
}
