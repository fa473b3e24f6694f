/** The stages of a run before its dataset is loaded: acquisition under retry, quality, duplicate detection. */
module Stages {
  import opened Frames
  import opened Errors
  import opened Retry
  import opened Warehouse
  import opened Fingerprint
  import opened Metadata
  import opened Tracker
  import opened LoadPhase
  import opened IngestionService

  /** Acquisition attempts 1 to n of a run; all but the last failed. */
  function Attempts(runId: RunId, n: nat, failed: bool): seq<StageRecord> {
    if n == 0 then []
    else Attempts(runId, n - 1, true) + [StageRecord(runId, Acquisition, n, Ending(failed))]
  }

  lemma {:induction false} AttemptsKeepOrder(before: seq<StageRecord>, runId: RunId, n: nat, failed: bool)
    requires PipelineOrder(before) && IsNext(before, Acquisition) && n >= 1
    ensures PipelineOrder(before + Attempts(runId, n, failed))
  {
    var record := StageRecord(runId, Acquisition, n, Ending(failed));
    var earlier := before + Attempts(runId, n - 1, true);
    assert before + Attempts(runId, n, failed) == earlier + [record];
    if n == 1 {
      assert earlier == before;
      NextStageKeepsOrder(before, record);
    } else {
      AttemptsKeepOrder(before, runId, n - 1, true);
      assert Attempts(runId, n - 1, true)
          == Attempts(runId, n - 2, true) + [StageRecord(runId, Acquisition, n - 1, Failed)];
      forall i | 0 <= i < |earlier| ensures Follows((earlier + [record])[i], (earlier + [record])[i + 1]) {
        if i < |earlier| - 1 { assert Follows(earlier[i], earlier[i + 1]); }
      }
    }
  }

  lemma AttemptsEnd(before: seq<StageRecord>, runId: RunId, n: nat, failed: bool)
    requires n >= 1
    ensures EndsWith(before + Attempts(runId, n, failed), Acquisition, Ending(failed))
  {
  }

  /** One stage whose work happens outside this model and may fail in any way. */
  method OutsideStage(tracker: RunTracker, outside: Outside, stage: Stage) returns (error: Option<Error>)
    requires Running(tracker) && IsNext(tracker.Timeline(), stage)
    modifies tracker`run, tracker.repository, outside
    ensures outside.faults == old(outside.faults) + Raised(error)
    ensures Running(tracker) && tracker.run == old(tracker.run).(currentStage := Some(stage))
    ensures tracker.Timeline() == old(tracker.Timeline()) + [StageRecord(tracker.run.runId, stage, 1,
        Ending(error.Some?))]
  {
    hide RunTracker.Valid, RunTracker.Timeline, RunTracker.Open, PipelineOrder;
    ghost var before := tracker.Timeline();
    var record := Enter(tracker, stage);
    error := outside.Ask();
    Leave(tracker, record, error.Some?, before);
  }

  // --- acquisition -------------------------------------------------------------------------------

  const STEPS: seq<string> := ["browser", "login", "navigate", "filters", "download", "validate"]

  /** The records of the first n sub-steps of an attempt; the last of them may have failed. */
  function StepRecords(runId: RunId, number: nat, n: nat, failed: bool): seq<StageRecord>
    requires n <= |STEPS|
  {
    if n == 0 then []
    else
      var record := StageRecord(runId, AcquisitionStep(STEPS[n - 1]), number, Started);
      StepRecords(runId, number, n - 1, false) + [record, record.(status := Ending(failed))]
  }

  /** Sub-step n of an acquisition attempt, after the earlier ones. */
  method SubStep(tracker: RunTracker, outside: Outside, step: string, n: nat, number: nat,
                 ghost before: seq<StageRecord>)
    returns (error: Option<Error>)
    requires tracker.Valid() && tracker.run.status == RUNNING && n < |STEPS| && step == STEPS[n]
    requires tracker.Events() == before + StepRecords(tracker.run.runId, number, n, false)
    modifies tracker`run, tracker.repository, outside
    ensures outside.faults == old(outside.faults) + Raised(error)
    ensures tracker.Valid() && tracker.run == old(tracker.run)
    ensures tracker.Events() == before + StepRecords(tracker.run.runId, number, n + 1, error.Some?)
    ensures tracker.Timeline() == old(tracker.Timeline()) && tracker.Open() == old(tracker.Open())
  {
    hide RunTracker.Valid, RunTracker.Timeline, RunTracker.Open, RunTracker.Events;
    ghost var earlier := StepRecords(tracker.run.runId, number, n, false);
    var record := tracker.StageStart(AcquisitionStep(step), number);
    error := outside.Ask();
    tracker.StageEnd(record, error.Some?);
    hide StepRecords;
    assert before + earlier + [record] + [record.(status := Ending(error.Some?))]
        == before + (earlier + [record, record.(status := Ending(error.Some?))]);
  }

  /** One attempt to get the report's file: the sub-steps in order, until one fails. Making the run's directory
      before the first, starting the trace after the login and the work around the browser session are no
      steps of their own. */
  method Attempt(tracker: RunTracker, outside: Outside, number: nat)
    returns (error: Option<Error>, ghost entered: nat, ghost failed: bool)
    requires tracker.Valid() && tracker.run.status == RUNNING
    modifies tracker`run, tracker.repository, outside
    ensures outside.faults == old(outside.faults) + Raised(error)
    ensures tracker.Valid() && tracker.run == old(tracker.run)
    ensures entered <= |STEPS| && (error.None? ==> entered == |STEPS| && !failed) && (failed ==> entered > 0)
    ensures tracker.Events() == old(tracker.Events()) + StepRecords(tracker.run.runId, number, entered, failed)
    ensures error.Some? && !failed ==> entered <= 2 || entered == |STEPS|
    ensures tracker.Timeline() == old(tracker.Timeline()) && tracker.Open() == old(tracker.Open())
  {
    ghost var before := tracker.Events();
    NoStepRecorded(before, tracker.run.runId, number);
    hide RunTracker.Valid, RunTracker.Timeline, RunTracker.Open, RunTracker.Events, StepRecords;
    error, entered, failed := LogIn(tracker, outside, number, before);
    if error.Some? { return; }
    error, entered := OnPage(tracker, outside, number, before);
    failed := error.Some?;
    if error.Some? { return; }
    error := outside.Ask();
  }

  /** The sub-steps up to the login, and what may fail around them. */
  method LogIn(tracker: RunTracker, outside: Outside, number: nat, ghost before: seq<StageRecord>)
    returns (error: Option<Error>, ghost entered: nat, ghost failed: bool)
    requires tracker.Valid() && tracker.run.status == RUNNING
    requires tracker.Events() == before + StepRecords(tracker.run.runId, number, 0, false)
    modifies tracker`run, tracker.repository, outside
    ensures outside.faults == old(outside.faults) + Raised(error)
    ensures tracker.Valid() && tracker.run == old(tracker.run)
    ensures entered <= 2 && (error.None? ==> entered == 2 && !failed) && (failed ==> entered > 0)
    ensures tracker.Events() == before + StepRecords(tracker.run.runId, number, entered, failed)
    ensures tracker.Timeline() == old(tracker.Timeline()) && tracker.Open() == old(tracker.Open())
  {
    hide RunTracker.Valid, RunTracker.Timeline, RunTracker.Open, RunTracker.Events, StepRecords;
    entered, failed := 0, false;
    error := outside.Ask();
    if error.Some? { return; }
    error := SubStep(tracker, outside, "browser", 0, number, before);
    entered, failed := 1, error.Some?;
    if error.Some? { return; }
    error := outside.Ask();
    if error.Some? { return; }
    error := SubStep(tracker, outside, "login", 1, number, before);
    entered, failed := 2, error.Some?;
    if error.Some? { return; }
    error := outside.Ask();
  }

  /** The sub-steps on the dashboard's page, after the login. */
  method OnPage(tracker: RunTracker, outside: Outside, number: nat, ghost before: seq<StageRecord>)
    returns (error: Option<Error>, ghost entered: nat)
    requires tracker.Valid() && tracker.run.status == RUNNING
    requires tracker.Events() == before + StepRecords(tracker.run.runId, number, 2, false)
    modifies tracker`run, tracker.repository, outside
    ensures outside.faults == old(outside.faults) + Raised(error)
    ensures tracker.Valid() && tracker.run == old(tracker.run)
    ensures 2 < entered <= |STEPS| && (error.None? ==> entered == |STEPS|)
    ensures tracker.Events() == before + StepRecords(tracker.run.runId, number, entered, error.Some?)
    ensures tracker.Timeline() == old(tracker.Timeline()) && tracker.Open() == old(tracker.Open())
  {
    hide RunTracker.Valid, RunTracker.Timeline, RunTracker.Open, RunTracker.Events, StepRecords;
    entered := 3;
    error := SubStep(tracker, outside, "navigate", 2, number, before);
    if error.Some? { return; }
    entered := 4;
    error := SubStep(tracker, outside, "filters", 3, number, before);
    if error.Some? { return; }
    entered := 5;
    error := SubStep(tracker, outside, "download", 4, number, before);
    if error.Some? { return; }
    entered := 6;
    error := SubStep(tracker, outside, "validate", 5, number, before);
  }

  lemma NoStepRecorded(before: seq<StageRecord>, runId: RunId, number: nat)
    ensures before + StepRecords(runId, number, 0, false) == before
  {
  }

  lemma NoAttemptRecorded(before: seq<StageRecord>, runId: RunId)
    ensures before + Attempts(runId, 0, true) == before
  {
  }

  lemma EndAttempt(before: seq<StageRecord>, runId: RunId, n: nat, failed: bool, record: StageRecord)
    requires n >= 1 && record == StageRecord(runId, Acquisition, n, Started)
    ensures var timeline := before + Attempts(runId, n - 1, true) + [record];
            timeline[..|timeline| - 1] + [record.(status := Ending(failed))] == before + Attempts(runId, n, failed)
  {
    var earlier := Attempts(runId, n - 1, true);
    assert (before + earlier + [record])[..|before + earlier|] == before + earlier;
  }

  method NumberedAttempt(tracker: RunTracker, outside: Outside, number: nat, ghost before: seq<StageRecord>)
    returns (error: Option<Error>)
    requires Running(tracker) && number >= 1
    requires PipelineOrder(before) && IsNext(before, Acquisition)
    requires tracker.Timeline() == before + Attempts(tracker.run.runId, number - 1, true)
    modifies tracker`run, tracker.repository, outside
    ensures outside.faults == old(outside.faults) + Raised(error)
    ensures Running(tracker)
    ensures tracker.run == old(tracker.run).(currentStage := Some(Acquisition), attempts := number)
    ensures tracker.Timeline() == before + Attempts(tracker.run.runId, number, error.Some?)
  {
    hide RunTracker.Valid, RunTracker.Timeline, RunTracker.Open, Attempts, Raised, Ending, PipelineOrder, IsNext;
    tracker.Update(tracker.run.(attempts := number));
    var record := tracker.StageStart(Acquisition, number);
    ghost var entered, failed;
    error, entered, failed := Attempt(tracker, outside, number);
    EndAttempt(before, tracker.run.runId, number, error.Some?, record);
    tracker.StageEnd(record, error.Some?);
    AttemptsKeepOrder(before, tracker.run.runId, number, error.Some?);
  }

  /** Attempts under retry; each is a headline stage of its own. */
  method TryAttempts(tracker: RunTracker, outside: Outside, maxAttempts: nat) returns (error: Option<Error>)
    requires Running(tracker) && IsNext(tracker.Timeline(), Acquisition) && maxAttempts >= 1
    modifies tracker`run, tracker.repository, outside
    ensures Retried(old(outside.faults), outside.faults, error, tracker.run.attempts, maxAttempts)
    ensures Running(tracker)
    ensures tracker.run == old(tracker.run).(currentStage := Some(Acquisition), attempts := tracker.run.attempts)
    ensures tracker.Timeline() == old(tracker.Timeline())
              + Attempts(tracker.run.runId, tracker.run.attempts, error.Some?)
  {
    ghost var before, faults := tracker.Timeline(), outside.faults;
    assert PipelineOrder(before);
    hide Running, RunTracker.Timeline, PipelineOrder, IsNext, Attempts, Retrying, Retried, Raised;
    NoAttemptYet(faults);
    NoAttemptRecorded(before, tracker.run.runId);
    var number := 1;
    while true
      invariant 1 <= number <= maxAttempts && Retrying(faults, outside.faults, number - 1)
      invariant Running(tracker)
      invariant tracker.run == old(tracker.run).(currentStage := tracker.run.currentStage,
          attempts := tracker.run.attempts)
      invariant tracker.Timeline() == before + Attempts(tracker.run.runId, number - 1, true)
      decreases maxAttempts - number
    {
      ghost var during := outside.faults;
      error := NumberedAttempt(tracker, outside, number, before);
      if error.None? || !error.value.IsRetryable() || number == maxAttempts {
        LastAttempt(faults, during, error, number, maxAttempts);
        return;
      }
      AttemptFails(faults, during, number - 1, error);
      number := number + 1;
    }
  }

  /** Acquisition. Building the adapter for the report's dashboard may fail before the first attempt, which
      leaves no record of acquisition at all. */
  method Acquire(tracker: RunTracker, outside: Outside, maxAttempts: nat)
    returns (error: Option<Error>, ghost built: bool)
    requires Running(tracker) && IsNext(tracker.Timeline(), Acquisition) && maxAttempts >= 1
    modifies tracker`run, tracker.repository, outside
    ensures Running(tracker)
    ensures !built ==>
              && error.Some? && outside.faults == old(outside.faults) + [error.value]
              && tracker.run == old(tracker.run) && tracker.Timeline() == old(tracker.Timeline())
    ensures built ==>
              && Retried(old(outside.faults), outside.faults, error, tracker.run.attempts, maxAttempts)
              && tracker.run == old(tracker.run).(currentStage := Some(Acquisition), attempts := tracker.run.attempts)
              && tracker.Timeline() == old(tracker.Timeline())
                 + Attempts(tracker.run.runId, tracker.run.attempts, error.Some?)
  {
    hide Running, RunTracker.Timeline, Attempts, Retried;
    error := outside.Ask();
    assert error.None? ==> outside.faults == old(outside.faults);
    built := error.None?;
    if error.None? {
      error := TryAttempts(tracker, outside, maxAttempts);
    }
  }

  // --- quality and duplicate detection -----------------------------------------------------------

  /** The quality stage. Keeping rejected rows for inspection may fail, or hide the refusal behind its own error. */
  method CheckQuality(tracker: RunTracker, outside: Outside, source: Frame, schema: Schema)
    returns (result: Result<PreparedDataset>)
    requires Running(tracker) && IsNext(tracker.Timeline(), Stage.Quality) && schema.specs != []
    modifies tracker`run, tracker.repository, outside
    ensures if outside.faults == old(outside.faults) then result.Success? <==> schema.Accepts(source)
            else result.Failure? && outside.faults == old(outside.faults) + [result.error]
    ensures Interrupted(old(outside.faults), outside.faults) <==> ErrorOf(result) == Some(Interrupt)
    ensures Running(tracker) && tracker.run == old(tracker.run).(currentStage := Some(Stage.Quality))
    ensures tracker.Timeline() == old(tracker.Timeline())
              + [StageRecord(tracker.run.runId, Stage.Quality, 1, Ending(result.Failure?))]
    ensures result.Success? ==>
              && schema.Accepts(source)
              && result.value.frame == schema.Clean(source.rows) && result.value.rejected == schema.Dirty(source.rows)
              && result.value.fingerprint == CanonicalBytes(schema.Clean(source.rows), schema.Columns(), schema.render)
  {
    hide RunTracker.Valid, RunTracker.Timeline, RunTracker.Open, PipelineOrder, Schema.Accepts, CanonicalBytes;
    ghost var before := tracker.Timeline();
    var record := Enter(tracker, Stage.Quality);
    result := Validate(source, schema);
    var trouble := outside.Ask();
    InterruptedBy(old(outside.faults), trouble);
    if trouble.Some? {
      result := Failure(trouble.value);
    }
    Leave(tracker, record, result.Failure?, before);
  }

  /** The run, if any, that this fingerprint repeats: only the load that ended last is compared. */
  predicate Repeats(earlier: seq<RunRecord>, fingerprint: string) {
    earlier != [] && earlier[|earlier| - 1].dataHash == fingerprint
  }

  method FindDuplicate(tracker: RunTracker, outside: Outside, fingerprint: string)
    returns (result: Result<Option<RunId>>)
    requires Running(tracker) && IsNext(tracker.Timeline(), Dedup)
    modifies tracker`run, tracker.repository, outside
    ensures outside.faults == old(outside.faults) + Raised(ErrorOf(result))
    ensures Running(tracker) && tracker.run == old(tracker.run).(currentStage := Some(Dedup))
    ensures tracker.Timeline() == old(tracker.Timeline())
              + [StageRecord(tracker.run.runId, Dedup, 1, Ending(result.Failure?))]
    ensures result.Success? ==>
              result.value == if Repeats(tracker.earlier,
                  fingerprint) then Some(tracker.earlier[|tracker.earlier| - 1].runId)
                              else None
  {
    hide RunTracker.Valid, RunTracker.Timeline, RunTracker.Open, PipelineOrder;
    ghost var before := tracker.Timeline();
    var record := Enter(tracker, Dedup);
    var previous := LastLoaded(tracker);
    var trouble := outside.Ask();
    if trouble.Some? {
      result := Failure(trouble.value);
    } else if previous.Some? && previous.value.runId != tracker.run.runId && previous.value.dataHash == fingerprint {
      result := Success(Some(previous.value.runId));
    } else {
      result := Success(None);
    }
    Leave(tracker, record, result.Failure?, before);
  }

  /** The latest load on record: whatever other requests saved meanwhile, the load before this run. */
  method LastLoaded(tracker: RunTracker) returns (latest: Option<RunRecord>)
    requires tracker.Valid() && tracker.run.status == RUNNING
    modifies tracker.repository`runs
    ensures tracker.Valid() && tracker.Timeline() == old(tracker.Timeline()) && tracker.Open() == old(tracker.Open())
    ensures latest == if tracker.earlier == [] then None else Some(tracker.earlier[|tracker.earlier| - 1])
    ensures latest.Some? ==> latest.value.runId != tracker.run.runId
  {
    hide Replay, Headlines, Lifecycle, Settled, IsLatestLoad, LoadsOf;
    tracker.repository.VersionsMeanwhile(tracker.run.runId, tracker.run.report);
    latest := tracker.repository.LatestLoad(tracker.run.report);
    LatestLoadIsEarlier(tracker, latest);
  }

  lemma LatestLoadIsEarlier(tracker: RunTracker, latest: Option<RunRecord>)
    requires tracker.Valid() && tracker.run.status == RUNNING
    requires IsLatestLoad(tracker.repository.runs, tracker.run.report, latest)
    ensures latest == if tracker.earlier == [] then None else Some(tracker.earlier[|tracker.earlier| - 1])
    ensures latest.Some? ==> latest.value.runId != tracker.run.runId
  {
    hide Replay, Headlines, Lifecycle, Settled, IsLatestLoad;
    LatestLoadEndedLast(tracker.repository.runs, tracker.run.report, latest);
  }
}
