/** The run and stage state machine: each run version and each stage start and end, as recorded. */
module Tracker {
  import opened Frames
  import opened Errors
  import opened Warehouse
  import opened Metadata

  // --- what a sequence of stage records says -----------------------------------------------------

  /** Replays stage records on a stack of running stages: a stage starts once and ends once, innermost
      first. None when some record does not fit. */
  function Replay(events: seq<StageRecord>): Option<seq<StageRecord>> {
    if events == [] then Some([])
    else
      var last := events[|events| - 1];
      match Replay(events[..|events| - 1])
      case None => None
      case Some(running) =>
        match last.status
        case Started => Some(running + [last])
        case Skipped => Some(running)
        case _ =>
          if running != [] && running[|running| - 1] == last.(status := Started) then Some(running[..|running| - 1])
          else None
  }

  /** The headline stages entered, in order, each with the latest status recorded for it. */
  function Headlines(events: seq<StageRecord>): seq<StageRecord> {
    if events == [] then []
    else
      var last := events[|events| - 1];
      var before := Headlines(events[..|events| - 1]);
      if !last.stage.IsHeadline() || last.status == Skipped then before
      else if last.status == Started then before + [last]
      else if before != [] then before[..|before| - 1] + [last]
      else before
  }

  lemma RecordStart(events: seq<StageRecord>, record: StageRecord)
    requires Replay(events).Some? && record.status == Started
    ensures Replay(events + [record]) == Some(Replay(events).value + [record])
    ensures Headlines(events + [record])
        == if record.stage.IsHeadline() then Headlines(events) + [record] else Headlines(events)
  {
    assert (events + [record])[..|events|] == events;
  }

  lemma RecordEnd(events: seq<StageRecord>, record: StageRecord, ended: StageRecord)
    requires Replay(events).Some? && Replay(events).value != [] && record.status == Started
    requires Replay(events).value[|Replay(events).value| - 1] == record
    requires ended == record.(status := Succeeded) || ended == record.(status := Failed)
    requires record.stage.IsHeadline() ==> Headlines(events) != []
    ensures Replay(events + [ended]) == Some(Replay(events).value[..|Replay(events).value| - 1])
    ensures var before := Headlines(events);
            Headlines(events + [ended])
            == if record.stage.IsHeadline() then before[..|before| - 1] + [ended] else before
  {
    assert (events + [ended])[..|events|] == events;
    assert ended.(status := Started) == record;
  }

  lemma RecordSkipped(events: seq<StageRecord>, record: StageRecord)
    requires record.status == Skipped
    ensures Replay(events + [record]) == Replay(events) && Headlines(events + [record]) == Headlines(events)
  {
    assert (events + [record])[..|events|] == events;
  }

  function Count(records: seq<StageRecord>, record: StageRecord): nat { multiset(records)[record] }

  lemma CountAppend(records: seq<StageRecord>, last: StageRecord, record: StageRecord)
    ensures Count(records + [last], record) == Count(records, record) + if last == record then 1 else 0
  {
  }

  /** Every start has its own end, except for the stages still running. */
  lemma {:induction false} StagesEndOnce(events: seq<StageRecord>, started: StageRecord)
    requires Replay(events).Some? && started.status == Started
    ensures Count(events, started) ==
            Count(events, started.(status := Succeeded)) + Count(events, started.(status := Failed))
            + Count(Replay(events).value, started)
  {
    if events != [] {
      var before, last := events[..|events| - 1], events[|events| - 1];
      StagesEndOnce(before, started);
      var running, now := Replay(before).value, Replay(events).value;
      assert events == before + [last];
      if last.status == Started {
        assert now == running + [last];
        CountAppend(running, last, started);
      } else if last.status != Skipped {
        assert running == now + [last.(status := Started)];
        CountAppend(now, last.(status := Started), started);
      } else {
        assert now == running;
      }
      hide Replay, Count;
      CountAppend(before, last, started);
      CountAppend(before, last, started.(status := Succeeded));
      CountAppend(before, last, started.(status := Failed));
    }
  }

  function Rank(stage: Stage): int {
    match stage
    case Config => 0
    case Preflight => 1
    case Acquisition => 2
    case Parse => 3
    case Transform => 4
    case Quality => 5
    case Dedup => 6
    case Load => 7
    case Verify => 8
    case _ => -1
  }

  /** Stage b may be entered after stage a: the next one after a success, or the next acquisition attempt
      after a failed one. */
  predicate Follows(a: StageRecord, b: StageRecord) {
    || (a.status == Succeeded && Rank(b.stage) == Rank(a.stage) + 1)
    || (a.stage == b.stage == Acquisition && a.status == Failed && b.attempt == a.attempt + 1)
  }

  /** The entered headline stages are a prefix of the pipeline, acquisition attempts aside. */
  predicate PipelineOrder(headlines: seq<StageRecord>) {
    && (headlines != [] ==> headlines[0].stage == Config)
    && forall i | 0 <= i < |headlines| - 1 :: Follows(headlines[i], headlines[i + 1])
  }

  /** QUEUED, then RUNNING versions with one start, then nothing after a terminal one; loading or
      skipping needs a start. */
  predicate Lifecycle(trail: seq<RunRecord>) {
    && trail != []
    && trail[0].status == QUEUED
    && (forall i | 1 <= i < |trail| - 1 :: trail[i].status == RUNNING)
    && (forall i | 2 <= i < |trail| :: trail[i].startedAt == trail[1].startedAt)
    && (|trail| > 1 ==> trail[|trail| - 1].status != QUEUED)
    && (|trail| == 2 ==> trail[1].status == RUNNING || trail[1].status == FAILED)
  }

  /** Which version may be saved after which. */
  predicate Step(from: RunRecord, to: RunRecord) {
    && to.runId == from.runId && to.report == from.report
    && match from.status
       case QUEUED => to.status == RUNNING || to.status == FAILED
       case RUNNING => to.status != QUEUED && to.startedAt == from.startedAt
       case _ => false
  }

  lemma StepKeepsLifecycle(trail: seq<RunRecord>, next: RunRecord)
    requires Lifecycle(trail) && Step(trail[|trail| - 1], next)
    ensures Lifecycle(trail + [next])
  {
    var longer := trail + [next];
    forall i | 1 <= i < |longer| - 1 ensures longer[i].status == RUNNING {
      assert i == |trail| - 1 || trail[i].status == RUNNING;
    }
  }

  /** In pipeline order only the last headline stage, or acquisition attempts that were repeated, failed. */
  lemma OnlyLastOrRepeatedFail(headlines: seq<StageRecord>, i: nat)
    requires PipelineOrder(headlines) && i < |headlines| - 1
    ensures headlines[i].status == Succeeded || (headlines[i].stage == headlines[i + 1].stage == Acquisition)
    ensures headlines[i].status == Succeeded || headlines[i].status == Failed
  {
    assert Follows(headlines[i], headlines[i + 1]);
  }

  predicate EnteredBy(headlines: seq<StageRecord>, i: nat, rank: nat) {
    exists j | 0 <= j < |headlines| :: j <= i && Rank(headlines[j].stage) == rank
  }

  /** Whatever headline stage was entered, every earlier stage of the pipeline was entered before it. */
  lemma {:induction false} HeadlinesArePrefix(headlines: seq<StageRecord>, i: nat)
    requires PipelineOrder(headlines) && i < |headlines|
    ensures 0 <= Rank(headlines[i].stage)
    ensures forall rank: nat | rank <= Rank(headlines[i].stage) :: EnteredBy(headlines, i, rank)
  {
    if i > 0 {
      HeadlinesArePrefix(headlines, i - 1);
      assert Follows(headlines[i - 1], headlines[i]);
      forall rank: nat | rank <= Rank(headlines[i].stage) ensures EnteredBy(headlines, i, rank) {
        if rank <= Rank(headlines[i - 1].stage) {
          assert EnteredBy(headlines, i - 1, rank);
        }
      }
    }
  }

  // --- the tracker -------------------------------------------------------------------------------

  /** The stage a failure is attributed to: the headline stage the run is in, else the error's own. */
  function FailureStage(current: Option<Stage>, error: Error): Stage {
    match current
    case Some(stage) => stage
    case None => if error.DomainError? then error.stage else Stage.Pipeline
  }

  function Ending(failed: bool): StageStatus { if failed then Failed else Succeeded }

  function LastStage(headlines: seq<StageRecord>): Option<Stage> {
    if headlines == [] then None else Some(headlines[|headlines| - 1].stage)
  }

  class RunTracker {
    const repository: RunRepository
    var run: RunRecord
    /** The report's loads before this run. */
    ghost const earlier: seq<RunRecord>

    constructor (repository: RunRepository, run: RunRecord)
      requires run.status == QUEUED && run.currentStage.None?
      requires VersionsOf(repository.runs, run.runId) == [run] && StagesOf(repository.stages, run.runId) == []
      requires Settled(repository.runs, run.report)
      ensures this.repository == repository && this.run == run && earlier == LoadsOf(repository.runs, run.report)
      ensures Valid() && Events() == [] && Trail() == [run] && Timeline() == [] && Open() == []
    {
      this.repository, this.run := repository, run;
      earlier := LoadsOf(repository.runs, run.report);
      LoadsAreVersions(repository.runs, run.report);
      VersionsAreOfRun(repository.runs, run.runId);
    }

    /** The versions of this run saved so far. */
    ghost function Trail(): seq<RunRecord>
      reads this, repository
    {
      VersionsOf(repository.runs, run.runId)
    }

    ghost function Events(): seq<StageRecord>
      reads this, repository
    {
      StagesOf(repository.stages, run.runId)
    }

    /** The headline stages of this run. */
    ghost function Timeline(): seq<StageRecord>
      reads this, repository
    {
      Headlines(Events())
    }

    /** The report's loads start in the order they end; this run starts after the earlier ones. */
    ghost predicate LoadsInOrder()
      reads this, repository
    {
      && Settled(repository.runs, run.report)
      && LoadsOf(repository.runs, run.report) == earlier + (if run.status == SUCCESS then [run] else [])
      && forall load | load in earlier ::
           load.runId != run.runId && (run.status == RUNNING ==> load.startedAt < run.startedAt)
    }

    ghost predicate Recorded()
      reads this, repository
    {
      && Lifecycle(Trail()) && Trail()[|Trail()| - 1] == run
      && LoadsInOrder()
      && Replay(Events()).Some?
    }

    ghost predicate Valid()
      reads this, repository
    {
      Recorded() && run.currentStage == LastStage(Timeline())
    }

    /** The running stages, outermost first. */
    ghost function Open(): seq<StageRecord>
      reads this, repository
    {
      var running := Replay(Events());
      if running.Some? then running.value else []
    }

    /** Save the next version of the run, after whatever other requests saved in the meantime. */
    method Save(changed: RunRecord)
      requires Recorded() && Step(run, changed)
      requires run.status == QUEUED && changed.status == RUNNING ==>
                 forall load | load in earlier :: load.startedAt < changed.startedAt
      modifies this`run, repository`runs
      ensures Recorded() && run == changed && Trail() == old(Trail()) + [changed]
      ensures Events() == old(Events())
    {
      hide Settled, Lifecycle, LoadsOf, Replay;
      repository.VersionsMeanwhile(run.runId, run.report);
      assert (repository.runs + [changed])[..|repository.runs|] == repository.runs;
      StepKeepsLifecycle(Trail(), changed);
      if changed.status == SUCCESS {
        NewLoadIsLast(repository.runs, changed);
      } else {
        UnloadedVersionKeepsLoads(repository.runs, changed, run.report);
      }
      run := changed;
      repository.SaveRun(run);
    }

    // --- lifecycle -------------------------------------------------------------------------------

    method Update(changed: RunRecord)
      requires Valid() && run.status == RUNNING && changed.status == RUNNING && Step(run, changed)
      requires changed.currentStage == run.currentStage
      modifies this`run, repository`runs
      ensures Valid() && run == changed && Trail() == old(Trail()) + [run]
      ensures Events() == old(Events()) && Timeline() == old(Timeline()) && Open() == old(Open())
    {
      Save(changed);
    }

    method Start(now: nat)
      requires Valid() && run.status == QUEUED
      requires forall load | load in earlier :: load.startedAt < now
      modifies this`run, repository`runs
      ensures Valid() && run == old(run).(status := RUNNING, startedAt := now)
      ensures Trail() == old(Trail()) + [run]
      ensures Events() == old(Events()) && Timeline() == old(Timeline()) && Open() == old(Open())
    {
      Save(run.(status := RUNNING, startedAt := now));
    }

    method Succeed(recordsInserted: nat, now: nat)
      requires Valid() && run.status == RUNNING
      modifies this`run, repository`runs
      ensures Valid() && Trail() == old(Trail()) + [run]
      ensures Events() == old(Events()) && Timeline() == old(Timeline()) && Open() == old(Open())
      ensures run == old(run).(status := SUCCESS, finishedAt := Some(now), recordsInserted := recordsInserted)
    {
      Save(run.(status := SUCCESS, finishedAt := Some(now), recordsInserted := recordsInserted));
    }

    method Skip(duplicateOf: RunId, now: nat)
      requires Valid() && run.status == RUNNING
      modifies this`run, repository`runs
      ensures Valid() && Trail() == old(Trail()) + [run]
      ensures Events() == old(Events()) && Timeline() == old(Timeline()) && Open() == old(Open())
      ensures run == old(run).(status := SKIPPED, finishedAt := Some(now), duplicateOf := Some(duplicateOf))
    {
      Save(run.(status := SKIPPED, finishedAt := Some(now), duplicateOf := Some(duplicateOf)));
    }

    method Fail(error: Error, now: nat)
      requires Valid() && !run.status.IsTerminal()
      modifies this`run, repository`runs
      ensures Valid() && Trail() == old(Trail()) + [run]
      ensures Events() == old(Events()) && Timeline() == old(Timeline()) && Open() == old(Open())
      ensures run == old(run).(status := FAILED, finishedAt := Some(now), errorStage := run.errorStage)
      ensures run.errorStage == Some(FailureStage(old(run.currentStage), error))
      ensures run.errorStage == if old(run.currentStage).Some? then old(run.currentStage)
                                else if error.DomainError? then Some(error.stage) else Some(Stage.Pipeline)
    {
      Save(run.(status := FAILED, finishedAt := Some(now), errorStage := Some(FailureStage(run.currentStage, error))));
    }

    // --- stages ----------------------------------------------------------------------------------

    method SaveStage(record: StageRecord)
      requires Recorded() && record.runId == run.runId && Replay(Events() + [record]).Some?
      modifies repository`stages
      ensures Recorded() && Events() == old(Events()) + [record]
    {
      hide Settled, Lifecycle, LoadsOf, Replay;
      repository.StagesMeanwhile(run.runId);
      assert (repository.stages + [record])[..|repository.stages|] == repository.stages;
      repository.SaveStage(record);
    }

    /** A stage begins; a headline stage becomes the run's current one. */
    method StageStart(stage: Stage, attempt: nat) returns (record: StageRecord)
      requires Valid() && run.status == RUNNING
      modifies this`run, repository`runs, repository`stages
      ensures Valid() && record == StageRecord(run.runId, stage, attempt, Started)
      ensures run == if stage.IsHeadline() then old(run).(currentStage := Some(stage)) else old(run)
      ensures Events() == old(Events()) + [record]
      ensures Open() == old(Open()) + [record]
      ensures Timeline() == if stage.IsHeadline() then old(Timeline()) + [record] else old(Timeline())
    {
      record := StageRecord(run.runId, stage, attempt, Started);
      hide Replay, Headlines, Settled, Lifecycle, LoadsOf;
      RecordStart(Events(), record);
      if stage.IsHeadline() {
        Save(run.(currentStage := Some(stage)));
      }
      SaveStage(record);
    }

    /** The innermost running stage ends. */
    method StageEnd(record: StageRecord, failed: bool)
      requires Valid() && run.status == RUNNING
      requires Open() != [] && Open()[|Open()| - 1] == record && record.status == Started && record.runId == run.runId
      requires record.stage.IsHeadline() ==> Timeline() != [] && Timeline()[|Timeline()| - 1] == record
      modifies repository`stages
      ensures Valid()
      ensures var ended := record.(status := Ending(failed));
              && Events() == old(Events()) + [ended]
              && Timeline() == if record.stage.IsHeadline() then old(Timeline()[..|Timeline()| - 1]) + [ended]
                               else old(Timeline())
      ensures Open() == old(Open()[..|Open()| - 1])
    {
      var ended := record.(status := Ending(failed));
      hide Replay, Headlines, Settled, Lifecycle, LoadsOf;
      RecordEnd(Events(), record, ended);
      SaveStage(ended);
    }

    method SkippedStage(stage: Stage)
      requires Valid() && run.status == RUNNING
      modifies repository`stages
      ensures Valid() && Open() == old(Open()) && Timeline() == old(Timeline())
      ensures Events() == old(Events()) + [StageRecord(run.runId, stage, 1, Skipped)]
    {
      var record := StageRecord(run.runId, stage, 1, Skipped);
      hide Replay, Headlines, Settled, Lifecycle, LoadsOf;
      RecordSkipped(Events(), record);
      SaveStage(record);
    }
  }
}
