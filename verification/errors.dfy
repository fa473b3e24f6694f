/** What can be raised while a run executes, and which stage it is attributed to. */
module Errors {
  import opened Frames

  /** Pipeline stages. `AcquisitionStep` is a sub-step such as "acquisition.login". `Storage`, `Pipeline` and
      `Queued` only occur as error stages: of errors raised outside the stages, and of refused requests. */
  datatype Stage =
    | Config | Preflight | Acquisition | AcquisitionStep(step: string) | Parse | Transform
    | Quality | Dedup | Load | Verify | Storage | Pipeline | Queued
  {
    predicate IsHeadline() { !AcquisitionStep? }
  }

  /** DashDashGoError (with its own stage and retryability), any other exception, or an interrupt that
      is not an Exception at all. */
  datatype Error =
    | DomainError(stage: Stage, retryable: bool)
    | UnexpectedError(transient: bool)
    | Interrupt
  {
    predicate IsRetryable() {
      match this
      case DomainError(_, retryable) => retryable
      case UnexpectedError(transient) => transient
      case Interrupt => false
    }
  }

  datatype Result<+T> = Success(value: T) | Failure(error: Error)

  /** Everything that may go wrong outside the program: the browser, the network, the disk, the server, a
      Ctrl-C. It keeps the errors it raised, in order. */
  class Outside {
    ghost var faults: seq<Error>

    constructor ()
      ensures faults == []
    {
      faults := [];
    }

    method Ask() returns (error: Option<Error>)
      modifies this
      ensures faults == old(faults) + Raised(error)
    {
      error := *;
      if error.Some? {
        faults := faults + [error.value];
      }
    }
  }

  /** The error is the newest fault since `before`. */
  predicate IsNewestFault(before: seq<Error>, after: seq<Error>, error: Error) {
    |before| < |after| && after[|after| - 1] == error
  }

  predicate HappenedOutside(before: seq<Error>, after: seq<Error>, error: Error) {
    before <= after && error in after[|before|..]
  }

  lemma NewestFaultHappened(earlier: seq<Error>, before: seq<Error>, after: seq<Error>, later: seq<Error>, error: Error)
    requires earlier <= before <= after <= later && IsNewestFault(before, after, error)
    ensures HappenedOutside(earlier, later, error)
  {
    assert later[|earlier|..][|after| - 1 - |earlier|] == error;
  }

  lemma FaultsStay(before: seq<Error>, after: seq<Error>, later: seq<Error>, error: Error)
    requires HappenedOutside(before, after, error) && after <= later
    ensures HappenedOutside(before, later, error)
  {
    var i :| 0 <= i < |after| - |before| && after[|before|..][i] == error;
    assert later[|before|..][i] == error;
  }

  /** A Ctrl-C came in between. */
  ghost predicate Interrupted(before: seq<Error>, after: seq<Error>) {
    before <= after && Interrupt in after[|before|..]
  }

  lemma InterruptedBy(before: seq<Error>, error: Option<Error>)
    ensures Interrupted(before, before + Raised(error)) <==> error == Some(Interrupt)
  {
    assert (before + Raised(error))[|before|..] == Raised(error);
  }

  lemma InterruptedBetween(before: seq<Error>, during: seq<Error>, after: seq<Error>)
    requires before <= during <= after
    ensures Interrupted(before, after) <==> Interrupted(before, during) || Interrupted(during, after)
  {
    assert after[|before|..] == during[|before|..] + after[|during|..];
  }

  /** One more answer of the outside, when no interrupt came in before. */
  lemma InterruptedNext(before: seq<Error>, during: seq<Error>, after: seq<Error>, error: Option<Error>)
    requires before <= during && !Interrupted(before, during) && after == during + Raised(error)
    ensures before <= after && (Interrupted(before, after) <==> error == Some(Interrupt))
  {
    InterruptedBetween(before, during, after);
    InterruptedBy(during, error);
  }

  function ErrorOf<T>(result: Result<T>): Option<Error> {
    if result.Failure? then Some(result.error) else None
  }

  function Raised(error: Option<Error>): seq<Error> {
    if error.Some? then [error.value] else []
  }
}
