/** Retrying an operation that can plausibly heal, with capped exponential backoff. */
module Retry {
  import opened Frames
  import opened Errors

  datatype RetryPolicy = RetryPolicy(maxAttempts: nat, initialDelay: real, multiplier: real, maxDelay: real) {
    /** The ranges the configuration model enforces. */
    predicate Valid() {
      maxAttempts >= 1 && initialDelay >= 0.0 && multiplier >= 1.0 && maxDelay >= 0.0
    }

    /** Seconds to wait after failed attempt number `attempt` (1-based). */
    function DelayAfter(attempt: nat): real
      requires attempt >= 1
    {
      var delay := initialDelay * Power(multiplier, attempt - 1);
      if delay < maxDelay then delay else maxDelay
    }
  }

  function Power(base: real, exponent: nat): real {
    if exponent == 0 then 1.0 else base * Power(base, exponent - 1)
  }

  predicate Heals<T>(outcome: Result<T>) {
    outcome.Failure? && outcome.error.IsRetryable()
  }

  /** The attempt whose outcome is final: the first that succeeds, fails for good, or is the last allowed. */
  predicate IsFinalAttempt<T>(operation: nat -> Result<T>, policy: RetryPolicy, attempt: nat) {
    && 1 <= attempt <= policy.maxAttempts
    && (forall i | 1 <= i < attempt :: Heals(operation(i)))
    && (Heals(operation(attempt)) ==> attempt == policy.maxAttempts)
  }

  /** Which failures are tried again: the program's own errors that say so, and other exceptions that look like a
      network or browser failure. */
  lemma HealsIff<T>(outcome: Result<T>)
    ensures Heals(outcome) <==>
            || (outcome.Failure? && outcome.error.DomainError? && outcome.error.retryable)
            || (outcome.Failure? && outcome.error.UnexpectedError? && outcome.error.transient)
  {
  }

  method CallWithRetry<T>(operation: nat -> Result<T>, policy: RetryPolicy)
    returns (result: Result<T>, attempts: nat, sleeps: seq<real>)
    requires policy.maxAttempts >= 1
    ensures IsFinalAttempt(operation, policy, attempts) && result == operation(attempts)
    ensures |sleeps| == attempts - 1
    ensures forall i | 0 <= i < |sleeps| :: sleeps[i] == policy.DelayAfter(i + 1)
    ensures attempts < policy.maxAttempts && result.Failure? ==>
              match result.error
              case DomainError(_, retryable) => !retryable
              case UnexpectedError(transient) => !transient
              case Interrupt => true
  {
    attempts, sleeps := 1, [];
    while true
      invariant 1 <= attempts <= policy.maxAttempts
      invariant forall i | 1 <= i < attempts :: Heals(operation(i))
      invariant |sleeps| == attempts - 1
      invariant forall i | 0 <= i < |sleeps| :: sleeps[i] == policy.DelayAfter(i + 1)
      decreases policy.maxAttempts - attempts
    {
      result := operation(attempts);
      if result.Success? || !result.error.IsRetryable() || attempts == policy.maxAttempts {
        return;
      }
      sleeps := sleeps + [policy.DelayAfter(attempts)];
      attempts := attempts + 1;
    }
  }

  lemma {:induction false} PowerGrows(base: real, exponent: nat)
    requires base >= 1.0
    ensures 1.0 <= Power(base, exponent) <= Power(base, exponent + 1)
  {
    if exponent > 0 { PowerGrows(base, exponent - 1); }
    Grows(base, Power(base, exponent), 1.0);
    Grows(base, Power(base, exponent), Power(base, exponent));
  }

  lemma Grows(a: real, x: real, least: real)
    requires a >= 1.0 && x >= least >= 0.0
    ensures a * x >= least && a * least >= least
  {
    assert (a - 1.0) * x >= 0.0 && (a - 1.0) * least >= 0.0;
  }

  /** Backoff never shrinks from one attempt to the next and never exceeds the configured maximum. */
  lemma BackoffIsMonotoneAndCapped(policy: RetryPolicy, attempt: nat)
    requires policy.Valid() && attempt >= 1
    ensures 0.0 <= policy.DelayAfter(attempt) <= policy.DelayAfter(attempt + 1) <= policy.maxDelay
  {
    PowerGrows(policy.multiplier, attempt - 1);
    var p, q := Power(policy.multiplier, attempt - 1), Power(policy.multiplier, attempt);
    assert policy.initialDelay * (q - p) >= 0.0 && policy.initialDelay * p >= 0.0;
    assert policy.initialDelay * q == policy.initialDelay * p + policy.initialDelay * (q - p);
  }

  /** The first delay is the initial one, each later one the multiplier times the last, all up to the maximum. */
  lemma DelaysMultiply(policy: RetryPolicy, attempt: nat)
    requires policy.Valid() && attempt >= 1
    ensures policy.DelayAfter(1) == Least(policy.initialDelay, policy.maxDelay)
    ensures policy.DelayAfter(attempt + 1) == Least(policy.DelayAfter(attempt) * policy.multiplier, policy.maxDelay)
  {
    var p := Power(policy.multiplier, attempt - 1);
    var delay, m := policy.initialDelay * p, policy.multiplier;
    assert Power(policy.multiplier, 0) == 1.0;
    assert Power(policy.multiplier, attempt) == m * p;
    assert policy.initialDelay * (m * p) == delay * m;
    if delay >= policy.maxDelay {
      Grows(m, delay, policy.maxDelay);
    }
  }

  function Least(a: real, b: real): real { if a < b then a else b }

  // --- retries as the outside world sees them ----------------------------------------------------

  /** So many attempts failed so far, each with a retryable error. */
  ghost predicate Retrying(before: seq<Error>, after: seq<Error>, failed: nat) {
    && |after| == |before| + failed && before <= after
    && forall i | |before| <= i < |after| :: after[i].IsRetryable()
  }

  /** Tried until an attempt succeeded, failed for good or was the last allowed one. */
  ghost predicate Retried(before: seq<Error>, after: seq<Error>, outcome: Option<Error>, attempts: nat,
        maxAttempts: nat)
  {
    && 1 <= attempts <= maxAttempts
    && (outcome.Some? && outcome.value.IsRetryable() ==> attempts == maxAttempts)
    && exists during :: Retrying(before, during, attempts - 1) && after == during + Raised(outcome)
  }

  lemma NoAttemptYet(faults: seq<Error>)
    ensures Retrying(faults, faults, 0)
  {
  }

  lemma AttemptFails(before: seq<Error>, during: seq<Error>, failed: nat, outcome: Option<Error>)
    requires Retrying(before, during, failed) && outcome.Some? && outcome.value.IsRetryable()
    ensures Retrying(before, during + Raised(outcome), failed + 1)
  {
  }

  lemma LastAttempt(before: seq<Error>, during: seq<Error>, outcome: Option<Error>, attempts: nat, maxAttempts: nat)
    requires 1 <= attempts <= maxAttempts && Retrying(before, during, attempts - 1)
    requires outcome.Some? && outcome.value.IsRetryable() ==> attempts == maxAttempts
    ensures Retried(before, during + Raised(outcome), outcome, attempts, maxAttempts)
  {
  }

  lemma ErrorsComeFromOutside(before: seq<Error>, after: seq<Error>, outcome: Option<Error>, attempts: nat,
        maxAttempts: nat)
    requires Retried(before, after, outcome, attempts, maxAttempts)
    ensures attempts >= 1 && before <= after && (outcome.Some? ==> IsNewestFault(before, after, outcome.value))
  {
  }

  /** An interrupt is never retried, so one that came in is the outcome. */
  lemma RetriedInterrupt(before: seq<Error>, after: seq<Error>, outcome: Option<Error>, attempts: nat, maxAttempts: nat)
    requires Retried(before, after, outcome, attempts, maxAttempts)
    ensures before <= after && (Interrupted(before, after) <==> outcome == Some(Interrupt))
  {
    var during :| Retrying(before, during, attempts - 1) && after == during + Raised(outcome);
    assert !Interrupted(before, during);
    InterruptedBetween(before, during, after);
    InterruptedBy(during, outcome);
  }
}
