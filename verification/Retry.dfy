/** Retrying a step (src/loopmaster/core/step_executor.py and policies.py). */
module Retry {
  import opened Values

  datatype Recovery = Abort | Skip | TryAgain | Fallback

  /** `fallbackModel` is empty when there is none. */
  datatype Policy = Policy(retry: int, backoff: real, onFailure: Recovery, fallbackModel: string)

  /** How a policy classifies an error message. */
  type Classifier = (Policy, string) -> Recovery

  /** What one attempt comes to: a result, or an error that is never retried. */
  datatype Attempt = Returns(success: bool, error: string, id: nat) | Refuses

  datatype Outcome = Result(attempt: Attempt) | Raised

  function Power(k: nat): nat {
    if k == 0 then 1 else 2 * Power(k - 1)
  }

  /** The step's own retry counts, else the policy's, else one attempt; there is always one. */
  function MaxAttempts(stepRetry: Option<int>, policy: Option<Policy>): (n: nat)
    ensures n >= 1
    ensures stepRetry.Some? ==> n >= stepRetry.value && (n > 1 ==> n == stepRetry.value)
    ensures stepRetry.None? && policy.Some? ==> n >= policy.value.retry && (n > 1 ==> n == policy.value.retry)
    ensures stepRetry.None? && policy.None? ==> n == 1
  {
    var retries := if stepRetry.Some? then stepRetry.value else if policy.Some? then policy.value.retry else 1;
    if retries > 0 then retries else 1
  }

  function Recover(policy: Option<Policy>, classify: Classifier, a: Attempt): Recovery
    requires a.Returns?
  {
    if policy.Some? then classify(policy.value, a.error) else Abort
  }

  /** No further attempt follows attempt `i`. */
  predicate Last(policy: Option<Policy>, classify: Classifier, limit: nat, attempts: nat -> Attempt, i: nat) {
    || attempts(i).Refuses? || attempts(i).success
    || Recover(policy, classify, attempts(i)) == Skip || i + 1 >= limit
    || policy.None? || policy.value.backoff < 0.0
  }

  /** Every primary attempt was made and failed, and the policy says to fall back. */
  predicate FallsBack(policy: Option<Policy>, classify: Classifier, limit: nat, attempts: nat -> Attempt, last: nat) {
    && last + 1 == limit && attempts(last).Returns? && !attempts(last).success
    && Recover(policy, classify, attempts(last)) != Skip
    && policy.Some? && policy.value.fallbackModel != ""
    && (policy.value.onFailure == Fallback || Recover(policy, classify, attempts(last)) == Fallback)
  }

  /** Waiting before another attempt raises: there is no policy to ask, or its backoff is negative. */
  predicate CannotWait(policy: Option<Policy>, classify: Classifier, limit: nat, attempts: nat -> Attempt, last: nat) {
    && last + 1 < limit && attempts(last).Returns? && !attempts(last).success
    && Recover(policy, classify, attempts(last)) != Skip
    && (policy.None? || policy.value.backoff < 0.0)
  }

  /** When another attempt follows, when the fallback runs, and when waiting raises, condition by condition. */
  lemma WhatFollows(policy: Option<Policy>, classify: Classifier, limit: nat, attempts: nat -> Attempt, i: nat)
    requires i < limit
    ensures attempts(i).Refuses? || attempts(i).success || i == limit - 1 ==> Last(policy, classify, limit, attempts, i)
    ensures attempts(i).Returns? && policy.Some? && classify(policy.value, attempts(i).error) == Skip ==>
              Last(policy, classify, limit, attempts, i) && !FallsBack(policy, classify, limit, attempts, i)
    ensures (&& attempts(i).Returns? && !attempts(i).success && i < limit - 1 && policy.Some?
             && policy.value.backoff >= 0.0 && classify(policy.value, attempts(i).error) != Skip) ==>
              !Last(policy, classify, limit, attempts, i)
    ensures attempts(i).Returns? && !attempts(i).success && i < limit - 1 && policy.None? ==>
              Last(policy, classify, limit, attempts, i) && CannotWait(policy, classify, limit, attempts, i)
    ensures attempts(i).Returns? && !attempts(i).success && i < limit - 1 && policy.Some? && policy.value.backoff < 0.0
            && classify(policy.value, attempts(i).error) != Skip ==>
              Last(policy, classify, limit, attempts, i) && CannotWait(policy, classify, limit, attempts, i)
    ensures FallsBack(policy, classify, limit, attempts, i) ==>
              i == limit - 1 && attempts(i).Returns? && !attempts(i).success && policy.Some?
                  && policy.value.fallbackModel != ""
    ensures attempts(i).Returns? && !attempts(i).success && i == limit - 1 && policy.Some?
            && policy.value.fallbackModel != "" && classify(policy.value, attempts(i).error) != Skip ==>
              (FallsBack(policy, classify, limit, attempts, i) <==>
                policy.value.onFailure == Fallback || classify(policy.value, attempts(i).error) == Fallback)
    ensures CannotWait(policy, classify, limit, attempts, i) ==>
              i < limit - 1 && attempts(i).Returns? && !attempts(i).success
              && (policy.None? || (policy.value.backoff < 0.0 && classify(policy.value, attempts(i).error) != Skip))
  {}

  predicate Succeeds(o: Outcome) {
    o.Result? && o.attempt.Returns? && o.attempt.success
  }

  /**
   * Attempts, waits and the fallback of one step. `attempts(i)` is what the i-th primary attempt
   * would come to, `fallback` what the fallback would.
   */
  method ExecuteStepRetries(
    stepRetry: Option<int>, policy: Option<Policy>, classify: Classifier, attempts: nat -> Attempt, fallback: Attempt)
    returns (outcome: Outcome, made: nat, slept: real, fellBack: bool)
    // the attempts made end at the first after which none may follow
    ensures 1 <= made <= MaxAttempts(stepRetry, policy)
    ensures Last(policy, classify, MaxAttempts(stepRetry, policy), attempts, made - 1)
    ensures forall i :: 0 <= i < made - 1 ==> !Last(policy, classify, MaxAttempts(stepRetry, policy), attempts, i)
    // the waits between them double
    ensures made > 1 ==> policy.Some? && slept == policy.value.backoff * (Power(made - 1) - 1) as real
    ensures made == 1 ==> slept == 0.0
    // the result
    ensures fellBack <==> FallsBack(policy, classify, MaxAttempts(stepRetry, policy), attempts, made - 1)
    ensures outcome ==
            (if CannotWait(policy, classify, MaxAttempts(stepRetry, policy), attempts, made - 1) then Raised
            else
              var decisive := if fellBack then fallback else attempts(made - 1);
              if decisive.Refuses? then Raised else Result(decisive))
    ensures Succeeds(outcome) <==>
            (exists i :: 0 <= i < made && attempts(i).Returns? && attempts(i).success)
            || (fellBack && fallback.Returns? && fallback.success)
  {
    var limit := MaxAttempts(stepRetry, policy);
    var i := 0;
    slept, fellBack := 0.0, false;
    while true
      invariant 0 <= i < limit && !fellBack
      invariant forall j :: 0 <= j < i ==> !Last(policy, classify, limit, attempts, j)
      invariant forall j :: 0 <= j < i ==> attempts(j).Returns? && !attempts(j).success
      invariant i > 0 ==> policy.Some? && policy.value.backoff >= 0.0
      invariant slept == if policy.Some? && i > 0 then policy.value.backoff * (Power(i) - 1) as real else 0.0
      decreases limit - i
    {
      made := i + 1;
      var a := attempts(i);
      if a.Refuses? { outcome := Raised; return; }
      if a.success { outcome := Result(a); return; }
      var recovery := Recover(policy, classify, a);
      if recovery == Skip { outcome := Result(a); return; }
      if i == limit - 1 {
        if policy.Some? && policy.value.fallbackModel != ""
           && (policy.value.onFailure == Fallback || recovery == Fallback) {
          fellBack := true;
          outcome := if fallback.Refuses? then Raised else Result(fallback);
        } else {
          outcome := Result(a);
        }
        return;
      }
      if policy.None? || policy.value.backoff < 0.0 { outcome := Raised; return; }
      PauseSum(policy.value.backoff, i);
      slept := slept + policy.value.backoff * Power(i) as real;
      i := i + 1;
    }
  }

  /** Waiting starts at one backoff and doubles every time. */
  lemma PowersDouble(k: nat)
    ensures Power(0) == 1 && Power(k + 1) == 2 * Power(k)
  {}

  lemma PauseSum(backoff: real, i: nat)
    ensures backoff * (Power(i) - 1) as real + backoff * Power(i) as real == backoff * (Power(i + 1) - 1) as real
  {
    assert Power(i + 1) == 2 * Power(i);
  }

  /** The number of the attempt, from `i` on, after which none follows. */
  function LastFrom(
      policy: Option<Policy>, classify: Classifier, limit: nat, attempts: nat -> Attempt, i: nat): (n: nat)
    requires i < limit
    ensures i <= n < limit && Last(policy, classify, limit, attempts, n)
    ensures forall j :: i <= j < n ==> !Last(policy, classify, limit, attempts, j)
    decreases limit - i
  {
    if Last(policy, classify, limit, attempts, i) then i else LastFrom(policy, classify, limit, attempts, i + 1)
  }

  /** Aborting does not stop the loop: a policy that aborts on every error still uses all attempts. */
  lemma {:induction false} AbortUsesAllAttempts(
      policy: Policy, classify: Classifier, limit: nat, attempts: nat -> Attempt, i: nat)
    requires i < limit && policy.backoff >= 0.0
    requires forall j :: attempts(j).Returns? && !attempts(j).success && classify(policy, attempts(j).error) == Abort
    ensures LastFrom(Some(policy), classify, limit, attempts, i) == limit - 1
    decreases limit - i
  {
    var n := LastFrom(Some(policy), classify, limit, attempts, i);
    assert attempts(n).Returns? && Recover(Some(policy), classify, attempts(n)) == Abort;
  }

  /** A larger budget of attempts never loses a success of a primary attempt. */
  lemma MoreAttemptsKeepSuccess(
      policy: Option<Policy>, classify: Classifier, limit: nat, more: nat, attempts: nat -> Attempt)
    requires 0 < limit <= more
    requires var n := LastFrom(policy, classify, limit, attempts, 0); attempts(n).Returns? && attempts(n).success
    ensures LastFrom(policy, classify, more, attempts, 0) == LastFrom(policy, classify, limit, attempts, 0)
  {
    var n, m := LastFrom(policy, classify, limit, attempts, 0), LastFrom(policy, classify, more, attempts, 0);
    assert Last(policy, classify, more, attempts, n);
    assert forall j :: 0 <= j < n ==> !Last(policy, classify, limit, attempts, j);
    if m < n { assert Last(policy, classify, limit, attempts, m); }
  }
}
