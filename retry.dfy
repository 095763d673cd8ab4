/** `RetryPolicyPipelineBehavior.Handle`. For an `IRetryable` message a
    wait-and-retry policy is built per call: a failure whose exception the
    message's `IsRetryableException` accepts is retried up to `RetryCount`
    times, the wait before retry n (n = 1, 2, ...) being 2^n seconds; any other
    failure, or the failure of the last allowed attempt, propagates unchanged.
    The policy's loop lives in the Polly library; the contract below is the one
    the call site configures. Invocation i of `next` (0-based) is `next(i)`,
    since the rest of the pipeline may answer differently on each call. */
module RetryPolicyPipelineBehavior {
  import opened Kernel

  function Pow2(n: nat): (r: nat)
    ensures r >= 1
  {
    if n == 0 then 1 else 2 * Pow2(n - 1)
  }

  /** The wait, in seconds, before retry `attempt` (1-based). */
  function Backoff(attempt: nat): (seconds: nat)
    ensures seconds >= 1
  {
    Pow2(attempt)
  }

  /** Each wait is twice the previous one, starting at 2 seconds. */
  lemma BackoffDoubles(attempt: nat)
    requires attempt >= 1
    ensures Backoff(attempt + 1) == 2 * Backoff(attempt)
    ensures Backoff(1) == 2
  {
  }

  predicate Retries(policy: Retryable, run: Run, k: nat)
  {
    run.outcome.Fault? && policy.isRetryableException(run.outcome.error) && k < policy.retryCount
  }

  /** The policy's run from invocation `k` on. */
  function From(policy: Retryable, next: nat -> Run, k: nat): (run: Run)
    decreases policy.retryCount - k
    ensures next(k).trace <= run.trace
    ensures k >= policy.retryCount ==> run == next(k)
  {
    var run := next(k);
    if Retries(policy, run, k) then
      var rest := From(policy, next, k + 1);
      Run(rest.outcome, run.trace + [RetryScheduled(k + 1, Backoff(k + 1))] + rest.trace)
    else run
  }

  /** How many invocations of `next` the policy makes from invocation `k` on. */
  function Calls(policy: Retryable, next: nat -> Run, k: nat): (n: nat)
    requires k <= policy.retryCount
    ensures 1 <= n && k + n <= policy.retryCount + 1
    decreases policy.retryCount - k
  {
    if Retries(policy, next(k), k) then 1 + Calls(policy, next, k + 1) else 1
  }

  /** One retry step of the policy. */
  lemma FromStep(policy: Retryable, next: nat -> Run, k: nat)
    requires k <= policy.retryCount
    requires Retries(policy, next(k), k)
    ensures From(policy, next, k) ==
              Run(From(policy, next, k + 1).outcome,
                  next(k).trace + [RetryScheduled(k + 1, Backoff(k + 1))] + From(policy, next, k + 1).trace)
    ensures Calls(policy, next, k) == 1 + Calls(policy, next, k + 1)
  {
  }

  /** The policy surfaces what its last invocation yielded, unwrapped; every
      earlier invocation failed retryably, and the last one did not. */
  lemma {:induction false} LastInvocationDecides(policy: Retryable, next: nat -> Run, k: nat)
    requires k <= policy.retryCount
    ensures From(policy, next, k).outcome == next(k + Calls(policy, next, k) - 1).outcome
    ensures forall i :: k <= i < k + Calls(policy, next, k) - 1 ==> Retries(policy, next(i), i)
    ensures !Retries(policy, next(k + Calls(policy, next, k) - 1), k + Calls(policy, next, k) - 1)
    decreases policy.retryCount - k
  {
    if Retries(policy, next(k), k) {
      LastInvocationDecides(policy, next, k + 1);
    }
  }

  /** Once an invocation succeeds, or fails with an exception the message
      does not call retryable, it is the last one. */
  lemma {:induction false} StopsAtFirstSuccessOrFatal(policy: Retryable, next: nat -> Run, k: nat, j: nat)
    requires k <= j <= policy.retryCount
    requires next(j).outcome.Ok? || !policy.isRetryableException(next(j).outcome.error)
    requires forall i :: k <= i < j ==> Retries(policy, next(i), i)
    ensures Calls(policy, next, k) == j - k + 1
    ensures From(policy, next, k).outcome == next(j).outcome
    decreases j - k
  {
    if k < j {
      StopsAtFirstSuccessOrFatal(policy, next, k + 1, j);
    }
  }

  /** When every invocation fails retryably, the policy makes `RetryCount + 1`
      of them and surfaces the last exception itself. */
  lemma {:induction false} ExhaustionSurfacesLastFault(policy: Retryable, next: nat -> Run, k: nat)
    requires k <= policy.retryCount
    requires forall i :: k <= i <= policy.retryCount ==>
               next(i).outcome.Fault? && policy.isRetryableException(next(i).outcome.error)
    ensures Calls(policy, next, k) == policy.retryCount - k + 1
    ensures From(policy, next, k).outcome == next(policy.retryCount).outcome
    decreases policy.retryCount - k
  {
    if k < policy.retryCount {
      ExhaustionSurfacesLastFault(policy, next, k + 1);
    }
  }

  /** The loop invariant's step: the trace so far, extended by a retried
      invocation and its scheduled retry, still leads to the policy's run. */
  lemma PrefixStep(policy: Retryable, next: nat -> Run, k: nat, prefix: seq<Event>)
    requires k <= policy.retryCount
    requires Retries(policy, next(k), k)
    ensures Run(From(policy, next, k).outcome, prefix + From(policy, next, k).trace) ==
            Run(From(policy, next, k + 1).outcome,
                (prefix + next(k).trace + [RetryScheduled(k + 1, Backoff(k + 1))]) + From(policy, next, k + 1).trace)
  {
    FromStep(policy, next, k);
    var mid := next(k).trace + [RetryScheduled(k + 1, Backoff(k + 1))];
    assert prefix + (mid + From(policy, next, k + 1).trace) == (prefix + mid) + From(policy, next, k + 1).trace;
    assert prefix + next(k).trace + [RetryScheduled(k + 1, Backoff(k + 1))] == prefix + mid;
  }

  /** The policy's attempt loop, for a non-negative retry count. */
  method RunPolicy(policy: Retryable, next: nat -> Run) returns (r: Run, calls: nat, delays: seq<nat>)
    requires policy.retryCount >= 0
    ensures r == From(policy, next, 0)
    ensures calls == Calls(policy, next, 0)
    ensures |delays| == calls - 1 && forall i :: 0 <= i < |delays| ==> delays[i] == Backoff(i + 1)
  {
    var run := next(0);
    var prefix: seq<Event> := [];
    calls, delays := 1, [];
    while Retries(policy, run, calls - 1)
      invariant 1 <= calls <= policy.retryCount + 1
      invariant run == next(calls - 1)
      invariant From(policy, next, 0) ==
                  Run(From(policy, next, calls - 1).outcome, prefix + From(policy, next, calls - 1).trace)
      invariant Calls(policy, next, 0) == calls - 1 + Calls(policy, next, calls - 1)
      invariant |delays| == calls - 1
      invariant forall i :: 0 <= i < |delays| ==> delays[i] == Backoff(i + 1)
      decreases policy.retryCount - calls
    {
      FromStep(policy, next, calls - 1);
      PrefixStep(policy, next, calls - 1, prefix);
      var wait := Backoff(calls);
      delays := delays + [wait];
      prefix := prefix + run.trace + [RetryScheduled(calls, wait)];
      run := next(calls);
      calls := calls + 1;
    }
    r := Run(run.outcome, prefix + run.trace);
  }

  method Handle(m: Message, next: nat -> Run) returns (r: Run, calls: nat, delays: seq<nat>)
    ensures m.retryable.None? ==> r == next(0) && calls == 1 && delays == []
    ensures m.retryable.Some? && m.retryable.value.retryCount < 0 ==>
              r == Run(Fault(ArgumentOutOfRange("retryCount")), []) && calls == 0 && delays == []
    ensures m.retryable.Some? && m.retryable.value.retryCount >= 0 ==>
              && r == From(m.retryable.value, next, 0)
              && calls == Calls(m.retryable.value, next, 0)
              && 1 <= calls <= m.retryable.value.retryCount + 1
              && r.outcome == next(calls - 1).outcome
              && |delays| == calls - 1
              && (forall i :: 0 <= i < |delays| ==> delays[i] == Backoff(i + 1))
  {
    if m.retryable.None? {
      r, calls, delays := next(0), 1, [];
      return;
    }
    var policy := m.retryable.value;
    if policy.retryCount < 0 {
      r, calls, delays := Run(Fault(ArgumentOutOfRange("retryCount")), []), 0, [];
      return;
    }
    r, calls, delays := RunPolicy(policy, next);
    LastInvocationDecides(policy, next, 0);
  }
}
