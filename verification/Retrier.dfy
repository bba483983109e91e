/** Retrying with a doubling pause: how often the callback is called and how long it all sleeps. */
module Retrier {
  import opened Common
  import opened Utils

  /** One call of the callback; an error may be one that retrying cannot help. */
  datatype CallOutcome<V, E> = Success(value: V) | Failure(error: E, nonRetryable: bool)

  datatype RetryRun<V, E> = RetryRun(outcome: CallOutcome<V, E>, calls: nat, sleeps: seq<int>)

  /** `callback(c)` is what call number c does; the first call here has number `call`. */
  function Retry<V, E>(callback: nat -> CallOutcome<V, E>, call: nat, maxRetryCount: int, minBackoffMs: int,
                       maxBackoffMs: int): RetryRun<V, E>
    decreases maxRetryCount
  {
    var outcome := callback(call);
    if outcome.Success? || outcome.nonRetryable then RetryRun(outcome, 1, [])
    else if maxRetryCount <= 1 || minBackoffMs >= maxBackoffMs then RetryRun(outcome, 1, [])
    else
      var rest := Retry(callback, call + 1, maxRetryCount - 1, minBackoffMs * 2, maxBackoffMs);
      RetryRun(rest.outcome, rest.calls + 1, [minBackoffMs] + rest.sleeps)
  }

  /** An outcome after which there is nothing to retry. */
  predicate Final<V, E>(outcome: CallOutcome<V, E>) {
    outcome.Success? || outcome.nonRetryable
  }

  /** The number of calls when none is final. */
  function CallLimit(maxRetryCount: int, minBackoffMs: int, maxBackoffMs: int): (limit: nat)
    ensures limit >= 1
    decreases maxRetryCount
  {
    if maxRetryCount <= 1 || minBackoffMs >= maxBackoffMs then 1
    else 1 + CallLimit(maxRetryCount - 1, minBackoffMs * 2, maxBackoffMs)
  }

  /** Calls go on until the first final outcome or the limit; the last outcome is the result. */
  lemma {:induction false} StopsAtFirstFinal<V, E>(callback: nat -> CallOutcome<V, E>, call: nat, maxRetryCount: int,
                                                   minBackoffMs: int, maxBackoffMs: int)
    ensures
      var run := Retry(callback, call, maxRetryCount, minBackoffMs, maxBackoffMs);
      && 1 <= run.calls <= CallLimit(maxRetryCount, minBackoffMs, maxBackoffMs)
      && run.outcome == callback(call + run.calls - 1)
      && (run.outcome.Success? || run.outcome.nonRetryable || run.calls == CallLimit(maxRetryCount, minBackoffMs, maxBackoffMs))
      && (forall c :: call <= c < call + run.calls - 1 ==> callback(c).Failure? && !callback(c).nonRetryable)
      && |run.sleeps| == run.calls - 1
    decreases maxRetryCount
  {
    var outcome := callback(call);
    if !Final(outcome) && maxRetryCount > 1 && minBackoffMs < maxBackoffMs {
      StopsAtFirstFinal(callback, call + 1, maxRetryCount - 1, minBackoffMs * 2, maxBackoffMs);
    }
  }

  lemma {:induction false} ScaleDoubled(b: nat, k: nat)
    ensures Scale(2 * b, k) == Scale(b, k + 1)
    decreases k
  {
    if k > 0 {
      ScaleDoubled(b, k - 1);
    }
  }

  lemma {:induction false} ScaleAtLeast(b: nat, k: nat)
    ensures Scale(b, k) >= b
    decreases k
  {
    if k > 0 {
      ScaleAtLeast(b, k - 1);
    }
  }

  /**
   * The limit in closed form: with k the least number for which minBackoff * 2^k reaches maxBackoff,
   * it is the smaller of k + 1 and the retry count (but at least one call).
   */
  lemma {:induction false} CallLimitIs(maxRetryCount: int, minBackoffMs: nat, maxBackoffMs: int, k: nat)
    requires minBackoffMs > 0
    requires Scale(minBackoffMs, k) >= maxBackoffMs && (k > 0 ==> Scale(minBackoffMs, k - 1) < maxBackoffMs)
    ensures CallLimit(maxRetryCount, minBackoffMs, maxBackoffMs) == Min(Max(maxRetryCount, 1), k + 1)
    decreases maxRetryCount
  {
    if maxRetryCount > 1 && minBackoffMs < maxBackoffMs {
      ScaleDoubled(minBackoffMs, k - 1);
      if k > 1 {
        ScaleDoubled(minBackoffMs, k - 2);
      }
      CallLimitIs(maxRetryCount - 1, minBackoffMs * 2, maxBackoffMs, k - 1);
    } else if minBackoffMs >= maxBackoffMs {
      if k > 0 {
        ScaleAtLeast(minBackoffMs, k - 1);
      }
    }
  }

  /** Without a positive first pause the pauses never grow, and the retry count alone decides. */
  lemma {:induction false} CallLimitWithoutPause(maxRetryCount: int, minBackoffMs: int, maxBackoffMs: int)
    requires minBackoffMs <= 0
    ensures CallLimit(maxRetryCount, minBackoffMs, maxBackoffMs)
            == if minBackoffMs < maxBackoffMs then Max(maxRetryCount, 1) else 1
    decreases maxRetryCount
  {
    if maxRetryCount > 1 && minBackoffMs < maxBackoffMs {
      CallLimitWithoutPause(maxRetryCount - 1, minBackoffMs * 2, maxBackoffMs);
    }
  }

  function Sum(s: seq<int>): int {
    if s == [] then 0 else s[0] + Sum(s[1..])
  }

  /** Sleep j lasts minBackoff * 2^j. */
  lemma {:induction false} SleepsDouble<V, E>(callback: nat -> CallOutcome<V, E>, call: nat, maxRetryCount: int,
                                              minBackoffMs: nat, maxBackoffMs: int, j: nat)
    requires j < |Retry(callback, call, maxRetryCount, minBackoffMs, maxBackoffMs).sleeps|
    ensures Retry(callback, call, maxRetryCount, minBackoffMs, maxBackoffMs).sleeps[j] == Scale(minBackoffMs, j)
    ensures Scale(minBackoffMs, j) < maxBackoffMs
    decreases j
  {
    if j > 0 {
      SleepsDouble(callback, call + 1, maxRetryCount - 1, minBackoffMs * 2, maxBackoffMs, j - 1);
      ScaleDoubled(minBackoffMs, j - 1);
    }
  }

  /** With k sleeps the total is (2^k - 1) * minBackoff, and it stays below 2 * maxBackoff - minBackoff. */
  lemma {:induction false} TotalSleep<V, E>(callback: nat -> CallOutcome<V, E>, call: nat, maxRetryCount: int,
                                            minBackoffMs: nat, maxBackoffMs: int)
    ensures
      var sleeps := Retry(callback, call, maxRetryCount, minBackoffMs, maxBackoffMs).sleeps;
      && Sum(sleeps) == (Pow2(|sleeps|) - 1) * minBackoffMs
      && (minBackoffMs < maxBackoffMs ==> Sum(sleeps) < 2 * maxBackoffMs - minBackoffMs)
    decreases maxRetryCount
  {
    var sleeps := Retry(callback, call, maxRetryCount, minBackoffMs, maxBackoffMs).sleeps;
    SumOfSleeps(callback, call, maxRetryCount, minBackoffMs, maxBackoffMs);
    ScaleIsProduct(minBackoffMs, |sleeps|);
    assert minBackoffMs * Pow2(|sleeps|) - minBackoffMs == (Pow2(|sleeps|) - 1) * minBackoffMs;
    if sleeps != [] {
      SleepsDouble(callback, call, maxRetryCount, minBackoffMs, maxBackoffMs, |sleeps| - 1);
    }
  }

  lemma {:induction false} SumOfSleeps<V, E>(callback: nat -> CallOutcome<V, E>, call: nat, maxRetryCount: int,
                                             minBackoffMs: nat, maxBackoffMs: int)
    ensures
      var sleeps := Retry(callback, call, maxRetryCount, minBackoffMs, maxBackoffMs).sleeps;
      Sum(sleeps) == Scale(minBackoffMs, |sleeps|) - minBackoffMs
    decreases maxRetryCount
  {
    var run := Retry(callback, call, maxRetryCount, minBackoffMs, maxBackoffMs);
    if run.sleeps != [] {
      SumOfSleeps(callback, call + 1, maxRetryCount - 1, minBackoffMs * 2, maxBackoffMs);
      ScaleDoubled(minBackoffMs, |run.sleeps| - 1);
      assert run.sleeps[1..] == Retry(callback, call + 1, maxRetryCount - 1, minBackoffMs * 2, maxBackoffMs).sleeps;
    }
  }
}
