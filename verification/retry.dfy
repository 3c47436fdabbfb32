/** `retry_upload_or_check`: call an operation up to nine times, sleeping
    `i * i` seconds after the `i`-th failure, and time out after the ninth.

    The operation is an oracle `attempt` giving the outcome of attempt
    number `i` (numbered from 1); a `Failure` is any raised exception, all
    of which are retried. Sleeping is recorded, not performed. */
module Retrying {
  import opened Wrappers

  const MaxAttempts: nat := 9

  /** Seconds slept after failed attempt `i`. */
  function Pause(i: nat): nat {
    i * i
  }

  /** The "Trying again" message and sleep that follow a failed attempt. */
  datatype Backoff<E> = Backoff(attempt: nat, error: E, seconds: nat)

  /** The first successful result, or the `TimeoutError` raised at the end. */
  datatype Verdict<T> = Returned(value: T) | TimedOut

  datatype Run<T, E> = Run(backoffs: seq<Backoff<E>>, verdict: Verdict<T>)

  /** `b` records the failure of attempt `n`. */
  ghost predicate FailedAt<T, E>(attempt: nat -> Result<T, E>, n: nat, b: Backoff<E>) {
    attempt(n).Failure? && b == Backoff(n, attempt(n).error, Pause(n))
  }

  /** The loop from attempt `i` on. The backoffs are exactly the failed
      attempts from `i` on, each with its own error and pause; the run stops
      at the first success, returning its value unchanged, or times out once
      attempt `MaxAttempts` has failed. */
  function RetryFrom<T, E>(attempt: nat -> Result<T, E>, i: nat): (r: Run<T, E>)
    requires 1 <= i <= MaxAttempts + 1
    ensures i + |r.backoffs| <= MaxAttempts + 1
    ensures forall k :: 0 <= k < |r.backoffs| ==> FailedAt(attempt, i + k, r.backoffs[k])
    ensures r.verdict.TimedOut? <==> i + |r.backoffs| == MaxAttempts + 1
    ensures r.verdict.Returned? ==> attempt(i + |r.backoffs|) == Success(r.verdict.value)
    decreases MaxAttempts + 1 - i
  {
    if i > MaxAttempts then Run([], TimedOut)
    else
      match attempt(i)
      case Success(v) => Run([], Returned(v))
      case Failure(e) =>
        var rest := RetryFrom(attempt, i + 1);
        var r := Run([Backoff(i, e, Pause(i))] + rest.backoffs, rest.verdict);
        assert FailedAt(attempt, i, r.backoffs[0]);
        assert forall k :: 1 <= k < |r.backoffs| ==>
          r.backoffs[k] == rest.backoffs[k - 1] && FailedAt(attempt, (i + 1) + (k - 1), rest.backoffs[k - 1]);
        r
  }

  /** The whole loop, from attempt 1. */
  function Retry<T, E>(attempt: nat -> Result<T, E>): (r: Run<T, E>)
    ensures |r.backoffs| <= MaxAttempts
    ensures forall k :: 0 <= k < |r.backoffs| ==> FailedAt(attempt, k + 1, r.backoffs[k])
    ensures r.verdict.TimedOut? <==> |r.backoffs| == MaxAttempts
    ensures r.verdict.Returned? ==> attempt(|r.backoffs| + 1) == Success(r.verdict.value)
  {
    RetryFrom(attempt, 1)
  }

  /** How many times the operation was called. */
  function Attempts<T, E>(r: Run<T, E>): nat {
    |r.backoffs| + (if r.verdict.Returned? then 1 else 0)
  }

  /** The sleep durations, in order. */
  function Sleeps<E>(bs: seq<Backoff<E>>): (s: seq<nat>)
    ensures |s| == |bs|
    ensures forall k :: 0 <= k < |bs| ==> s[k] == bs[k].seconds
  {
    if bs == [] then [] else Sleeps(bs[..|bs| - 1]) + [bs[|bs| - 1].seconds]
  }

  function Total(s: seq<nat>): nat {
    if s == [] then 0 else Total(s[..|s| - 1]) + s[|s| - 1]
  }

  /** `1 + 4 + ... + n * n` */
  function SumOfSquares(n: nat): nat {
    if n == 0 then 0 else SumOfSquares(n - 1) + Pause(n)
  }

  /** The operation is called at most `MaxAttempts` times. */
  lemma AttemptsBounded<T, E>(attempt: nat -> Result<T, E>)
    ensures Attempts(Retry(attempt)) <= MaxAttempts
  {
  }

  /** The run returns `v` exactly when some attempt within the limit
      succeeds with `v` and every attempt before it fails. */
  lemma ReturnsFirstSuccess<T, E>(attempt: nat -> Result<T, E>, v: T)
    ensures Retry(attempt).verdict == Returned(v) <==>
      exists j :: 1 <= j <= MaxAttempts && attempt(j) == Success(v)
        && forall i :: 1 <= i < j ==> attempt(i).Failure?
  {
    var r := Retry(attempt);
    if r.verdict == Returned(v) {
      var j := 1 + |r.backoffs|;
      forall i | 1 <= i < j
        ensures attempt(i).Failure?
      {
        assert FailedAt(attempt, 1 + (i - 1), r.backoffs[i - 1]);
      }
    }
  }

  /** The run times out exactly when all `MaxAttempts` attempts fail, and
      then it has slept after every one of them, 285 seconds in all. */
  lemma TimesOutAfterAllFail<T, E>(attempt: nat -> Result<T, E>)
    ensures Retry(attempt).verdict.TimedOut? <==>
      forall i :: 1 <= i <= MaxAttempts ==> attempt(i).Failure?
    ensures Retry(attempt).verdict.TimedOut? ==>
      && Sleeps(Retry(attempt).backoffs) == [1, 4, 9, 16, 25, 36, 49, 64, 81]
      && Total(Sleeps(Retry(attempt).backoffs)) == 285
  {
    var r := Retry(attempt);
    if r.verdict.TimedOut? {
      forall i | 1 <= i <= MaxAttempts
        ensures attempt(i).Failure?
      {
        assert FailedAt(attempt, 1 + (i - 1), r.backoffs[i - 1]);
      }
      NineBackoffs(r.backoffs);
    } else {
      assert attempt(1 + |r.backoffs|).Success?;
    }
  }

  /** Backoffs numbered from 1 sleep `1 + 4 + ... + n * n` seconds in all. */
  lemma {:induction false} TotalOfPauses<E>(bs: seq<Backoff<E>>)
    requires forall k :: 0 <= k < |bs| ==> bs[k].seconds == Pause(k + 1)
    ensures Total(Sleeps(bs)) == SumOfSquares(|bs|)
  {
    if bs != [] {
      var front := bs[..|bs| - 1];
      TotalOfPauses(front);
      assert Sleeps(bs)[..|bs| - 1] == Sleeps(front);
    }
  }

  /** Nine backoffs numbered from 1 sleep 1, 4, ..., 81 seconds: 285 in all. */
  lemma NineBackoffs<E>(bs: seq<Backoff<E>>)
    requires |bs| == MaxAttempts
    requires forall k :: 0 <= k < |bs| ==> bs[k].seconds == Pause(k + 1)
    ensures Sleeps(bs) == [1, 4, 9, 16, 25, 36, 49, 64, 81]
    ensures Total(Sleeps(bs)) == 285
  {
    TotalOfPauses(bs);
    assert SumOfSquares(3) == 14;
    assert SumOfSquares(6) == 91;
  }
}
