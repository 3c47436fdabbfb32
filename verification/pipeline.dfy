/** The whole script: `retry_upload_or_check` wrapped around
    `upload_or_check`. Attempt `i` runs against `hosts(i)`, so a remote that
    recovers between attempts can be described; a host that never changes
    is the constant function. */
module Pipeline {
  import opened Wrappers
  import opened Text
  import opened Lists
  import opened PackageName
  import opened UploadCheck
  import opened Retrying

  /** A run that raised is a failed attempt; its report is kept with it. */
  function AsAttempt(r: Report): (a: Result<Report, Report>)
    ensures a.Success? <==> r.outcome.Success?
    ensures a.Success? ==> a.value == r
    ensures a.Failure? ==> a.error == r
  {
    if r.outcome.Success? then Success(r) else Failure(r)
  }

  /** Attempt `i` yields the report of run `i`, failing when that run raised. */
  function AttemptOf(reports: nat -> Report): nat -> Result<Report, Report> {
    (i: nat) => AsAttempt(reports(i))
  }

  /** A failed attempt's backoff carries that run's report. */
  lemma FailedReport(reports: nat -> Report, n: nat, b: Backoff<Report>)
    requires FailedAt(AttemptOf(reports), n, b)
    ensures reports(n).outcome.Failure? && b == Backoff(n, reports(n), Pause(n))
  {
    assert AttemptOf(reports)(n) == AsAttempt(reports(n));
  }

  /** The retry loop over the reports of successive attempts: each backoff
      carries the report of an attempt that raised and sleeps the square of
      its number; the run returns the report of the first attempt that did
      not raise, or times out after nine failures. */
  function RetryReports(reports: nat -> Report): (r: Run<Report, Report>)
    ensures |r.backoffs| <= MaxAttempts
    ensures forall n :: 1 <= n <= |r.backoffs| ==> reports(n).outcome.Failure?
    ensures forall k :: 0 <= k < |r.backoffs| ==> r.backoffs[k] == Backoff(k + 1, reports(k + 1), Pause(k + 1))
    ensures r.verdict.TimedOut? <==> |r.backoffs| == MaxAttempts
    ensures r.verdict.Returned? ==>
      r.verdict.value == reports(|r.backoffs| + 1) && r.verdict.value.outcome.Success?
  {
    var r := Retry(AttemptOf(reports));
    BackoffsCarryReports(reports);
    assert AttemptOf(reports)(|r.backoffs| + 1) == AsAttempt(reports(|r.backoffs| + 1));
    r
  }

  lemma BackoffsCarryReports(reports: nat -> Report)
    ensures var r := Retry(AttemptOf(reports));
      && (forall n :: 1 <= n <= |r.backoffs| ==> reports(n).outcome.Failure?)
      && (forall k :: 0 <= k < |r.backoffs| ==> r.backoffs[k] == Backoff(k + 1, reports(k + 1), Pause(k + 1)))
  {
    var r := Retry(AttemptOf(reports));
    forall k | 0 <= k < |r.backoffs|
      ensures r.backoffs[k] == Backoff(k + 1, reports(k + 1), Pause(k + 1))
    {
      FailedReport(reports, k + 1, r.backoffs[k]);
    }
    forall n | 1 <= n <= |r.backoffs|
      ensures reports(n).outcome.Failure?
    {
      FailedReport(reports, n, r.backoffs[n - 1]);
    }
  }

  /** The report of run `i`, made against `hosts(i)`. */
  function ReportsOf(hosts: nat -> Host, owner: string, channel: string): nat -> Report {
    (i: nat) => UploadOrCheck(hosts(i), owner, channel)
  }

  /** `retry_upload_or_check`: attempt `i` is `upload_or_check` against
      `hosts(i)`. Every attempt before the last one made raised and left a
      backoff carrying its report and a sleep of its number squared; the run
      times out exactly after nine such backoffs, and otherwise returns the
      report of the attempt after the last backoff, which did not raise. */
  function RetryUploadOrCheck(hosts: nat -> Host, owner: string, channel: string)
    : (r: Run<Report, Report>)
    ensures |r.backoffs| <= MaxAttempts
    ensures forall n :: 1 <= n <= |r.backoffs| ==> UploadOrCheck(hosts(n), owner, channel).outcome.Failure?
    ensures forall k :: 0 <= k < |r.backoffs| ==>
      r.backoffs[k] == Backoff(k + 1, UploadOrCheck(hosts(k + 1), owner, channel), Pause(k + 1))
    ensures r.verdict.TimedOut? <==> |r.backoffs| == MaxAttempts
    ensures r.verdict.Returned? ==>
      r.verdict.value == UploadOrCheck(hosts(|r.backoffs| + 1), owner, channel) && r.verdict.value.outcome.Success?
  {
    var reports := ReportsOf(hosts, owner, channel);
    assert forall n: nat :: reports(n) == UploadOrCheck(hosts(n), owner, channel);
    RetryReports(reports)
  }

  /** A host that never changes between attempts. */
  function Always(h: Host): nat -> Host {
    _ => h
  }

  /** When every one of the nine attempts raises, the run times out after
      sleeping 1, 4, ..., 81 seconds, 285 in all, and each backoff carries the
      report of its own attempt. */
  lemma AllFailuresTimeOut(reports: nat -> Report)
    requires forall i :: 1 <= i <= MaxAttempts ==> reports(i).outcome.Failure?
    ensures var r := RetryReports(reports);
      && r.verdict.TimedOut?
      && |r.backoffs| == MaxAttempts
      && (forall k :: 0 <= k < MaxAttempts ==> r.backoffs[k].error == reports(k + 1))
      && Total(Sleeps(r.backoffs)) == 285
  {
    var r := RetryReports(reports);
    NineBackoffs(r.backoffs);
  }

  /** The run's result is the report of the first attempt that did not
      raise, provided it comes within nine attempts; the attempts before it
      each left one backoff. */
  lemma RecoveryIsReturned(reports: nat -> Report, j: nat)
    requires 1 <= j <= MaxAttempts
    requires forall i :: 1 <= i < j ==> reports(i).outcome.Failure?
    requires reports(j).outcome.Success?
    ensures RetryReports(reports).verdict == Returned(reports(j))
    ensures |RetryReports(reports).backoffs| == j - 1
  {
  }

  /** A `.tar.bz2` file that `split_pkg` rejects makes the run raise its
      parse error before any lookup. */
  lemma UnparsableRaises(h: Host, owner: string, channel: string, k: nat)
    requires k < |Listing(h)| && IsTarBz2(Listing(h)[k]) && SplitPkg(Listing(h)[k]).Failure?
    ensures UploadOrCheck(h, owner, channel).outcome.Failure?
    ensures UploadOrCheck(h, owner, channel).outcome.error.ParseFailed?
  {
    var built := BuiltDistributions(Listing(h), SplitPkg);
    assert built.Failure?;
    assert SurveyOf(h, owner) == Failure(built.error);
  }

  /** Every exception is retried, a parse error included: when the build
      output holds a `.tar.bz2` file `split_pkg` rejects, every attempt
      raises that parse error, and the run times out after nine attempts and
      285 seconds of sleep. */
  lemma UnparsablePackageTimesOut(h: Host, owner: string, channel: string, k: nat)
    requires k < |Listing(h)| && IsTarBz2(Listing(h)[k]) && SplitPkg(Listing(h)[k]).Failure?
    ensures var r := RetryUploadOrCheck(Always(h), owner, channel);
      && r.verdict.TimedOut?
      && |r.backoffs| == MaxAttempts
      && (forall j :: 0 <= j < |r.backoffs| ==>
            r.backoffs[j].error.outcome.Failure? && r.backoffs[j].error.outcome.error.ParseFailed?)
      && Total(Sleeps(r.backoffs)) == 285
  {
    UnparsableRaises(h, owner, channel, k);
    var reports := ReportsOf(Always(h), owner, channel);
    assert forall i: nat :: reports(i) == UploadOrCheck(h, owner, channel);
    AllFailuresTimeOut(reports);
  }
}
