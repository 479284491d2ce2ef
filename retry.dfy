/**
 * The upload retry loop of do_backup, as a specification function. Both
 * copies of do_backup run the same loop (written once as
 * `while not should_shut_down` and once as `while True` with a test at the
 * top); each copy's method is proved equal to Retry.
 *
 * The shutdown flag is set asynchronously by a signal handler, so its value
 * at each check is an input: flags[i] is what the check before attempt i
 * sees. outcomes[i] is how attempt i ends. Delays are in tenths of a second.
 */
module UploadRetry {
  import opened Common

  /** S3_UPLOAD_MAX_RETRIES */
  const MaxRetries: nat := 10
  /** S3_UPLOAD_RETRY_INITIAL_DELAY_SEC, 0.1 s, in tenths of a second */
  const InitialDelay: nat := 1

  /**
   * How one pass through the try block ends: upload_file and submit_metrics
   * both return; upload_file raises; or the object is stored but
   * submit_metrics raises, which the same `except Exception` catches.
   */
  datatype Attempt = Delivered | PutRaised(error: Error) | MetricsRaised(error: Error)

  /** How the loop is left: break after success, break on the flag, or `raise e`. */
  datatype Ending = Uploaded | Cancelled | GaveUp(error: Error)

  /**
   * What the loop did: how it ended, how many uploads it started, the delays
   * it slept in order, and the sizes submit_metrics returned from.
   */
  datatype RetryRun = RetryRun(ending: Ending, attempts: nat, delays: seq<nat>, metrics: seq<nat>)

  /** The run that `done` earlier attempts and the sleeps `slept` lead into. */
  function After(done: nat, slept: seq<nat>, rest: RetryRun): RetryRun
  {
    RetryRun(rest.ending, done + rest.attempts, slept + rest.delays, rest.metrics)
  }

  /**
   * The loop from a point where `retries` attempts are left and the next
   * sleep would be `delay`. It makes at most `retries` uploads, at least
   * one unless the flag is already set, and reports the size once, exactly
   * when it ends by uploading.
   */
  function Retry(flags: seq<bool>, outcomes: seq<Attempt>, size: nat, retries: nat, delay: nat): (r: RetryRun)
    requires 0 < retries <= |flags| && retries <= |outcomes|
    ensures r.attempts <= retries
    ensures r.ending != Cancelled ==> 0 < r.attempts
    ensures !flags[0] ==> 0 < r.attempts
    ensures r.metrics == (if r.ending == Uploaded then [size] else [])
    decreases retries
  {
    if flags[0] then RetryRun(Cancelled, 0, [], [])
    else if outcomes[0].Delivered? then RetryRun(Uploaded, 1, [], [size])
    else if retries == 1 then RetryRun(GaveUp(outcomes[0].error), 1, [], [])
    else After(1, [delay], Retry(flags[1..], outcomes[1..], size, retries - 1, 2 * delay))
  }

  /**
   * The loop as the methods run it, from the check before attempt `done`,
   * after the sleeps `slept`, with `delay` the next sleep: the state the
   * Python loop carries in its local variables.
   */
  function UploadFrom(flags: seq<bool>, outcomes: seq<Attempt>, size: nat, done: nat, delay: nat, slept: seq<nat>): RetryRun
    requires done < MaxRetries <= |flags| && MaxRetries <= |outcomes|
    decreases MaxRetries - done
  {
    if flags[done] then RetryRun(Cancelled, done, slept, [])
    else if outcomes[done].Delivered? then RetryRun(Uploaded, done + 1, slept, [size])
    else if done + 1 == MaxRetries then RetryRun(GaveUp(outcomes[done].error), done + 1, slept, [])
    else UploadFrom(flags, outcomes, size, done + 1, 2 * delay, slept + [delay])
  }

  /**
   * The loop's running state agrees with the recursive definition: from
   * attempt `done` on, UploadFrom is the first `done` attempts and sleeps
   * followed by Retry over the remaining inputs and retries.
   */
  lemma {:induction false} UploadFromIsRetry(flags: seq<bool>, outcomes: seq<Attempt>, size: nat, done: nat, delay: nat, slept: seq<nat>)
    requires done < MaxRetries <= |flags| && MaxRetries <= |outcomes|
    ensures UploadFrom(flags, outcomes, size, done, delay, slept) ==
            After(done, slept, Retry(flags[done..], outcomes[done..], size, MaxRetries - done, delay))
    decreases MaxRetries - done
  {
    var f, o := flags[done..], outcomes[done..];
    assert f[0] == flags[done] && o[0] == outcomes[done];
    if !flags[done] && !outcomes[done].Delivered? && done + 1 < MaxRetries {
      UploadFromIsRetry(flags, outcomes, size, done + 1, 2 * delay, slept + [delay]);
      assert f[1..] == flags[done + 1..] && o[1..] == outcomes[done + 1..];
      var rest := Retry(flags[done + 1..], outcomes[done + 1..], size, MaxRetries - done - 1, 2 * delay);
      assert Retry(f, o, size, MaxRetries - done, delay) == After(1, [delay], rest);
      AfterOneMore(done, slept, delay, rest);
    } else {
      assert slept + [] == slept;
    }
  }

  /** One more attempt and sleep moved from the remaining run to the ones already made. */
  lemma AfterOneMore(done: nat, slept: seq<nat>, delay: nat, rest: RetryRun)
    ensures After(done, slept, After(1, [delay], rest)) == After(done + 1, slept + [delay], rest)
  {
    assert (slept + [delay]) + rest.delays == slept + ([delay] + rest.delays);
  }

  /** The whole loop as do_backup enters it. */
  function Upload(flags: seq<bool>, outcomes: seq<Attempt>, size: nat): RetryRun
    requires MaxRetries <= |flags| && MaxRetries <= |outcomes|
  {
    Retry(flags, outcomes, size, MaxRetries, InitialDelay)
  }

  /** The loop as the methods run it, entered with no attempts and no sleeps, is Upload. */
  lemma UploadStartsFrom(flags: seq<bool>, outcomes: seq<Attempt>, size: nat)
    requires MaxRetries <= |flags| && MaxRetries <= |outcomes|
    ensures Upload(flags, outcomes, size) == UploadFrom(flags, outcomes, size, 0, InitialDelay, [])
  {
    UploadFromIsRetry(flags, outcomes, size, 0, InitialDelay, []);
    assert flags[0..] == flags && outcomes[0..] == outcomes;
    assert [] + Upload(flags, outcomes, size).delays == Upload(flags, outcomes, size).delays;
  }

  /**
   * How each ending comes about: every upload starts after a check that saw
   * the flag clear; every attempt but a successful last one failed; success
   * is the first delivered attempt and the only time metrics are recorded;
   * cancellation happens at a check that saw the flag set; giving up happens
   * after exactly `retries` failures and re-raises the last error.
   */
  lemma {:induction false} RetryEnding(flags: seq<bool>, outcomes: seq<Attempt>, size: nat, retries: nat, delay: nat)
    requires 0 < retries <= |flags| && retries <= |outcomes|
    ensures var r := Retry(flags, outcomes, size, retries, delay);
      r.attempts <= retries &&
      (forall k :: 0 <= k < r.attempts ==> !flags[k]) &&
      (forall k :: 0 <= k < r.attempts - 1 ==> !outcomes[k].Delivered?) &&
      (r.ending == Cancelled ==>
         r.attempts < retries && flags[r.attempts] && (forall k :: 0 <= k < r.attempts ==> !outcomes[k].Delivered?)) &&
      (r.ending == Uploaded ==> 0 < r.attempts && outcomes[r.attempts - 1].Delivered?) &&
      (r.ending.GaveUp? ==>
         r.attempts == retries && !outcomes[retries - 1].Delivered? && r.ending.error == outcomes[retries - 1].error) &&
      r.metrics == (if r.ending == Uploaded then [size] else [])
    decreases retries
  {
    if !flags[0] && !outcomes[0].Delivered? && retries > 1 {
      RetryEnding(flags[1..], outcomes[1..], size, retries - 1, 2 * delay);
    }
  }

  lemma DoubledFirst(delay: nat, p: nat)
    ensures (2 * delay) * p == delay * (2 * p)
  {
  }

  /**
   * A sleep follows every failure that does not end the loop, and the
   * delays double from `delay`: the k-th sleep (from 0) lasts delay * 2^k.
   */
  lemma {:induction false} RetryDelays(flags: seq<bool>, outcomes: seq<Attempt>, size: nat, retries: nat, delay: nat)
    requires 0 < retries <= |flags| && retries <= |outcomes|
    ensures var r := Retry(flags, outcomes, size, retries, delay);
      |r.delays| == (if r.ending == Cancelled then r.attempts else r.attempts - 1) &&
      |r.delays| < retries &&
      forall k :: 0 <= k < |r.delays| ==> r.delays[k] == delay * Pow2(k)
    decreases retries
  {
    if !flags[0] && !outcomes[0].Delivered? && retries > 1 {
      var rest := Retry(flags[1..], outcomes[1..], size, retries - 1, 2 * delay);
      RetryDelays(flags[1..], outcomes[1..], size, retries - 1, 2 * delay);
      var r := Retry(flags, outcomes, size, retries, delay);
      assert r.delays == [delay] + rest.delays;
      forall k | 0 < k < |r.delays|
        ensures r.delays[k] == delay * Pow2(k)
      {
        var p := Pow2(k - 1);
        assert r.delays[k] == rest.delays[k - 1] == (2 * delay) * p;
        assert Pow2(k) == 2 * p;
        DoubledFirst(delay, p);
      }
    }
  }

  /**
   * If every attempt fails and the flag stays clear, the upload is tried
   * exactly MaxRetries times, nine sleeps of 0.1 * 2^k s come between them,
   * nothing is reported, and the tenth error is re-raised.
   */
  lemma AllFailuresGiveUp(flags: seq<bool>, outcomes: seq<Attempt>, size: nat)
    requires MaxRetries <= |flags| && MaxRetries <= |outcomes|
    requires forall k :: 0 <= k < MaxRetries ==> !flags[k] && !outcomes[k].Delivered?
    ensures var r := Upload(flags, outcomes, size);
      r.ending == GaveUp(outcomes[MaxRetries - 1].error) && r.attempts == MaxRetries &&
      |r.delays| == MaxRetries - 1 && (forall k :: 0 <= k < |r.delays| ==> r.delays[k] == Pow2(k)) &&
      r.metrics == []
  {
    RetryEnding(flags, outcomes, size, MaxRetries, InitialDelay);
    RetryDelays(flags, outcomes, size, MaxRetries, InitialDelay);
  }

  /**
   * n failed attempts followed by a delivered one, with the flag clear:
   * exactly n + 1 uploads, n doubling sleeps, one metric with the archive
   * size, and no upload after the success.
   */
  lemma FailuresThenSuccess(flags: seq<bool>, outcomes: seq<Attempt>, size: nat, n: nat)
    requires MaxRetries <= |flags| && MaxRetries <= |outcomes| && n < MaxRetries
    requires forall k :: 0 <= k <= n ==> !flags[k]
    requires forall k :: 0 <= k < n ==> !outcomes[k].Delivered?
    requires outcomes[n].Delivered?
    ensures var r := Upload(flags, outcomes, size);
      r.ending == Uploaded && r.attempts == n + 1 && r.metrics == [size] &&
      |r.delays| == n && (forall k :: 0 <= k < n ==> r.delays[k] == Pow2(k))
  {
    RetryEnding(flags, outcomes, size, MaxRetries, InitialDelay);
    RetryDelays(flags, outcomes, size, MaxRetries, InitialDelay);
  }

  /**
   * If the flag is first seen set at the check before attempt n (n = 0:
   * before any upload), after n failures, the loop stops there: n uploads,
   * n sleeps, no metric, and it returns without raising.
   */
  lemma ShutdownStopsRetrying(flags: seq<bool>, outcomes: seq<Attempt>, size: nat, n: nat)
    requires MaxRetries <= |flags| && MaxRetries <= |outcomes| && n < MaxRetries
    requires forall k :: 0 <= k < n ==> !flags[k] && !outcomes[k].Delivered?
    requires flags[n]
    ensures var r := Upload(flags, outcomes, size);
      r.ending == Cancelled && r.attempts == n && |r.delays| == n && r.metrics == []
  {
    RetryEnding(flags, outcomes, size, MaxRetries, InitialDelay);
    RetryDelays(flags, outcomes, size, MaxRetries, InitialDelay);
  }
}
