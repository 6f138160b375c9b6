/**
 * The caller-side retry policy: call an operation up to `attempts` times,
 * calling again only after an Unavailable failure. The operation is given as
 * the outcomes its successive calls produce; the pause between calls is
 * timing only and is not modelled.
 */
module Retry {
  import opened Codes

  /** What one call of the operation returns: nil, or a status error. */
  datatype Outcome = Success | Failure(code: Code)

  function Max0(n: int): nat {
    if n < 0 then 0 else n
  }

  /**
   * Reference definition: the outcome returned and the number of calls made,
   * from `remaining` calls left with `last` the most recent outcome
   * (Success before any call, as Go's zero-valued error).
   */
  function RetryFrom(remaining: nat, outcomes: seq<Outcome>, last: Outcome): (Outcome, nat)
    requires remaining <= |outcomes|
  {
    if remaining == 0 then (last, 0)
    else if outcomes[0] != Failure(Unavailable) then (outcomes[0], 1)
    else
      var (result, calls) := RetryFrom(remaining - 1, outcomes[1..], outcomes[0]);
      (result, calls + 1)
  }

  function Retry(attempts: int, outcomes: seq<Outcome>): (Outcome, nat)
    requires attempts <= |outcomes|
  {
    RetryFrom(Max0(attempts), outcomes, Success)
  }

  /**
   * The policy in plain terms: at most `attempts` calls; none, and nil, when
   * `attempts` is not positive; otherwise the answer is the last call's
   * outcome, every call but the last was Unavailable, and the loop stopped
   * before its bound only on a success or an error other than Unavailable.
   */
  ghost predicate RetryPolicy(attempts: int, outcomes: seq<Outcome>, result: Outcome, calls: nat)
    requires attempts <= |outcomes|
  {
    && calls <= Max0(attempts)
    && (attempts <= 0 ==> result == Success)
    && (attempts > 0 ==> calls >= 1 && result == outcomes[calls - 1])
    && (forall k :: 0 <= k < calls - 1 ==> outcomes[k] == Failure(Unavailable))
    && (calls < attempts ==> result != Failure(Unavailable))
  }

  /** The reference definition meets the policy. */
  lemma {:induction false} RetryFromPolicy(remaining: nat, outcomes: seq<Outcome>, last: Outcome)
    requires remaining <= |outcomes|
    ensures var (result, calls) := RetryFrom(remaining, outcomes, last);
      && calls <= remaining
      && (remaining == 0 ==> result == last)
      && (remaining > 0 ==> calls >= 1 && result == outcomes[calls - 1])
      && (forall k :: 0 <= k < calls - 1 ==> outcomes[k] == Failure(Unavailable))
      && (calls < remaining ==> result != Failure(Unavailable))
  {
    if remaining > 0 && outcomes[0] == Failure(Unavailable) {
      RetryFromPolicy(remaining - 1, outcomes[1..], outcomes[0]);
      var (result, calls) := RetryFrom(remaining - 1, outcomes[1..], outcomes[0]);
      forall k | 0 <= k < calls ensures outcomes[k] == Failure(Unavailable) {
        if k > 0 { assert outcomes[k] == outcomes[1..][k - 1]; }
      }
      if calls > 0 { assert outcomes[calls] == outcomes[1..][calls - 1]; }
    }
  }

  lemma RetryMeetsPolicy(attempts: int, outcomes: seq<Outcome>)
    requires attempts <= |outcomes|
    ensures RetryPolicy(attempts, outcomes, Retry(attempts, outcomes).0, Retry(attempts, outcomes).1)
  {
    RetryFromPolicy(Max0(attempts), outcomes, Success);
  }

  /** The policy leaves no choice: any answer that meets it is the reference one. */
  lemma PolicyDeterminesRetry(attempts: int, outcomes: seq<Outcome>, result: Outcome, calls: nat)
    requires attempts <= |outcomes|
    requires RetryPolicy(attempts, outcomes, result, calls)
    ensures (result, calls) == Retry(attempts, outcomes)
  {
    RetryMeetsPolicy(attempts, outcomes);
  }

  /** Every one of `attempts` calls Unavailable: exactly `attempts` calls, and the last error is returned. */
  lemma AllUnavailable(attempts: nat, outcomes: seq<Outcome>)
    requires 1 <= attempts <= |outcomes|
    requires forall k :: 0 <= k < attempts ==> outcomes[k] == Failure(Unavailable)
    ensures Retry(attempts, outcomes) == (Failure(Unavailable), attempts)
  {
    RetryMeetsPolicy(attempts, outcomes);
    var (result, calls) := Retry(attempts, outcomes);
    assert outcomes[calls - 1] == Failure(Unavailable);
  }

  /** The service's retry check: one injected Unavailable, then success, with three attempts allowed. */
  lemma RetryAfterOneUnavailable(rest: seq<Outcome>)
    requires |rest| >= 1
    ensures Retry(3, [Failure(Unavailable), Success] + rest) == (Success, 2)
  {
    var outcomes := [Failure(Unavailable), Success] + rest;
    assert outcomes[0] == Failure(Unavailable);
    assert outcomes[1..][0] == Success;
    assert RetryFrom(2, outcomes[1..], outcomes[0]) == (Success, 1);
  }

  /** A non-retryable error is returned after the one call that produced it. */
  lemma NoRetryOnOtherErrors(attempts: int, code: Code, rest: seq<Outcome>)
    requires 1 <= attempts <= 1 + |rest|
    requires code != Unavailable
    ensures Retry(attempts, [Failure(code)] + rest) == (Failure(code), 1)
  {
  }

  /**
   * CallWithRetry. `err` is what it returns and `calls` how many times the
   * operation was invoked; the i-th invocation yields `outcomes[i]`.
   */
  method CallWithRetry(attempts: int, outcomes: seq<Outcome>) returns (err: Outcome, calls: nat)
    requires attempts <= |outcomes|
    ensures RetryPolicy(attempts, outcomes, err, calls)
    ensures (err, calls) == Retry(attempts, outcomes)
  {
    err := Success;
    calls := 0;
    var i := 0;
    while i < attempts
      invariant 0 <= i <= Max0(attempts)
      invariant calls == i
      invariant i == 0 ==> err == Success
      invariant i > 0 ==> err == outcomes[i - 1] == Failure(Unavailable)
      invariant forall k :: 0 <= k < i ==> outcomes[k] == Failure(Unavailable)
    {
      err := outcomes[i];
      calls := calls + 1;
      if err == Success {
        PolicyDeterminesRetry(attempts, outcomes, err, calls);
        return;
      }
      if err.code == Unavailable {
        i := i + 1;
        continue;
      } else {
        PolicyDeterminesRetry(attempts, outcomes, err, calls);
        return;
      }
    }
    PolicyDeterminesRetry(attempts, outcomes, err, calls);
  }
}
