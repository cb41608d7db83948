/** The retry engine (`withRetries`, `resource.RetryContext`, `withRetriesForRead`)
    seen through what it does with the operation it wraps: it invokes the
    operation until an attempt succeeds or fails terminally, or until the
    deadline leaves no further attempt. The deadline is modelled as the
    number of attempts that fit in it, i.e. the length of the sequence of
    outcomes the operation would produce. */
module Retry {
  import opened Api

  /** What one invocation of a retried operation returns:
      nil, `resource.RetryableError(msg)` or `resource.NonRetryableError(msg)`. */
  datatype Outcome = Done | Retryable(reason: string) | Terminal(reason: string)

  /** The result of a retry loop: its diagnostics and how many times it
      invoked the operation. */
  datatype Run = Run(diags: Diagnostics, attempts: nat)

  /** The diagnostics reported when the loop ends on outcome `o`. */
  function Settle(o: Outcome): Diagnostics {
    match o
    case Done => NoError
    case Retryable(r) => Error(r)
    case Terminal(r) => Error(r)
  }

  /** Runs the attempts in order. The loop stops at the first attempt that is
      not retryable; when every attempt allowed by the deadline asked for a
      retry it stops after the last one with that attempt's reason. */
  function WithRetries(attempts: seq<Outcome>): (r: Run)
    requires |attempts| > 0
    ensures 1 <= r.attempts <= |attempts|
    ensures forall j :: 0 <= j < r.attempts - 1 ==> attempts[j].Retryable?
    ensures !attempts[r.attempts - 1].Retryable? || r.attempts == |attempts|
    ensures r.diags == Settle(attempts[r.attempts - 1])
    decreases |attempts|
  {
    if !attempts[0].Retryable? || |attempts| == 1 then
      Run(Settle(attempts[0]), 1)
    else
      var rest := WithRetries(attempts[1..]);
      Run(rest.diags, rest.attempts + 1)
  }

  /** The loop succeeds exactly when some attempt succeeds after nothing but
      retryable attempts. */
  lemma SucceedsIff(attempts: seq<Outcome>)
    requires |attempts| > 0
    ensures WithRetries(attempts).diags == NoError <==>
            exists k :: 0 <= k < |attempts| && attempts[k] == Done &&
                        forall j :: 0 <= j < k ==> attempts[j].Retryable?
  {
    var r := WithRetries(attempts);
    if r.diags == NoError {
      assert attempts[r.attempts - 1] == Done;
    }
    if exists k :: 0 <= k < |attempts| && attempts[k] == Done &&
                   forall j :: 0 <= j < k ==> attempts[j].Retryable? {
      var k :| 0 <= k < |attempts| && attempts[k] == Done &&
               forall j :: 0 <= j < k ==> attempts[j].Retryable?;
      assert r.attempts - 1 == k;
    }
  }

  /** When every attempt asks for a retry, the loop makes all of them and
      fails with the last reason: it never gives up early. */
  lemma {:induction false} AllRetryableTimesOut(attempts: seq<Outcome>)
    requires |attempts| > 0
    requires forall j :: 0 <= j < |attempts| ==> attempts[j].Retryable?
    ensures WithRetries(attempts) == Run(Error(attempts[|attempts| - 1].reason), |attempts|)
    decreases |attempts|
  {
    if |attempts| > 1 {
      AllRetryableTimesOut(attempts[1..]);
    }
  }

  /** A terminal attempt after retryable ones ends the loop with its reason,
      and no later attempt is made. */
  lemma TerminalStops(attempts: seq<Outcome>, k: nat)
    requires k < |attempts| && attempts[k].Terminal?
    requires forall j :: 0 <= j < k ==> attempts[j].Retryable?
    ensures WithRetries(attempts) == Run(Error(attempts[k].reason), k + 1)
  {
    var r := WithRetries(attempts);
    assert r.attempts - 1 == k;
  }

  /** The loop stops at attempt k exactly when the attempts before it asked
      for a retry and it is not retryable or is the last one allowed. */
  lemma StopsAt(attempts: seq<Outcome>, k: nat)
    requires k < |attempts|
    requires forall j :: 0 <= j < k ==> attempts[j].Retryable?
    requires !attempts[k].Retryable? || k == |attempts| - 1
    ensures WithRetries(attempts) == Run(Settle(attempts[k]), k + 1)
  {
    var r := WithRetries(attempts);
    assert r.attempts - 1 == k;
  }
}
