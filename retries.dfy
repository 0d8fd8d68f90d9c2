/** The fixed-attempt retry loop shared by `checkReflectedWithRetry` and `checkAppendWithRetry`,
    stated once over the outcomes the wrapped operation gives on each attempt. */
module Retries {
  import opened Wrappers

  /** What one call of the wrapped operation returned: a value and a possibly-nil error. */
  datatype Attempt<T> = Attempt(value: T, err: Option<Error>)

  /** What the retry loop returns, with how many times it called the operation and how many
      times it slept the fixed two-second backoff. */
  datatype Retried<T> = Retried(value: T, err: Option<Error>, calls: nat, sleeps: nat)

  /** The retry loop over `attempts`, the outcomes of attempts 0, 1, ..., maxRetries - 1
      (empty when maxRetries <= 0). It stops at the first attempt without error; it sleeps after
      every failed attempt, the last one included; when all fail it returns `zero` and the last
      error; with no attempts at all it returns `zero` and a nil error. */
  function Retry<T>(attempts: seq<Attempt<T>>, zero: T): (r: Retried<T>)
    ensures r.calls <= |attempts|
    ensures attempts == [] ==> r == Retried(zero, None, 0, 0)
    decreases |attempts|
  {
    if attempts == [] then Retried(zero, None, 0, 0)
    else if attempts[0].err.None? then Retried(attempts[0].value, None, 1, 0)
    else if |attempts| == 1 then Retried(zero, attempts[0].err, 1, 1)
    else
      var r := Retry(attempts[1..], zero);
      Retried(r.value, r.err, r.calls + 1, r.sleeps + 1)
  }

  /** The first attempt without error decides the result: its value, a nil error, one sleep per
      earlier failure. */
  lemma {:induction false} FirstSuccessWins<T>(attempts: seq<Attempt<T>>, zero: T, n: nat)
    requires n < |attempts| && attempts[n].err.None?
    requires forall i :: 0 <= i < n ==> attempts[i].err.Some?
    ensures Retry(attempts, zero) == Retried(attempts[n].value, None, n + 1, n)
  {
    if n > 0 {
      FirstSuccessWins(attempts[1..], zero, n - 1);
    }
  }

  /** When every attempt fails the loop makes them all, sleeps after each, and returns `zero`
      with the last error. */
  lemma {:induction false} AllFailuresReturnLastError<T>(attempts: seq<Attempt<T>>, zero: T)
    requires attempts != []
    requires forall i :: 0 <= i < |attempts| ==> attempts[i].err.Some?
    ensures Retry(attempts, zero)
         == Retried(zero, attempts[|attempts| - 1].err, |attempts|, |attempts|)
  {
    if |attempts| > 1 {
      AllFailuresReturnLastError(attempts[1..], zero);
    }
  }
}
