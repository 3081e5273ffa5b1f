/**
 * `getSubmissions(maxRetries, retryCount)`: fetch one page of the submission
 * list, retrying a failed fetch after a wait of `3^retryCount` seconds until
 * `retryCount` reaches `maxRetries`, then rethrowing.
 *
 * Each fetch is an outcome chosen by the environment: `attempt(k)` is what the
 * fetch made with retry count `k` returns or throws. The waits are recorded,
 * in milliseconds, instead of being slept.
 */
module Backoff {
  import opened Wrappers

  /** Base of the exponential backoff, in seconds. */
  const Base: nat := 3

  function Pow(b: nat, e: nat): nat
  {
    if e == 0 then 1 else b * Pow(b, e - 1)
  }

  /** What one call of `getSubmissions` returns or throws, and the delays it requested. */
  datatype Retried<T, E> = Retried(result: Result<T, E>, waits: seq<nat>)

  /**
   * The retry recursion. Attempts are made with retry counts `retryCount`,
   * `retryCount + 1`, ...; the result is that of the last one made; every earlier
   * one failed and was followed by a wait of `3^k` seconds; and a failure is
   * returned only when the retry budget is spent.
   */
  function GetSubmissions<T, E>(attempt: nat -> Result<T, E>, maxRetries: nat, retryCount: nat): (r: Retried<T, E>)
    ensures retryCount + |r.waits| <= if retryCount <= maxRetries then maxRetries else retryCount
    ensures forall k :: retryCount <= k < retryCount + |r.waits| ==> attempt(k).Failure?
    ensures forall i :: 0 <= i < |r.waits| ==> r.waits[i] == 1000 * Pow(Base, retryCount + i)
    ensures r.result == attempt(retryCount + |r.waits|)
    ensures r.result.Failure? ==> retryCount + |r.waits| >= maxRetries
    decreases maxRetries - retryCount
  {
    match attempt(retryCount)
    case Success(response) => Retried(Success(response), [])
    case Failure(exception) =>
      if retryCount >= maxRetries then Retried(Failure(exception), [])
      else
        var rest := GetSubmissions(attempt, maxRetries, retryCount + 1);
        var waits := [1000 * Pow(Base, retryCount)] + rest.waits;
        assert forall i :: 1 <= i < |waits| ==> waits[i] == rest.waits[i - 1];
        Retried(rest.result, waits)
  }

  function Sum(s: seq<nat>): nat
  {
    if s == [] then 0 else s[0] + Sum(s[1..])
  }

  /**
   * The total time waited is the geometric sum 1000 * (3^r + ... + 3^(r+n-1)),
   * i.e. half of 1000 * (3^(r+n) - 3^r), for n retries starting at count r.
   */
  lemma {:induction false} TotalWait<T, E>(attempt: nat -> Result<T, E>, maxRetries: nat, retryCount: nat)
    ensures var r := GetSubmissions(attempt, maxRetries, retryCount);
            2 * Sum(r.waits) == 1000 * (Pow(Base, retryCount + |r.waits|) - Pow(Base, retryCount))
    decreases maxRetries - retryCount
  {
    var r := GetSubmissions(attempt, maxRetries, retryCount);
    if attempt(retryCount).Failure? && retryCount < maxRetries {
      TotalWait(attempt, maxRetries, retryCount + 1);
      var rest := GetSubmissions(attempt, maxRetries, retryCount + 1);
      assert r.waits == [1000 * Pow(Base, retryCount)] + rest.waits;
      assert r.waits[1..] == rest.waits;
      assert Pow(Base, retryCount + 1) == 3 * Pow(Base, retryCount);
    }
  }

  /** With five retries a page fetch waits at most 1+3+9+27+81 = 121 seconds. */
  lemma FiveRetriesWaitAtMost121Seconds<T, E>(attempt: nat -> Result<T, E>)
    ensures var r := GetSubmissions(attempt, 5, 0);
            |r.waits| <= 5 && Sum(r.waits) <= 121000
  {
    var r := GetSubmissions(attempt, 5, 0);
    TotalWait(attempt, 5, 0);
    PowMonotone(|r.waits|, 5);
  }

  lemma {:induction false} PowMonotone(e1: nat, e2: nat)
    requires e1 <= e2
    ensures Pow(Base, e1) <= Pow(Base, e2)
    decreases e2
  {
    if e1 < e2 {
      PowMonotone(e1, e2 - 1);
      assert Pow(Base, e2) == 3 * Pow(Base, e2 - 1);
    }
  }

  /** The first page is fetched once: no retry and no wait, and its failure is passed on as is. */
  lemma NoRetriesMeansOneAttempt<T, E>(attempt: nat -> Result<T, E>)
    ensures GetSubmissions(attempt, 0, 0) == Retried(attempt(0), [])
  {
  }

  /** Two transient failures then a success: waits of 1 s and 3 s, and the third fetch's response. */
  lemma TwoFailuresThenSuccess<T, E>(attempt: nat -> Result<T, E>)
    requires attempt(0).Failure? && attempt(1).Failure? && attempt(2).Success?
    ensures GetSubmissions(attempt, 5, 0) == Retried(attempt(2), [1000, 3000])
  {
    assert GetSubmissions(attempt, 5, 2) == Retried(attempt(2), []);
    assert GetSubmissions(attempt, 5, 1) == Retried(attempt(2), [3000]);
  }
}
