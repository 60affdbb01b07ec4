/**
  The retry schedule both back ends use for a product lookup: a failed attempt number
  `retryCount` (from 0) is retried while `retryCount < MaxRetries`, after waiting
  `(retryCount + 1) * 5` seconds.
*/
module Retry {

  const MaxRetries: nat := 3

  /** Seconds waited before retry number `retryCount + 1`. */
  function RetryDelay(retryCount: nat): nat {
    (retryCount + 1) * 5
  }

  /** The waits before the first `n` retries. */
  function Delays(n: nat): (r: seq<nat>)
    ensures |r| == n
    ensures forall i :: 0 <= i < n ==> r[i] == RetryDelay(i)
  {
    if n == 0 then [] else Delays(n - 1) + [RetryDelay(n - 1)]
  }
}
