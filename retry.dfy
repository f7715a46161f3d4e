/**
 * The bounded retry loop several scrapers share: request a page, retrying on
 * a network error, up to a fixed number of attempts (`while intentos <
 * REINTENTOS: ... else: return []`). The outcome of attempt `k` is given by an
 * oracle; `None` stands for a `RequestException`.
 */
module Retry {
  import opened Wrappers

  /** The page obtained by the first succeeding attempt among `from .. limit-1`. */
  function FirstSuccess<P>(attempt: nat -> Option<P>, from: nat, limit: nat): Option<P>
    decreases limit - from
  {
    if from >= limit then None
    else if attempt(from).Some? then attempt(from)
    else FirstSuccess(attempt, from + 1, limit)
  }

  /** Attempts `0 .. k-1` all failed. */
  predicate FailedBefore<P>(attempt: nat -> Option<P>, k: nat) {
    forall j :: 0 <= j < k ==> attempt(j).None?
  }

  /** The result is the first success within the budget, and `None` exactly when every attempt in it failed. */
  lemma {:induction false} FirstSuccessSpec<P>(attempt: nat -> Option<P>, from: nat, limit: nat)
    requires FailedBefore(attempt, from)
    ensures FirstSuccess(attempt, from, limit).None? <==> FailedBefore(attempt, limit)
    ensures FirstSuccess(attempt, from, limit).Some? ==>
              exists k :: from <= k < limit && FailedBefore(attempt, k) && attempt(k) == FirstSuccess(attempt, from, limit)
    decreases limit - from
  {
    if from < limit && attempt(from).None? {
      FirstSuccessSpec(attempt, from + 1, limit);
    }
  }

  /**
   * The loop itself: returns the page and the number of requests made, which
   * never exceeds `limit`; after `limit` failures the page is omitted.
   */
  method FetchWithRetries<P>(attempt: nat -> Option<P>, limit: nat) returns (page: Option<P>, requests: nat)
    ensures page == FirstSuccess(attempt, 0, limit)
    ensures requests <= limit
    ensures requests == 0 || FailedBefore(attempt, requests - 1)
    ensures page.Some? ==> requests >= 1 && attempt(requests - 1) == page
    ensures page.None? ==> requests == limit
  {
    var intentos := 0;
    while intentos < limit
      invariant intentos <= limit
      invariant FailedBefore(attempt, intentos)
      invariant FirstSuccess(attempt, 0, limit) == FirstSuccess(attempt, intentos, limit)
    {
      var outcome := attempt(intentos);
      if outcome.Some? {
        return outcome, intentos + 1;
      }
      intentos := intentos + 1;
    }
    return None, intentos;
  }
}
