/** `make_request`: one GET per attempt; a failed attempt sleeps 2^retries
    and tries again with retries + 1; a successful one sleeps `request_delay`
    and returns the response; once retries reaches `max_retries` the call
    gives up with None. The transport is given as what it answers to the
    k-th attempt; the sleeps are returned instead of performed. */
module Retry {
  import opened Common

  /** What one attempt yields: a response that passed `raise_for_status`
      (its body), or a `RequestException` (connection error, timeout,
      4xx/5xx status). */
  datatype Outcome = Ok(body: string) | Failed

  /** What a call to `make_request` did: the response it returned (None
      after exhausting its retries), how many GETs it issued, and the
      seconds it slept, in order. */
  datatype Request = Request(response: Option<string>, attempts: nat, waits: seq<real>)

  /** Attempts still allowed when the counter stands at `retries`. */
  function Budget(maxRetries: int, retries: nat): nat
  {
    if retries < maxRetries then maxRetries - retries else 0
  }

  /** `make_request(url, retries)` where `transport(k)` is the answer to
      the GET issued with the counter at k. */
  function MakeRequest(transport: nat -> Outcome, maxRetries: int, requestDelay: real, retries: nat): (r: Request)
    decreases Budget(maxRetries, retries)
    ensures |r.waits| == r.attempts <= Budget(maxRetries, retries)
    ensures r.response.Some? ==> r.attempts >= 1
  {
    if retries >= maxRetries then Request(None, 0, [])
    else match transport(retries)
      case Ok(body) => Request(Some(body), 1, [requestDelay])
      case Failed =>
        var rest := MakeRequest(transport, maxRetries, requestDelay, retries + 1);
        Request(rest.response, rest.attempts + 1, [Pow2(retries) as real] + rest.waits)
  }

  /** The call from the crawler: the counter starts at 0. */
  function Fetch(transport: nat -> Outcome, maxRetries: int, requestDelay: real): Request
  {
    MakeRequest(transport, maxRetries, requestDelay, 0)
  }

  /** None comes back exactly when every allowed attempt failed; with
      `max_retries <= 0` that is at once, without any attempt. */
  lemma {:induction false} NoneIffAllFail(transport: nat -> Outcome, maxRetries: int, requestDelay: real, retries: nat)
    ensures MakeRequest(transport, maxRetries, requestDelay, retries).response.None?
        <==> forall k :: retries <= k < maxRetries ==> transport(k).Failed?
    decreases Budget(maxRetries, retries)
  {
    if retries < maxRetries && transport(retries).Failed? {
      NoneIffAllFail(transport, maxRetries, requestDelay, retries + 1);
    }
  }

  /** A returned response is the answer to the last attempt; every earlier
      attempt failed. */
  lemma {:induction false} SuccessIsFirstOk(transport: nat -> Outcome, maxRetries: int, requestDelay: real, retries: nat)
    ensures var r := MakeRequest(transport, maxRetries, requestDelay, retries);
      r.response.Some? ==>
        && r.attempts >= 1
        && transport(retries + r.attempts - 1) == Ok(r.response.value)
        && forall k :: retries <= k < retries + r.attempts - 1 ==> transport(k).Failed?
    decreases Budget(maxRetries, retries)
  {
    if retries < maxRetries && transport(retries).Failed? {
      SuccessIsFirstOk(transport, maxRetries, requestDelay, retries + 1);
    }
  }

  /** The sleeps of a call started with the counter at `retries`: 2^k after
      the failed attempt made with the counter at k, and `request_delay`
      once, after a successful attempt, as the last sleep. */
  predicate FollowsSchedule(r: Request, requestDelay: real, retries: nat)
  {
    |r.waits| == r.attempts &&
    forall k :: 0 <= k < r.attempts ==>
      r.waits[k] == if r.response.Some? && k == r.attempts - 1 then requestDelay
                    else Pow2(retries + k) as real
  }

  lemma {:induction false} WaitSchedule(transport: nat -> Outcome, maxRetries: int, requestDelay: real, retries: nat)
    ensures FollowsSchedule(MakeRequest(transport, maxRetries, requestDelay, retries), requestDelay, retries)
    decreases Budget(maxRetries, retries)
  {
    if retries < maxRetries && transport(retries).Failed? {
      WaitSchedule(transport, maxRetries, requestDelay, retries + 1);
      var r := MakeRequest(transport, maxRetries, requestDelay, retries);
      var rest := MakeRequest(transport, maxRetries, requestDelay, retries + 1);
      assert r == Request(rest.response, rest.attempts + 1, [Pow2(retries) as real] + rest.waits);
      forall k | 1 <= k < r.attempts
        ensures r.waits[k] == if r.response.Some? && k == r.attempts - 1 then requestDelay
                              else Pow2(retries + k) as real
      {
        assert r.waits[k] == rest.waits[k - 1];
        assert retries + 1 + (k - 1) == retries + k;
      }
    }
  }

  function SumReals(xs: seq<real>): real
  {
    if xs == [] then 0.0 else xs[0] + SumReals(xs[1..])
  }

  /** When every attempt fails, the call issues exactly `max_retries - retries`
      GETs and sleeps 2^retries + ... + 2^(max_retries-1) seconds in all. */
  lemma {:induction false} ExhaustedWait(transport: nat -> Outcome, maxRetries: int, requestDelay: real, retries: nat)
    requires retries <= maxRetries
    requires forall k :: retries <= k < maxRetries ==> transport(k).Failed?
    ensures var r := MakeRequest(transport, maxRetries, requestDelay, retries);
      && r.response.None?
      && r.attempts == maxRetries - retries
      && SumReals(r.waits) == (Pow2(maxRetries) - Pow2(retries)) as real
    decreases maxRetries - retries
  {
    if retries < maxRetries {
      ExhaustedWait(transport, maxRetries, requestDelay, retries + 1);
      var r := MakeRequest(transport, maxRetries, requestDelay, retries);
      var rest := MakeRequest(transport, maxRetries, requestDelay, retries + 1);
      assert r.waits == [Pow2(retries) as real] + rest.waits;
      assert r.waits[1..] == rest.waits;
    }
  }

  /** From the crawler's call: when every attempt fails, max_retries GETs
      are made and the sleeps add up to 2^max_retries - 1 seconds. */
  lemma FetchExhausted(transport: nat -> Outcome, maxRetries: nat, requestDelay: real)
    requires forall k :: 0 <= k < maxRetries ==> transport(k).Failed?
    ensures Fetch(transport, maxRetries, requestDelay).response.None?
    ensures Fetch(transport, maxRetries, requestDelay).attempts == maxRetries
    ensures SumReals(Fetch(transport, maxRetries, requestDelay).waits) == (Pow2(maxRetries) - 1) as real
  {
    ExhaustedWait(transport, maxRetries, requestDelay, 0);
  }
}
