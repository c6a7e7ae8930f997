/** `request_with_retry` of the shared HTTP client: up to `max_retries`
    retries with exponential backoff on 5xx responses and on connection or
    read/write timeouts.  The client is an oracle `call`: `call(k)` is what
    the k-th request (counting from 0) produces.  The sleeps are recorded,
    not performed. */
module Retry {
  import opened Wrappers
  import opened Text

  const MaxRetries: int := 3
  const RetryBackoffBase: real := 0.5

  /** What one `client.request` produces. */
  datatype Outcome =
    | Response(status: int)
    | ConnectError
    | ReadTimeout
    | WriteTimeout
    | OtherError(name: string)

  /** How `request_with_retry` ends: a response returned, an exception
      re-raised, or the trailing `HTTPError`. */
  datatype Reply = Returned(status: int) | Raised(error: Outcome) | HttpError(message: string)

  /** Worth another attempt: a 5xx response or one of the three transient
      network errors. */
  predicate Retryable(o: Outcome) {
    (o.Response? && o.status >= 500) || o.ConnectError? || o.ReadTimeout? || o.WriteTimeout?
  }

  /** Attempt `attempt` ends the call: its outcome is not retryable, or no
      retry is left. */
  predicate Decisive(o: Outcome, attempt: int, maxRetries: int) {
    !Retryable(o) || attempt >= maxRetries
  }

  /** The reply a decisive outcome gives: a response is returned (even a
      5xx on the last attempt), an exception propagates. */
  function Final(o: Outcome): (r: Reply)
    ensures o.Response? <==> r.Returned?
    ensures !o.Response? ==> r == Raised(o)
  {
    match o
    case Response(s) => Returned(s)
    case _ => Raised(o)
  }

  function Pow2(k: nat): (p: nat)
    ensures p >= 1
  {
    if k == 0 then 1 else 2 * Pow2(k - 1)
  }

  /** The sleep after a failed attempt `k`: `RETRY_BACKOFF_BASE * 2**k`. */
  function Backoff(k: nat): (w: real)
    ensures w >= RetryBackoffBase
  {
    RetryBackoffBase * Pow2(k) as real
  }

  /** The first sleep is the base; each later one doubles the previous. */
  lemma BackoffDoubles(k: nat)
    ensures Backoff(0) == RetryBackoffBase
    ensures Backoff(k + 1) == 2.0 * Backoff(k)
  {
  }

  /** The sleeps after the first `n` attempts. */
  function Backoffs(n: nat): (ws: seq<real>)
    ensures |ws| == n && forall k :: 0 <= k < n ==> ws[k] == Backoff(k)
  {
    seq(n, k requires 0 <= k < n => Backoff(k))
  }

  lemma BackoffsNext(n: nat)
    ensures Backoffs(n) + [Backoff(n)] == Backoffs(n + 1)
  {
    assert forall k :: 0 <= k < n + 1 ==> (Backoffs(n) + [Backoff(n)])[k] == Backoffs(n + 1)[k];
  }

  /** `str(n)` for any integer. */
  function IntToString(n: int): (s: string)
    ensures n >= 0 ==> s == NatToDecimal(n)
    ensures n < 0 ==> s == "-" + NatToDecimal(-n)
  {
    if n < 0 then "-" + NatToDecimal(-n) else NatToDecimal(n)
  }

  /** `request_with_retry(method, url, max_retries)`.  The k-th attempt is
      made only if every earlier attempt was retryable with retries left;
      the first decisive attempt decides the reply, and a sleep of
      `Backoff(k)` follows each earlier attempt k.  The client is called
      at most `max_retries + 1` times.  The trailing `HTTPError` is reached
      only when `max_retries < 0`, where no attempt is made. */
  method RequestWithRetry(url: string, maxRetries: int, call: nat -> Outcome)
    returns (r: Reply, calls: nat, waits: seq<real>)
    ensures maxRetries < 0 ==>
      && calls == 0 && waits == []
      && r == HttpError("Request to " + url + " failed after " + IntToString(maxRetries) + " retries")
    ensures maxRetries >= 0 ==>
      && 1 <= calls <= maxRetries + 1
      && (forall k :: 0 <= k < calls - 1 ==> !Decisive(call(k), k, maxRetries))
      && Decisive(call(calls - 1), calls - 1, maxRetries)
      && r == Final(call(calls - 1))
      && waits == Backoffs(calls - 1)
  {
    var last: Option<Outcome> := None;
    calls, waits := 0, [];
    var attempt := 0;
    while attempt < maxRetries + 1
      invariant 0 <= attempt <= (if maxRetries >= 0 then maxRetries else 0)
      invariant calls == attempt && waits == Backoffs(attempt)
      invariant forall k :: 0 <= k < attempt ==> !Decisive(call(k), k, maxRetries)
      invariant last.Some? ==> maxRetries >= 0
      decreases maxRetries + 1 - attempt
    {
      var o := call(attempt);
      calls := calls + 1;
      if o.Response? {
        if o.status >= 500 && attempt < maxRetries {
          BackoffsNext(attempt);
          waits := waits + [Backoff(attempt)];
          attempt := attempt + 1;
          continue;
        }
        return Returned(o.status), calls, waits;
      } else if o.ConnectError? || o.ReadTimeout? || o.WriteTimeout? {
        last := Some(o);
        if attempt < maxRetries {
          BackoffsNext(attempt);
          waits := waits + [Backoff(attempt)];
        } else {
          return Raised(o), calls, waits;
        }
      } else {
        return Raised(o), calls, waits;
      }
      attempt := attempt + 1;
    }
    if last.Some? {
      // `raise last_exception`: dead, since the final attempt always
      // returns or re-raises inside the loop.
      assert false;
    }
    r := HttpError("Request to " + url + " failed after " + IntToString(maxRetries) + " retries");
  }

  /** A 500 then a 200: the request is retried once, after half a second. */
  method RetryOnServerError() returns (r: Reply, calls: nat, waits: seq<real>)
    ensures r == Returned(200) && calls == 2 && waits == [0.5]
  {
    var server: nat -> Outcome := k => if k == 0 then Response(500) else Response(200);
    r, calls, waits := RequestWithRetry("http://test.com", MaxRetries, server);
    assert !Decisive(server(0), 0, MaxRetries) && Decisive(server(1), 1, MaxRetries);
  }

  /** A first-try success calls the client once and never sleeps. */
  method NoRetryOnSuccess() returns (r: Reply, calls: nat, waits: seq<real>)
    ensures r == Returned(200) && calls == 1 && waits == []
  {
    var server: nat -> Outcome := k => Response(200);
    r, calls, waits := RequestWithRetry("http://test.com", MaxRetries, server);
    assert Decisive(server(0), 0, MaxRetries);
  }

  /** Constant connection errors with `max_retries=2`: three calls, sleeps
      of 0.5 s and 1 s, and the connection error is re-raised. */
  method RaisesAfterMaxRetries() returns (r: Reply, calls: nat, waits: seq<real>)
    ensures r == Raised(ConnectError) && calls == 3 && waits == [0.5, 1.0]
  {
    var server: nat -> Outcome := k => ConnectError;
    r, calls, waits := RequestWithRetry("http://test.com", 2, server);
    assert !Decisive(server(0), 0, 2) && !Decisive(server(1), 1, 2);
    assert Backoffs(2) == [Backoff(0), Backoff(1)];
  }

  /** A 5xx on the final attempt is returned, not raised. */
  method LastServerErrorReturned() returns (r: Reply, calls: nat)
    ensures r == Returned(503) && calls == 2
  {
    var waits;
    var server: nat -> Outcome := k => Response(503);
    r, calls, waits := RequestWithRetry("http://test.com", 1, server);
    assert !Decisive(server(0), 0, 1);
  }

  /** An error outside the three transient ones propagates at once. */
  method OtherErrorPropagates() returns (r: Reply, calls: nat)
    ensures r == Raised(OtherError("TooManyRedirects")) && calls == 1
  {
    var waits;
    var server: nat -> Outcome := k => OtherError("TooManyRedirects");
    r, calls, waits := RequestWithRetry("http://test.com", MaxRetries, server);
    assert Decisive(server(0), 0, MaxRetries);
  }
}
