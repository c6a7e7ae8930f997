/** Token-bucket rate limiting: one bucket per client key, refilled in
    proportion to the time since its last refill and capped at the burst
    capacity; each request takes one token.  Time and token counts are real
    numbers and the clock is an explicit `now`, assumed not to run
    backwards. */
module RateLimit {
  import opened Wrappers
  import Text

  // ---------------------------------------------------------------------
  // The abstract state of one bucket

  datatype BucketState = BucketState(tokens: real, lastRefill: real)

  function Min(a: real, b: real): (m: real)
    ensures m <= a && m <= b && (m == a || m == b)
  {
    if a <= b then a else b
  }

  /** `_refill`: add `elapsed * rate` tokens, never above the capacity, and
      restart the clock. */
  function Refilled(b: BucketState, capacity: int, rate: real, now: real): (r: BucketState)
    ensures r.lastRefill == now
    ensures r.tokens <= capacity as real
    ensures r.tokens <= b.tokens + (now - b.lastRefill) * rate
    ensures r.tokens == capacity as real || r.tokens == b.tokens + (now - b.lastRefill) * rate
  {
    BucketState(Min(capacity as real, b.tokens + (now - b.lastRefill) * rate), now)
  }

  /** `consume(n)`: refill, then take `n` tokens if that many are there. */
  function Consumed(b: BucketState, capacity: int, rate: real, n: nat, now: real): (r: (bool, BucketState))
    ensures var f := Refilled(b, capacity, rate, now);
      && (r.0 <==> f.tokens >= n as real)
      && r.1.lastRefill == now
      && (r.0 ==> r.1.tokens == f.tokens - n as real)
      && (!r.0 ==> r.1 == f)
  {
    var f := Refilled(b, capacity, rate, now);
    if f.tokens >= n as real then (true, f.(tokens := f.tokens - n as real)) else (false, f)
  }

  /** The token count of a bucket stays within [0, capacity]. */
  ghost predicate InBounds(b: BucketState, capacity: int) {
    0.0 <= b.tokens <= capacity as real
  }

  /** Refilling and consuming keep the count within bounds, and refilling
      never loses tokens, as long as the clock does not run backwards. */
  lemma BucketBounds(b: BucketState, capacity: int, rate: real, n: nat, now: real)
    requires InBounds(b, capacity) && rate >= 0.0 && now >= b.lastRefill
    ensures InBounds(Refilled(b, capacity, rate, now), capacity)
    ensures Refilled(b, capacity, rate, now).tokens >= b.tokens
    ensures InBounds(Consumed(b, capacity, rate, n, now).1, capacity)
  {
    var gain := (now - b.lastRefill) * rate;
    assert gain >= 0.0;
    var f := Refilled(b, capacity, rate, now);
    assert f.tokens == capacity as real || f.tokens == b.tokens + gain;
  }

  /** With no time elapsed a refill adds nothing. */
  lemma NoElapsedNoRefill(b: BucketState, capacity: int, rate: real)
    requires b.tokens <= capacity as real
    ensures Refilled(b, capacity, rate, b.lastRefill) == b
  {
    assert b.lastRefill - b.lastRefill == 0.0;
    assert 0.0 * rate == 0.0;
  }

  /** The outcomes of `k` one-token requests made at the same instant. */
  function Burst(b: BucketState, capacity: int, rate: real, now: real, k: nat): (r: seq<bool>)
    ensures |r| == k
    decreases k
  {
    if k == 0 then []
    else
      var c := Consumed(b, capacity, rate, 1, now);
      [c.0] + Burst(c.1, capacity, rate, now, k - 1)
  }

  /** From `m` whole tokens and no time elapsed, request `i` of a burst is
      let through exactly when `i < m`. */
  lemma {:induction false} BurstAllowsTokens(m: nat, capacity: int, rate: real, now: real, k: nat, i: nat)
    requires m <= capacity && i < k
    ensures Burst(BucketState(m as real, now), capacity, rate, now, k)[i] <==> i < m
  {
    var b := BucketState(m as real, now);
    NoElapsedNoRefill(b, capacity, rate);
    var m' := if m > 0 then m - 1 else 0;
    assert Consumed(b, capacity, rate, 1, now) == (m > 0, BucketState(m' as real, now));
    if i > 0 {
      BurstAllowsTokens(m', capacity, rate, now, k - 1, i - 1);
    }
  }

  /** A fresh key gets a full bucket: exactly `capacity` requests in a burst
      pass, and the rest are denied. */
  lemma FreshBucketBurst(capacity: nat, rate: real, now: real, k: nat)
    ensures var r := Burst(BucketState(capacity as real, now), capacity, rate, now, k);
      forall i :: 0 <= i < k ==> (r[i] <==> i < capacity)
  {
    var r := Burst(BucketState(capacity as real, now), capacity, rate, now, k);
    forall i | 0 <= i < k
      ensures r[i] <==> i < capacity
    {
      BurstAllowsTokens(capacity, capacity, rate, now, k, i);
    }
  }

  // ---------------------------------------------------------------------
  // One bucket

  class TokenBucket {
    const capacity: int
    const refillRate: real
    var tokens: real
    var lastRefill: real

    /** Never above the capacity; never negative when capacity and rate are
        not negative. */
    ghost predicate Valid()
      reads this
    {
      && tokens <= capacity as real
      && (capacity >= 0 && refillRate >= 0.0 ==> tokens >= 0.0)
    }

    function State(): BucketState
      reads this
    {
      BucketState(tokens, lastRefill)
    }

    /** `__post_init__`: a new bucket is full. */
    constructor (capacity: int, refillRate: real, now: real)
      ensures Valid()
      ensures this.capacity == capacity && this.refillRate == refillRate
      ensures State() == BucketState(capacity as real, now)
    {
      this.capacity := capacity;
      this.refillRate := refillRate;
      tokens := capacity as real;
      lastRefill := now;
    }

    method Refill(now: real)
      requires Valid() && now >= lastRefill
      modifies this
      ensures Valid()
      ensures State() == Refilled(old(State()), capacity, refillRate, now)
    {
      var elapsed := now - lastRefill;
      assert refillRate >= 0.0 ==> elapsed * refillRate >= 0.0;
      tokens := Min(capacity as real, tokens + elapsed * refillRate);
      lastRefill := now;
    }

    method Consume(n: nat, now: real) returns (ok: bool)
      requires Valid() && now >= lastRefill
      modifies this
      ensures Valid()
      ensures (ok, State()) == Consumed(old(State()), capacity, refillRate, n, now)
    {
      Refill(now);
      if tokens >= n as real {
        tokens := tokens - n as real;
        return true;
      }
      return false;
    }
  }

  // ---------------------------------------------------------------------
  // Client keys

  /** What the limiter reads from a request: the authenticated user's id,
      the X-Forwarded-For header, and the peer address. */
  datatype Request = Request(user: Option<string>, forwardedFor: Option<string>, clientHost: Option<string>)

  /** The text before the first comma: `s.split(",")[0]`. */
  function FirstField(s: string): (r: string)
    ensures |r| <= |s| && r == s[..|r|]
    ensures ',' !in r
    ensures |r| < |s| ==> s[|r|] == ','
  {
    if s == [] || s[0] == ',' then [] else [s[0]] + FirstField(s[1..])
  }

  /** `_get_key`: the user's id when authenticated, otherwise the first
      forwarded address (a missing or empty header does not count), then
      the peer address, then "unknown". */
  function GetKey(req: Request): (key: string)
    ensures req.user.Some? ==> key == "user:" + req.user.value
    ensures req.user.None? && req.forwardedFor.Some? && req.forwardedFor.value != [] ==>
      key == "ip:" + Text.Strip(FirstField(req.forwardedFor.value))
    ensures req.user.None? && (req.forwardedFor.None? || req.forwardedFor.value == []) ==>
      key == "ip:" + (if req.clientHost.Some? then req.clientHost.value else "unknown")
  {
    match req.user
    case Some(id) => "user:" + id
    case None =>
      var ip :=
        if req.forwardedFor.Some? && req.forwardedFor.value != [] then Text.Strip(FirstField(req.forwardedFor.value))
        else if req.clientHost.Some? then req.clientHost.value
        else "unknown";
      "ip:" + ip
  }

  /** Users and addresses never share a bucket, and two users share one
      only when they are the same user. */
  lemma KeysSeparateUsers(a: Request, b: Request)
    requires GetKey(a) == GetKey(b) && a.user.Some?
    ensures b.user.Some? && a.user == b.user
  {
    var kb := GetKey(b);
    assert kb[0] == if b.user.Some? then 'u' else 'i';
    if b.user.Some? {
      assert a.user.value == GetKey(a)[5..];
    }
  }

  // ---------------------------------------------------------------------
  // The limiter

  /** A bucket is stale when it has not been refilled for more than
      `maxAge` seconds. */
  predicate IsStale(b: BucketState, now: real, maxAge: real) {
    now - b.lastRefill > maxAge
  }

  /** The keys `cleanup` removes. */
  ghost function StaleKeys(states: map<string, BucketState>, now: real, maxAge: real): set<string> {
    set k | k in states && IsStale(states[k], now, maxAge)
  }

  /** The buckets `cleanup` keeps. */
  ghost function Survivors(states: map<string, BucketState>, now: real, maxAge: real): map<string, BucketState> {
    map k | k in states && !IsStale(states[k], now, maxAge) :: states[k]
  }

  /** Every bucket is either removed or kept, so the count of removed
      buckets is the drop in size. */
  lemma CleanupPartition(states: map<string, BucketState>, now: real, maxAge: real)
    ensures |StaleKeys(states, now, maxAge)| + |Survivors(states, now, maxAge).Keys| == |states.Keys|
    ensures forall k :: k in Survivors(states, now, maxAge) ==> !IsStale(states[k], now, maxAge)
  {
    var s := StaleKeys(states, now, maxAge);
    var keep := Survivors(states, now, maxAge).Keys;
    assert s * keep == {};
    assert s + keep == states.Keys;
  }

  class RateLimiter {
    var buckets: map<string, TokenBucket>
    const requestsPerMinute: int
    const burstCapacity: int
    const refillRate: real

    /** Every bucket was made by this limiter, and no two keys share one. */
    ghost predicate Valid()
      reads this, buckets.Values
    {
      && refillRate == requestsPerMinute as real / 60.0
      && (forall k :: k in buckets ==>
            && buckets[k].Valid()
            && buckets[k].capacity == burstCapacity
            && buckets[k].refillRate == refillRate)
      && (forall k1, k2 :: k1 in buckets && k2 in buckets && k1 != k2 ==> buckets[k1] != buckets[k2])
    }

    /** No bucket was refilled after `now`. */
    ghost predicate ClockAt(now: real)
      reads this, buckets.Values
    {
      forall k :: k in buckets ==> buckets[k].lastRefill <= now
    }

    ghost function States(): map<string, BucketState>
      reads this, buckets.Values
    {
      map k | k in buckets :: buckets[k].State()
    }

    constructor (requestsPerMinute: int, burstCapacity: int)
      ensures Valid()
      ensures this.requestsPerMinute == requestsPerMinute && this.burstCapacity == burstCapacity
      ensures buckets == map[]
    {
      this.requestsPerMinute := requestsPerMinute;
      this.burstCapacity := burstCapacity;
      refillRate := requestsPerMinute as real / 60.0;
      buckets := map[];
    }

    /** `_get_bucket`: the key's bucket, created full if absent. */
    method GetBucket(key: string, now: real) returns (b: TokenBucket)
      requires Valid() && ClockAt(now)
      modifies this
      ensures Valid() && ClockAt(now)
      ensures key in buckets && b == buckets[key]
      ensures key in old(buckets) ==> buckets == old(buckets)
      ensures key !in old(buckets) ==>
        && fresh(b) && buckets == old(buckets)[key := b]
        && b.State() == BucketState(burstCapacity as real, now)
    {
      if key !in buckets {
        b := new TokenBucket(burstCapacity, refillRate, now);
        buckets := buckets[key := b];
      } else {
        b := buckets[key];
      }
    }

    /** `is_allowed`: one token from the request's bucket; every other
        bucket is left as it was. */
    method IsAllowed(req: Request, now: real) returns (ok: bool)
      requires Valid() && ClockAt(now)
      modifies this, buckets.Values
      ensures Valid() && ClockAt(now)
      ensures var key := GetKey(req);
        && buckets.Keys == old(buckets).Keys + {key}
        && (key !in old(buckets) ==> fresh(buckets[key]))
        && (forall k :: k in old(buckets) ==> buckets[k] == old(buckets)[k])
        && (forall k :: k in old(buckets) && k != key ==> buckets[k].State() == old(buckets[k].State()))
      ensures var key := GetKey(req);
        var before := if key in old(buckets) then old(buckets[key].State()) else BucketState(burstCapacity as real, now);
        (ok, buckets[key].State()) == Consumed(before, burstCapacity, refillRate, 1, now)
    {
      var key := GetKey(req);
      var b := GetBucket(key, now);
      ok := b.Consume(1, now);
    }

    /** `cleanup`: removes exactly the stale buckets and reports how many. */
    method Cleanup(maxAge: real, now: real) returns (removed: nat)
      requires Valid()
      modifies this
      ensures Valid()
      ensures buckets.Keys <= old(buckets).Keys
      ensures forall k :: k in buckets ==> buckets[k] == old(buckets)[k]
      ensures States() == Survivors(old(States()), now, maxAge)
      ensures removed == |StaleKeys(old(States()), now, maxAge)|
    {
      var stale := set k | k in buckets && now - buckets[k].lastRefill > maxAge;
      ghost var oldStates := States();
      assert stale == StaleKeys(oldStates, now, maxAge);
      var todo := stale;
      while todo != {}
        invariant todo <= stale
        invariant buckets.Keys == old(buckets).Keys - (stale - todo)
        invariant forall k :: k in buckets ==> buckets[k] == old(buckets)[k]
        invariant forall k :: k in buckets ==> k in oldStates && buckets[k].State() == oldStates[k]
        decreases |todo|
      {
        var k :| k in todo;
        buckets := buckets - {k};
        todo := todo - {k};
      }
      ghost var survivors := Survivors(oldStates, now, maxAge);
      assert States().Keys == survivors.Keys;
      forall k | k in States()
        ensures States()[k] == survivors[k]
      {
        assert States()[k] == buckets[k].State() == oldStates[k];
      }
      return |stale|;
    }
  }

  /** The default limiter: 60 requests a minute, bursts of 10. */
  method NewDefaultLimiter() returns (l: RateLimiter)
    ensures fresh(l) && l.Valid() && l.buckets == map[]
    ensures l.burstCapacity == 10 && l.refillRate == 1.0
  {
    l := new RateLimiter(60, 10);
  }

  /** The AI endpoints' limiter: 10 requests a minute, bursts of 3. */
  method NewAiLimiter() returns (l: RateLimiter)
    ensures fresh(l) && l.Valid() && l.buckets == map[]
    ensures l.burstCapacity == 3 && l.refillRate * 6.0 == 1.0
  {
    l := new RateLimiter(10, 3);
  }

  /** An authenticated request is keyed by its user id. */
  lemma UserKeyExample()
    ensures GetKey(Request(Some("123"), None, Some("127.0.0.1"))) == "user:123"
  {
  }

  /** With bursts of three and no time passing, three requests from one
      address pass and the fourth is denied. */
  method BlocksRequestsOverBurst() returns (results: seq<bool>)
    ensures results == [true, true, true, false]
  {
    var l := new RateLimiter(60, 3);
    var req := Request(None, None, Some("192.168.1.1"));
    var key := GetKey(req);
    results := [];
    var i := 0;
    while i < 4
      invariant 0 <= i <= 4 && fresh(l) && l.Valid() && l.ClockAt(0.0)
      invariant l.burstCapacity == 3
      invariant forall k :: k in l.buckets ==> fresh(l.buckets[k])
      invariant |results| == i
      invariant forall j :: 0 <= j < i ==> (results[j] <==> j < 3)
      invariant i == 0 ==> l.buckets == map[]
      invariant i > 0 ==> l.buckets.Keys == {key} && l.buckets[key].State() == BucketState(if i <= 3 then (3 - i) as real else 0.0, 0.0)
    {
      var ok := l.IsAllowed(req, 0.0);
      results := results + [ok];
      i := i + 1;
    }
  }

  /** A bucket last refilled before the cut-off is removed by a cleanup
      with a zero age limit. */
  method CleanupRemovesStale() returns (before: nat, removed: nat, after: nat)
    ensures before == 1 && removed == 1 && after == 0
  {
    var l := new RateLimiter(60, 5);
    var req := Request(None, None, Some("10.0.0.1"));
    var _ := l.IsAllowed(req, 0.0);
    var key := GetKey(req);
    assert l.buckets.Keys == {key};
    before := |l.buckets.Keys|;
    ghost var s := l.States();
    assert s.Keys == {key} && s[key].lastRefill == 0.0;
    assert StaleKeys(s, 0.5, 0.0) == {key};
    removed := l.Cleanup(0.0, 0.5);
    assert l.States().Keys == l.buckets.Keys;
    assert l.States() == map[];
    after := |l.buckets.Keys|;
  }
}
