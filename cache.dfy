/** The in-memory TTL cache with LRU eviction used for transcripts and
    generated quizzes.  The ordered dictionary is modelled as the sequence
    of its keys, least recently used first, beside a map from key to entry.
    Expiry is lazy: an expired entry stays stored until a `Get` finds it.
    The clock is an explicit `now` argument. */
module Cache {
  import opened Wrappers

  /** A stored value and the moment after which it is stale. */
  datatype CacheEntry<T> = CacheEntry(value: T, expiresAt: real)

  /** `is_expired`: strictly after the expiry moment. */
  predicate IsExpired<T>(e: CacheEntry<T>, now: real) {
    now > e.expiresAt
  }

  /** `ttl or default_ttl`: a missing or zero TTL falls back to the default. */
  function EffectiveTtl(ttl: Option<int>, defaultTtl: int): (t: int)
    ensures ttl.Some? && ttl.value != 0 ==> t == ttl.value
    ensures ttl.None? || ttl.value == 0 ==> t == defaultTtl
  {
    match ttl
    case Some(n) => if n != 0 then n else defaultTtl
    case None => defaultTtl
  }

  /** An entry written at `now` with a positive TTL is fresh up to and
      including `now + ttl`, and stale after it. */
  lemma FreshUntilExpiry<T>(value: T, ttl: int, now: real, later: real)
    requires ttl > 0 && now <= later
    ensures !IsExpired(CacheEntry(value, now + ttl as real), later) <==> later <= now + ttl as real
  {
  }

  predicate NoDups(s: seq<string>) {
    forall i, j :: 0 <= i < j < |s| ==> s[i] != s[j]
  }

  /** The key order without `k`. */
  function Remove(s: seq<string>, k: string): (r: seq<string>)
    ensures |r| <= |s|
    ensures k !in s ==> r == s
  {
    if s == [] then []
    else if s[0] == k then Remove(s[1..], k)
    else [s[0]] + Remove(s[1..], k)
  }

  /** Removing a key keeps every other key, in order, and nothing else;
      distinct keys stay distinct, and a present key shortens the order by
      one. */
  lemma {:induction false} RemoveFacts(s: seq<string>, k: string)
    ensures forall x :: x in Remove(s, k) <==> x in s && x != k
    ensures NoDups(s) ==> NoDups(Remove(s, k))
    ensures NoDups(s) && k in s ==> |Remove(s, k)| == |s| - 1
  {
    if s != [] {
      RemoveFacts(s[1..], k);
      if s[0] == k {
        assert NoDups(s) ==> k !in s[1..];
      } else {
        assert NoDups(s) ==> s[0] !in Remove(s[1..], k);
      }
    }
  }

  /** `move_to_end(k)`: `k` becomes the most recently used key. */
  function Touch(order: seq<string>, k: string): seq<string> {
    Remove(order, k) + [k]
  }

  /** How many least-recently-used entries `set` pops before inserting:
      enough to bring the size below the limit. */
  function EvictionCount(size: nat, maxSize: int): (n: nat)
    requires maxSize >= 1
    ensures n <= size
    ensures size - n < maxSize
    ensures size < maxSize ==> n == 0
    ensures size >= maxSize ==> size - n == maxSize - 1
  {
    if size >= maxSize then size - maxSize + 1 else 0
  }

  /** The key order after a successful `set` of `k`. */
  function SetOrder(order: seq<string>, k: string, maxSize: int): seq<string>
    requires maxSize >= 1
  {
    Touch(order[EvictionCount(|order|, maxSize)..], k)
  }

  /** After a `set` the keys are still distinct, the new key is the most
      recently used one, and the size is within the limit. */
  lemma SetOrderBound(order: seq<string>, k: string, maxSize: int)
    requires maxSize >= 1 && NoDups(order)
    ensures var r := SetOrder(order, k, maxSize);
      NoDups(r) && |r| <= maxSize && r[|r| - 1] == k && k in r
  {
    var kept := order[EvictionCount(|order|, maxSize)..];
    assert NoDups(kept);
    RemoveFacts(kept, k);
  }

  /** A `set` of a new key below the limit appends it and evicts nothing. */
  lemma SetOrderFresh(order: seq<string>, k: string, maxSize: int)
    requires maxSize >= 1 && |order| < maxSize && k !in order
    ensures SetOrder(order, k, maxSize) == order + [k]
  {
    assert order[0..] == order;
  }

  /** A `set` on a full cache removes the least recently used key, even when
      the key being written is already stored. */
  lemma FullSetEvictsLru(order: seq<string>, k: string, maxSize: int)
    requires maxSize >= 1 && NoDups(order) && |order| >= maxSize
    ensures order[0] == k || order[0] !in SetOrder(order, k, maxSize)
  {
    var n := EvictionCount(|order|, maxSize);
    assert n >= 1;
    assert order[0] !in order[n..];
    RemoveFacts(order[n..], k);
  }

  /** `stats()`, with the hit rate left unrounded. */
  datatype CacheStats = CacheStats(size: nat, maxSize: int, hits: nat, misses: nat, hitRatePercent: real)

  class TTLCache<T> {
    /** Stored keys, least recently used first. */
    var order: seq<string>
    var entries: map<string, CacheEntry<T>>
    const maxSize: int
    const defaultTtl: int
    var hits: nat
    var misses: nat

    /** The order lists each stored key once, and the size is within the
        limit (a cache with a non-positive limit stays empty). */
    ghost predicate Valid()
      reads this
    {
      && (forall k :: k in entries <==> k in order)
      && NoDups(order)
      && (|order| <= maxSize || order == [])
    }

    constructor (maxSize: int, defaultTtl: int)
      ensures Valid()
      ensures this.maxSize == maxSize && this.defaultTtl == defaultTtl
      ensures order == [] && entries == map[] && hits == 0 && misses == 0
    {
      this.maxSize := maxSize;
      this.defaultTtl := defaultTtl;
      order := [];
      entries := map[];
      hits := 0;
      misses := 0;
    }

    /** `get`: a miss for an absent key; an expired entry is dropped and
        counted as a miss; a live entry is returned, counted as a hit and
        becomes the most recently used. */
    method Get(key: string, now: real) returns (r: Option<T>)
      requires Valid()
      modifies this`order, this`entries, this`hits, this`misses
      ensures Valid()
      ensures key !in old(entries) ==>
        && r == None && order == old(order) && entries == old(entries)
        && hits == old(hits) && misses == old(misses) + 1
      ensures key in old(entries) && IsExpired(old(entries)[key], now) ==>
        && r == None && order == Remove(old(order), key) && entries == old(entries) - {key}
        && hits == old(hits) && misses == old(misses) + 1
      ensures key in old(entries) && !IsExpired(old(entries)[key], now) ==>
        && r == Some(old(entries)[key].value) && order == Touch(old(order), key) && entries == old(entries)
        && hits == old(hits) + 1 && misses == old(misses)
    {
      if key !in entries {
        misses := misses + 1;
        return None;
      }
      var entry := entries[key];
      RemoveFacts(order, key);
      if IsExpired(entry, now) {
        entries := entries - {key};
        order := Remove(order, key);
        misses := misses + 1;
        return None;
      }
      order := Touch(order, key);
      hits := hits + 1;
      return Some(entry.value);
    }

    /** `set`: pops least-recently-used entries while the cache is at its
        limit, then stores the entry as the most recently used one.  With a
        limit below one the popping empties the cache and then fails on the
        empty dictionary (`ok` is false). */
    method Set(key: string, value: T, ttl: Option<int>, now: real) returns (ok: bool)
      requires Valid()
      modifies this`order, this`entries
      ensures Valid()
      ensures ok <==> maxSize >= 1
      ensures !ok ==> order == [] && entries == map[]
      ensures ok ==>
        && order == SetOrder(old(order), key, maxSize)
        && entries[key] == CacheEntry(value, now + EffectiveTtl(ttl, defaultTtl) as real)
        && (forall k :: k in entries && k != key ==> k in old(entries) && entries[k] == old(entries)[k])
    {
      var expiresAt := now + EffectiveTtl(ttl, defaultTtl) as real;
      ghost var n := 0;
      while |order| >= maxSize
        invariant 0 <= n <= |old(order)| && order == old(order)[n..]
        invariant forall k :: k in entries <==> k in order
        invariant forall k :: k in entries ==> entries[k] == old(entries)[k]
        invariant maxSize >= 1 ==> n <= EvictionCount(|old(order)|, maxSize)
        decreases |order|
      {
        if order == [] {
          return false;
        }
        entries := entries - {order[0]};
        order := order[1..];
        n := n + 1;
      }
      assert n == EvictionCount(|old(order)|, maxSize);
      SetOrderBound(old(order), key, maxSize);
      RemoveFacts(order, key);
      entries := entries[key := CacheEntry(value, expiresAt)];
      order := Touch(order, key);
      return true;
    }

    /** `delete`: true exactly when the key is stored, expired or not; only
        that key goes. */
    method Delete(key: string) returns (found: bool)
      requires Valid()
      modifies this`order, this`entries
      ensures Valid()
      ensures found <==> key in old(entries)
      ensures entries == old(entries) - {key} && order == Remove(old(order), key)
    {
      found := key in entries;
      RemoveFacts(order, key);
      if found {
        entries := entries - {key};
        order := Remove(order, key);
      }
    }

    /** `clear`: empties the store and resets the counters. */
    method Clear()
      requires Valid()
      modifies this`order, this`entries, this`hits, this`misses
      ensures Valid()
      ensures order == [] && entries == map[] && hits == 0 && misses == 0
    {
      order := [];
      entries := map[];
      hits := 0;
      misses := 0;
    }

    /** `stats`: the size counts stored entries, stale ones included; the
        hit rate is the percentage of hits among all lookups, or zero before
        the first lookup. */
    function Stats(): (s: CacheStats)
      reads this
      ensures s.size == |order| && s.maxSize == maxSize && s.hits == hits && s.misses == misses
      ensures 0.0 <= s.hitRatePercent <= 100.0
      ensures hits + misses > 0 ==> s.hitRatePercent * (hits + misses) as real == 100.0 * hits as real
      ensures hits + misses == 0 ==> s.hitRatePercent == 0.0
    {
      var total := hits + misses;
      var rate := if total > 0 then hits as real / total as real * 100.0 else 0.0;
      CacheStats(|order|, maxSize, hits, misses, rate)
    }
  }

  /** The transcript cache: 1000 entries, one hour. */
  method NewTranscriptCache() returns (c: TTLCache<Option<string>>)
    ensures fresh(c) && c.Valid()
    ensures c.maxSize == 1000 && c.defaultTtl == 3600 && c.order == []
  {
    c := new TTLCache(1000, 3600);
  }

  /** The quiz cache: 500 entries, four hours.  The quiz JSON is kept as
      its serialised text. */
  method NewQuizCache() returns (c: TTLCache<string>)
    ensures fresh(c) && c.Valid()
    ensures c.maxSize == 500 && c.defaultTtl == 14400 && c.order == []
  {
    c := new TTLCache(500, 14400);
  }

  /** `get_cached_transcript`: `transcript_cache.get`, whose `Optional[str]`
      result does not tell a cached `None` from a miss. */
  method GetCachedTranscript(c: TTLCache<Option<string>>, videoId: string, now: real) returns (r: Option<string>)
    requires c.Valid()
    modifies c`order, c`entries, c`hits, c`misses
    ensures c.Valid()
    ensures r == if videoId in old(c.entries) && !IsExpired(old(c.entries)[videoId], now)
                 then old(c.entries)[videoId].value else None
    ensures videoId !in old(c.entries) ==>
      && c.order == old(c.order) && c.entries == old(c.entries)
      && c.hits == old(c.hits) && c.misses == old(c.misses) + 1
    ensures videoId in old(c.entries) && IsExpired(old(c.entries)[videoId], now) ==>
      && c.order == Remove(old(c.order), videoId) && c.entries == old(c.entries) - {videoId}
      && c.hits == old(c.hits) && c.misses == old(c.misses) + 1
    ensures videoId in old(c.entries) && !IsExpired(old(c.entries)[videoId], now) ==>
      && c.order == Touch(old(c.order), videoId) && c.entries == old(c.entries)
      && c.hits == old(c.hits) + 1 && c.misses == old(c.misses)
  {
    var got := c.Get(videoId, now);
    r := if got.Some? then got.value else None;
  }

  /** `cache_transcript`: stored with the cache's default TTL, evicting
      least recently used entries as `set` does. */
  method CacheTranscript(c: TTLCache<Option<string>>, videoId: string, transcript: Option<string>, now: real)
    requires c.Valid() && c.maxSize >= 1
    modifies c`order, c`entries
    ensures c.Valid()
    ensures c.order == SetOrder(old(c.order), videoId, c.maxSize)
    ensures c.entries[videoId] == CacheEntry(transcript, now + c.defaultTtl as real)
    ensures forall k :: k in c.entries && k != videoId ==> k in old(c.entries) && c.entries[k] == old(c.entries)[k]
  {
    var _ := c.Set(videoId, transcript, None, now);
  }

  /** `get_cached_quiz`: `quiz_cache.get`. */
  method GetCachedQuiz(c: TTLCache<string>, videoId: string, now: real) returns (r: Option<string>)
    requires c.Valid()
    modifies c`order, c`entries, c`hits, c`misses
    ensures c.Valid()
    ensures r == if videoId in old(c.entries) && !IsExpired(old(c.entries)[videoId], now)
                 then Some(old(c.entries)[videoId].value) else None
    ensures videoId !in old(c.entries) ==>
      && c.order == old(c.order) && c.entries == old(c.entries)
      && c.hits == old(c.hits) && c.misses == old(c.misses) + 1
    ensures videoId in old(c.entries) && IsExpired(old(c.entries)[videoId], now) ==>
      && c.order == Remove(old(c.order), videoId) && c.entries == old(c.entries) - {videoId}
      && c.hits == old(c.hits) && c.misses == old(c.misses) + 1
    ensures videoId in old(c.entries) && !IsExpired(old(c.entries)[videoId], now) ==>
      && c.order == Touch(old(c.order), videoId) && c.entries == old(c.entries)
      && c.hits == old(c.hits) + 1 && c.misses == old(c.misses)
  {
    r := c.Get(videoId, now);
  }

  /** `cache_quiz`: stored with the cache's default TTL, evicting least
      recently used entries as `set` does. */
  method CacheQuiz(c: TTLCache<string>, videoId: string, quiz: string, now: real)
    requires c.Valid() && c.maxSize >= 1
    modifies c`order, c`entries
    ensures c.Valid()
    ensures c.order == SetOrder(old(c.order), videoId, c.maxSize)
    ensures c.entries[videoId] == CacheEntry(quiz, now + c.defaultTtl as real)
    ensures forall k :: k in c.entries && k != videoId ==> k in old(c.entries) && c.entries[k] == old(c.entries)[k]
  {
    var _ := c.Set(videoId, quiz, None, now);
  }

  /** `get_cache_stats`: the statistics of both caches, each as `stats()`
      reports them. */
  function GetCacheStats(transcripts: TTLCache<Option<string>>, quizzes: TTLCache<string>): (s: (CacheStats, CacheStats))
    reads transcripts, quizzes
    ensures s.0.size == |transcripts.order| && s.0.maxSize == transcripts.maxSize
    ensures s.0.hits == transcripts.hits && s.0.misses == transcripts.misses
    ensures s.1.size == |quizzes.order| && s.1.maxSize == quizzes.maxSize
    ensures s.1.hits == quizzes.hits && s.1.misses == quizzes.misses
    ensures s == (transcripts.Stats(), quizzes.Stats())
  {
    (transcripts.Stats(), quizzes.Stats())
  }

  /** Setting then getting before expiry returns the value, as a hit. */
  method SetThenGet() returns (r: Option<string>, hits: nat)
    ensures r == Some("value1") && hits == 1
  {
    var c := new TTLCache<string>(10, 60);
    var _ := c.Set("key1", "value1", None, 0.0);
    r := c.Get("key1", 30.0);
    hits := c.hits;
  }

  /** An entry read one second after its one-second TTL is gone, and the
      read counts as a miss. */
  method ExpiresAfterTtl() returns (before: Option<string>, after: Option<string>, size: nat)
    ensures before == Some("value1") && after == None && size == 0
  {
    var c := new TTLCache<string>(10, 1);
    var _ := c.Set("key1", "value1", Some(1), 100.0);
    before := c.Get("key1", 100.0);
    after := c.Get("key1", 101.1);
    size := |c.order|;
  }

  /** Two entries written in order into a cache with three slots. */
  method FillTwo() returns (c: TTLCache<string>)
    ensures fresh(c) && c.Valid() && c.maxSize == 3 && c.defaultTtl == 60
    ensures c.order == ["key1", "key2"]
    ensures c.entries["key1"] == CacheEntry("value1", 60.0)
    ensures c.entries["key2"] == CacheEntry("value2", 60.0)
    ensures c.hits == 0 && c.misses == 0
  {
    assert "key1"[3] != "key2"[3];
    c := new TTLCache<string>(3, 60);
    var _ := c.Set("key1", "value1", None, 0.0);
    SetOrderFresh([], "key1", 3);
    var _ := c.Set("key2", "value2", None, 0.0);
    SetOrderFresh(["key1"], "key2", 3);
  }

  /** Three entries written in order into a cache with three slots. */
  method FillThree() returns (c: TTLCache<string>)
    ensures fresh(c) && c.Valid() && c.maxSize == 3 && c.defaultTtl == 60
    ensures c.order == ["key1", "key2", "key3"]
    ensures c.entries["key1"] == CacheEntry("value1", 60.0)
    ensures c.entries["key2"] == CacheEntry("value2", 60.0)
    ensures c.entries["key3"] == CacheEntry("value3", 60.0)
    ensures c.hits == 0 && c.misses == 0
  {
    assert "key1"[3] != "key3"[3] && "key2"[3] != "key3"[3];
    c := FillTwo();
    var _ := c.Set("key3", "value3", None, 0.0);
    SetOrderFresh(["key1", "key2"], "key3", 3);
  }

  /** Reading key1 makes key2 the least recently used key. */
  method FillThenTouch() returns (c: TTLCache<string>)
    ensures fresh(c) && c.Valid() && c.maxSize == 3 && c.defaultTtl == 60
    ensures c.order == ["key2", "key3", "key1"]
    ensures c.entries["key1"] == CacheEntry("value1", 60.0)
    ensures c.entries["key3"] == CacheEntry("value3", 60.0)
  {
    c := FillThree();
    var _ := c.Get("key1", 0.0);
    assert Remove(["key1", "key2", "key3"], "key1") == ["key2", "key3"];
  }

  /** So adding key4 evicts key2. */
  method TouchThenAdd() returns (c: TTLCache<string>)
    ensures fresh(c) && c.Valid()
    ensures c.order == ["key3", "key1", "key4"]
    ensures c.entries["key1"] == CacheEntry("value1", 60.0)
    ensures c.entries["key3"] == CacheEntry("value3", 60.0)
    ensures c.entries["key4"] == CacheEntry("value4", 60.0)
  {
    c := FillThenTouch();
    var _ := c.Set("key4", "value4", None, 0.0);
    assert ["key2", "key3", "key1"][1..] == ["key3", "key1"];
  }

  /** With three slots, reading key1 and then adding key4 evicts key2, the
      least recently used key. */
  method LruEviction() returns (r1: Option<string>, r2: Option<string>, r3: Option<string>, r4: Option<string>)
    ensures r1 == Some("value1") && r2 == None && r3 == Some("value3") && r4 == Some("value4")
  {
    var c := TouchThenAdd();
    assert "key2" !in c.entries;
    r1 := c.Get("key1", 0.0);
    r2 := c.Get("key2", 0.0);
    r3 := c.Get("key3", 0.0);
    r4 := c.Get("key4", 0.0);
  }

  /** Two hits and one miss give a hit rate of two thirds. */
  method StatsTracking() returns (s: CacheStats)
    ensures s.hits == 2 && s.misses == 1 && s.hitRatePercent * 3.0 == 200.0
  {
    var c := new TTLCache<string>(10, 60);
    var _ := c.Set("key1", "value1", None, 0.0);
    var _ := c.Get("key1", 0.0);
    var _ := c.Get("key1", 0.0);
    var _ := c.Get("missing", 0.0);
    s := c.Stats();
  }
}
