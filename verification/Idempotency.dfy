/**
  Idempotency keys: the cache entries that hold a finished request's response and the marker of a request
  still being processed, and the helper functions over them.
 */
module Idempotency {
  import opened Options

  const RESULT_TTL: nat := 24 * 60 * 60
  const LOCK_TTL: nat := 60

  datatype Result = Result(status: nat, data: string, payloadHash: Option<string>)

  /** A cache entry: a stored response or the "1" of a processing marker. */
  datatype Slot = Stored(result: Result, expiresAt: nat) | Marker(expiresAt: nat)

  type Cache = map<string, Slot>

  function CacheKey(scope: string, key: string): string { "idempotency:" + scope + ":" + key }

  function LockKey(scope: string, key: string): string { CacheKey(scope, key) + ":lock" }

  predicate Live(cache: Cache, k: string, now: nat) { k in cache && now < cache[k].expiresAt }

  /** `read_cached_result`: the unexpired stored response, if any. */
  function ReadResult(cache: Cache, scope: string, key: string, now: nat): Option<Result> {
    var k := CacheKey(scope, key);
    if Live(cache, k, now) && cache[k].Stored? then Some(cache[k].result) else None
  }

  /** `payload_conflict`: entries stored without a fingerprint never conflict. */
  function PayloadConflict(cached: Option<Result>, payloadHash: string): bool {
    cached.Some? && cached.value.payloadHash.Some? && cached.value.payloadHash.value != payloadHash
  }

  /******* The keys *******/

  function ColonAt(s: string): nat { if s == [] || s[0] == ':' then 0 else 1 + ColonAt(s[1..]) }

  lemma {:induction false} ColonAfter(a: string, b: string)
    requires ':' !in a
    ensures ColonAt(a + ":" + b) == |a|
  {
    if a != [] {
      assert (a + ":" + b)[0] == a[0] && (a + ":" + b)[1..] == a[1..] + ":" + b;
      ColonAfter(a[1..], b);
    }
  }

  /** The two parts of a string around its first colon are determined by it. */
  lemma FirstColon(a: string, b: string, c: string, d: string)
    requires ':' !in a && ':' !in c && a + ":" + b == c + ":" + d
    ensures a == c && b == d
  {
    var left, right := a + ":" + b, c + ":" + d;
    ColonAfter(a, b);
    ColonAfter(c, d);
    assert a == left[..|a|] && c == right[..|c|];
    assert b == left[|a| + 1..] && d == right[|c| + 1..];
  }

  /** With colon-free scopes, two response entries share a cache key only if they are the same pair. */
  lemma CacheKeyInjective(scope: string, key: string, scope': string, key': string)
    requires ':' !in scope && ':' !in scope'
    ensures CacheKey(scope, key) == CacheKey(scope', key') <==> scope == scope' && key == key'
  {
    if CacheKey(scope, key) == CacheKey(scope', key') {
      var prefix := "idempotency:";
      assert CacheKey(scope, key) == prefix + (scope + ":" + key)
          && CacheKey(scope', key') == prefix + (scope' + ":" + key');
      assert CacheKey(scope, key)[|prefix|..] == scope + ":" + key
          && CacheKey(scope', key')[|prefix|..] == scope' + ":" + key';
      FirstColon(scope, key, scope', key');
    }
  }

  /** With colon-free scopes, a marker collides with a response entry exactly when that entry's key ends in ":lock". */
  lemma LockKeyClash(scope: string, key: string, scope': string, key': string)
    requires ':' !in scope && ':' !in scope'
    ensures LockKey(scope, key) == CacheKey(scope', key') <==> scope == scope' && key' == key + ":lock"
  {
    assert LockKey(scope, key) == CacheKey(scope, key + ":lock");
    CacheKeyInjective(scope, key + ":lock", scope', key');
  }

  lemma LockKeyInjective(scope: string, key: string, scope': string, key': string)
    requires ':' !in scope && ':' !in scope'
    ensures LockKey(scope, key) == LockKey(scope', key') <==> scope == scope' && key == key'
  {
    if LockKey(scope, key) == LockKey(scope', key') {
      assert CacheKey(scope, key) == LockKey(scope, key)[..|CacheKey(scope, key)|];
      assert CacheKey(scope', key') == LockKey(scope', key')[..|CacheKey(scope', key')|];
      CacheKeyInjective(scope, key, scope', key');
    }
  }

  /******* The cache operations *******/

  function AfterStore(cache: Cache, scope: string, key: string, result: Result, now: nat): Cache {
    cache[CacheKey(scope, key) := Stored(result, now + RESULT_TTL)]
  }

  function AfterAcquire(cache: Cache, scope: string, key: string, now: nat): Cache {
    if Live(cache, LockKey(scope, key), now) then cache else cache[LockKey(scope, key) := Marker(now + LOCK_TTL)]
  }

  function AfterRelease(cache: Cache, scope: string, key: string): Cache { cache - {LockKey(scope, key)} }

  /**
    A stored response is read back unchanged for 86400 seconds and no longer. It conflicts with exactly the requests of
    another fingerprint, or with none if it was stored without one.
   */
  lemma StoredForOneDay(cache: Cache, scope: string, key: string, result: Result, now: nat, later: nat, hash: string)
    requires now <= later
    ensures var read := ReadResult(AfterStore(cache, scope, key, result, now), scope, key, later);
            && read == (if later < now + 86400 then Some(result) else None)
            && (PayloadConflict(read, hash) <==>
                  later < now + 86400 && result.payloadHash.Some? && result.payloadHash != Some(hash))
  {
  }

  /** A marker stops others for 60 seconds from when it was set, unless it is released; a second try changes nothing. */
  lemma LockedForOneMinute(cache: Cache, scope: string, key: string, now: nat, later: nat)
    requires now <= later && !Live(cache, LockKey(scope, key), now)
    ensures var locked := AfterAcquire(cache, scope, key, now);
            && (Live(locked, LockKey(scope, key), later) <==> later < now + 60)
            && (later < now + 60 ==> AfterAcquire(locked, scope, key, later) == locked)
            && !Live(AfterRelease(locked, scope, key), LockKey(scope, key), later)
  {
  }

  /** The shared cache, with the source's four operations. */
  class IdempotencyStore {
    var now: nat
    var entries: Cache

    constructor ()
      ensures entries == map[] && now == 0
    {
      entries, now := map[], 0;
    }

    method ReadCachedResult(scope: string, key: string) returns (cached: Option<Result>)
      ensures cached == ReadResult(entries, scope, key, now)
    {
      var k := CacheKey(scope, key);
      cached := None;
      if k in entries && now < entries[k].expiresAt && entries[k].Stored? {
        cached := Some(entries[k].result);
      }
    }

    method StoreResult(scope: string, key: string, status: nat, data: string, payloadHash: Option<string>)
      modifies this`entries
      ensures entries == AfterStore(old(entries), scope, key, Result(status, data, payloadHash), now)
      ensures ReadResult(entries, scope, key, now) == Some(Result(status, data, payloadHash))
    {
      entries := entries[CacheKey(scope, key) := Stored(Result(status, data, payloadHash), now + RESULT_TTL)];
    }

    /** `cache.add`: writes, and answers true, only when no unexpired entry is there. */
    method AcquireProcessingLock(scope: string, key: string) returns (won: bool)
      modifies this`entries
      ensures won <==> !Live(old(entries), LockKey(scope, key), now)
      ensures entries == AfterAcquire(old(entries), scope, key, now)
      ensures Live(entries, LockKey(scope, key), now)
    {
      var k := CacheKey(scope, key) + ":lock";
      won := !(k in entries && now < entries[k].expiresAt);
      if won { entries := entries[k := Marker(now + LOCK_TTL)]; }
    }

    method ReleaseProcessingLock(scope: string, key: string)
      modifies this`entries
      ensures entries == AfterRelease(old(entries), scope, key)
      ensures !Live(entries, LockKey(scope, key), now)
    {
      entries := entries - {CacheKey(scope, key) + ":lock"};
    }
  }
}
