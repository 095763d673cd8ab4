/** `CachingPipelineBehavior.Handle`. For an `ICacheable` message the cache
    provider is asked for `CacheKey`; a non-null answer is returned as is, and
    otherwise the rest of the pipeline runs and its response is stored under
    the same key for `CacheDuration`. The provider is an abstract key-value
    store: its `GetAsync<TResponse>` yields the stored object, or
    `default(TResponse)` for an absent key, which is null for a reference
    type and a non-null zero for a value type. */
module CachingPipelineBehavior {
  import opened Kernel

  datatype CachedEntry = CachedEntry(value: Value, durationSeconds: int)

  /** What `GetAsync<TResponse>(key)` yields for a store holding `entries`. */
  function Lookup(entries: map<string, CachedEntry>, key: string, response: TypeTag, responseIsValueType: bool): (v: Value)
    ensures key in entries ==> v == entries[key].value
    ensures key !in entries && !responseIsValueType ==> v == Null
    ensures key !in entries && responseIsValueType ==> v == Boxed(response, 0)
  {
    if key in entries then entries[key].value
    else if responseIsValueType then Boxed(response, 0)
    else Null
  }

  /** One `Handle` call over a store holding `entries`: the response and the
      store afterwards. */
  function Step(entries: map<string, CachedEntry>, m: Message, next: Next, response: TypeTag, responseIsValueType: bool)
    : (r: (Run, map<string, CachedEntry>))
    ensures entries.Keys <= r.1.Keys
    ensures forall k :: k in entries && (m.cacheable.None? || k != m.cacheable.value.cacheKey) ==> r.1[k] == entries[k]
    ensures m.cacheable.Some? ==> r.1.Keys <= entries.Keys + {m.cacheable.value.cacheKey}
  {
    match m.cacheable
    case None => (next(m), entries)
    case Some(c) =>
      var cached := Lookup(entries, c.cacheKey, response, responseIsValueType);
      if cached != Null then (Run(Ok(cached), [CacheHitLogged(c.cacheKey)]), entries)
      else
        var inner := next(m);
        var stored := if inner.outcome.Ok?
                      then entries[c.cacheKey := CachedEntry(inner.outcome.value, c.cacheDurationSeconds)]
                      else entries;
        (Run(inner.outcome, [CacheMissLogged(c.cacheKey)] + inner.trace), stored)
  }

  /** A message without the marker goes to `next` and the store is untouched. */
  lemma NotCacheablePassesThrough(entries: map<string, CachedEntry>, m: Message, next: Next, response: TypeTag, vt: bool)
    requires m.cacheable.None?
    ensures Step(entries, m, next, response, vt) == (next(m), entries)
  {
  }

  /** On a hit the cached value is returned, `next` does not run and nothing
      is written; on a miss `next` runs once, and its response is stored under
      `CacheKey` with `CacheDuration` exactly when it succeeded. */
  lemma HitOrMiss(entries: map<string, CachedEntry>, m: Message, next: Next, response: TypeTag, vt: bool)
    requires m.cacheable.Some?
    ensures var key := m.cacheable.value.cacheKey;
            var cached := Lookup(entries, key, response, vt);
            var (run, after) := Step(entries, m, next, response, vt);
            && (cached != Null ==> run == Run(Ok(cached), [CacheHitLogged(key)]) && after == entries)
            && (cached == Null ==>
                  && run.outcome == next(m).outcome
                  && run.trace == [CacheMissLogged(key)] + next(m).trace
                  && (next(m).outcome.Ok? ==>
                        after == entries[key := CachedEntry(next(m).outcome.value, m.cacheable.value.cacheDurationSeconds)])
                  && (next(m).outcome.Fault? ==> after == entries))
  {
  }

  /** For a value-type response the provider's default is never null, so the
      hit test always passes and `next` is never reached. */
  lemma ValueTypeNeverReachesNext(entries: map<string, CachedEntry>, m: Message, next: Next, response: TypeTag)
    requires m.cacheable.Some?
    requires forall k :: k in entries ==> entries[k].value != Null
    ensures Step(entries, m, next, response, true).1 == entries
    ensures Step(entries, m, next, response, true).0.trace == [CacheHitLogged(m.cacheable.value.cacheKey)]
  {
  }

  /** A successful, non-null response stored on a miss is what the next
      message with the same key gets back, without running `next` again. */
  lemma StoredResponseIsServed(entries: map<string, CachedEntry>, m1: Message, m2: Message, next1: Next, next2: Next,
                               response: TypeTag, vt: bool)
    requires m1.cacheable.Some? && m2.cacheable.Some?
    requires m1.cacheable.value.cacheKey == m2.cacheable.value.cacheKey
    requires Lookup(entries, m1.cacheable.value.cacheKey, response, vt) == Null
    requires next1(m1).outcome.Ok? && next1(m1).outcome.value != Null
    ensures var after := Step(entries, m1, next1, response, vt).1;
            Step(after, m2, next2, response, vt) ==
              (Run(next1(m1).outcome, [CacheHitLogged(m2.cacheable.value.cacheKey)]), after)
  {
  }

  /** The `ICacheProvider` store. */
  class CacheProvider {
    var entries: map<string, CachedEntry>

    constructor()
      ensures entries == map[]
    {
      entries := map[];
    }

    /** `GetAsync<TResponse>(key)` */
    function Get(key: string, response: TypeTag, responseIsValueType: bool): (v: Value)
      reads this
      ensures key in entries ==> v == entries[key].value
      ensures key !in entries ==> (v == Null <==> !responseIsValueType)
    {
      Lookup(entries, key, response, responseIsValueType)
    }

    /** `SetAsync(key, value, duration)` */
    method Set(key: string, value: Value, durationSeconds: int)
      modifies this
      ensures entries == old(entries)[key := CachedEntry(value, durationSeconds)]
    {
      entries := entries[key := CachedEntry(value, durationSeconds)];
    }
  }

  method Handle(provider: CacheProvider, m: Message, next: Next, response: TypeTag, responseIsValueType: bool)
    returns (r: Run)
    modifies provider
    ensures (r, provider.entries) == Step(old(provider.entries), m, next, response, responseIsValueType)
  {
    if m.cacheable.None? {
      r := next(m);
      return;
    }
    var key := m.cacheable.value.cacheKey;
    var cached := provider.Get(key, response, responseIsValueType);
    if cached != Null {
      r := Run(Ok(cached), [CacheHitLogged(key)]);
      return;
    }
    var inner := next(m);
    if inner.outcome.Ok? {
      provider.Set(key, inner.outcome.value, m.cacheable.value.cacheDurationSeconds);
    }
    r := Run(inner.outcome, [CacheMissLogged(key)] + inner.trace);
  }
}
