/**
 * The cache manager: a process-wide cache store and, beside it, the set of
 * cache keys the application has recorded, with prefix invalidation over
 * that set. Values in the store are of an arbitrary type `V`; expiry and
 * the caching library's own key scheme are not modelled.
 */
module CacheManager {
  import opened Strings

  /**
   * The keys one invalidation collects: recorded keys that start with
   * `keyPattern`. All of them are recorded, so removing each from the
   * recorded set cannot fail.
   */
  function KeysToInvalidate(keys: set<string>, keyPattern: string): (r: set<string>)
    ensures r <= keys
    ensures forall k :: k in r ==> StartsWith(k, keyPattern)
  {
    set k | k in keys && StartsWith(k, keyPattern)
  }

  /**
   * The recorded key set after invalidating `keyPattern`: no key left starts
   * with the pattern, and every other key is kept.
   */
  function KeysAfterInvalidate(keys: set<string>, keyPattern: string): (r: set<string>)
    ensures forall k :: k in r <==> k in keys && !StartsWith(k, keyPattern)
  {
    keys - KeysToInvalidate(keys, keyPattern)
  }

  /**
   * The cache store after invalidating `keyPattern`, given the recorded keys:
   * it loses exactly the entries under recorded keys with the pattern, and
   * every other entry keeps its value.
   */
  function StoreAfterInvalidate<V>(store: map<string, V>, keys: set<string>, keyPattern: string): (r: map<string, V>)
    ensures forall k :: k in r <==> k in store && !(k in keys && StartsWith(k, keyPattern))
    ensures forall k :: k in r ==> r[k] == store[k]
  {
    store - KeysToInvalidate(keys, keyPattern)
  }

  /** Invalidating the same pattern twice in a row has the effect of doing it once. */
  lemma InvalidateIdempotent<V>(store: map<string, V>, keys: set<string>, keyPattern: string)
    ensures KeysAfterInvalidate(KeysAfterInvalidate(keys, keyPattern), keyPattern) == KeysAfterInvalidate(keys, keyPattern)
    ensures StoreAfterInvalidate(StoreAfterInvalidate(store, keys, keyPattern), KeysAfterInvalidate(keys, keyPattern), keyPattern)
         == StoreAfterInvalidate(store, keys, keyPattern)
  {
  }

  /** Every string starts with the empty string, so the empty pattern removes every recorded key. */
  lemma InvalidateEmptyPattern<V>(store: map<string, V>, keys: set<string>)
    ensures KeysAfterInvalidate(keys, "") == {}
    ensures StoreAfterInvalidate(store, keys, "") == store - keys
  {
  }

  /** The cache store (`cache`) and the recorded key set (`cached_keys`). */
  class KeyedCache<V> {
    var cache: map<string, V>
    var cachedKeys: set<string>

    constructor ()
      ensures cache == map[] && cachedKeys == {}
    {
      cache := map[];
      cachedKeys := {};
    }

    /**
     * `invalidate_cache(key_pattern)`: collect the recorded keys with the
     * prefix, then delete each from the store and from the recorded set.
     */
    method InvalidateCache(keyPattern: string)
      modifies this
      ensures cachedKeys == KeysAfterInvalidate(old(cachedKeys), keyPattern)
      ensures cache == StoreAfterInvalidate(old(cache), old(cachedKeys), keyPattern)
      ensures forall k :: k in cachedKeys ==> !StartsWith(k, keyPattern)
    {
      var keysToInvalidate := KeysToInvalidate(cachedKeys, keyPattern);
      var remaining := keysToInvalidate;
      while remaining != {}
        invariant remaining <= keysToInvalidate
        invariant remaining <= cachedKeys
        invariant cachedKeys == old(cachedKeys) - (keysToInvalidate - remaining)
        invariant cache == old(cache) - (keysToInvalidate - remaining)
        decreases remaining
      {
        var key :| key in remaining;
        cache := cache - {key};
        // the key is still recorded, so removing it from the set cannot fail
        assert key in cachedKeys;
        cachedKeys := cachedKeys - {key};
        remaining := remaining - {key};
      }
    }
  }
}
