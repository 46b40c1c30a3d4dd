/**
  The older cache store of `src/repository/redis_cache.py`.  Same storage and
  expiry as the current one, but its deletes touch only what they are given:
  no `'full'`/`'db_data'` side deletes, and no substring scan.
 */
module LegacyRedisCache {
  import opened Common
  import opened CacheKeys
  import RedisCache

  /** The store after `delete(key)`: only `key` is gone. */
  function AfterDelete<V>(m: RedisCache.Store<V>, key: string): (r: RedisCache.Store<V>)
    ensures forall k :: k in r <==> k in m && k != key
    ensures forall k :: k in r ==> r[k] == m[k]
  {
    m - {key}
  }

  /** The store after `cascade_delete(pattern)`: `'all'` and every key starting with `pattern` are gone. */
  function AfterCascadeDelete<V>(m: RedisCache.Store<V>, pattern: string): (r: RedisCache.Store<V>)
    ensures forall k :: k in r <==> k in m && k != AllKey && !StartsWith(k, pattern)
    ensures forall k :: k in r ==> r[k] == m[k]
  {
    m - ({AllKey} + set k | k in m && StartsWith(k, pattern))
  }

  /** The store after `multiply_delete(keys)`: exactly the listed keys are gone. */
  function AfterMultiplyDelete<V>(m: RedisCache.Store<V>, keys: seq<string>): (r: RedisCache.Store<V>)
    ensures forall k :: k in r <==> k in m && k !in keys
    ensures forall k :: k in r ==> r[k] == m[k]
  {
    m - set k | k in keys
  }

  class Cache<V> {
    var store: RedisCache.Store<V>

    constructor (initial: RedisCache.Store<V>)
      ensures store == initial
    {
      store := initial;
    }

    /** `get`: the stored value, or None for an absent key. */
    function Get(key: string): (r: Option<V>)
      reads this
      ensures r.Some? <==> key in store
      ensures r.Some? ==> r.value == store[key].value
    {
      if key in store then Some(store[key].value) else None
    }

    /** `add`: overwrite with the fixed expiry of 1800 seconds. */
    method Add(key: string, value: V)
      modifies this
      ensures store == RedisCache.AfterAdd(old(store), key, value)
    {
      store := store[key := RedisCache.Entry(value, RedisCache.ExpiredTime)];
    }

    /** `delete`: the one key. */
    method Delete(key: string)
      modifies this
      ensures store == AfterDelete(old(store), key)
    {
      store := store - {key};
    }

    /** `cascade_delete`: `'all'`, then every key the prefix scan finds. */
    method CascadeDelete(pattern: string)
      requires GlobFree(pattern)
      modifies this
      ensures store == AfterCascadeDelete(old(store), pattern)
    {
      store := store - {AllKey};
      ghost var scanned := store;
      var matched := set k | k in store && StartsWith(k, pattern);
      var pending := matched;
      while pending != {}
        invariant pending <= matched
        invariant store == scanned - (matched - pending)
        decreases pending
      {
        var k :| k in pending;
        store := store - {k};
        pending := pending - {k};
      }
      assert store.Keys == AfterCascadeDelete(old(store), pattern).Keys;
    }

    /** `multiply_delete`: each listed key that exists. */
    method MultiplyDelete(keys: seq<string>)
      modifies this
      ensures store == AfterMultiplyDelete(old(store), keys)
    {
      for i := 0 to |keys|
        invariant forall k :: k in store <==> k in old(store) && k !in keys[..i]
        invariant forall k :: k in store ==> store[k] == old(store)[k]
      {
        if keys[i] in store {
          store := store - {keys[i]};
        }
        assert keys[..i + 1] == keys[..i] + [keys[i]];
      }
      assert keys[..|keys|] == keys;
      assert store.Keys == AfterMultiplyDelete(old(store), keys).Keys;
    }
  }

  /**
    Unlike the current store, the legacy deletes leave `'full'` and `'db_data'`
    alone unless they are listed or match the pattern.
   */
  lemma HeavyViewsSurvive<V>(m: RedisCache.Store<V>, key: string, keys: seq<string>, pattern: string, heavy: string)
    requires heavy in m && (heavy == FullKey || heavy == DbDataKey)
    requires heavy != key && heavy !in keys && !StartsWith(heavy, pattern)
    ensures heavy in AfterDelete(m, key) && heavy in AfterMultiplyDelete(m, keys)
    ensures heavy in AfterCascadeDelete(m, pattern)
    ensures heavy !in RedisCache.AfterDelete(m, key) && heavy !in RedisCache.AfterMultiplyDelete(m, keys)
    ensures heavy !in RedisCache.AfterCascadeDelete(m, pattern)
  {
  }

  /** The legacy deletes are idempotent as well. */
  lemma DeletesAreIdempotent<V>(m: RedisCache.Store<V>, key: string, keys: seq<string>, pattern: string)
    ensures AfterDelete(AfterDelete(m, key), key) == AfterDelete(m, key)
    ensures AfterMultiplyDelete(AfterMultiplyDelete(m, keys), keys) == AfterMultiplyDelete(m, keys)
    ensures AfterCascadeDelete(AfterCascadeDelete(m, pattern), pattern) == AfterCascadeDelete(m, pattern)
  {
    var c := AfterCascadeDelete(m, pattern);
    assert AfterCascadeDelete(c, pattern).Keys == c.Keys;
  }
}
