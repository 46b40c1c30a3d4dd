/**
  The cache store of `src/cache/redis_cache.py`.  The Redis database the
  helper talks to is the `store` field of the class: a map from key to the
  stored value and the expiry it was written with.  Redis glob scans are
  modelled as string tests, which is exact for patterns without glob
  metacharacters (every caller passes entity ids).
 */
module RedisCache {
  import opened Common
  import opened CacheKeys

  /** A stored value together with the expiry (seconds) it was written with. */
  datatype Entry<V> = Entry(value: V, ttl: nat)

  type Store<V> = map<string, Entry<V>>

  /** `self.expired_time = 60 * 30` */
  const ExpiredTime: nat := 60 * 30

  /** `k` has the same presence and the same entry in `m` and in `r`. */
  ghost predicate SameAt<V>(m: Store<V>, r: Store<V>, k: string)
  {
    (k in m <==> k in r) && (k in r ==> r[k] == m[k])
  }

  /** The store after `add(key, value)`: an overwrite with the fixed expiry. */
  function AfterAdd<V>(m: Store<V>, key: string, value: V): (r: Store<V>)
    ensures key in r && r[key] == Entry(value, 1800)
    ensures forall k :: k != key ==> SameAt(m, r, k)
  {
    m[key := Entry(value, ExpiredTime)]
  }

  /** The store after `multiply_delete(keys)`: `'full'`, `'db_data'` and the listed keys are gone. */
  function AfterMultiplyDelete<V>(m: Store<V>, keys: seq<string>): (r: Store<V>)
    ensures forall k :: k in r <==> k in m && k != FullKey && k != DbDataKey && k !in keys
    ensures forall k :: k in r ==> r[k] == m[k]
  {
    m - ({FullKey, DbDataKey} + set k | k in keys)
  }

  /** The store after `delete(key)`: `key`, `'full'` and `'db_data'` are gone. */
  function AfterDelete<V>(m: Store<V>, key: string): (r: Store<V>)
    ensures forall k :: k in r <==> k in m && k !in {key, FullKey, DbDataKey}
    ensures forall k :: k in r ==> r[k] == m[k]
  {
    m - {FullKey, DbDataKey, key}
  }

  /** The store after `cascade_delete(pattern)`: the three global views and every key starting with `pattern` are gone. */
  function AfterCascadeDelete<V>(m: Store<V>, pattern: string): (r: Store<V>)
    ensures forall k :: k in r <==> k in m && k !in {AllKey, FullKey, DbDataKey} && !StartsWith(k, pattern)
    ensures forall k :: k in r ==> r[k] == m[k]
  {
    m - ({AllKey, FullKey, DbDataKey} + set k | k in m && StartsWith(k, pattern))
  }

  /** The store after `excel_cascade_delete(pattern)`: `'full'`, `'db_data'` and every key containing `pattern` are gone. */
  function AfterExcelCascadeDelete<V>(m: Store<V>, pattern: string): (r: Store<V>)
    ensures forall k :: k in r <==> k in m && k !in {FullKey, DbDataKey} && !Contains(k, pattern)
    ensures forall k :: k in r ==> r[k] == m[k]
  {
    m - ({FullKey, DbDataKey} + set k | k in m && Contains(k, pattern))
  }

  /** Deleting the global views and then every key the prefix scan found is `AfterCascadeDelete`. */
  lemma PrefixScanThenDelete<V>(m: Store<V>, scanned: Store<V>, matched: set<string>, pattern: string)
    requires scanned == AfterMultiplyDelete(m, [AllKey, FullKey, DbDataKey])
    requires matched == set k | k in scanned && StartsWith(k, pattern)
    ensures scanned - matched == AfterCascadeDelete(m, pattern)
  {
    assert (scanned - matched).Keys == AfterCascadeDelete(m, pattern).Keys;
  }

  /** Deleting the heavy views and then every key the substring scan found is `AfterExcelCascadeDelete`. */
  lemma SubstringScanThenDelete<V>(m: Store<V>, scanned: Store<V>, matched: set<string>, pattern: string)
    requires scanned == AfterMultiplyDelete(m, [FullKey])
    requires matched == set k | k in scanned && Contains(k, pattern)
    ensures scanned - matched == AfterExcelCascadeDelete(m, pattern)
  {
    assert (scanned - matched).Keys == AfterExcelCascadeDelete(m, pattern).Keys;
  }

  /** The helper class together with the Redis database it works on. */
  class Cache<V> {
    var store: Store<V>

    constructor (initial: Store<V>)
      ensures store == initial
    {
      store := initial;
    }

    /** `get`: the stored value, or None for an absent key; never fails. */
    function Get(key: string): (r: Option<V>)
      reads this
      ensures r.Some? <==> key in store
      ensures r.Some? ==> r.value == store[key].value
    {
      if key in store then Some(store[key].value) else None
    }

    /** `add`: store `value` under `key` with the fixed expiry, overwriting. */
    method Add(key: string, value: V)
      modifies this
      ensures store == AfterAdd(old(store), key, value)
    {
      store := store[key := Entry(value, ExpiredTime)];
    }

    /** `multiply_delete`: delete `'full'` and `'db_data'`, then each listed key that exists. */
    method MultiplyDelete(keys: seq<string>)
      modifies this
      ensures store == AfterMultiplyDelete(old(store), keys)
    {
      store := store - {FullKey};
      store := store - {DbDataKey};
      for i := 0 to |keys|
        invariant forall k :: k in store <==> k in old(store) && k != FullKey && k != DbDataKey && k !in keys[..i]
        invariant forall k :: k in store ==> store[k] == old(store)[k]
      {
        if keys[i] in store {
          store := store - {keys[i]};
        }
        assert keys[..i + 1] == keys[..i] + [keys[i]];
      }
      assert keys[..|keys|] == keys;
      assert store.Keys == AfterMultiplyDelete(old(store), keys).Keys;
    }

    /** `delete`: the two heavy views through `multiply_delete`, then `key` itself. */
    method Delete(key: string)
      modifies this
      ensures store == AfterDelete(old(store), key)
    {
      MultiplyDelete([FullKey, DbDataKey]);
      store := store - {key};
    }

    /** `cascade_delete`: the three global views, then every key the prefix scan finds. */
    method CascadeDelete(pattern: string)
      requires GlobFree(pattern)
      modifies this
      ensures store == AfterCascadeDelete(old(store), pattern)
    {
      MultiplyDelete([AllKey, FullKey, DbDataKey]);
      ghost var scanned := store;
      var matched := set k | k in store && StartsWith(k, pattern);
      var pending := matched;
      while pending != {}
        invariant pending <= matched
        invariant store == scanned - (matched - pending)
        decreases pending
      {
        var k :| k in pending;
        store := store - {k};
        pending := pending - {k};
      }
      PrefixScanThenDelete(old(store), scanned, matched, pattern);
    }

    /** `excel_cascade_delete`: `'full'` and `'db_data'`, then every key the substring scan finds. */
    method ExcelCascadeDelete(pattern: string)
      requires GlobFree(pattern)
      modifies this
      ensures store == AfterExcelCascadeDelete(old(store), pattern)
    {
      MultiplyDelete([FullKey]);
      ghost var scanned := store;
      var matched := set k | k in store && Contains(k, pattern);
      var pending := matched;
      while pending != {}
        invariant pending <= matched
        invariant store == scanned - (matched - pending)
        decreases pending
      {
        var k :| k in pending;
        store := store - {k};
        pending := pending - {k};
      }
      SubstringScanThenDelete(old(store), scanned, matched, pattern);
    }

    /** `delete_cache` (`flushdb`): the reconciliation job empties the whole database. */
    method FlushDb()
      modifies this
      ensures store == map[]
    {
      store := map[];
    }
  }

  /** After `add(k, v)`, `get(k)` returns `v`; reading an absent key yields None. */
  lemma AddThenGet<V>(m: Store<V>, key: string, value: V, other: string)
    requires other !in m && other != key
    ensures key in AfterAdd(m, key, value) && AfterAdd(m, key, value)[key].value == value
    ensures other !in AfterAdd(m, key, value)
  {
  }

  /** Every delete operation is idempotent. */
  lemma DeletesAreIdempotent<V>(m: Store<V>, key: string, keys: seq<string>, pattern: string)
    ensures AfterDelete(AfterDelete(m, key), key) == AfterDelete(m, key)
    ensures AfterMultiplyDelete(AfterMultiplyDelete(m, keys), keys) == AfterMultiplyDelete(m, keys)
    ensures AfterCascadeDelete(AfterCascadeDelete(m, pattern), pattern) == AfterCascadeDelete(m, pattern)
    ensures AfterExcelCascadeDelete(AfterExcelCascadeDelete(m, pattern), pattern) == AfterExcelCascadeDelete(m, pattern)
  {
    var c := AfterCascadeDelete(m, pattern);
    assert AfterCascadeDelete(c, pattern).Keys == c.Keys;
    var e := AfterExcelCascadeDelete(m, pattern);
    assert AfterExcelCascadeDelete(e, pattern).Keys == e.Keys;
  }

  /**
    A cascade rooted at a menu id removes that menu's whole subtree and leaves
    the subtree of every other menu as it was.
   */
  lemma CascadeClearsMenuSubtree<V>(m: Store<V>, menuId: string)
    requires IsUuid(menuId)
    ensures forall k :: UnderMenu(k, menuId) ==> k !in AfterCascadeDelete(m, menuId)
    ensures forall k, other :: IsUuid(other) && other != menuId && UnderMenu(k, other) ==>
              SameAt(m, AfterCascadeDelete(m, menuId), k)
  {
    var r := AfterCascadeDelete(m, menuId);
    forall k | UnderMenu(k, menuId)
      ensures k !in r
    {
      UnderMenuPrefix(k, menuId, menuId);
    }
    forall k, other | IsUuid(other) && other != menuId && UnderMenu(k, other)
      ensures SameAt(m, r, k)
    {
      UnderMenuPrefix(k, other, menuId);
      if k in GlobalKeys {
        GlobalKeysAreNotEntityKeys(k, other);
      }
    }
  }
}
