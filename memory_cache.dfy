/**
 * The key/value cache with time-to-live: the CacheProvider contract and its
 * in-memory implementation. Expiry is lazy: an expired entry is dropped when
 * `get` or `exists` touches it, or when `keys` sweeps the map. The clock is
 * a parameter (`now`, in milliseconds).
 *
 * The interface has a single implementation in this model, so the contract
 * of the interface is stated on the methods of `MemoryCache`.
 */
module MemoryCacheProvider {
  import opened Wrappers
  import opened Records

  /** Everything the per-entity caches store: the model's reading of `Any`. */
  datatype CacheValue =
    | QuotaValue(quota: Quota)
    | WorkspaceValue(workspace: Workspace)
    | WorkspaceList(workspaces: seq<Workspace>)
    | VaultValue(vault: Vault)
    | VaultList(vaults: seq<Vault>)
    | RuleList(rules: seq<AutoPickup>)
    | ItemList(items: seq<Item>)
    | TextValue(text: string)

  /** A stored value and the instant it expires; 0 means it never expires. */
  datatype CacheEntry = CacheEntry(data: CacheValue, expireAt: int)

  type Entries = map<string, CacheEntry>

  predicate IsExpired(e: CacheEntry, now: int)
  {
    e.expireAt > 0 && now > e.expireAt
  }

  /** The expiry instant `set` records: `now + ttl` for a positive ttl, else never. */
  function ExpireAt(now: int, ttlMs: int): int
  {
    if ttlMs > 0 then now + ttlMs else 0
  }

  /** What `get` answers: the value of a present, unexpired entry; nothing otherwise. */
  function Lookup(m: Entries, key: string, now: int): (r: Option<CacheValue>)
    ensures r.Some? <==> key in m && !IsExpired(m[key], now)
    ensures r.Some? ==> r.value == m[key].data
  {
    if key in m && !IsExpired(m[key], now) then Some(m[key].data) else None
  }

  /** The map after `get` or `exists` looked at `key`: an expired entry there is removed. */
  function Touch(m: Entries, key: string, now: int): (r: Entries)
    ensures forall k :: k in r <==> k in m && (k == key ==> !IsExpired(m[k], now))
    ensures forall k | k in r :: r[k] == m[k]
  {
    if key in m && IsExpired(m[key], now) then m - {key} else m
  }

  /** The map after deleting each key of `keys` in turn. */
  function DeleteKeys(m: Entries, keys: seq<string>): (r: Entries)
    ensures forall k :: k in r <==> k in m && k !in keys
    ensures forall k | k in r :: r[k] == m[k]
    decreases |keys|
  {
    if keys == [] then m else DeleteKeys(m, keys[..|keys| - 1]) - {keys[|keys| - 1]}
  }

  /** The map after `set(key, value)` for each pair of `kvs` in turn, all with the same expiry. */
  function SetAll(m: Entries, kvs: seq<(string, CacheValue)>, expireAt: int): Entries
    decreases |kvs|
  {
    if kvs == [] then m
    else SetAll(m, kvs[..|kvs| - 1], expireAt)[kvs[|kvs| - 1].0 := CacheEntry(kvs[|kvs| - 1].1, expireAt)]
  }

  /** The map after `cleanExpired`: exactly the unexpired entries. */
  function Unexpired(m: Entries, now: int): (r: Entries)
    ensures forall k :: k in r <==> k in m && !IsExpired(m[k], now)
    ensures forall k | k in r :: r[k] == m[k]
  {
    map k | k in m && !IsExpired(m[k], now) :: m[k]
  }

  /** The map after `deleteByPrefix(prefix)`: exactly the entries whose key does not start with it. */
  function WithoutPrefix(m: Entries, prefix: string): (r: Entries)
    ensures forall k :: k in r <==> k in m && !(prefix <= k)
    ensures forall k | k in r :: r[k] == m[k]
  {
    map k | k in m && !(prefix <= k) :: m[k]
  }

  /** The keys of `m` that start with `prefix`. */
  function KeysWithPrefix(m: Entries, prefix: string): (r: set<string>)
    ensures forall k :: k in r <==> k in m && prefix <= k
  {
    set k | k in m && prefix <= k
  }

  class MemoryCache {
    var entries: Entries

    constructor()
      ensures entries == map[]
    {
      entries := map[];
    }

    /** `get(key)`: absent when missing or expired; an expired entry is evicted. */
    method Get(key: string, now: int) returns (r: Option<CacheValue>)
      modifies this
      ensures r == Lookup(old(entries), key, now)
      ensures entries == Touch(old(entries), key, now)
    {
      if key !in entries {
        return None;
      }
      var entry := entries[key];
      if IsExpired(entry, now) {
        entries := entries - {key};
        return None;
      }
      r := Some(entry.data);
    }

    /** `set(key, value, ttl)`: overwrites any earlier entry. */
    method Set(key: string, value: CacheValue, ttlMs: int, now: int)
      modifies this
      ensures entries == old(entries)[key := CacheEntry(value, ExpireAt(now, ttlMs))]
    {
      var expireAt := if ttlMs > 0 then now + ttlMs else 0;
      entries := entries[key := CacheEntry(value, expireAt)];
    }

    method Delete(key: string)
      modifies this
      ensures entries == old(entries) - {key}
    {
      entries := entries - {key};
    }

    /** Collects the matching keys, then removes them one at a time. */
    method DeleteByPrefix(prefix: string)
      modifies this
      ensures entries == WithoutPrefix(old(entries), prefix)
    {
      var doomed := set k | k in entries && prefix <= k;
      while doomed != {}
        invariant doomed <= entries.Keys
        invariant forall k | k in doomed :: prefix <= k
        invariant forall k :: k in entries <==> k in old(entries) && (prefix <= k ==> k in doomed)
        invariant forall k | k in entries :: entries[k] == old(entries)[k]
        decreases |doomed|
      {
        var k :| k in doomed;
        entries := entries - {k};
        doomed := doomed - {k};
      }
    }

    method Clear()
      modifies this
      ensures entries == map[]
    {
      entries := map[];
    }

    /** `exists(key)`: agrees with `get`, and evicts an expired entry the same way. */
    method Exists(key: string, now: int) returns (b: bool)
      modifies this
      ensures b <==> Lookup(old(entries), key, now).Some?
      ensures entries == Touch(old(entries), key, now)
    {
      if key !in entries {
        return false;
      }
      if IsExpired(entries[key], now) {
        entries := entries - {key};
        return false;
      }
      b := true;
    }

    /** `keys(prefix)`: sweeps the expired entries first, then lists the live keys with the prefix. */
    method Keys(prefix: string, now: int) returns (ks: set<string>)
      modifies this
      ensures entries == Unexpired(old(entries), now)
      ensures ks == KeysWithPrefix(entries, prefix)
    {
      CleanExpired(now);
      ks := set k | k in entries && prefix <= k;
    }

    method Close()
      modifies this
      ensures entries == map[]
    {
      entries := map[];
    }

    /** `cleanExpired`: the `removeIf` sweep over every entry. */
    method CleanExpired(now: int)
      modifies this
      ensures entries == Unexpired(old(entries), now)
    {
      var pending := entries.Keys;
      while pending != {}
        invariant pending <= old(entries).Keys
        invariant forall k :: k in entries <==> k in old(entries) && (k in pending || !IsExpired(old(entries)[k], now))
        invariant forall k | k in entries :: entries[k] == old(entries)[k]
        decreases |pending|
      {
        var k :| k in pending;
        if IsExpired(entries[k], now) {
          entries := entries - {k};
        }
        pending := pending - {k};
      }
    }

    /** `stats()`: the number of stored entries, expired ones included. */
    method Stats() returns (size: nat)
      ensures size == |entries|
    {
      size := |entries|;
    }
  }

  // ---------------------------------------------------------------------------
  // Properties relating several operations.

  /** After `set(k, v, ttl)` at `now`, `get(k)` at `later` answers `v` until `now + ttl`, and for ever when ttl <= 0. */
  lemma SetThenLookup(m: Entries, key: string, v: CacheValue, ttlMs: int, now: int, later: int)
    requires now >= 0
    ensures Lookup(m[key := CacheEntry(v, ExpireAt(now, ttlMs))], key, later)
         == if ttlMs > 0 && later > now + ttlMs then None else Some(v)
  {
  }

  /** A `set` after a `get` of the same key yields the same map whether or not the get evicted. */
  lemma TouchThenSet(m: Entries, key: string, e: CacheEntry, now: int)
    ensures Touch(m, key, now)[key := e] == m[key := e]
  {
  }

  /** A `delete` after a `get` of the same key yields the same map whether or not the get evicted. */
  lemma TouchThenDelete(m: Entries, key: string, now: int)
    ensures Touch(m, key, now) - {key} == m - {key}
  {
  }

  /** Setting one key leaves what every other key answers unchanged. */
  lemma SetLeavesOthers(m: Entries, key: string, e: CacheEntry, other: string, now: int)
    requires other != key
    ensures Lookup(m[key := e], other, now) == Lookup(m, other, now)
  {
  }

  /** Lazy eviction and the sweep are invisible: no later query answers differently. */
  lemma EvictionInvisible(m: Entries, key: string, k: string, now: int, later: int)
    requires now <= later
    ensures Lookup(Touch(m, key, now), k, later) == Lookup(m, k, later)
    ensures Lookup(Unexpired(m, now), k, later) == Lookup(m, k, later)
  {
  }

  /** After `deleteByPrefix(p)` no key with prefix p answers, and every other key answers as before. */
  lemma DeleteByPrefixLookup(m: Entries, prefix: string, k: string, now: int)
    ensures Lookup(WithoutPrefix(m, prefix), k, now) == if prefix <= k then None else Lookup(m, k, now)
  {
  }

  /** One more `set` extends a run of `set`s by one pair. */
  lemma SetAllStep(m: Entries, kvs: seq<(string, CacheValue)>, e: int, i: nat)
    requires i < |kvs|
    ensures SetAll(m, kvs[..i + 1], e) == SetAll(m, kvs[..i], e)[kvs[i].0 := CacheEntry(kvs[i].1, e)]
  {
    assert kvs[..i + 1][..i] == kvs[..i];
  }

  /** With distinct keys, every pair written by a run of `set`s is what its key then holds. */
  lemma {:induction false} SetAllHit(m: Entries, kvs: seq<(string, CacheValue)>, e: int, i: nat)
    requires forall a, b | 0 <= a < b < |kvs| :: kvs[a].0 != kvs[b].0
    requires i < |kvs|
    ensures kvs[i].0 in SetAll(m, kvs, e)
    ensures SetAll(m, kvs, e)[kvs[i].0] == CacheEntry(kvs[i].1, e)
    decreases |kvs|
  {
    if i < |kvs| - 1 {
      var init := kvs[..|kvs| - 1];
      assert init[i] == kvs[i];
      SetAllHit(m, init, e, i);
    }
  }

  /** A key no pair names is left as it was by a run of `set`s. */
  lemma {:induction false} SetAllOther(m: Entries, kvs: seq<(string, CacheValue)>, e: int, k: string)
    requires forall i | 0 <= i < |kvs| :: kvs[i].0 != k
    ensures k in SetAll(m, kvs, e) <==> k in m
    ensures k in m ==> SetAll(m, kvs, e)[k] == m[k]
    decreases |kvs|
  {
    if kvs != [] {
      var init := kvs[..|kvs| - 1];
      assert forall i | 0 <= i < |init| :: init[i] == kvs[i];
      SetAllOther(m, init, e, k);
    }
  }
}
