/** Cache-wide operations: clearing a player's entries, clearing everything, and per-family key counts. */
module CacheService {
  import opened Text
  import opened Records
  import opened MemoryCacheProvider
  import QuotaCache
  import WorkspaceCache
  import VaultCache
  import ItemCache
  import AutoPickupCache

  /** The statistics map for a swept cache: the number of keys under each family prefix. */
  function Stats(m: Entries): map<string, nat>
  {
    map["quota" := |KeysWithPrefix(m, "quota")|,
        "workspace" := |KeysWithPrefix(m, "workspace")|,
        "vault" := |KeysWithPrefix(m, "vault")|,
        "autopickup" := |KeysWithPrefix(m, "autopickup")|,
        "items" := |KeysWithPrefix(m, "items")|]
  }

  /** `clearPlayerCache`: only the player's quota and joined-workspace list go. */
  method ClearPlayerCache(c: MemoryCache, uuid: Uuid)
    modifies c
    ensures c.entries == old(c.entries) - {QuotaCache.Key(uuid)} - {WorkspaceCache.PlayerKey(uuid)}
  {
    QuotaCache.Invalidate(c, uuid);
    WorkspaceCache.InvalidatePlayerWorkspaces(c, uuid);
  }

  method ClearAllCache(c: MemoryCache)
    modifies c
    ensures c.entries == map[]
  {
    c.Clear();
  }

  /** `getCacheStats`: each `keys(prefix)` call sweeps expired entries first. */
  method GetCacheStats(c: MemoryCache, now: int) returns (stats: map<string, nat>)
    modifies c
    ensures c.entries == Unexpired(old(c.entries), now)
    ensures stats == Stats(c.entries)
  {
    var quota := c.Keys("quota", now);
    var workspace := c.Keys("workspace", now);
    var vault := c.Keys("vault", now);
    var autopickup := c.Keys("autopickup", now);
    var items := c.Keys("items", now);
    UnexpiredIdempotent(old(c.entries), now);
    stats := map["quota" := |quota|, "workspace" := |workspace|, "vault" := |vault|,
                 "autopickup" := |autopickup|, "items" := |items|];
  }

  /** A second sweep at the same time removes nothing. */
  lemma UnexpiredIdempotent(m: Entries, now: int)
    ensures Unexpired(Unexpired(m, now), now) == Unexpired(m, now)
  {
  }

  /**
   * Counting is by prefix: the index key `vault:workspace:<id>` counts as a
   * vault key and `items:all:<v>:<o>` as an item key, alongside the entity keys.
   */
  lemma VaultFamilyCounted(id: int, workspaceId: int)
    ensures "vault" <= VaultCache.Key(id) && "vault" <= VaultCache.WorkspaceKey(workspaceId)
  {
    assert VaultCache.Key(id)[..5] == "vault";
    assert VaultCache.WorkspaceKey(workspaceId)[..5] == "vault";
  }

  lemma ItemFamilyCounted(vaultId: int, page: int, owner: Wrappers.Option<Uuid>)
    ensures "items" <= ItemCache.PageKey(vaultId, page, owner) && "items" <= ItemCache.AllKey(vaultId, owner)
  {
    assert ItemCache.PageKey(vaultId, page, owner)[..5] == "items";
    assert ItemCache.AllKey(vaultId, owner)[..5] == "items";
  }

  /** The joined-workspace index and the independent entry count as workspace keys; quota and rule keys under their own families. */
  lemma OtherFamiliesCounted(uuid: Uuid, id: int)
    ensures "quota" <= QuotaCache.Key(uuid)
    ensures "workspace" <= WorkspaceCache.Key(id) && "workspace" <= WorkspaceCache.PlayerKey(uuid)
    ensures "workspace" <= WorkspaceCache.IndependentKey
    ensures "autopickup" <= AutoPickupCache.Key(id)
  {
    assert QuotaCache.Key(uuid)[..5] == "quota";
    assert WorkspaceCache.Key(id)[..9] == "workspace";
    assert WorkspaceCache.PlayerKey(uuid)[..9] == "workspace";
    assert AutoPickupCache.Key(id)[..10] == "autopickup";
  }
}
