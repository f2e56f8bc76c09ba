/**
 * The vault cache. Keys: `vault:<id>` for one vault and
 * `vault:workspace:<workspaceId>` for the list of a workspace's vaults.
 */
module VaultCache {
  import opened Wrappers
  import opened Text
  import opened Records
  import opened MemoryCacheProvider
  import opened RowStore
  import opened PluginConfig

  function Key(id: int): string
  {
    "vault:" + IntToString(id)
  }

  function WorkspaceKey(workspaceId: int): string
  {
    "vault:workspace:" + IntToString(workspaceId)
  }

  function CachedVault(m: Entries, key: string, now: int): Option<Vault>
  {
    match Lookup(m, key, now)
    case Some(VaultValue(v)) => Some(v)
    case _ => None
  }

  function CachedList(m: Entries, key: string, now: int): Option<seq<Vault>>
  {
    match Lookup(m, key, now)
    case Some(VaultList(vs)) => Some(vs)
    case _ => None
  }

  /** `select where id = id`. */
  function LoadById(rows: map<int, Vault>, id: int): Option<Vault>
  {
    if id in rows then Some(rows[id]) else None
  }

  /** `select where workspace_id = workspace.id`. */
  function LoadByWorkspace(rows: map<int, Vault>, n: nat, workspaceId: int): seq<Vault>
  {
    Rows(rows, n, (v: Vault) => v.workspaceId == workspaceId)
  }

  /** The writes `forEach { set("vault:<id>", it) }` performs over `vs`, in order. */
  function IdEntries(vs: seq<Vault>): (r: seq<(string, CacheValue)>)
    ensures |r| == |vs|
    ensures forall i | 0 <= i < |vs| :: r[i] == (Key(vs[i].id), VaultValue(vs[i]))
  {
    seq(|vs|, i requires 0 <= i < |vs| => (Key(vs[i].id), VaultValue(vs[i])))
  }

  /** What `getByWorkspace` answers: the cached list, or on a miss the store's. */
  function ServedByWorkspace(m: Entries, rows: map<int, Vault>, n: nat, workspaceId: int, now: int): seq<Vault>
  {
    match CachedList(m, WorkspaceKey(workspaceId), now)
    case Some(vs) => vs
    case None => LoadByWorkspace(rows, n, workspaceId)
  }

  /** The cache after `getByWorkspace`: unchanged on a hit; on a miss the list and each of its vaults are set. */
  function EntriesAfterGetByWorkspace(m: Entries, rows: map<int, Vault>, n: nat, workspaceId: int, now: int,
                                      ttlMs: int): Entries
  {
    if CachedList(m, WorkspaceKey(workspaceId), now).Some? then m
    else
      var vs := LoadByWorkspace(rows, n, workspaceId);
      SetAll(m[WorkspaceKey(workspaceId) := CacheEntry(VaultList(vs), ExpireAt(now, ttlMs))], IdEntries(vs),
             ExpireAt(now, ttlMs))
  }

  method GetById(c: MemoryCache, t: VaultTable, id: int, now: int, cfg: Config) returns (r: Option<Vault>)
    modifies c
    ensures CachedVault(old(c.entries), Key(id), now).Some? ==>
      r == CachedVault(old(c.entries), Key(id), now) && c.entries == old(c.entries)
    ensures CachedVault(old(c.entries), Key(id), now).None? ==>
      r == LoadById(t.rows, id)
      && c.entries == if r.Some? then old(c.entries)[Key(id) := CacheEntry(VaultValue(r.value), ExpireAt(now, cfg.ttlMs))]
                      else Touch(old(c.entries), Key(id), now)
  {
    var key := Key(id);
    var cached := c.Get(key, now);
    if cached.Some? && cached.value.VaultValue? {
      return Some(cached.value.vault);
    }
    r := LoadById(t.rows, id);
    if r.None? {
      return None;
    }
    c.Set(key, VaultValue(r.value), cfg.ttlMs, now);
  }

  method GetByWorkspace(c: MemoryCache, t: VaultTable, workspaceId: int, now: int, cfg: Config) returns (vs: seq<Vault>)
    modifies c
    ensures CachedList(old(c.entries), WorkspaceKey(workspaceId), now).Some? ==>
      vs == CachedList(old(c.entries), WorkspaceKey(workspaceId), now).value && c.entries == old(c.entries)
    ensures CachedList(old(c.entries), WorkspaceKey(workspaceId), now).None? ==>
      vs == LoadByWorkspace(t.rows, t.nextId, workspaceId)
      && c.entries == SetAll(old(c.entries)[WorkspaceKey(workspaceId) := CacheEntry(VaultList(vs), ExpireAt(now, cfg.ttlMs))],
                             IdEntries(vs), ExpireAt(now, cfg.ttlMs))
  {
    var key := WorkspaceKey(workspaceId);
    var cached := c.Get(key, now);
    if cached.Some? && cached.value.VaultList? {
      return cached.value.vaults;
    }
    vs := LoadByWorkspace(t.rows, t.nextId, workspaceId);
    c.Set(key, VaultList(vs), cfg.ttlMs, now);
    TouchThenSet(old(c.entries), key, CacheEntry(VaultList(vs), ExpireAt(now, cfg.ttlMs)), now);
    ghost var base := c.entries;
    ghost var kvs := IdEntries(vs);
    var i := 0;
    while i < |vs|
      invariant 0 <= i <= |vs|
      invariant c.entries == SetAll(base, kvs[..i], ExpireAt(now, cfg.ttlMs))
    {
      c.Set(Key(vs[i].id), VaultValue(vs[i]), cfg.ttlMs, now);
      SetAllStep(base, kvs, ExpireAt(now, cfg.ttlMs), i);
      i := i + 1;
    }
    assert kvs[..|vs|] == kvs;
  }

  /** `update`: overwrite the vault entry and drop its workspace's vault list. */
  method Update(c: MemoryCache, v: Vault, now: int, cfg: Config)
    modifies c
    ensures c.entries == old(c.entries)[Key(v.id) := CacheEntry(VaultValue(v), ExpireAt(now, cfg.ttlMs))]
                         - {WorkspaceKey(v.workspaceId)}
  {
    c.Set(Key(v.id), VaultValue(v), cfg.ttlMs, now);
    c.Delete(WorkspaceKey(v.workspaceId));
  }

  /**
   * `invalidate`: drop the vault entry and, when the vault was cached, the
   * list of the workspace it belonged to.
   */
  method Invalidate(c: MemoryCache, vaultId: int, now: int)
    modifies c
    ensures c.entries == match CachedVault(old(c.entries), Key(vaultId), now)
                         case Some(v) => old(c.entries) - {Key(vaultId)} - {WorkspaceKey(v.workspaceId)}
                         case None => old(c.entries) - {Key(vaultId)}
  {
    var cached := c.Get(Key(vaultId), now);
    c.Delete(Key(vaultId));
    TouchThenDelete(old(c.entries), Key(vaultId), now);
    if cached.Some? && cached.value.VaultValue? {
      c.Delete(WorkspaceKey(cached.value.vault.workspaceId));
    }
  }

  method InvalidateWorkspaceVaults(c: MemoryCache, workspaceId: int)
    modifies c
    ensures c.entries == old(c.entries) - {WorkspaceKey(workspaceId)}
  {
    c.Delete(WorkspaceKey(workspaceId));
  }

  // ---------------------------------------------------------------------------
  // Key scheme and what the operations leave behind.

  lemma KeyInjective(a: int, b: int)
    requires Key(a) == Key(b)
    ensures a == b
  {
    assert IntToString(a) == Key(a)[6..] && IntToString(b) == Key(b)[6..];
    IntToStringInjective(a, b);
  }

  lemma WorkspaceKeyInjective(a: int, b: int)
    requires WorkspaceKey(a) == WorkspaceKey(b)
    ensures a == b
  {
    assert IntToString(a) == WorkspaceKey(a)[16..] && IntToString(b) == WorkspaceKey(b)[16..];
    IntToStringInjective(a, b);
  }

  /** A vault key is never a workspace-list key. */
  lemma KeysDistinct(id: int, workspaceId: int)
    ensures Key(id) != WorkspaceKey(workspaceId)
  {
    assert Key(id)[6] == IntToString(id)[0];
    assert WorkspaceKey(workspaceId)[6] == 'w';
  }

  /**
   * A miss of `getByWorkspace` leaves the list under the workspace key and every
   * listed vault under its own key; all listed vaults belong to the workspace.
   */
  lemma WorkspaceMissCachesEach(t: map<int, Vault>, n: nat, workspaceId: int, m: Entries, e: int)
    requires forall k | k in t :: t[k].id == k
    ensures var vs := LoadByWorkspace(t, n, workspaceId);
            var after := SetAll(m[WorkspaceKey(workspaceId) := CacheEntry(VaultList(vs), e)], IdEntries(vs), e);
            WorkspaceKey(workspaceId) in after && after[WorkspaceKey(workspaceId)] == CacheEntry(VaultList(vs), e)
            && forall i | 0 <= i < |vs| :: vs[i].workspaceId == workspaceId
                                          && Key(vs[i].id) in after && after[Key(vs[i].id)] == CacheEntry(VaultValue(vs[i]), e)
  {
    var vs := LoadByWorkspace(t, n, workspaceId);
    var kvs := IdEntries(vs);
    RowsIncreasing(t, n, (v: Vault) => v.workspaceId == workspaceId, (v: Vault) => v.id);
    var base := m[WorkspaceKey(workspaceId) := CacheEntry(VaultList(vs), e)];
    forall i | 0 <= i < |kvs| ensures kvs[i].0 != WorkspaceKey(workspaceId) {
      KeysDistinct(vs[i].id, workspaceId);
    }
    SetAllOther(base, kvs, e, WorkspaceKey(workspaceId));
    forall a, b | 0 <= a < b < |kvs| ensures kvs[a].0 != kvs[b].0 {
      if kvs[a].0 == kvs[b].0 {
        KeyInjective(vs[a].id, vs[b].id);
      }
    }
    forall i | 0 <= i < |vs|
      ensures vs[i].workspaceId == workspaceId
      ensures Key(vs[i].id) in SetAll(base, kvs, e) && SetAll(base, kvs, e)[Key(vs[i].id)] == CacheEntry(VaultValue(vs[i]), e)
    {
      assert vs[i] in vs;
      SetAllHit(base, kvs, e, i);
    }
  }

  /**
   * After `update(v)` a read of the vault finds `v` (within the time to live)
   * and its workspace's list is gone, so the next listing reloads it.
   */
  lemma UpdateThenRead(m: Entries, v: Vault, now: int, later: int, ttlMs: int)
    requires 0 <= now <= later
    requires ttlMs <= 0 || later <= now + ttlMs
    ensures var after := m[Key(v.id) := CacheEntry(VaultValue(v), ExpireAt(now, ttlMs))] - {WorkspaceKey(v.workspaceId)};
            CachedVault(after, Key(v.id), later) == Some(v)
            && CachedList(after, WorkspaceKey(v.workspaceId), later) == None
  {
    KeysDistinct(v.id, v.workspaceId);
  }

  /** After `invalidate(id)` the vault is no longer cached, and neither is its workspace's list if the vault was. */
  lemma InvalidateForgets(m: Entries, vaultId: int, now: int)
    ensures var after := match CachedVault(m, Key(vaultId), now)
                         case Some(v) => m - {Key(vaultId)} - {WorkspaceKey(v.workspaceId)}
                         case None => m - {Key(vaultId)};
            Lookup(after, Key(vaultId), now) == None
            && (CachedVault(m, Key(vaultId), now).Some? ==>
                  Lookup(after, WorkspaceKey(CachedVault(m, Key(vaultId), now).value.workspaceId), now) == None)
  {
  }
}
