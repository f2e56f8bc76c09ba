/**
 * The quota cache: `quota:<uuid>` holds a player's quota row. `get` reads
 * through to the quota table and, for a player with no row, inserts the
 * default row first.
 */
module QuotaCache {
  import opened Wrappers
  import opened Records
  import opened MemoryCacheProvider
  import opened RowStore
  import opened PluginConfig

  function Key(uuid: Uuid): string
  {
    "quota:" + uuid
  }

  /** The quota a live `quota:<uuid>` entry holds, if any. */
  function Cached(m: Entries, uuid: Uuid, now: int): Option<Quota>
  {
    match Lookup(m, Key(uuid), now)
    case Some(QuotaValue(q)) => Some(q)
    case _ => None
  }

  /** The quota `loadFromDb` builds for a player without a row (its id is reported as 0). */
  function DefaultQuota(uuid: Uuid, cfg: Config): Quota
  {
    Quota(0, uuid, cfg.defaultWorkspaceQuota, 0, cfg.defaultSizeQuota, 0, cfg.defaultUnlimited)
  }

  /** What `loadFromDb` answers over the quota rows. */
  function Load(rows: map<Uuid, Quota>, uuid: Uuid, cfg: Config): (q: Quota)
    ensures uuid in rows ==> q == rows[uuid]
    ensures uuid !in rows ==> q.workspaceUsed == 0 && q.sizeUsed == 0
    ensures uuid !in rows ==> q.workspaceQuotas == cfg.defaultWorkspaceQuota && q.sizeQuotas == cfg.defaultSizeQuota
    ensures uuid !in rows ==> q.unlimited == cfg.defaultUnlimited && q.player == uuid
  {
    if uuid in rows then rows[uuid] else DefaultQuota(uuid, cfg)
  }

  /** What `get` answers: the cached quota on a hit, the loaded one on a miss. */
  function Read(m: Entries, rows: map<Uuid, Quota>, uuid: Uuid, now: int, cfg: Config): Quota
  {
    match Cached(m, uuid, now)
    case Some(q) => q
    case None => Load(rows, uuid, cfg)
  }

  /** `get`: a hit changes nothing; a miss caches the loaded quota, inserting the default row if there was none. */
  method Get(c: MemoryCache, t: QuotaTable, uuid: Uuid, now: int, cfg: Config) returns (q: Quota)
    requires t.Valid()
    modifies c, t
    ensures t.Valid()
    ensures q == Read(old(c.entries), old(t.rows), uuid, now, cfg)
    ensures Cached(old(c.entries), uuid, now).Some? ==>
      c.entries == old(c.entries) && t.rows == old(t.rows) && t.nextId == old(t.nextId)
    ensures Cached(old(c.entries), uuid, now).None? ==>
      c.entries == old(c.entries)[Key(uuid) := CacheEntry(QuotaValue(q), ExpireAt(now, cfg.ttlMs))]
    ensures Cached(old(c.entries), uuid, now).None? && uuid in old(t.rows) ==>
      t.rows == old(t.rows) && t.nextId == old(t.nextId)
    ensures Cached(old(c.entries), uuid, now).None? && uuid !in old(t.rows) ==>
      t.rows == old(t.rows)[uuid := DefaultQuota(uuid, cfg).(id := old(t.nextId))] && t.nextId == old(t.nextId) + 1
    ensures c.entries == EntriesAfterGet(old(c.entries), old(t.rows), uuid, now, cfg)
    ensures t.rows == RowsAfterGet(old(c.entries), old(t.rows), old(t.nextId), uuid, now, cfg)
    ensures t.nextId == NextAfterGet(old(c.entries), old(t.rows), old(t.nextId), uuid, now)
  {
    var key := Key(uuid);
    var cached := c.Get(key, now);
    if cached.Some? && cached.value.QuotaValue? {
      return cached.value.quota;
    }
    q := LoadFromDb(t, uuid, cfg);
    c.Set(key, QuotaValue(q), cfg.ttlMs, now);
  }

  /** `loadFromDb`: the stored row, or a freshly inserted default row. */
  method LoadFromDb(t: QuotaTable, uuid: Uuid, cfg: Config) returns (q: Quota)
    requires t.Valid()
    modifies t
    ensures t.Valid()
    ensures q == Load(old(t.rows), uuid, cfg)
    ensures uuid in old(t.rows) ==> t.rows == old(t.rows) && t.nextId == old(t.nextId)
    ensures uuid !in old(t.rows) ==>
      t.rows == old(t.rows)[uuid := DefaultQuota(uuid, cfg).(id := old(t.nextId))] && t.nextId == old(t.nextId) + 1
  {
    if uuid in t.rows {
      return t.rows[uuid];
    }
    q := DefaultQuota(uuid, cfg);
    t.Insert(q);
  }

  method Update(c: MemoryCache, uuid: Uuid, q: Quota, now: int, cfg: Config)
    modifies c
    ensures c.entries == old(c.entries)[Key(uuid) := CacheEntry(QuotaValue(q), ExpireAt(now, cfg.ttlMs))]
  {
    c.Set(Key(uuid), QuotaValue(q), cfg.ttlMs, now);
  }

  method Invalidate(c: MemoryCache, uuid: Uuid)
    modifies c
    ensures c.entries == old(c.entries) - {Key(uuid)}
  {
    c.Delete(Key(uuid));
  }

  /** The quota rows after `get`: a miss for a player without a row inserts the default row. */
  function RowsAfterGet(m: Entries, rows: map<Uuid, Quota>, nextId: int, uuid: Uuid, now: int, cfg: Config): map<Uuid, Quota>
  {
    if Cached(m, uuid, now).None? && uuid !in rows then rows[uuid := DefaultQuota(uuid, cfg).(id := nextId)] else rows
  }

  function NextAfterGet(m: Entries, rows: map<Uuid, Quota>, nextId: int, uuid: Uuid, now: int): int
  {
    if Cached(m, uuid, now).None? && uuid !in rows then nextId + 1 else nextId
  }

  /** The cache after `get`: a miss stores the loaded quota. */
  function EntriesAfterGet(m: Entries, rows: map<Uuid, Quota>, uuid: Uuid, now: int, cfg: Config): Entries
  {
    if Cached(m, uuid, now).Some? then m
    else m[Key(uuid) := CacheEntry(QuotaValue(Load(rows, uuid, cfg)), ExpireAt(now, cfg.ttlMs))]
  }

  /** Two quotas that agree on every column but the id (a freshly created default is reported with id 0). */
  predicate SameColumns(a: Quota, b: Quota)
  {
    a.(id := 0) == b.(id := 0)
  }

  /**
   * The cache is coherent with the table for `uuid` when a live cached
   * quota has a row that agrees with it.
   */
  predicate Coherent(m: Entries, rows: map<Uuid, Quota>, uuid: Uuid, now: int)
  {
    Cached(m, uuid, now).Some? ==> uuid in rows && SameColumns(rows[uuid], Cached(m, uuid, now).value)
  }

  /** From a coherent state, `get` leaves a row for the player that agrees with what it returned and cached. */
  lemma GetKeepsCoherent(m: Entries, rows: map<Uuid, Quota>, nextId: int, uuid: Uuid, now: int, cfg: Config)
    requires Coherent(m, rows, uuid, now)
    ensures uuid in RowsAfterGet(m, rows, nextId, uuid, now, cfg)
    ensures SameColumns(RowsAfterGet(m, rows, nextId, uuid, now, cfg)[uuid], Read(m, rows, uuid, now, cfg))
    ensures Coherent(EntriesAfterGet(m, rows, uuid, now, cfg), RowsAfterGet(m, rows, nextId, uuid, now, cfg), uuid, now)
  {
    var e := ExpireAt(now, cfg.ttlMs);
    if Cached(m, uuid, now).None? {
      assert Lookup(EntriesAfterGet(m, rows, uuid, now, cfg), Key(uuid), now) == Some(QuotaValue(Load(rows, uuid, cfg))) by {
        assert !IsExpired(CacheEntry(QuotaValue(Load(rows, uuid, cfg)), e), now);
      }
    }
  }

  /** Right after `get`, at the same instant, the player's quota is a live hit holding what `get` answered. */
  lemma GetThenHit(m: Entries, rows: map<Uuid, Quota>, uuid: Uuid, now: int, cfg: Config)
    ensures Cached(EntriesAfterGet(m, rows, uuid, now, cfg), uuid, now) == Some(Read(m, rows, uuid, now, cfg))
  {
    if Cached(m, uuid, now).None? {
      assert !IsExpired(CacheEntry(QuotaValue(Load(rows, uuid, cfg)), ExpireAt(now, cfg.ttlMs)), now);
    }
  }

  /** After `update(u, q)` (or a miss of `get`), `get(u)` at the same instant answers `q`. */
  lemma UpdateThenRead(m: Entries, rows: map<Uuid, Quota>, uuid: Uuid, q: Quota, now: int, cfg: Config)
    ensures Read(m[Key(uuid) := CacheEntry(QuotaValue(q), ExpireAt(now, cfg.ttlMs))], rows, uuid, now, cfg) == q
  {
  }

  /** Each player has a key of their own. */
  lemma KeyInjective(a: Uuid, b: Uuid)
    requires Key(a) == Key(b)
    ensures a == b
  {
    assert a == Key(a)[6..] && b == Key(b)[6..];
  }
}
