/**
 * Per-vault, per-owner setting values: read through the setting cache,
 * written with an upsert that refreshes the cache, deleted with an
 * invalidation, and edited through a loaded record, which does not touch
 * the cache.
 */
module Settings {
  import opened Wrappers
  import opened Records
  import opened MemoryCacheProvider
  import opened RowStore
  import opened PluginConfig
  import SettingCache

  /** What `get` answers: the cached value, or on a miss the first stored row's value. */
  function Served(m: Entries, rows: map<int, Setting>, n: nat, vaultId: int, setting: string, owner: Uuid,
                  now: int): Option<string>
  {
    match SettingCache.CachedValue(m, SettingCache.Key(vaultId, setting, owner), now)
    case Some(x) => Some(x)
    case None => SettingCache.Load(rows, n, vaultId, setting, owner)
  }

  /**
   * The cache after `get`: untouched on a hit; on a miss the loaded value is
   * stored, and when nothing is loaded only an expired entry at the key goes.
   */
  function EntriesAfterGet(m: Entries, rows: map<int, Setting>, n: nat, vaultId: int, setting: string, owner: Uuid,
                           now: int, cfg: Config): Entries
  {
    var key := SettingCache.Key(vaultId, setting, owner);
    if SettingCache.CachedValue(m, key, now).Some? then m
    else match SettingCache.Load(rows, n, vaultId, setting, owner)
      case Some(v) => m[key := CacheEntry(TextValue(v), ExpireAt(now, cfg.ttlMs))]
      case None => Touch(m, key, now)
  }

  method Get(c: MemoryCache, t: SettingTable, vaultId: int, setting: string, owner: Uuid, now: int, cfg: Config)
    returns (r: Option<string>)
    modifies c
    ensures r == Served(old(c.entries), t.rows, t.nextId, vaultId, setting, owner, now)
    ensures c.entries == EntriesAfterGet(old(c.entries), t.rows, t.nextId, vaultId, setting, owner, now, cfg)
  {
    r := SettingCache.Get(c, t, vaultId, setting, owner, now, cfg);
  }

  /** `getOrDefault`: the default exactly when no value is served. */
  method GetOrDefault(c: MemoryCache, t: SettingTable, vaultId: int, setting: string, owner: Uuid, default: string,
                      now: int, cfg: Config)
    returns (r: string)
    modifies c
    ensures Served(old(c.entries), t.rows, t.nextId, vaultId, setting, owner, now).None? ==> r == default
    ensures Served(old(c.entries), t.rows, t.nextId, vaultId, setting, owner, now).Some? ==>
              r == Served(old(c.entries), t.rows, t.nextId, vaultId, setting, owner, now).value
    ensures c.entries == EntriesAfterGet(old(c.entries), t.rows, t.nextId, vaultId, setting, owner, now, cfg)
  {
    var v := Get(c, t, vaultId, setting, owner, now, cfg);
    r := if v.Some? then v.value else default;
  }

  /** The id `set` finds: the first stored row for the key. */
  function Existing(rows: map<int, Setting>, n: nat, vaultId: int, setting: string, owner: Uuid): Option<int>
  {
    match FirstRow(rows, n, SettingCache.Selects(vaultId, setting, owner))
    case Some(s) => Some(s.id)
    case None => None
  }

  function HasId(id: int): Setting -> bool
  {
    (s: Setting) => s.id == id
  }

  /** The table after `set`: the existing row rewritten, or a new row. */
  function RowsAfterSet(rows: map<int, Setting>, n: nat, vaultId: int, setting: string, value: string, owner: Uuid,
                        now: int): map<int, Setting>
  {
    match Existing(rows, n, vaultId, setting, owner)
    case Some(id) => Rewritten(rows, HasId(id), value, now)
    case None => rows[n := Setting(n, setting, value, vaultId, owner, now, now)]
  }

  function NextAfterSet(rows: map<int, Setting>, n: nat, vaultId: int, setting: string, owner: Uuid): nat
  {
    if Existing(rows, n, vaultId, setting, owner).Some? then n else n + 1
  }

  function EntriesAfterWrite(m: Entries, vaultId: int, setting: string, value: string, owner: Uuid, now: int,
                             cfg: Config): Entries
  {
    m[SettingCache.Key(vaultId, setting, owner) := CacheEntry(TextValue(value), ExpireAt(now, cfg.ttlMs))]
  }

  /** `create`: a new row, and the cache set to the value. */
  method Create(c: MemoryCache, t: SettingTable, vaultId: int, setting: string, value: string, owner: Uuid,
                now: int, cfg: Config)
    requires t.Valid()
    modifies c, t
    ensures t.Valid() && t.nextId == old(t.nextId) + 1
    ensures t.rows == old(t.rows)[old(t.nextId) := Setting(old(t.nextId), setting, value, vaultId, owner, now, now)]
    ensures c.entries == EntriesAfterWrite(old(c.entries), vaultId, setting, value, owner, now, cfg)
  {
    var _ := t.Insert(Setting(0, setting, value, vaultId, owner, now, now));
    SettingCache.Set(c, vaultId, setting, owner, value, now, cfg);
  }

  /** `set`: update the first row for the key if there is one, else create one; then refresh the cache. */
  method Set(c: MemoryCache, t: SettingTable, vaultId: int, setting: string, value: string, owner: Uuid,
             now: int, cfg: Config)
    requires t.Valid()
    modifies c, t
    ensures t.Valid()
    ensures t.rows == RowsAfterSet(old(t.rows), old(t.nextId), vaultId, setting, value, owner, now)
    ensures t.nextId == NextAfterSet(old(t.rows), old(t.nextId), vaultId, setting, owner)
    ensures c.entries == EntriesAfterWrite(old(c.entries), vaultId, setting, value, owner, now, cfg)
  {
    var existing := Existing(t.rows, t.nextId, vaultId, setting, owner);
    if existing.Some? {
      t.SetValueWhere(HasId(existing.value), value, now);
    } else {
      Create(c, t, vaultId, setting, value, owner, now, cfg);
    }
    SettingCache.Set(c, vaultId, setting, owner, value, now, cfg);
  }

  /** `delete`: every row for the key goes, and that one cache key. */
  method Delete(c: MemoryCache, t: SettingTable, vaultId: int, setting: string, owner: Uuid)
    requires t.Valid()
    modifies c, t
    ensures t.Valid() && t.nextId == old(t.nextId)
    ensures t.rows == DeleteWhere(old(t.rows), SettingCache.Selects(vaultId, setting, owner))
    ensures c.entries == old(c.entries) - {SettingCache.Key(vaultId, setting, owner)}
  {
    t.DeleteAll(SettingCache.Selects(vaultId, setting, owner));
    SettingCache.Invalidate(c, vaultId, setting, owner);
  }

  /** `updateValue` on a loaded record: the record and its row take the value; the cache is not told. */
  method UpdateValue(t: SettingTable, s: Setting, newValue: string, now: int) returns (s': Setting)
    requires t.Valid()
    modifies t
    ensures t.Valid() && t.nextId == old(t.nextId)
    ensures s' == s.(value := newValue, updatedAt := now)
    ensures t.rows == Rewritten(old(t.rows), HasId(s.id), newValue, now)
  {
    s' := s.(value := newValue, updatedAt := now);
    t.SetValueWhere(HasId(s.id), newValue, now);
  }

  // ---------------------------------------------------------------------------
  // Properties.

  /** No two rows of the table share (vault, setting, owner). */
  predicate OneRowPerKey(rows: map<int, Setting>)
  {
    forall j, k | j in rows && k in rows && j != k ::
      !(rows[j].vaultId == rows[k].vaultId && rows[j].setting == rows[k].setting && rows[j].owner == rows[k].owner)
  }

  /** After `set`, `get` answers the value for as long as the entry lives. */
  lemma SetThenGet(m: Entries, rows: map<int, Setting>, n: nat, rows': map<int, Setting>, n': nat,
                   vaultId: int, setting: string, value: string, owner: Uuid, now: int, later: int, cfg: Config)
    requires now >= 0 && now <= later && (cfg.ttlMs <= 0 || later <= now + cfg.ttlMs)
    ensures Served(EntriesAfterWrite(m, vaultId, setting, value, owner, now, cfg), rows', n',
                   vaultId, setting, owner, later) == Some(value)
  {
    SetThenLookup(m, SettingCache.Key(vaultId, setting, owner), TextValue(value), cfg.ttlMs, now, later);
  }

  /**
   * `set` never adds a second row for a key, and afterwards the store itself
   * holds the value, so a later miss loads what the cache held.
   */
  lemma SetKeepsOneRow(rows: map<int, Setting>, n: nat, vaultId: int, setting: string, value: string, owner: Uuid,
                       now: int)
    requires forall k | k in rows :: 0 <= k < n && rows[k].id == k
    requires OneRowPerKey(rows)
    ensures var rows' := RowsAfterSet(rows, n, vaultId, setting, value, owner, now);
            var n' := NextAfterSet(rows, n, vaultId, setting, owner);
            OneRowPerKey(rows')
            && (forall k | k in rows' :: 0 <= k < n' && rows'[k].id == k)
            && SettingCache.Load(rows', n', vaultId, setting, owner) == Some(value)
  {
    if Existing(rows, n, vaultId, setting, owner).Some? {
      UpdateKeepsOneRow(rows, n, vaultId, setting, value, owner, now);
    } else {
      InsertKeepsOneRow(rows, n, vaultId, setting, value, owner, now);
    }
  }

  /** The update branch of `set`: the existing row is the only one for the key, and it takes the value. */
  lemma UpdateKeepsOneRow(rows: map<int, Setting>, n: nat, vaultId: int, setting: string, value: string, owner: Uuid,
                          now: int)
    requires forall k | k in rows :: 0 <= k < n && rows[k].id == k
    requires OneRowPerKey(rows)
    requires Existing(rows, n, vaultId, setting, owner).Some?
    ensures var rows' := Rewritten(rows, HasId(Existing(rows, n, vaultId, setting, owner).value), value, now);
            OneRowPerKey(rows')
            && (forall k | k in rows' :: 0 <= k < n && rows'[k].id == k)
            && SettingCache.Load(rows', n, vaultId, setting, owner) == Some(value)
  {
    var p := SettingCache.Selects(vaultId, setting, owner);
    var id := Existing(rows, n, vaultId, setting, owner).value;
    var rows' := Rewritten(rows, HasId(id), value, now);
    var first := Rows(rows, n, p)[0];
    assert first in Rows(rows, n, p);
    RowsSound(rows, n, p, first);
    assert id in rows && rows[id] == first && p(first);
    assert id in rows' && p(rows'[id]) && rows'[id].value == value;
    RowsComplete(rows', n, p, id);
    var got := Rows(rows', n, p)[0];
    assert got in Rows(rows', n, p);
    RowsSound(rows', n, p, got);
    var k :| 0 <= k < n && k in rows' && rows'[k] == got;
    assert p(rows[k]);
    assert k == id;
  }

  /** The insert branch of `set`: no row had the key, so the new row is the only one. */
  lemma InsertKeepsOneRow(rows: map<int, Setting>, n: nat, vaultId: int, setting: string, value: string, owner: Uuid,
                          now: int)
    requires forall k | k in rows :: 0 <= k < n && rows[k].id == k
    requires OneRowPerKey(rows)
    requires Existing(rows, n, vaultId, setting, owner).None?
    ensures var rows' := rows[n := Setting(n, setting, value, vaultId, owner, now, now)];
            OneRowPerKey(rows')
            && (forall k | k in rows' :: 0 <= k < n + 1 && rows'[k].id == k)
            && SettingCache.Load(rows', n + 1, vaultId, setting, owner) == Some(value)
  {
    var p := SettingCache.Selects(vaultId, setting, owner);
    var rows' := rows[n := Setting(n, setting, value, vaultId, owner, now, now)];
    forall k | k in rows
      ensures !p(rows[k])
    {
      if p(rows[k]) {
        RowsComplete(rows, n, p, k);
      }
    }
    RowsBelow(rows', rows, n, p);
    assert Rows(rows', n + 1, p) == Rows(rows', n, p) + [rows'[n]];
  }

  /** `delete` leaves no row for the key and, with it, nothing `get` could load. */
  lemma DeleteForgets(m: Entries, rows: map<int, Setting>, n: nat, vaultId: int, setting: string, owner: Uuid,
                      now: int)
    ensures Served(m - {SettingCache.Key(vaultId, setting, owner)},
                   DeleteWhere(rows, SettingCache.Selects(vaultId, setting, owner)), n, vaultId, setting, owner, now)
            == None
  {
    var p := SettingCache.Selects(vaultId, setting, owner);
    var d := DeleteWhere(rows, p);
    if Rows(d, n, p) != [] {
      var x := Rows(d, n, p)[0];
      assert x in Rows(d, n, p);
      RowsSound(d, n, p, x);
    }
  }

  /**
   * `updateValue` leaves a live cached value in place: `get` keeps answering
   * the old value although the row changed.
   */
  lemma UpdateLeavesCacheStale(m: Entries, rows: map<int, Setting>, rows': map<int, Setting>, n: nat,
                               vaultId: int, setting: string, owner: Uuid, now: int)
    requires SettingCache.CachedValue(m, SettingCache.Key(vaultId, setting, owner), now).Some?
    ensures Served(m, rows', n, vaultId, setting, owner, now) == Served(m, rows, n, vaultId, setting, owner, now)
  {
  }
}
