/**
 * The vault operations of the `Vault` model: creation, growing and
 * shrinking a vault's capacity against its workspace owner's size quota,
 * the page count, and the cascading delete.
 *
 * Capacity changes read the owner's quota through the quota cache and then
 * write `size_used` with a compare-and-swap: the write only matches the row
 * while `size_used` still holds the value that was read. The owner of the
 * vault's workspace is resolved by the caller and passed in.
 */
module Vaults {
  import opened Wrappers
  import opened Records
  import opened MemoryCacheProvider
  import opened RowStore
  import opened PluginConfig
  import QuotaCache
  import Int32
  import VaultCache
  import ItemCache
  import SettingCache
  import AutoPickupCache

  // ---------------------------------------------------------------------------
  // Pages.

  /** `ceil(size / 36.0)` for any int size, in integer arithmetic. */
  function CeilPages(size: int): (r: int)
    ensures (r - 1) * SlotsPerPage < size <= r * SlotsPerPage
  {
    if size >= 0 then (size + SlotsPerPage - 1) / SlotsPerPage else -((-size) / SlotsPerPage)
  }

  /** `getMaxPage`: the pages needed for `size` slots, but never fewer than one. */
  function MaxPage(size: int): (r: int)
    ensures 0 <= size <= SlotsPerPage ==> r == 1
    ensures size > 0 ==> r >= 1 && (r - 1) * SlotsPerPage < size <= r * SlotsPerPage
  {
    var p := CeilPages(size);
    if p == 0 then 1 else p
  }

  /** A slot index of the vault lies on a page between 1 and the last one. */
  lemma SlotOnSomePage(size: int, index: int)
    requires 0 <= index < size
    ensures 1 <= index / SlotsPerPage + 1 <= MaxPage(size)
  {
    var p := MaxPage(size);
    assert index < p * SlotsPerPage;
  }

  /** The (page, slot) of the slot with index `k`, pages counted from 1. */
  function PositionOf(k: int): (int, int)
  {
    (k / SlotsPerPage + 1, k % SlotsPerPage)
  }

  /** The index of slot `slot` on page `page`. */
  lemma IndexOfPosition(page: int, slot: int)
    requires 0 <= slot < SlotsPerPage
    ensures PositionOf((page - 1) * SlotsPerPage + slot) == (page, slot)
  {
    var k := (page - 1) * SlotsPerPage + slot;
    assert k / SlotsPerPage == page - 1 by {
      assert k == (page - 1) * SlotsPerPage + slot;
    }
  }

  /** Walking slot indices upwards visits pages in order and, within a page, slots in order. */
  lemma PositionOrder(j: int, k: int)
    requires 0 <= j && 0 <= k
    ensures var (pj, sj) := PositionOf(j);
            var (pk, sk) := PositionOf(k);
            j < k <==> pj < pk || (pj == pk && sj < sk)
  {
    assert j == (j / SlotsPerPage) * SlotsPerPage + j % SlotsPerPage;
    assert k == (k / SlotsPerPage) * SlotsPerPage + k % SlotsPerPage;
    if j / SlotsPerPage < k / SlotsPerPage {
      assert (j / SlotsPerPage + 1) * SlotsPerPage <= (k / SlotsPerPage) * SlotsPerPage;
    } else if k / SlotsPerPage < j / SlotsPerPage {
      assert (k / SlotsPerPage + 1) * SlotsPerPage <= (j / SlotsPerPage) * SlotsPerPage;
    }
  }

  /** Whether slot index `k` is taken, for a test on (page, slot). */
  predicate Occupied(taken: (int, int) -> bool, k: int)
  {
    taken(k / SlotsPerPage + 1, k % SlotsPerPage)
  }

  /** The least free slot index at or above `k` below `size`. */
  function FirstFreeFrom(taken: (int, int) -> bool, size: int, k: nat): (r: Option<nat>)
    ensures r.Some? ==> k <= r.value < size && !Occupied(taken, r.value)
                        && forall j | k <= j < r.value :: Occupied(taken, j)
    ensures r.None? ==> forall j | k <= j < size :: Occupied(taken, j)
    decreases size - k
  {
    if k >= size then None
    else if !Occupied(taken, k) then Some(k)
    else FirstFreeFrom(taken, size, k + 1)
  }

  /**
   * The first free slot of a vault of `size` slots: the least index that is
   * usable and not taken, scanning page 1 first and each page from slot 0.
   */
  function FirstFree(taken: (int, int) -> bool, size: int): (r: Option<(int, int)>)
    ensures r.Some? ==> var (p, s) := r.value;
                        && 1 <= p <= MaxPage(size) && 0 <= s < SlotsPerPage
                        && (p - 1) * SlotsPerPage + s < size && !taken(p, s)
    ensures r.Some? ==> forall j | 0 <= j < (r.value.0 - 1) * SlotsPerPage + r.value.1 :: Occupied(taken, j)
    ensures r.None? <==> forall j | 0 <= j < size :: Occupied(taken, j)
  {
    match FirstFreeFrom(taken, size, 0)
    case None => None
    case Some(k) =>
      SlotOnSomePage(size, k);
      Some(PositionOf(k))
  }

  /** Any slot index below `k` is taken; `k` itself is free and usable: then `k` is the first free slot. */
  lemma FirstFreeIs(taken: (int, int) -> bool, size: int, page: int, slot: int)
    requires 1 <= page && 0 <= slot < SlotsPerPage
    requires (page - 1) * SlotsPerPage + slot < size
    requires !taken(page, slot)
    requires forall j | 0 <= j < (page - 1) * SlotsPerPage + slot :: Occupied(taken, j)
    ensures FirstFree(taken, size) == Some((page, slot))
  {
    var k := (page - 1) * SlotsPerPage + slot;
    IndexOfPosition(page, slot);
    assert !Occupied(taken, k);
    var r := FirstFreeFrom(taken, size, 0);
    assert r.Some?;
    assert r.value == k;
  }

  // ---------------------------------------------------------------------------
  // Creation.

  /** `create`: insert an empty vault and drop the workspace's cached vault list. */
  method Create(c: MemoryCache, t: VaultTable, workspaceId: int, name: string, desc: Option<string>, now: int)
    returns (ok: bool)
    requires t.Valid()
    modifies c, t
    ensures t.Valid() && ok
    ensures t.rows == old(t.rows)[old(t.nextId) := Vault(old(t.nextId), name, desc, workspaceId, 0, now, now)]
    ensures t.nextId == old(t.nextId) + 1
    ensures c.entries == old(c.entries) - {VaultCache.WorkspaceKey(workspaceId)}
  {
    var _ := t.Insert(Vault(0, name, desc, workspaceId, 0, now, now));
    VaultCache.InvalidateWorkspaceVaults(c, workspaceId);
    ok := true;
  }

  // ---------------------------------------------------------------------------
  // Lookup by name.

  /** `find { it.name == name }`: the first vault of the list with that name. */
  function FindNamed(vs: seq<Vault>, name: string): (r: Option<Vault>)
    ensures r.Some? ==> r.value in vs && r.value.name == name
    ensures r.None? <==> forall v | v in vs :: v.name != name
    ensures r.Some? ==> exists i | 0 <= i < |vs| :: vs[i] == r.value && forall j | 0 <= j < i :: vs[j].name != name
  {
    if |vs| == 0 then None
    else if vs[0].name == name then
      assert vs[0] == vs[0];
      Some(vs[0])
    else
      var r := FindNamed(vs[1..], name);
      assert forall v | v in vs :: v == vs[0] || v in vs[1..];
      if r.Some? then
        var i :| 0 <= i < |vs[1..]| && vs[1..][i] == r.value && forall j | 0 <= j < i :: vs[1..][j].name != name;
        assert vs[i + 1] == r.value && forall j | 0 <= j < i + 1 :: vs[j].name != name;
        r
      else r
  }

  /** `getVault(workspace, name)`: the workspace's vault list, read through the cache, searched by name. */
  method GetVault(c: MemoryCache, t: VaultTable, workspaceId: int, name: string, now: int, cfg: Config)
    returns (r: Option<Vault>)
    modifies c
    ensures r == FindNamed(VaultCache.ServedByWorkspace(old(c.entries), t.rows, t.nextId, workspaceId, now), name)
    ensures c.entries == VaultCache.EntriesAfterGetByWorkspace(old(c.entries), t.rows, t.nextId, workspaceId, now, cfg.ttlMs)
  {
    var vs := VaultCache.GetByWorkspace(c, t, workspaceId, now, cfg);
    r := FindNamed(vs, name);
  }

  // ---------------------------------------------------------------------------
  // Capacity.

  /**
   * `addSize`'s quota test as written: the new size in use is an `Int`
   * sum, so it wraps around before it is compared with the limit.
   */
  predicate AddAllowedAsWritten(q: Quota, add: int)
  {
    q.unlimited || Int32.Wrap(q.sizeUsed + add) <= q.sizeQuotas
  }

  /**
   * A limited owner with 1 slot in use out of 100 asks for 2147483647 more:
   * the sum wraps to -2147483648, which passes the quota test, and that is
   * the size in use the swap would store.
   */
  lemma AddSizeWrapsPastQuota()
    ensures var q := Quota(1, "p", 1, 0, 100, 1, false);
      && AddAllowedAsWritten(q, Int32.Max)
      && Int32.Wrap(q.sizeUsed + Int32.Max) == Int32.Min
      && !AddAllowed(q, Int32.Max)
  {
  }

  /**
   * `addSize`'s quota test as intended: the new size in use must be an
   * `Int` and, for a limited owner, at most the limit.
   */
  predicate AddAllowed(q: Quota, add: int)
  {
    Int32.InRange(q.sizeUsed + add) && (q.unlimited || q.sizeUsed + add <= q.sizeQuotas)
  }

  /** The intended test agrees with the written one whenever the sum does not wrap. */
  lemma AddAllowedAgrees(q: Quota, add: int)
    requires Int32.InRange(q.sizeUsed + add)
    ensures AddAllowed(q, add) <==> AddAllowedAsWritten(q, add)
  {
  }

  /** Whether `removeSize(remove)` keeps the owner's size in use non-negative, after the `Int` subtraction. */
  predicate RemoveAllowed(q: Quota, remove: int)
  {
    Int32.Wrap(q.sizeUsed - remove) >= 0
  }

  /** The compare-and-swap write of `size_used`: only while it still holds the value read. */
  function SizeSwap(read: Quota, newUsed: int): (QuotaSet, Guard)
  {
    (QuotaSet(None, None, None, Some(newUsed), None), SizeUsedIs(read.sizeUsed))
  }

  /** The cache after a capacity change: the owner's quota and the vault are refreshed. */
  function ResizedEntries(m: Entries, owner: Uuid, q: Quota, v: Vault, now: int, cfg: Config): Entries
  {
    var e := ExpireAt(now, cfg.ttlMs);
    m[QuotaCache.Key(owner) := CacheEntry(QuotaValue(q), e)]
     [VaultCache.Key(v.id) := CacheEntry(VaultValue(v), e)] - {VaultCache.WorkspaceKey(v.workspaceId)}
  }

  /** The vault rows after `update set size, updated_at where id`. */
  function ResizedRows(rows: map<int, Vault>, v: Vault): map<int, Vault>
  {
    if v.id in rows then rows[v.id := rows[v.id].(size := v.size, updatedAt := v.updatedAt)] else rows
  }

  /**
   * The shared tail of `addSize` and `removeSize`, after the quota check:
   * the compare-and-swap, and on success the vault write and both cache
   * refreshes.
   */
  method CommitResize(c: MemoryCache, db: Database, v: Vault, owner: Uuid, user: Quota, delta: int, now: int, cfg: Config)
    returns (ok: bool, v': Vault)
    requires db.Valid()
    modifies c, db.quotas, db.vaults
    ensures db.Valid()
    ensures db.quotas.nextId == old(db.quotas.nextId) && db.vaults.nextId == old(db.vaults.nextId)
    ensures ok == Matches(old(db.quotas.rows), owner, SizeSwap(user, Int32.Wrap(user.sizeUsed + delta)).1)
    ensures db.quotas.rows == Written(old(db.quotas.rows), owner, SizeSwap(user, Int32.Wrap(user.sizeUsed + delta)).0,
                                      SizeSwap(user, Int32.Wrap(user.sizeUsed + delta)).1)
    ensures !ok ==> v' == v && c.entries == old(c.entries) && db.vaults.rows == old(db.vaults.rows)
    ensures ok ==> v' == v.(size := Int32.Wrap(v.size + delta), updatedAt := now)
    ensures ok ==> db.vaults.rows == ResizedRows(old(db.vaults.rows), v')
    ensures ok ==> c.entries == ResizedEntries(old(c.entries), owner, user.(sizeUsed := Int32.Wrap(user.sizeUsed + delta)), v', now, cfg)
  {
    var swap := SizeSwap(user, Int32.Wrap(user.sizeUsed + delta));
    var affected := db.quotas.Update(owner, swap.0, swap.1);
    if affected == 0 {
      return false, v;
    }
    v' := v.(size := Int32.Wrap(v.size + delta), updatedAt := now);
    db.vaults.SetSize(v'.id, v'.size, v'.updatedAt);
    QuotaCache.Update(c, owner, user.(sizeUsed := Int32.Wrap(user.sizeUsed + delta)), now, cfg);
    VaultCache.Update(c, v', now, cfg);
    ok := true;
  }

  /**
   * `addSize`: refused without any write when the new size in use would
   * leave `Int` range or, for a limited owner, pass the limit, or when the
   * compare-and-swap misses; otherwise the vault grows by `add` and so
   * does `size_used`.
   * Returns the vault as it now is.
   */
  method AddSize(c: MemoryCache, db: Database, v: Vault, owner: Uuid, add: int, now: int, cfg: Config)
    returns (ok: bool, v': Vault)
    requires db.Valid()
    modifies c, db.quotas, db.vaults
    ensures db.Valid()
    ensures
      var m0, rows0, next0 := old(c.entries), old(db.quotas.rows), old(db.quotas.nextId);
      var q := QuotaCache.Read(m0, rows0, owner, now, cfg);
      var m1 := QuotaCache.EntriesAfterGet(m0, rows0, owner, now, cfg);
      var rows1 := QuotaCache.RowsAfterGet(m0, rows0, next0, owner, now, cfg);
      var swap := SizeSwap(q, q.sizeUsed + add);
      && ok == (AddAllowed(q, add) && Matches(rows1, owner, swap.1))
      && db.quotas.nextId == QuotaCache.NextAfterGet(m0, rows0, next0, owner, now)
      && (!AddAllowed(q, add) ==> db.quotas.rows == rows1)
      && (AddAllowed(q, add) ==> db.quotas.rows == Written(rows1, owner, swap.0, swap.1))
      && (!ok ==> v' == v && db.vaults.rows == old(db.vaults.rows) && c.entries == m1)
      && (ok ==> (v' == v.(size := Int32.Wrap(v.size + add), updatedAt := now)
                  && db.vaults.rows == ResizedRows(old(db.vaults.rows), v')
                  && c.entries == ResizedEntries(m1, owner, q.(sizeUsed := q.sizeUsed + add), v', now, cfg)))
  {
    var user := QuotaCache.Get(c, db.quotas, owner, now, cfg);
    if !AddAllowed(user, add) {
      return false, v;
    }
    ok, v' := CommitResize(c, db, v, owner, user, add, now, cfg);
  }

  /**
   * `removeSize`: refused without any write when the size in use would go
   * negative, or when the compare-and-swap misses; otherwise the vault and
   * `size_used` both shrink by `remove`.
   */
  method RemoveSize(c: MemoryCache, db: Database, v: Vault, owner: Uuid, remove: int, now: int, cfg: Config)
    returns (ok: bool, v': Vault)
    requires db.Valid()
    modifies c, db.quotas, db.vaults
    ensures db.Valid()
    ensures
      var m0, rows0, next0 := old(c.entries), old(db.quotas.rows), old(db.quotas.nextId);
      var q := QuotaCache.Read(m0, rows0, owner, now, cfg);
      var m1 := QuotaCache.EntriesAfterGet(m0, rows0, owner, now, cfg);
      var rows1 := QuotaCache.RowsAfterGet(m0, rows0, next0, owner, now, cfg);
      var swap := SizeSwap(q, Int32.Wrap(q.sizeUsed - remove));
      && ok == (RemoveAllowed(q, remove) && Matches(rows1, owner, swap.1))
      && db.quotas.nextId == QuotaCache.NextAfterGet(m0, rows0, next0, owner, now)
      && (!RemoveAllowed(q, remove) ==> db.quotas.rows == rows1)
      && (RemoveAllowed(q, remove) ==> db.quotas.rows == Written(rows1, owner, swap.0, swap.1))
      && (!ok ==> v' == v && db.vaults.rows == old(db.vaults.rows) && c.entries == m1)
      && (ok ==> (v' == v.(size := Int32.Wrap(v.size - remove), updatedAt := now)
                  && db.vaults.rows == ResizedRows(old(db.vaults.rows), v')
                  && c.entries == ResizedEntries(m1, owner, q.(sizeUsed := Int32.Wrap(q.sizeUsed - remove)), v', now, cfg)))
  {
    var user := QuotaCache.Get(c, db.quotas, owner, now, cfg);
    if !RemoveAllowed(user, remove) {
      return false, v;
    }
    ok, v' := CommitResize(c, db, v, owner, user, -remove, now, cfg);
  }

  /**
   * A successful compare-and-swap adds exactly `delta` to the stored
   * counter, whatever the cache held: the row matched only because it still
   * held the value read.
   */
  lemma SwapAddsDelta(rows: map<Uuid, Quota>, owner: Uuid, read: Quota, delta: int)
    requires Matches(rows, owner, SizeSwap(read, Int32.Wrap(read.sizeUsed + delta)).1)
    ensures Written(rows, owner, SizeSwap(read, Int32.Wrap(read.sizeUsed + delta)).0,
                    SizeSwap(read, Int32.Wrap(read.sizeUsed + delta)).1)[owner].sizeUsed
            == Int32.Wrap(rows[owner].sizeUsed + delta)
  {
  }

  /**
   * Two resizes that read the same quota race: once the first swap has
   * written a different counter, the second swap matches nothing, so no
   * update is lost.
   */
  lemma RacingSwapMisses(rows: map<Uuid, Quota>, owner: Uuid, read: Quota, first: int, second: int)
    requires Int32.InRange(read.sizeUsed) && first != 0 && -Int32.Modulus < first < Int32.Modulus
    requires Matches(rows, owner, SizeSwap(read, Int32.Wrap(read.sizeUsed + first)).1)
    ensures
      var after := Written(rows, owner, SizeSwap(read, Int32.Wrap(read.sizeUsed + first)).0,
                           SizeSwap(read, Int32.Wrap(read.sizeUsed + first)).1);
      !Matches(after, owner, SizeSwap(read, Int32.Wrap(read.sizeUsed + second)).1)
  {
    var after := Written(rows, owner, SizeSwap(read, Int32.Wrap(read.sizeUsed + first)).0,
                         SizeSwap(read, Int32.Wrap(read.sizeUsed + first)).1);
    SwapAddsDelta(rows, owner, read, first);
    Int32.WrapShifts(read.sizeUsed, first);
    assert after[owner].sizeUsed == Int32.Wrap(read.sizeUsed + first);
  }

  /** For a limited owner whose row agrees with the quota read, a successful `addSize` keeps `size_used` within the limit. */
  lemma AddKeepsWithinQuota(rows: map<Uuid, Quota>, owner: Uuid, read: Quota, add: int)
    requires owner in rows && QuotaCache.SameColumns(rows[owner], read)
    requires !read.unlimited && AddAllowed(read, add)
    ensures Matches(rows, owner, SizeSwap(read, Int32.Wrap(read.sizeUsed + add)).1)
    ensures
      var r := Written(rows, owner, SizeSwap(read, Int32.Wrap(read.sizeUsed + add)).0,
                       SizeSwap(read, Int32.Wrap(read.sizeUsed + add)).1)[owner];
      r.sizeUsed == read.sizeUsed + add && r.sizeUsed <= r.sizeQuotas
  {
    assert rows[owner].sizeUsed == read.sizeUsed && rows[owner].sizeQuotas == read.sizeQuotas by {
      assert rows[owner].(id := 0).sizeUsed == read.(id := 0).sizeUsed;
      assert rows[owner].(id := 0).sizeQuotas == read.(id := 0).sizeQuotas;
    }
  }

  /** A successful `removeSize` leaves a non-negative size in use behind. */
  lemma RemoveKeepsUsageNonNegative(rows: map<Uuid, Quota>, owner: Uuid, read: Quota, remove: int)
    requires RemoveAllowed(read, remove) && Matches(rows, owner, SizeSwap(read, Int32.Wrap(read.sizeUsed - remove)).1)
    ensures Written(rows, owner, SizeSwap(read, Int32.Wrap(read.sizeUsed - remove)).0,
                    SizeSwap(read, Int32.Wrap(read.sizeUsed - remove)).1)[owner].sizeUsed >= 0
  {
  }

  // ---------------------------------------------------------------------------
  // Deletion.

  /** The cache after `delete`'s invalidations of the vault, its rules, its settings and its item lists. */
  function DeletedEntries(m: Entries, id: int, now: int): Entries
  {
    var m1 := match VaultCache.CachedVault(m, VaultCache.Key(id), now)
              case Some(w) => m - {VaultCache.Key(id)} - {VaultCache.WorkspaceKey(w.workspaceId)}
              case None => m - {VaultCache.Key(id)};
    var m2 := m1 - {AutoPickupCache.Key(id)};
    var m3 := WithoutPrefix(m2, SettingCache.VaultPrefix(id));
    WithoutPrefix(WithoutPrefix(m3, ItemCache.PagePrefix(id)), ItemCache.AllPrefix(id))
  }

  /**
   * The part of `delete` after the quota test: the rows go, the owner's new
   * used size is written and cached, and the vault's cache entries go.
   */
  method CommitDelete(c: MemoryCache, db: Database, id: int, owner: Uuid, user: Quota, newUsed: int, now: int,
                      cfg: Config)
    requires db.Valid()
    modifies c, db.quotas, db.vaults, db.items, db.settings, db.rules
    ensures db.Valid()
    ensures db.quotas.nextId == old(db.quotas.nextId)
    ensures db.quotas.rows == Written(old(db.quotas.rows), owner, QuotaSet(None, None, None, Some(newUsed), None), Always)
    ensures db.vaults.rows == old(db.vaults.rows) - {id}
    ensures db.items.rows == DeleteWhere(old(db.items.rows), (it: Item) => it.vaultId == id)
    ensures db.settings.rows == DeleteWhere(old(db.settings.rows), (s: Setting) => s.vaultId == id)
    ensures db.rules.rows == DeleteWhere(old(db.rules.rows), (r: AutoPickup) => r.vaultId == id)
    ensures c.entries == DeletedEntries(old(c.entries)[QuotaCache.Key(owner) := CacheEntry(QuotaValue(user.(sizeUsed := newUsed)),
                                                                                           ExpireAt(now, cfg.ttlMs))], id, now)
  {
    DeleteRows(db, id);
    var _ := db.quotas.Update(owner, QuotaSet(None, None, None, Some(newUsed), None), Always);
    QuotaCache.Update(c, owner, user.(sizeUsed := newUsed), now, cfg);
    ForgetVault(c, id, now);
  }

  /** The row deletions of `delete`: the vault's items, settings and rules, then the vault. */
  method DeleteRows(db: Database, id: int)
    requires db.Valid()
    modifies db.vaults, db.items, db.settings, db.rules
    ensures db.Valid()
    ensures db.vaults.rows == old(db.vaults.rows) - {id}
    ensures db.items.rows == DeleteWhere(old(db.items.rows), (it: Item) => it.vaultId == id)
    ensures db.settings.rows == DeleteWhere(old(db.settings.rows), (s: Setting) => s.vaultId == id)
    ensures db.rules.rows == DeleteWhere(old(db.rules.rows), (r: AutoPickup) => r.vaultId == id)
  {
    db.items.DeleteAll((it: Item) => it.vaultId == id);
    db.settings.DeleteAll((s: Setting) => s.vaultId == id);
    db.rules.DeleteAll((r: AutoPickup) => r.vaultId == id);
    db.vaults.Delete(id);
  }

  /** The cache invalidations of `delete`, in the order the source makes them. */
  method ForgetVault(c: MemoryCache, id: int, now: int)
    modifies c
    ensures c.entries == DeletedEntries(old(c.entries), id, now)
  {
    VaultCache.Invalidate(c, id, now);
    AutoPickupCache.Invalidate(c, id);
    SettingCache.InvalidateByVault(c, id);
    ItemCache.InvalidateAll(c, id, None);
  }

  /** After `delete` nothing about the vault is left in the cache. */
  lemma DeletedEntriesForget(m: Entries, id: int, now: int, page: int, owner: Option<Uuid>, setting: string, uuid: Uuid)
    ensures var r := DeletedEntries(m, id, now);
      && VaultCache.Key(id) !in r
      && AutoPickupCache.Key(id) !in r
      && SettingCache.Key(id, setting, uuid) !in r
      && ItemCache.PageKey(id, page, owner) !in r
      && ItemCache.AllKey(id, owner) !in r
  {
    ItemCache.PagePrefixExact(id, id, page, owner);
    ItemCache.AllPrefixExact(id, id, owner);
    SettingCache.VaultPrefixExact(id, id, setting, uuid);
  }

  /**
   * `delete`: refused when the owner's size in use would go negative.
   * Otherwise the vault's items, settings and rules and the vault row go,
   * `size_used` drops by the vault's size as a plain write, and every cache
   * entry for the vault is dropped.
   */
  method Delete(c: MemoryCache, db: Database, v: Vault, owner: Uuid, now: int, cfg: Config) returns (ok: bool)
    requires db.Valid()
    modifies c, db.quotas, db.vaults, db.items, db.settings, db.rules
    ensures db.Valid()
    ensures
      var m0, rows0, next0 := old(c.entries), old(db.quotas.rows), old(db.quotas.nextId);
      var q := QuotaCache.Read(m0, rows0, owner, now, cfg);
      var m1 := QuotaCache.EntriesAfterGet(m0, rows0, owner, now, cfg);
      var rows1 := QuotaCache.RowsAfterGet(m0, rows0, next0, owner, now, cfg);
      var newUsed := Int32.Wrap(q.sizeUsed - v.size);
      && ok == (newUsed >= 0)
      && db.quotas.nextId == QuotaCache.NextAfterGet(m0, rows0, next0, owner, now)
      && (!ok ==> c.entries == m1 && db.quotas.rows == rows1
                  && db.vaults.rows == old(db.vaults.rows) && db.items.rows == old(db.items.rows)
                  && db.settings.rows == old(db.settings.rows) && db.rules.rows == old(db.rules.rows))
      && (ok ==> db.quotas.rows == Written(rows1, owner, QuotaSet(None, None, None, Some(newUsed), None), Always)
                 && db.vaults.rows == old(db.vaults.rows) - {v.id}
                 && db.items.rows == DeleteWhere(old(db.items.rows), (it: Item) => it.vaultId == v.id)
                 && db.settings.rows == DeleteWhere(old(db.settings.rows), (s: Setting) => s.vaultId == v.id)
                 && db.rules.rows == DeleteWhere(old(db.rules.rows), (r: AutoPickup) => r.vaultId == v.id)
                 && c.entries == DeletedEntries(m1[QuotaCache.Key(owner) := CacheEntry(QuotaValue(q.(sizeUsed := newUsed)), ExpireAt(now, cfg.ttlMs))], v.id, now))
  {
    var user := QuotaCache.Get(c, db.quotas, owner, now, cfg);
    var newUsed := Int32.Wrap(user.sizeUsed - v.size);
    if newUsed < 0 {
      return false;
    }
    CommitDelete(c, db, v.id, owner, user, newUsed, now, cfg);
    ok := true;
  }

  /** After the cascade no item, setting or rule of the vault is left, and every other row is untouched. */
  lemma CascadeLeavesNoOrphans(items: map<int, Item>, settings: map<int, Setting>, rules: map<int, AutoPickup>, id: int)
    ensures forall k | k in DeleteWhere(items, (it: Item) => it.vaultId == id) :: items[k].vaultId != id
    ensures forall k | k in items && items[k].vaultId != id :: k in DeleteWhere(items, (it: Item) => it.vaultId == id)
    ensures forall k | k in DeleteWhere(settings, (s: Setting) => s.vaultId == id) :: settings[k].vaultId != id
    ensures forall k | k in settings && settings[k].vaultId != id :: k in DeleteWhere(settings, (s: Setting) => s.vaultId == id)
    ensures forall k | k in DeleteWhere(rules, (r: AutoPickup) => r.vaultId == id) :: rules[k].vaultId != id
    ensures forall k | k in rules && rules[k].vaultId != id :: k in DeleteWhere(rules, (r: AutoPickup) => r.vaultId == id)
  {
  }
}
