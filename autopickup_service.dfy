/**
 * The automatic pick-up service: a per-player list of the vaults that carry
 * pick-up rules, the store path that drops a picked-up stack into the first
 * free slot of a vault, and the loop that tries the player's vaults in order.
 * Event wiring, permissions lookups and messages are outside the model; the
 * caller passes what they decide.
 */
module AutoPickupService {
  import opened Wrappers
  import opened Seqs
  import opened Records
  import opened MemoryCacheProvider
  import opened RowStore
  import opened PluginConfig
  import Vaults
  import Items
  import AutoPickups
  import WorkspaceCache
  import VaultCache
  import AutoPickupCache

  // ---------------------------------------------------------------------------
  // The per-player vault list.

  /** `playerVaultCache`: for each player, the vaults of theirs that have rules. */
  class RuleVaultCache {
    var byPlayer: map<Uuid, seq<Vault>>

    constructor()
      ensures byPlayer == map[]
    {
      byPlayer := map[];
    }

    /** `invalidateCache(player)`: forget one player's list. */
    method InvalidateCache(player: Uuid)
      modifies this
      ensures byPlayer == old(byPlayer) - {player}
    {
      byPlayer := byPlayer - {player};
    }

    /** `invalidateAllCache`: forget every list. */
    method InvalidateAllCache()
      modifies this
      ensures byPlayer == map[]
    {
      byPlayer := map[];
    }
  }

  /** Whether a vault's entry in the batch is a non-empty rule list. */
  function HasRules(batch: map<int, seq<AutoPickup>>): Vault -> bool
  {
    (v: Vault) => v.id in batch && |batch[v.id]| > 0
  }

  /** `allVaults.filter { autoPickupMap[it.id]?.isNotEmpty() == true }`. */
  function WithRules(all: seq<Vault>, batch: map<int, seq<AutoPickup>>): (r: seq<Vault>)
    ensures IsSubsequence(r, all)
    ensures forall v :: v in r <==> v in all && v.id in batch && |batch[v.id]| > 0
  {
    FilterIsSubsequence(all, HasRules(batch));
    Filter(all, HasRules(batch))
  }

  function Ids(vs: seq<Vault>): (r: seq<int>)
    ensures |r| == |vs| && forall i | 0 <= i < |vs| :: r[i] == vs[i].id
  {
    seq(|vs|, i requires 0 <= i < |vs| => vs[i].id)
  }

  /**
   * What `getOrCacheVaultRules` answers and the cache it leaves: a remembered
   * list as is; otherwise the joined workspaces are read, the vaults of each
   * gathered in order, their rules batch-loaded, and the vaults with at least
   * one rule kept.
   */
  function VaultRulesAfter(byPlayer: map<Uuid, seq<Vault>>, m: Entries, wrows: map<int, Workspace>, wn: nat,
                           vrows: map<int, Vault>, vn: nat, rrows: map<int, AutoPickup>, rn: nat, player: Uuid,
                           now: int, ttlMs: int): (seq<Vault>, Entries)
  {
    if player in byPlayer then (byPlayer[player], m)
    else
      var joined := WorkspaceCache.ServedJoined(m, wrows, wn, player, now);
      var m1 := WorkspaceCache.EntriesAfterGetJoined(m, wrows, wn, player, now, ttlMs);
      var all := Gathered(m1, vrows, vn, joined, now, ttlMs);
      var m2 := GatheredEntries(m1, vrows, vn, joined, now, ttlMs);
      (WithRules(all, AutoPickupCache.Batch(m2, rrows, rn, Ids(all), now)),
       AutoPickupCache.BatchEntries(m2, rrows, rn, Ids(all), now, ttlMs))
  }

  /**
   * `getOrCacheVaultRules`: a remembered list is returned as is. Otherwise the
   * player's joined workspaces are read (`joined`), the vaults of each are
   * gathered in order (`all`), their rules are batch-loaded (`batch`), and the
   * vaults with at least one rule are remembered and returned.
   */
  method GetOrCacheVaultRules(svc: RuleVaultCache, c: MemoryCache, db: Database, player: Uuid, now: int, cfg: Config)
    returns (vs: seq<Vault>, ghost joined: seq<Workspace>, ghost all: seq<Vault>, ghost batch: map<int, seq<AutoPickup>>)
    modifies svc, c
    ensures player in old(svc.byPlayer) ==>
              vs == old(svc.byPlayer)[player] && svc.byPlayer == old(svc.byPlayer) && c.entries == old(c.entries)
    ensures player !in old(svc.byPlayer) ==>
              var m1 := WorkspaceCache.EntriesAfterGetJoined(old(c.entries), db.workspaces.rows, db.workspaces.nextId,
                                                             player, now, cfg.ttlMs);
              var m2 := GatheredEntries(m1, db.vaults.rows, db.vaults.nextId, joined, now, cfg.ttlMs);
              && joined == WorkspaceCache.ServedJoined(old(c.entries), db.workspaces.rows, db.workspaces.nextId, player, now)
              && all == Gathered(m1, db.vaults.rows, db.vaults.nextId, joined, now, cfg.ttlMs)
              && batch == AutoPickupCache.Batch(m2, db.rules.rows, db.rules.nextId, Ids(all), now)
              && (forall v | v in all :: v.id in batch)
              && vs == WithRules(all, batch)
              && c.entries == AutoPickupCache.BatchEntries(m2, db.rules.rows, db.rules.nextId, Ids(all), now, cfg.ttlMs)
              && svc.byPlayer == old(svc.byPlayer)[player := vs]
    ensures (vs, c.entries) == VaultRulesAfter(old(svc.byPlayer), old(c.entries), db.workspaces.rows, db.workspaces.nextId,
                                               db.vaults.rows, db.vaults.nextId, db.rules.rows, db.rules.nextId,
                                               player, now, cfg.ttlMs)
  {
    if player in svc.byPlayer {
      return svc.byPlayer[player], [], [], map[];
    }
    var workspaces := WorkspaceCache.GetJoinedWorkspaces(c, db.workspaces, player, now, cfg);
    var allVaults := GatherVaults(c, db, workspaces, now, cfg);
    var ids := Ids(allVaults);
    var loaded := AutoPickupCache.BatchLoad(c, db.rules, ids, now, cfg);
    IdsCover(allVaults, loaded);
    vs := WithRules(allVaults, loaded);
    svc.byPlayer := svc.byPlayer[player := vs];
    joined, all, batch := workspaces, allVaults, loaded;
  }

  /** The vaults `getVaults` serves for each of `ws` in turn, each read seeing the cache the reads before it left. */
  function Gathered(m: Entries, rows: map<int, Vault>, n: nat, ws: seq<Workspace>, now: int, ttlMs: int): seq<Vault>
  {
    if ws == [] then []
    else
      var init := ws[..|ws| - 1];
      Gathered(m, rows, n, init, now, ttlMs)
      + VaultCache.ServedByWorkspace(GatheredEntries(m, rows, n, init, now, ttlMs), rows, n, ws[|ws| - 1].id, now)
  }

  /** The cache once the vaults of each of `ws` have been read in turn. */
  function GatheredEntries(m: Entries, rows: map<int, Vault>, n: nat, ws: seq<Workspace>, now: int, ttlMs: int): Entries
  {
    if ws == [] then m
    else
      var init := ws[..|ws| - 1];
      VaultCache.EntriesAfterGetByWorkspace(GatheredEntries(m, rows, n, init, now, ttlMs), rows, n, ws[|ws| - 1].id,
                                            now, ttlMs)
  }

  /** Gathering one more workspace appends the vaults its read serves. */
  lemma GatheredStep(m: Entries, rows: map<int, Vault>, n: nat, ws: seq<Workspace>, i: int, now: int, ttlMs: int)
    requires 0 <= i < |ws|
    ensures Gathered(m, rows, n, ws[..i + 1], now, ttlMs)
         == Gathered(m, rows, n, ws[..i], now, ttlMs)
            + VaultCache.ServedByWorkspace(GatheredEntries(m, rows, n, ws[..i], now, ttlMs), rows, n, ws[i].id, now)
  {
    assert ws[..i + 1][..i] == ws[..i];
    assert ws[..i + 1][i] == ws[i];
  }

  /** Gathering one more workspace leaves the cache as that workspace's read leaves it. */
  lemma GatheredEntriesStep(m: Entries, rows: map<int, Vault>, n: nat, ws: seq<Workspace>, i: int, now: int,
                            ttlMs: int)
    requires 0 <= i < |ws|
    ensures GatheredEntries(m, rows, n, ws[..i + 1], now, ttlMs)
         == VaultCache.EntriesAfterGetByWorkspace(GatheredEntries(m, rows, n, ws[..i], now, ttlMs), rows, n, ws[i].id,
                                                  now, ttlMs)
  {
    assert ws[..i + 1][..i] == ws[..i];
    assert ws[..i + 1][i] == ws[i];
  }

  /**
   * When every workspace's vault list is cached, gathering reads no store and
   * changes no cache entry, and it yields exactly the vaults of those lists.
   */
  lemma {:induction false} GatheredAllCached(m: Entries, rows: map<int, Vault>, n: nat, ws: seq<Workspace>, now: int,
                                             ttlMs: int)
    requires forall w | w in ws :: VaultCache.CachedList(m, VaultCache.WorkspaceKey(w.id), now).Some?
    ensures GatheredEntries(m, rows, n, ws, now, ttlMs) == m
    ensures forall v :: v in Gathered(m, rows, n, ws, now, ttlMs) <==>
              exists w | w in ws :: v in VaultCache.CachedList(m, VaultCache.WorkspaceKey(w.id), now).value
  {
    if ws != [] {
      var init, last := ws[..|ws| - 1], ws[|ws| - 1];
      assert forall w | w in init :: w in ws;
      GatheredAllCached(m, rows, n, init, now, ttlMs);
      assert ws == init + [last];
      forall v
        ensures v in Gathered(m, rows, n, ws, now, ttlMs) <==>
                exists w | w in ws :: v in VaultCache.CachedList(m, VaultCache.WorkspaceKey(w.id), now).value
      {
        if v in VaultCache.CachedList(m, VaultCache.WorkspaceKey(last.id), now).value {
          assert last in ws;
        }
      }
    }
  }

  /** `for (workspace in workspaces) allVaults.addAll(getVaults(workspace))`. */
  method GatherVaults(c: MemoryCache, db: Database, workspaces: seq<Workspace>, now: int, cfg: Config)
    returns (all: seq<Vault>)
    modifies c
    ensures all == Gathered(old(c.entries), db.vaults.rows, db.vaults.nextId, workspaces, now, cfg.ttlMs)
    ensures c.entries == GatheredEntries(old(c.entries), db.vaults.rows, db.vaults.nextId, workspaces, now, cfg.ttlMs)
  {
    ghost var m0 := c.entries;
    all := [];
    var i := 0;
    while i < |workspaces|
      invariant 0 <= i <= |workspaces|
      invariant all == Gathered(m0, db.vaults.rows, db.vaults.nextId, workspaces[..i], now, cfg.ttlMs)
      invariant c.entries == GatheredEntries(m0, db.vaults.rows, db.vaults.nextId, workspaces[..i], now, cfg.ttlMs)
    {
      GatheredStep(m0, db.vaults.rows, db.vaults.nextId, workspaces, i, now, cfg.ttlMs);
      GatheredEntriesStep(m0, db.vaults.rows, db.vaults.nextId, workspaces, i, now, cfg.ttlMs);
      var more := VaultCache.GetByWorkspace(c, db.vaults, workspaces[i].id, now, cfg);
      all := all + more;
      i := i + 1;
    }
    assert workspaces[..|workspaces|] == workspaces;
  }

  /** A map keyed by every id of `vs` has an entry for each vault of `vs`. */
  lemma IdsCover(vs: seq<Vault>, batch: map<int, seq<AutoPickup>>)
    requires forall v | v in Ids(vs) :: v in batch
    ensures forall v | v in vs :: v.id in batch
  {
    forall v | v in vs ensures v.id in batch {
      var k :| 0 <= k < |vs| && vs[k] == v;
      assert Ids(vs)[k] == v.id;
    }
  }

  // ---------------------------------------------------------------------------
  // Storing a picked-up stack.

  /** `allExistingItems.groupBy { it.page }.mapValues { slots }`, flattened to (page, slot) pairs. */
  function UsedSlots(items: seq<Item>): (r: set<(int, int)>)
    ensures forall p, s :: (p, s) in r <==> exists it | it in items :: it.page == p && it.slot == s
  {
    set it | it in items :: (it.page, it.slot)
  }

  function TakenIn(used: set<(int, int)>): (int, int) -> bool
  {
    (p: int, s: int) => (p, s) in used
  }

  function Min(a: int, b: int): int
  {
    if a <= b then a else b
  }

  /**
   * The page and slot loops of `storeItemInVault`: pages 1 to the last, and on
   * page p the slots below `min(p * 36, size) - (p - 1) * 36`; the first slot
   * not in `used` is the answer.
   */
  method FreeSlot(used: set<(int, int)>, size: int) returns (r: Option<(int, int)>)
    ensures r == Vaults.FirstFree(TakenIn(used), size)
  {
    var taken := TakenIn(used);
    var maxPage := Vaults.MaxPage(size);
    var page := 1;
    while page <= maxPage
      invariant 1 <= page <= maxPage + 1 || (size <= 0 && page == 1)
      invariant forall j | 0 <= j < Min((page - 1) * SlotsPerPage, size) :: Vaults.Occupied(taken, j)
    {
      var slotsInPage := Min(page * SlotsPerPage, size) - (page - 1) * SlotsPerPage;
      var slot := 0;
      while slot < slotsInPage
        invariant 0 <= slot <= SlotsPerPage
        invariant slot <= slotsInPage || slot == 0
        invariant forall j | 0 <= j < (page - 1) * SlotsPerPage + slot :: Vaults.Occupied(taken, j)
      {
        if (page, slot) !in used {
          Vaults.FirstFreeIs(taken, size, page, slot);
          return Some((page, slot));
        }
        Vaults.IndexOfPosition(page, slot);
        slot := slot + 1;
      }
      page := page + 1;
    }
    assert forall j | 0 <= j < size :: Vaults.Occupied(taken, j);
    r := Vaults.FirstFree(taken, size);
  }

  /** The owner `searchItems` is asked for: the player in an independent workspace, nobody otherwise. */
  function Reader(player: Uuid, isIndependent: bool): Option<Uuid>
  {
    if isIndependent then Some(player) else None
  }

  /** The slot `storeItemInVault` picks, for the items it reads. */
  function ChosenSlot(seen: seq<Item>, size: int): Option<(int, int)>
  {
    Vaults.FirstFree(TakenIn(UsedSlots(seen)), size)
  }

  /** The cache and item table a store path works on. */
  datatype Store = Store(entries: Entries, rows: map<int, Item>, next: nat)

  /** Whether `storeItemInVault` stores the stack, and the state it leaves. */
  function AfterStore(s: Store, v: Vault, stack: ItemStack, player: Uuid, isIndependent: bool, now: int,
                      cfg: Config): (bool, Store)
  {
    if v.size <= 0 then (false, s)
    else
      var reader := Reader(player, isIndependent);
      var seen := Items.VaultRead(s.entries, s.rows, s.next, v.id, reader, isIndependent, now);
      var m1 := Items.EntriesAfterVaultRead(s.entries, s.rows, s.next, v.id, reader, isIndependent, now, cfg);
      match ChosenSlot(seen, v.size)
      case None => (false, s.(entries := m1))
      case Some((p, sl)) =>
        (true, Store(Items.EntriesAfterSet(m1, v.id, p, sl, stack, Some(player), isIndependent, now, cfg),
                     Items.RowsAfterSet(s.rows, s.next, v.id, p, sl, stack, Some(player), isIndependent), s.next + 1))
  }

  /**
   * `storeItemInVault`: a vault without slots takes nothing. Otherwise its
   * items are read through the cache and the stack goes into the first free
   * usable slot, with the player as the writer; with no free slot nothing is
   * written.
   */
  method StoreItemInVault(c: MemoryCache, db: Database, v: Vault, stack: ItemStack, player: Uuid,
                          isIndependent: bool, now: int, cfg: Config)
    returns (stored: bool)
    requires db.Valid()
    modifies c, db.items
    ensures db.Valid()
    ensures v.size <= 0 ==> !stored && c.entries == old(c.entries)
                            && db.items.rows == old(db.items.rows) && db.items.nextId == old(db.items.nextId)
    ensures v.size > 0 ==>
              var m0, rows0, n0 := old(c.entries), old(db.items.rows), old(db.items.nextId);
              var seen := Items.VaultRead(m0, rows0, n0, v.id, Reader(player, isIndependent), isIndependent, now);
              var m1 := Items.EntriesAfterVaultRead(m0, rows0, n0, v.id, Reader(player, isIndependent), isIndependent, now, cfg);
              var slot := ChosenSlot(seen, v.size);
              && stored == slot.Some?
              && (slot.None? ==> c.entries == m1 && db.items.rows == rows0 && db.items.nextId == n0)
              && (slot.Some? ==>
                    db.items.rows == Items.RowsAfterSet(rows0, n0, v.id, slot.value.0, slot.value.1, stack,
                                                        Some(player), isIndependent)
                    && db.items.nextId == n0 + 1
                    && c.entries == Items.EntriesAfterSet(m1, v.id, slot.value.0, slot.value.1, stack,
                                                          Some(player), isIndependent, now, cfg))
    ensures (stored, Store(c.entries, db.items.rows, db.items.nextId))
         == AfterStore(Store(old(c.entries), old(db.items.rows), old(db.items.nextId)), v, stack, player, isIndependent,
                       now, cfg)
  {
    if v.size <= 0 {
      return false;
    }
    ghost var s0 := Store(c.entries, db.items.rows, db.items.nextId);
    var existing := Items.SearchItems(c, db.items, v.id, map[], Reader(player, isIndependent), isIndependent, now, cfg);
    ghost var seen := Items.VaultRead(s0.entries, s0.rows, s0.next, v.id, Reader(player, isIndependent), isIndependent, now);
    Items.SearchSpec(seen, map[]);
    assert existing == seen;
    var slot := FreeSlot(UsedSlots(existing), v.size);
    assert slot == ChosenSlot(seen, v.size);
    if slot.None? {
      return false;
    }
    Items.SetItem(c, db.items, v.id, slot.value.0, slot.value.1, stack, Some(player), isIndependent, now, cfg);
    stored := true;
  }

  /** Whether some item of `seen` sits at (page, slot). */
  predicate SlotUsed(seen: seq<Item>, page: int, slot: int)
  {
    exists it | it in seen :: it.page == page && it.slot == slot
  }

  /** A slot `storeItemInVault` picks is usable, free, and the least such one; none is picked only when all are used. */
  lemma ChosenSlotSpec(seen: seq<Item>, size: int)
    ensures var r := ChosenSlot(seen, size);
            && (size <= 0 ==> r.None?)
            && (r.Some? ==> var (p, s) := r.value;
                            && 1 <= p <= Vaults.MaxPage(size) && 0 <= s < SlotsPerPage
                            && (p - 1) * SlotsPerPage + s < size
                            && !SlotUsed(seen, p, s)
                            && (forall p', s' | 1 <= p' && 0 <= s' < SlotsPerPage
                                                && (p' < p || (p' == p && s' < s)) :: SlotUsed(seen, p', s')))
            && (r.None? <==> forall p', s' | 1 <= p' && 0 <= s' < SlotsPerPage
                                             && (p' - 1) * SlotsPerPage + s' < size :: SlotUsed(seen, p', s'))
  {
    var taken := TakenIn(UsedSlots(seen));
    var r := ChosenSlot(seen, size);
    if r.Some? {
      var (p, s) := r.value;
      forall p', s' | 1 <= p' && 0 <= s' < SlotsPerPage && (p' < p || (p' == p && s' < s))
        ensures SlotUsed(seen, p', s')
      {
        var j := (p' - 1) * SlotsPerPage + s';
        Vaults.IndexOfPosition(p', s');
        Vaults.IndexOfPosition(p, s);
        Vaults.PositionOrder(j, (p - 1) * SlotsPerPage + s);
        assert Vaults.Occupied(taken, j);
      }
      Vaults.IndexOfPosition(p, s);
      assert !Vaults.Occupied(taken, (p - 1) * SlotsPerPage + s);
      assert !SlotUsed(seen, p, s);
      assert !(forall p', s' | 1 <= p' && 0 <= s' < SlotsPerPage && (p' - 1) * SlotsPerPage + s' < size ::
                 SlotUsed(seen, p', s'));
    } else {
      forall p', s' | 1 <= p' && 0 <= s' < SlotsPerPage && (p' - 1) * SlotsPerPage + s' < size
        ensures SlotUsed(seen, p', s')
      {
        Vaults.IndexOfPosition(p', s');
        assert Vaults.Occupied(taken, (p' - 1) * SlotsPerPage + s');
      }
    }
  }

  // ---------------------------------------------------------------------------
  // The pick-up loop.

  /**
   * One turn of the pick-up loop: the vault's rules are read through the
   * cache; when they accept the stack, `storeItemInVault` is tried.
   */
  function AfterAttempt(s: Store, rrows: map<int, AutoPickup>, rn: nat, v: Vault, stack: ItemStack, player: Uuid,
                        isIndependent: bool, re: AutoPickups.RegexEngine, now: int, cfg: Config): (bool, Store)
  {
    var rules := AutoPickupCache.Served(s.entries, rrows, rn, v.id, now);
    var s1 := s.(entries := AutoPickupCache.EntriesAfterGet(s.entries, rrows, rn, v.id, now, cfg.ttlMs));
    if AutoPickups.Decision(rules, AutoPickups.ProbeOf(stack), re) == Some(true)
    then AfterStore(s1, v, stack, player, isIndependent, now, cfg)
    else (false, s1)
  }

  /** The loop over the rule vaults: the vault that stored the stack, if any, and the state the turns left. */
  function AfterTries(s: Store, rrows: map<int, AutoPickup>, rn: nat, list: seq<Vault>, stack: ItemStack, player: Uuid,
                      independentOf: Vault -> bool, re: AutoPickups.RegexEngine, now: int, cfg: Config)
    : (Option<Vault>, Store)
    decreases |list|
  {
    if list == [] then (None, s)
    else
      var (ok, s') := AfterAttempt(s, rrows, rn, list[0], stack, player, independentOf(list[0]), re, now, cfg);
      if ok then (Some(list[0]), s')
      else AfterTries(s', rrows, rn, list[1..], stack, player, independentOf, re, now, cfg)
  }

  /**
   * `onEntityPickupItem` after the player check: without the permission
   * nothing happens; otherwise the player's rule vaults (`vaults`) are tried
   * in order until one stores the stack. `independentOf` answers
   * `vault.workspace.type == INDEPENDENT`.
   */
  method OnPickup(svc: RuleVaultCache, c: MemoryCache, db: Database, player: Uuid, permitted: bool,
                  stack: ItemStack, re: AutoPickups.RegexEngine, independentOf: Vault -> bool, now: int, cfg: Config)
    returns (storedIn: Option<Vault>, ghost vaults: seq<Vault>)
    requires db.Valid()
    modifies svc, c, db.items
    ensures db.Valid()
    ensures !permitted ==> storedIn.None? && svc.byPlayer == old(svc.byPlayer) && c.entries == old(c.entries)
                           && db.items.rows == old(db.items.rows) && db.items.nextId == old(db.items.nextId)
    ensures permitted ==>
              var r := VaultRulesAfter(old(svc.byPlayer), old(c.entries), db.workspaces.rows, db.workspaces.nextId,
                                       db.vaults.rows, db.vaults.nextId, db.rules.rows, db.rules.nextId,
                                       player, now, cfg.ttlMs);
              && vaults == r.0
              && svc.byPlayer == (if player in old(svc.byPlayer) then old(svc.byPlayer) else old(svc.byPlayer)[player := r.0])
              && (storedIn, Store(c.entries, db.items.rows, db.items.nextId))
                 == AfterTries(Store(r.1, old(db.items.rows), old(db.items.nextId)), db.rules.rows, db.rules.nextId,
                               r.0, stack, player, independentOf, re, now, cfg)
  {
    if !permitted {
      return None, [];
    }
    ghost var joined, all, batch;
    var list;
    list, joined, all, batch := GetOrCacheVaultRules(svc, c, db, player, now, cfg);
    vaults := list;
    storedIn := TryVaults(c, db, list, stack, player, re, independentOf, now, cfg);
  }

  /** The loop over the rule vaults: each is tried in turn until one stores the stack. */
  method TryVaults(c: MemoryCache, db: Database, list: seq<Vault>, stack: ItemStack, player: Uuid,
                   re: AutoPickups.RegexEngine, independentOf: Vault -> bool, now: int, cfg: Config)
    returns (storedIn: Option<Vault>)
    requires db.Valid()
    modifies c, db.items
    ensures db.Valid()
    ensures (storedIn, Store(c.entries, db.items.rows, db.items.nextId))
         == AfterTries(Store(old(c.entries), old(db.items.rows), old(db.items.nextId)), db.rules.rows, db.rules.nextId,
                       list, stack, player, independentOf, re, now, cfg)
  {
    ghost var whole := AfterTries(Store(c.entries, db.items.rows, db.items.nextId), db.rules.rows, db.rules.nextId,
                                  list, stack, player, independentOf, re, now, cfg);
    var i := 0;
    while i < |list|
      invariant 0 <= i <= |list|
      invariant db.Valid()
      invariant whole == AfterTries(Store(c.entries, db.items.rows, db.items.nextId), db.rules.rows, db.rules.nextId,
                                    list[i..], stack, player, independentOf, re, now, cfg)
    {
      var v := list[i];
      assert list[i..][0] == v && list[i..][1..] == list[i + 1..];
      var ok := TryVault(c, db, v, stack, player, independentOf(v), re, now, cfg);
      if ok {
        return Some(v);
      }
      i := i + 1;
    }
    storedIn := None;
  }

  /** One turn of the loop: the vault's rules must accept the stack, and then the vault must store it. */
  method TryVault(c: MemoryCache, db: Database, v: Vault, stack: ItemStack, player: Uuid, isIndependent: bool,
                  re: AutoPickups.RegexEngine, now: int, cfg: Config)
    returns (ok: bool)
    requires db.Valid()
    modifies c, db.items
    ensures db.Valid()
    ensures ok ==> AutoPickups.Decision(AutoPickupCache.Served(old(c.entries), db.rules.rows, db.rules.nextId, v.id, now),
                                        AutoPickups.ProbeOf(stack), re) == Some(true)
    ensures (ok, Store(c.entries, db.items.rows, db.items.nextId))
         == AfterAttempt(Store(old(c.entries), old(db.items.rows), old(db.items.nextId)), db.rules.rows, db.rules.nextId,
                         v, stack, player, isIndependent, re, now, cfg)
  {
    var decision := AutoPickups.ShouldAutoPickup(c, db.rules, v.id, stack, re, now, cfg);
    ok := false;
    if decision == Some(true) {
      ok := StoreItemInVault(c, db, v, stack, player, isIndependent, now, cfg);
    }
  }

  // ---------------------------------------------------------------------------
  // Properties of the loop.

  /**
   * The loop writes at most one item: when no vault stores the stack the
   * item table is as it was; otherwise the vault it names is one of the list
   * and the stack is the new row, under the next id, in that vault.
   */
  lemma {:induction false} TriesStoreAtMostOnce(s: Store, rrows: map<int, AutoPickup>, rn: nat, list: seq<Vault>,
                                                stack: ItemStack, player: Uuid, independentOf: Vault -> bool,
                                                re: AutoPickups.RegexEngine, now: int, cfg: Config)
    ensures var r := AfterTries(s, rrows, rn, list, stack, player, independentOf, re, now, cfg);
            && (r.0.None? ==> r.1.rows == s.rows && r.1.next == s.next)
            && (r.0.Some? ==> && r.0.value in list && r.1.next == s.next + 1
                              && s.next in r.1.rows && r.1.rows[s.next].vaultId == r.0.value.id
                              && r.1.rows[s.next].stack == stack)
    decreases |list|
  {
    if list != [] {
      var a := AfterAttempt(s, rrows, rn, list[0], stack, player, independentOf(list[0]), re, now, cfg);
      if !a.0 {
        AttemptFailedKeepsRows(s, rrows, rn, list[0], stack, player, independentOf(list[0]), re, now, cfg);
        TriesStoreAtMostOnce(a.1, rrows, rn, list[1..], stack, player, independentOf, re, now, cfg);
        var r := AfterTries(a.1, rrows, rn, list[1..], stack, player, independentOf, re, now, cfg);
        if r.0.Some? {
          assert r.0.value in list[1..];
        }
      }
    }
  }

  /** A turn that stores nothing leaves the item table alone; one that stores adds the stack under the next id. */
  lemma AttemptFailedKeepsRows(s: Store, rrows: map<int, AutoPickup>, rn: nat, v: Vault, stack: ItemStack, player: Uuid,
                               isIndependent: bool, re: AutoPickups.RegexEngine, now: int, cfg: Config)
    ensures var a := AfterAttempt(s, rrows, rn, v, stack, player, isIndependent, re, now, cfg);
            && (!a.0 ==> a.1.rows == s.rows && a.1.next == s.next)
            && (a.0 ==> a.1.next == s.next + 1 && s.next in a.1.rows && a.1.rows[s.next].vaultId == v.id
                        && a.1.rows[s.next].stack == stack)
  {
  }
}
