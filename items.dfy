/**
 * Vault contents: the item rows of a vault, read through the item cache by
 * page or as a whole, searched by name and lore, written one slot at a time
 * by `setItem` (delete then insert) and `removeItem`. A vault whose workspace
 * is independent keeps one set of slots per player; the caller passes that
 * as `isIndependent`, the reading of `vault.workspace.type == INDEPENDENT`.
 */
module Items {
  import opened Wrappers
  import opened Text
  import opened Seqs
  import opened Records
  import opened MemoryCacheProvider
  import opened RowStore
  import opened PluginConfig
  import ItemCache

  // ---------------------------------------------------------------------------
  // Selections.

  /** The `where` of the page select in `getItems`: the owner is matched only in independent workspaces. */
  function OnPage(vaultId: int, page: int, player: Uuid, isIndependent: bool): Item -> bool
  {
    (it: Item) => it.vaultId == vaultId && it.page == page && (isIndependent ==> it.owner == Some(player))
  }

  /** The `where` of the vault select in `getAllItems`: the owner is matched only when independent and known. */
  function InVault(vaultId: int, player: Option<Uuid>, isIndependent: bool): Item -> bool
  {
    (it: Item) => it.vaultId == vaultId && (isIndependent && player.Some? ==> it.owner == player)
  }

  /** The `where` of the deletes in `setItem` and `removeItem`. */
  function AtSlot(vaultId: int, page: int, slot: int, player: Option<Uuid>, isIndependent: bool): Item -> bool
  {
    (it: Item) => it.vaultId == vaultId && it.page == page && it.slot == slot
                  && (isIndependent ==> it.owner == player)
  }

  function PageRows(rows: map<int, Item>, n: nat, vaultId: int, page: int, player: Uuid, isIndependent: bool): seq<Item>
  {
    Rows(rows, n, OnPage(vaultId, page, player, isIndependent))
  }

  function VaultRows(rows: map<int, Item>, n: nat, vaultId: int, player: Option<Uuid>, isIndependent: bool): seq<Item>
  {
    Rows(rows, n, InVault(vaultId, player, isIndependent))
  }

  function PageKeyOf(vaultId: int, page: int, player: Uuid, isIndependent: bool): string
  {
    ItemCache.PageKey(vaultId, page, ItemCache.EffectiveOwner(Some(player), isIndependent))
  }

  function AllKeyOf(vaultId: int, player: Option<Uuid>, isIndependent: bool): string
  {
    ItemCache.AllKey(vaultId, ItemCache.EffectiveOwner(player, isIndependent))
  }

  /** A selection holds exactly the stored rows below the counter that satisfy its condition. */
  lemma SelectionExact(rows: map<int, Item>, n: nat, p: Item -> bool, x: Item)
    requires forall k | k in rows :: 0 <= k < n && rows[k].id == k
    ensures x in Rows(rows, n, p) <==> x.id in rows && rows[x.id] == x && p(x)
  {
    if x in Rows(rows, n, p) {
      RowsSound(rows, n, p, x);
    }
    if x.id in rows && rows[x.id] == x && p(x) {
      RowsComplete(rows, n, p, x.id);
    }
  }

  // ---------------------------------------------------------------------------
  // Reads.

  /** What `getItems` returns: the cached page on a hit, the selected rows on a miss. */
  function PageRead(m: Entries, rows: map<int, Item>, n: nat, vaultId: int, page: int, player: Uuid,
                    isIndependent: bool, now: int): seq<Item>
  {
    match ItemCache.CachedItems(m, PageKeyOf(vaultId, page, player, isIndependent), now)
    case Some(xs) => xs
    case None => PageRows(rows, n, vaultId, page, player, isIndependent)
  }

  /** The cache after `getItems`: on a miss the selected rows are stored under the page key. */
  function EntriesAfterPageRead(m: Entries, rows: map<int, Item>, n: nat, vaultId: int, page: int, player: Uuid,
                                isIndependent: bool, now: int, cfg: Config): Entries
  {
    var key := PageKeyOf(vaultId, page, player, isIndependent);
    match ItemCache.CachedItems(m, key, now)
    case Some(_) => Touch(m, key, now)
    case None => m[key := CacheEntry(ItemList(PageRows(rows, n, vaultId, page, player, isIndependent)),
                                     ExpireAt(now, cfg.ttlMs))]
  }

  method GetItems(c: MemoryCache, t: ItemTable, vaultId: int, page: int, player: Uuid, isIndependent: bool,
                  now: int, cfg: Config)
    returns (r: seq<Item>)
    modifies c
    ensures r == PageRead(old(c.entries), t.rows, t.nextId, vaultId, page, player, isIndependent, now)
    ensures c.entries == EntriesAfterPageRead(old(c.entries), t.rows, t.nextId, vaultId, page, player,
                                              isIndependent, now, cfg)
  {
    var cached := ItemCache.GetPageItems(c, vaultId, page, Some(player), isIndependent, now);
    if cached.Some? {
      return cached.value;
    }
    r := PageRows(t.rows, t.nextId, vaultId, page, player, isIndependent);
    ItemCache.UpdatePageItems(c, vaultId, page, Some(player), isIndependent, r, now, cfg);
    TouchThenSet(old(c.entries), PageKeyOf(vaultId, page, player, isIndependent),
                 CacheEntry(ItemList(r), ExpireAt(now, cfg.ttlMs)), now);
  }

  /** What the private `getAllItems` returns. */
  function VaultRead(m: Entries, rows: map<int, Item>, n: nat, vaultId: int, player: Option<Uuid>,
                     isIndependent: bool, now: int): seq<Item>
  {
    match ItemCache.CachedItems(m, AllKeyOf(vaultId, player, isIndependent), now)
    case Some(xs) => xs
    case None => VaultRows(rows, n, vaultId, player, isIndependent)
  }

  function EntriesAfterVaultRead(m: Entries, rows: map<int, Item>, n: nat, vaultId: int, player: Option<Uuid>,
                                 isIndependent: bool, now: int, cfg: Config): Entries
  {
    var key := AllKeyOf(vaultId, player, isIndependent);
    match ItemCache.CachedItems(m, key, now)
    case Some(_) => Touch(m, key, now)
    case None => m[key := CacheEntry(ItemList(VaultRows(rows, n, vaultId, player, isIndependent)),
                                     ExpireAt(now, cfg.ttlMs))]
  }

  method GetAllItems(c: MemoryCache, t: ItemTable, vaultId: int, player: Option<Uuid>, isIndependent: bool,
                     now: int, cfg: Config)
    returns (r: seq<Item>)
    modifies c
    ensures r == VaultRead(old(c.entries), t.rows, t.nextId, vaultId, player, isIndependent, now)
    ensures c.entries == EntriesAfterVaultRead(old(c.entries), t.rows, t.nextId, vaultId, player,
                                               isIndependent, now, cfg)
  {
    var cached := ItemCache.GetAllItems(c, vaultId, player, isIndependent, now);
    if cached.Some? {
      return cached.value;
    }
    r := VaultRows(t.rows, t.nextId, vaultId, player, isIndependent);
    ItemCache.UpdateAllItems(c, vaultId, player, isIndependent, r, now, cfg);
    TouchThenSet(old(c.entries), AllKeyOf(vaultId, player, isIndependent),
                 CacheEntry(ItemList(r), ExpireAt(now, cfg.ttlMs)), now);
  }

  // ---------------------------------------------------------------------------
  // Cache coherence. The cache's copies of written items carry id 0, so a
  // cached list is compared with the store with ids left out.

  function Unnumbered(xs: seq<Item>): (r: seq<Item>)
    ensures |r| == |xs|
    ensures forall i | 0 <= i < |xs| :: r[i] == xs[i].(id := 0)
  {
    seq(|xs|, i requires 0 <= i < |xs| => xs[i].(id := 0))
  }

  /** The cached page, if live, lists the selected rows in order, ids aside. */
  predicate PageCoherent(m: Entries, rows: map<int, Item>, n: nat, vaultId: int, page: int, player: Uuid,
                         isIndependent: bool, now: int)
  {
    match ItemCache.CachedItems(m, PageKeyOf(vaultId, page, player, isIndependent), now)
    case Some(xs) => Unnumbered(xs) == Unnumbered(PageRows(rows, n, vaultId, page, player, isIndependent))
    case None => true
  }

  /** The cached vault list, if live, lists the selected rows in order, ids aside. */
  predicate VaultCoherent(m: Entries, rows: map<int, Item>, n: nat, vaultId: int, player: Option<Uuid>,
                          isIndependent: bool, now: int)
  {
    match ItemCache.CachedItems(m, AllKeyOf(vaultId, player, isIndependent), now)
    case Some(xs) => Unnumbered(xs) == Unnumbered(VaultRows(rows, n, vaultId, player, isIndependent))
    case None => true
  }

  /** With a coherent cache `getItems` answers the store's rows, and it keeps the page coherent. */
  lemma PageReadCoherent(m: Entries, rows: map<int, Item>, n: nat, vaultId: int, page: int, player: Uuid,
                         isIndependent: bool, now: int, cfg: Config)
    ensures PageCoherent(m, rows, n, vaultId, page, player, isIndependent, now) ==>
              Unnumbered(PageRead(m, rows, n, vaultId, page, player, isIndependent, now))
              == Unnumbered(PageRows(rows, n, vaultId, page, player, isIndependent))
    ensures PageCoherent(m, rows, n, vaultId, page, player, isIndependent, now) ==>
            PageCoherent(EntriesAfterPageRead(m, rows, n, vaultId, page, player, isIndependent, now, cfg),
                         rows, n, vaultId, page, player, isIndependent, now)
  {
  }

  lemma VaultReadCoherent(m: Entries, rows: map<int, Item>, n: nat, vaultId: int, player: Option<Uuid>,
                          isIndependent: bool, now: int, cfg: Config)
    ensures VaultCoherent(m, rows, n, vaultId, player, isIndependent, now) ==>
              Unnumbered(VaultRead(m, rows, n, vaultId, player, isIndependent, now))
              == Unnumbered(VaultRows(rows, n, vaultId, player, isIndependent))
    ensures VaultCoherent(m, rows, n, vaultId, player, isIndependent, now) ==>
            VaultCoherent(EntriesAfterVaultRead(m, rows, n, vaultId, player, isIndependent, now, cfg),
                          rows, n, vaultId, player, isIndependent, now)
  {
  }

  // ---------------------------------------------------------------------------
  // Search.

  /** The `params["name"]` and `params["lore"]` conditions; a missing parameter constrains nothing. */
  predicate MatchesSearch(it: Item, params: map<string, string>)
  {
    ("name" in params ==> ContainsIgnoreCase(it.stack.name, params["name"]))
    && ("lore" in params ==> exists i | 0 <= i < |it.stack.lore| :: ContainsIgnoreCase(it.stack.lore[i], params["lore"]))
  }

  function SearchFilter(params: map<string, string>): Item -> bool
  {
    (it: Item) => MatchesSearch(it, params)
  }

  method SearchItems(c: MemoryCache, t: ItemTable, vaultId: int, params: map<string, string>, player: Option<Uuid>,
                     isIndependent: bool, now: int, cfg: Config)
    returns (r: seq<Item>)
    modifies c
    ensures r == Filter(VaultRead(old(c.entries), t.rows, t.nextId, vaultId, player, isIndependent, now),
                        SearchFilter(params))
    ensures c.entries == EntriesAfterVaultRead(old(c.entries), t.rows, t.nextId, vaultId, player,
                                               isIndependent, now, cfg)
  {
    var all := GetAllItems(c, t, vaultId, player, isIndependent, now, cfg);
    r := Filter(all, SearchFilter(params));
  }

  /**
   * A search result keeps, in their order, exactly the items whose name
   * contains the name parameter and some lore line of which contains the lore
   * parameter; with neither parameter it is the whole list.
   */
  lemma SearchSpec(all: seq<Item>, params: map<string, string>)
    ensures var r := Filter(all, SearchFilter(params));
            IsSubsequence(r, all)
            && (forall x :: x in r <==> x in all && MatchesSearch(x, params))
            && ("name" !in params && "lore" !in params ==> r == all)
  {
    FilterIsSubsequence(all, SearchFilter(params));
    if "name" !in params && "lore" !in params {
      FilterKeepsAll(all, SearchFilter(params));
    }
  }

  // ---------------------------------------------------------------------------
  // Materials, sorted by position.

  /** `compareBy({ it.page }, { it.slot })`: `a` does not come after `b`. */
  predicate NotAfter(a: Item, b: Item)
  {
    a.page < b.page || (a.page == b.page && a.slot <= b.slot)
  }

  predicate SortedByPosition(xs: seq<Item>)
  {
    forall i, j | 0 <= i < j < |xs| :: NotAfter(xs[i], xs[j])
  }

  /** Insert `x` before the first element it does not come after; equal positions keep their order. */
  function InsertByPosition(x: Item, ys: seq<Item>): (r: seq<Item>)
    ensures multiset(r) == multiset(ys) + multiset{x}
  {
    if ys == [] || NotAfter(x, ys[0]) then [x] + ys
    else
      assert ys == [ys[0]] + ys[1..];
      [ys[0]] + InsertByPosition(x, ys[1..])
  }

  lemma {:induction false} InsertKeepsSorted(x: Item, ys: seq<Item>)
    requires SortedByPosition(ys)
    ensures SortedByPosition(InsertByPosition(x, ys))
    decreases |ys|
  {
    if ys == [] || NotAfter(x, ys[0]) {
    } else {
      var rest := InsertByPosition(x, ys[1..]);
      InsertKeepsSorted(x, ys[1..]);
      forall y | y in rest
        ensures NotAfter(ys[0], y)
      {
        assert y in multiset(rest);
      }
      var r := [ys[0]] + rest;
      forall i, j | 0 <= i < j < |r|
        ensures NotAfter(r[i], r[j])
      {
        if i == 0 {
          assert r[j] in rest;
        } else {
          assert r[i] == rest[i - 1] && r[j] == rest[j - 1];
        }
      }
    }
  }

  /** `sortedWith(compareBy({ it.page }, { it.slot }))` as an insertion sort. */
  function SortByPosition(xs: seq<Item>): (r: seq<Item>)
    ensures multiset(r) == multiset(xs)
  {
    if xs == [] then []
    else
      assert xs == [xs[0]] + xs[1..];
      InsertByPosition(xs[0], SortByPosition(xs[1..]))
  }

  lemma {:induction false} SortIsSorted(xs: seq<Item>)
    ensures SortedByPosition(SortByPosition(xs))
    decreases |xs|
  {
    if xs != [] {
      SortIsSorted(xs[1..]);
      InsertKeepsSorted(xs[0], SortByPosition(xs[1..]));
    }
  }

  function MaterialFilter(materials: set<Material>): Item -> bool
  {
    (it: Item) => it.stack.material in materials
  }

  method GetItemsByMaterials(c: MemoryCache, t: ItemTable, vaultId: int, materials: set<Material>,
                             player: Option<Uuid>, isIndependent: bool, now: int, cfg: Config)
    returns (r: seq<Item>)
    modifies c
    ensures r == SortByPosition(Filter(VaultRead(old(c.entries), t.rows, t.nextId, vaultId, player,
                                                 isIndependent, now), MaterialFilter(materials)))
    ensures c.entries == EntriesAfterVaultRead(old(c.entries), t.rows, t.nextId, vaultId, player,
                                               isIndependent, now, cfg)
  {
    var all := GetAllItems(c, t, vaultId, player, isIndependent, now, cfg);
    r := SortByPosition(Filter(all, MaterialFilter(materials)));
  }

  /** The result is sorted by (page, slot) and is a permutation of the items whose material is in the set. */
  lemma ByMaterialsSpec(all: seq<Item>, materials: set<Material>)
    ensures var r := SortByPosition(Filter(all, MaterialFilter(materials)));
            SortedByPosition(r)
            && multiset(r) == multiset(Filter(all, MaterialFilter(materials)))
            && (forall x :: x in r <==> x in all && x.stack.material in materials)
  {
    var f := Filter(all, MaterialFilter(materials));
    SortIsSorted(f);
    forall x
      ensures x in SortByPosition(f) <==> x in f
    {
      assert x in SortByPosition(f) <==> x in multiset(SortByPosition(f));
      assert x in f <==> x in multiset(f);
    }
  }

  // ---------------------------------------------------------------------------
  // Writes.

  /** The item table after `setItem`: rows at the slot deleted, then one row inserted with the next id. */
  function RowsAfterSet(rows: map<int, Item>, n: nat, vaultId: int, page: int, slot: int, stack: ItemStack,
                        player: Option<Uuid>, isIndependent: bool): map<int, Item>
  {
    var owner := ItemCache.EffectiveOwner(player, isIndependent);
    DeleteWhere(rows, AtSlot(vaultId, page, slot, owner, isIndependent))[n := Item(n, vaultId, page, owner, slot, stack)]
  }

  /** The copy `setItem` hands the cache: the same columns with id 0. */
  function CachedCopy(vaultId: int, page: int, slot: int, stack: ItemStack, player: Option<Uuid>,
                      isIndependent: bool): Item
  {
    Item(0, vaultId, page, ItemCache.EffectiveOwner(player, isIndependent), slot, stack)
  }

  function EntriesAfterSet(m: Entries, vaultId: int, page: int, slot: int, stack: ItemStack,
                           player: Option<Uuid>, isIndependent: bool, now: int, cfg: Config): Entries
  {
    var o := ItemCache.EffectiveOwner(player, isIndependent);
    var item := CachedCopy(vaultId, page, slot, stack, player, isIndependent);
    var e := ExpireAt(now, cfg.ttlMs);
    ItemCache.Patch(ItemCache.Patch(m, ItemCache.PageKey(vaultId, page, o), now,
                                    (xs: seq<Item>) => ItemCache.PlaceInPage(xs, slot, item), e),
                    ItemCache.AllKey(vaultId, o), now, (xs: seq<Item>) => ItemCache.PlaceInAll(xs, page, slot, item), e)
  }

  /** `setItem`; `player!!` makes a player mandatory in an independent workspace. The event is not modelled. */
  method SetItem(c: MemoryCache, t: ItemTable, vaultId: int, page: int, slot: int, stack: ItemStack,
                 player: Option<Uuid>, isIndependent: bool, now: int, cfg: Config)
    requires isIndependent ==> player.Some?
    requires t.Valid()
    modifies c, t
    ensures t.Valid() && t.nextId == old(t.nextId) + 1
    ensures t.rows == RowsAfterSet(old(t.rows), old(t.nextId), vaultId, page, slot, stack, player, isIndependent)
    ensures c.entries == EntriesAfterSet(old(c.entries), vaultId, page, slot, stack, player, isIndependent, now, cfg)
  {
    var owner := ItemCache.EffectiveOwner(player, isIndependent);
    t.DeleteAll(AtSlot(vaultId, page, slot, owner, isIndependent));
    var _ := t.Insert(Item(0, vaultId, page, owner, slot, stack));
    ItemCache.AddOrUpdate(c, vaultId, page, slot, owner, isIndependent,
                          CachedCopy(vaultId, page, slot, stack, player, isIndependent), now, cfg);
  }

  function RowsAfterRemove(rows: map<int, Item>, vaultId: int, page: int, slot: int, player: Option<Uuid>,
                           isIndependent: bool): map<int, Item>
  {
    DeleteWhere(rows, AtSlot(vaultId, page, slot, ItemCache.EffectiveOwner(player, isIndependent), isIndependent))
  }

  /** The cache after `removeItem`: the slot dropped from the cached page list and from the cached full list. */
  function EntriesAfterRemove(m: Entries, vaultId: int, page: int, slot: int, player: Option<Uuid>,
                              isIndependent: bool, now: int, cfg: Config): Entries
  {
    var o := ItemCache.EffectiveOwner(player, isIndependent);
    var e := ExpireAt(now, cfg.ttlMs);
    ItemCache.Patch(ItemCache.Patch(m, ItemCache.PageKey(vaultId, page, o), now,
                                    (xs: seq<Item>) => ItemCache.WithoutSlot(xs, slot), e),
                    ItemCache.AllKey(vaultId, o), now, (xs: seq<Item>) => ItemCache.WithoutPosition(xs, page, slot), e)
  }

  /** `removeItem`; the event is not modelled. */
  method RemoveItem(c: MemoryCache, t: ItemTable, vaultId: int, page: int, slot: int,
                    player: Option<Uuid>, isIndependent: bool, now: int, cfg: Config)
    requires isIndependent ==> player.Some?
    requires t.Valid()
    modifies c, t
    ensures t.Valid() && t.nextId == old(t.nextId)
    ensures t.rows == RowsAfterRemove(old(t.rows), vaultId, page, slot, player, isIndependent)
    ensures c.entries == EntriesAfterRemove(old(c.entries), vaultId, page, slot, player, isIndependent, now, cfg)
  {
    var owner := ItemCache.EffectiveOwner(player, isIndependent);
    t.DeleteAll(AtSlot(vaultId, page, slot, owner, isIndependent));
    ItemCache.Remove(c, vaultId, page, slot, owner, isIndependent, now, cfg);
  }

  // ---------------------------------------------------------------------------
  // What the writes do to the table.

  /** No two rows of a vault share a slot key: (page, slot), and the owner too in an independent workspace. */
  predicate SlotsUnique(rows: map<int, Item>, vaultId: int, isIndependent: bool)
  {
    forall j, k | j in rows && k in rows && j != k && rows[j].vaultId == vaultId && rows[k].vaultId == vaultId ::
      !(rows[j].page == rows[k].page && rows[j].slot == rows[k].slot
        && (isIndependent ==> rows[j].owner == rows[k].owner))
  }

  /**
   * After `setItem` the slot key holds exactly one row, the new one, with the
   * owner recorded only in an independent workspace; every row at another key
   * is kept as it was.
   */
  lemma SetLeavesOne(rows: map<int, Item>, n: nat, vaultId: int, page: int, slot: int, stack: ItemStack,
                     player: Option<Uuid>, isIndependent: bool)
    requires forall k | k in rows :: 0 <= k < n
    ensures var r := RowsAfterSet(rows, n, vaultId, page, slot, stack, player, isIndependent);
            var at := AtSlot(vaultId, page, slot, ItemCache.EffectiveOwner(player, isIndependent), isIndependent);
            n in r && at(r[n]) && r[n].stack == stack
            && r[n].owner == (if isIndependent then player else None)
            && (forall k | k in r && at(r[k]) :: k == n)
            && (forall k | k in rows && !at(rows[k]) :: k in r && r[k] == rows[k])
  {
  }

  /** `setItem` keeps slot keys unique in every vault. */
  lemma SetKeepsUnique(rows: map<int, Item>, n: nat, vaultId: int, page: int, slot: int, stack: ItemStack,
                       player: Option<Uuid>, isIndependent: bool, other: int)
    requires forall k | k in rows :: 0 <= k < n
    requires SlotsUnique(rows, other, isIndependent)
    ensures SlotsUnique(RowsAfterSet(rows, n, vaultId, page, slot, stack, player, isIndependent), other, isIndependent)
  {
    var r := RowsAfterSet(rows, n, vaultId, page, slot, stack, player, isIndependent);
    var at := AtSlot(vaultId, page, slot, ItemCache.EffectiveOwner(player, isIndependent), isIndependent);
    forall j, k | j in r && k in r && j != k && r[j].vaultId == other && r[k].vaultId == other
      ensures !(r[j].page == r[k].page && r[j].slot == r[k].slot && (isIndependent ==> r[j].owner == r[k].owner))
    {
      if j == n {
        assert k in rows && !at(rows[k]);
      } else if k == n {
        assert j in rows && !at(rows[j]);
      } else {
        assert r[j] == rows[j] && r[k] == rows[k];
      }
    }
  }

  /** After `removeItem` no row is left at the key, and every row at another key is kept. */
  lemma RemoveClears(rows: map<int, Item>, vaultId: int, page: int, slot: int, player: Option<Uuid>,
                     isIndependent: bool)
    ensures var r := RowsAfterRemove(rows, vaultId, page, slot, player, isIndependent);
            var at := AtSlot(vaultId, page, slot, ItemCache.EffectiveOwner(player, isIndependent), isIndependent);
            (forall k | k in r :: !at(r[k]))
            && (forall k | k in rows && !at(rows[k]) :: k in r && r[k] == rows[k])
            && (SlotsUnique(rows, vaultId, isIndependent) ==> SlotsUnique(r, vaultId, isIndependent))
  {
  }

  /** Removing a slot after setting it leaves the table removing it alone would, apart from the spent id. */
  lemma RemoveUndoesSet(rows: map<int, Item>, n: nat, vaultId: int, page: int, slot: int, stack: ItemStack,
                        player: Option<Uuid>, isIndependent: bool)
    requires forall k | k in rows :: 0 <= k < n
    ensures RowsAfterRemove(RowsAfterSet(rows, n, vaultId, page, slot, stack, player, isIndependent),
                            vaultId, page, slot, player, isIndependent)
            == RowsAfterRemove(rows, vaultId, page, slot, player, isIndependent)
  {
    var owner := ItemCache.EffectiveOwner(player, isIndependent);
    assert ItemCache.EffectiveOwner(owner, isIndependent) == owner;
  }

  // ---------------------------------------------------------------------------
  // Write-through keeps the cache coherent.

  lemma UnnumberedConcat(a: seq<Item>, b: seq<Item>)
    ensures Unnumbered(a + b) == Unnumbered(a) + Unnumbered(b)
  {
  }

  /** Leaving out ids commutes with a filter that does not look at them. */
  lemma {:induction false} UnnumberedFilter(xs: seq<Item>, f: Item -> bool)
    requires forall x | x in xs :: f(x) == f(x.(id := 0))
    ensures Unnumbered(Filter(xs, f)) == Filter(Unnumbered(xs), f)
    decreases |xs|
  {
    if xs != [] {
      var tail, u := xs[1..], Unnumbered(xs);
      assert forall x | x in tail :: x in xs;
      UnnumberedFilter(tail, f);
      var head := if f(xs[0]) then [xs[0]] else [];
      UnnumberedConcat(head, Filter(tail, f));
      assert u[1..] == Unnumbered(tail);
      assert f(u[0]) == f(xs[0]) by {
        assert xs[0] in xs && u[0] == xs[0].(id := 0);
      }
      assert Unnumbered(head) == if f(xs[0]) then [u[0]] else [];
      assert Filter(u, f) == (if f(u[0]) then [u[0]] else []) + Filter(u[1..], f);
    }
  }

  /** Lists equal ids aside stay equal ids aside when both drop the same positions and gain the same item. */
  lemma UnnumberedPlace(xs: seq<Item>, prev: seq<Item>, f: Item -> bool, item: Item, row: Item)
    requires Unnumbered(xs) == Unnumbered(prev)
    requires forall x | x in xs :: f(x) == f(x.(id := 0))
    requires forall x | x in prev :: f(x) == f(x.(id := 0))
    requires item.(id := 0) == row.(id := 0)
    ensures Unnumbered(Filter(xs, f) + [item]) == Unnumbered(Filter(prev, f) + [row])
  {
    UnnumberedFilter(xs, f);
    UnnumberedFilter(prev, f);
    UnnumberedConcat(Filter(xs, f), [item]);
    UnnumberedConcat(Filter(prev, f), [row]);
  }

  /** The page select after `setItem`: the old page without the slot, then the new row. */
  lemma PageRowsAfterSet(rows: map<int, Item>, n: nat, vaultId: int, page: int, slot: int, stack: ItemStack,
                         player: Option<Uuid>, isIndependent: bool, reader: Uuid)
    requires forall k | k in rows :: 0 <= k < n
    requires isIndependent ==> player == Some(reader)
    ensures PageRows(RowsAfterSet(rows, n, vaultId, page, slot, stack, player, isIndependent), n + 1,
                     vaultId, page, reader, isIndependent)
            == ItemCache.WithoutSlot(PageRows(rows, n, vaultId, page, reader, isIndependent), slot)
               + [Item(n, vaultId, page, ItemCache.EffectiveOwner(player, isIndependent), slot, stack)]
  {
    var owner := ItemCache.EffectiveOwner(player, isIndependent);
    var q := AtSlot(vaultId, page, slot, owner, isIndependent);
    var p := OnPage(vaultId, page, reader, isIndependent);
    var notSlot := (it: Item) => it.slot != slot;
    var h := (it: Item) => p(it) && notSlot(it);
    var d := DeleteWhere(rows, q);
    var r := RowsAfterSet(rows, n, vaultId, page, slot, stack, player, isIndependent);
    RowsBelow(r, d, n, p);
    RowsAfterDelete(rows, n, p, q, h);
    RowsFilter(rows, n, p, notSlot, h);
  }

  /** The vault select after `setItem`: the old list without the position, then the new row. */
  lemma VaultRowsAfterSet(rows: map<int, Item>, n: nat, vaultId: int, page: int, slot: int, stack: ItemStack,
                          player: Option<Uuid>, isIndependent: bool, reader: Option<Uuid>)
    requires forall k | k in rows :: 0 <= k < n
    requires isIndependent ==> player.Some? && reader == player
    ensures VaultRows(RowsAfterSet(rows, n, vaultId, page, slot, stack, player, isIndependent), n + 1,
                      vaultId, reader, isIndependent)
            == ItemCache.WithoutPosition(VaultRows(rows, n, vaultId, reader, isIndependent), page, slot)
               + [Item(n, vaultId, page, ItemCache.EffectiveOwner(player, isIndependent), slot, stack)]
  {
    var owner := ItemCache.EffectiveOwner(player, isIndependent);
    var q := AtSlot(vaultId, page, slot, owner, isIndependent);
    var p := InVault(vaultId, reader, isIndependent);
    var notAt := (it: Item) => !(it.page == page && it.slot == slot);
    var h := (it: Item) => p(it) && notAt(it);
    var d := DeleteWhere(rows, q);
    var r := RowsAfterSet(rows, n, vaultId, page, slot, stack, player, isIndependent);
    RowsBelow(r, d, n, p);
    RowsAfterDelete(rows, n, p, q, h);
    RowsFilter(rows, n, p, notAt, h);
  }

  /**
   * `setItem` patches the cached page it writes so that it stays coherent
   * with the table: the write-through replaces invalidation without leaving
   * the page stale.
   */
  lemma SetKeepsPageCoherent(m: Entries, rows: map<int, Item>, n: nat, vaultId: int, page: int, slot: int,
                             stack: ItemStack, player: Option<Uuid>, isIndependent: bool, reader: Uuid,
                             now: int, cfg: Config)
    requires forall k | k in rows :: 0 <= k < n
    requires isIndependent ==> player == Some(reader)
    requires PageCoherent(m, rows, n, vaultId, page, reader, isIndependent, now)
    ensures PageCoherent(EntriesAfterSet(m, vaultId, page, slot, stack, player, isIndependent, now, cfg),
                         RowsAfterSet(rows, n, vaultId, page, slot, stack, player, isIndependent), n + 1,
                         vaultId, page, reader, isIndependent, now)
  {
    var owner := ItemCache.EffectiveOwner(player, isIndependent);
    var key := ItemCache.PageKey(vaultId, page, owner);
    var all := ItemCache.AllKey(vaultId, owner);
    assert PageKeyOf(vaultId, page, reader, isIndependent) == key;
    var item := CachedCopy(vaultId, page, slot, stack, player, isIndependent);
    var e := ExpireAt(now, cfg.ttlMs);
    var fPage := (xs: seq<Item>) => ItemCache.PlaceInPage(xs, slot, item);
    var fAll := (xs: seq<Item>) => ItemCache.PlaceInAll(xs, page, slot, item);
    var m1 := ItemCache.Patch(m, key, now, fPage, e);
    ItemCache.PageKeyIsNotAllKey(vaultId, page, owner, vaultId, owner);
    ItemCache.PatchNeverCreates(m1, all, now, fAll, e, key);
    ItemCache.PatchNeverCreates(m, key, now, fPage, e, key);
    assert ItemCache.CachedItems(ItemCache.Patch(m1, all, now, fAll, e), key, now) == ItemCache.CachedItems(m1, key, now);
    var after := ItemCache.CachedItems(m1, key, now);
    if after.Some? {
      var xs := ItemCache.CachedItems(m, key, now).value;
      var prev := PageRows(rows, n, vaultId, page, reader, isIndependent);
      var row := Item(n, vaultId, page, owner, slot, stack);
      assert after.value == ItemCache.WithoutSlot(xs, slot) + [item];
      PageRowsAfterSet(rows, n, vaultId, page, slot, stack, player, isIndependent, reader);
      UnnumberedPlace(xs, prev, (it: Item) => it.slot != slot, item, row);
    }
  }

  /** The vault-list counterpart, for the reader whose list `setItem` patches. */
  lemma SetKeepsVaultCoherent(m: Entries, rows: map<int, Item>, n: nat, vaultId: int, page: int, slot: int,
                              stack: ItemStack, player: Option<Uuid>, isIndependent: bool, reader: Option<Uuid>,
                              now: int, cfg: Config)
    requires forall k | k in rows :: 0 <= k < n
    requires isIndependent ==> player.Some? && reader == player
    requires VaultCoherent(m, rows, n, vaultId, reader, isIndependent, now)
    ensures VaultCoherent(EntriesAfterSet(m, vaultId, page, slot, stack, player, isIndependent, now, cfg),
                          RowsAfterSet(rows, n, vaultId, page, slot, stack, player, isIndependent), n + 1,
                          vaultId, reader, isIndependent, now)
  {
    var owner := ItemCache.EffectiveOwner(player, isIndependent);
    var key := ItemCache.PageKey(vaultId, page, owner);
    var all := ItemCache.AllKey(vaultId, owner);
    assert AllKeyOf(vaultId, reader, isIndependent) == all;
    var item := CachedCopy(vaultId, page, slot, stack, player, isIndependent);
    var e := ExpireAt(now, cfg.ttlMs);
    var fPage := (xs: seq<Item>) => ItemCache.PlaceInPage(xs, slot, item);
    var fAll := (xs: seq<Item>) => ItemCache.PlaceInAll(xs, page, slot, item);
    var m1 := ItemCache.Patch(m, key, now, fPage, e);
    ItemCache.PageKeyIsNotAllKey(vaultId, page, owner, vaultId, owner);
    ItemCache.PatchNeverCreates(m, key, now, fPage, e, all);
    assert ItemCache.CachedItems(m1, all, now) == ItemCache.CachedItems(m, all, now);
    ItemCache.PatchNeverCreates(m1, all, now, fAll, e, all);
    var after := ItemCache.CachedItems(ItemCache.Patch(m1, all, now, fAll, e), all, now);
    if after.Some? {
      var xs := ItemCache.CachedItems(m, all, now).value;
      var prev := VaultRows(rows, n, vaultId, reader, isIndependent);
      var row := Item(n, vaultId, page, owner, slot, stack);
      assert after.value == ItemCache.WithoutPosition(xs, page, slot) + [item];
      VaultRowsAfterSet(rows, n, vaultId, page, slot, stack, player, isIndependent, reader);
      UnnumberedPlace(xs, prev, (it: Item) => !(it.page == page && it.slot == slot), item, row);
    }
  }

  /** Page keys of two owners differ in their last segment. */
  lemma OwnerKeysDiffer(vaultId: int, page: int, u: Uuid, w: Uuid)
    requires u != w
    ensures ItemCache.PageKey(vaultId, page, Some(u)) != ItemCache.PageKey(vaultId, page, Some(w))
    ensures ItemCache.AllKey(vaultId, Some(u)) != ItemCache.PageKey(vaultId, page, Some(w))
  {
    var head := ItemCache.PagePrefixHead + IntToString(vaultId) + ":" + IntToString(page) + ":";
    assert ItemCache.PageKey(vaultId, page, Some(u)) == head + u;
    assert ItemCache.PageKey(vaultId, page, Some(w)) == head + w;
    assert (head + u)[|head|..] == u && (head + w)[|head|..] == w;
    ItemCache.PageKeyIsNotAllKey(vaultId, page, Some(w), vaultId, Some(u));
  }

  /**
   * In an independent workspace, one player's `setItem` leaves every other
   * player's page selection and cached page as they were, so their coherence
   * is kept too.
   */
  lemma SetLeavesOtherOwners(m: Entries, rows: map<int, Item>, n: nat, vaultId: int, page: int, slot: int,
                             stack: ItemStack, writer: Uuid, reader: Uuid, now: int, cfg: Config)
    requires forall k | k in rows :: 0 <= k < n
    requires writer != reader
    ensures PageRows(RowsAfterSet(rows, n, vaultId, page, slot, stack, Some(writer), true), n + 1,
                     vaultId, page, reader, true)
            == PageRows(rows, n, vaultId, page, reader, true)
    ensures PageCoherent(m, rows, n, vaultId, page, reader, true, now) ==>
              PageCoherent(EntriesAfterSet(m, vaultId, page, slot, stack, Some(writer), true, now, cfg),
                           RowsAfterSet(rows, n, vaultId, page, slot, stack, Some(writer), true), n + 1,
                           vaultId, page, reader, true, now)
  {
    OtherOwnerRowsKept(rows, n, vaultId, page, slot, stack, writer, reader);
    var item := CachedCopy(vaultId, page, slot, stack, Some(writer), true);
    var e := ExpireAt(now, cfg.ttlMs);
    var key := ItemCache.PageKey(vaultId, page, Some(writer));
    var mine := PageKeyOf(vaultId, page, reader, true);
    var m1 := ItemCache.Patch(m, key, now, (xs: seq<Item>) => ItemCache.PlaceInPage(xs, slot, item), e);
    OwnerKeysDiffer(vaultId, page, writer, reader);
    ItemCache.PatchNeverCreates(m, key, now, (xs: seq<Item>) => ItemCache.PlaceInPage(xs, slot, item), e, mine);
    ItemCache.PatchNeverCreates(m1, ItemCache.AllKey(vaultId, Some(writer)), now,
                                (xs: seq<Item>) => ItemCache.PlaceInAll(xs, page, slot, item), e, mine);
  }

  /** The store half: another owner's independent page reads the same rows after the write. */
  lemma OtherOwnerRowsKept(rows: map<int, Item>, n: nat, vaultId: int, page: int, slot: int,
                           stack: ItemStack, writer: Uuid, reader: Uuid)
    requires forall k | k in rows :: 0 <= k < n
    requires writer != reader
    ensures PageRows(RowsAfterSet(rows, n, vaultId, page, slot, stack, Some(writer), true), n + 1,
                     vaultId, page, reader, true)
            == PageRows(rows, n, vaultId, page, reader, true)
  {
    var q := AtSlot(vaultId, page, slot, Some(writer), true);
    var p := OnPage(vaultId, page, reader, true);
    var h := (it: Item) => p(it) && !q(it);
    var d := DeleteWhere(rows, q);
    var r := RowsAfterSet(rows, n, vaultId, page, slot, stack, Some(writer), true);
    RowsBelow(r, d, n, p);
    RowsAfterDelete(rows, n, p, q, h);
    RowsAgree(rows, n, h, p);
  }
}
