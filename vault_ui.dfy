/**
 * The state of one open vault screen: the page shown in normal mode, the
 * search parameters, the search results and the search page, plus the slot
 * arithmetic the screen relies on (locked slots on the last page, search
 * pages of 36 virtual slots, the first free slot of the vault). Building the
 * inventory, click routing and the events are outside the model.
 */
module VaultScreen {
  import opened Wrappers
  import opened Seqs
  import opened Records
  import opened MemoryCacheProvider
  import opened RowStore
  import opened PluginConfig
  import Vaults
  import Items
  import ItemCache

  // ---------------------------------------------------------------------------
  // Locked slots.

  /** Kotlin's `%` on Int: the remainder takes the sign of the dividend. */
  function KotlinRem(a: int, b: int): (r: int)
    requires b > 0
    ensures a >= 0 ==> r == a % b
    ensures a < 0 ==> r == -((-a) % b)
  {
    if a >= 0 then a % b else -((-a) % b)
  }

  /**
   * `getLockedSlots` as a half-open range `lo..<hi`: only the last page has
   * locked slots; all of them when the vault has no size, none when the size
   * fills whole pages, and those from `size % 36` on otherwise.
   */
  function LockedSlots(size: int, page: int): (r: Option<(int, int)>)
  {
    if page == Vaults.MaxPage(size) then
      var lock := KotlinRem(size, SlotsPerPage);
      if size == 0 then Some((0, SlotsPerPage))
      else if lock == 0 then None
      else Some((lock, SlotsPerPage))
    else None
  }

  predicate Locked(size: int, page: int, slot: int)
  {
    var r := LockedSlots(size, page);
    r.Some? && r.value.0 <= slot < r.value.1
  }

  /** A slot of a page of the vault is unlocked exactly when its slot index lies below the size. */
  lemma UnlockedIff(size: int, page: int, slot: int)
    requires size >= 0 && 1 <= page <= Vaults.MaxPage(size) && 0 <= slot < SlotsPerPage
    ensures !Locked(size, page, slot) <==> (page - 1) * SlotsPerPage + slot < size
  {
    var maxPage := Vaults.MaxPage(size);
    if size == 0 {
      assert maxPage == 1;
    } else if page == maxPage {
      var lock := size % SlotsPerPage;
      assert size == (size / SlotsPerPage) * SlotsPerPage + lock;
      if lock == 0 {
        assert maxPage == size / SlotsPerPage;
      } else {
        assert maxPage == size / SlotsPerPage + 1;
      }
    }
  }

  // ---------------------------------------------------------------------------
  // Search pages.

  /** `getSearchMaxPage`: one page for no results, otherwise enough pages of 36 for all of them. */
  function SearchMaxPage(n: nat): (r: int)
    ensures r >= 1
    ensures n == 0 ==> r == 1
    ensures n > 0 ==> (r - 1) * SlotsPerPage < n <= r * SlotsPerPage
  {
    if n == 0 then 1 else (n + 35) / 36
  }

  /** `getSearchPageItems`: the results shown on a search page, empty past the end. */
  function SearchPageItems(results: seq<Item>, searchPage: int): (r: seq<Item>)
    requires searchPage >= 1
    ensures |r| <= SlotsPerPage
    ensures forall k | 0 <= k < |r| ::
              (searchPage - 1) * SlotsPerPage + k < |results| && r[k] == results[(searchPage - 1) * SlotsPerPage + k]
    ensures (searchPage - 1) * SlotsPerPage < |results| ==>
              |r| == Min(SlotsPerPage, |results| - (searchPage - 1) * SlotsPerPage)
    ensures (searchPage - 1) * SlotsPerPage >= |results| ==> r == []
  {
    var start := (searchPage - 1) * SlotsPerPage;
    var end := Min(start + SlotsPerPage, |results|);
    if start < |results| then results[start..end] else []
  }

  function Min(a: int, b: int): int
  {
    if a <= b then a else b
  }

  /** `getItemByVirtualSlot`: the result behind a virtual slot of the search page, if there is one. */
  function ItemByVirtualSlot(results: seq<Item>, searchPage: int, slot: int): (r: Option<Item>)
    ensures var k := (searchPage - 1) * SlotsPerPage + slot;
            (r.Some? <==> 0 <= k < |results|) && (r.Some? ==> r.value == results[k])
  {
    var k := (searchPage - 1) * SlotsPerPage + slot;
    if 0 <= k < |results| then Some(results[k]) else None
  }

  /**
   * Every search result is shown on exactly one page in range, and the
   * virtual slot it is shown in picks it out again.
   */
  lemma ResultOnItsPage(results: seq<Item>, k: int)
    requires 0 <= k < |results|
    ensures var p, s := k / SlotsPerPage + 1, k % SlotsPerPage;
            && 1 <= p <= SearchMaxPage(|results|)
            && s < |SearchPageItems(results, p)| && SearchPageItems(results, p)[s] == results[k]
            && ItemByVirtualSlot(results, p, s) == Some(results[k])
  {
    var p := k / SlotsPerPage + 1;
    assert (p - 1) * SlotsPerPage <= k < p * SlotsPerPage;
  }

  // ---------------------------------------------------------------------------
  // Normal-mode page turns.

  /** The previous-page button opens page `page - 1` unless on the first page. */
  function PrevPageTarget(page: int): (r: Option<int>)
    ensures r.Some? <==> page != 1
    ensures r.Some? ==> r.value == page - 1
  {
    if page != 1 then Some(page - 1) else None
  }

  /** The next-page button opens page `page + 1` unless on the last page. */
  function NextPageTarget(page: int, size: int): (r: Option<int>)
    ensures r.Some? <==> page != Vaults.MaxPage(size)
    ensures r.Some? ==> r.value == page + 1
  {
    if page != Vaults.MaxPage(size) then Some(page + 1) else None
  }

  /** Turning pages from a page in range lands on a page in range. */
  lemma PageTurnsStayInRange(page: int, size: int)
    requires 1 <= page <= Vaults.MaxPage(size)
    ensures PrevPageTarget(page).Some? ==> 1 <= PrevPageTarget(page).value <= Vaults.MaxPage(size)
    ensures NextPageTarget(page, size).Some? ==> 1 <= NextPageTarget(page, size).value <= Vaults.MaxPage(size)
  {
  }

  // ---------------------------------------------------------------------------
  // The first free slot.

  /** The occupancy `findFirstAvailableSlot` sees: slot `s` of page `p` holds an item of the page's list. */
  function PageTaken(m: Entries, rows: map<int, Item>, n: nat, vaultId: int, player: Uuid, isIndependent: bool,
                     now: int): (int, int) -> bool
  {
    (p: int, s: int) => exists it | it in Items.PageRead(m, rows, n, vaultId, p, player, isIndependent, now) :: it.slot == s
  }

  /** Reading one page leaves what every other page reads unchanged. */
  lemma PageReadFrame(m: Entries, rows: map<int, Item>, n: nat, vaultId: int, p: int, q: int, player: Uuid,
                      isIndependent: bool, now: int, cfg: Config)
    requires p != q
    ensures Items.PageRead(Items.EntriesAfterPageRead(m, rows, n, vaultId, p, player, isIndependent, now, cfg),
                           rows, n, vaultId, q, player, isIndependent, now)
            == Items.PageRead(m, rows, n, vaultId, q, player, isIndependent, now)
  {
    var o := ItemCache.EffectiveOwner(Some(player), isIndependent);
    ItemCache.PageKeysDiffer(vaultId, p, q, o);
    var kq := Items.PageKeyOf(vaultId, q, player, isIndependent);
    var after := Items.EntriesAfterPageRead(m, rows, n, vaultId, p, player, isIndependent, now, cfg);
    assert (kq in after <==> kq in m) && (kq in m ==> after[kq] == m[kq]);
  }

  /** The pages of `findFirstAvailableSlot` still to be read see the cache as it was when the scan began. */
  ghost predicate LaterPagesUnread(m: Entries, m0: Entries, rows: map<int, Item>, n: nat, vaultId: int, from: int,
                             player: Uuid, isIndependent: bool, now: int)
  {
    forall q | q >= from ::
      Items.PageRead(m, rows, n, vaultId, q, player, isIndependent, now)
      == Items.PageRead(m0, rows, n, vaultId, q, player, isIndependent, now)
  }

  // ---------------------------------------------------------------------------
  // The screen.

  class VaultUI {
    const opener: Uuid
    const vault: Vault
    /** `vault.workspace.type == INDEPENDENT`, resolved by the caller. */
    const isIndependent: bool
    var page: int
    var params: map<string, string>
    var searchResults: seq<Item>
    var searchPage: int

    /** The search page stays between the first and the last search page. */
    predicate Valid()
      reads this
    {
      1 <= searchPage <= SearchMaxPage(|searchResults|)
    }

    constructor(opener: Uuid, vault: Vault, isIndependent: bool, page: int)
      ensures Valid()
      ensures this.opener == opener && this.vault == vault && this.isIndependent == isIndependent
      ensures this.page == page && params == map[] && searchResults == [] && searchPage == 1
    {
      this.opener := opener;
      this.vault := vault;
      this.isIndependent := isIndependent;
      this.page := page;
      params := map[];
      searchResults := [];
      searchPage := 1;
    }

    /** The previous-page button of search mode. */
    method PrevSearchPage()
      requires Valid()
      modifies this
      ensures Valid()
      ensures searchPage == if old(searchPage) > 1 then old(searchPage) - 1 else old(searchPage)
      ensures page == old(page) && params == old(params) && searchResults == old(searchResults)
    {
      if searchPage > 1 {
        searchPage := searchPage - 1;
      }
    }

    /** The next-page button of search mode. */
    method NextSearchPage()
      requires Valid()
      modifies this
      ensures Valid()
      ensures searchPage == if old(searchPage) < SearchMaxPage(|old(searchResults)|) then old(searchPage) + 1
                            else old(searchPage)
      ensures page == old(page) && params == old(params) && searchResults == old(searchResults)
    {
      if searchPage < SearchMaxPage(|searchResults|) {
        searchPage := searchPage + 1;
      }
    }

    /** `refreshSearchResults`: the search is run again; a search page now past the end goes back to 1. */
    method RefreshSearchResults(c: MemoryCache, t: ItemTable, now: int, cfg: Config)
      requires Valid()
      modifies this, c
      ensures Valid()
      ensures searchResults == Filter(Items.VaultRead(old(c.entries), t.rows, t.nextId, vault.id, Some(opener),
                                                      isIndependent, now), Items.SearchFilter(params))
      ensures c.entries == Items.EntriesAfterVaultRead(old(c.entries), t.rows, t.nextId, vault.id, Some(opener),
                                                       isIndependent, now, cfg)
      ensures searchPage == if old(searchPage) > SearchMaxPage(|searchResults|) then 1 else old(searchPage)
      ensures page == old(page) && params == old(params)
    {
      var found := Items.SearchItems(c, t, vault.id, params, Some(opener), isIndependent, now, cfg);
      searchResults := found;
      if searchPage > SearchMaxPage(|searchResults|) {
        searchPage := 1;
      }
    }

    /** `search`: with parameters, the search is run and shown from its first page; without, nothing changes. */
    method Search(c: MemoryCache, t: ItemTable, now: int, cfg: Config)
      requires Valid()
      modifies this, c
      ensures Valid()
      ensures |params| == 0 ==> searchResults == old(searchResults) && searchPage == old(searchPage)
                                 && c.entries == old(c.entries)
      ensures |params| > 0 ==>
                && searchResults == Filter(Items.VaultRead(old(c.entries), t.rows, t.nextId, vault.id, Some(opener),
                                                           isIndependent, now), Items.SearchFilter(params))
                && searchPage == 1
                && c.entries == Items.EntriesAfterVaultRead(old(c.entries), t.rows, t.nextId, vault.id, Some(opener),
                                                            isIndependent, now, cfg)
      ensures page == old(page) && params == old(params)
    {
      if |params| == 0 {
        return;
      }
      var found := Items.SearchItems(c, t, vault.id, params, Some(opener), isIndependent, now, cfg);
      searchResults := found;
      searchPage := 1;
    }

    /** The exit button of search mode: back to the first page of normal mode. */
    method ExitSearch()
      modifies this
      ensures Valid()
      ensures params == map[] && searchResults == [] && searchPage == 1 && page == 1
    {
      params := map[];
      searchResults := [];
      searchPage := 1;
      page := 1;
    }

    /**
     * `findFirstAvailableSlot`: pages 1 to the last are read in turn, and the
     * first slot that holds no item and is not locked is the answer. For a
     * vault of non-negative size this is the first free slot index below the
     * size, with occupancy as the page reads saw it.
     */
    method FindFirstAvailableSlot(c: MemoryCache, t: ItemTable, now: int, cfg: Config)
      returns (r: Option<(int, int)>)
      modifies c
      ensures vault.size >= 0 ==>
                r == Vaults.FirstFree(PageTaken(old(c.entries), t.rows, t.nextId, vault.id, opener, isIndependent,
                                                now), vault.size)
    {
      var size := vault.size;
      var maxPage := Vaults.MaxPage(size);
      ghost var m0 := c.entries;
      ghost var taken := PageTaken(m0, t.rows, t.nextId, vault.id, opener, isIndependent, now);
      var p := 1;
      while p <= maxPage
        invariant 1 <= p && (maxPage >= 1 ==> p <= maxPage + 1)
        invariant LaterPagesUnread(c.entries, m0, t.rows, t.nextId, vault.id, p, opener, isIndependent, now)
        invariant size >= 0 ==> forall j | 0 <= j < Min((p - 1) * SlotsPerPage, size) :: Vaults.Occupied(taken, j)
      {
        ghost var before := c.entries;
        var items := Items.GetItems(c, t, vault.id, p, opener, isIndependent, now, cfg);
        ReadKeepsLaterPages(before, m0, t.rows, t.nextId, vault.id, p, opener, isIndependent, now, cfg);
        var occupied := set it | it in items :: it.slot;
        assert forall s :: s in occupied <==> taken(p, s);
        var slot := ScanPage(occupied, size, p);
        if slot.Some? {
          if size >= 0 {
            FoundSlot(taken, size, p, slot.value, occupied);
          }
          return Some((p, slot.value));
        }
        if size >= 0 {
          PageFull(taken, size, p, occupied);
        }
        p := p + 1;
      }
      if size >= 0 {
        assert Min(maxPage * SlotsPerPage, size) == size;
      }
      r := None;
    }
  }

  /** The slot loop of `findFirstAvailableSlot`: the first slot of the page neither occupied nor locked. */
  method ScanPage(occupied: set<int>, size: int, p: int) returns (r: Option<int>)
    ensures r.Some? ==> && 0 <= r.value < SlotsPerPage && r.value !in occupied && !Locked(size, p, r.value)
                        && forall s | 0 <= s < r.value :: s in occupied || Locked(size, p, s)
    ensures r.None? ==> forall s | 0 <= s < SlotsPerPage :: s in occupied || Locked(size, p, s)
  {
    var slot := 0;
    while slot < SlotsPerPage
      invariant 0 <= slot <= SlotsPerPage
      invariant forall s | 0 <= s < slot :: s in occupied || Locked(size, p, s)
    {
      if slot !in occupied && !Locked(size, p, slot) {
        return Some(slot);
      }
      slot := slot + 1;
    }
    r := None;
  }

  /** After page `p` is read, the pages after it still read as they did when the scan began. */
  lemma ReadKeepsLaterPages(before: Entries, m0: Entries, rows: map<int, Item>, n: nat, vaultId: int, p: int,
                            player: Uuid, isIndependent: bool, now: int, cfg: Config)
    requires LaterPagesUnread(before, m0, rows, n, vaultId, p, player, isIndependent, now)
    ensures LaterPagesUnread(Items.EntriesAfterPageRead(before, rows, n, vaultId, p, player, isIndependent, now, cfg),
                             m0, rows, n, vaultId, p + 1, player, isIndependent, now)
  {
    forall q | q >= p + 1 {
      PageReadFrame(before, rows, n, vaultId, p, q, player, isIndependent, now, cfg);
    }
  }

  /** The slot where the scan stops is the first free slot index. */
  lemma FoundSlot(taken: (int, int) -> bool, size: int, p: int, slot: int, occupied: set<int>)
    requires size >= 0 && 1 <= p <= Vaults.MaxPage(size) && 0 <= slot < SlotsPerPage
    requires forall s :: s in occupied <==> taken(p, s)
    requires slot !in occupied && !Locked(size, p, slot)
    requires forall s | 0 <= s < slot :: s in occupied || Locked(size, p, s)
    requires forall j | 0 <= j < Min((p - 1) * SlotsPerPage, size) :: Vaults.Occupied(taken, j)
    ensures Vaults.FirstFree(taken, size) == Some((p, slot))
  {
    UnlockedIff(size, p, slot);
    var idx := (p - 1) * SlotsPerPage + slot;
    forall j | 0 <= j < idx ensures Vaults.Occupied(taken, j) {
      if j >= (p - 1) * SlotsPerPage {
        var s := j - (p - 1) * SlotsPerPage;
        UnlockedIff(size, p, s);
        Vaults.IndexOfPosition(p, s);
        assert s in occupied;
      }
    }
    Vaults.FirstFreeIs(taken, size, p, slot);
  }

  /** A page scanned to the end without an answer: every slot index on it below the size is taken. */
  lemma PageFull(taken: (int, int) -> bool, size: int, p: int, occupied: set<int>)
    requires size >= 0 && 1 <= p <= Vaults.MaxPage(size)
    requires forall s :: s in occupied <==> taken(p, s)
    requires forall s | 0 <= s < SlotsPerPage :: s in occupied || Locked(size, p, s)
    requires forall j | 0 <= j < Min((p - 1) * SlotsPerPage, size) :: Vaults.Occupied(taken, j)
    ensures forall j | 0 <= j < Min(p * SlotsPerPage, size) :: Vaults.Occupied(taken, j)
  {
    forall j | 0 <= j < Min(p * SlotsPerPage, size) ensures Vaults.Occupied(taken, j) {
      if j >= (p - 1) * SlotsPerPage {
        var s := j - (p - 1) * SlotsPerPage;
        UnlockedIff(size, p, s);
        Vaults.IndexOfPosition(p, s);
      }
    }
  }
}
