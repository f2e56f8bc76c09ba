/**
 * The item cache. A page list lives under `items:<vault>:<page>:<owner|shared>`
 * and a vault's full list under `items:all:<vault>:<owner|shared>`; the owner
 * segment is used only in independent workspaces. Single-item writes patch the
 * lists that are already cached and never create one.
 */
module ItemCache {
  import opened Wrappers
  import opened Text
  import opened Seqs
  import opened Records
  import opened MemoryCacheProvider
  import opened PluginConfig

  const PagePrefixHead: string := "items:"
  const AllPrefixHead: string := "items:all:"

  function OwnerSegment(owner: Option<Uuid>): string
  {
    match owner
    case Some(u) => u
    case None => "shared"
  }

  /** `if (isIndependent) ownerUUID else null`. */
  function EffectiveOwner(owner: Option<Uuid>, isIndependent: bool): Option<Uuid>
  {
    if isIndependent then owner else None
  }

  function PageKey(vaultId: int, page: int, owner: Option<Uuid>): string
  {
    PagePrefixHead + IntToString(vaultId) + ":" + IntToString(page) + ":" + OwnerSegment(owner)
  }

  function AllKey(vaultId: int, owner: Option<Uuid>): string
  {
    AllPrefixHead + IntToString(vaultId) + ":" + OwnerSegment(owner)
  }

  /** The two prefixes `invalidateAll` deletes. */
  function PagePrefix(vaultId: int): string
  {
    PagePrefixHead + IntToString(vaultId) + ":"
  }

  function AllPrefix(vaultId: int): string
  {
    AllPrefixHead + IntToString(vaultId) + ":"
  }

  function CachedItems(m: Entries, key: string, now: int): Option<seq<Item>>
  {
    match Lookup(m, key, now)
    case Some(ItemList(xs)) => Some(xs)
    case _ => None
  }

  /** A page list after `addOrUpdate(slot, item)`: any entry for the slot is replaced by the item, at the end. */
  function PlaceInPage(xs: seq<Item>, slot: int, item: Item): seq<Item>
  {
    WithoutSlot(xs, slot) + [item]
  }

  function WithoutSlot(xs: seq<Item>, slot: int): seq<Item>
  {
    Filter(xs, (it: Item) => it.slot != slot)
  }

  /** An all-list after `addOrUpdate(page, slot, item)`. */
  function PlaceInAll(xs: seq<Item>, page: int, slot: int, item: Item): seq<Item>
  {
    WithoutPosition(xs, page, slot) + [item]
  }

  function WithoutPosition(xs: seq<Item>, page: int, slot: int): seq<Item>
  {
    Filter(xs, (it: Item) => !(it.page == page && it.slot == slot))
  }

  /**
   * A read of `key` followed, when it held an item list `xs`, by writing back
   * `f(xs)`: the entries after one half of `addOrUpdate` or `remove`.
   */
  function Patch(m: Entries, key: string, now: int, f: seq<Item> -> seq<Item>, expireAt: int): Entries
  {
    match Lookup(m, key, now)
    case Some(ItemList(xs)) => m[key := CacheEntry(ItemList(f(xs)), expireAt)]
    case _ => Touch(m, key, now)
  }

  method GetPageItems(c: MemoryCache, vaultId: int, page: int, owner: Option<Uuid>, isIndependent: bool, now: int)
    returns (r: Option<seq<Item>>)
    modifies c
    ensures r == CachedItems(old(c.entries), PageKey(vaultId, page, EffectiveOwner(owner, isIndependent)), now)
    ensures c.entries == Touch(old(c.entries), PageKey(vaultId, page, EffectiveOwner(owner, isIndependent)), now)
  {
    var v := c.Get(PageKey(vaultId, page, EffectiveOwner(owner, isIndependent)), now);
    r := if v.Some? && v.value.ItemList? then Some(v.value.items) else None;
  }

  method UpdatePageItems(c: MemoryCache, vaultId: int, page: int, owner: Option<Uuid>, isIndependent: bool,
                         items: seq<Item>, now: int, cfg: Config)
    modifies c
    ensures c.entries == old(c.entries)[PageKey(vaultId, page, EffectiveOwner(owner, isIndependent))
                                         := CacheEntry(ItemList(items), ExpireAt(now, cfg.ttlMs))]
  {
    c.Set(PageKey(vaultId, page, EffectiveOwner(owner, isIndependent)), ItemList(items), cfg.ttlMs, now);
  }

  method GetAllItems(c: MemoryCache, vaultId: int, owner: Option<Uuid>, isIndependent: bool, now: int)
    returns (r: Option<seq<Item>>)
    modifies c
    ensures r == CachedItems(old(c.entries), AllKey(vaultId, EffectiveOwner(owner, isIndependent)), now)
    ensures c.entries == Touch(old(c.entries), AllKey(vaultId, EffectiveOwner(owner, isIndependent)), now)
  {
    var v := c.Get(AllKey(vaultId, EffectiveOwner(owner, isIndependent)), now);
    r := if v.Some? && v.value.ItemList? then Some(v.value.items) else None;
  }

  method UpdateAllItems(c: MemoryCache, vaultId: int, owner: Option<Uuid>, isIndependent: bool,
                        items: seq<Item>, now: int, cfg: Config)
    modifies c
    ensures c.entries == old(c.entries)[AllKey(vaultId, EffectiveOwner(owner, isIndependent))
                                         := CacheEntry(ItemList(items), ExpireAt(now, cfg.ttlMs))]
  {
    c.Set(AllKey(vaultId, EffectiveOwner(owner, isIndependent)), ItemList(items), cfg.ttlMs, now);
  }

  /** Read `key` and, if it holds an item list, write back `f` of it. */
  method PatchList(c: MemoryCache, key: string, f: seq<Item> -> seq<Item>, now: int, cfg: Config)
    modifies c
    ensures c.entries == Patch(old(c.entries), key, now, f, ExpireAt(now, cfg.ttlMs))
  {
    var v := c.Get(key, now);
    if v.Some? && v.value.ItemList? {
      c.Set(key, ItemList(f(v.value.items)), cfg.ttlMs, now);
      TouchThenSet(old(c.entries), key, CacheEntry(ItemList(f(v.value.items)), ExpireAt(now, cfg.ttlMs)), now);
    }
  }

  method AddOrUpdate(c: MemoryCache, vaultId: int, page: int, slot: int, owner: Option<Uuid>, isIndependent: bool,
                     item: Item, now: int, cfg: Config)
    modifies c
    ensures var o := EffectiveOwner(owner, isIndependent);
            var e := ExpireAt(now, cfg.ttlMs);
            c.entries == Patch(Patch(old(c.entries), PageKey(vaultId, page, o), now, (xs: seq<Item>) => PlaceInPage(xs, slot, item), e),
                               AllKey(vaultId, o), now, (xs: seq<Item>) => PlaceInAll(xs, page, slot, item), e)
  {
    var o := EffectiveOwner(owner, isIndependent);
    PatchList(c, PageKey(vaultId, page, o), (xs: seq<Item>) => PlaceInPage(xs, slot, item), now, cfg);
    PatchList(c, AllKey(vaultId, o), (xs: seq<Item>) => PlaceInAll(xs, page, slot, item), now, cfg);
  }

  method Remove(c: MemoryCache, vaultId: int, page: int, slot: int, owner: Option<Uuid>, isIndependent: bool,
                now: int, cfg: Config)
    modifies c
    ensures var o := EffectiveOwner(owner, isIndependent);
            var e := ExpireAt(now, cfg.ttlMs);
            c.entries == Patch(Patch(old(c.entries), PageKey(vaultId, page, o), now, (xs: seq<Item>) => WithoutSlot(xs, slot), e),
                               AllKey(vaultId, o), now, (xs: seq<Item>) => WithoutPosition(xs, page, slot), e)
  {
    var o := EffectiveOwner(owner, isIndependent);
    PatchList(c, PageKey(vaultId, page, o), (xs: seq<Item>) => WithoutSlot(xs, slot), now, cfg);
    PatchList(c, AllKey(vaultId, o), (xs: seq<Item>) => WithoutPosition(xs, page, slot), now, cfg);
  }

  method InvalidatePage(c: MemoryCache, vaultId: int, page: int, owner: Option<Uuid>, isIndependent: bool)
    modifies c
    ensures c.entries == old(c.entries) - {PageKey(vaultId, page, EffectiveOwner(owner, isIndependent))}
                                        - {AllKey(vaultId, EffectiveOwner(owner, isIndependent))}
  {
    c.Delete(PageKey(vaultId, page, EffectiveOwner(owner, isIndependent)));
    c.Delete(AllKey(vaultId, EffectiveOwner(owner, isIndependent)));
  }

  /** `invalidateAll(vaultId, ownerUUID)`: the owner is ignored, every owner's lists of the vault go. */
  method InvalidateAll(c: MemoryCache, vaultId: int, owner: Option<Uuid>)
    modifies c
    ensures c.entries == WithoutPrefix(WithoutPrefix(old(c.entries), PagePrefix(vaultId)), AllPrefix(vaultId))
  {
    c.DeleteByPrefix(PagePrefix(vaultId));
    c.DeleteByPrefix(AllPrefix(vaultId));
  }

  // ---------------------------------------------------------------------------
  // What a patch does to a list.

  /**
   * After `addOrUpdate` a page list holds the new item, no other entry for its
   * slot, and every entry for another slot in its old order; slots that were
   * distinct stay distinct.
   */
  lemma PlaceInPageSpec(xs: seq<Item>, slot: int, item: Item)
    requires item.slot == slot
    ensures var r := PlaceInPage(xs, slot, item);
            item in r
            && (forall x | x in r && x.slot == slot :: x == item)
            && WithoutSlot(r, slot) == WithoutSlot(xs, slot)
            && (DistinctBy(xs, (it: Item) => it.slot) ==> DistinctBy(r, (it: Item) => it.slot))
  {
    var f := (it: Item) => it.slot != slot;
    var key := (it: Item) => it.slot;
    FilterConcat(Filter(xs, f), [item], f);
    FilterFilter(xs, f, f, f);
    if DistinctBy(xs, key) {
      FilterDistinct(xs, f, key);
      DistinctSnoc(Filter(xs, f), item, key);
    }
  }

  /** The all-list counterpart: exactly one entry for `(page, slot)`, the new item; other positions unchanged. */
  lemma PlaceInAllSpec(xs: seq<Item>, page: int, slot: int, item: Item)
    requires item.page == page && item.slot == slot
    ensures var r := PlaceInAll(xs, page, slot, item);
            item in r
            && (forall x | x in r && x.page == page && x.slot == slot :: x == item)
            && WithoutPosition(r, page, slot) == WithoutPosition(xs, page, slot)
            && (DistinctBy(xs, (it: Item) => (it.page, it.slot)) ==> DistinctBy(r, (it: Item) => (it.page, it.slot)))
  {
    var f := (it: Item) => !(it.page == page && it.slot == slot);
    var key := (it: Item) => (it.page, it.slot);
    FilterConcat(Filter(xs, f), [item], f);
    FilterFilter(xs, f, f, f);
    if DistinctBy(xs, key) {
      FilterDistinct(xs, f, key);
      DistinctSnoc(Filter(xs, f), item, key);
    }
  }

  /** `remove` after `addOrUpdate` of the same slot leaves the page list `remove` alone would. */
  lemma RemoveUndoesPlace(xs: seq<Item>, page: int, slot: int, item: Item)
    requires item.page == page && item.slot == slot
    ensures WithoutSlot(PlaceInPage(xs, slot, item), slot) == WithoutSlot(xs, slot)
    ensures WithoutPosition(PlaceInAll(xs, page, slot, item), page, slot) == WithoutPosition(xs, page, slot)
  {
    PlaceInPageSpec(xs, slot, item);
    PlaceInAllSpec(xs, page, slot, item);
  }

  /** A patch never creates an entry, and leaves every other key as it was. */
  lemma PatchNeverCreates(m: Entries, key: string, now: int, f: seq<Item> -> seq<Item>, e: int, k: string)
    ensures k in Patch(m, key, now, f, e) ==> k in m
    ensures k != key ==> (k in Patch(m, key, now, f, e) <==> k in m)
    ensures k != key && k in m ==> Patch(m, key, now, f, e)[k] == m[k]
    ensures CachedItems(m, key, now).Some? ==>
              CachedItems(Patch(m, key, now, f, e), key, now) == if e > 0 && now > e then None else Some(f(CachedItems(m, key, now).value))
    ensures CachedItems(m, key, now).None? ==> CachedItems(Patch(m, key, now, f, e), key, now).None?
  {
  }

  // ---------------------------------------------------------------------------
  // Key scheme.

  /** A page key is never an all key. */
  lemma PageKeyIsNotAllKey(v: int, p: int, o: Option<Uuid>, w: int, o2: Option<Uuid>)
    ensures PageKey(v, p, o) != AllKey(w, o2)
  {
    assert PageKey(v, p, o)[6] == IntToString(v)[0];
    assert AllKey(w, o2)[6] == 'a';
  }

  /** `items:<v>:` is a prefix of the page key of vault w exactly when v == w. */
  lemma PagePrefixExact(v: int, w: int, p: int, o: Option<Uuid>)
    ensures PagePrefix(v) <= PageKey(w, p, o) <==> v == w
  {
    var rest := IntToString(p) + ":" + OwnerSegment(o);
    assert PageKey(w, p, o) == PagePrefixHead + IntToString(w) + ":" + rest;
    IntToStringColonFree(v);
    IntToStringColonFree(w);
    HeadSegmentPrefix(PagePrefixHead, IntToString(v), IntToString(w), rest);
    if v != w {
      IntToStringInjectiveContra(v, w);
    }
  }

  /** `items:all:<v>:` is a prefix of the all key of vault w exactly when v == w. */
  lemma AllPrefixExact(v: int, w: int, o: Option<Uuid>)
    ensures AllPrefix(v) <= AllKey(w, o) <==> v == w
  {
    IntToStringColonFree(v);
    IntToStringColonFree(w);
    HeadSegmentPrefix(AllPrefixHead, IntToString(v), IntToString(w), OwnerSegment(o));
    if v != w {
      IntToStringInjectiveContra(v, w);
    }
  }

  /** Two pages of one vault and owner have different page keys. */
  lemma PageKeysDiffer(v: int, p: int, q: int, o: Option<Uuid>)
    requires p != q
    ensures PageKey(v, p, o) != PageKey(v, q, o)
  {
    var head := PagePrefixHead + IntToString(v) + ":";
    var seg := OwnerSegment(o);
    assert PageKey(v, p, o) == head + (IntToString(p) + ":" + seg);
    assert PageKey(v, q, o) == head + (IntToString(q) + ":" + seg);
    if PageKey(v, p, o) == PageKey(v, q, o) {
      PrefixCancel(head, IntToString(p) + ":" + seg, IntToString(q) + ":" + seg);
      assert IntToString(p) + ":" <= IntToString(q) + ":" + seg;
      IntToStringColonFree(p);
      IntToStringColonFree(q);
      SegmentPrefix(IntToString(p), IntToString(q), seg);
      IntToStringInjectiveContra(p, q);
      assert false;
    }
  }

  lemma IntToStringInjectiveContra(a: int, b: int)
    requires a != b
    ensures IntToString(a) != IntToString(b)
  {
    if IntToString(a) == IntToString(b) {
      IntToStringInjective(a, b);
    }
  }

  /** Page prefixes never match all keys and all prefixes never match page keys. */
  lemma PrefixesSeparate(v: int, w: int, p: int, o: Option<Uuid>)
    ensures !(PagePrefix(v) <= AllKey(w, o))
    ensures !(AllPrefix(v) <= PageKey(w, p, o))
  {
    assert PagePrefix(v)[6] == IntToString(v)[0] && AllKey(w, o)[6] == 'a';
    assert AllPrefix(v)[6] == 'a' && PageKey(w, p, o)[6] == IntToString(w)[0];
  }

  /**
   * `invalidateAll(v)` removes the page and all lists of vault v for every
   * owner and page, and keeps those of every other vault.
   */
  lemma InvalidateAllExactly(m: Entries, v: int, w: int, p: int, o: Option<Uuid>)
    ensures var after := WithoutPrefix(WithoutPrefix(m, PagePrefix(v)), AllPrefix(v));
            (PageKey(w, p, o) in after <==> PageKey(w, p, o) in m && w != v)
            && (AllKey(w, o) in after <==> AllKey(w, o) in m && w != v)
  {
    PagePrefixExact(v, w, p, o);
    AllPrefixExact(v, w, o);
    PrefixesSeparate(v, w, p, o);
  }
}
