/**
 * The setting cache: `setting:<vaultId>:<owner>:<setting>` holds one setting
 * value. Owners are player ids, which never contain ':', so the vault and the
 * owner prefixes select exactly one vault's or one owner's settings.
 */
module SettingCache {
  import opened Wrappers
  import opened Text
  import opened Records
  import opened MemoryCacheProvider
  import opened RowStore
  import opened PluginConfig

  const Prefix: string := "setting"

  function VaultPrefix(vaultId: int): string
  {
    Prefix + ":" + IntToString(vaultId) + ":"
  }

  function OwnerPrefix(vaultId: int, owner: Uuid): string
  {
    VaultPrefix(vaultId) + owner + ":"
  }

  /** `buildKey`. */
  function Key(vaultId: int, setting: string, owner: Uuid): string
  {
    OwnerPrefix(vaultId, owner) + setting
  }

  function CachedValue(m: Entries, key: string, now: int): Option<string>
  {
    match Lookup(m, key, now)
    case Some(TextValue(s)) => Some(s)
    case _ => None
  }

  /** The `where vault_id, setting and owner match` of the settings table. */
  function Selects(vaultId: int, setting: string, owner: Uuid): Setting -> bool
  {
    (s: Setting) => s.vaultId == vaultId && s.setting == setting && s.owner == owner
  }

  /** `select value where vault_id, setting and owner match`, first row. */
  function Load(rows: map<int, Setting>, n: nat, vaultId: int, setting: string, owner: Uuid): Option<string>
  {
    match FirstRow(rows, n, Selects(vaultId, setting, owner))
    case Some(r) => Some(r.value)
    case None => None
  }

  method Get(c: MemoryCache, t: SettingTable, vaultId: int, setting: string, owner: Uuid, now: int, cfg: Config)
    returns (r: Option<string>)
    modifies c
    ensures CachedValue(old(c.entries), Key(vaultId, setting, owner), now).Some? ==>
      r == CachedValue(old(c.entries), Key(vaultId, setting, owner), now) && c.entries == old(c.entries)
    ensures CachedValue(old(c.entries), Key(vaultId, setting, owner), now).None? ==>
      r == Load(t.rows, t.nextId, vaultId, setting, owner)
      && c.entries == if r.Some? then old(c.entries)[Key(vaultId, setting, owner) := CacheEntry(TextValue(r.value), ExpireAt(now, cfg.ttlMs))]
                      else Touch(old(c.entries), Key(vaultId, setting, owner), now)
  {
    var key := Key(vaultId, setting, owner);
    var cached := c.Get(key, now);
    if cached.Some? && cached.value.TextValue? {
      return Some(cached.value.text);
    }
    r := Load(t.rows, t.nextId, vaultId, setting, owner);
    if r.None? {
      return None;
    }
    c.Set(key, TextValue(r.value), cfg.ttlMs, now);
    TouchThenSet(old(c.entries), key, CacheEntry(TextValue(r.value), ExpireAt(now, cfg.ttlMs)), now);
  }

  method Set(c: MemoryCache, vaultId: int, setting: string, owner: Uuid, value: string, now: int, cfg: Config)
    modifies c
    ensures c.entries == old(c.entries)[Key(vaultId, setting, owner) := CacheEntry(TextValue(value), ExpireAt(now, cfg.ttlMs))]
  {
    c.Set(Key(vaultId, setting, owner), TextValue(value), cfg.ttlMs, now);
  }

  method Invalidate(c: MemoryCache, vaultId: int, setting: string, owner: Uuid)
    modifies c
    ensures c.entries == old(c.entries) - {Key(vaultId, setting, owner)}
  {
    c.Delete(Key(vaultId, setting, owner));
  }

  method InvalidateByOwner(c: MemoryCache, vaultId: int, owner: Uuid)
    modifies c
    ensures c.entries == WithoutPrefix(old(c.entries), OwnerPrefix(vaultId, owner))
  {
    c.DeleteByPrefix(OwnerPrefix(vaultId, owner));
  }

  method InvalidateByVault(c: MemoryCache, vaultId: int)
    modifies c
    ensures c.entries == WithoutPrefix(old(c.entries), VaultPrefix(vaultId))
  {
    c.DeleteByPrefix(VaultPrefix(vaultId));
  }

  method InvalidateAll(c: MemoryCache)
    modifies c
    ensures c.entries == WithoutPrefix(old(c.entries), Prefix)
  {
    c.DeleteByPrefix(Prefix);
  }

  // ---------------------------------------------------------------------------
  // Key scheme.

  /** `invalidateByVault(v)` reaches the settings of vault v and no other vault's. */
  lemma VaultPrefixExact(v: int, w: int, setting: string, owner: Uuid)
    ensures VaultPrefix(v) <= Key(w, setting, owner) <==> v == w
  {
    var head := Prefix + ":";
    var rest := owner + ":" + setting;
    assert VaultPrefix(v) == head + (IntToString(v) + ":");
    assert Key(w, setting, owner) == head + (IntToString(w) + ":" + rest);
    PrefixCancel(head, IntToString(v) + ":", IntToString(w) + ":" + rest);
    IntToStringColonFree(v);
    IntToStringColonFree(w);
    SegmentPrefix(IntToString(v), IntToString(w), rest);
    if v != w {
      if IntToString(v) == IntToString(w) {
        IntToStringInjective(v, w);
      }
    }
  }

  /** `invalidateByOwner(v, o)` reaches exactly the settings of owner o in vault v. */
  lemma OwnerPrefixExact(v: int, o: Uuid, w: int, setting: string, o2: Uuid)
    requires ':' !in o && ':' !in o2
    ensures OwnerPrefix(v, o) <= Key(w, setting, o2) <==> v == w && o == o2
  {
    PrefixOfConcat(VaultPrefix(v), o + ":");
    assert OwnerPrefix(v, o) == VaultPrefix(v) + (o + ":");
    VaultPrefixExact(v, w, setting, o2);
    if OwnerPrefix(v, o) <= Key(w, setting, o2) {
      PrefixTransitive(VaultPrefix(v), OwnerPrefix(v, o), Key(w, setting, o2));
    }
    if v == w {
      assert Key(w, setting, o2) == VaultPrefix(v) + (o2 + ":" + setting);
      PrefixCancel(VaultPrefix(v), o + ":", o2 + ":" + setting);
      SegmentPrefix(o, o2, setting);
    }
  }

  /** With colon-free owners, distinct (vault, setting, owner) triples have distinct keys. */
  lemma KeyInjective(v: int, setting: string, o: Uuid, w: int, setting2: string, o2: Uuid)
    requires ':' !in o && ':' !in o2
    requires Key(v, setting, o) == Key(w, setting2, o2)
    ensures v == w && setting == setting2 && o == o2
  {
    PrefixOfConcat(OwnerPrefix(v, o), setting);
    OwnerPrefixExact(v, o, w, setting2, o2);
    assert setting == Key(v, setting, o)[|OwnerPrefix(v, o)|..];
    assert setting2 == Key(w, setting2, o2)[|OwnerPrefix(w, o2)|..];
  }

  /** Every setting key lies under the `setting` prefix, so `invalidateAll` forgets every setting. */
  lemma InvalidateAllForgets(m: Entries, v: int, setting: string, owner: Uuid, now: int)
    ensures CachedValue(WithoutPrefix(m, Prefix), Key(v, setting, owner), now) == None
  {
    assert Key(v, setting, owner) == Prefix + (":" + IntToString(v) + ":" + owner + ":" + setting);
    PrefixOfConcat(Prefix, ":" + IntToString(v) + ":" + owner + ":" + setting);
  }
}
