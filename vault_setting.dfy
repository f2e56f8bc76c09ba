/**
 * The entries of a vault's settings screen. A setting with a key keeps its
 * value, serialised as text, in the setting store under (vault, key,
 * opener); a setting without a key stores nothing. The auto-replace entry is
 * the plugin's one stored setting: a boolean under `auto_replace`, off by
 * default, flipped by a click.
 */
module VaultSettings {
  import opened Wrappers
  import opened Text
  import opened Records
  import opened MemoryCacheProvider
  import opened RowStore
  import opened PluginConfig
  import Settings

  /**
   * What a setting entry's reads and writes depend on: its storage key (none
   * for an entry that only navigates), the permission it needs (none for a
   * free one), its default and its text codec.
   */
  datatype SettingDef<!T> = SettingDef(settingKey: Option<string>, permission: Option<string>, defaultValue: T,
                                      serialize: T -> string, deserialize: string -> T)

  /**
   * `hasPermission`: an entry without a configured permission is open to
   * everyone; otherwise the opener needs that permission or plugin-admin
   * rights. `granted` answers the opener's permission test.
   */
  function HasPermission<T>(d: SettingDef<T>, granted: string -> bool, isAdmin: bool): (r: bool)
    ensures d.permission.None? ==> r
    ensures d.permission.Some? ==> (r <==> granted(d.permission.value) || isAdmin)
    ensures isAdmin ==> r
  {
    match d.permission
    case None => true
    case Some(perm) => granted(perm) || isAdmin
  }

  /** What `getValue` answers: the stored text for the opener, deserialised. */
  function StoredValue<T>(d: SettingDef<T>, m: Entries, rows: map<int, Setting>, n: nat, vaultId: int, opener: Uuid,
                          now: int): Option<T>
  {
    match d.settingKey
    case None => None
    case Some(key) =>
      match Settings.Served(m, rows, n, vaultId, key, opener, now)
      case None => None
      case Some(raw) => Some(d.deserialize(raw))
  }

  /** What `getValueOrDefault` answers. */
  function EffectiveValue<T>(d: SettingDef<T>, m: Entries, rows: map<int, Setting>, n: nat, vaultId: int,
                             opener: Uuid, now: int): T
  {
    match StoredValue(d, m, rows, n, vaultId, opener, now)
    case Some(v) => v
    case None => d.defaultValue
  }

  /** The cache after `getValue`: untouched for an entry without a key, else as `Settings.get` leaves it. */
  function EntriesAfterGetValue<T>(d: SettingDef<T>, m: Entries, rows: map<int, Setting>, n: nat, vaultId: int,
                                   opener: Uuid, now: int, cfg: Config): Entries
  {
    match d.settingKey
    case None => m
    case Some(key) => Settings.EntriesAfterGet(m, rows, n, vaultId, key, opener, now, cfg)
  }

  /** `getValue`: nothing for an entry without a key, which leaves the cache alone; else the served value. */
  method GetValue<T>(d: SettingDef<T>, c: MemoryCache, t: SettingTable, vaultId: int, opener: Uuid, now: int,
                     cfg: Config)
    returns (r: Option<T>)
    modifies c
    ensures r == StoredValue(d, old(c.entries), t.rows, t.nextId, vaultId, opener, now)
    ensures d.settingKey.None? ==> r.None? && c.entries == old(c.entries)
    ensures d.settingKey.Some? ==>
              (r.None? <==> Settings.Served(old(c.entries), t.rows, t.nextId, vaultId, d.settingKey.value, opener, now).None?)
    ensures c.entries == EntriesAfterGetValue(d, old(c.entries), t.rows, t.nextId, vaultId, opener, now, cfg)
  {
    if d.settingKey.None? {
      return None;
    }
    var raw := Settings.Get(c, t, vaultId, d.settingKey.value, opener, now, cfg);
    if raw.None? {
      return None;
    }
    r := Some(d.deserialize(raw.value));
  }

  /** `getValueOrDefault`: the default exactly when `getValue` answers nothing. */
  method GetValueOrDefault<T>(d: SettingDef<T>, c: MemoryCache, t: SettingTable, vaultId: int, opener: Uuid, now: int,
                              cfg: Config)
    returns (r: T)
    modifies c
    ensures r == EffectiveValue(d, old(c.entries), t.rows, t.nextId, vaultId, opener, now)
    ensures StoredValue(d, old(c.entries), t.rows, t.nextId, vaultId, opener, now).None? ==> r == d.defaultValue
    ensures StoredValue(d, old(c.entries), t.rows, t.nextId, vaultId, opener, now).Some? ==>
              r == StoredValue(d, old(c.entries), t.rows, t.nextId, vaultId, opener, now).value
    ensures c.entries == EntriesAfterGetValue(d, old(c.entries), t.rows, t.nextId, vaultId, opener, now, cfg)
  {
    var v := GetValue(d, c, t, vaultId, opener, now, cfg);
    r := if v.Some? then v.value else d.defaultValue;
  }

  /** `setValue`: nothing for an entry without a key; else the serialised value is set under (vault, key, opener). */
  method SetValue<T>(d: SettingDef<T>, c: MemoryCache, t: SettingTable, vaultId: int, opener: Uuid, value: T,
                     now: int, cfg: Config)
    requires t.Valid()
    modifies c, t
    ensures t.Valid()
    ensures d.settingKey.None? ==> c.entries == old(c.entries) && t.rows == old(t.rows) && t.nextId == old(t.nextId)
    ensures d.settingKey.Some? ==>
              var key := d.settingKey.value;
              && t.rows == Settings.RowsAfterSet(old(t.rows), old(t.nextId), vaultId, key, d.serialize(value), opener, now)
              && t.nextId == Settings.NextAfterSet(old(t.rows), old(t.nextId), vaultId, key, opener)
              && c.entries == Settings.EntriesAfterWrite(old(c.entries), vaultId, key, d.serialize(value), opener, now, cfg)
  {
    if d.settingKey.None? {
      return;
    }
    Settings.Set(c, t, vaultId, d.settingKey.value, d.serialize(value), opener, now, cfg);
  }

  /**
   * After `setValue(v)` on an entry with a key, `getValue` answers the
   * deserialised text of `v` for as long as the cache entry lives, whatever
   * the store holds.
   */
  lemma SetThenGetValue<T>(d: SettingDef<T>, m: Entries, rows: map<int, Setting>, n: nat, vaultId: int, opener: Uuid,
                           value: T, now: int, later: int, cfg: Config)
    requires d.settingKey.Some?
    requires now >= 0 && now <= later && (cfg.ttlMs <= 0 || later <= now + cfg.ttlMs)
    ensures StoredValue(d, Settings.EntriesAfterWrite(m, vaultId, d.settingKey.value, d.serialize(value), opener, now, cfg),
                        rows, n, vaultId, opener, later)
         == Some(d.deserialize(d.serialize(value)))
  {
    Settings.SetThenGet(m, rows, n, rows, n, vaultId, d.settingKey.value, d.serialize(value), opener, now, later, cfg);
  }

  // ---------------------------------------------------------------------------
  // The auto-replace entry.

  const AutoReplaceKey: string := "auto_replace"

  /** `Boolean.toString()`. */
  function SerializeBool(b: bool): (r: string)
  {
    if b then "true" else "false"
  }

  /** `String.toBoolean()`: true for "true" in any letter case, false for every other text. */
  function DeserializeBool(raw: string): (r: bool)
  {
    EqualsIgnoreCase(raw, "true")
  }

  /** The auto-replace entry; `permission` is the configured `vault.setting.auto-replace` node, if any. */
  function AutoReplace(permission: Option<string>): (d: SettingDef<bool>)
    ensures d.settingKey == Some(AutoReplaceKey) && d.permission == permission && !d.defaultValue
  {
    SettingDef(Some(AutoReplaceKey), permission, false, SerializeBool, DeserializeBool)
  }

  /** Deserialising a serialised boolean gives it back. */
  lemma BoolRoundTrip(b: bool)
    ensures DeserializeBool(SerializeBool(b)) == b
  {
    if !b {
      assert LowerAll("false")[0] == 'f' != LowerAll("true")[0];
    }
  }

  /** Only a four-letter text spelling "true" reads as true; the letter case does not matter. */
  lemma DeserializeBoolIff(raw: string)
    ensures DeserializeBool(raw) <==>
              && |raw| == 4 && Lower(raw[0]) == 't' && Lower(raw[1]) == 'r' && Lower(raw[2]) == 'u' && Lower(raw[3]) == 'e'
  {
    if DeserializeBool(raw) {
      assert |LowerAll(raw)| == |LowerAll("true")|;
      assert LowerAll(raw)[0] == LowerAll("true")[0];
      assert LowerAll(raw)[1] == LowerAll("true")[1];
      assert LowerAll(raw)[2] == LowerAll("true")[2];
      assert LowerAll(raw)[3] == LowerAll("true")[3];
    }
  }

  /**
   * `onClick`: the effective value is read and its negation is set. `before`
   * is the value read and `mid` the cache as the read left it.
   */
  method OnClick(c: MemoryCache, t: SettingTable, vaultId: int, opener: Uuid, permission: Option<string>, now: int,
                 cfg: Config)
    returns (ghost before: bool, ghost mid: Entries)
    requires t.Valid()
    modifies c, t
    ensures before == EffectiveValue(AutoReplace(permission), old(c.entries), old(t.rows), old(t.nextId), vaultId, opener, now)
    ensures mid == Settings.EntriesAfterGet(old(c.entries), old(t.rows), old(t.nextId), vaultId, AutoReplaceKey, opener, now, cfg)
    ensures t.Valid()
    ensures t.rows == Settings.RowsAfterSet(old(t.rows), old(t.nextId), vaultId, AutoReplaceKey, SerializeBool(!before), opener, now)
    ensures t.nextId == Settings.NextAfterSet(old(t.rows), old(t.nextId), vaultId, AutoReplaceKey, opener)
    ensures c.entries == Settings.EntriesAfterWrite(mid, vaultId, AutoReplaceKey, SerializeBool(!before), opener, now, cfg)
  {
    var d := AutoReplace(permission);
    var current := GetValueOrDefault(d, c, t, vaultId, opener, now, cfg);
    before, mid := current, c.entries;
    SetValue(d, c, t, vaultId, opener, !current, now, cfg);
  }

  /** After a click that set `b`, the entry reads `b` while the cache entry lives. */
  lemma ClickReadsBack(permission: Option<string>, m: Entries, rows: map<int, Setting>, n: nat, vaultId: int,
                       opener: Uuid, b: bool, now: int, later: int, cfg: Config)
    requires now >= 0 && now <= later && (cfg.ttlMs <= 0 || later <= now + cfg.ttlMs)
    ensures EffectiveValue(AutoReplace(permission),
                           Settings.EntriesAfterWrite(m, vaultId, AutoReplaceKey, SerializeBool(b), opener, now, cfg),
                           rows, n, vaultId, opener, later) == b
  {
    SetThenGetValue(AutoReplace(permission), m, rows, n, vaultId, opener, b, now, later, cfg);
    BoolRoundTrip(b);
  }

  /**
   * Two clicks restore the effective value: the first click at `t1` sets the
   * negation of what was read, the second at `t2` (while the first click's
   * entry lives) sets the negation of that, and a read at `t3` (while the
   * second click's entry lives) answers what the first click read.
   */
  lemma TwoClicksRestore(permission: Option<string>, m0: Entries, rows0: map<int, Setting>, n0: nat,
                         mid1: Entries, rows1: map<int, Setting>, n1: nat,
                         mid2: Entries, rows2: map<int, Setting>, n2: nat,
                         vaultId: int, opener: Uuid, t1: int, t2: int, t3: int, cfg: Config)
    requires 0 <= t1 <= t2 <= t3
    requires cfg.ttlMs <= 0 || (t2 <= t1 + cfg.ttlMs && t3 <= t2 + cfg.ttlMs)
    ensures var d := AutoReplace(permission);
            var v0 := EffectiveValue(d, m0, rows0, n0, vaultId, opener, t1);
            var m1 := Settings.EntriesAfterWrite(mid1, vaultId, AutoReplaceKey, SerializeBool(!v0), opener, t1, cfg);
            var v1 := EffectiveValue(d, m1, rows1, n1, vaultId, opener, t2);
            var m2 := Settings.EntriesAfterWrite(mid2, vaultId, AutoReplaceKey, SerializeBool(!v1), opener, t2, cfg);
            EffectiveValue(d, m2, rows2, n2, vaultId, opener, t3) == v0
  {
    var d := AutoReplace(permission);
    var v0 := EffectiveValue(d, m0, rows0, n0, vaultId, opener, t1);
    ClickReadsBack(permission, mid1, rows1, n1, vaultId, opener, !v0, t1, t2, cfg);
    var m1 := Settings.EntriesAfterWrite(mid1, vaultId, AutoReplaceKey, SerializeBool(!v0), opener, t1, cfg);
    var v1 := EffectiveValue(d, m1, rows1, n1, vaultId, opener, t2);
    ClickReadsBack(permission, mid2, rows2, n2, vaultId, opener, !v1, t2, t3, cfg);
  }
}
