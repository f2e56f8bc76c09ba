/**
 * The workspace cache. Keys: `workspace:<id>` for one workspace,
 * `workspace:independent` for the shared independent workspace, and
 * `workspace:player:<uuid>` for the list of workspaces a player has joined.
 */
module WorkspaceCache {
  import opened Wrappers
  import opened Text
  import opened Seqs
  import opened Records
  import opened MemoryCacheProvider
  import opened RowStore
  import opened PluginConfig

  function Key(id: int): string
  {
    "workspace:" + IntToString(id)
  }

  const IndependentKey: string := "workspace:independent"

  const PlayerPrefix: string := "workspace:player"

  function PlayerKey(uuid: Uuid): string
  {
    PlayerPrefix + ":" + uuid
  }

  /** The ids `workspace.members.split(",").filter { it.isNotBlank() }` yields. */
  function MemberIds(members: string): seq<string>
  {
    Filter(SplitOn(members, ','), NotBlank)
  }

  function CachedWorkspace(m: Entries, key: string, now: int): Option<Workspace>
  {
    match Lookup(m, key, now)
    case Some(WorkspaceValue(w)) => Some(w)
    case _ => None
  }

  function CachedList(m: Entries, key: string, now: int): Option<seq<Workspace>>
  {
    match Lookup(m, key, now)
    case Some(WorkspaceList(ws)) => Some(ws)
    case _ => None
  }

  /** `select where id = id`. */
  function LoadById(rows: map<int, Workspace>, id: int): Option<Workspace>
  {
    if id in rows then Some(rows[id]) else None
  }

  /** `select where members like %uuid%`: every workspace whose member text contains the id. */
  function LoadJoined(rows: map<int, Workspace>, n: nat, uuid: Uuid): seq<Workspace>
  {
    Rows(rows, n, (w: Workspace) => Contains(w.members, uuid))
  }

  /** `select where name = "Independent"`, first row. */
  function LoadIndependent(rows: map<int, Workspace>, n: nat): Option<Workspace>
  {
    FirstRow(rows, n, (w: Workspace) => w.name == "Independent")
  }

  /** The writes `forEach { set("workspace:<id>", it) }` performs over `ws`, in order. */
  function IdEntries(ws: seq<Workspace>): (r: seq<(string, CacheValue)>)
    ensures |r| == |ws|
    ensures forall i | 0 <= i < |ws| :: r[i] == (Key(ws[i].id), WorkspaceValue(ws[i]))
  {
    seq(|ws|, i requires 0 <= i < |ws| => (Key(ws[i].id), WorkspaceValue(ws[i])))
  }

  method GetById(c: MemoryCache, t: WorkspaceTable, id: int, now: int, cfg: Config) returns (r: Option<Workspace>)
    modifies c
    ensures CachedWorkspace(old(c.entries), Key(id), now).Some? ==>
      r == CachedWorkspace(old(c.entries), Key(id), now) && c.entries == old(c.entries)
    ensures CachedWorkspace(old(c.entries), Key(id), now).None? ==>
      r == LoadById(t.rows, id)
      && c.entries == if r.Some? then old(c.entries)[Key(id) := CacheEntry(WorkspaceValue(r.value), ExpireAt(now, cfg.ttlMs))]
                      else Touch(old(c.entries), Key(id), now)
  {
    var key := Key(id);
    var cached := c.Get(key, now);
    if cached.Some? && cached.value.WorkspaceValue? {
      return Some(cached.value.workspace);
    }
    r := LoadById(t.rows, id);
    if r.None? {
      return None;
    }
    c.Set(key, WorkspaceValue(r.value), cfg.ttlMs, now);
  }

  /** What `getJoinedWorkspaces` answers: the cached list on a hit, the store's joined workspaces on a miss. */
  function ServedJoined(m: Entries, rows: map<int, Workspace>, n: nat, uuid: Uuid, now: int): seq<Workspace>
  {
    match CachedList(m, PlayerKey(uuid), now)
    case Some(ws) => ws
    case None => LoadJoined(rows, n, uuid)
  }

  /** The cache after `getJoinedWorkspaces`: untouched on a hit; the list and each workspace stored on a miss. */
  function EntriesAfterGetJoined(m: Entries, rows: map<int, Workspace>, n: nat, uuid: Uuid, now: int, ttlMs: int): Entries
  {
    if CachedList(m, PlayerKey(uuid), now).Some? then m
    else
      var ws := LoadJoined(rows, n, uuid);
      SetAll(m[PlayerKey(uuid) := CacheEntry(WorkspaceList(ws), ExpireAt(now, ttlMs))], IdEntries(ws), ExpireAt(now, ttlMs))
  }

  method GetJoinedWorkspaces(c: MemoryCache, t: WorkspaceTable, uuid: Uuid, now: int, cfg: Config) returns (ws: seq<Workspace>)
    modifies c
    ensures CachedList(old(c.entries), PlayerKey(uuid), now).Some? ==>
      ws == CachedList(old(c.entries), PlayerKey(uuid), now).value && c.entries == old(c.entries)
    ensures CachedList(old(c.entries), PlayerKey(uuid), now).None? ==>
      ws == LoadJoined(t.rows, t.nextId, uuid)
      && c.entries == SetAll(old(c.entries)[PlayerKey(uuid) := CacheEntry(WorkspaceList(ws), ExpireAt(now, cfg.ttlMs))],
                             IdEntries(ws), ExpireAt(now, cfg.ttlMs))
    ensures ws == ServedJoined(old(c.entries), t.rows, t.nextId, uuid, now)
    ensures c.entries == EntriesAfterGetJoined(old(c.entries), t.rows, t.nextId, uuid, now, cfg.ttlMs)
  {
    var key := PlayerKey(uuid);
    var cached := c.Get(key, now);
    if cached.Some? && cached.value.WorkspaceList? {
      return cached.value.workspaces;
    }
    ws := LoadJoined(t.rows, t.nextId, uuid);
    c.Set(key, WorkspaceList(ws), cfg.ttlMs, now);
    TouchThenSet(old(c.entries), key, CacheEntry(WorkspaceList(ws), ExpireAt(now, cfg.ttlMs)), now);
    ghost var base := c.entries;
    ghost var kvs := IdEntries(ws);
    var i := 0;
    while i < |ws|
      invariant 0 <= i <= |ws|
      invariant c.entries == SetAll(base, kvs[..i], ExpireAt(now, cfg.ttlMs))
    {
      c.Set(Key(ws[i].id), WorkspaceValue(ws[i]), cfg.ttlMs, now);
      SetAllStep(base, kvs, ExpireAt(now, cfg.ttlMs), i);
      i := i + 1;
    }
    assert kvs[..|ws|] == kvs;
  }

  /**
   * The cache after `getIndependent`: untouched on a hit; on a miss the
   * loaded workspace stored under both its keys, or, when there is none,
   * only an expired entry at the independent key removed.
   */
  function EntriesAfterGetIndependent(m: Entries, rows: map<int, Workspace>, n: nat, now: int, ttlMs: int): Entries
  {
    if CachedWorkspace(m, IndependentKey, now).Some? then m
    else match LoadIndependent(rows, n)
      case Some(w) => m[IndependentKey := CacheEntry(WorkspaceValue(w), ExpireAt(now, ttlMs))]
                       [Key(w.id) := CacheEntry(WorkspaceValue(w), ExpireAt(now, ttlMs))]
      case None => Touch(m, IndependentKey, now)
  }

  method GetIndependent(c: MemoryCache, t: WorkspaceTable, now: int, cfg: Config) returns (r: Option<Workspace>)
    modifies c
    ensures CachedWorkspace(old(c.entries), IndependentKey, now).Some? ==>
      r == CachedWorkspace(old(c.entries), IndependentKey, now) && c.entries == old(c.entries)
    ensures CachedWorkspace(old(c.entries), IndependentKey, now).None? ==>
      r == LoadIndependent(t.rows, t.nextId)
      && c.entries == if r.Some? then
           old(c.entries)[IndependentKey := CacheEntry(WorkspaceValue(r.value), ExpireAt(now, cfg.ttlMs))]
                         [Key(r.value.id) := CacheEntry(WorkspaceValue(r.value), ExpireAt(now, cfg.ttlMs))]
         else Touch(old(c.entries), IndependentKey, now)
    ensures c.entries == EntriesAfterGetIndependent(old(c.entries), t.rows, t.nextId, now, cfg.ttlMs)
  {
    var cached := c.Get(IndependentKey, now);
    if cached.Some? && cached.value.WorkspaceValue? {
      return Some(cached.value.workspace);
    }
    r := LoadIndependent(t.rows, t.nextId);
    if r.Some? {
      c.Set(IndependentKey, WorkspaceValue(r.value), cfg.ttlMs, now);
      TouchThenSet(old(c.entries), IndependentKey, CacheEntry(WorkspaceValue(r.value), ExpireAt(now, cfg.ttlMs)), now);
      c.Set(Key(r.value.id), WorkspaceValue(r.value), cfg.ttlMs, now);
    }
  }

  /** The player index keys of the given member ids. */
  function PlayerKeys(ids: seq<Uuid>): (r: seq<string>)
    ensures |r| == |ids|
    ensures forall i | 0 <= i < |ids| :: r[i] == PlayerKey(ids[i])
  {
    seq(|ids|, i requires 0 <= i < |ids| => PlayerKey(ids[i]))
  }

  /** `update`: overwrite the workspace entry and drop the joined-list index of every member. */
  method Update(c: MemoryCache, w: Workspace, now: int, cfg: Config)
    modifies c
    ensures c.entries == DeleteKeys(old(c.entries)[Key(w.id) := CacheEntry(WorkspaceValue(w), ExpireAt(now, cfg.ttlMs))],
                                    PlayerKeys(MemberIds(w.members)))
  {
    c.Set(Key(w.id), WorkspaceValue(w), cfg.ttlMs, now);
    ghost var base := c.entries;
    var keys := PlayerKeys(MemberIds(w.members));
    var i := 0;
    while i < |keys|
      invariant 0 <= i <= |keys|
      invariant c.entries == DeleteKeys(base, keys[..i])
    {
      c.Delete(keys[i]);
      assert keys[..i + 1][..i] == keys[..i];
      i := i + 1;
    }
    assert keys[..|keys|] == keys;
  }

  /** `invalidate`: drop the workspace entry and every player index. */
  method Invalidate(c: MemoryCache, id: int)
    modifies c
    ensures c.entries == WithoutPrefix(old(c.entries) - {Key(id)}, PlayerPrefix)
  {
    c.Delete(Key(id));
    c.DeleteByPrefix(PlayerPrefix);
  }

  method InvalidatePlayerWorkspaces(c: MemoryCache, uuid: Uuid)
    modifies c
    ensures c.entries == old(c.entries) - {PlayerKey(uuid)}
  {
    c.Delete(PlayerKey(uuid));
  }

  // ---------------------------------------------------------------------------
  // Key scheme.

  lemma KeyInjective(a: int, b: int)
    requires Key(a) == Key(b)
    ensures a == b
  {
    assert IntToString(a) == Key(a)[10..] && IntToString(b) == Key(b)[10..];
    IntToStringInjective(a, b);
  }

  /** Id keys, the independent key and the player index keys never meet. */
  lemma KeysDistinct(id: int, uuid: Uuid)
    ensures Key(id) != IndependentKey
    ensures !(PlayerPrefix <= Key(id))
    ensures PlayerPrefix <= PlayerKey(uuid)
    ensures Key(id) != PlayerKey(uuid)
  {
    var d := IntToString(id);
    assert Key(id)[10] == d[0];
    assert IndependentKey[10] == 'i' && PlayerPrefix[10] == 'p';
    assert (PlayerPrefix + ":" + uuid)[..|PlayerPrefix|] == PlayerPrefix;
  }

  /** Reading a player's joined list leaves what the independent key serves as it was. */
  lemma JoinedReadKeepsIndependent(m: Entries, rows: map<int, Workspace>, n: nat, uuid: Uuid, now: int, ttlMs: int)
    ensures CachedWorkspace(EntriesAfterGetJoined(m, rows, n, uuid, now, ttlMs), IndependentKey, now)
         == CachedWorkspace(m, IndependentKey, now)
  {
    if CachedList(m, PlayerKey(uuid), now).None? {
      var ws := LoadJoined(rows, n, uuid);
      var kvs := IdEntries(ws);
      forall i | 0 <= i < |kvs| ensures kvs[i].0 != IndependentKey {
        KeysDistinct(ws[i].id, uuid);
      }
      assert PlayerKey(uuid)[10] == 'p' != IndependentKey[10];
      var e := ExpireAt(now, ttlMs);
      SetAllOther(m[PlayerKey(uuid) := CacheEntry(WorkspaceList(ws), e)], kvs, e, IndependentKey);
    }
  }

  /** A miss of `getJoinedWorkspaces` leaves every joined workspace cached under its id and the list under the player key. */
  lemma JoinedMissCachesEach(t: map<int, Workspace>, n: nat, uuid: Uuid, m: Entries, e: int)
    requires forall k | k in t :: t[k].id == k
    ensures var ws := LoadJoined(t, n, uuid);
            var after := SetAll(m[PlayerKey(uuid) := CacheEntry(WorkspaceList(ws), e)], IdEntries(ws), e);
            PlayerKey(uuid) in after && after[PlayerKey(uuid)] == CacheEntry(WorkspaceList(ws), e)
            && forall i | 0 <= i < |ws| :: Key(ws[i].id) in after && after[Key(ws[i].id)] == CacheEntry(WorkspaceValue(ws[i]), e)
  {
    var ws := LoadJoined(t, n, uuid);
    var kvs := IdEntries(ws);
    RowsIncreasing(t, n, (w: Workspace) => Contains(w.members, uuid), (w: Workspace) => w.id);
    var base := m[PlayerKey(uuid) := CacheEntry(WorkspaceList(ws), e)];
    forall i | 0 <= i < |kvs| ensures kvs[i].0 != PlayerKey(uuid) {
      KeysDistinct(ws[i].id, uuid);
    }
    SetAllOther(base, kvs, e, PlayerKey(uuid));
    forall a, b | 0 <= a < b < |kvs| ensures kvs[a].0 != kvs[b].0 {
      if kvs[a].0 == kvs[b].0 {
        KeyInjective(ws[a].id, ws[b].id);
      }
    }
    forall i | 0 <= i < |ws|
      ensures Key(ws[i].id) in SetAll(base, kvs, e) && SetAll(base, kvs, e)[Key(ws[i].id)] == CacheEntry(WorkspaceValue(ws[i]), e)
    {
      SetAllHit(base, kvs, e, i);
    }
  }

  /** A member list written as the owner followed by `,id` for each further member parses back to exactly those ids. */
  lemma MemberIdsOfJoin(ids: seq<string>)
    requires |ids| >= 1
    requires forall u | u in ids :: ',' !in u && NotBlank(u)
    ensures MemberIds(JoinWith(ids, ',')) == ids
  {
    SplitJoin(ids, ',');
    FilterKeepsAll(ids, NotBlank);
  }
}
