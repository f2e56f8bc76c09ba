/**
 * The pick-up rule cache: `autopickup:<vaultId>` holds the rule list of one
 * vault. `batchLoad` serves a list of vaults with one store query for the
 * vaults it does not find cached.
 */
module AutoPickupCache {
  import opened Wrappers
  import opened Text
  import opened Seqs
  import opened Records
  import opened MemoryCacheProvider
  import opened RowStore
  import opened PluginConfig

  const Prefix: string := "autopickup"

  function Key(vaultId: int): string
  {
    Prefix + ":" + IntToString(vaultId)
  }

  function CachedRules(m: Entries, vaultId: int, now: int): (r: Option<seq<AutoPickup>>)
    ensures r.Some? ==> Key(vaultId) in m && m[Key(vaultId)].data == RuleList(r.value)
  {
    match Lookup(m, Key(vaultId), now)
    case Some(RuleList(rs)) => Some(rs)
    case _ => None
  }

  /** `select where vault_id = vaultId`, in id order. */
  function LoadFor(rows: map<int, AutoPickup>, n: nat, vaultId: int): seq<AutoPickup>
  {
    Rows(rows, n, (r: AutoPickup) => r.vaultId == vaultId)
  }

  /** `select where vault_id in ids`, in id order: the one query of `batchLoad`. */
  function LoadForAll(rows: map<int, AutoPickup>, n: nat, ids: seq<int>): seq<AutoPickup>
  {
    Rows(rows, n, (r: AutoPickup) => r.vaultId in ids)
  }

  /** `groupedRules[vaultId] ?: emptyList()`. */
  function GroupOf(all: seq<AutoPickup>, vaultId: int): seq<AutoPickup>
  {
    Filter(all, (r: AutoPickup) => r.vaultId == vaultId)
  }

  /** What `get` answers for one vault: the cached list, or the store's rules on a miss. */
  function Served(m: Entries, rows: map<int, AutoPickup>, n: nat, vaultId: int, now: int): seq<AutoPickup>
  {
    match CachedRules(m, vaultId, now)
    case Some(rs) => rs
    case None => LoadFor(rows, n, vaultId)
  }

  /** What `batchLoad` answers: every requested vault, served as `get` would serve it. */
  function Batch(m: Entries, rows: map<int, AutoPickup>, n: nat, ids: seq<int>, now: int): map<int, seq<AutoPickup>>
  {
    map v | v in ids :: Served(m, rows, n, v, now)
  }

  /** The cache after `batchLoad(ids)`: each requested vault that misses has its loaded rules stored. */
  function BatchEntries(m: Entries, rows: map<int, AutoPickup>, n: nat, ids: seq<int>, now: int, ttlMs: int): Entries
    decreases |ids|
  {
    if ids == [] then m
    else
      var v := ids[|ids| - 1];
      var m' := BatchEntries(m, rows, n, ids[..|ids| - 1], now, ttlMs);
      if CachedRules(m, v, now).Some? then m'
      else m'[Key(v) := CacheEntry(RuleList(LoadFor(rows, n, v)), ExpireAt(now, ttlMs))]
  }

  /** The cache after `get`: untouched on a hit; the loaded list stored on a miss. */
  function EntriesAfterGet(m: Entries, rows: map<int, AutoPickup>, n: nat, vaultId: int, now: int, ttlMs: int): Entries
  {
    if CachedRules(m, vaultId, now).Some? then m
    else m[Key(vaultId) := CacheEntry(RuleList(LoadFor(rows, n, vaultId)), ExpireAt(now, ttlMs))]
  }

  method Get(c: MemoryCache, t: RuleTable, vaultId: int, now: int, cfg: Config) returns (rules: seq<AutoPickup>)
    modifies c
    ensures rules == Served(old(c.entries), t.rows, t.nextId, vaultId, now)
    ensures CachedRules(old(c.entries), vaultId, now).Some? ==> c.entries == old(c.entries)
    ensures CachedRules(old(c.entries), vaultId, now).None? ==>
      c.entries == old(c.entries)[Key(vaultId) := CacheEntry(RuleList(rules), ExpireAt(now, cfg.ttlMs))]
    ensures c.entries == EntriesAfterGet(old(c.entries), t.rows, t.nextId, vaultId, now, cfg.ttlMs)
  {
    var cached := c.Get(Key(vaultId), now);
    if cached.Some? && cached.value.RuleList? {
      return cached.value.rules;
    }
    rules := LoadFor(t.rows, t.nextId, vaultId);
    c.Set(Key(vaultId), RuleList(rules), cfg.ttlMs, now);
    TouchThenSet(old(c.entries), Key(vaultId), CacheEntry(RuleList(rules), ExpireAt(now, cfg.ttlMs)), now);
  }

  method Update(c: MemoryCache, vaultId: int, rules: seq<AutoPickup>, now: int, cfg: Config)
    modifies c
    ensures c.entries == old(c.entries)[Key(vaultId) := CacheEntry(RuleList(rules), ExpireAt(now, cfg.ttlMs))]
  {
    c.Set(Key(vaultId), RuleList(rules), cfg.ttlMs, now);
  }

  method Invalidate(c: MemoryCache, vaultId: int)
    modifies c
    ensures c.entries == old(c.entries) - {Key(vaultId)}
  {
    c.Delete(Key(vaultId));
  }

  method InvalidateAll(c: MemoryCache)
    modifies c
    ensures c.entries == WithoutPrefix(old(c.entries), Prefix)
  {
    c.DeleteByPrefix(Prefix);
  }

  /**
   * `batchLoad`: a first pass splits the vaults into hits and misses, then one
   * query loads the misses' rules, which are grouped per vault, cached and
   * returned. Hit entries are left as they were and no other key changes.
   */
  method BatchLoad(c: MemoryCache, t: RuleTable, vaultIds: seq<int>, now: int, cfg: Config)
    returns (result: map<int, seq<AutoPickup>>)
    modifies c
    ensures result == Batch(old(c.entries), t.rows, t.nextId, vaultIds, now)
    ensures forall v | v in vaultIds && CachedRules(old(c.entries), v, now).Some? ::
              Key(v) in c.entries && c.entries[Key(v)] == old(c.entries)[Key(v)]
    ensures forall v | v in vaultIds && CachedRules(old(c.entries), v, now).None? ::
              Key(v) in c.entries && c.entries[Key(v)] == CacheEntry(RuleList(result[v]), ExpireAt(now, cfg.ttlMs))
    ensures forall k | (forall v | v in vaultIds :: k != Key(v)) ::
              (k in c.entries <==> k in old(c.entries)) && (k in c.entries ==> c.entries[k] == old(c.entries)[k])
    ensures c.entries == BatchEntries(old(c.entries), t.rows, t.nextId, vaultIds, now, cfg.ttlMs)
  {
    if |vaultIds| == 0 {
      return map[];
    }
    ghost var m0 := c.entries;
    var hits, uncached := SplitCached(c, vaultIds, now);
    ghost var mid := c.entries;
    result := hits;
    if |uncached| > 0 {
      result := CacheMisses(c, t, uncached, hits, now, cfg);
      BatchLoadCache(m0, mid, c.entries, t.rows, t.nextId, vaultIds, uncached, now, cfg.ttlMs);
      BatchLoadResult(m0, t.rows, t.nextId, vaultIds, hits, uncached, result, now);
    } else {
      assert uncached == [];
      BatchLoadCache(m0, mid, c.entries, t.rows, t.nextId, vaultIds, uncached, now, cfg.ttlMs);
      BatchLoadResult(m0, t.rows, t.nextId, vaultIds, hits, uncached, result, now);
    }
  }

  /** The answer of `batchLoad`, from the hits of the first pass and the loaded misses of the second. */
  lemma BatchLoadResult(m0: Entries, rows: map<int, AutoPickup>, n: nat, ids: seq<int>,
                        hits: map<int, seq<AutoPickup>>, misses: seq<int>, result: map<int, seq<AutoPickup>>, now: int)
    requires forall v :: v in hits <==> v in ids && CachedRules(m0, v, now).Some?
    requires forall v | v in hits :: hits[v] == CachedRules(m0, v, now).value
    requires forall v :: v in misses <==> v in ids && CachedRules(m0, v, now).None?
    requires forall v :: v in result <==> v in hits || v in misses
    requires forall v | v in result :: result[v] == if v in misses then LoadFor(rows, n, v) else hits[v]
    ensures result == Batch(m0, rows, n, ids, now)
  {
    var want := Batch(m0, rows, n, ids, now);
    assert forall v :: v in result <==> v in want;
    forall v | v in result ensures result[v] == want[v] {
      assert v in ids;
    }
  }

  /**
   * The cache facts of `batchLoad`, from those of its two passes: the first
   * only dropped expired entries, the second stored each miss's rules and
   * touched nothing else.
   */
  lemma BatchLoadCache(m0: Entries, mid: Entries, m: Entries, rows: map<int, AutoPickup>, n: nat, ids: seq<int>,
                       misses: seq<int>, now: int, ttlMs: int)
    requires forall k | k in mid :: k in m0 && mid[k] == m0[k]
    requires forall k | k in m0 && !IsExpired(m0[k], now) :: k in mid
    requires forall k | k in m0 && (forall v | v in ids :: k != Key(v)) :: k in mid
    requires forall v :: v in misses <==> v in ids && CachedRules(m0, v, now).None?
    requires forall v | v in misses ::
               Key(v) in m && m[Key(v)] == CacheEntry(RuleList(LoadFor(rows, n, v)), ExpireAt(now, ttlMs))
    requires forall k | (forall v | v in misses :: k != Key(v)) :: (k in m <==> k in mid) && (k in mid ==> m[k] == mid[k])
    ensures forall v | v in ids && CachedRules(m0, v, now).Some? :: Key(v) in m && m[Key(v)] == m0[Key(v)]
    ensures forall v | v in ids && CachedRules(m0, v, now).None? ::
              Key(v) in m && m[Key(v)] == CacheEntry(RuleList(LoadFor(rows, n, v)), ExpireAt(now, ttlMs))
    ensures forall k | (forall v | v in ids :: k != Key(v)) :: (k in m <==> k in m0) && (k in m ==> m[k] == m0[k])
    ensures m == BatchEntries(m0, rows, n, ids, now, ttlMs)
  {
    forall v | v in ids && CachedRules(m0, v, now).Some?
      ensures Key(v) in m && m[Key(v)] == m0[Key(v)]
    {
      forall u | u in misses ensures Key(v) != Key(u) {
        KeyInjectiveContra(v, u);
      }
    }
    BatchLoadEntries(m0, m, rows, n, ids, now, ttlMs);
  }

  /** The three facts `batchLoad` states about the cache determine it: it is `BatchEntries`. */
  lemma BatchLoadEntries(m0: Entries, m: Entries, rows: map<int, AutoPickup>, n: nat, ids: seq<int>, now: int,
                         ttlMs: int)
    requires forall v | v in ids && CachedRules(m0, v, now).Some? :: Key(v) in m && m[Key(v)] == m0[Key(v)]
    requires forall v | v in ids && CachedRules(m0, v, now).None? ::
               Key(v) in m && m[Key(v)] == CacheEntry(RuleList(LoadFor(rows, n, v)), ExpireAt(now, ttlMs))
    requires forall k | (forall v | v in ids :: k != Key(v)) :: (k in m <==> k in m0) && (k in m ==> m[k] == m0[k])
    ensures m == BatchEntries(m0, rows, n, ids, now, ttlMs)
  {
    var b := BatchEntries(m0, rows, n, ids, now, ttlMs);
    forall k ensures (k in m <==> k in b) && (k in m ==> m[k] == b[k]) {
      if v :| v in ids && Key(v) == k {
        if CachedRules(m0, v, now).None? {
          BatchEntriesMiss(m0, rows, n, ids, now, ttlMs, v);
        } else {
          forall u | u in ids && CachedRules(m0, u, now).None? ensures Key(u) != k {
            KeyInjectiveContra(u, v);
          }
          BatchEntriesKeep(m0, rows, n, ids, now, ttlMs, k);
        }
      } else {
        BatchEntriesKeep(m0, rows, n, ids, now, ttlMs, k);
      }
    }
  }

  /** A requested vault that misses holds its loaded rules after `BatchEntries`. */
  lemma {:induction false} BatchEntriesMiss(m: Entries, rows: map<int, AutoPickup>, n: nat, ids: seq<int>, now: int,
                                            ttlMs: int, v: int)
    requires v in ids && CachedRules(m, v, now).None?
    ensures var b := BatchEntries(m, rows, n, ids, now, ttlMs);
            Key(v) in b && b[Key(v)] == CacheEntry(RuleList(LoadFor(rows, n, v)), ExpireAt(now, ttlMs))
    decreases |ids|
  {
    var init := ids[..|ids| - 1];
    if ids[|ids| - 1] != v {
      assert ids == init + [ids[|ids| - 1]];
      assert v in init;
      BatchEntriesMiss(m, rows, n, init, now, ttlMs, v);
      KeyInjectiveContra(ids[|ids| - 1], v);
    }
  }

  /** A key of no missing requested vault keeps its entry through `BatchEntries`. */
  lemma {:induction false} BatchEntriesKeep(m: Entries, rows: map<int, AutoPickup>, n: nat, ids: seq<int>, now: int,
                                            ttlMs: int, k: string)
    requires forall v | v in ids && CachedRules(m, v, now).None? :: Key(v) != k
    ensures var b := BatchEntries(m, rows, n, ids, now, ttlMs);
            (k in b <==> k in m) && (k in b ==> b[k] == m[k])
    decreases |ids|
  {
    if ids != [] {
      var init := ids[..|ids| - 1];
      assert forall v | v in init :: v in ids;
      BatchEntriesKeep(m, rows, n, init, now, ttlMs, k);
    }
  }

  /** The first pass of `batchLoad`: the cached lists, and the vaults to load, in request order. */
  method SplitCached(c: MemoryCache, vaultIds: seq<int>, now: int)
    returns (hits: map<int, seq<AutoPickup>>, misses: seq<int>)
    modifies c
    ensures forall k | k in c.entries :: k in old(c.entries) && c.entries[k] == old(c.entries)[k]
    ensures forall k | k in old(c.entries) && !IsExpired(old(c.entries)[k], now) :: k in c.entries
    ensures forall k | k in old(c.entries) && (forall v | v in vaultIds :: k != Key(v)) :: k in c.entries
    ensures forall v :: v in hits <==> v in vaultIds && CachedRules(old(c.entries), v, now).Some?
    ensures forall v | v in hits :: hits[v] == CachedRules(old(c.entries), v, now).value
    ensures forall v :: v in misses <==> v in vaultIds && CachedRules(old(c.entries), v, now).None?
  {
    ghost var m0 := c.entries;
    hits := map[];
    misses := [];
    var i := 0;
    while i < |vaultIds|
      invariant 0 <= i <= |vaultIds|
      invariant EvictedOnly(c.entries, m0, now) && KeptOutside(c.entries, m0, vaultIds[..i])
      invariant SplitSoFar(hits, misses, vaultIds[..i], m0, now)
    {
      var v := vaultIds[i];
      SplitTurn(c.entries, m0, vaultIds, i, hits, misses, now);
      var cached := c.Get(Key(v), now);
      if cached.Some? && cached.value.RuleList? {
        hits := hits[v := cached.value.rules];
      } else {
        misses := misses + [v];
      }
      i := i + 1;
    }
    assert vaultIds[..i] == vaultIds;
  }

  /** The cache only lost expired entries of `m0`. */
  ghost predicate EvictedOnly(m: Entries, m0: Entries, now: int)
  {
    && (forall k | k in m :: k in m0 && m[k] == m0[k])
    && (forall k | k in m0 && !IsExpired(m0[k], now) :: k in m)
  }

  /** Every key of `m0` that belongs to no vault of `s` is still there. */
  ghost predicate KeptOutside(m: Entries, m0: Entries, s: seq<int>)
  {
    forall k | k in m0 && (forall v | v in s :: k != Key(v)) :: k in m
  }

  /** `hits` holds the cached lists of the vaults of `s`, and `misses` the others. */
  ghost predicate SplitSoFar(hits: map<int, seq<AutoPickup>>, misses: seq<int>, s: seq<int>, m0: Entries, now: int)
  {
    && (forall v :: v in hits <==> v in s && CachedRules(m0, v, now).Some?)
    && (forall v | v in hits :: hits[v] == CachedRules(m0, v, now).value)
    && (forall v :: v in misses <==> v in s && CachedRules(m0, v, now).None?)
  }

  /** Looking up one more vault keeps the facts of the first pass. */
  lemma SplitStep(m: Entries, m0: Entries, s: seq<int>, v: int, hits: map<int, seq<AutoPickup>>, misses: seq<int>,
                  now: int)
    requires EvictedOnly(m, m0, now) && KeptOutside(m, m0, s) && SplitSoFar(hits, misses, s, m0, now)
    ensures var m' := Touch(m, Key(v), now);
            var r := CachedRules(m0, v, now);
            && EvictedOnly(m', m0, now) && KeptOutside(m', m0, s + [v])
            && SplitSoFar(if r.Some? then hits[v := r.value] else hits, if r.Some? then misses else misses + [v],
                          s + [v], m0, now)
  {
    TouchKeeps(m, m0, s, v, now);
    SplitGrows(hits, misses, s, v, m0, now);
  }

  /** One turn of the first pass: the lookup sees what `m0` holds, and the facts hold for one more vault. */
  lemma SplitTurn(m: Entries, m0: Entries, ids: seq<int>, i: int, hits: map<int, seq<AutoPickup>>, misses: seq<int>,
                  now: int)
    requires 0 <= i < |ids|
    requires EvictedOnly(m, m0, now) && KeptOutside(m, m0, ids[..i]) && SplitSoFar(hits, misses, ids[..i], m0, now)
    ensures var v := ids[i];
            var m' := Touch(m, Key(v), now);
            var r := CachedRules(m0, v, now);
            && Lookup(m, Key(v), now) == Lookup(m0, Key(v), now)
            && EvictedOnly(m', m0, now) && KeptOutside(m', m0, ids[..i + 1])
            && SplitSoFar(if r.Some? then hits[v := r.value] else hits, if r.Some? then misses else misses + [v],
                          ids[..i + 1], m0, now)
  {
    assert ids[..i + 1] == ids[..i] + [ids[i]];
    SubmapLookup(m, m0, Key(ids[i]), now);
    SplitStep(m, m0, ids[..i], ids[i], hits, misses, now);
  }

  lemma TouchKeeps(m: Entries, m0: Entries, s: seq<int>, v: int, now: int)
    requires EvictedOnly(m, m0, now) && KeptOutside(m, m0, s)
    ensures EvictedOnly(Touch(m, Key(v), now), m0, now) && KeptOutside(Touch(m, Key(v), now), m0, s + [v])
  {
    var m' := Touch(m, Key(v), now);
    forall k | k in m0 && (forall u | u in s + [v] :: k != Key(u)) ensures k in m' {
      assert v in s + [v];
      assert forall u | u in s :: u in s + [v];
    }
  }

  lemma SplitGrows(hits: map<int, seq<AutoPickup>>, misses: seq<int>, s: seq<int>, v: int, m0: Entries, now: int)
    requires SplitSoFar(hits, misses, s, m0, now)
    ensures var r := CachedRules(m0, v, now);
            SplitSoFar(if r.Some? then hits[v := r.value] else hits, if r.Some? then misses else misses + [v],
                       s + [v], m0, now)
  {
    var r := CachedRules(m0, v, now);
    assert forall x :: x in s + [v] <==> x in s || x == v;
    if r.None? {
      assert forall x :: x in misses + [v] <==> x in misses || x == v;
    }
  }

  /** The second pass of `batchLoad`: one query for all misses, then each miss cached and added to the result. */
  method CacheMisses(c: MemoryCache, t: RuleTable, misses: seq<int>, result0: map<int, seq<AutoPickup>>, now: int, cfg: Config)
    returns (result: map<int, seq<AutoPickup>>)
    modifies c
    ensures forall v :: v in result <==> v in result0 || v in misses
    ensures forall v | v in result :: result[v] == if v in misses then LoadFor(t.rows, t.nextId, v) else result0[v]
    ensures forall v | v in misses ::
              Key(v) in c.entries && c.entries[Key(v)] == CacheEntry(RuleList(LoadFor(t.rows, t.nextId, v)), ExpireAt(now, cfg.ttlMs))
    ensures forall k | (forall v | v in misses :: k != Key(v)) ::
              (k in c.entries <==> k in old(c.entries)) && (k in old(c.entries) ==> c.entries[k] == old(c.entries)[k])
  {
    var allRules := LoadForAll(t.rows, t.nextId, misses);
    result := result0;
    var j := 0;
    while j < |misses|
      invariant 0 <= j <= |misses|
      invariant LoadedSoFar(result, result0, t.rows, t.nextId, misses[..j])
      invariant StoredFor(c.entries, t.rows, t.nextId, misses[..j], ExpireAt(now, cfg.ttlMs))
      invariant UnchangedOutside(c.entries, old(c.entries), misses[..j])
    {
      var v := misses[j];
      var rules := GroupOf(allRules, v);
      GroupOfBatch(t.rows, t.nextId, misses, v);
      MissStep(c.entries, old(c.entries), result, result0, t.rows, t.nextId, misses, j, ExpireAt(now, cfg.ttlMs));
      c.Set(Key(v), RuleList(rules), cfg.ttlMs, now);
      result := result[v := rules];
      j := j + 1;
    }
    assert misses[..j] == misses;
  }

  /** `result` is `result0` with the loaded rules of every vault of `s` added. */
  ghost predicate LoadedSoFar(result: map<int, seq<AutoPickup>>, result0: map<int, seq<AutoPickup>>,
                              rows: map<int, AutoPickup>, n: nat, s: seq<int>)
  {
    && (forall v :: v in result <==> v in result0 || v in s)
    && (forall v | v in result :: result[v] == if v in s then LoadFor(rows, n, v) else result0[v])
  }

  lemma LoadStep(result: map<int, seq<AutoPickup>>, result0: map<int, seq<AutoPickup>>,
                 rows: map<int, AutoPickup>, n: nat, s: seq<int>, v: int)
    requires LoadedSoFar(result, result0, rows, n, s)
    ensures LoadedSoFar(result[v := LoadFor(rows, n, v)], result0, rows, n, s + [v])
  {
    assert forall x :: x in s + [v] <==> x in s || x == v;
  }

  /** Every vault of `s` has its loaded rules cached, expiring at `expireAt`. */
  ghost predicate StoredFor(m: Entries, rows: map<int, AutoPickup>, n: nat, s: seq<int>, expireAt: int)
  {
    forall v | v in s :: Key(v) in m && m[Key(v)] == CacheEntry(RuleList(LoadFor(rows, n, v)), expireAt)
  }

  /** Every key that belongs to no vault of `s` is as it was in `m0`. */
  ghost predicate UnchangedOutside(m: Entries, m0: Entries, s: seq<int>)
  {
    forall k | (forall v | v in s :: k != Key(v)) :: (k in m <==> k in m0) && (k in m0 ==> m[k] == m0[k])
  }

  /** One turn of the second pass keeps its three facts, for one more miss. */
  lemma MissStep(m: Entries, m0: Entries, result: map<int, seq<AutoPickup>>, result0: map<int, seq<AutoPickup>>,
                 rows: map<int, AutoPickup>, n: nat, misses: seq<int>, j: int, expireAt: int)
    requires 0 <= j < |misses|
    requires LoadedSoFar(result, result0, rows, n, misses[..j])
    requires StoredFor(m, rows, n, misses[..j], expireAt) && UnchangedOutside(m, m0, misses[..j])
    ensures var v := misses[j];
            var m' := m[Key(v) := CacheEntry(RuleList(LoadFor(rows, n, v)), expireAt)];
            && LoadedSoFar(result[v := LoadFor(rows, n, v)], result0, rows, n, misses[..j + 1])
            && StoredFor(m', rows, n, misses[..j + 1], expireAt) && UnchangedOutside(m', m0, misses[..j + 1])
  {
    assert misses[..j + 1] == misses[..j] + [misses[j]];
    StoreStep(m, m0, rows, n, misses[..j], misses[j], expireAt);
    LoadStep(result, result0, rows, n, misses[..j], misses[j]);
  }

  lemma StoreStep(m: Entries, m0: Entries, rows: map<int, AutoPickup>, n: nat, s: seq<int>, v: int, expireAt: int)
    requires StoredFor(m, rows, n, s, expireAt) && UnchangedOutside(m, m0, s)
    ensures var m' := m[Key(v) := CacheEntry(RuleList(LoadFor(rows, n, v)), expireAt)];
            StoredFor(m', rows, n, s + [v], expireAt) && UnchangedOutside(m', m0, s + [v])
  {
    forall u | u != v ensures Key(u) != Key(v) {
      KeyInjectiveContra(u, v);
    }
  }

  // ---------------------------------------------------------------------------
  // Properties.

  /** Grouping the one batch query gives each requested vault exactly its own rules, as `get` would load them. */
  lemma GroupOfBatch(rows: map<int, AutoPickup>, n: nat, ids: seq<int>, v: int)
    requires v in ids
    ensures GroupOf(LoadForAll(rows, n, ids), v) == LoadFor(rows, n, v)
  {
    RowsFilter(rows, n, (r: AutoPickup) => r.vaultId in ids, (r: AutoPickup) => r.vaultId == v,
               (r: AutoPickup) => r.vaultId == v);
  }

  /** A map that only lost expired entries answers every lookup as before. */
  lemma SubmapLookup(m: Entries, m0: Entries, k: string, now: int)
    requires forall k | k in m :: k in m0 && m[k] == m0[k]
    requires forall k | k in m0 && !IsExpired(m0[k], now) :: k in m
    ensures Lookup(m, k, now) == Lookup(m0, k, now)
  {
  }

  lemma KeyInjectiveContra(a: int, b: int)
    requires a != b
    ensures Key(a) != Key(b)
  {
    if Key(a) == Key(b) {
      assert IntToString(a) == Key(a)[11..] && IntToString(b) == Key(b)[11..];
      IntToStringInjective(a, b);
    }
  }

  /** Every rule served for a vault on a miss belongs to that vault. */
  lemma ServedBelongs(m: Entries, rows: map<int, AutoPickup>, n: nat, vaultId: int, now: int)
    requires CachedRules(m, vaultId, now).None?
    ensures forall r | r in Served(m, rows, n, vaultId, now) :: r.vaultId == vaultId
  {
  }

  /** `invalidateAll` removes every rule list of every vault. */
  lemma InvalidateAllForgets(m: Entries, vaultId: int, now: int)
    ensures CachedRules(WithoutPrefix(m, Prefix), vaultId, now) == None
  {
    PrefixOfConcat(Prefix, ":" + IntToString(vaultId));
    assert Key(vaultId) == Prefix + (":" + IntToString(vaultId));
  }
}
