/**
 * The automatic pick-up rules of a vault: creating, listing, clearing,
 * deleting and editing them, and deciding from them whether a picked-up
 * stack goes into the vault. Every write invalidates the vault's rule list
 * in the cache, so a cached list is always the stored one.
 */
module AutoPickups {
  import opened Wrappers
  import opened Text
  import opened Seqs
  import opened Records
  import opened MemoryCacheProvider
  import opened RowStore
  import opened PluginConfig
  import AutoPickupCache

  // ---------------------------------------------------------------------------
  // Matching one rule.

  /**
   * The regular-expression engine, which is not modelled: whether a pattern
   * compiles (with IGNORE_CASE), and whether a compiled pattern matches
   * somewhere in a text.
   */
  datatype RegexEngine = RegexEngine(compiles: string -> bool, containsMatch: (string, string) -> bool)

  /** The stack's facts a rule looks at: material name, display name and lore lines. */
  datatype Probe = Probe(material: string, name: string, lore: seq<string>)

  function ProbeOf(stack: ItemStack): Probe
  {
    Probe(MaterialName(stack.material), stack.name, stack.lore)
  }

  predicate AnyLoreContains(lore: seq<string>, text: string)
  {
    exists i | 0 <= i < |lore| :: ContainsIgnoreCase(lore[i], text)
  }

  /** The rule's form, read off its case-insensitive prefix in the order `matchesRule` tests them. */
  datatype RuleForm =
    | TypeRule(material: string)
    | NameRule(name: string)
    | LoreRule(text: string)
    | RegexRule(pattern: string)
    | RegexLoreRule(pattern: string)
    | PlainRule(name: string)

  function FormOf(value: string): (r: RuleForm)
    ensures r.PlainRule? ==> r.name == value
    ensures StartsWithIgnoreCase(value, "type:") ==> r == TypeRule(value[5..])
    ensures (!StartsWithIgnoreCase(value, "type:") && !StartsWithIgnoreCase(value, "name:")
             && !StartsWithIgnoreCase(value, "lore:") && !StartsWithIgnoreCase(value, "regex:")
             && !StartsWithIgnoreCase(value, "regex-lore:")) ==> r == PlainRule(value)
  {
    if StartsWithIgnoreCase(value, "type:") then TypeRule(value[5..])
    else if StartsWithIgnoreCase(value, "name:") then NameRule(value[5..])
    else if StartsWithIgnoreCase(value, "lore:") then LoreRule(value[5..])
    else if StartsWithIgnoreCase(value, "regex:") then RegexRule(value[6..])
    else if StartsWithIgnoreCase(value, "regex-lore:") then RegexLoreRule(value[11..])
    else PlainRule(value)
  }

  /** `matchesRule`: a pattern that does not compile matches nothing. */
  predicate MatchesRule(p: Probe, value: string, re: RegexEngine)
  {
    match FormOf(value)
    case TypeRule(m) => EqualsIgnoreCase(p.material, m)
    case NameRule(n) => ContainsIgnoreCase(p.name, n)
    case LoreRule(t) => AnyLoreContains(p.lore, t)
    case RegexRule(pat) => re.compiles(pat) && re.containsMatch(pat, p.name)
    case RegexLoreRule(pat) => re.compiles(pat) && exists i | 0 <= i < |p.lore| :: re.containsMatch(pat, p.lore[i])
    case PlainRule(n) => ContainsIgnoreCase(p.name, n)
  }

  /** The four plain forms as single-rule facts; a rule without a known prefix is a name test. */
  lemma RuleForms(p: Probe, x: string, re: RegexEngine)
    ensures MatchesRule(p, "type:" + x, re) <==> EqualsIgnoreCase(p.material, x)
    ensures MatchesRule(p, "name:" + x, re) <==> ContainsIgnoreCase(p.name, x)
    ensures MatchesRule(p, "lore:" + x, re) <==> AnyLoreContains(p.lore, x)
    ensures !re.compiles(x) ==> !MatchesRule(p, "regex:" + x, re) && !MatchesRule(p, "regex-lore:" + x, re)
  {
    LowerPrefix("type:", x);
    LowerPrefix("name:", x);
    LowerPrefix("lore:", x);
    LowerPrefix("regex:", x);
    LowerPrefix("regex-lore:", x);
    assert ("type:" + x)[5..] == x && ("name:" + x)[5..] == x && ("lore:" + x)[5..] == x;
    assert ("regex:" + x)[6..] == x && ("regex-lore:" + x)[11..] == x;
    assert !StartsWithIgnoreCase("name:" + x, "type:") by {
      assert LowerAll("name:" + x)[0] == 'n';
    }
    assert !StartsWithIgnoreCase("lore:" + x, "type:") && !StartsWithIgnoreCase("lore:" + x, "name:") by {
      assert LowerAll("lore:" + x)[0] == 'l';
    }
    assert !StartsWithIgnoreCase("regex:" + x, "type:") && !StartsWithIgnoreCase("regex:" + x, "name:")
        && !StartsWithIgnoreCase("regex:" + x, "lore:") by {
      assert LowerAll("regex:" + x)[0] == 'r';
    }
    assert !StartsWithIgnoreCase("regex-lore:" + x, "type:") && !StartsWithIgnoreCase("regex-lore:" + x, "name:")
        && !StartsWithIgnoreCase("regex-lore:" + x, "lore:") && !StartsWithIgnoreCase("regex-lore:" + x, "regex:") by {
      assert LowerAll("regex-lore:" + x)[0] == 'r';
      assert LowerAll("regex-lore:" + x)[5] == '-';
    }
  }

  /** A lower-case prefix stays a prefix under lower-casing. */
  lemma LowerPrefix(p: string, x: string)
    requires forall i | 0 <= i < |p| :: Lower(p[i]) == p[i]
    ensures StartsWithIgnoreCase(p + x, p)
    ensures LowerAll(p + x)[..|p|] == p
  {
    assert LowerAll(p) == p;
  }

  // ---------------------------------------------------------------------------
  // The decision.

  predicate AnyMatch(rules: seq<AutoPickup>, kind: AutoPickupType, p: Probe, re: RegexEngine)
  {
    exists r | r in rules :: r.kind == kind && MatchesRule(p, r.value, re)
  }

  /**
   * What `shouldAutoPickup` decides: no opinion without rules; a matching
   * deny rule wins over every allow rule; else a matching allow rule admits
   * the stack; else no opinion.
   */
  function Decision(rules: seq<AutoPickup>, p: Probe, re: RegexEngine): Option<bool>
  {
    if rules == [] then None
    else if AnyMatch(rules, ItemNotPickup, p, re) then Some(false)
    else if AnyMatch(rules, ItemPickup, p, re) then Some(true)
    else None
  }

  /** One loop of `shouldAutoPickup`: the rules of one type, in list order, until one matches. */
  method FindMatch(rules: seq<AutoPickup>, kind: AutoPickupType, p: Probe, re: RegexEngine) returns (found: bool)
    ensures found == AnyMatch(rules, kind, p, re)
  {
    var candidates := Filter(rules, (x: AutoPickup) => x.kind == kind);
    var i := 0;
    while i < |candidates|
      invariant 0 <= i <= |candidates|
      invariant forall j | 0 <= j < i :: !MatchesRule(p, candidates[j].value, re)
    {
      if MatchesRule(p, candidates[i].value, re) {
        assert candidates[i] in rules;
        return true;
      }
      i := i + 1;
    }
    forall x | x in rules && x.kind == kind
      ensures !MatchesRule(p, x.value, re)
    {
      assert x in candidates;
      var j :| 0 <= j < |candidates| && candidates[j] == x;
    }
    return false;
  }

  /** `shouldAutoPickup` over a rule list: the deny loop first, then the allow loop. */
  method Decide(rules: seq<AutoPickup>, p: Probe, re: RegexEngine) returns (r: Option<bool>)
    ensures r == Decision(rules, p, re)
  {
    if rules == [] {
      return None;
    }
    var denied := FindMatch(rules, ItemNotPickup, p, re);
    if denied {
      return Some(false);
    }
    var allowed := FindMatch(rules, ItemPickup, p, re);
    if allowed {
      return Some(true);
    }
    return None;
  }

  /** `shouldAutoPickup(stack, vault)`: the vault's rules through the cache, then the decision. */
  method ShouldAutoPickup(c: MemoryCache, t: RuleTable, vaultId: int, stack: ItemStack, re: RegexEngine,
                          now: int, cfg: Config)
    returns (r: Option<bool>)
    modifies c
    ensures r == Decision(AutoPickupCache.Served(old(c.entries), t.rows, t.nextId, vaultId, now), ProbeOf(stack), re)
    ensures c.entries == AutoPickupCache.EntriesAfterGet(old(c.entries), t.rows, t.nextId, vaultId, now, cfg.ttlMs)
  {
    var rules := AutoPickupCache.Get(c, t, vaultId, now, cfg);
    r := Decide(rules, ProbeOf(stack), re);
  }

  /**
   * The decision in words, both ways: false exactly when a deny rule
   * matches; true exactly when no deny rule and some allow rule match; no
   * opinion otherwise, and always when there are no rules. It depends on the
   * set of rules only, not on their order.
   */
  lemma DecisionSpec(rules: seq<AutoPickup>, other: seq<AutoPickup>, p: Probe, re: RegexEngine)
    ensures Decision(rules, p, re) == Some(false) <==> AnyMatch(rules, ItemNotPickup, p, re)
    ensures Decision(rules, p, re) == Some(true)
            <==> !AnyMatch(rules, ItemNotPickup, p, re) && AnyMatch(rules, ItemPickup, p, re)
    ensures rules == [] ==> Decision(rules, p, re) == None
    ensures multiset(rules) == multiset(other) ==> Decision(rules, p, re) == Decision(other, p, re)
  {
    if multiset(rules) == multiset(other) {
      forall x
        ensures x in rules <==> x in other
      {
        assert x in rules <==> x in multiset(rules);
        assert x in other <==> x in multiset(other);
      }
      assert rules == [] <==> other == [] by {
        assert |rules| == |multiset(rules)| && |other| == |multiset(other)|;
      }
    }
  }

  // ---------------------------------------------------------------------------
  // Rule management.

  /** `getAutoPickupsByType`. */
  method GetByType(c: MemoryCache, t: RuleTable, vaultId: int, kind: AutoPickupType, now: int, cfg: Config)
    returns (r: seq<AutoPickup>)
    modifies c
    ensures r == Filter(AutoPickupCache.Served(old(c.entries), t.rows, t.nextId, vaultId, now),
                        (x: AutoPickup) => x.kind == kind)
    ensures c.entries == AutoPickupCache.EntriesAfterGet(old(c.entries), t.rows, t.nextId, vaultId, now, cfg.ttlMs)
  {
    var rules := AutoPickupCache.Get(c, t, vaultId, now, cfg);
    r := Filter(rules, (x: AutoPickup) => x.kind == kind);
  }

  predicate HasRule(rules: seq<AutoPickup>, kind: AutoPickupType, value: string)
  {
    exists r | r in rules :: r.kind == kind && r.value == value
  }

  /** The reply of `createAutoPickup` for the rules it reads. */
  function CreateReply(rules: seq<AutoPickup>, kind: AutoPickupType, value: string): (r: Reply)
    ensures r.success <==> NotBlank(value) && !HasRule(rules, kind, value)
    ensures IsBlank(value) ==> r == Refused("auto_pickup_value_empty")
    ensures NotBlank(value) && HasRule(rules, kind, value) ==> r == Refused("auto_pickup_already_exists")
  {
    if IsBlank(value) then Refused("auto_pickup_value_empty")
    else if HasRule(rules, kind, value) then Refused("auto_pickup_already_exists")
    else Ok
  }

  /** `createAutoPickup`: the duplicate test reads the rules through the cache. */
  method Create(c: MemoryCache, t: RuleTable, vaultId: int, kind: AutoPickupType, value: string, now: int, cfg: Config)
    returns (res: Reply)
    requires t.Valid()
    modifies c, t
    ensures t.Valid()
    ensures res == CreateReply(AutoPickupCache.Served(old(c.entries), old(t.rows), old(t.nextId), vaultId, now),
                               kind, value)
    ensures res.success ==> t.rows == old(t.rows)[old(t.nextId) := AutoPickup(old(t.nextId), kind, value, vaultId, now, now)]
                            && t.nextId == old(t.nextId) + 1
                            && c.entries == old(c.entries) - {AutoPickupCache.Key(vaultId)}
    ensures !res.success ==> t.rows == old(t.rows) && t.nextId == old(t.nextId)
    ensures !res.success && IsBlank(value) ==> c.entries == old(c.entries)
    ensures !res.success && NotBlank(value) ==>
              c.entries == AutoPickupCache.EntriesAfterGet(old(c.entries), old(t.rows), old(t.nextId), vaultId, now, cfg.ttlMs)
  {
    if IsBlank(value) {
      return Refused("auto_pickup_value_empty");
    }
    var rules := AutoPickupCache.Get(c, t, vaultId, now, cfg);
    if HasRule(rules, kind, value) {
      return Refused("auto_pickup_already_exists");
    }
    var _ := t.Insert(AutoPickup(0, kind, value, vaultId, now, now));
    AutoPickupCache.Invalidate(c, vaultId);
    res := Ok;
  }

  /** `clearAutoPickups`: the count is read through the cache before the delete. */
  method Clear(c: MemoryCache, t: RuleTable, vaultId: int, now: int, cfg: Config) returns (count: nat)
    requires t.Valid()
    modifies c, t
    ensures t.Valid() && t.nextId == old(t.nextId)
    ensures count == |AutoPickupCache.Served(old(c.entries), old(t.rows), old(t.nextId), vaultId, now)|
    ensures t.rows == DeleteWhere(old(t.rows), (r: AutoPickup) => r.vaultId == vaultId)
    ensures c.entries == old(c.entries) - {AutoPickupCache.Key(vaultId)}
  {
    var rules := AutoPickupCache.Get(c, t, vaultId, now, cfg);
    count := |rules|;
    t.DeleteAll((r: AutoPickup) => r.vaultId == vaultId);
    AutoPickupCache.Invalidate(c, vaultId);
  }

  /** `deleteRule`: deletes by id and always answers true. */
  method DeleteRule(c: MemoryCache, t: RuleTable, rule: AutoPickup) returns (ok: bool)
    requires t.Valid()
    modifies c, t
    ensures t.Valid() && t.nextId == old(t.nextId)
    ensures ok
    ensures t.rows == old(t.rows) - {rule.id}
    ensures c.entries == old(c.entries) - {AutoPickupCache.Key(rule.vaultId)}
  {
    t.Delete(rule.id);
    AutoPickupCache.Invalidate(c, rule.vaultId);
    ok := true;
  }

  /** `updateValue`: a blank value is refused; otherwise the rule object and its row take the value. */
  method UpdateValue(c: MemoryCache, t: RuleTable, rule: AutoPickup, newValue: string, now: int)
    returns (res: Reply, rule': AutoPickup)
    requires t.Valid()
    modifies c, t
    ensures t.Valid() && t.nextId == old(t.nextId)
    ensures res.success <==> NotBlank(newValue)
    ensures !res.success ==> res == Refused("auto_pickup_value_empty") && rule' == rule
                             && t.rows == old(t.rows) && c.entries == old(c.entries)
    ensures res.success ==> rule' == rule.(value := newValue, updatedAt := now)
                            && t.rows == (if rule.id in old(t.rows)
                                          then old(t.rows)[rule.id := old(t.rows)[rule.id].(value := newValue, updatedAt := now)]
                                          else old(t.rows))
                            && c.entries == old(c.entries) - {AutoPickupCache.Key(rule.vaultId)}
  {
    if IsBlank(newValue) {
      return Refused("auto_pickup_value_empty"), rule;
    }
    rule' := rule.(value := newValue, updatedAt := now);
    t.SetValue(rule.id, newValue, now);
    AutoPickupCache.Invalidate(c, rule.vaultId);
    res := Ok;
  }

  // ---------------------------------------------------------------------------
  // What the writes keep.

  /** The cached rule list of a vault, if live, is the stored one. */
  predicate RulesCoherent(m: Entries, rows: map<int, AutoPickup>, n: nat, vaultId: int, now: int)
  {
    match AutoPickupCache.CachedRules(m, vaultId, now)
    case Some(rs) => rs == AutoPickupCache.LoadFor(rows, n, vaultId)
    case None => true
  }

  /** No vault has two rules of the same type and value. */
  predicate NoDuplicateRules(rows: map<int, AutoPickup>)
  {
    forall j, k | j in rows && k in rows && j != k ::
      !(rows[j].vaultId == rows[k].vaultId && rows[j].kind == rows[k].kind && rows[j].value == rows[k].value)
  }

  /**
   * With a coherent cache, the duplicate test of `createAutoPickup` sees
   * every stored rule of the vault, so a successful create keeps rules
   * unique, and `clearAutoPickups` counts exactly the vault's rows.
   */
  lemma CreateKeepsRulesUnique(m: Entries, rows: map<int, AutoPickup>, n: nat, vaultId: int,
                               kind: AutoPickupType, value: string, now: int)
    requires forall k | k in rows :: 0 <= k < n && rows[k].id == k
    requires RulesCoherent(m, rows, n, vaultId, now)
    requires NoDuplicateRules(rows)
    requires CreateReply(AutoPickupCache.Served(m, rows, n, vaultId, now), kind, value).success
    ensures NoDuplicateRules(rows[n := AutoPickup(n, kind, value, vaultId, now, now)])
  {
    var served := AutoPickupCache.Served(m, rows, n, vaultId, now);
    assert served == AutoPickupCache.LoadFor(rows, n, vaultId);
    forall k | k in rows && rows[k].vaultId == vaultId
      ensures !(rows[k].kind == kind && rows[k].value == value)
    {
      RowsComplete(rows, n, (r: AutoPickup) => r.vaultId == vaultId, k);
    }
  }

  /** Every rule write leaves the vault's cached list absent, hence coherent with any store. */
  lemma InvalidatedIsCoherent(m: Entries, rows: map<int, AutoPickup>, n: nat, vaultId: int, now: int)
    ensures RulesCoherent(m - {AutoPickupCache.Key(vaultId)}, rows, n, vaultId, now)
  {
  }

  /** `clearAutoPickups` on a coherent cache counts the vault's stored rules and leaves none. */
  lemma ClearCountsStored(m: Entries, rows: map<int, AutoPickup>, n: nat, vaultId: int, now: int)
    requires RulesCoherent(m, rows, n, vaultId, now)
    ensures |AutoPickupCache.Served(m, rows, n, vaultId, now)| == |AutoPickupCache.LoadFor(rows, n, vaultId)|
    ensures AutoPickupCache.LoadFor(DeleteWhere(rows, (r: AutoPickup) => r.vaultId == vaultId), n, vaultId) == []
  {
    var d := DeleteWhere(rows, (r: AutoPickup) => r.vaultId == vaultId);
    if AutoPickupCache.LoadFor(d, n, vaultId) != [] {
      var x := AutoPickupCache.LoadFor(d, n, vaultId)[0];
      RowsSound(d, n, (r: AutoPickup) => r.vaultId == vaultId, x);
    }
  }

  /** `updateValue` does not repeat the duplicate test of `createAutoPickup`: an edit can make two rules equal. */
  lemma UpdateCanDuplicate()
    ensures var rows := map[1 := AutoPickup(1, ItemPickup, "a", 7, 0, 0), 2 := AutoPickup(2, ItemPickup, "b", 7, 0, 0)];
            NoDuplicateRules(rows)
            && !NoDuplicateRules(rows[2 := rows[2].(value := "a", updatedAt := 1)])
  {
    var rows := map[1 := AutoPickup(1, ItemPickup, "a", 7, 0, 0), 2 := AutoPickup(2, ItemPickup, "b", 7, 0, 0)];
    var r2 := rows[2 := rows[2].(value := "a", updatedAt := 1)];
    assert r2[1].value == r2[2].value;
  }
}
