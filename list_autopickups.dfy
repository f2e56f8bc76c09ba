/**
 * The pick-up rule list of a vault's rule screen and its search: the
 * vault's rules, narrowed by a case-insensitive value filter and a rule-type
 * keyword filter when search parameters are set.
 */
module AutoPickupListScreen {
  import opened Wrappers
  import opened Text
  import opened Seqs
  import opened Records
  import opened MemoryCacheProvider
  import opened RowStore
  import opened PluginConfig
  import AutoPickupCache

  /** The `value` filter: the rule text contains the search text, in any letter case. */
  function ValueMatches(searchValue: string): AutoPickup -> bool
  {
    (r: AutoPickup) => ContainsIgnoreCase(r.value, searchValue)
  }

  /** The rule kind a type keyword names, after lower-casing; none for any other keyword. */
  function KeywordKind(searchType: string): (k: Option<AutoPickupType>)
    ensures k == Some(ItemPickup) <==> LowerAll(searchType) in {"pickup", "拾取"}
    ensures k == Some(ItemNotPickup) <==> LowerAll(searchType) in {"not-pickup", "notpickup", "不拾取"}
  {
    var t := LowerAll(searchType);
    if t == "pickup" || t == "拾取" then Some(ItemPickup)
    else if t == "not-pickup" || t == "notpickup" || t == "不拾取" then Some(ItemNotPickup)
    else None
  }

  /** The `type` filter: rules of the named kind; every rule when the keyword names none. */
  function TypeMatches(searchType: string): AutoPickup -> bool
  {
    (r: AutoPickup) => match KeywordKind(searchType)
                       case Some(k) => r.kind == k
                       case None => true
  }

  /** What a rule must satisfy to survive the filters that `params` sets. */
  function RuleMatches(params: map<string, string>): AutoPickup -> bool
  {
    (r: AutoPickup) => && ("value" in params ==> ValueMatches(params["value"])(r))
                       && ("type" in params ==> TypeMatches(params["type"])(r))
  }

  /** What `search()` leaves in `rules`: all rules without parameters, else those every set filter keeps. */
  function RuleSearch(all: seq<AutoPickup>, params: map<string, string>): (r: seq<AutoPickup>)
    ensures params == map[] ==> r == all
    ensures forall x :: x in r <==> x in all && (params == map[] || RuleMatches(params)(x))
  {
    if params == map[] then all else Filter(all, RuleMatches(params))
  }

  /** The search keeps the vault's rules in their original order, leaving some out. */
  lemma RuleSearchIsSubsequence(all: seq<AutoPickup>, params: map<string, string>)
    ensures IsSubsequence(RuleSearch(all, params), all)
  {
    if params == map[] {
      SubsequenceOfSelf(all);
    } else {
      FilterIsSubsequence(all, RuleMatches(params));
    }
  }

  /** A type keyword that names no kind changes nothing: the search is the one without it. */
  lemma UnknownTypeIgnored(all: seq<AutoPickup>, params: map<string, string>)
    requires "type" in params && KeywordKind(params["type"]).None?
    ensures RuleSearch(all, params) == RuleSearch(all, params - {"type"})
  {
    var rest := params - {"type"};
    assert forall x :: TypeMatches(params["type"])(x);
    assert "value" in params <==> "value" in rest;
    assert "value" in params ==> rest["value"] == params["value"];
    if rest == map[] {
      FilterKeepsAll(all, RuleMatches(params));
    } else {
      FilterAgree(all, RuleMatches(params), RuleMatches(rest));
    }
  }

  class AutoPickupList {
    const vault: Vault
    var params: map<string, string>
    var rules: seq<AutoPickup>

    constructor(vault: Vault)
      ensures this.vault == vault && params == map[] && rules == []
    {
      this.vault := vault;
      params := map[];
      rules := [];
    }

    /**
     * `search()`: `rules` is reloaded with the vault's rules, as the rule
     * cache serves them (`all`), then narrowed in place by the value filter
     * and then the type filter, each applied only when its parameter is set.
     */
    method Search(c: MemoryCache, t: RuleTable, now: int, cfg: Config) returns (ghost all: seq<AutoPickup>)
      modifies this, c
      ensures all == AutoPickupCache.Served(old(c.entries), t.rows, t.nextId, vault.id, now)
      ensures c.entries == AutoPickupCache.EntriesAfterGet(old(c.entries), t.rows, t.nextId, vault.id, now, cfg.ttlMs)
      ensures params == old(params)
      ensures rules == RuleSearch(all, params)
    {
      var loaded := AutoPickupCache.Get(c, t, vault.id, now, cfg);
      all := loaded;
      rules := loaded;
      if params == map[] {
        return;
      }
      var hasValue, hasType := "value" in params, "type" in params;
      if hasValue {
        rules := Filter(rules, ValueMatches(params["value"]));
      }
      if hasType {
        rules := Filter(rules, TypeMatches(params["type"]));
      }
      var want := RuleMatches(params);
      if hasValue && hasType {
        FilterFilter(all, ValueMatches(params["value"]), TypeMatches(params["type"]), want);
      } else if hasValue {
        FilterAgree(all, ValueMatches(params["value"]), want);
      } else if hasType {
        FilterAgree(all, TypeMatches(params["type"]), want);
      } else {
        FilterKeepsAll(all, want);
      }
    }
  }
}
