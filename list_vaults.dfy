/**
 * The vault list of a workspace screen and its search: the workspace's
 * vaults, narrowed by a name filter and a description filter when search
 * parameters are set. Both filters are case-sensitive substring tests.
 */
module VaultListScreen {
  import opened Wrappers
  import opened Text
  import opened Seqs
  import opened Records
  import opened MemoryCacheProvider
  import opened RowStore
  import opened PluginConfig
  import VaultCache

  /** The `name` filter. */
  function NameMatches(name: string): Vault -> bool
  {
    (v: Vault) => Contains(v.name, name)
  }

  /** The `desc` filter: a vault without a description never matches. */
  function DescMatches(desc: string): Vault -> bool
  {
    (v: Vault) => v.desc.Some? && Contains(v.desc.value, desc)
  }

  /** What a vault must satisfy to survive the filters that `params` sets. */
  function VaultMatches(params: map<string, string>): Vault -> bool
  {
    (v: Vault) => && ("name" in params ==> NameMatches(params["name"])(v))
                  && ("desc" in params ==> DescMatches(params["desc"])(v))
  }

  /** What `search()` leaves in `vaults`: every vault without parameters, else those both set filters keep. */
  function VaultSearch(all: seq<Vault>, params: map<string, string>): (r: seq<Vault>)
    ensures params == map[] ==> r == all
    ensures forall v :: v in r <==> v in all && (params == map[] || VaultMatches(params)(v))
  {
    if params == map[] then all else Filter(all, VaultMatches(params))
  }

  /** The search keeps the workspace's vaults in their original order, leaving some out. */
  lemma VaultSearchIsSubsequence(all: seq<Vault>, params: map<string, string>)
    ensures IsSubsequence(VaultSearch(all, params), all)
  {
    if params == map[] {
      SubsequenceOfSelf(all);
    } else {
      FilterIsSubsequence(all, VaultMatches(params));
    }
  }

  /** Setting a filter only ever narrows: the search with more parameters is a subsequence of the one with fewer. */
  lemma MoreParamsNarrow(all: seq<Vault>, params: map<string, string>, key: string, value: string)
    requires key == "name" || key == "desc"
    requires key !in params
    ensures IsSubsequence(VaultSearch(all, params[key := value]), VaultSearch(all, params))
  {
    var more := params[key := value];
    var narrowed := if key == "name" then NameMatches(value) else DescMatches(value);
    if params == map[] {
      FilterIsSubsequence(all, VaultMatches(more));
    } else {
      FilterFilter(all, VaultMatches(params), narrowed, VaultMatches(more));
      FilterIsSubsequence(Filter(all, VaultMatches(params)), narrowed);
    }
  }

  class VaultList {
    const workspace: Workspace
    var params: map<string, string>
    var vaults: seq<Vault>

    constructor(workspace: Workspace)
      ensures this.workspace == workspace && params == map[] && vaults == []
    {
      this.workspace := workspace;
      params := map[];
      vaults := [];
    }

    /**
     * `search()`: `vaults` is reloaded with the workspace's vaults (`all`, the
     * cached list or, on a miss, the store's), then narrowed in place by the
     * name filter and then the description filter, each applied only when
     * its parameter is set.
     */
    method Search(c: MemoryCache, t: VaultTable, now: int, cfg: Config) returns (ghost all: seq<Vault>)
      modifies this, c
      ensures VaultCache.CachedList(old(c.entries), VaultCache.WorkspaceKey(workspace.id), now).Some? ==>
                all == VaultCache.CachedList(old(c.entries), VaultCache.WorkspaceKey(workspace.id), now).value
      ensures VaultCache.CachedList(old(c.entries), VaultCache.WorkspaceKey(workspace.id), now).None? ==>
                all == VaultCache.LoadByWorkspace(t.rows, t.nextId, workspace.id)
      ensures c.entries == VaultCache.EntriesAfterGetByWorkspace(old(c.entries), t.rows, t.nextId, workspace.id, now, cfg.ttlMs)
      ensures params == old(params)
      ensures vaults == VaultSearch(all, params)
    {
      var loaded := VaultCache.GetByWorkspace(c, t, workspace.id, now, cfg);
      all := loaded;
      vaults := loaded;
      if params == map[] {
        return;
      }
      var hasName, hasDesc := "name" in params, "desc" in params;
      if hasName {
        vaults := Filter(vaults, NameMatches(params["name"]));
      }
      if hasDesc {
        vaults := Filter(vaults, DescMatches(params["desc"]));
      }
      var want := VaultMatches(params);
      if hasName && hasDesc {
        FilterFilter(all, NameMatches(params["name"]), DescMatches(params["desc"]), want);
      } else if hasName {
        FilterAgree(all, NameMatches(params["name"]), want);
      } else if hasDesc {
        FilterAgree(all, DescMatches(params["desc"]), want);
      } else {
        FilterKeepsAll(all, want);
      }
    }
  }
}
