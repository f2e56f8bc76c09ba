/**
 * The workspace list screen and its search: the workspaces the viewed
 * player has joined, followed by the independent workspace when that is
 * enabled; with search parameters set, narrowed by name, description and
 * member-name filters and then stably sorted so that the workspaces the
 * viewed player does not own come first.
 */
module WorkspaceListScreen {
  import opened Wrappers
  import opened Text
  import opened Seqs
  import opened Records
  import opened MemoryCacheProvider
  import opened RowStore
  import opened PluginConfig
  import WorkspaceCache
  import Workspaces

  /**
   * `getMembersName()`: the names of the member ids, in order, skipping the
   * ids that have no known player name. `nameOf` answers the server's
   * offline-player name lookup.
   */
  function MemberNames(w: Workspace, nameOf: Uuid -> Option<string>): seq<string>
  {
    KnownNames(Workspaces.GetMembers(w), nameOf)
  }

  function KnownNames(ids: seq<Uuid>, nameOf: Uuid -> Option<string>): (r: seq<string>)
    ensures forall x :: x in r <==> exists u | u in ids :: nameOf(u) == Some(x)
  {
    if ids == [] then []
    else (match nameOf(ids[0]) case Some(x) => [x] case None => []) + KnownNames(ids[1..], nameOf)
  }

  /**
   * What a workspace must satisfy after the first `stage` filters of
   * `search()` (name, description, member name, in that order), each of
   * which applies only when its parameter is set.
   */
  function StageMatches(params: map<string, string>, nameOf: Uuid -> Option<string>, stage: nat): Workspace -> bool
  {
    (w: Workspace) =>
      && (stage >= 1 && "name" in params ==> Contains(w.name, params["name"]))
      && (stage >= 2 && "desc" in params ==> w.desc.Some? && Contains(w.desc.value, params["desc"]))
      && (stage >= 3 && "member" in params ==> params["member"] in MemberNames(w, nameOf))
  }

  /** All three filters of `search()`. */
  function WorkspaceMatches(params: map<string, string>, nameOf: Uuid -> Option<string>): Workspace -> bool
  {
    StageMatches(params, nameOf, 3)
  }

  function IsOwnedBy(owner: Uuid): Workspace -> bool
  {
    (w: Workspace) => w.owner == owner
  }

  function NotOwnedBy(owner: Uuid): Workspace -> bool
  {
    (w: Workspace) => w.owner != owner
  }

  /** `sortBy { it.owner == owner }`: a stable sort on a boolean key, false first. */
  function OwnedLast(ws: seq<Workspace>, owner: Uuid): seq<Workspace>
  {
    Filter(ws, NotOwnedBy(owner)) + Filter(ws, IsOwnedBy(owner))
  }

  /** No owned workspace comes before one that is not owned. */
  predicate SortedByOwner(ws: seq<Workspace>, owner: Uuid)
  {
    forall i, j | 0 <= i < j < |ws| :: ws[i].owner == owner ==> ws[j].owner == owner
  }

  /** The base list of `search()`: the joined workspaces, then the independent one if there is one. */
  function Base(joined: seq<Workspace>, independent: Option<Workspace>): (r: seq<Workspace>)
    ensures forall w :: w in r <==> w in joined || independent == Some(w)
  {
    joined + (if independent.Some? then [independent.value] else [])
  }

  /** What `search()` leaves in `workspaces`. */
  function WorkspaceSearch(base: seq<Workspace>, params: map<string, string>, owner: Uuid,
                           nameOf: Uuid -> Option<string>): (r: seq<Workspace>)
    ensures params == map[] ==> r == base
    ensures forall w :: w in r <==> w in base && (params == map[] || WorkspaceMatches(params, nameOf)(w))
  {
    if params == map[] then base else OwnedLast(Filter(base, WorkspaceMatches(params, nameOf)), owner)
  }

  // ---------------------------------------------------------------------------
  // The sort.

  /** The sort neither adds nor drops a workspace. */
  lemma {:induction false} OwnedLastPermutes(ws: seq<Workspace>, owner: Uuid)
    ensures multiset(OwnedLast(ws, owner)) == multiset(ws)
  {
    if ws != [] {
      OwnedLastPermutes(ws[1..], owner);
      assert ws == [ws[0]] + ws[1..];
    }
  }

  /** After the sort, the workspaces `owner` does not own all come first. */
  lemma OwnedLastSorted(ws: seq<Workspace>, owner: Uuid)
    ensures SortedByOwner(OwnedLast(ws, owner), owner)
  {
    var a, b := Filter(ws, NotOwnedBy(owner)), Filter(ws, IsOwnedBy(owner));
    var r := a + b;
    assert forall k | 0 <= k < |a| :: a[k] in a;
    assert forall k | 0 <= k < |b| :: b[k] in b;
    forall i, j | 0 <= i < j < |r| && r[i].owner == owner ensures r[j].owner == owner {
      assert r[j] == b[j - |a|];
    }
  }

  /** The sort keeps the relative order within each part. */
  lemma OwnedLastStable(ws: seq<Workspace>, owner: Uuid)
    ensures Filter(OwnedLast(ws, owner), NotOwnedBy(owner)) == Filter(ws, NotOwnedBy(owner))
    ensures Filter(OwnedLast(ws, owner), IsOwnedBy(owner)) == Filter(ws, IsOwnedBy(owner))
  {
    var no, yes := NotOwnedBy(owner), IsOwnedBy(owner);
    var a, b := Filter(ws, no), Filter(ws, yes);
    FilterConcat(a, b, no);
    FilterConcat(a, b, yes);
    FilterKeepsAll(a, no);
    FilterKeepsAll(b, yes);
    assert forall k | 0 <= k < |a| :: a[k] in a;
    assert forall k | 0 <= k < |b| :: b[k] in b;
    FilterDropsAll(a, yes);
    FilterDropsAll(b, no);
  }

  /**
   * The sort is the only stable one: every list sorted on the key whose two
   * parts are those of `ws`, in order, is the sorted `ws`.
   */
  lemma StableSortUnique(ws: seq<Workspace>, r: seq<Workspace>, owner: Uuid)
    requires SortedByOwner(r, owner)
    requires Filter(r, NotOwnedBy(owner)) == Filter(ws, NotOwnedBy(owner))
    requires Filter(r, IsOwnedBy(owner)) == Filter(ws, IsOwnedBy(owner))
    ensures r == OwnedLast(ws, owner)
  {
    SortedSplits(r, owner);
  }

  /** A list sorted on the key is its unowned part followed by its owned part. */
  lemma {:induction false} SortedSplits(r: seq<Workspace>, owner: Uuid)
    requires SortedByOwner(r, owner)
    ensures r == OwnedLast(r, owner)
  {
    if r != [] {
      var tail := r[1..];
      SortedTail(r, owner);
      SortedSplits(tail, owner);
      assert r == [r[0]] + tail;
      if r[0].owner == owner {
        assert forall k | 0 <= k < |tail| :: tail[k] == r[k + 1];
        FilterDropsAll(tail, NotOwnedBy(owner));
        SplitOwnedHead(r[0], tail, owner);
      } else {
        SplitUnownedHead(r[0], tail, owner);
      }
    }
  }

  lemma SplitOwnedHead(h: Workspace, tail: seq<Workspace>, owner: Uuid)
    requires h.owner == owner && tail == OwnedLast(tail, owner) && Filter(tail, NotOwnedBy(owner)) == []
    ensures [h] + tail == OwnedLast([h] + tail, owner)
  {
    FilterCons(h, tail, NotOwnedBy(owner));
    FilterCons(h, tail, IsOwnedBy(owner));
  }

  lemma SplitUnownedHead(h: Workspace, tail: seq<Workspace>, owner: Uuid)
    requires h.owner != owner && tail == OwnedLast(tail, owner)
    ensures [h] + tail == OwnedLast([h] + tail, owner)
  {
    FilterCons(h, tail, NotOwnedBy(owner));
    FilterCons(h, tail, IsOwnedBy(owner));
    ConsAssoc(h, Filter(tail, NotOwnedBy(owner)), Filter(tail, IsOwnedBy(owner)));
  }

  lemma ConsAssoc(h: Workspace, a: seq<Workspace>, b: seq<Workspace>)
    ensures [h] + (a + b) == ([h] + a) + b
  {
  }

  lemma SortedTail(r: seq<Workspace>, owner: Uuid)
    requires r != [] && SortedByOwner(r, owner)
    ensures SortedByOwner(r[1..], owner)
  {
    var tail := r[1..];
    forall i, j | 0 <= i < j < |tail| && tail[i].owner == owner ensures tail[j].owner == owner {
      assert tail[i] == r[i + 1] && tail[j] == r[j + 1];
    }
  }

  class WorkspaceList {
    const opener: Uuid
    /** `targetPlayer ?: opener`: the player whose workspaces are listed. */
    const dataOwner: Uuid
    var params: map<string, string>
    var workspaces: seq<Workspace>

    constructor(opener: Uuid, targetPlayer: Option<Uuid>)
      ensures this.opener == opener
      ensures dataOwner == if targetPlayer.Some? then targetPlayer.value else opener
      ensures params == map[] && workspaces == []
    {
      this.opener := opener;
      dataOwner := if targetPlayer.Some? then targetPlayer.value else opener;
      params := map[];
      workspaces := [];
    }

    /** `sort()`. */
    method Sort()
      modifies this
      ensures params == old(params)
      ensures workspaces == OwnedLast(old(workspaces), dataOwner)
    {
      workspaces := OwnedLast(workspaces, dataOwner);
    }

    /**
     * `search()`: `workspaces` is reloaded with the joined workspaces of the
     * viewed player (`joined`, cached or loaded) and, when the independent
     * workspace is enabled, that workspace as the cache serves it
     * (`independent`; the first read does not touch its key);
     * without parameters that is the result. Otherwise the name, description
     * and member filters narrow it in place, in that order, and the list is
     * sorted. `nameOf` answers the offline-player name lookup.
     */
    method Search(c: MemoryCache, t: WorkspaceTable, nameOf: Uuid -> Option<string>, now: int, cfg: Config)
      returns (ghost joined: seq<Workspace>, ghost independent: Option<Workspace>)
      modifies this, c
      ensures WorkspaceCache.CachedList(old(c.entries), WorkspaceCache.PlayerKey(dataOwner), now).Some? ==>
                joined == WorkspaceCache.CachedList(old(c.entries), WorkspaceCache.PlayerKey(dataOwner), now).value
      ensures WorkspaceCache.CachedList(old(c.entries), WorkspaceCache.PlayerKey(dataOwner), now).None? ==>
                joined == WorkspaceCache.LoadJoined(t.rows, t.nextId, dataOwner)
      ensures !cfg.independentEnabled ==> independent.None?
      ensures cfg.independentEnabled && WorkspaceCache.CachedWorkspace(old(c.entries), WorkspaceCache.IndependentKey, now).Some? ==>
                independent == WorkspaceCache.CachedWorkspace(old(c.entries), WorkspaceCache.IndependentKey, now)
      ensures cfg.independentEnabled && WorkspaceCache.CachedWorkspace(old(c.entries), WorkspaceCache.IndependentKey, now).None? ==>
                independent == WorkspaceCache.LoadIndependent(t.rows, t.nextId)
      ensures var afterJoined := WorkspaceCache.EntriesAfterGetJoined(old(c.entries), t.rows, t.nextId, dataOwner, now, cfg.ttlMs);
              c.entries == if cfg.independentEnabled
                           then WorkspaceCache.EntriesAfterGetIndependent(afterJoined, t.rows, t.nextId, now, cfg.ttlMs)
                           else afterJoined
      ensures params == old(params)
      ensures workspaces == WorkspaceSearch(Base(joined, independent), params, dataOwner, nameOf)
    {
      joined, independent := LoadBase(c, t, now, cfg);
      if params == map[] {
        return;
      }
      Narrow(nameOf);
      Sort();
    }

    /** The first part of `search()`: the list reloaded with the joined and, when enabled, the independent workspace. */
    method LoadBase(c: MemoryCache, t: WorkspaceTable, now: int, cfg: Config)
      returns (ghost joined: seq<Workspace>, ghost independent: Option<Workspace>)
      modifies this, c
      ensures WorkspaceCache.CachedList(old(c.entries), WorkspaceCache.PlayerKey(dataOwner), now).Some? ==>
                joined == WorkspaceCache.CachedList(old(c.entries), WorkspaceCache.PlayerKey(dataOwner), now).value
      ensures WorkspaceCache.CachedList(old(c.entries), WorkspaceCache.PlayerKey(dataOwner), now).None? ==>
                joined == WorkspaceCache.LoadJoined(t.rows, t.nextId, dataOwner)
      ensures !cfg.independentEnabled ==> independent.None?
      ensures cfg.independentEnabled && WorkspaceCache.CachedWorkspace(old(c.entries), WorkspaceCache.IndependentKey, now).Some? ==>
                independent == WorkspaceCache.CachedWorkspace(old(c.entries), WorkspaceCache.IndependentKey, now)
      ensures cfg.independentEnabled && WorkspaceCache.CachedWorkspace(old(c.entries), WorkspaceCache.IndependentKey, now).None? ==>
                independent == WorkspaceCache.LoadIndependent(t.rows, t.nextId)
      ensures var afterJoined := WorkspaceCache.EntriesAfterGetJoined(old(c.entries), t.rows, t.nextId, dataOwner, now, cfg.ttlMs);
              c.entries == if cfg.independentEnabled
                           then WorkspaceCache.EntriesAfterGetIndependent(afterJoined, t.rows, t.nextId, now, cfg.ttlMs)
                           else afterJoined
      ensures params == old(params)
      ensures workspaces == Base(joined, independent)
    {
      ghost var m0 := c.entries;
      var js := WorkspaceCache.GetJoinedWorkspaces(c, t, dataOwner, now, cfg);
      WorkspaceCache.JoinedReadKeepsIndependent(m0, t.rows, t.nextId, dataOwner, now, cfg.ttlMs);
      joined := js;
      workspaces := js;
      independent := None;
      if cfg.independentEnabled {
        var w := WorkspaceCache.GetIndependent(c, t, now, cfg);
        independent := w;
        if w.Some? {
          workspaces := workspaces + [w.value];
        }
      }
    }

    /** The three `retainAll` filters of `search()`, in order, each applied only when its parameter is set. */
    method Narrow(nameOf: Uuid -> Option<string>)
      modifies this
      ensures params == old(params)
      ensures workspaces == Filter(old(workspaces), WorkspaceMatches(params, nameOf))
    {
      ghost var base := workspaces;
      FilterKeepsAll(base, StageMatches(params, nameOf, 0));
      if "name" in params {
        var name := params["name"];
        workspaces := Filter(workspaces, (w: Workspace) => Contains(w.name, name));
        FilterFilter(base, StageMatches(params, nameOf, 0), (w: Workspace) => Contains(w.name, name),
                     StageMatches(params, nameOf, 1));
      } else {
        FilterAgree(base, StageMatches(params, nameOf, 0), StageMatches(params, nameOf, 1));
      }
      if "desc" in params {
        var desc := params["desc"];
        workspaces := Filter(workspaces, (w: Workspace) => w.desc.Some? && Contains(w.desc.value, desc));
        FilterFilter(base, StageMatches(params, nameOf, 1), (w: Workspace) => w.desc.Some? && Contains(w.desc.value, desc),
                     StageMatches(params, nameOf, 2));
      } else {
        FilterAgree(base, StageMatches(params, nameOf, 1), StageMatches(params, nameOf, 2));
      }
      if "member" in params {
        var member := params["member"];
        workspaces := Filter(workspaces, (w: Workspace) => member in MemberNames(w, nameOf));
        FilterFilter(base, StageMatches(params, nameOf, 2), (w: Workspace) => member in MemberNames(w, nameOf),
                     StageMatches(params, nameOf, 3));
      } else {
        FilterAgree(base, StageMatches(params, nameOf, 2), StageMatches(params, nameOf, 3));
      }
    }
  }
}
