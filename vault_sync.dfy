/**
 * The registry of open vault views that keeps several viewers of the same
 * shared vault page in step. Viewers of a page form one group per (vault,
 * page); viewers of a search form one group per (vault, search parameters).
 * Scheduling the inventory updates is outside the model: the operations
 * answer which players get the changed slot patched and which search views
 * are rebuilt. Whether a player is online is passed in as a set.
 */
module VaultSync {
  import opened Wrappers
  import opened Seqs
  import opened Records

  datatype ViewerGroup = ViewerGroup(vaultId: int, page: int, viewers: seq<Uuid>)

  datatype SearchGroup = SearchGroup(vaultId: int, params: map<string, string>, viewers: seq<Uuid>)

  /** A refresh of one search view: the player and the search parameters it is rebuilt with. */
  datatype SearchRefresh = SearchRefresh(player: Uuid, params: map<string, string>)

  // ---------------------------------------------------------------------------
  // Viewer lists.

  predicate NoDuplicates(s: seq<Uuid>)
  {
    forall i, j | 0 <= i < j < |s| :: s[i] != s[j]
  }

  /** `if (!viewers.contains(player)) viewers.add(player)`. */
  function AddViewer(s: seq<Uuid>, u: Uuid): (r: seq<Uuid>)
    ensures u in r && forall x :: x in r <==> x in s || x == u
    ensures NoDuplicates(s) ==> NoDuplicates(r)
  {
    if u in s then s else s + [u]
  }

  /** `viewers.remove(player)`: the first occurrence goes. */
  function RemoveFirst(s: seq<Uuid>, u: Uuid): (r: seq<Uuid>)
    ensures u !in s ==> r == s
    ensures u in s ==> |r| == |s| - 1
    ensures forall x | x != u :: x in r <==> x in s
  {
    if s == [] then []
    else if s[0] == u then s[1..]
    else [s[0]] + RemoveFirst(s[1..], u)
  }

  lemma {:induction false} RemoveFirstDistinct(s: seq<Uuid>, u: Uuid)
    requires NoDuplicates(s)
    ensures u !in RemoveFirst(s, u) && NoDuplicates(RemoveFirst(s, u))
  {
    if s != [] && s[0] != u {
      assert NoDuplicates(s[1..]) by {
        forall i, j | 0 <= i < j < |s[1..]| ensures s[1..][i] != s[1..][j] {
          assert s[1..][i] == s[i + 1] && s[1..][j] == s[j + 1];
        }
      }
      RemoveFirstDistinct(s[1..], u);
      var t := RemoveFirst(s[1..], u);
      assert s[0] !in s[1..] by {
        forall k | 0 <= k < |s[1..]| ensures s[1..][k] != s[0] {
          assert s[1..][k] == s[k + 1];
        }
      }
      assert s[0] !in t;
      forall i, j | 0 <= i < j < |[s[0]] + t| ensures ([s[0]] + t)[i] != ([s[0]] + t)[j] {
        if i == 0 {
          assert ([s[0]] + t)[j] == t[j - 1];
        } else {
          assert ([s[0]] + t)[i] == t[i - 1] && ([s[0]] + t)[j] == t[j - 1];
        }
      }
    } else if s != [] {
      assert s[0] !in s[1..] by {
        forall k | 0 <= k < |s[1..]| ensures s[1..][k] != s[0] {
          assert s[1..][k] == s[k + 1];
        }
      }
      assert NoDuplicates(s[1..]) by {
        forall i, j | 0 <= i < j < |s[1..]| ensures s[1..][i] != s[1..][j] {
          assert s[1..][i] == s[i + 1] && s[1..][j] == s[j + 1];
        }
      }
    }
  }

  function IsOnline(online: set<Uuid>): Uuid -> bool
  {
    (u: Uuid) => u in online
  }

  /** `viewers.removeIf { !it.isOnline }`. */
  function OnlineOnly(s: seq<Uuid>, online: set<Uuid>): (r: seq<Uuid>)
    ensures forall x :: x in r <==> x in s && x in online
    ensures IsSubsequence(r, s)
  {
    FilterIsSubsequence(s, IsOnline(online));
    Filter(s, IsOnline(online))
  }

  // ---------------------------------------------------------------------------
  // Page groups.

  predicate PageKey(g: ViewerGroup, vaultId: int, page: int)
  {
    g.vaultId == vaultId && g.page == page
  }

  /** `groups.find { it.vaultId == vault.id && it.page == page }`, as an index. */
  function FindGroup(gs: seq<ViewerGroup>, vaultId: int, page: int): (r: Option<nat>)
    ensures r.Some? ==> r.value < |gs| && PageKey(gs[r.value], vaultId, page)
                        && forall j | 0 <= j < r.value :: !PageKey(gs[j], vaultId, page)
    ensures r.None? ==> forall j | 0 <= j < |gs| :: !PageKey(gs[j], vaultId, page)
    decreases |gs|
  {
    if |gs| == 0 then None
    else if PageKey(gs[|gs| - 1], vaultId, page) && FindGroup(gs[..|gs| - 1], vaultId, page).None? then Some(|gs| - 1)
    else
      var r := FindGroup(gs[..|gs| - 1], vaultId, page);
      assert forall j | 0 <= j < |gs| - 1 :: gs[..|gs| - 1][j] == gs[j];
      r
  }

  /** At most one group per (vault, page), and no player twice in a group. */
  predicate GroupsValid(gs: seq<ViewerGroup>)
  {
    && (forall i, j | 0 <= i < j < |gs| :: !(gs[i].vaultId == gs[j].vaultId && gs[i].page == gs[j].page))
    && (forall i | 0 <= i < |gs| :: NoDuplicates(gs[i].viewers))
  }

  /** The groups after `register`: the page's group, found or appended, holds the player once. */
  function Registered(gs: seq<ViewerGroup>, vaultId: int, page: int, u: Uuid): seq<ViewerGroup>
  {
    match FindGroup(gs, vaultId, page)
    case Some(i) => gs[i := gs[i].(viewers := AddViewer(gs[i].viewers, u))]
    case None => gs + [ViewerGroup(vaultId, page, [u])]
  }

  function RemoveAt<T>(s: seq<T>, i: nat): seq<T>
    requires i < |s|
  {
    s[..i] + s[i + 1..]
  }

  /** The groups after `unregister`: the player leaves the page's group, which goes when it is left empty. */
  function Unregistered(gs: seq<ViewerGroup>, vaultId: int, page: int, u: Uuid): seq<ViewerGroup>
  {
    match FindGroup(gs, vaultId, page)
    case None => gs
    case Some(i) =>
      var rest := RemoveFirst(gs[i].viewers, u);
      if rest == [] then RemoveAt(gs, i) else gs[i := gs[i].(viewers := rest)]
  }

  /** The viewers registered for (vault, page), if it has a group. */
  function ViewersOf(gs: seq<ViewerGroup>, vaultId: int, page: int): seq<Uuid>
  {
    match FindGroup(gs, vaultId, page)
    case None => []
    case Some(i) => gs[i].viewers
  }

  // ---------------------------------------------------------------------------
  // Search groups.

  predicate SearchKey(g: SearchGroup, vaultId: int, params: map<string, string>)
  {
    g.vaultId == vaultId && g.params == params
  }

  function FindSearchGroup(gs: seq<SearchGroup>, vaultId: int, params: map<string, string>): (r: Option<nat>)
    ensures r.Some? ==> r.value < |gs| && SearchKey(gs[r.value], vaultId, params)
                        && forall j | 0 <= j < r.value :: !SearchKey(gs[j], vaultId, params)
    ensures r.None? ==> forall j | 0 <= j < |gs| :: !SearchKey(gs[j], vaultId, params)
    decreases |gs|
  {
    if |gs| == 0 then None
    else if SearchKey(gs[|gs| - 1], vaultId, params) && FindSearchGroup(gs[..|gs| - 1], vaultId, params).None? then
      Some(|gs| - 1)
    else
      var r := FindSearchGroup(gs[..|gs| - 1], vaultId, params);
      assert forall j | 0 <= j < |gs| - 1 :: gs[..|gs| - 1][j] == gs[j];
      r
  }

  predicate SearchGroupsValid(gs: seq<SearchGroup>)
  {
    && (forall i, j | 0 <= i < j < |gs| :: !(gs[i].vaultId == gs[j].vaultId && gs[i].params == gs[j].params))
    && (forall i | 0 <= i < |gs| :: NoDuplicates(gs[i].viewers))
  }

  function SearchRegistered(gs: seq<SearchGroup>, vaultId: int, params: map<string, string>, u: Uuid): seq<SearchGroup>
  {
    match FindSearchGroup(gs, vaultId, params)
    case Some(i) => gs[i := gs[i].(viewers := AddViewer(gs[i].viewers, u))]
    case None => gs + [SearchGroup(vaultId, params, [u])]
  }

  /** One search group after `unregisterSearch`: the player leaves a group of the vault; an emptied group goes. */
  function LeaveGroup(g: SearchGroup, vaultId: int, u: Uuid): seq<SearchGroup>
  {
    if g.vaultId != vaultId then [g]
    else
      var rest := RemoveFirst(g.viewers, u);
      if rest == [] then [] else [g.(viewers := rest)]
  }

  /** The search groups after `unregisterSearch(vault, player)`. */
  function SearchLeft(gs: seq<SearchGroup>, vaultId: int, u: Uuid): seq<SearchGroup>
    decreases |gs|
  {
    if gs == [] then [] else SearchLeft(gs[..|gs| - 1], vaultId, u) + LeaveGroup(gs[|gs| - 1], vaultId, u)
  }

  /** One search group after the offline sweep of `refreshSearchViewers`. */
  function SweepGroup(g: SearchGroup, vaultId: int, online: set<Uuid>): SearchGroup
  {
    if g.vaultId == vaultId then g.(viewers := OnlineOnly(g.viewers, online)) else g
  }

  function Swept(gs: seq<SearchGroup>, vaultId: int, online: set<Uuid>): (r: seq<SearchGroup>)
    ensures |r| == |gs|
    decreases |gs|
  {
    if gs == [] then [] else Swept(gs[..|gs| - 1], vaultId, online) + [SweepGroup(gs[|gs| - 1], vaultId, online)]
  }

  /** The views one swept group rebuilds: every viewer when shared; only the operator, if a viewer, when independent. */
  function GroupRefreshes(g: SearchGroup, vaultId: int, isIndependent: bool, operator: Option<Uuid>): seq<SearchRefresh>
  {
    if g.vaultId != vaultId then []
    else if isIndependent then
      (if operator.Some? && operator.value in g.viewers then [SearchRefresh(operator.value, g.params)] else [])
    else seq(|g.viewers|, i requires 0 <= i < |g.viewers| => SearchRefresh(g.viewers[i], g.params))
  }

  function Refreshes(gs: seq<SearchGroup>, vaultId: int, isIndependent: bool, operator: Option<Uuid>): seq<SearchRefresh>
    decreases |gs|
  {
    if gs == [] then []
    else Refreshes(gs[..|gs| - 1], vaultId, isIndependent, operator)
         + GroupRefreshes(gs[|gs| - 1], vaultId, isIndependent, operator)
  }

  // ---------------------------------------------------------------------------
  // The registry.

  class ViewerRegistry {
    var groups: seq<ViewerGroup>
    var searchGroups: seq<SearchGroup>

    predicate Valid()
      reads this
    {
      GroupsValid(groups) && SearchGroupsValid(searchGroups)
    }

    constructor()
      ensures Valid() && groups == [] && searchGroups == []
    {
      groups := [];
      searchGroups := [];
    }

    /** `register`: nothing for an independent vault; otherwise the player joins the page's group. */
    method Register(vaultId: int, page: int, player: Uuid, isIndependent: bool)
      requires Valid()
      modifies this
      ensures Valid() && searchGroups == old(searchGroups)
      ensures groups == if isIndependent then old(groups) else Registered(old(groups), vaultId, page, player)
    {
      if isIndependent {
        return;
      }
      RegisterValid(groups, vaultId, page, player);
      groups := Registered(groups, vaultId, page, player);
    }

    /** `unregister`: nothing for an independent vault or a page without a group. */
    method Unregister(vaultId: int, page: int, player: Uuid, isIndependent: bool)
      requires Valid()
      modifies this
      ensures Valid() && searchGroups == old(searchGroups)
      ensures groups == if isIndependent then old(groups) else Unregistered(old(groups), vaultId, page, player)
    {
      if isIndependent {
        return;
      }
      UnregisterValid(groups, vaultId, page, player);
      groups := Unregistered(groups, vaultId, page, player);
    }

    /** `registerSearch`: nothing for an independent vault; otherwise the player joins the search's group. */
    method RegisterSearch(vaultId: int, params: map<string, string>, player: Uuid, isIndependent: bool)
      requires Valid()
      modifies this
      ensures Valid() && groups == old(groups)
      ensures searchGroups == if isIndependent then old(searchGroups)
                              else SearchRegistered(old(searchGroups), vaultId, params, player)
    {
      if isIndependent {
        return;
      }
      SearchRegisterValid(searchGroups, vaultId, params, player);
      searchGroups := SearchRegistered(searchGroups, vaultId, params, player);
    }

    /** `unregisterSearch`: the player leaves every search group of the vault; emptied groups go. */
    method UnregisterSearch(vaultId: int, player: Uuid, isIndependent: bool)
      requires Valid()
      modifies this
      ensures Valid() && groups == old(groups)
      ensures searchGroups == if isIndependent then old(searchGroups) else SearchLeft(old(searchGroups), vaultId, player)
    {
      if isIndependent {
        return;
      }
      var gs := searchGroups;
      var kept: seq<SearchGroup> := [];
      var i := 0;
      while i < |gs|
        invariant 0 <= i <= |gs|
        invariant kept == SearchLeft(gs[..i], vaultId, player)
      {
        assert gs[..i + 1][..i] == gs[..i];
        kept := kept + LeaveGroup(gs[i], vaultId, player);
        i := i + 1;
      }
      assert gs[..|gs|] == gs;
      SearchLeftValid(gs, vaultId, player);
      searchGroups := kept;
    }

    /**
     * `syncItemChange`: a slot outside 0..35 changes nothing. For an
     * independent vault only the operator, when viewing the page, is patched,
     * and search views are left alone. For a shared vault the page's group
     * loses its offline viewers and every remaining viewer is patched; then
     * each search group of the vault loses its offline viewers and its views
     * are rebuilt.
     */
    method SyncItemChange(vaultId: int, page: int, slot: int, operator: Option<Uuid>, isIndependent: bool,
                          online: set<Uuid>)
      returns (patched: seq<Uuid>, rebuilt: seq<SearchRefresh>)
      requires Valid()
      modifies this
      ensures Valid()
      ensures !(0 <= slot < SlotsPerPage) ==>
                patched == [] && rebuilt == [] && groups == old(groups) && searchGroups == old(searchGroups)
      ensures 0 <= slot < SlotsPerPage && isIndependent ==>
                && groups == old(groups) && searchGroups == old(searchGroups) && rebuilt == []
                && patched == (if operator.Some? && operator.value in ViewersOf(old(groups), vaultId, page)
                               then [operator.value] else [])
      ensures 0 <= slot < SlotsPerPage && !isIndependent ==>
                && groups == SweptGroups(old(groups), vaultId, page, online)
                && patched == OnlineOnly(ViewersOf(old(groups), vaultId, page), online)
                && searchGroups == Swept(old(searchGroups), vaultId, online)
                && rebuilt == Refreshes(Swept(old(searchGroups), vaultId, online), vaultId, false, operator)
    {
      patched, rebuilt := [], [];
      if !(0 <= slot < SlotsPerPage) {
        return;
      }
      var found := FindGroup(groups, vaultId, page);
      if isIndependent {
        if operator.Some? && found.Some? && operator.value in groups[found.value].viewers {
          patched := [operator.value];
        }
        return;
      }
      if found.Some? {
        var i := found.value;
        OnlineOnlyDistinct(groups[i].viewers, online);
        groups := groups[i := groups[i].(viewers := OnlineOnly(groups[i].viewers, online))];
        patched := groups[i].viewers;
      }
      rebuilt := RefreshSearchViewers(vaultId, operator, isIndependent, online);
    }

    /** `refreshSearchViewers`: each search group of the vault is swept, then its views are rebuilt. */
    method RefreshSearchViewers(vaultId: int, operator: Option<Uuid>, isIndependent: bool, online: set<Uuid>)
      returns (rebuilt: seq<SearchRefresh>)
      requires Valid()
      modifies this
      ensures Valid() && groups == old(groups)
      ensures searchGroups == Swept(old(searchGroups), vaultId, online)
      ensures rebuilt == Refreshes(searchGroups, vaultId, isIndependent, operator)
    {
      var gs := searchGroups;
      var swept;
      swept, rebuilt := SweepAndRefresh(gs, vaultId, operator, isIndependent, online);
      SweptValid(gs, vaultId, online);
      searchGroups := swept;
    }

    /**
     * `refreshAllViewers`: for a shared vault page with a group, the group is
     * dropped and a view is reopened for each of its online viewers.
     */
    method RefreshAllViewers(vaultId: int, page: int, isIndependent: bool, online: set<Uuid>)
      returns (reopened: seq<Uuid>)
      requires Valid()
      modifies this
      ensures Valid() && searchGroups == old(searchGroups)
      ensures isIndependent || FindGroup(old(groups), vaultId, page).None? ==> reopened == [] && groups == old(groups)
      ensures !isIndependent && FindGroup(old(groups), vaultId, page).Some? ==>
                && reopened == OnlineOnly(ViewersOf(old(groups), vaultId, page), online)
                && groups == RemoveAt(old(groups), FindGroup(old(groups), vaultId, page).value)
    {
      reopened := [];
      if isIndependent {
        return;
      }
      var found := FindGroup(groups, vaultId, page);
      if found.None? {
        return;
      }
      var i := found.value;
      reopened := OnlineOnly(groups[i].viewers, online);
      RemoveAtValid(groups, i);
      groups := RemoveAt(groups, i);
    }
  }

  /** The loop of `refreshSearchViewers`: each group in turn is swept and its views are listed. */
  method SweepAndRefresh(gs: seq<SearchGroup>, vaultId: int, operator: Option<Uuid>, isIndependent: bool,
                         online: set<Uuid>)
    returns (swept: seq<SearchGroup>, rebuilt: seq<SearchRefresh>)
    ensures swept == Swept(gs, vaultId, online)
    ensures rebuilt == Refreshes(swept, vaultId, isIndependent, operator)
  {
    swept, rebuilt := [], [];
    var i := 0;
    while i < |gs|
      invariant 0 <= i <= |gs|
      invariant swept == Swept(gs[..i], vaultId, online)
      invariant rebuilt == Refreshes(swept, vaultId, isIndependent, operator)
    {
      var g := SweepGroup(gs[i], vaultId, online);
      SweptStep(gs, i, vaultId, online);
      RefreshesStep(swept, g, vaultId, isIndependent, operator);
      swept := swept + [g];
      rebuilt := rebuilt + GroupRefreshes(g, vaultId, isIndependent, operator);
      i := i + 1;
    }
    assert gs[..|gs|] == gs;
  }

  lemma SweptStep(gs: seq<SearchGroup>, i: nat, vaultId: int, online: set<Uuid>)
    requires i < |gs|
    ensures Swept(gs[..i + 1], vaultId, online) == Swept(gs[..i], vaultId, online) + [SweepGroup(gs[i], vaultId, online)]
  {
    assert gs[..i + 1][..i] == gs[..i];
  }

  lemma RefreshesStep(gs: seq<SearchGroup>, g: SearchGroup, vaultId: int, isIndependent: bool, operator: Option<Uuid>)
    ensures Refreshes(gs + [g], vaultId, isIndependent, operator)
            == Refreshes(gs, vaultId, isIndependent, operator) + GroupRefreshes(g, vaultId, isIndependent, operator)
  {
    assert (gs + [g])[..|gs|] == gs;
  }

  /** The page groups after the offline sweep of `syncItemChange`. */
  function SweptGroups(gs: seq<ViewerGroup>, vaultId: int, page: int, online: set<Uuid>): seq<ViewerGroup>
  {
    match FindGroup(gs, vaultId, page)
    case None => gs
    case Some(i) => gs[i := gs[i].(viewers := OnlineOnly(gs[i].viewers, online))]
  }

  // ---------------------------------------------------------------------------
  // What the operations keep.

  lemma OnlineOnlyDistinct(s: seq<Uuid>, online: set<Uuid>)
    requires NoDuplicates(s)
    ensures NoDuplicates(OnlineOnly(s, online))
  {
    assert DistinctBy(s, Same);
    FilterDistinct(s, IsOnline(online), Same);
    var r := OnlineOnly(s, online);
    assert forall i, j | 0 <= i < j < |r| :: Same(r[i]) != Same(r[j]);
  }

  function Same(u: Uuid): Uuid
  {
    u
  }

  /** `register` keeps one group per page and no duplicate viewer; the player is then a viewer of the page. */
  lemma RegisterValid(gs: seq<ViewerGroup>, vaultId: int, page: int, u: Uuid)
    requires GroupsValid(gs)
    ensures GroupsValid(Registered(gs, vaultId, page, u))
    ensures u in ViewersOf(Registered(gs, vaultId, page, u), vaultId, page)
    ensures forall v, p | !(v == vaultId && p == page) ::
              ViewersOf(Registered(gs, vaultId, page, u), v, p) == ViewersOf(gs, v, p)
  {
    match FindGroup(gs, vaultId, page)
    case Some(i) => RegisterFoundValid(gs, vaultId, page, u, i);
    case None => RegisterNewValid(gs, vaultId, page, u);
  }

  lemma RegisterFoundValid(gs: seq<ViewerGroup>, vaultId: int, page: int, u: Uuid, i: nat)
    requires GroupsValid(gs) && FindGroup(gs, vaultId, page) == Some(i)
    ensures GroupsValid(Registered(gs, vaultId, page, u))
    ensures u in ViewersOf(Registered(gs, vaultId, page, u), vaultId, page)
    ensures forall v, p | !(v == vaultId && p == page) ::
              ViewersOf(Registered(gs, vaultId, page, u), v, p) == ViewersOf(gs, v, p)
  {
    var r := gs[i := gs[i].(viewers := AddViewer(gs[i].viewers, u))];
    assert Registered(gs, vaultId, page, u) == r;
    assert forall k | 0 <= k < |r| && k != i :: r[k] == gs[k];
    assert forall k | 0 <= k < |r| :: r[k].vaultId == gs[k].vaultId && r[k].page == gs[k].page;
    assert NoDuplicates(r[i].viewers);
    assert GroupsValid(r);
    SameKeysSameFind(gs, r, vaultId, page);
    assert ViewersOf(r, vaultId, page) == AddViewer(gs[i].viewers, u);
    forall v, p | !(v == vaultId && p == page) ensures ViewersOf(r, v, p) == ViewersOf(gs, v, p) {
      ViewersElsewhere(gs, i, AddViewer(gs[i].viewers, u), v, p);
    }
  }

  /** Changing the viewers of group `i` leaves the viewers of every other page as they were. */
  lemma ViewersElsewhere(gs: seq<ViewerGroup>, i: nat, vs: seq<Uuid>, v: int, p: int)
    requires i < |gs| && !PageKey(gs[i], v, p)
    ensures ViewersOf(gs[i := gs[i].(viewers := vs)], v, p) == ViewersOf(gs, v, p)
  {
    var r := gs[i := gs[i].(viewers := vs)];
    assert forall k | 0 <= k < |r| :: r[k].vaultId == gs[k].vaultId && r[k].page == gs[k].page;
    SameKeysSameFind(gs, r, v, p);
    var f := FindGroup(gs, v, p);
    if f.Some? {
      assert f.value != i;
      assert r[f.value] == gs[f.value];
    }
  }

  lemma RegisterNewValid(gs: seq<ViewerGroup>, vaultId: int, page: int, u: Uuid)
    requires GroupsValid(gs) && FindGroup(gs, vaultId, page).None?
    ensures GroupsValid(Registered(gs, vaultId, page, u))
    ensures u in ViewersOf(Registered(gs, vaultId, page, u), vaultId, page)
    ensures forall v, p | !(v == vaultId && p == page) ::
              ViewersOf(Registered(gs, vaultId, page, u), v, p) == ViewersOf(gs, v, p)
  {
    var g := ViewerGroup(vaultId, page, [u]);
    var r := gs + [g];
    assert Registered(gs, vaultId, page, u) == r;
    assert forall k | 0 <= k < |gs| :: r[k] == gs[k];
    AppendOtherFind(gs, g, vaultId, page);
    forall v, p | !(v == vaultId && p == page) ensures ViewersOf(r, v, p) == ViewersOf(gs, v, p) {
      AppendOtherFind(gs, g, v, p);
    }
  }

  /** Two group lists with the same keys at the same places find the same index. */
  lemma SameKeysSameFind(a: seq<ViewerGroup>, b: seq<ViewerGroup>, v: int, p: int)
    requires |a| == |b| && forall i | 0 <= i < |a| :: a[i].vaultId == b[i].vaultId && a[i].page == b[i].page
    ensures FindGroup(a, v, p) == FindGroup(b, v, p)
  {
    var fa, fb := FindGroup(a, v, p), FindGroup(b, v, p);
    if fa.Some? && fb.Some? {
      assert !(fa.value < fb.value) && !(fb.value < fa.value);
    }
  }

  /** Appending a group finds what was found before, or the new group when there was none for the key. */
  lemma AppendOtherFind(a: seq<ViewerGroup>, g: ViewerGroup, v: int, p: int)
    ensures FindGroup(a + [g], v, p) == if FindGroup(a, v, p).Some? then FindGroup(a, v, p)
                                         else if PageKey(g, v, p) then Some(|a|) else None
  {
    assert (a + [g])[..|a|] == a;
  }

  /** `unregister` keeps the registry valid, and the player is no longer a viewer of that page. */
  lemma UnregisterValid(gs: seq<ViewerGroup>, vaultId: int, page: int, u: Uuid)
    requires GroupsValid(gs)
    ensures GroupsValid(Unregistered(gs, vaultId, page, u))
    ensures u !in ViewersOf(Unregistered(gs, vaultId, page, u), vaultId, page)
  {
    var r := Unregistered(gs, vaultId, page, u);
    match FindGroup(gs, vaultId, page)
    case None =>
    case Some(i) =>
      var rest := RemoveFirst(gs[i].viewers, u);
      RemoveFirstDistinct(gs[i].viewers, u);
      if rest == [] {
        RemoveAtValid(gs, i);
        assert forall k | 0 <= k < |r| :: r[k] == if k < i then gs[k] else gs[k + 1];
      } else {
        SameKeysSameFind(gs, r, vaultId, page);
      }
  }

  lemma RemoveAtValid(gs: seq<ViewerGroup>, i: nat)
    requires i < |gs| && GroupsValid(gs)
    ensures GroupsValid(RemoveAt(gs, i))
  {
    var r := RemoveAt(gs, i);
    assert forall k | 0 <= k < |r| :: r[k] == if k < i then gs[k] else gs[k + 1];
  }

  /** Unregistering right after registering a player who was not viewing that page restores the groups. */
  lemma UnregisterUndoesRegister(gs: seq<ViewerGroup>, vaultId: int, page: int, u: Uuid)
    requires u !in ViewersOf(gs, vaultId, page)
    requires FindGroup(gs, vaultId, page).None? || ViewersOf(gs, vaultId, page) != []
    ensures Unregistered(Registered(gs, vaultId, page, u), vaultId, page, u) == gs
  {
    var r := Registered(gs, vaultId, page, u);
    match FindGroup(gs, vaultId, page)
    case Some(i) =>
      var g := gs[i];
      assert r == gs[i := g.(viewers := g.viewers + [u])];
      SameKeysSameFind(gs, r, vaultId, page);
      RemoveLast(g.viewers, u);
      assert RemoveFirst(r[i].viewers, u) == g.viewers != [];
      assert Unregistered(r, vaultId, page, u) == r[i := g];
    case None =>
      var g := ViewerGroup(vaultId, page, [u]);
      assert r == gs + [g];
      AppendOtherFind(gs, g, vaultId, page);
      assert RemoveFirst(g.viewers, u) == [];
      assert Unregistered(r, vaultId, page, u) == RemoveAt(r, |gs|);
      assert r[..|gs|] == gs && r[|gs| + 1..] == [];
  }

  lemma {:induction false} RemoveLast(s: seq<Uuid>, u: Uuid)
    requires u !in s
    ensures RemoveFirst(s + [u], u) == s
  {
    if s != [] {
      assert (s + [u])[1..] == s[1..] + [u];
      RemoveLast(s[1..], u);
    }
  }

  lemma SearchRegisterValid(gs: seq<SearchGroup>, vaultId: int, params: map<string, string>, u: Uuid)
    requires SearchGroupsValid(gs)
    ensures SearchGroupsValid(SearchRegistered(gs, vaultId, params, u))
  {
  }

  /**
   * `unregisterSearch` keeps the search registry valid; afterwards the player
   * is in no search group of the vault, no group of the vault is empty, and
   * the groups of other vaults are kept as they were.
   */
  lemma {:induction false} SearchLeftValid(gs: seq<SearchGroup>, vaultId: int, u: Uuid)
    requires SearchGroupsValid(gs)
    ensures var r := SearchLeft(gs, vaultId, u);
            && SearchGroupsValid(r)
            && IsSubsequenceByKey(r, gs)
            && (forall g | g in r && g.vaultId == vaultId :: u !in g.viewers && g.viewers != [])
            && (forall g | g in gs && g.vaultId != vaultId :: g in r)
    decreases |gs|
  {
    if gs != [] {
      var init, last := gs[..|gs| - 1], gs[|gs| - 1];
      assert gs == init + [last];
      assert SearchGroupsValid(init);
      SearchLeftValid(init, vaultId, u);
      SearchLeftStep(init, last, SearchLeft(init, vaultId, u), vaultId, u);
    }
  }

  /** The step of `SearchLeftValid`: the facts for `init` carry over to one more group. */
  lemma SearchLeftStep(init: seq<SearchGroup>, last: SearchGroup, r0: seq<SearchGroup>, vaultId: int, u: Uuid)
    requires SearchGroupsValid(init + [last])
    requires SearchGroupsValid(r0) && IsSubsequenceByKey(r0, init)
    requires forall g | g in r0 && g.vaultId == vaultId :: u !in g.viewers && g.viewers != []
    requires forall g | g in init && g.vaultId != vaultId :: g in r0
    ensures var r := r0 + LeaveGroup(last, vaultId, u);
            var gs := init + [last];
            && SearchGroupsValid(r)
            && IsSubsequenceByKey(r, gs)
            && (forall g | g in r && g.vaultId == vaultId :: u !in g.viewers && g.viewers != [])
            && (forall g | g in gs && g.vaultId != vaultId :: g in r)
  {
    var gs := init + [last];
    assert gs[|gs| - 1] == last;
    assert NoDuplicates(last.viewers);
    RemoveFirstDistinct(last.viewers, u);
    SearchLeftStepValid(init, last, r0, vaultId, u);
    var r := r0 + LeaveGroup(last, vaultId, u);
    forall g | g in gs && g.vaultId != vaultId ensures g in r {
      if g != last {
        assert g in init;
      }
    }
    forall x | x in r ensures exists k | 0 <= k < |gs| :: KeyOf(gs[k]) == KeyOf(x) {
      if x in r0 {
        var k :| 0 <= k < |init| && KeyOf(init[k]) == KeyOf(x);
        assert gs[k] == init[k];
      } else {
        assert KeyOf(gs[|gs| - 1]) == KeyOf(x);
      }
    }
  }

  /** The groups left after one more group still have distinct keys and distinct viewers. */
  lemma SearchLeftStepValid(init: seq<SearchGroup>, last: SearchGroup, r0: seq<SearchGroup>, vaultId: int, u: Uuid)
    requires SearchGroupsValid(init + [last])
    requires SearchGroupsValid(r0) && IsSubsequenceByKey(r0, init)
    requires NoDuplicates(RemoveFirst(last.viewers, u))
    ensures SearchGroupsValid(r0 + LeaveGroup(last, vaultId, u))
  {
    var gs := init + [last];
    var r := r0 + LeaveGroup(last, vaultId, u);
    assert gs[|gs| - 1] == last;
    forall i, j | 0 <= i < j < |r| ensures !(r[i].vaultId == r[j].vaultId && r[i].params == r[j].params) {
      if j == |r0| {
        assert r[j] == LeaveGroup(last, vaultId, u)[0];
        assert r[i] == r0[i];
        var k :| 0 <= k < |init| && KeyOf(init[k]) == KeyOf(r0[i]);
        assert gs[k] == init[k];
      }
    }
  }

  function KeyOf(g: SearchGroup): (int, map<string, string>)
  {
    (g.vaultId, g.params)
  }

  /** Every group of `r` has the key of a group of `gs`. */
  predicate IsSubsequenceByKey(r: seq<SearchGroup>, gs: seq<SearchGroup>)
  {
    forall x | x in r :: exists k | 0 <= k < |gs| :: KeyOf(gs[k]) == KeyOf(x)
  }

  /** The offline sweep keeps the keys and the validity of the search groups. */
  lemma {:induction false} SweptValid(gs: seq<SearchGroup>, vaultId: int, online: set<Uuid>)
    requires SearchGroupsValid(gs)
    ensures var r := Swept(gs, vaultId, online);
            && SearchGroupsValid(r)
            && (forall i | 0 <= i < |gs| :: KeyOf(r[i]) == KeyOf(gs[i]))
            && (forall i | 0 <= i < |gs| && gs[i].vaultId == vaultId :: forall x | x in r[i].viewers :: x in online)
    decreases |gs|
  {
    if gs != [] {
      var init := gs[..|gs| - 1];
      assert SearchGroupsValid(init);
      SweptValid(init, vaultId, online);
      OnlineOnlyDistinct(gs[|gs| - 1].viewers, online);
      var r := Swept(gs, vaultId, online);
      assert forall i | 0 <= i < |init| :: r[i] == Swept(init, vaultId, online)[i] && gs[i] == init[i];
    }
  }

  /**
   * Register never creates a group for an independent vault, so as long as
   * every call for that vault says so, the registry has no group for it and
   * a slot change there patches nobody but the operator, who is not viewing.
   */
  lemma IndependentHasNoGroup(gs: seq<ViewerGroup>, vaultId: int, page: int, u: Uuid, independent: int -> bool,
                              v: int)
    requires forall k | 0 <= k < |gs| :: !independent(gs[k].vaultId)
    requires independent(v)
    ensures FindGroup(gs, v, page).None?
    ensures ViewersOf(gs, v, page) == []
    ensures var after := if independent(vaultId) then gs else Registered(gs, vaultId, page, u);
            forall k | 0 <= k < |after| :: !independent(after[k].vaultId)
  {
    if !independent(vaultId) {
      match FindGroup(gs, vaultId, page)
      case Some(i) =>
      case None =>
    }
  }
}
