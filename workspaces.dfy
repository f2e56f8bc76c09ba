/**
 * The workspace operations of the `Workspace` model: lookup by member and
 * name, creation and deletion against the owner's workspace quota (a
 * compare-and-swap on `workspace_used`), and membership, which is kept as
 * one comma-separated string of player ids with the owner first.
 */
module Workspaces {
  import opened Wrappers
  import opened Text
  import opened Seqs
  import opened Records
  import opened MemoryCacheProvider
  import opened RowStore
  import opened PluginConfig
  import QuotaCache
  import WorkspaceCache
  import VaultCache

  // ---------------------------------------------------------------------------
  // Membership as text.

  /** `isMember`: a substring test on the member string. */
  predicate IsMember(w: Workspace, uuid: Uuid)
  {
    Contains(w.members, uuid)
  }

  /** `getMembers`: the non-blank pieces of the member string, in order. */
  function GetMembers(w: Workspace): (r: seq<Uuid>)
    ensures forall u | u in r :: ',' !in u && NotBlank(u)
    ensures forall u | u in r :: IsMember(w, u)
  {
    var r := WorkspaceCache.MemberIds(w.members);
    forall u | u in r ensures IsMember(w, u) {
      PieceOccurs(w.members, u);
    }
    r
  }

  /** The member string after `addMember`. */
  function Added(members: string, uuid: Uuid): string
  {
    members + "," + uuid
  }

  /** The member string after `removeMember`: every `,uuid` is cut out. */
  function Removed(members: string, uuid: Uuid): string
  {
    ReplaceAll(members, "," + uuid, "")
  }

  /** `,id` for each id in turn: a member string after its owner. */
  function Tail(ids: seq<Uuid>): string
    decreases |ids|
  {
    if ids == [] then "" else "," + (ids[0] + Tail(ids[1..]))
  }

  /** The ids other than `u`, in order. */
  function Others(ids: seq<Uuid>, u: Uuid): (r: seq<Uuid>)
    ensures forall x :: x in r <==> x in ids && x != u
    decreases |ids|
  {
    if ids == [] then [] else (if ids[0] == u then [] else [ids[0]]) + Others(ids[1..], u)
  }

  lemma {:induction false} OthersSnoc(ids: seq<Uuid>, u: Uuid, v: Uuid)
    ensures Others(ids + [v], u) == Others(ids, u) + (if v == u then [] else [v])
    decreases |ids|
  {
    if ids != [] {
      assert (ids + [v])[1..] == ids[1..] + [v];
      OthersSnoc(ids[1..], u, v);
    } else {
      assert ids + [v] == [v];
    }
  }

  lemma {:induction false} OthersAbsent(ids: seq<Uuid>, u: Uuid)
    requires u !in ids
    ensures Others(ids, u) == ids
    decreases |ids|
  {
    if ids != [] {
      assert forall x | x in ids[1..] :: x in ids;
      OthersAbsent(ids[1..], u);
      assert [ids[0]] + ids[1..] == ids;
    }
  }

  /** The member string of an owner and further members, as the operations write it. */
  function MemberString(owner: Uuid, rest: seq<Uuid>): string
  {
    JoinWith([owner] + rest, ',')
  }

  /** Ids that can be stored in a member string: non-blank and free of the separator. */
  predicate WellFormed(ids: seq<Uuid>)
  {
    forall x | x in ids :: ',' !in x && NotBlank(x)
  }

  /** `u` is the beginning of no id in `ids` other than itself. */
  predicate PrefixOfNone(u: Uuid, ids: seq<Uuid>)
  {
    forall x | x in ids :: u <= x ==> x == u
  }

  /** A piece of the split member string occurs in it. */
  lemma {:induction false} PieceOccurs(s: string, u: string)
    requires u in SplitOn(s, ',')
    ensures Contains(s, u)
    decreases |s|
  {
    if ',' !in s {
      assert u == s && s[0..|u|] == u;
      assert OccursAt(s, u, 0);
    } else {
      var i := FirstIndex(s, ',');
      var t := s[i + 1..];
      assert SplitOn(s, ',') == [s[..i]] + SplitOn(t, ',');
      if u == s[..i] {
        assert s[0..|u|] == u;
        assert OccursAt(s, u, 0);
      } else {
        assert u in SplitOn(t, ',');
        PieceOccurs(t, u);
        ContainsInSuffix(s[..i + 1], t, u);
        assert s[..i + 1] + t == s;
      }
    }
  }

  lemma {:induction false} JoinIsHeadTail(a: Uuid, rest: seq<Uuid>)
    ensures JoinWith([a] + rest, ',') == a + Tail(rest)
    decreases |rest|
  {
    if rest != [] {
      JoinIsHeadTail(rest[0], rest[1..]);
      assert [rest[0]] + rest[1..] == rest;
      assert ([a] + rest)[1..] == rest;
    }
  }

  lemma {:induction false} TailSnoc(rest: seq<Uuid>, u: Uuid)
    ensures Tail(rest + [u]) == Tail(rest) + "," + u
    decreases |rest|
  {
    if rest == [] {
      assert Tail([u]) == "," + (u + Tail([]));
    } else {
      assert (rest + [u])[1..] == rest[1..] + [u];
      TailSnoc(rest[1..], u);
    }
  }

  /** The cut string after a comma that does not start an occurrence. */
  lemma LeadingComma(t: string, target: string)
    requires |target| > 0 && target[0] == ',' && !(target <= "," + t)
    ensures ReplaceAll("," + t, target, "") == "," + ReplaceAll(t, target, "")
  {
    var s := "," + t;
    assert s[1..] == t;
    if |s| < |target| {
      ReplaceShort(t, target, "");
    }
  }

  /** `,u` does not start at the comma before another id `b`. */
  lemma NotAtComma(b: Uuid, x: string, u: Uuid)
    requires b != u && ',' !in b && ',' !in u && (u <= b ==> b == u)
    requires x == "" || x[0] == ','
    ensures !("," + u <= "," + (b + x))
  {
    PrefixCancel(",", u, b + x);
    if |u| <= |b| {
      assert (b + x)[..|u|] == b[..|u|];
    } else if x != "" {
      assert (b + x)[|b|] == ',';
      assert u[|b|] in u;
    }
  }

  /** An occurrence of `,u` at the front is cut. */
  lemma CutAtFront(u: Uuid, x: string)
    ensures ReplaceAll("," + (u + x), "," + u, "") == ReplaceAll(x, "," + u, "")
  {
    var target := "," + u;
    var s := "," + (u + x);
    assert s[..|target|] == target && s[|target|..] == x;
  }

  /** Another member's entry at the front is kept. */
  lemma KeepAtFront(b: Uuid, x: string, u: Uuid)
    requires b != u && ',' !in b && ',' !in u && (u <= b ==> b == u)
    requires x == "" || x[0] == ','
    ensures ReplaceAll("," + (b + x), "," + u, "") == "," + (b + ReplaceAll(x, "," + u, ""))
  {
    NotAtComma(b, x, u);
    LeadingComma(b + x, "," + u);
    ReplaceSkips(b, x, "," + u, "");
  }

  /** Cutting `,u` out of the tail drops exactly the entries for `u`. */
  lemma {:induction false} RemoveFromTail(rest: seq<Uuid>, u: Uuid)
    requires ',' !in u
    requires forall x | x in rest :: ',' !in x
    requires PrefixOfNone(u, rest)
    ensures ReplaceAll(Tail(rest), "," + u, "") == Tail(Others(rest, u))
    decreases |rest|
  {
    if rest == [] {
      ReplaceShort("", "," + u, "");
    } else {
      var b, r := rest[0], rest[1..];
      assert b in rest;
      assert forall x | x in r :: x in rest;
      RemoveFromTail(r, u);
      assert Tail(rest) == "," + (b + Tail(r));
      assert Others(rest, u) == (if b != u then [b] else []) + Others(r, u);
      if b == u {
        CutAtFront(u, Tail(r));
        assert Others(rest, u) == Others(r, u);
      } else {
        KeepAtFront(b, Tail(r), u);
        var o := Others(r, u);
        assert ([b] + o)[0] == b && ([b] + o)[1..] == o;
        assert Tail([b] + o) == "," + (b + Tail(o));
      }
    }
  }

  /**
   * Removing a member who is not the owner from a well-formed member
   * string, when no other id begins with that member's id, leaves the owner
   * and every other member in order.
   */
  lemma RemoveFromMemberString(owner: Uuid, rest: seq<Uuid>, u: Uuid)
    requires ',' !in owner && ',' !in u
    requires forall x | x in rest :: ',' !in x
    requires PrefixOfNone(u, rest)
    ensures Removed(MemberString(owner, rest), u) == MemberString(owner, Others(rest, u))
  {
    JoinIsHeadTail(owner, rest);
    JoinIsHeadTail(owner, Others(rest, u));
    RemoveFromTail(rest, u);
    ReplaceSkips(owner, Tail(rest), "," + u, "");
  }

  /** Appending `,u` adds `u` as the last member. */
  lemma AddToMemberString(owner: Uuid, rest: seq<Uuid>, u: Uuid)
    ensures Added(MemberString(owner, rest), u) == MemberString(owner, rest + [u])
  {
    JoinIsHeadTail(owner, rest);
    JoinIsHeadTail(owner, rest + [u]);
    TailSnoc(rest, u);
  }

  /** An id that begins with `u` puts `u` in the member string. */
  lemma {:induction false} PrefixOccurs(rest: seq<Uuid>, u: Uuid, j: nat)
    requires j < |rest| && u <= rest[j]
    ensures Contains(Tail(rest), u)
    decreases j
  {
    var s := Tail(rest);
    if j == 0 {
      assert s[1..1 + |u|] == u;
      assert OccursAt(s, u, 1);
    } else {
      PrefixOccurs(rest[1..], u, j - 1);
      var x := Tail(rest[1..]);
      var k :| 0 <= k <= |x| - |u| && OccursAt(x, u, k);
      var d := |"," + rest[0]|;
      assert s == "," + (rest[0] + x);
      assert s[d + k..d + k + |u|] == x[k..k + |u|];
      assert OccursAt(s, u, d + k);
    }
  }

  lemma OwnerOccurs(owner: Uuid, rest: seq<Uuid>)
    ensures Contains(MemberString(owner, rest), owner)
  {
    JoinIsHeadTail(owner, rest);
    assert MemberString(owner, rest)[0..|owner|] == owner;
    assert OccursAt(MemberString(owner, rest), owner, 0);
  }

  lemma PrefixInString(owner: Uuid, rest: seq<Uuid>, u: Uuid, j: nat)
    requires j < |rest| && u <= rest[j]
    ensures Contains(MemberString(owner, rest), u)
  {
    JoinIsHeadTail(owner, rest);
    PrefixOccurs(rest, u, j);
    ContainsInSuffix(owner, Tail(rest), u);
  }

  /** What `addMember`'s guard buys: a player absent from the string begins no member's id. */
  lemma AbsentPrefixOfNone(owner: Uuid, rest: seq<Uuid>, u: Uuid)
    requires !Contains(MemberString(owner, rest), u)
    ensures u != owner && u !in rest && PrefixOfNone(u, rest)
  {
    OwnerOccurs(owner, rest);
    forall x | x in rest ensures !(u <= x) {
      var j :| 0 <= j < |rest| && rest[j] == x;
      if u <= x {
        PrefixInString(owner, rest, u, j);
      }
    }
  }

  /**
   * `removeMember` undoes `addMember`: for a well-formed member string and a
   * player that `addMember` accepts, adding and then removing the player
   * gives back the original string.
   */
  lemma AddThenRemove(owner: Uuid, rest: seq<Uuid>, u: Uuid)
    requires WellFormed([owner] + rest) && ',' !in u
    requires !Contains(MemberString(owner, rest), u)
    ensures Removed(Added(MemberString(owner, rest), u), u) == MemberString(owner, rest)
  {
    AbsentPrefixOfNone(owner, rest, u);
    assert owner in [owner] + rest;
    assert forall x | x in rest :: x in [owner] + rest;
    assert forall x | x in rest + [u] :: x in rest || x == u;
    AddToMemberString(owner, rest, u);
    RemoveFromMemberString(owner, rest + [u], u);
    OthersSnoc(rest, u, u);
    OthersAbsent(rest, u);
    assert Others(rest + [u], u) == rest;
  }

  /** After `addMember` the new player is a member and the parsed member list gains exactly that id. */
  lemma AddedIsMember(owner: Uuid, rest: seq<Uuid>, u: Uuid)
    requires WellFormed([owner] + rest + [u])
    ensures Contains(Added(MemberString(owner, rest), u), u)
    ensures WorkspaceCache.MemberIds(Added(MemberString(owner, rest), u)) == [owner] + rest + [u]
  {
    ContainsSuffix(MemberString(owner, rest) + ",", u);
    AddToMemberString(owner, rest, u);
    WorkspaceCache.MemberIdsOfJoin([owner] + (rest + [u]));
    assert [owner] + (rest + [u]) == [owner] + rest + [u];
  }

  /** After `removeMember` the parsed member list is the old one without the player. */
  lemma RemovedIsGone(owner: Uuid, rest: seq<Uuid>, u: Uuid)
    requires WellFormed([owner] + rest) && ',' !in u && u != owner
    requires PrefixOfNone(u, rest)
    ensures WorkspaceCache.MemberIds(Removed(MemberString(owner, rest), u)) == [owner] + Others(rest, u)
    ensures u !in WorkspaceCache.MemberIds(Removed(MemberString(owner, rest), u))
  {
    assert forall x | x in rest :: x in [owner] + rest;
    RemoveFromMemberString(owner, rest, u);
    WorkspaceCache.MemberIdsOfJoin([owner] + Others(rest, u));
  }

  // ---------------------------------------------------------------------------
  // Lookup.

  /** The first workspace, in id order, whose member string mentions `player` and whose name is `name`. */
  function LoadNamed(rows: map<int, Workspace>, n: nat, player: Uuid, name: string): (r: Option<Workspace>)
    ensures r.Some? ==> IsMember(r.value, player) && r.value.name == name
  {
    var r := FirstRow(rows, n, NamedFor(player, name));
    assert r.Some? ==> r.value in Rows(rows, n, NamedFor(player, name));
    r
  }

  /** The `where` of `getWorkspace`: the member string mentions the player and the name matches. */
  function NamedFor(player: Uuid, name: string): Workspace -> bool
  {
    (w: Workspace) => Contains(w.members, player) && w.name == name
  }

  /** The cache after `WorkspaceCache.update(w)`. */
  function UpdatedEntries(m: Entries, w: Workspace, now: int, cfg: Config): Entries
  {
    DeleteKeys(m[WorkspaceCache.Key(w.id) := CacheEntry(WorkspaceValue(w), ExpireAt(now, cfg.ttlMs))],
               WorkspaceCache.PlayerKeys(WorkspaceCache.MemberIds(w.members)))
  }

  /** `getWorkspace`: a store lookup whose hit refreshes the workspace's cache entries. */
  method GetWorkspace(c: MemoryCache, t: WorkspaceTable, player: Uuid, name: string, now: int, cfg: Config)
    returns (r: Option<Workspace>)
    modifies c
    ensures r == LoadNamed(t.rows, t.nextId, player, name)
    ensures r.None? ==> c.entries == old(c.entries)
    ensures r.Some? ==> c.entries == UpdatedEntries(old(c.entries), r.value, now, cfg)
  {
    r := LoadNamed(t.rows, t.nextId, player, name);
    if r.Some? {
      WorkspaceCache.Update(c, r.value, now, cfg);
    }
  }

  // ---------------------------------------------------------------------------
  // Creation and deletion.

  /** The compare-and-swap write of `workspace_used`. */
  function UsedSwap(read: Quota, newUsed: int): (QuotaSet, Guard)
  {
    (QuotaSet(None, Some(newUsed), None, None, None), WorkspaceUsedIs(read.workspaceUsed))
  }

  /**
   * `create`: refused when one more workspace would pass the owner's limit,
   * or when the compare-and-swap on `workspace_used` misses; otherwise the
   * workspace is inserted with the owner as its only member, the cached
   * quota counts it, and the owner's workspace list is dropped.
   */
  method Create(c: MemoryCache, db: Database, owner: Uuid, name: string, kind: WorkspaceType, desc: Option<string>,
                now: int, cfg: Config) returns (ok: bool)
    requires db.Valid()
    modifies c, db.quotas, db.workspaces
    ensures db.Valid()
    ensures
      var m0, rows0, next0 := old(c.entries), old(db.quotas.rows), old(db.quotas.nextId);
      var q := QuotaCache.Read(m0, rows0, owner, now, cfg);
      var m1 := QuotaCache.EntriesAfterGet(m0, rows0, owner, now, cfg);
      var rows1 := QuotaCache.RowsAfterGet(m0, rows0, next0, owner, now, cfg);
      var swap := UsedSwap(q, q.workspaceUsed + 1);
      var allowed := q.workspaceUsed + 1 <= q.workspaceQuotas;
      && ok == (allowed && Matches(rows1, owner, swap.1))
      && db.quotas.nextId == QuotaCache.NextAfterGet(m0, rows0, next0, owner, now)
      && db.quotas.rows == (if allowed then Written(rows1, owner, swap.0, swap.1) else rows1)
      && (!ok ==> (c.entries == m1 && db.workspaces.rows == old(db.workspaces.rows)
                   && db.workspaces.nextId == old(db.workspaces.nextId)))
      && (ok ==> (db.workspaces.rows == old(db.workspaces.rows)[old(db.workspaces.nextId) :=
                    Workspace(old(db.workspaces.nextId), name, desc, kind, owner, owner, now, now)]
                  && db.workspaces.nextId == old(db.workspaces.nextId) + 1
                  && c.entries == m1[QuotaCache.Key(owner) := CacheEntry(QuotaValue(q.(workspaceUsed := q.workspaceUsed + 1)), ExpireAt(now, cfg.ttlMs))]
                                    - {WorkspaceCache.PlayerKey(owner)}))
  {
    var ownerData := QuotaCache.Get(c, db.quotas, owner, now, cfg);
    var newUsed := ownerData.workspaceUsed + 1;
    if newUsed > ownerData.workspaceQuotas {
      return false;
    }
    var swap := UsedSwap(ownerData, newUsed);
    var affected := db.quotas.Update(owner, swap.0, swap.1);
    if affected == 0 {
      return false;
    }
    var _ := db.workspaces.Insert(Workspace(0, name, desc, kind, owner, owner, now, now));
    QuotaCache.Update(c, owner, ownerData.(workspaceUsed := newUsed), now, cfg);
    WorkspaceCache.InvalidatePlayerWorkspaces(c, owner);
    ok := true;
  }

  /**
   * `delete`: does nothing further when the owner's count would go
   * negative or the compare-and-swap misses; otherwise the row goes and the
   * workspace, its vault list and the owner's quota leave the cache.
   */
  method Delete(c: MemoryCache, db: Database, w: Workspace, now: int, cfg: Config)
    requires db.Valid()
    modifies c, db.quotas, db.workspaces
    ensures db.Valid()
    ensures
      var m0, rows0, next0 := old(c.entries), old(db.quotas.rows), old(db.quotas.nextId);
      var q := QuotaCache.Read(m0, rows0, w.owner, now, cfg);
      var m1 := QuotaCache.EntriesAfterGet(m0, rows0, w.owner, now, cfg);
      var rows1 := QuotaCache.RowsAfterGet(m0, rows0, next0, w.owner, now, cfg);
      var swap := UsedSwap(q, q.workspaceUsed - 1);
      var allowed := q.workspaceUsed - 1 >= 0;
      var done := allowed && Matches(rows1, w.owner, swap.1);
      && db.quotas.nextId == QuotaCache.NextAfterGet(m0, rows0, next0, w.owner, now)
      && db.quotas.rows == (if allowed then Written(rows1, w.owner, swap.0, swap.1) else rows1)
      && db.workspaces.nextId == old(db.workspaces.nextId)
      && (!done ==> c.entries == m1 && db.workspaces.rows == old(db.workspaces.rows))
      && (done ==> db.workspaces.rows == old(db.workspaces.rows) - {w.id}
                   && c.entries == WithoutPrefix(m1 - {WorkspaceCache.Key(w.id)}, WorkspaceCache.PlayerPrefix)
                                   - {VaultCache.WorkspaceKey(w.id)} - {QuotaCache.Key(w.owner)})
  {
    var user := QuotaCache.Get(c, db.quotas, w.owner, now, cfg);
    var newUsed := user.workspaceUsed - 1;
    if newUsed < 0 {
      return;
    }
    var swap := UsedSwap(user, newUsed);
    var affected := db.quotas.Update(w.owner, swap.0, swap.1);
    if affected == 0 {
      return;
    }
    db.workspaces.Delete(w.id);
    WorkspaceCache.Invalidate(c, w.id);
    VaultCache.InvalidateWorkspaceVaults(c, w.id);
    QuotaCache.Invalidate(c, w.owner);
  }

  /** A successful `create` counts exactly one more workspace in the owner's row, and never more than the limit read. */
  lemma CreateCountsOne(rows: map<Uuid, Quota>, owner: Uuid, read: Quota)
    requires read.workspaceUsed + 1 <= read.workspaceQuotas
    requires Matches(rows, owner, UsedSwap(read, read.workspaceUsed + 1).1)
    ensures
      var r := Written(rows, owner, UsedSwap(read, read.workspaceUsed + 1).0, UsedSwap(read, read.workspaceUsed + 1).1)[owner];
      r.workspaceUsed == rows[owner].workspaceUsed + 1 && r.workspaceUsed <= read.workspaceQuotas
  {
  }

  /** A successful `delete` leaves a non-negative workspace count. */
  lemma DeleteKeepsCountNonNegative(rows: map<Uuid, Quota>, owner: Uuid, read: Quota)
    requires read.workspaceUsed - 1 >= 0
    requires Matches(rows, owner, UsedSwap(read, read.workspaceUsed - 1).1)
    ensures Written(rows, owner, UsedSwap(read, read.workspaceUsed - 1).0, UsedSwap(read, read.workspaceUsed - 1).1)[owner].workspaceUsed >= 0
  {
  }

  // ---------------------------------------------------------------------------
  // Membership changes.

  /** The cache after a membership change: the workspace is refreshed and the player's list dropped. */
  function MembershipEntries(m: Entries, w: Workspace, uuid: Uuid, now: int, cfg: Config): Entries
  {
    UpdatedEntries(m, w, now, cfg) - {WorkspaceCache.PlayerKey(uuid)}
  }

  /** `addMember`: refused for a player already mentioned; otherwise `,uuid` is appended and written through. */
  method AddMember(c: MemoryCache, t: WorkspaceTable, w: Workspace, uuid: Uuid, now: int, cfg: Config)
    returns (ok: bool, w': Workspace)
    requires t.Valid()
    modifies c, t
    ensures t.Valid() && t.nextId == old(t.nextId)
    ensures ok == !IsMember(w, uuid)
    ensures !ok ==> w' == w && c.entries == old(c.entries) && t.rows == old(t.rows)
    ensures ok ==> w' == w.(members := Added(w.members, uuid), updatedAt := now) && IsMember(w', uuid)
    ensures ok ==> t.rows == if w.id in old(t.rows) then old(t.rows)[w.id := old(t.rows)[w.id].(members := w'.members, updatedAt := now)] else old(t.rows)
    ensures ok ==> c.entries == MembershipEntries(old(c.entries), w', uuid, now, cfg)
  {
    if Contains(w.members, uuid) {
      return false, w;
    }
    w' := w.(members := Added(w.members, uuid), updatedAt := now);
    ContainsSuffix(w.members + ",", uuid);
    t.SetMembers(w'.id, w'.members, w'.updatedAt);
    WorkspaceCache.Update(c, w', now, cfg);
    WorkspaceCache.InvalidatePlayerWorkspaces(c, uuid);
    ok := true;
  }

  /** `removeMember`: refused for the owner and for a player not mentioned; otherwise every `,uuid` is cut out and written through. */
  method RemoveMember(c: MemoryCache, t: WorkspaceTable, w: Workspace, uuid: Uuid, now: int, cfg: Config)
    returns (ok: bool, w': Workspace)
    requires t.Valid()
    modifies c, t
    ensures t.Valid() && t.nextId == old(t.nextId)
    ensures ok == (w.owner != uuid && IsMember(w, uuid))
    ensures !ok ==> w' == w && c.entries == old(c.entries) && t.rows == old(t.rows)
    ensures ok ==> w' == w.(members := Removed(w.members, uuid), updatedAt := now)
    ensures ok ==> t.rows == if w.id in old(t.rows) then old(t.rows)[w.id := old(t.rows)[w.id].(members := w'.members, updatedAt := now)] else old(t.rows)
    ensures ok ==> c.entries == MembershipEntries(old(c.entries), w', uuid, now, cfg)
  {
    if w.owner == uuid {
      return false, w;
    }
    if !Contains(w.members, uuid) {
      return false, w;
    }
    w' := w.(members := Removed(w.members, uuid), updatedAt := now);
    t.SetMembers(w'.id, w'.members, w'.updatedAt);
    WorkspaceCache.Update(c, w', now, cfg);
    WorkspaceCache.InvalidatePlayerWorkspaces(c, uuid);
    ok := true;
  }

  /** After a membership change the changed player's workspace list and every listed member's list are gone from the cache. */
  lemma MembershipDropsLists(m: Entries, w: Workspace, uuid: Uuid, now: int, cfg: Config, x: Uuid)
    requires x == uuid || x in WorkspaceCache.MemberIds(w.members)
    ensures WorkspaceCache.PlayerKey(x) !in MembershipEntries(m, w, uuid, now, cfg)
    ensures WorkspaceCache.Key(w.id) in MembershipEntries(m, w, uuid, now, cfg)
  {
    var ids := WorkspaceCache.MemberIds(w.members);
    if x != uuid {
      var i :| 0 <= i < |ids| && ids[i] == x;
      assert WorkspaceCache.PlayerKeys(ids)[i] == WorkspaceCache.PlayerKey(x);
    }
    forall k | k in WorkspaceCache.PlayerKeys(ids) ensures k != WorkspaceCache.Key(w.id) {
      var i :| 0 <= i < |ids| && WorkspaceCache.PlayerKeys(ids)[i] == k;
      WorkspaceCache.KeysDistinct(w.id, ids[i]);
    }
    WorkspaceCache.KeysDistinct(w.id, uuid);
  }
}
