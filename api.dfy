/**
 * The public API: ordered name validation with reason codes, workspace and
 * vault creation on top of it, and the rule-mutation wrappers that also drop
 * the auto pick-up service's per-player vault lists.
 */
module Api {
  import opened Wrappers
  import opened Text
  import opened Records
  import opened MemoryCacheProvider
  import opened RowStore
  import opened PluginConfig
  import Workspaces
  import WorkspaceCache
  import Vaults
  import VaultCache
  import QuotaCache
  import AutoPickups
  import AutoPickupCache
  import AutoPickupService

  // ---------------------------------------------------------------------------
  // Name validation.

  /** What a name is validated for. */
  datatype Subject = WorkspaceName | VaultName

  /** The ways a name can be refused, in the order they are checked. */
  datatype NameFault = Invalid | Colored | Blacklisted | BadLength | Taken

  /** The reason code a refusal carries. */
  function ReasonCode(subject: Subject, f: NameFault): string
  {
    match (subject, f)
    case (WorkspaceName, Invalid) => "workspace_name_invalid"
    case (WorkspaceName, Colored) => "workspace_name_color"
    case (WorkspaceName, Blacklisted) => "workspace_name_blacklist"
    case (WorkspaceName, BadLength) => "workspace_name_length"
    case (WorkspaceName, Taken) => "workspace_already_exists"
    case (VaultName, Invalid) => "vault_name_invalid"
    case (VaultName, Colored) => "vault_name_color"
    case (VaultName, Blacklisted) => "vault_name_blacklist"
    case (VaultName, BadLength) => "vault_name_length"
    case (VaultName, Taken) => "vault_already_exists"
  }

  /** Distinct refusals carry distinct codes. */
  lemma ReasonCodeInjective(s1: Subject, f1: NameFault, s2: Subject, f2: NameFault)
    requires ReasonCode(s1, f1) == ReasonCode(s2, f2)
    ensures s1 == s2 && f1 == f2
  {
    var a, b := ReasonCode(s1, f1), ReasonCode(s2, f2);
    assert a[0] == b[0];
    if s1 == WorkspaceName {
      assert a[10] == b[10];
      assert a[15] == b[15];
    } else {
      assert a[6] == b[6];
      assert a[11] == b[11];
    }
  }

  /** A color code marker: `&` or the section sign. */
  predicate HasColorMarker(name: string)
  {
    '&' in name || '§' in name
  }

  /** Whether `name` passes the test for fault `f` (the lookup is not one of these). */
  predicate Passes(f: NameFault, name: string, rules: NameRules)
  {
    match f
    case Invalid => ' ' !in name
    case Colored => !(rules.allowColor && HasColorMarker(name))
    case Blacklisted => name !in rules.blacklist
    case BadLength => rules.minLength <= |name| <= rules.maxLength
    case Taken => true
  }

  /** The tests made without a lookup, in their order. */
  const StaticChecks: seq<NameFault> := [Invalid, Colored, Blacklisted, BadLength]

  /**
   * The if-chain of `validate*Name` before the lookup: the first failing
   * test, in the order of `StaticChecks`; a missing name is `Invalid`.
   */
  function StaticFault(name: Option<string>, rules: NameRules): (r: Option<NameFault>)
    ensures name.None? ==> r == Some(Invalid)
    ensures name.Some? ==>
              (r.None? <==> forall i | 0 <= i < |StaticChecks| :: Passes(StaticChecks[i], name.value, rules))
    ensures name.Some? && r.Some? ==>
              exists i | 0 <= i < |StaticChecks| ::
                && StaticChecks[i] == r.value
                && !Passes(r.value, name.value, rules)
                && forall j | 0 <= j < i :: Passes(StaticChecks[j], name.value, rules)
  {
    if name.None? then Some(Invalid)
    else
      var n := name.value;
      if ' ' in n then
        assert StaticChecks[0] == Invalid;
        Some(Invalid)
      else if rules.allowColor && HasColorMarker(n) then
        assert StaticChecks[1] == Colored && Passes(StaticChecks[0], n, rules);
        Some(Colored)
      else if n in rules.blacklist then
        assert StaticChecks[2] == Blacklisted && Passes(StaticChecks[0], n, rules) && Passes(StaticChecks[1], n, rules);
        Some(Blacklisted)
      else if |n| > rules.maxLength || |n| < rules.minLength then
        assert forall j | 0 <= j < 3 :: Passes(StaticChecks[j], n, rules);
        assert StaticChecks[3] == BadLength;
        Some(BadLength)
      else
        None
  }

  /** The reply for a static result and the outcome of the lookup. */
  function Verdict(subject: Subject, fault: Option<NameFault>, exists_: bool): (r: Reply)
    ensures r.success <==> fault.None? && !exists_
    ensures fault.Some? ==> r == Refused(ReasonCode(subject, fault.value))
    ensures fault.None? && exists_ ==> r == Refused(ReasonCode(subject, Taken))
    ensures r.success ==> r.reason.None?
  {
    if fault.Some? then Refused(ReasonCode(subject, fault.value))
    else if exists_ then Refused(ReasonCode(subject, Taken))
    else Ok
  }

  /** The lookup result of `validateWorkspaceName`: the owner already has a workspace of that name. */
  predicate WorkspaceNameTaken(rows: map<int, Workspace>, n: nat, owner: Uuid, name: Option<string>)
  {
    name.Some? && Workspaces.LoadNamed(rows, n, owner, name.value).Some?
  }

  /**
   * `validateWorkspaceName`: the static tests with the workspace options,
   * then, only when they pass, a lookup of the owner's workspace of that name.
   */
  method ValidateWorkspaceName(c: MemoryCache, t: WorkspaceTable, name: Option<string>, owner: Uuid, now: int,
                               cfg: Config)
    returns (res: Reply)
    modifies c
    ensures var fault := StaticFault(name, cfg.workspaceNames);
            && res == Verdict(WorkspaceName, fault, WorkspaceNameTaken(t.rows, t.nextId, owner, name))
            && (fault.Some? || !WorkspaceNameTaken(t.rows, t.nextId, owner, name) ==> c.entries == old(c.entries))
            && (fault.None? && WorkspaceNameTaken(t.rows, t.nextId, owner, name) ==>
                  c.entries == Workspaces.UpdatedEntries(old(c.entries),
                                 Workspaces.LoadNamed(t.rows, t.nextId, owner, name.value).value, now, cfg))
  {
    var fault := StaticFault(name, cfg.workspaceNames);
    if fault.Some? {
      return Refused(ReasonCode(WorkspaceName, fault.value));
    }
    var existing := Workspaces.GetWorkspace(c, t, owner, name.value, now, cfg);
    if existing.Some? {
      return Refused(ReasonCode(WorkspaceName, Taken));
    }
    res := Ok;
  }

  /**
   * `createWorkspace`: a refused name is answered as validated; then a
   * missing type; then the owner's quota as read, where one more workspace
   * must fit; then `Workspace.create`, whose refusal is also reported as an
   * exceeded quota.
   */
  method CreateWorkspace(c: MemoryCache, db: Database, owner: Uuid, name: Option<string>, kind: Option<WorkspaceType>,
                         desc: Option<string>, now: int, cfg: Config)
    returns (res: Reply)
    requires db.Valid()
    modifies c, db.quotas, db.workspaces
    ensures db.Valid()
    ensures var fault := StaticFault(name, cfg.workspaceNames);
            var taken := WorkspaceNameTaken(old(db.workspaces.rows), old(db.workspaces.nextId), owner, name);
            var v := Verdict(WorkspaceName, fault, taken);
            && (!v.success ==>
                  && res == v
                  && db.workspaces.rows == old(db.workspaces.rows)
                  && db.workspaces.nextId == old(db.workspaces.nextId)
                  && db.quotas.rows == old(db.quotas.rows) && db.quotas.nextId == old(db.quotas.nextId)
                  && c.entries == (if fault.None? && taken
                                   then Workspaces.UpdatedEntries(old(c.entries),
                                          Workspaces.LoadNamed(old(db.workspaces.rows), old(db.workspaces.nextId),
                                                               owner, name.value).value, now, cfg)
                                   else old(c.entries)))
            && (v.success && kind.None? ==>
                  && res == Refused("workspace_type_invalid")
                  && db.workspaces.rows == old(db.workspaces.rows)
                  && db.workspaces.nextId == old(db.workspaces.nextId)
                  && db.quotas.rows == old(db.quotas.rows) && db.quotas.nextId == old(db.quotas.nextId)
                  && c.entries == old(c.entries))
    ensures var v := Verdict(WorkspaceName, StaticFault(name, cfg.workspaceNames),
                             WorkspaceNameTaken(old(db.workspaces.rows), old(db.workspaces.nextId), owner, name));
            var m0, rows0, next0 := old(c.entries), old(db.quotas.rows), old(db.quotas.nextId);
            var q := QuotaCache.Read(m0, rows0, owner, now, cfg);
            var m1 := QuotaCache.EntriesAfterGet(m0, rows0, owner, now, cfg);
            var rows1 := QuotaCache.RowsAfterGet(m0, rows0, next0, owner, now, cfg);
            var swap := Workspaces.UsedSwap(q, q.workspaceUsed + 1);
            var allowed := q.workspaceUsed + 1 <= q.workspaceQuotas;
            v.success && kind.Some? ==>
              && (res.success <==> allowed && Matches(rows1, owner, swap.1))
              && (!res.success ==> res == Refused("workspace_quota_exceeded"))
              && db.quotas.nextId == QuotaCache.NextAfterGet(m0, rows0, next0, owner, now)
              && db.quotas.rows == (if allowed then Written(rows1, owner, swap.0, swap.1) else rows1)
              && (!res.success ==> && c.entries == m1
                                   && db.workspaces.rows == old(db.workspaces.rows)
                                   && db.workspaces.nextId == old(db.workspaces.nextId))
              && (res.success ==> && db.workspaces.rows == old(db.workspaces.rows)[old(db.workspaces.nextId) :=
                                       Workspace(old(db.workspaces.nextId), name.value, desc, kind.value, owner, owner, now, now)]
                                  && db.workspaces.nextId == old(db.workspaces.nextId) + 1
                                  && c.entries == m1[QuotaCache.Key(owner) :=
                                                    CacheEntry(QuotaValue(q.(workspaceUsed := q.workspaceUsed + 1)),
                                                               ExpireAt(now, cfg.ttlMs))]
                                                  - {WorkspaceCache.PlayerKey(owner)})
  {
    var checked := ValidateWorkspaceName(c, db.workspaces, name, owner, now, cfg);
    if !checked.success {
      return checked;
    }
    if kind.None? {
      return Refused("workspace_type_invalid");
    }
    ghost var m0 := c.entries;
    ghost var rows0 := db.quotas.rows;
    var ownerData := QuotaCache.Get(c, db.quotas, owner, now, cfg);
    QuotaCache.GetThenHit(m0, rows0, owner, now, cfg);
    if ownerData.workspaceUsed + 1 > ownerData.workspaceQuotas {
      return Refused("workspace_quota_exceeded");
    }
    var ok := Workspaces.Create(c, db, owner, name.value, kind.value, desc, now, cfg);
    res := if ok then Ok else Refused("workspace_quota_exceeded");
  }

  /** The lookup result of `validateVaultName`: the workspace's vault list, as served, has that name. */
  predicate VaultNameTaken(m: Entries, rows: map<int, Vault>, n: nat, workspaceId: int, name: Option<string>, now: int)
  {
    name.Some? && Vaults.FindNamed(VaultCache.ServedByWorkspace(m, rows, n, workspaceId, now), name.value).Some?
  }

  /** `validateVaultName`: the same tests with the vault options and codes; the lookup is `Vault.getVault`. */
  method ValidateVaultName(c: MemoryCache, t: VaultTable, name: Option<string>, workspaceId: int, now: int, cfg: Config)
    returns (res: Reply)
    modifies c
    ensures var fault := StaticFault(name, cfg.vaultNames);
            && res == Verdict(VaultName, fault, VaultNameTaken(old(c.entries), t.rows, t.nextId, workspaceId, name, now))
            && (fault.Some? ==> c.entries == old(c.entries))
            && (fault.None? ==> c.entries == VaultCache.EntriesAfterGetByWorkspace(old(c.entries), t.rows, t.nextId, workspaceId, now, cfg.ttlMs))
  {
    var fault := StaticFault(name, cfg.vaultNames);
    if fault.Some? {
      return Refused(ReasonCode(VaultName, fault.value));
    }
    var existing := Vaults.GetVault(c, t, workspaceId, name.value, now, cfg);
    if existing.Some? {
      return Refused(ReasonCode(VaultName, Taken));
    }
    res := Ok;
  }

  /** `createVault`: whenever the name is valid the vault is created and the answer is a success. */
  method CreateVault(c: MemoryCache, t: VaultTable, workspaceId: int, name: Option<string>, desc: Option<string>,
                     now: int, cfg: Config)
    returns (res: Reply)
    requires t.Valid()
    modifies c, t
    ensures t.Valid()
    ensures res == Verdict(VaultName, StaticFault(name, cfg.vaultNames),
                           VaultNameTaken(old(c.entries), old(t.rows), old(t.nextId), workspaceId, name, now))
    ensures res.success ==> t.rows == old(t.rows)[old(t.nextId) := Vault(old(t.nextId), name.value, desc, workspaceId, 0, now, now)]
                            && t.nextId == old(t.nextId) + 1
    ensures !res.success ==> t.rows == old(t.rows) && t.nextId == old(t.nextId)
    ensures StaticFault(name, cfg.vaultNames).Some? ==> c.entries == old(c.entries)
    ensures StaticFault(name, cfg.vaultNames).None? && !res.success ==>
              c.entries == VaultCache.EntriesAfterGetByWorkspace(old(c.entries), old(t.rows), old(t.nextId), workspaceId, now, cfg.ttlMs)
    ensures res.success ==>
              c.entries == VaultCache.EntriesAfterGetByWorkspace(old(c.entries), old(t.rows), old(t.nextId), workspaceId, now, cfg.ttlMs)
                           - {VaultCache.WorkspaceKey(workspaceId)}
  {
    res := ValidateVaultName(c, t, name, workspaceId, now, cfg);
    if !res.success {
      return;
    }
    var _ := Vaults.Create(c, t, workspaceId, name.value, desc, now);
  }

  // ---------------------------------------------------------------------------
  // Rule wrappers.

  /** `createAutoPickup`: the per-player lists are dropped only when a rule was created. */
  method CreateAutoPickup(svc: AutoPickupService.RuleVaultCache, c: MemoryCache, t: RuleTable, vaultId: int,
                          kind: AutoPickupType, value: string, now: int, cfg: Config)
    returns (res: Reply)
    requires t.Valid()
    modifies svc, c, t
    ensures t.Valid()
    ensures res == AutoPickups.CreateReply(AutoPickupCache.Served(old(c.entries), old(t.rows), old(t.nextId), vaultId, now),
                                           kind, value)
    ensures res.success ==> t.rows == old(t.rows)[old(t.nextId) := AutoPickup(old(t.nextId), kind, value, vaultId, now, now)]
                            && t.nextId == old(t.nextId) + 1
                            && c.entries == old(c.entries) - {AutoPickupCache.Key(vaultId)}
    ensures !res.success ==> t.rows == old(t.rows) && t.nextId == old(t.nextId)
    ensures !res.success && IsBlank(value) ==> c.entries == old(c.entries)
    ensures !res.success && NotBlank(value) ==>
              c.entries == AutoPickupCache.EntriesAfterGet(old(c.entries), old(t.rows), old(t.nextId), vaultId, now, cfg.ttlMs)
    ensures svc.byPlayer == if res.success then map[] else old(svc.byPlayer)
  {
    res := AutoPickups.Create(c, t, vaultId, kind, value, now, cfg);
    if res.success {
      svc.InvalidateAllCache();
    }
  }

  /** `deleteAutoPickup`: the delete always succeeds, so the lists are always dropped. */
  method DeleteAutoPickup(svc: AutoPickupService.RuleVaultCache, c: MemoryCache, t: RuleTable, rule: AutoPickup)
    returns (ok: bool)
    requires t.Valid()
    modifies svc, c, t
    ensures t.Valid()
    ensures ok && t.rows == old(t.rows) - {rule.id} && t.nextId == old(t.nextId)
    ensures c.entries == old(c.entries) - {AutoPickupCache.Key(rule.vaultId)}
    ensures svc.byPlayer == map[]
  {
    ok := AutoPickups.DeleteRule(c, t, rule);
    if ok {
      svc.InvalidateAllCache();
    }
  }

  /** `clearAutoPickups`: the lists are dropped only when at least one rule existed. */
  method ClearAutoPickups(svc: AutoPickupService.RuleVaultCache, c: MemoryCache, t: RuleTable, vaultId: int,
                          now: int, cfg: Config)
    returns (count: nat)
    requires t.Valid()
    modifies svc, c, t
    ensures t.Valid()
    ensures count == |AutoPickupCache.Served(old(c.entries), old(t.rows), old(t.nextId), vaultId, now)|
    ensures t.rows == DeleteWhere(old(t.rows), (r: AutoPickup) => r.vaultId == vaultId) && t.nextId == old(t.nextId)
    ensures c.entries == old(c.entries) - {AutoPickupCache.Key(vaultId)}
    ensures svc.byPlayer == if count > 0 then map[] else old(svc.byPlayer)
  {
    count := AutoPickups.Clear(c, t, vaultId, now, cfg);
    if count > 0 {
      svc.InvalidateAllCache();
    }
  }

  /** `updateAutoPickup`: the lists are dropped only when the new value was accepted. */
  method UpdateAutoPickup(svc: AutoPickupService.RuleVaultCache, c: MemoryCache, t: RuleTable, rule: AutoPickup,
                          newValue: string, now: int)
    returns (res: Reply, rule': AutoPickup)
    requires t.Valid()
    modifies svc, c, t
    ensures t.Valid()
    ensures res.success <==> NotBlank(newValue)
    ensures t.nextId == old(t.nextId)
    ensures !res.success ==> res == Refused("auto_pickup_value_empty") && rule' == rule
                             && t.rows == old(t.rows) && c.entries == old(c.entries)
    ensures res.success ==> rule' == rule.(value := newValue, updatedAt := now)
                            && t.rows == (if rule.id in old(t.rows)
                                          then old(t.rows)[rule.id := old(t.rows)[rule.id].(value := newValue, updatedAt := now)]
                                          else old(t.rows))
                            && c.entries == old(c.entries) - {AutoPickupCache.Key(rule.vaultId)}
    ensures svc.byPlayer == if res.success then map[] else old(svc.byPlayer)
  {
    res, rule' := AutoPickups.UpdateValue(c, t, rule, newValue, now);
    if res.success {
      svc.InvalidateAllCache();
    }
  }

  // ---------------------------------------------------------------------------
  // Properties.

  /**
   * A valid name refused by this chain is refused for exactly one reason: the
   * first test it fails. In particular a name with a space is `Invalid` even
   * when it is also blacklisted or too long.
   */
  lemma FirstFailureWins(n: string, rules: NameRules)
    ensures ' ' in n ==> StaticFault(Some(n), rules) == Some(Invalid)
    ensures ' ' !in n && rules.allowColor && HasColorMarker(n) ==> StaticFault(Some(n), rules) == Some(Colored)
    ensures ' ' !in n && !(rules.allowColor && HasColorMarker(n)) && n in rules.blacklist ==>
              StaticFault(Some(n), rules) == Some(Blacklisted)
    ensures StaticFault(Some(n), rules) != Some(Taken)
  {
    assert StaticChecks[0] == Invalid && StaticChecks[1] == Colored && StaticChecks[2] == Blacklisted;
  }

  /**
   * A workspace name is accepted exactly when it has no space, no color
   * marker while the option is on, is not blacklisted, has an allowed
   * length, and the owner has no workspace of that name.
   */
  lemma AcceptedWorkspaceName(rows: map<int, Workspace>, n: nat, owner: Uuid, name: string, rules: NameRules)
    ensures Verdict(WorkspaceName, StaticFault(Some(name), rules), WorkspaceNameTaken(rows, n, owner, Some(name))).success
            <==> && ' ' !in name
                 && !(rules.allowColor && HasColorMarker(name))
                 && name !in rules.blacklist
                 && rules.minLength <= |name| <= rules.maxLength
                 && !exists k | 0 <= k < n && k in rows :: rows[k].name == name && Contains(rows[k].members, owner)
  {
    assert StaticChecks[0] == Invalid && StaticChecks[1] == Colored;
    assert StaticChecks[2] == Blacklisted && StaticChecks[3] == BadLength;
    var p := Workspaces.NamedFor(owner, name);
    var found := Workspaces.LoadNamed(rows, n, owner, name);
    if found.Some? {
      var w := found.value;
      assert w in Rows(rows, n, p);
      RowsSound(rows, n, p, w);
    } else {
      forall k | 0 <= k < n && k in rows && rows[k].name == name && Contains(rows[k].members, owner)
        ensures false
      {
        RowsComplete(rows, n, p, k);
      }
    }
  }
}
