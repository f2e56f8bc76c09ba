/**
 * The quota operators of the `Quota` model: set, raise and lower a player's
 * workspace and size limits, toggle the unlimited flag, and reset to the
 * configured defaults. Each operator reads the player's quota through the
 * quota cache (`getUser`), rewrites one column of the row and stores the
 * changed quota back in the cache.
 */
module Quotas {
  import opened Wrappers
  import opened Records
  import opened MemoryCacheProvider
  import opened RowStore
  import opened PluginConfig
  import QuotaCache
  import Int32

  /** One operator call and its argument. */
  datatype QuotaOp =
    | SetWorkspaceQuota(quota: int)
    | AddWorkspaceQuota(amount: int)
    | RemoveWorkspaceQuota(amount: int)
    | SetSizeQuota(quota: int)
    | AddSizeQuota(amount: int)
    | RemoveSizeQuota(amount: int)
    | SetUnlimited(unlimited: bool)

  /** The argument check every operator makes before it reads the quota. */
  predicate Admissible(op: QuotaOp)
  {
    match op
    case SetWorkspaceQuota(n) => n >= 0
    case SetSizeQuota(n) => n >= 0
    case AddWorkspaceQuota(a) => a > 0
    case AddSizeQuota(a) => a > 0
    case RemoveWorkspaceQuota(a) => a > 0
    case RemoveSizeQuota(a) => a > 0
    case SetUnlimited(_) => true
  }

  /** Whether `op` writes the workspace limit, the size limit or the flag. */
  predicate OnWorkspace(op: QuotaOp)
  {
    op.SetWorkspaceQuota? || op.AddWorkspaceQuota? || op.RemoveWorkspaceQuota?
  }

  predicate OnSize(op: QuotaOp)
  {
    op.SetSizeQuota? || op.AddSizeQuota? || op.RemoveSizeQuota?
  }

  /**
   * The quota an operator produces from the one it read, or `None` when it
   * answers false. Raised and lowered limits are `Int` sums, so they wrap
   * around. No operator touches a used counter, and a lowered limit never
   * drops below what is in use.
   */
  function Apply(op: QuotaOp, q: Quota): (r: Option<Quota>)
    ensures !Admissible(op) ==> r.None?
    ensures r.Some? ==> r.value.id == q.id && r.value.player == q.player
    ensures r.Some? ==> r.value.workspaceUsed == q.workspaceUsed && r.value.sizeUsed == q.sizeUsed
    ensures r.Some? && !OnWorkspace(op) ==> r.value.workspaceQuotas == q.workspaceQuotas
    ensures r.Some? && !OnSize(op) ==> r.value.sizeQuotas == q.sizeQuotas
    ensures r.Some? && !op.SetUnlimited? ==> r.value.unlimited == q.unlimited
    ensures r.Some? && op.RemoveWorkspaceQuota? ==> r.value.workspaceUsed <= r.value.workspaceQuotas
    ensures r.Some? && op.RemoveSizeQuota? ==> r.value.sizeUsed <= r.value.sizeQuotas
    ensures op.SetUnlimited? ==> r == Some(q.(unlimited := op.unlimited))
  {
    if !Admissible(op) then None
    else match op
      case SetWorkspaceQuota(n) => Some(q.(workspaceQuotas := n))
      case AddWorkspaceQuota(a) => Some(q.(workspaceQuotas := Int32.Wrap(q.workspaceQuotas + a)))
      case RemoveWorkspaceQuota(a) =>
        if Int32.Wrap(q.workspaceQuotas - a) < q.workspaceUsed then None
        else Some(q.(workspaceQuotas := Int32.Wrap(q.workspaceQuotas - a)))
      case SetSizeQuota(n) => Some(q.(sizeQuotas := n))
      case AddSizeQuota(a) => Some(q.(sizeQuotas := Int32.Wrap(q.sizeQuotas + a)))
      case RemoveSizeQuota(a) =>
        if Int32.Wrap(q.sizeQuotas - a) < q.sizeUsed then None
        else Some(q.(sizeQuotas := Int32.Wrap(q.sizeQuotas - a)))
      case SetUnlimited(b) => Some(q.(unlimited := b))
  }

  /** The one column `update quota set ...` writes for `op`, holding the new quota's value. */
  function Columns(op: QuotaOp, r: Quota): QuotaSet
  {
    if OnWorkspace(op) then QuotaSet(Some(r.workspaceQuotas), None, None, None, None)
    else if OnSize(op) then QuotaSet(None, None, Some(r.sizeQuotas), None, None)
    else QuotaSet(None, None, None, None, Some(r.unlimited))
  }

  /** The columns `resetQuota` writes: the configured default limits and flag. */
  function ResetColumns(cfg: Config): QuotaSet
  {
    QuotaSet(Some(cfg.defaultWorkspaceQuota), None, Some(cfg.defaultSizeQuota), None, Some(cfg.defaultUnlimited))
  }

  /**
   * One of `setWorkspaceQuota`, `addWorkspaceQuota`, `removeWorkspaceQuota`,
   * `setSizeQuota`, `addSizeQuota`, `removeSizeQuota` and `setUnlimited`,
   * chosen by `op`. A rejected argument changes nothing; otherwise the quota
   * is read through the cache, and a successful operator writes its column
   * of the row and caches the new quota.
   */
  method Adjust(c: MemoryCache, t: QuotaTable, uuid: Uuid, op: QuotaOp, now: int, cfg: Config) returns (ok: bool)
    requires t.Valid()
    modifies c, t
    ensures t.Valid()
    ensures ok == Apply(op, QuotaCache.Read(old(c.entries), old(t.rows), uuid, now, cfg)).Some?
    ensures !Admissible(op) ==> c.entries == old(c.entries) && t.rows == old(t.rows) && t.nextId == old(t.nextId)
    ensures Admissible(op) ==> t.nextId == QuotaCache.NextAfterGet(old(c.entries), old(t.rows), old(t.nextId), uuid, now)
    ensures Admissible(op) && !ok ==>
      c.entries == QuotaCache.EntriesAfterGet(old(c.entries), old(t.rows), uuid, now, cfg) &&
      t.rows == QuotaCache.RowsAfterGet(old(c.entries), old(t.rows), old(t.nextId), uuid, now, cfg)
    ensures ok ==>
      var r := Apply(op, QuotaCache.Read(old(c.entries), old(t.rows), uuid, now, cfg)).value;
      c.entries == QuotaCache.EntriesAfterGet(old(c.entries), old(t.rows), uuid, now, cfg)[QuotaCache.Key(uuid) := CacheEntry(QuotaValue(r), ExpireAt(now, cfg.ttlMs))] &&
      t.rows == Written(QuotaCache.RowsAfterGet(old(c.entries), old(t.rows), old(t.nextId), uuid, now, cfg), uuid, Columns(op, r), Always)
  {
    if !Admissible(op) {
      return false;
    }
    var userData := QuotaCache.Get(c, t, uuid, now, cfg);
    var r := Apply(op, userData);
    if r.None? {
      return false;
    }
    var _ := t.Update(uuid, Columns(op, r.value), Always);
    QuotaCache.Update(c, uuid, r.value, now, cfg);
    ok := true;
  }

  /** `resetQuota`: the default limits and flag are written to the row, the used counters stay, and the cache entry goes. */
  method ResetQuota(c: MemoryCache, t: QuotaTable, uuid: Uuid, cfg: Config) returns (ok: bool)
    requires t.Valid()
    modifies c, t
    ensures t.Valid() && ok && t.nextId == old(t.nextId)
    ensures t.rows == Written(old(t.rows), uuid, ResetColumns(cfg), Always)
    ensures c.entries == old(c.entries) - {QuotaCache.Key(uuid)}
  {
    var _ := t.Update(uuid, ResetColumns(cfg), Always);
    QuotaCache.Invalidate(c, uuid);
    ok := true;
  }

  /** Writing an operator's column into the row it read gives exactly the quota it produced. */
  lemma ColumnsWriteResult(op: QuotaOp, q: Quota, row: Quota)
    requires Apply(op, q).Some? && QuotaCache.SameColumns(row, q)
    ensures QuotaCache.SameColumns(Assign(row, Columns(op, Apply(op, q).value)), Apply(op, q).value)
  {
  }

  /**
   * The cache and the table stay coherent across an operator: from a
   * coherent state, after `Adjust` the quota cached for the player agrees
   * with the player's row.
   */
  lemma AdjustKeepsCoherent(m: Entries, rows: map<Uuid, Quota>, nextId: int, uuid: Uuid, op: QuotaOp, now: int, cfg: Config)
    requires QuotaCache.Coherent(m, rows, uuid, now)
    requires Apply(op, QuotaCache.Read(m, rows, uuid, now, cfg)).Some?
    ensures
      var r := Apply(op, QuotaCache.Read(m, rows, uuid, now, cfg)).value;
      QuotaCache.Coherent(
        QuotaCache.EntriesAfterGet(m, rows, uuid, now, cfg)[QuotaCache.Key(uuid) := CacheEntry(QuotaValue(r), ExpireAt(now, cfg.ttlMs))],
        Written(QuotaCache.RowsAfterGet(m, rows, nextId, uuid, now, cfg), uuid, Columns(op, r), Always),
        uuid, now)
  {
    var q := QuotaCache.Read(m, rows, uuid, now, cfg);
    var r := Apply(op, q).value;
    var rows' := QuotaCache.RowsAfterGet(m, rows, nextId, uuid, now, cfg);
    QuotaCache.GetKeepsCoherent(m, rows, nextId, uuid, now, cfg);
    ColumnsWriteResult(op, q, rows'[uuid]);
    var m' := QuotaCache.EntriesAfterGet(m, rows, uuid, now, cfg)[QuotaCache.Key(uuid) := CacheEntry(QuotaValue(r), ExpireAt(now, cfg.ttlMs))];
    assert QuotaCache.Cached(m', uuid, now) == Some(r) by {
      assert !IsExpired(CacheEntry(QuotaValue(r), ExpireAt(now, cfg.ttlMs)), now);
    }
  }

  /** `resetQuota` keeps both used counters and the player of the row. */
  lemma ResetKeepsUsage(rows: map<Uuid, Quota>, uuid: Uuid, cfg: Config)
    requires uuid in rows
    ensures var r := Written(rows, uuid, ResetColumns(cfg), Always)[uuid];
      r.workspaceUsed == rows[uuid].workspaceUsed && r.sizeUsed == rows[uuid].sizeUsed &&
      r.workspaceQuotas == cfg.defaultWorkspaceQuota && r.sizeQuotas == cfg.defaultSizeQuota &&
      r.unlimited == cfg.defaultUnlimited
  {
  }

  /** The quota stays within its limits: used counters at most the limits. */
  predicate WithinLimits(q: Quota)
  {
    0 <= q.workspaceUsed <= q.workspaceQuotas && 0 <= q.sizeUsed <= q.sizeQuotas
  }

  /** Whether raising a limit by `op` stays within `Int` range. */
  predicate NoWrap(op: QuotaOp, q: Quota)
  {
    match op
    case AddWorkspaceQuota(a) => Int32.InRange(q.workspaceQuotas + a)
    case AddSizeQuota(a) => Int32.InRange(q.sizeQuotas + a)
    case _ => true
  }

  /**
   * Raising a limit without passing `Int` range, and lowering a limit, never
   * take a quota out of its limits; only the `set` operators can put a
   * limit below what is in use.
   */
  lemma AdjustKeepsWithinLimits(op: QuotaOp, q: Quota)
    requires WithinLimits(q) && Apply(op, q).Some?
    requires !op.SetWorkspaceQuota? && !op.SetSizeQuota? && NoWrap(op, q)
    ensures WithinLimits(Apply(op, q).value)
  {
  }

  /** `setSizeQuota` can leave the size in use above the limit. */
  lemma SetCanUndercut()
    ensures var q := Quota(1, "p", 1, 0, 10, 5, false);
      WithinLimits(q) && !WithinLimits(Apply(SetSizeQuota(1), q).value)
  {
  }

  /** A limit at the top of `Int` range, raised by one, wraps to the bottom and falls below what is in use. */
  lemma AddQuotaCanWrap()
    ensures var q := Quota(1, "p", 1, 0, Int32.Max, 5, false);
      WithinLimits(q) && Apply(AddSizeQuota(1), q) == Some(q.(sizeQuotas := Int32.Min))
      && !WithinLimits(Apply(AddSizeQuota(1), q).value)
  {
  }

  /** Lowering a limit by the amount just added restores the original quota. */
  lemma AddThenRemove(q: Quota, a: int)
    requires a > 0 && WithinLimits(q)
    requires Int32.InRange(q.workspaceQuotas + a) && Int32.InRange(q.sizeQuotas + a)
    ensures Apply(AddWorkspaceQuota(a), q).Some?
    ensures Apply(RemoveWorkspaceQuota(a), Apply(AddWorkspaceQuota(a), q).value) == Some(q)
    ensures Apply(AddSizeQuota(a), q).Some?
    ensures Apply(RemoveSizeQuota(a), Apply(AddSizeQuota(a), q).value) == Some(q)
  {
  }

  /** Removing more than the headroom above what is in use is refused, and any smaller amount is allowed. */
  lemma RemoveRefusedExactly(q: Quota, a: int)
    requires Int32.InRange(a) && a > 0 && WithinLimits(q) && Int32.InRange(q.workspaceQuotas) && Int32.InRange(q.sizeQuotas)
    ensures Apply(RemoveSizeQuota(a), q).None? <==> a > q.sizeQuotas - q.sizeUsed
    ensures Apply(RemoveWorkspaceQuota(a), q).None? <==> a > q.workspaceQuotas - q.workspaceUsed
  {
  }

  /** Setting a limit twice is setting it once. */
  lemma SetIdempotent(op: QuotaOp, q: Quota)
    requires op.SetWorkspaceQuota? || op.SetSizeQuota? || op.SetUnlimited?
    requires Apply(op, q).Some?
    ensures Apply(op, Apply(op, q).value) == Apply(op, q)
  {
  }
}
