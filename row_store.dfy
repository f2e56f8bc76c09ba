/**
 * The relational store under the caches: one class per table, each with its
 * own auto-increment counter. A table is a map from row id to record (the
 * quota table is keyed by its unique `player` column). A `select ... where`
 * is read back in id order, the order an auto-increment table returns rows in.
 */
module RowStore {
  import opened Wrappers
  import opened Records
  import opened Seqs

  /** The rows of `m` with an id below `n` that satisfy `p`, in id order. */
  function Rows<V(!new)>(m: map<int, V>, n: nat, p: V -> bool): (r: seq<V>)
    ensures forall v | v in r :: p(v)
    decreases n
  {
    if n == 0 then [] else Rows(m, n - 1, p) + (if n - 1 in m && p(m[n - 1]) then [m[n - 1]] else [])
  }

  lemma {:induction false} RowsComplete<V(!new)>(m: map<int, V>, n: nat, p: V -> bool, k: int)
    requires 0 <= k < n && k in m && p(m[k])
    ensures m[k] in Rows(m, n, p)
    decreases n
  {
    if k < n - 1 {
      RowsComplete(m, n - 1, p, k);
    }
  }

  lemma {:induction false} RowsSound<V(!new)>(m: map<int, V>, n: nat, p: V -> bool, v: V)
    requires v in Rows(m, n, p)
    ensures exists k :: 0 <= k < n && k in m && m[k] == v
    decreases n
  {
    if v !in Rows(m, n - 1, p) {
      assert n - 1 in m && m[n - 1] == v;
    } else {
      RowsSound(m, n - 1, p, v);
    }
  }

  /** In a table whose rows carry their own id, a selection lists strictly increasing ids below `n`. */
  lemma {:induction false} RowsIncreasing<V(!new)>(m: map<int, V>, n: nat, p: V -> bool, id: V -> int)
    requires forall k | k in m :: id(m[k]) == k
    ensures forall i | 0 <= i < |Rows(m, n, p)| :: 0 <= id(Rows(m, n, p)[i]) < n
    ensures forall i, j | 0 <= i < j < |Rows(m, n, p)| :: id(Rows(m, n, p)[i]) < id(Rows(m, n, p)[j])
    decreases n
  {
    if n > 0 {
      RowsIncreasing(m, n - 1, p, id);
    }
  }

  /** Filtering a selection is selecting with the conjunction. */
  lemma {:induction false} RowsFilter<V(!new)>(m: map<int, V>, n: nat, p: V -> bool, q: V -> bool, h: V -> bool)
    requires forall k | k in m :: h(m[k]) == (p(m[k]) && q(m[k]))
    ensures Filter(Rows(m, n, p), q) == Rows(m, n, h)
    decreases n
  {
    if n > 0 {
      RowsFilter(m, n - 1, p, q, h);
      var init := Rows(m, n - 1, p);
      var last := if n - 1 in m && p(m[n - 1]) then [m[n - 1]] else [];
      assert Rows(m, n, p) == init + last;
      FilterConcat(init, last, q);
      assert Filter(last, q) == if n - 1 in m && h(m[n - 1]) then [m[n - 1]] else [];
    }
  }

  /** Selections whose conditions agree on every row are the same. */
  lemma {:induction false} RowsAgree<V(!new)>(m: map<int, V>, n: nat, p: V -> bool, q: V -> bool)
    requires forall k | k in m :: p(m[k]) == q(m[k])
    ensures Rows(m, n, p) == Rows(m, n, q)
    decreases n
  {
    if n > 0 {
      RowsAgree(m, n - 1, p, q);
    }
  }

  /** A selection below `n` sees only the rows with ids below `n`. */
  lemma {:induction false} RowsBelow<V(!new)>(m1: map<int, V>, m2: map<int, V>, n: nat, p: V -> bool)
    requires forall k | 0 <= k < n :: (k in m1 <==> k in m2) && (k in m1 ==> m1[k] == m2[k])
    ensures Rows(m1, n, p) == Rows(m2, n, p)
    decreases n
  {
    if n > 0 {
      RowsBelow(m1, m2, n - 1, p);
    }
  }

  /** Selecting after `delete ... where q` is selecting with `q` excluded. */
  lemma {:induction false} RowsAfterDelete<V(!new)>(m: map<int, V>, n: nat, p: V -> bool, q: V -> bool, h: V -> bool)
    requires forall k | k in m :: h(m[k]) == (p(m[k]) && !q(m[k]))
    ensures Rows(DeleteWhere(m, q), n, p) == Rows(m, n, h)
    decreases n
  {
    if n > 0 {
      RowsAfterDelete(m, n - 1, p, q, h);
    }
  }

  /** The first matching row in id order, as `firstOrNull` reads it. */
  function FirstRow<V(!new)>(m: map<int, V>, n: nat, p: V -> bool): (r: Option<V>)
    ensures r.Some? <==> Rows(m, n, p) != []
    ensures r.Some? ==> r.value == Rows(m, n, p)[0]
  {
    var rows := Rows(m, n, p);
    if rows == [] then None else Some(rows[0])
  }

  /** `delete ... where p`: every row satisfying `p` goes. */
  function DeleteWhere<V(!new)>(m: map<int, V>, p: V -> bool): (r: map<int, V>)
    ensures forall k :: k in r <==> k in m && !p(m[k])
    ensures forall k | k in r :: r[k] == m[k]
  {
    map k | k in m && !p(m[k]) :: m[k]
  }

  /** The settings after `update set value, updated_at where p`. */
  function Rewritten(m: map<int, Setting>, p: Setting -> bool, value: string, updatedAt: int): (r: map<int, Setting>)
    ensures r.Keys == m.Keys
    ensures forall k | k in r :: r[k] == if p(m[k]) then m[k].(value := value, updatedAt := updatedAt) else m[k]
  {
    map k | k in m :: if p(m[k]) then m[k].(value := value, updatedAt := updatedAt) else m[k]
  }

  /** The columns an `update quota set ...` writes; `None` leaves a column as it is. */
  datatype QuotaSet = QuotaSet(
    workspaceQuotas: Option<int>,
    workspaceUsed: Option<int>,
    sizeQuotas: Option<int>,
    sizeUsed: Option<int>,
    unlimited: Option<bool>)

  /** The extra condition of an `update ... where player = u and ...`. */
  datatype Guard = Always | WorkspaceUsedIs(workspaceUsed: int) | SizeUsedIs(sizeUsed: int)

  predicate Holds(g: Guard, q: Quota)
  {
    match g
    case Always => true
    case WorkspaceUsedIs(n) => q.workspaceUsed == n
    case SizeUsedIs(n) => q.sizeUsed == n
  }

  /** A row with the columns of `s` written. */
  function Assign(q: Quota, s: QuotaSet): (r: Quota)
    ensures r.id == q.id && r.player == q.player
    ensures r.workspaceQuotas == (if s.workspaceQuotas.Some? then s.workspaceQuotas.value else q.workspaceQuotas)
    ensures r.workspaceUsed == (if s.workspaceUsed.Some? then s.workspaceUsed.value else q.workspaceUsed)
    ensures r.sizeQuotas == (if s.sizeQuotas.Some? then s.sizeQuotas.value else q.sizeQuotas)
    ensures r.sizeUsed == (if s.sizeUsed.Some? then s.sizeUsed.value else q.sizeUsed)
    ensures r.unlimited == (if s.unlimited.Some? then s.unlimited.value else q.unlimited)
  {
    q.(workspaceQuotas := if s.workspaceQuotas.Some? then s.workspaceQuotas.value else q.workspaceQuotas,
       workspaceUsed := if s.workspaceUsed.Some? then s.workspaceUsed.value else q.workspaceUsed,
       sizeQuotas := if s.sizeQuotas.Some? then s.sizeQuotas.value else q.sizeQuotas,
       sizeUsed := if s.sizeUsed.Some? then s.sizeUsed.value else q.sizeUsed,
       unlimited := if s.unlimited.Some? then s.unlimited.value else q.unlimited)
  }

  /** Whether `update ... where player = u and g` matches the row of `u`. */
  predicate Matches(rows: map<Uuid, Quota>, u: Uuid, g: Guard)
  {
    u in rows && Holds(g, rows[u])
  }

  /** The quota rows after `update set s where player = u and g`: the one matching row is rewritten. */
  function Written(rows: map<Uuid, Quota>, u: Uuid, s: QuotaSet, g: Guard): (r: map<Uuid, Quota>)
    ensures r.Keys == rows.Keys
    ensures forall k | k in rows && k != u :: r[k] == rows[k]
    ensures u in rows ==> r[u] == if Holds(g, rows[u]) then Assign(rows[u], s) else rows[u]
  {
    if Matches(rows, u, g) then rows[u := Assign(rows[u], s)] else rows
  }

  class QuotaTable {
    var rows: map<Uuid, Quota>
    var nextId: int

    /** `player` is a unique key. */
    predicate Valid()
      reads this
    {
      forall u | u in rows :: rows[u].player == u
    }

    constructor()
      ensures Valid() && rows == map[] && nextId == 1
    {
      rows := map[];
      nextId := 1;
    }

    /** `insert`: the row gets the next auto-increment id. */
    method Insert(q: Quota)
      requires Valid() && q.player !in rows
      modifies this
      ensures Valid()
      ensures rows == old(rows)[q.player := q.(id := old(nextId))] && nextId == old(nextId) + 1
    {
      rows := rows[q.player := q.(id := nextId)];
      nextId := nextId + 1;
    }

    /** `update set s where player = u and g`, answering the number of rows it changed. */
    method Update(u: Uuid, s: QuotaSet, g: Guard) returns (count: nat)
      requires Valid()
      modifies this
      ensures Valid() && nextId == old(nextId)
      ensures count == if Matches(old(rows), u, g) then 1 else 0
      ensures rows == Written(old(rows), u, s, g)
    {
      if u in rows && Holds(g, rows[u]) {
        rows := rows[u := Assign(rows[u], s)];
        count := 1;
      } else {
        count := 0;
      }
    }
  }

  class WorkspaceTable {
    var rows: map<int, Workspace>
    var nextId: nat

    predicate Valid()
      reads this
    {
      forall k | k in rows :: 0 <= k < nextId && rows[k].id == k
    }

    constructor()
      ensures Valid() && rows == map[] && nextId == 1
    {
      rows := map[];
      nextId := 1;
    }

    method Insert(w: Workspace) returns (id: int)
      requires Valid()
      modifies this
      ensures Valid() && id == old(nextId) && id !in old(rows)
      ensures rows == old(rows)[id := w.(id := id)] && nextId == old(nextId) + 1
    {
      id := nextId;
      rows := rows[id := w.(id := id)];
      nextId := nextId + 1;
    }

    /** `update set members, updated_at where id = k`. */
    method SetMembers(k: int, members: string, updatedAt: int)
      requires Valid()
      modifies this
      ensures Valid() && nextId == old(nextId)
      ensures rows == if k in old(rows) then old(rows)[k := old(rows)[k].(members := members, updatedAt := updatedAt)] else old(rows)
    {
      if k in rows {
        rows := rows[k := rows[k].(members := members, updatedAt := updatedAt)];
      }
    }

    /** `delete ... where id = k`. */
    method Delete(k: int)
      requires Valid()
      modifies this
      ensures Valid() && nextId == old(nextId)
      ensures rows == old(rows) - {k}
    {
      rows := rows - {k};
    }
  }

  class VaultTable {
    var rows: map<int, Vault>
    var nextId: nat

    predicate Valid()
      reads this
    {
      forall k | k in rows :: 0 <= k < nextId && rows[k].id == k
    }

    constructor()
      ensures Valid() && rows == map[] && nextId == 1
    {
      rows := map[];
      nextId := 1;
    }

    method Insert(v: Vault) returns (id: int)
      requires Valid()
      modifies this
      ensures Valid() && id == old(nextId) && id !in old(rows)
      ensures rows == old(rows)[id := v.(id := id)] && nextId == old(nextId) + 1
    {
      id := nextId;
      rows := rows[id := v.(id := id)];
      nextId := nextId + 1;
    }

    /** `update set size, updated_at where id = k`. */
    method SetSize(k: int, size: int, updatedAt: int)
      requires Valid()
      modifies this
      ensures Valid() && nextId == old(nextId)
      ensures rows == if k in old(rows) then old(rows)[k := old(rows)[k].(size := size, updatedAt := updatedAt)] else old(rows)
    {
      if k in rows {
        rows := rows[k := rows[k].(size := size, updatedAt := updatedAt)];
      }
    }

    /** `delete ... where id = k`. */
    method Delete(k: int)
      requires Valid()
      modifies this
      ensures Valid() && nextId == old(nextId)
      ensures rows == old(rows) - {k}
    {
      rows := rows - {k};
    }
  }

  class ItemTable {
    var rows: map<int, Item>
    var nextId: nat

    predicate Valid()
      reads this
    {
      forall k | k in rows :: 0 <= k < nextId && rows[k].id == k
    }

    constructor()
      ensures Valid() && rows == map[] && nextId == 1
    {
      rows := map[];
      nextId := 1;
    }

    method Insert(it: Item) returns (id: int)
      requires Valid()
      modifies this
      ensures Valid() && id == old(nextId) && id !in old(rows)
      ensures rows == old(rows)[id := it.(id := id)] && nextId == old(nextId) + 1
    {
      id := nextId;
      rows := rows[id := it.(id := id)];
      nextId := nextId + 1;
    }

    /** `delete ... where p`. */
    method DeleteAll(p: Item -> bool)
      requires Valid()
      modifies this
      ensures Valid() && nextId == old(nextId)
      ensures rows == DeleteWhere(old(rows), p)
    {
      rows := DeleteWhere(rows, p);
    }
  }

  class SettingTable {
    var rows: map<int, Setting>
    var nextId: nat

    predicate Valid()
      reads this
    {
      forall k | k in rows :: 0 <= k < nextId && rows[k].id == k
    }

    constructor()
      ensures Valid() && rows == map[] && nextId == 1
    {
      rows := map[];
      nextId := 1;
    }

    method Insert(s: Setting) returns (id: int)
      requires Valid()
      modifies this
      ensures Valid() && id == old(nextId) && id !in old(rows)
      ensures rows == old(rows)[id := s.(id := id)] && nextId == old(nextId) + 1
    {
      id := nextId;
      rows := rows[id := s.(id := id)];
      nextId := nextId + 1;
    }

    /** `delete ... where p`. */
    method DeleteAll(p: Setting -> bool)
      requires Valid()
      modifies this
      ensures Valid() && nextId == old(nextId)
      ensures rows == DeleteWhere(old(rows), p)
    {
      rows := DeleteWhere(rows, p);
    }

    /** `update set value, updated_at where p`: every matching row is rewritten. */
    method SetValueWhere(p: Setting -> bool, value: string, updatedAt: int)
      requires Valid()
      modifies this
      ensures Valid() && nextId == old(nextId)
      ensures rows == Rewritten(old(rows), p, value, updatedAt)
    {
      rows := Rewritten(rows, p, value, updatedAt);
    }
  }

  class RuleTable {
    var rows: map<int, AutoPickup>
    var nextId: nat

    predicate Valid()
      reads this
    {
      forall k | k in rows :: 0 <= k < nextId && rows[k].id == k
    }

    constructor()
      ensures Valid() && rows == map[] && nextId == 1
    {
      rows := map[];
      nextId := 1;
    }

    method Insert(r: AutoPickup) returns (id: int)
      requires Valid()
      modifies this
      ensures Valid() && id == old(nextId) && id !in old(rows)
      ensures rows == old(rows)[id := r.(id := id)] && nextId == old(nextId) + 1
    {
      id := nextId;
      rows := rows[id := r.(id := id)];
      nextId := nextId + 1;
    }

    /** `delete ... where p`. */
    method DeleteAll(p: AutoPickup -> bool)
      requires Valid()
      modifies this
      ensures Valid() && nextId == old(nextId)
      ensures rows == DeleteWhere(old(rows), p)
    {
      rows := DeleteWhere(rows, p);
    }

    /** `delete ... where id = k`. */
    method Delete(k: int)
      requires Valid()
      modifies this
      ensures Valid() && nextId == old(nextId)
      ensures rows == old(rows) - {k}
    {
      rows := rows - {k};
    }

    /** `update set value, updated_at where id = k`. */
    method SetValue(k: int, value: string, updatedAt: int)
      requires Valid()
      modifies this
      ensures Valid() && nextId == old(nextId)
      ensures rows == if k in old(rows) then old(rows)[k := old(rows)[k].(value := value, updatedAt := updatedAt)] else old(rows)
    {
      if k in rows {
        rows := rows[k := rows[k].(value := value, updatedAt := updatedAt)];
      }
    }
  }

  /** The six tables of the plugin's schema. */
  class Database {
    const quotas: QuotaTable
    const workspaces: WorkspaceTable
    const vaults: VaultTable
    const items: ItemTable
    const settings: SettingTable
    const rules: RuleTable

    predicate Valid()
      reads quotas, workspaces, vaults, items, settings, rules
    {
      quotas.Valid() && workspaces.Valid() && vaults.Valid()
      && items.Valid() && settings.Valid() && rules.Valid()
    }

    constructor()
      ensures Valid()
      ensures fresh(quotas) && fresh(workspaces) && fresh(vaults)
      ensures fresh(items) && fresh(settings) && fresh(rules)
      ensures quotas.rows == map[] && workspaces.rows == map[] && vaults.rows == map[]
      ensures items.rows == map[] && settings.rows == map[] && rules.rows == map[]
    {
      quotas := new QuotaTable();
      workspaces := new WorkspaceTable();
      vaults := new VaultTable();
      items := new ItemTable();
      settings := new SettingTable();
      rules := new RuleTable();
    }
  }
}
