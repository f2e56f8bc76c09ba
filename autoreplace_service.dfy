/**
 * Automatic tool replacement: when a tool breaks, a tool of the same kind is
 * taken out of the player's vaults. The tool kinds are fixed groups of
 * materials, best first. The one-tick delay, the hand slot and the messages
 * are outside the model; the caller passes whether the player holds the
 * permission and whether each vault's workspace is independent.
 */
module AutoReplaceService {
  import opened Wrappers
  import opened Seqs
  import opened Records
  import opened RowStore
  import opened MemoryCacheProvider
  import opened PluginConfig
  import Items
  import WorkspaceCache
  import VaultCache

  // ---------------------------------------------------------------------------
  // The tool tables.

  // `toolGroups`, in declaration order; each group lists its materials from best to worst.

  const Pickaxe: seq<Material> := [NETHERITE_PICKAXE, DIAMOND_PICKAXE, IRON_PICKAXE, GOLDEN_PICKAXE, STONE_PICKAXE,
                                   WOODEN_PICKAXE]
  const Axe: seq<Material> := [NETHERITE_AXE, DIAMOND_AXE, IRON_AXE, GOLDEN_AXE, STONE_AXE, WOODEN_AXE]
  const Shovel: seq<Material> := [NETHERITE_SHOVEL, DIAMOND_SHOVEL, IRON_SHOVEL, GOLDEN_SHOVEL, STONE_SHOVEL,
                                  WOODEN_SHOVEL]
  const Hoe: seq<Material> := [NETHERITE_HOE, DIAMOND_HOE, IRON_HOE, GOLDEN_HOE, STONE_HOE, WOODEN_HOE]
  const Sword: seq<Material> := [NETHERITE_SWORD, DIAMOND_SWORD, IRON_SWORD, GOLDEN_SWORD, STONE_SWORD, WOODEN_SWORD]
  const Helmet: seq<Material> := [NETHERITE_HELMET, DIAMOND_HELMET, IRON_HELMET, GOLDEN_HELMET, CHAINMAIL_HELMET,
                                  LEATHER_HELMET, TURTLE_HELMET]
  const Chestplate: seq<Material> := [NETHERITE_CHESTPLATE, DIAMOND_CHESTPLATE, IRON_CHESTPLATE, GOLDEN_CHESTPLATE,
                                      CHAINMAIL_CHESTPLATE, LEATHER_CHESTPLATE, ELYTRA]
  const Leggings: seq<Material> := [NETHERITE_LEGGINGS, DIAMOND_LEGGINGS, IRON_LEGGINGS, GOLDEN_LEGGINGS,
                                    CHAINMAIL_LEGGINGS, LEATHER_LEGGINGS]
  const Boots: seq<Material> := [NETHERITE_BOOTS, DIAMOND_BOOTS, IRON_BOOTS, GOLDEN_BOOTS, CHAINMAIL_BOOTS,
                                 LEATHER_BOOTS]
  const Bow: seq<Material> := [BOW]
  const Crossbow: seq<Material> := [CROSSBOW]
  const Trident: seq<Material> := [TRIDENT]
  const Shield: seq<Material> := [SHIELD]
  const FishingRod: seq<Material> := [FISHING_ROD]
  const Shears: seq<Material> := [SHEARS]
  const FlintAndSteel: seq<Material> := [FLINT_AND_STEEL]

  /** `toolGroups`. */
  const ToolGroups: seq<(string, seq<Material>)> := [
    ("pickaxe", Pickaxe),
    ("axe", Axe),
    ("shovel", Shovel),
    ("hoe", Hoe),
    ("sword", Sword),
    ("helmet", Helmet),
    ("chestplate", Chestplate),
    ("leggings", Leggings),
    ("boots", Boots),
    ("bow", Bow),
    ("crossbow", Crossbow),
    ("trident", Trident),
    ("shield", Shield),
    ("fishing_rod", FishingRod),
    ("shears", Shears),
    ("flint_and_steel", FlintAndSteel)
  ]

  /** The group a material is listed in, by position in the table; the table never lists a material twice. */
  function Kind(m: Material): Option<nat>
  {
    match m
    case NETHERITE_PICKAXE => Some(0) case DIAMOND_PICKAXE => Some(0) case IRON_PICKAXE => Some(0)
    case GOLDEN_PICKAXE => Some(0) case STONE_PICKAXE => Some(0) case WOODEN_PICKAXE => Some(0)
    case NETHERITE_AXE => Some(1) case DIAMOND_AXE => Some(1) case IRON_AXE => Some(1)
    case GOLDEN_AXE => Some(1) case STONE_AXE => Some(1) case WOODEN_AXE => Some(1)
    case NETHERITE_SHOVEL => Some(2) case DIAMOND_SHOVEL => Some(2) case IRON_SHOVEL => Some(2)
    case GOLDEN_SHOVEL => Some(2) case STONE_SHOVEL => Some(2) case WOODEN_SHOVEL => Some(2)
    case NETHERITE_HOE => Some(3) case DIAMOND_HOE => Some(3) case IRON_HOE => Some(3)
    case GOLDEN_HOE => Some(3) case STONE_HOE => Some(3) case WOODEN_HOE => Some(3)
    case NETHERITE_SWORD => Some(4) case DIAMOND_SWORD => Some(4) case IRON_SWORD => Some(4)
    case GOLDEN_SWORD => Some(4) case STONE_SWORD => Some(4) case WOODEN_SWORD => Some(4)
    case NETHERITE_HELMET => Some(5) case DIAMOND_HELMET => Some(5) case IRON_HELMET => Some(5)
    case GOLDEN_HELMET => Some(5) case CHAINMAIL_HELMET => Some(5) case LEATHER_HELMET => Some(5)
    case TURTLE_HELMET => Some(5)
    case NETHERITE_CHESTPLATE => Some(6) case DIAMOND_CHESTPLATE => Some(6) case IRON_CHESTPLATE => Some(6)
    case GOLDEN_CHESTPLATE => Some(6) case CHAINMAIL_CHESTPLATE => Some(6) case LEATHER_CHESTPLATE => Some(6)
    case ELYTRA => Some(6)
    case NETHERITE_LEGGINGS => Some(7) case DIAMOND_LEGGINGS => Some(7) case IRON_LEGGINGS => Some(7)
    case GOLDEN_LEGGINGS => Some(7) case CHAINMAIL_LEGGINGS => Some(7) case LEATHER_LEGGINGS => Some(7)
    case NETHERITE_BOOTS => Some(8) case DIAMOND_BOOTS => Some(8) case IRON_BOOTS => Some(8)
    case GOLDEN_BOOTS => Some(8) case CHAINMAIL_BOOTS => Some(8) case LEATHER_BOOTS => Some(8)
    case BOW => Some(9)
    case CROSSBOW => Some(10)
    case TRIDENT => Some(11)
    case SHIELD => Some(12)
    case FISHING_ROD => Some(13)
    case SHEARS => Some(14)
    case FLINT_AND_STEEL => Some(15)
    case Other(_) => None
  }

  // Each group lists materials of its own kind only.

  lemma PickaxeKind()
    ensures forall m | m in Pickaxe :: Kind(m) == Some(0)
  {
  }

  lemma AxeKind()
    ensures forall m | m in Axe :: Kind(m) == Some(1)
  {
  }

  lemma ShovelKind()
    ensures forall m | m in Shovel :: Kind(m) == Some(2)
  {
  }

  lemma HoeKind()
    ensures forall m | m in Hoe :: Kind(m) == Some(3)
  {
  }

  lemma SwordKind()
    ensures forall m | m in Sword :: Kind(m) == Some(4)
  {
  }

  lemma HelmetKind()
    ensures forall m | m in Helmet :: Kind(m) == Some(5)
  {
  }

  lemma ChestplateKind()
    ensures forall m | m in Chestplate :: Kind(m) == Some(6)
  {
  }

  lemma LeggingsKind()
    ensures forall m | m in Leggings :: Kind(m) == Some(7)
  {
  }

  lemma BootsKind()
    ensures forall m | m in Boots :: Kind(m) == Some(8)
  {
  }

  lemma BowKind()
    ensures forall m | m in Bow :: Kind(m) == Some(9)
  {
  }

  lemma CrossbowKind()
    ensures forall m | m in Crossbow :: Kind(m) == Some(10)
  {
  }

  lemma TridentKind()
    ensures forall m | m in Trident :: Kind(m) == Some(11)
  {
  }

  lemma ShieldKind()
    ensures forall m | m in Shield :: Kind(m) == Some(12)
  {
  }

  lemma FishingRodKind()
    ensures forall m | m in FishingRod :: Kind(m) == Some(13)
  {
  }

  lemma ShearsKind()
    ensures forall m | m in Shears :: Kind(m) == Some(14)
  {
  }

  lemma FlintAndSteelKind()
    ensures forall m | m in FlintAndSteel :: Kind(m) == Some(15)
  {
  }

  /** Every material listed in group `i` is of kind `i`. */
  lemma ListedKind(i: nat, k: nat)
    requires i < |ToolGroups| && k < |ToolGroups[i].1|
    ensures Kind(ToolGroups[i].1[k]) == Some(i)
  {
    var m := ToolGroups[i].1[k];
    assert m in ToolGroups[i].1;
    if i == 0 { PickaxeKind(); }
    else if i == 1 { AxeKind(); }
    else if i == 2 { ShovelKind(); }
    else if i == 3 { HoeKind(); }
    else if i == 4 { SwordKind(); }
    else if i == 5 { HelmetKind(); }
    else if i == 6 { ChestplateKind(); }
    else if i == 7 { LeggingsKind(); }
    else if i == 8 { BootsKind(); }
    else if i == 9 { BowKind(); }
    else if i == 10 { CrossbowKind(); }
    else if i == 11 { TridentKind(); }
    else if i == 12 { ShieldKind(); }
    else if i == 13 { FishingRodKind(); }
    else if i == 14 { ShearsKind(); }
    else if i == 15 { FlintAndSteelKind(); }
  }

  /** `toolMaterials`: the union of the groups. */
  const ToolMaterials: set<Material> := set i, m | 0 <= i < |ToolGroups| && m in ToolGroups[i].1 :: m

  function GroupEntries(g: seq<Material>): map<Material, seq<Material>>
  {
    map m | m in g :: g
  }

  /** `flatMap { group -> group.map { it to group } }.toMap()`: a later pair for the same material wins. */
  function GroupMap(gs: seq<(string, seq<Material>)>): map<Material, seq<Material>>
    decreases |gs|
  {
    if gs == [] then map[] else GroupMap(gs[..|gs| - 1]) + GroupEntries(gs[|gs| - 1].1)
  }

  /** `materialToGroup`. */
  const MaterialToGroup: map<Material, seq<Material>> := GroupMap(ToolGroups)

  predicate PairwiseDisjoint(gs: seq<(string, seq<Material>)>)
  {
    forall i, j, m | 0 <= i < j < |gs| && m in gs[i].1 :: m !in gs[j].1
  }

  /** No material is listed in two tool groups. */
  lemma ToolGroupsDisjoint()
    ensures PairwiseDisjoint(ToolGroups)
  {
    forall i, j, m | 0 <= i < j < |ToolGroups| && m in ToolGroups[i].1 ensures m !in ToolGroups[j].1 {
      var k :| 0 <= k < |ToolGroups[i].1| && ToolGroups[i].1[k] == m;
      ListedKind(i, k);
      if m in ToolGroups[j].1 {
        var l :| 0 <= l < |ToolGroups[j].1| && ToolGroups[j].1[l] == m;
        ListedKind(j, l);
      }
    }
  }

  /** With disjoint groups, the reverse map sends each listed material to the one group listing it. */
  lemma {:induction false} GroupMapFinds(gs: seq<(string, seq<Material>)>)
    requires PairwiseDisjoint(gs)
    ensures forall m :: m in GroupMap(gs) <==> exists i | 0 <= i < |gs| :: m in gs[i].1
    ensures forall i, m | 0 <= i < |gs| && m in gs[i].1 :: GroupMap(gs)[m] == gs[i].1
    decreases |gs|
  {
    if gs != [] {
      var init := gs[..|gs| - 1];
      assert forall i | 0 <= i < |init| :: init[i] == gs[i];
      GroupMapFinds(init);
      forall i, m | 0 <= i < |gs| && m in gs[i].1 ensures GroupMap(gs)[m] == gs[i].1 {
        if i < |gs| - 1 {
          assert m !in gs[|gs| - 1].1;
        }
      }
    }
  }

  /**
   * `materialToGroup` is defined exactly on `toolMaterials`, and maps each
   * tool material to the one group listing it.
   */
  lemma MaterialToGroupSpec()
    ensures MaterialToGroup.Keys == ToolMaterials
    ensures forall i, m | 0 <= i < |ToolGroups| && m in ToolGroups[i].1 :: MaterialToGroup[m] == ToolGroups[i].1
  {
    ToolGroupsDisjoint();
    GroupMapFinds(ToolGroups);
  }

  /** `materialToGroup[brokenMaterial]?.toSet() ?: setOf(brokenMaterial)`. */
  function ReplacementGroup(broken: Material): (r: set<Material>)
    ensures broken in r
    ensures broken !in ToolMaterials ==> r == {broken}
    ensures forall i | 0 <= i < |ToolGroups| && broken in ToolGroups[i].1 :: r == set x | x in ToolGroups[i].1
  {
    MaterialToGroupSpec();
    if broken in MaterialToGroup then set x | x in MaterialToGroup[broken] else {broken}
  }

  // ---------------------------------------------------------------------------
  // Replacing a broken tool.

  /** A stored item that could replace the tool, with the vault it is in. */
  datatype Candidate = Candidate(item: Item, vault: Vault)

  function InVault(items: seq<Item>, v: Vault): (r: seq<Candidate>)
    ensures |r| == |items| && forall k | 0 <= k < |items| :: r[k] == Candidate(items[k], v)
  {
    seq(|items|, k requires 0 <= k < |items| => Candidate(items[k], v))
  }

  /** `allItems`: vault by vault, each vault's matching items in the order they were read. */
  function AllCandidates(vaults: seq<Vault>, found: seq<seq<Item>>): seq<Candidate>
    requires |vaults| == |found|
    decreases |vaults|
  {
    if vaults == [] then []
    else AllCandidates(vaults[..|vaults| - 1], found[..|found| - 1]) + InVault(found[|found| - 1], vaults[|vaults| - 1])
  }

  /**
   * The first candidate comes from the first vault with matching items and is
   * that vault's item at the least (page, slot); with no matching items in any
   * vault there is none.
   */
  lemma {:induction false} FirstCandidate(vaults: seq<Vault>, found: seq<seq<Item>>)
    requires |vaults| == |found|
    requires forall i | 0 <= i < |found| :: Items.SortedByPosition(found[i])
    ensures AllCandidates(vaults, found) == [] <==> forall i | 0 <= i < |found| :: found[i] == []
    ensures AllCandidates(vaults, found) != [] ==>
              exists i | 0 <= i < |found| ::
                && found[i] != []
                && (forall j | 0 <= j < i :: found[j] == [])
                && AllCandidates(vaults, found)[0] == Candidate(found[i][0], vaults[i])
                && (forall x | x in found[i] :: Items.NotAfter(found[i][0], x))
    decreases |vaults|
  {
    if vaults != [] {
      var vs, fs := vaults[..|vaults| - 1], found[..|found| - 1];
      assert forall i | 0 <= i < |fs| :: fs[i] == found[i];
      FirstCandidate(vs, fs);
      var last := |found| - 1;
      if AllCandidates(vs, fs) == [] && found[last] != [] {
        forall x | x in found[last] ensures Items.NotAfter(found[last][0], x) {
          var k :| 0 <= k < |found[last]| && found[last][k] == x;
          if k > 0 {
            assert Items.NotAfter(found[last][0], found[last][k]);
          }
        }
        assert AllCandidates(vaults, found)[0] == Candidate(found[last][0], vaults[last]);
      }
    }
  }

  /** A vault's items of the group, read through the cache and sorted by position, as `getItemsByMaterials` answers. */
  function Matching(m: Entries, irows: map<int, Item>, inext: nat, v: Vault, group: set<Material>, player: Uuid,
                    isIndependent: bool, now: int): seq<Item>
  {
    Items.SortByPosition(Filter(Items.VaultRead(m, irows, inext, v.id, Some(player), isIndependent, now),
                                Items.MaterialFilter(group)))
  }

  /** The items found in each of `vs` in turn, each read seeing the cache the reads before it left. */
  function Scanned(m: Entries, irows: map<int, Item>, inext: nat, vs: seq<Vault>, group: set<Material>, player: Uuid,
                   independentOf: Vault -> bool, now: int, cfg: Config): (r: seq<seq<Item>>)
    ensures |r| == |vs|
    decreases |vs|
  {
    if vs == [] then []
    else
      var init, last := vs[..|vs| - 1], vs[|vs| - 1];
      Scanned(m, irows, inext, init, group, player, independentOf, now, cfg)
      + [Matching(ScannedEntries(m, irows, inext, init, player, independentOf, now, cfg), irows, inext, last, group,
                  player, independentOf(last), now)]
  }

  /** The cache once the items of each of `vs` have been read in turn. */
  function ScannedEntries(m: Entries, irows: map<int, Item>, inext: nat, vs: seq<Vault>, player: Uuid,
                          independentOf: Vault -> bool, now: int, cfg: Config): Entries
    decreases |vs|
  {
    if vs == [] then m
    else
      var init, last := vs[..|vs| - 1], vs[|vs| - 1];
      Items.EntriesAfterVaultRead(ScannedEntries(m, irows, inext, init, player, independentOf, now, cfg), irows, inext,
                                  last.id, Some(player), independentOf(last), now, cfg)
  }

  /** What the two loops of `tryReplaceItem` gather for a workspace list. */
  datatype Walk = Walk(vaults: seq<Vault>, found: seq<seq<Item>>, entries: Entries)

  /**
   * The two loops of `tryReplaceItem` over `ws`: for each workspace in turn
   * its vaults are read through the cache, then each vault's matching items.
   */
  function Walked(m: Entries, vrows: map<int, Vault>, vnext: nat, irows: map<int, Item>, inext: nat, ws: seq<Workspace>,
                  group: set<Material>, player: Uuid, independentOf: Vault -> bool, now: int, cfg: Config): (r: Walk)
    ensures |r.found| == |r.vaults|
    decreases |ws|
  {
    if ws == [] then Walk([], [], m)
    else
      var w := Walked(m, vrows, vnext, irows, inext, ws[..|ws| - 1], group, player, independentOf, now, cfg);
      var id := ws[|ws| - 1].id;
      var vs := VaultCache.ServedByWorkspace(w.entries, vrows, vnext, id, now);
      var m1 := VaultCache.EntriesAfterGetByWorkspace(w.entries, vrows, vnext, id, now, cfg.ttlMs);
      Walk(w.vaults + vs, w.found + Scanned(m1, irows, inext, vs, group, player, independentOf, now, cfg),
           ScannedEntries(m1, irows, inext, vs, player, independentOf, now, cfg))
  }

  /** The first of the gathered candidates, if any. */
  function FirstOf(w: Walk): Option<Candidate>
    requires |w.found| == |w.vaults|
  {
    var all := AllCandidates(w.vaults, w.found);
    if all == [] then None else Some(all[0])
  }

  /**
   * What `tryReplaceItem` does: the candidate it hands over, if any, and the
   * cache and item table it leaves.
   */
  function ReplaceOutcome(m: Entries, wrows: map<int, Workspace>, wnext: nat, vrows: map<int, Vault>, vnext: nat,
                          irows: map<int, Item>, inext: nat, player: Uuid, group: set<Material>,
                          independentOf: Vault -> bool, now: int, cfg: Config): (Option<Candidate>, Entries, map<int, Item>)
  {
    var joined := WorkspaceCache.ServedJoined(m, wrows, wnext, player, now);
    var m1 := WorkspaceCache.EntriesAfterGetJoined(m, wrows, wnext, player, now, cfg.ttlMs);
    if joined == [] then (None, m1, irows)
    else
      Handed(Walked(m1, vrows, vnext, irows, inext, joined, group, player, independentOf, now, cfg),
             irows, player, independentOf, now, cfg)
  }

  /** The first candidate of a walk, if any, removed from its slot: what is handed over and what is left. */
  function Handed(w: Walk, irows: map<int, Item>, player: Uuid, independentOf: Vault -> bool, now: int, cfg: Config)
    : (Option<Candidate>, Entries, map<int, Item>)
    requires |w.found| == |w.vaults|
  {
    match FirstOf(w)
    case None => (None, w.entries, irows)
    case Some(f) =>
      (Some(f),
       Items.EntriesAfterRemove(w.entries, f.vault.id, f.item.page, f.item.slot, Some(player), independentOf(f.vault),
                                now, cfg),
       Items.RowsAfterRemove(irows, f.vault.id, f.item.page, f.item.slot, Some(player), independentOf(f.vault)))
  }

  /**
   * `tryReplaceItem`: the player's joined workspaces are read (`joined`);
   * with none nothing more happens. Otherwise the vaults of each joined
   * workspace are read in order (`vaults`), and each vault's items of the
   * broken tool's group are read sorted by position (`found`). With no
   * candidate nothing is removed; otherwise the first candidate is removed
   * from its slot and handed to the player.
   */
  method TryReplaceItem(c: MemoryCache, db: Database, player: Uuid, broken: Material,
                        independentOf: Vault -> bool, now: int, cfg: Config)
    returns (replaced: Option<Candidate>, ghost joined: seq<Workspace>, ghost vaults: seq<Vault>,
             ghost found: seq<seq<Item>>)
    requires db.Valid()
    modifies c, db.items
    ensures db.Valid() && db.items.nextId == old(db.items.nextId)
    ensures joined == WorkspaceCache.ServedJoined(old(c.entries), db.workspaces.rows, db.workspaces.nextId, player, now)
    ensures joined == [] ==> vaults == [] && found == []
    ensures joined != [] ==>
              var m1 := WorkspaceCache.EntriesAfterGetJoined(old(c.entries), db.workspaces.rows, db.workspaces.nextId,
                                                             player, now, cfg.ttlMs);
              var w := Walked(m1, db.vaults.rows, db.vaults.nextId, old(db.items.rows), old(db.items.nextId), joined,
                              ReplacementGroup(broken), player, independentOf, now, cfg);
              vaults == w.vaults && found == w.found
    ensures |found| == |vaults|
    ensures forall i | 0 <= i < |found| ::
              Items.SortedByPosition(found[i])
              && forall x | x in found[i] :: x.stack.material in ReplacementGroup(broken)
    ensures replaced.None? <==> AllCandidates(vaults, found) == []
    ensures replaced.Some? ==> replaced.value == AllCandidates(vaults, found)[0]
    ensures (replaced, c.entries, db.items.rows)
         == ReplaceOutcome(old(c.entries), db.workspaces.rows, db.workspaces.nextId, db.vaults.rows, db.vaults.nextId,
                           old(db.items.rows), old(db.items.nextId), player, ReplacementGroup(broken),
                           independentOf, now, cfg)
  {
    replaced, joined, vaults, found := ReplaceWithin(c, db, player, ReplacementGroup(broken), independentOf, now, cfg);
  }

  /** `tryReplaceItem` once the tool group is known. */
  method ReplaceWithin(c: MemoryCache, db: Database, player: Uuid, group: set<Material>,
                       independentOf: Vault -> bool, now: int, cfg: Config)
    returns (replaced: Option<Candidate>, ghost joined: seq<Workspace>, ghost vaults: seq<Vault>,
             ghost found: seq<seq<Item>>)
    requires db.Valid()
    modifies c, db.items
    ensures db.Valid() && db.items.nextId == old(db.items.nextId)
    ensures joined == WorkspaceCache.ServedJoined(old(c.entries), db.workspaces.rows, db.workspaces.nextId, player, now)
    ensures joined == [] ==> vaults == [] && found == []
    ensures joined != [] ==>
              var m1 := WorkspaceCache.EntriesAfterGetJoined(old(c.entries), db.workspaces.rows, db.workspaces.nextId,
                                                             player, now, cfg.ttlMs);
              var w := Walked(m1, db.vaults.rows, db.vaults.nextId, old(db.items.rows), old(db.items.nextId), joined,
                              group, player, independentOf, now, cfg);
              vaults == w.vaults && found == w.found
    ensures |found| == |vaults|
    ensures forall i | 0 <= i < |found| ::
              Items.SortedByPosition(found[i])
              && forall x | x in found[i] :: x.stack.material in group
    ensures replaced.None? <==> AllCandidates(vaults, found) == []
    ensures replaced.Some? ==> replaced.value == AllCandidates(vaults, found)[0]
    ensures (replaced, c.entries, db.items.rows)
         == ReplaceOutcome(old(c.entries), db.workspaces.rows, db.workspaces.nextId, db.vaults.rows, db.vaults.nextId,
                           old(db.items.rows), old(db.items.nextId), player, group, independentOf, now, cfg)
  {
    replaced, vaults, found := None, [], [];
    var workspaces := WorkspaceCache.GetJoinedWorkspaces(c, db.workspaces, player, now, cfg);
    joined := workspaces;
    if |workspaces| == 0 {
      return;
    }
    ghost var m1 := c.entries;
    var vaultsSeen, foundSeen := WalkWorkspaces(c, db, workspaces, group, player, independentOf, now, cfg);
    vaults, found := vaultsSeen, foundSeen;
    WalkedSorted(m1, db.vaults.rows, db.vaults.nextId, db.items.rows, db.items.nextId, workspaces, group, player,
                 independentOf, now, cfg);
    replaced := HandOver(c, db.items, vaultsSeen, foundSeen, player, independentOf, now, cfg);
  }

  /** The end of `tryReplaceItem`: the first candidate, if any, is removed from its slot and returned. */
  method HandOver(c: MemoryCache, t: ItemTable, vaults: seq<Vault>, found: seq<seq<Item>>, player: Uuid,
                  independentOf: Vault -> bool, now: int, cfg: Config)
    returns (replaced: Option<Candidate>)
    requires |vaults| == |found|
    requires t.Valid()
    modifies c, t
    ensures t.Valid() && t.nextId == old(t.nextId)
    ensures (replaced, c.entries, t.rows)
         == Handed(Walk(vaults, found, old(c.entries)), old(t.rows), player, independentOf, now, cfg)
  {
    var all := AllCandidates(vaults, found);
    if |all| == 0 {
      return None;
    }
    var first := all[0];
    Items.RemoveItem(c, t, first.vault.id, first.item.page, first.item.slot, Some(player),
                     independentOf(first.vault), now, cfg);
    replaced := Some(first);
  }

  /** The outer loop of `tryReplaceItem`: each workspace's vaults, then their items of the group. */
  method WalkWorkspaces(c: MemoryCache, db: Database, ws: seq<Workspace>, group: set<Material>, player: Uuid,
                        independentOf: Vault -> bool, now: int, cfg: Config)
    returns (vaults: seq<Vault>, found: seq<seq<Item>>)
    modifies c
    ensures Walk(vaults, found, c.entries)
         == Walked(old(c.entries), db.vaults.rows, db.vaults.nextId, db.items.rows, db.items.nextId, ws, group, player,
                   independentOf, now, cfg)
  {
    ghost var start := c.entries;
    vaults, found := [], [];
    var i := 0;
    while i < |ws|
      invariant 0 <= i <= |ws|
      invariant Walk(vaults, found, c.entries)
             == Walked(start, db.vaults.rows, db.vaults.nextId, db.items.rows, db.items.nextId, ws[..i], group,
                       player, independentOf, now, cfg)
    {
      WalkedStep(start, db.vaults.rows, db.vaults.nextId, db.items.rows, db.items.nextId, ws, i, group, player,
                 independentOf, now, cfg);
      var vs := VaultCache.GetByWorkspace(c, db.vaults, ws[i].id, now, cfg);
      var fs := ScanVaults(c, db, vs, group, player, independentOf, now, cfg);
      vaults, found := vaults + vs, found + fs;
      i := i + 1;
    }
    assert ws[..i] == ws;
  }

  /** One more workspace extends a walk by its vaults and their scan. */
  lemma WalkedStep(m: Entries, vrows: map<int, Vault>, vnext: nat, irows: map<int, Item>, inext: nat,
                   ws: seq<Workspace>, i: nat, group: set<Material>, player: Uuid, independentOf: Vault -> bool,
                   now: int, cfg: Config)
    requires i < |ws|
    ensures var w := Walked(m, vrows, vnext, irows, inext, ws[..i], group, player, independentOf, now, cfg);
            var vs := VaultCache.ServedByWorkspace(w.entries, vrows, vnext, ws[i].id, now);
            var m1 := VaultCache.EntriesAfterGetByWorkspace(w.entries, vrows, vnext, ws[i].id, now, cfg.ttlMs);
            Walked(m, vrows, vnext, irows, inext, ws[..i + 1], group, player, independentOf, now, cfg)
            == Walk(w.vaults + vs, w.found + Scanned(m1, irows, inext, vs, group, player, independentOf, now, cfg),
                    ScannedEntries(m1, irows, inext, vs, player, independentOf, now, cfg))
  {
    assert ws[..i + 1][..i] == ws[..i];
    assert ws[..i + 1][i] == ws[i];
  }

  /** Every list a walk gathers is sorted by position and holds only items of the group. */
  lemma {:induction false} WalkedSorted(m: Entries, vrows: map<int, Vault>, vnext: nat, irows: map<int, Item>,
                                        inext: nat, ws: seq<Workspace>, group: set<Material>, player: Uuid,
                                        independentOf: Vault -> bool, now: int, cfg: Config)
    ensures var f := Walked(m, vrows, vnext, irows, inext, ws, group, player, independentOf, now, cfg).found;
            forall k | 0 <= k < |f| :: Items.SortedByPosition(f[k]) && forall x: Item | x in f[k] :: x.stack.material in group
    decreases |ws|
  {
    if ws != [] {
      var i := |ws| - 1;
      WalkedSorted(m, vrows, vnext, irows, inext, ws[..i], group, player, independentOf, now, cfg);
      WalkedStep(m, vrows, vnext, irows, inext, ws, i, group, player, independentOf, now, cfg);
      assert ws[..i + 1] == ws;
      var w := Walked(m, vrows, vnext, irows, inext, ws[..i], group, player, independentOf, now, cfg);
      var vs := VaultCache.ServedByWorkspace(w.entries, vrows, vnext, ws[i].id, now);
      var m1 := VaultCache.EntriesAfterGetByWorkspace(w.entries, vrows, vnext, ws[i].id, now, cfg.ttlMs);
      ScannedSorted(m1, irows, inext, vs, group, player, independentOf, now, cfg);
      var f := Walked(m, vrows, vnext, irows, inext, ws, group, player, independentOf, now, cfg).found;
      var f1 := Scanned(m1, irows, inext, vs, group, player, independentOf, now, cfg);
      assert f == w.found + f1;
      forall k | 0 <= k < |f|
        ensures Items.SortedByPosition(f[k]) && forall x: Item | x in f[k] :: x.stack.material in group
      {
        if k < |w.found| {
          assert f[k] == w.found[k];
        } else {
          assert f[k] == f1[k - |w.found|];
        }
      }
    }
  }

  /** The inner loop of `tryReplaceItem`: each vault's items of the group, sorted by position. */
  method ScanVaults(c: MemoryCache, db: Database, vs: seq<Vault>, group: set<Material>, player: Uuid,
                    independentOf: Vault -> bool, now: int, cfg: Config)
    returns (found: seq<seq<Item>>)
    modifies c
    ensures found == Scanned(old(c.entries), db.items.rows, db.items.nextId, vs, group, player, independentOf, now, cfg)
    ensures c.entries == ScannedEntries(old(c.entries), db.items.rows, db.items.nextId, vs, player, independentOf, now, cfg)
    ensures forall k | 0 <= k < |found| ::
              Items.SortedByPosition(found[k]) && forall x | x in found[k] :: x.stack.material in group
  {
    ghost var start := c.entries;
    found := [];
    var j := 0;
    while j < |vs|
      invariant 0 <= j <= |vs|
      invariant found == Scanned(start, db.items.rows, db.items.nextId, vs[..j], group, player, independentOf, now, cfg)
      invariant c.entries == ScannedEntries(start, db.items.rows, db.items.nextId, vs[..j], player, independentOf, now, cfg)
    {
      ScannedStep(start, db.items.rows, db.items.nextId, vs, j, group, player, independentOf, now, cfg);
      ScannedEntriesStep(start, db.items.rows, db.items.nextId, vs, j, player, independentOf, now, cfg);
      var items := Items.GetItemsByMaterials(c, db.items, vs[j].id, group, Some(player), independentOf(vs[j]),
                                             now, cfg);
      found := found + [items];
      j := j + 1;
    }
    assert vs[..j] == vs;
    ScannedSorted(start, db.items.rows, db.items.nextId, vs, group, player, independentOf, now, cfg);
  }

  /** Every list `Scanned` gathers is sorted by position and holds only items of the group. */
  lemma {:induction false} ScannedSorted(m: Entries, irows: map<int, Item>, inext: nat, vs: seq<Vault>,
                                         group: set<Material>, player: Uuid, independentOf: Vault -> bool, now: int,
                                         cfg: Config)
    ensures var r := Scanned(m, irows, inext, vs, group, player, independentOf, now, cfg);
            forall k | 0 <= k < |r| :: Items.SortedByPosition(r[k]) && forall x: Item | x in r[k] :: x.stack.material in group
    decreases |vs|
  {
    if vs != [] {
      var j := |vs| - 1;
      ScannedSorted(m, irows, inext, vs[..j], group, player, independentOf, now, cfg);
      ScannedStep(m, irows, inext, vs, j, group, player, independentOf, now, cfg);
      assert vs[..j + 1] == vs;
      var seen := Items.VaultRead(ScannedEntries(m, irows, inext, vs[..j], player, independentOf, now, cfg), irows,
                                  inext, vs[j].id, Some(player), independentOf(vs[j]), now);
      Items.ByMaterialsSpec(seen, group);
    }
  }

  /** One more vault extends a scan by that vault's matching items and its read. */
  lemma ScannedStep(m: Entries, irows: map<int, Item>, inext: nat, vs: seq<Vault>, j: nat, group: set<Material>,
                    player: Uuid, independentOf: Vault -> bool, now: int, cfg: Config)
    requires j < |vs|
    ensures var before := ScannedEntries(m, irows, inext, vs[..j], player, independentOf, now, cfg);
            Scanned(m, irows, inext, vs[..j + 1], group, player, independentOf, now, cfg)
               == Scanned(m, irows, inext, vs[..j], group, player, independentOf, now, cfg)
                  + [Matching(before, irows, inext, vs[j], group, player, independentOf(vs[j]), now)]
  {
    assert vs[..j + 1][..j] == vs[..j];
    assert vs[..j + 1][j] == vs[j];
  }

  /** One more vault extends a scan's cache by that vault's read. */
  lemma ScannedEntriesStep(m: Entries, irows: map<int, Item>, inext: nat, vs: seq<Vault>, j: nat, player: Uuid,
                           independentOf: Vault -> bool, now: int, cfg: Config)
    requires j < |vs|
    ensures ScannedEntries(m, irows, inext, vs[..j + 1], player, independentOf, now, cfg)
            == Items.EntriesAfterVaultRead(ScannedEntries(m, irows, inext, vs[..j], player, independentOf, now, cfg),
                                           irows, inext, vs[j].id, Some(player), independentOf(vs[j]), now, cfg)
  {
    assert vs[..j + 1][..j] == vs[..j];
    assert vs[..j + 1][j] == vs[j];
  }

  /**
   * `onPlayerItemBreak`: a player without the permission, or a broken item
   * that is no tool, changes nothing; otherwise the replacement is tried,
   * and a replacement handed over is of the broken tool's group.
   */
  method OnPlayerItemBreak(c: MemoryCache, db: Database, player: Uuid, permitted: bool, broken: Material,
                           independentOf: Vault -> bool, now: int, cfg: Config)
    returns (replaced: Option<Candidate>)
    requires db.Valid()
    modifies c, db.items
    ensures db.Valid() && db.items.nextId == old(db.items.nextId)
    ensures !permitted || broken !in ToolMaterials ==>
              replaced == None && c.entries == old(c.entries) && db.items.rows == old(db.items.rows)
    ensures permitted && broken in ToolMaterials ==>
              (replaced, c.entries, db.items.rows)
              == ReplaceOutcome(old(c.entries), db.workspaces.rows, db.workspaces.nextId, db.vaults.rows, db.vaults.nextId,
                                old(db.items.rows), old(db.items.nextId), player, ReplacementGroup(broken),
                                independentOf, now, cfg)
    ensures replaced.Some? ==> replaced.value.item.stack.material in ReplacementGroup(broken)
  {
    replaced := None;
    if !permitted || broken !in ToolMaterials {
      return;
    }
    ghost var joined, vaults, found;
    replaced, joined, vaults, found := TryReplaceItem(c, db, player, broken, independentOf, now, cfg);
    if replaced.Some? {
      FirstCandidate(vaults, found);
      ghost var k :| 0 <= k < |found| && found[k] != [] && AllCandidates(vaults, found)[0] == Candidate(found[k][0], vaults[k]);
      assert found[k][0] in found[k];
    }
  }
}
