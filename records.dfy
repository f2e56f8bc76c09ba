/**
 * The records kept in the tables and in the cache (the data classes of the
 * models package). Timestamps are milliseconds passed in by the caller.
 */
module Records {
  import opened Wrappers

  /** Player ids are UUID strings. */
  type Uuid = string

  /**
   * The server's material enum, reduced to the materials the auto-replace
   * tables name; every other material is `Other`, carrying its enum name.
   */
  datatype Material
    = NETHERITE_PICKAXE
    | DIAMOND_PICKAXE
    | IRON_PICKAXE
    | GOLDEN_PICKAXE
    | STONE_PICKAXE
    | WOODEN_PICKAXE
    | NETHERITE_AXE
    | DIAMOND_AXE
    | IRON_AXE
    | GOLDEN_AXE
    | STONE_AXE
    | WOODEN_AXE
    | NETHERITE_SHOVEL
    | DIAMOND_SHOVEL
    | IRON_SHOVEL
    | GOLDEN_SHOVEL
    | STONE_SHOVEL
    | WOODEN_SHOVEL
    | NETHERITE_HOE
    | DIAMOND_HOE
    | IRON_HOE
    | GOLDEN_HOE
    | STONE_HOE
    | WOODEN_HOE
    | NETHERITE_SWORD
    | DIAMOND_SWORD
    | IRON_SWORD
    | GOLDEN_SWORD
    | STONE_SWORD
    | WOODEN_SWORD
    | NETHERITE_HELMET
    | DIAMOND_HELMET
    | IRON_HELMET
    | GOLDEN_HELMET
    | CHAINMAIL_HELMET
    | LEATHER_HELMET
    | TURTLE_HELMET
    | NETHERITE_CHESTPLATE
    | DIAMOND_CHESTPLATE
    | IRON_CHESTPLATE
    | GOLDEN_CHESTPLATE
    | CHAINMAIL_CHESTPLATE
    | LEATHER_CHESTPLATE
    | ELYTRA
    | NETHERITE_LEGGINGS
    | DIAMOND_LEGGINGS
    | IRON_LEGGINGS
    | GOLDEN_LEGGINGS
    | CHAINMAIL_LEGGINGS
    | LEATHER_LEGGINGS
    | NETHERITE_BOOTS
    | DIAMOND_BOOTS
    | IRON_BOOTS
    | GOLDEN_BOOTS
    | CHAINMAIL_BOOTS
    | LEATHER_BOOTS
    | BOW
    | CROSSBOW
    | TRIDENT
    | SHIELD
    | FISHING_ROD
    | SHEARS
    | FLINT_AND_STEEL
    | Other(name: string)

  /** `Material.name`, the enum constant's name. */
  function MaterialName(m: Material): string
  {
    match m
    case NETHERITE_PICKAXE => "NETHERITE_PICKAXE"
    case DIAMOND_PICKAXE => "DIAMOND_PICKAXE"
    case IRON_PICKAXE => "IRON_PICKAXE"
    case GOLDEN_PICKAXE => "GOLDEN_PICKAXE"
    case STONE_PICKAXE => "STONE_PICKAXE"
    case WOODEN_PICKAXE => "WOODEN_PICKAXE"
    case NETHERITE_AXE => "NETHERITE_AXE"
    case DIAMOND_AXE => "DIAMOND_AXE"
    case IRON_AXE => "IRON_AXE"
    case GOLDEN_AXE => "GOLDEN_AXE"
    case STONE_AXE => "STONE_AXE"
    case WOODEN_AXE => "WOODEN_AXE"
    case NETHERITE_SHOVEL => "NETHERITE_SHOVEL"
    case DIAMOND_SHOVEL => "DIAMOND_SHOVEL"
    case IRON_SHOVEL => "IRON_SHOVEL"
    case GOLDEN_SHOVEL => "GOLDEN_SHOVEL"
    case STONE_SHOVEL => "STONE_SHOVEL"
    case WOODEN_SHOVEL => "WOODEN_SHOVEL"
    case NETHERITE_HOE => "NETHERITE_HOE"
    case DIAMOND_HOE => "DIAMOND_HOE"
    case IRON_HOE => "IRON_HOE"
    case GOLDEN_HOE => "GOLDEN_HOE"
    case STONE_HOE => "STONE_HOE"
    case WOODEN_HOE => "WOODEN_HOE"
    case NETHERITE_SWORD => "NETHERITE_SWORD"
    case DIAMOND_SWORD => "DIAMOND_SWORD"
    case IRON_SWORD => "IRON_SWORD"
    case GOLDEN_SWORD => "GOLDEN_SWORD"
    case STONE_SWORD => "STONE_SWORD"
    case WOODEN_SWORD => "WOODEN_SWORD"
    case NETHERITE_HELMET => "NETHERITE_HELMET"
    case DIAMOND_HELMET => "DIAMOND_HELMET"
    case IRON_HELMET => "IRON_HELMET"
    case GOLDEN_HELMET => "GOLDEN_HELMET"
    case CHAINMAIL_HELMET => "CHAINMAIL_HELMET"
    case LEATHER_HELMET => "LEATHER_HELMET"
    case TURTLE_HELMET => "TURTLE_HELMET"
    case NETHERITE_CHESTPLATE => "NETHERITE_CHESTPLATE"
    case DIAMOND_CHESTPLATE => "DIAMOND_CHESTPLATE"
    case IRON_CHESTPLATE => "IRON_CHESTPLATE"
    case GOLDEN_CHESTPLATE => "GOLDEN_CHESTPLATE"
    case CHAINMAIL_CHESTPLATE => "CHAINMAIL_CHESTPLATE"
    case LEATHER_CHESTPLATE => "LEATHER_CHESTPLATE"
    case ELYTRA => "ELYTRA"
    case NETHERITE_LEGGINGS => "NETHERITE_LEGGINGS"
    case DIAMOND_LEGGINGS => "DIAMOND_LEGGINGS"
    case IRON_LEGGINGS => "IRON_LEGGINGS"
    case GOLDEN_LEGGINGS => "GOLDEN_LEGGINGS"
    case CHAINMAIL_LEGGINGS => "CHAINMAIL_LEGGINGS"
    case LEATHER_LEGGINGS => "LEATHER_LEGGINGS"
    case NETHERITE_BOOTS => "NETHERITE_BOOTS"
    case DIAMOND_BOOTS => "DIAMOND_BOOTS"
    case IRON_BOOTS => "IRON_BOOTS"
    case GOLDEN_BOOTS => "GOLDEN_BOOTS"
    case CHAINMAIL_BOOTS => "CHAINMAIL_BOOTS"
    case LEATHER_BOOTS => "LEATHER_BOOTS"
    case BOW => "BOW"
    case CROSSBOW => "CROSSBOW"
    case TRIDENT => "TRIDENT"
    case SHIELD => "SHIELD"
    case FISHING_ROD => "FISHING_ROD"
    case SHEARS => "SHEARS"
    case FLINT_AND_STEEL => "FLINT_AND_STEEL"
    case Other(n) => n
  }

  /**
   * An item stack as the plugin sees it: its material, the display name the
   * server computes for it and the lore lines of its meta (empty when absent).
   */
  datatype ItemStack = ItemStack(material: Material, name: string, lore: seq<string>)

  /** A row of the quota table, one per player. */
  datatype Quota = Quota(
    id: int,
    player: Uuid,
    workspaceQuotas: int,
    workspaceUsed: int,
    sizeQuotas: int,
    sizeUsed: int,
    unlimited: bool)

  datatype WorkspaceType = Public | Private | Independent

  /** A workspace; `members` is the comma-separated list of member ids, owner first. */
  datatype Workspace = Workspace(
    id: int,
    name: string,
    desc: Option<string>,
    kind: WorkspaceType,
    owner: Uuid,
    members: string,
    createdAt: int,
    updatedAt: int)

  /** A vault; `size` is its number of slots. */
  datatype Vault = Vault(
    id: int,
    name: string,
    desc: Option<string>,
    workspaceId: int,
    size: int,
    createdAt: int,
    updatedAt: int)

  /** An item at (vault, page, slot); `owner` is set only in independent workspaces. */
  datatype Item = Item(
    id: int,
    vaultId: int,
    page: int,
    owner: Option<Uuid>,
    slot: int,
    stack: ItemStack)

  datatype AutoPickupType = ItemPickup | ItemNotPickup

  /** An automatic pick-up rule of a vault; `value` is the rule text. */
  datatype AutoPickup = AutoPickup(
    id: int,
    kind: AutoPickupType,
    value: string,
    vaultId: int,
    createdAt: int,
    updatedAt: int)

  /** A per-vault, per-owner setting value. */
  datatype Setting = Setting(
    id: int,
    setting: string,
    value: string,
    vaultId: int,
    owner: Uuid,
    createdAt: int,
    updatedAt: int)

  /** `ZephyrionAPI.Result`: a success flag and, on failure, the reason code. */
  datatype Reply = Reply(success: bool, reason: Option<string>)

  const Ok: Reply := Reply(true, None)

  function Refused(reason: string): Reply
  {
    Reply(false, Some(reason))
  }

  /** The number of content slots on one vault page. */
  const SlotsPerPage: int := 36
}
