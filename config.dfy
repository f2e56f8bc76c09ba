/**
 * The configuration values the core reads (cache ttl, default quotas, name
 * rules). Loading them from the configuration file is not modelled: they
 * arrive as one value.
 */
module PluginConfig {

  /** The `<kind>.name.*` options that govern workspace and vault names. */
  datatype NameRules = NameRules(
    allowColor: bool,        // `name.allow-color`
    blacklist: seq<string>,  // `name.blacklist`
    minLength: int,          // `name.min-length`
    maxLength: int)          // `name.max-length`

  datatype Config = Config(
    ttlMs: int,                  // `cache.ttl`, five minutes unless configured
    defaultWorkspaceQuota: int,  // `user.default-quotas.workspace`
    defaultSizeQuota: int,       // `user.default-quotas.size`
    defaultUnlimited: bool,      // `user.default-quotas.unlimited`
    workspaceNames: NameRules,
    vaultNames: NameRules,
    independentEnabled: bool)    // `workspace.independent`

  /** The cache ttl used when the option is absent: 5 * 60 * 1000 ms. */
  const DefaultTtlMs: int := 5 * 60 * 1000
}
