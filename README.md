# Zephyrion vault core in Dafny

Zephyrion is a Minecraft server plugin that gives players shared and private
storage. A player owns or joins **workspaces**, each holding **vaults**; a vault
is a number of item **slots** laid out on pages of 36. A player's **quota** caps
how many workspaces they may own and how many slots their vaults may hold in
total. Vaults can carry **auto pick-up rules**, which decide whether an item a
player picks up goes straight into the vault, and per-player **settings**, of
which the one stored one is auto-replace: when a tool breaks, a tool of the same
kind is taken out of the player's vaults. An *independent* workspace is a single
shared workspace in which every player keeps a separate set of slots.

Every read goes through a key/value cache with a time-to-live in front of a
relational store. This project models that cache-and-store core:

- the in-memory cache provider with lazy expiry (`memory_cache.dfy`), and the
  typed cache facades on top of it, one per record family (`*_cache.dfy`,
  `cache_service.dfy`);
- the store, one class per table with an auto-increment counter
  (`row_store.dfy`), and the records kept in it (`records.dfy`);
- the model operations:
  - quotas (`quotas.dfy`);
  - workspaces and their comma-separated member strings (`workspaces.dfy`);
  - vaults and their sizes, bounded by the quota with a compare-and-swap
    (`vaults.dfy`);
  - the items of a vault (`items.dfy`), the rules (`autopickups.dfy`) and the
    settings (`settings.dfy`);
- the public API's validation and creation paths (`api.dfy`);
- the auto pick-up, auto-replace and vault view sync services
  (`autopickup_service.dfy`, `autoreplace_service.dfy`, `vault_sync.dfy`);
- the state and slot arithmetic of the vault screen (`vault_ui.dfy`), the
  settings entries (`vault_setting.dfy`), and the searches of the workspace,
  vault and rule list screens (`list_*.dfy`).

`seqs.dfy`, `text.dfy`, `wrappers.dfy`, `int32.dfy` and `config.dfy` hold
helpers: order-preserving filters, Kotlin's string operations, optional
values, Kotlin's wrapping 32-bit `Int` arithmetic, and the configuration
values the core reads.

Things that change state in place are classes: the cache, each table, the
rule-vault memo of the pick-up service, the viewer registry and the screens.
Their methods are specified by functions of the old state. Facts about those
functions are lemmas: a write followed by a read returns what was written,
an invalidation forgets, the cache agrees with the store, quota usage stays
within bounds, and a delete cascades. Records are values. A clock reading
(`now`, in milliseconds), permission answers and the set of online players
are parameters.

## Model

| member | source | states |
|---|---|---|
| MemoryCacheProvider.Lookup | src/main/kotlin/com/faithl/zephyrion/storage/cache/MemoryCacheProvider.kt:21-28 | a key answers a value exactly when it is present and not expired (expired means `expireAt > 0 && now > expireAt`), and the value answered is the stored one |
| MemoryCacheProvider.Touch | src/main/kotlin/com/faithl/zephyrion/storage/cache/MemoryCacheProvider.kt:21-28 | a read removes the read key exactly when its entry has expired and keeps every other entry as it was |
| MemoryCacheProvider.DeleteKeys | src/main/kotlin/com/faithl/zephyrion/storage/cache/MemoryCacheProvider.kt:35-37 | deleting a list of keys one by one removes exactly those keys and keeps every other entry |
| MemoryCacheProvider.Unexpired | src/main/kotlin/com/faithl/zephyrion/storage/cache/MemoryCacheProvider.kt:68-70 | the expiry sweep keeps exactly the unexpired entries, unchanged |
| MemoryCacheProvider.WithoutPrefix | src/main/kotlin/com/faithl/zephyrion/storage/cache/MemoryCacheProvider.kt:39-41 | after deleting by prefix exactly the keys that do not start with the prefix remain, with their entries |
| MemoryCacheProvider.KeysWithPrefix | src/main/kotlin/com/faithl/zephyrion/storage/cache/MemoryCacheProvider.kt:56-59 | exactly the stored keys that start with the prefix |
| MemoryCacheProvider.MemoryCache.constructor | src/main/kotlin/com/faithl/zephyrion/storage/cache/MemoryCacheProvider.kt:18 | a new provider holds no entry |
| MemoryCacheProvider.MemoryCache.Get | src/main/kotlin/com/faithl/zephyrion/storage/cache/MemoryCacheProvider.kt:21-28 | answers the value of a present unexpired entry and nothing otherwise; an expired entry read is evicted and nothing else changes |
| MemoryCacheProvider.MemoryCache.Set | src/main/kotlin/com/faithl/zephyrion/storage/cache/MemoryCacheProvider.kt:30-33 | overwrites the key with expiry `now + ttl` when ttl > 0 and "never" (0) otherwise; every other key is kept |
| MemoryCacheProvider.MemoryCache.Delete | src/main/kotlin/com/faithl/zephyrion/storage/cache/MemoryCacheProvider.kt:35-37 | removes exactly the key |
| MemoryCacheProvider.MemoryCache.DeleteByPrefix | src/main/kotlin/com/faithl/zephyrion/storage/cache/MemoryCacheProvider.kt:39-41 | the collect-then-remove loop removes exactly the keys with the prefix |
| MemoryCacheProvider.MemoryCache.Clear | src/main/kotlin/com/faithl/zephyrion/storage/cache/MemoryCacheProvider.kt:43-45 | leaves the provider empty |
| MemoryCacheProvider.MemoryCache.Exists | src/main/kotlin/com/faithl/zephyrion/storage/cache/MemoryCacheProvider.kt:47-54 | true exactly when `get` would answer a value, with the same eviction of an expired entry |
| MemoryCacheProvider.MemoryCache.Keys | src/main/kotlin/com/faithl/zephyrion/storage/cache/MemoryCacheProvider.kt:56-59 | first drops every expired entry, then answers exactly the live keys with the prefix |
| MemoryCacheProvider.MemoryCache.Close | src/main/kotlin/com/faithl/zephyrion/storage/cache/MemoryCacheProvider.kt:61-63 | leaves the provider empty |
| MemoryCacheProvider.MemoryCache.CleanExpired | src/main/kotlin/com/faithl/zephyrion/storage/cache/MemoryCacheProvider.kt:68-70 | keeps exactly the unexpired entries |
| MemoryCacheProvider.MemoryCache.Stats | src/main/kotlin/com/faithl/zephyrion/storage/cache/MemoryCacheProvider.kt:75-77 | the number of stored entries, expired ones included, and no change |
| MemoryCacheProvider.SetThenLookup | src/main/kotlin/com/faithl/zephyrion/storage/cache/MemoryCacheProvider.kt:21-33 | after `set(k, v, ttl)` at `now`, `get(k)` at a later time answers `v` up to `now + ttl`, and for ever when ttl <= 0 (the "0 never expires" rule of the interface) |
| MemoryCacheProvider.TouchThenSet | src/main/kotlin/com/faithl/zephyrion/storage/cache/MemoryCacheProvider.kt:21-33 | a `set` after a `get` of the same key gives the same map whether or not the get evicted |
| MemoryCacheProvider.TouchThenDelete | src/main/kotlin/com/faithl/zephyrion/storage/cache/MemoryCacheProvider.kt:21-37 | a `delete` after a `get` of the same key gives the same map whether or not the get evicted |
| MemoryCacheProvider.SetLeavesOthers | src/main/kotlin/com/faithl/zephyrion/storage/cache/MemoryCacheProvider.kt:30-33 | setting one key changes what no other key answers |
| MemoryCacheProvider.EvictionInvisible | src/main/kotlin/com/faithl/zephyrion/storage/cache/MemoryCacheProvider.kt:21-28 | lazy eviction and the expiry sweep change no later answer for any key |
| MemoryCacheProvider.DeleteByPrefixLookup | src/main/kotlin/com/faithl/zephyrion/storage/cache/MemoryCacheProvider.kt:39-41 | after deleting by prefix a key with the prefix answers nothing and every other key answers as before |
| ItemCache.GetPageItems | src/main/kotlin/com/faithl/zephyrion/core/cache/ItemCache.kt:23-26 | answers the list cached under `items:<vault>:<page>:<owner or shared>`, the owner counting only for an independent vault |
| ItemCache.UpdatePageItems | src/main/kotlin/com/faithl/zephyrion/core/cache/ItemCache.kt:28-31 | stores the list under the page key with the cache time-to-live |
| ItemCache.GetAllItems | src/main/kotlin/com/faithl/zephyrion/core/cache/ItemCache.kt:33-36 | answers the list cached under `items:all:<vault>:<owner or shared>` |
| ItemCache.UpdateAllItems | src/main/kotlin/com/faithl/zephyrion/core/cache/ItemCache.kt:38-41 | stores the list under the all key with the cache time-to-live |
| ItemCache.AddOrUpdate | src/main/kotlin/com/faithl/zephyrion/core/cache/ItemCache.kt:46-62 | patches only lists already cached: the page list loses the slot and gains the item, the all list loses the (page, slot) pair and gains the item |
| ItemCache.Remove | src/main/kotlin/com/faithl/zephyrion/core/cache/ItemCache.kt:67-83 | patches only lists already cached: the page list loses the slot, the all list loses the (page, slot) pair |
| ItemCache.InvalidatePage | src/main/kotlin/com/faithl/zephyrion/core/cache/ItemCache.kt:85-90 | deletes exactly the page key and the all key of that vault and effective owner |
| ItemCache.InvalidateAll | src/main/kotlin/com/faithl/zephyrion/core/cache/ItemCache.kt:92-95 | deletes every key starting `items:<vault>:` or `items:all:<vault>:`; the owner argument is ignored |
| ItemCache.PlaceInPageSpec | src/main/kotlin/com/faithl/zephyrion/core/cache/ItemCache.kt:53 | the patched page list holds the item as the only entry for its slot, keeps every other slot's entries, and keeps slots unique |
| ItemCache.PlaceInAllSpec | src/main/kotlin/com/faithl/zephyrion/core/cache/ItemCache.kt:59 | the patched all list holds the item as the only entry for its (page, slot), keeps every other entry, and keeps positions unique |
| ItemCache.RemoveUndoesPlace | src/main/kotlin/com/faithl/zephyrion/core/cache/ItemCache.kt:53-80 | `remove` after `addOrUpdate` of the same slot leaves each list as `remove` alone would |
| ItemCache.PatchNeverCreates | src/main/kotlin/com/faithl/zephyrion/core/cache/ItemCache.kt:51-61 | a patch never creates a list that was not cached, changes no other key, and a cached list becomes the patched list |
| ItemCache.PageKeyIsNotAllKey | src/main/kotlin/com/faithl/zephyrion/core/cache/ItemCache.kt:15-21 | no page key equals an all key |
| ItemCache.PagePrefixExact | src/main/kotlin/com/faithl/zephyrion/core/cache/ItemCache.kt:93 | the prefix `items:<v>:` starts the page key of vault w exactly when v == w (so vault 1's prefix misses vault 12) |
| ItemCache.AllPrefixExact | src/main/kotlin/com/faithl/zephyrion/core/cache/ItemCache.kt:94 | the prefix `items:all:<v>:` starts the all key of vault w exactly when v == w |
| ItemCache.PageKeysDiffer | src/main/kotlin/com/faithl/zephyrion/core/cache/ItemCache.kt:15-17 | two pages of one vault and owner have different keys |
| ItemCache.PrefixesSeparate | src/main/kotlin/com/faithl/zephyrion/core/cache/ItemCache.kt:92-95 | the page prefix never starts an all key and the all prefix never starts a page key |
| ItemCache.InvalidateAllExactly | src/main/kotlin/com/faithl/zephyrion/core/cache/ItemCache.kt:92-95 | after `invalidateAll(v)` a page or all key remains exactly when it was there and belongs to another vault |
| VaultCache.GetById | src/main/kotlin/com/faithl/zephyrion/core/cache/VaultCache.kt:17-26 | a hit answers the cached vault and changes nothing; a miss answers the store's row by id and caches it only when one was found |
| VaultCache.GetByWorkspace | src/main/kotlin/com/faithl/zephyrion/core/cache/VaultCache.kt:28-38 | a hit answers the cached list; a miss answers the workspace's rows in id order, caches the list under `vault:workspace:<id>` and then each vault under `vault:<id>` |
| VaultCache.Update | src/main/kotlin/com/faithl/zephyrion/core/cache/VaultCache.kt:40-43 | overwrites `vault:<id>` and deletes that vault's workspace list key |
| VaultCache.Invalidate | src/main/kotlin/com/faithl/zephyrion/core/cache/VaultCache.kt:45-49 | deletes the vault key, and the workspace list key of the cached vault only when the vault was cached |
| VaultCache.InvalidateWorkspaceVaults | src/main/kotlin/com/faithl/zephyrion/core/cache/VaultCache.kt:51-53 | deletes only the workspace list key |
| VaultCache.KeyInjective | src/main/kotlin/com/faithl/zephyrion/core/cache/VaultCache.kt:18 | different vault ids have different keys |
| VaultCache.WorkspaceKeyInjective | src/main/kotlin/com/faithl/zephyrion/core/cache/VaultCache.kt:29 | different workspace ids have different list keys |
| VaultCache.KeysDistinct | src/main/kotlin/com/faithl/zephyrion/core/cache/VaultCache.kt:11-12 | no vault key is a workspace list key |
| VaultCache.WorkspaceMissCachesEach | src/main/kotlin/com/faithl/zephyrion/core/cache/VaultCache.kt:34-36 | after a miss the list key holds the loaded list, every loaded vault belongs to the workspace and each is cached under its own key |
| VaultCache.UpdateThenRead | src/main/kotlin/com/faithl/zephyrion/core/cache/VaultCache.kt:40-43 | after `update(v)` the vault key answers `v` and the workspace list key answers nothing |
| VaultCache.InvalidateForgets | src/main/kotlin/com/faithl/zephyrion/core/cache/VaultCache.kt:45-49 | after `invalidate` the vault key answers nothing, nor does the list key of a vault that was cached |
| WorkspaceCache.GetById | src/main/kotlin/com/faithl/zephyrion/core/cache/WorkspaceCache.kt:19-28 | a hit answers the cached workspace; a miss answers the store's row and caches it only when found |
| WorkspaceCache.GetJoinedWorkspaces | src/main/kotlin/com/faithl/zephyrion/core/cache/WorkspaceCache.kt:30-41 | a hit answers the cached list; a miss answers the workspaces whose member text contains the id, caches the list under `workspace:player:<uuid>` and each workspace under its id key; the new cache is stated in full in both cases |
| WorkspaceCache.GetIndependent | src/main/kotlin/com/faithl/zephyrion/core/cache/WorkspaceCache.kt:43-54 | a hit answers the cached workspace; a miss answers the first row named `Independent` and caches it under `workspace:independent` and its id key, and caches nothing when there is none |
| WorkspaceCache.JoinedReadKeepsIndependent | src/main/kotlin/com/faithl/zephyrion/core/cache/WorkspaceCache.kt:30-54 | a joined-workspaces read never changes what the cache serves under `workspace:independent` |
| WorkspaceCache.PlayerKeys | src/main/kotlin/com/faithl/zephyrion/core/cache/WorkspaceCache.kt:58-60 | one `workspace:player:<uuid>` key per member id, in order |
| WorkspaceCache.Update | src/main/kotlin/com/faithl/zephyrion/core/cache/WorkspaceCache.kt:56-61 | overwrites the id entry and deletes the player list key of every non-blank comma-separated member |
| WorkspaceCache.Invalidate | src/main/kotlin/com/faithl/zephyrion/core/cache/WorkspaceCache.kt:63-66 | deletes the id entry and every key starting `workspace:player` |
| WorkspaceCache.InvalidatePlayerWorkspaces | src/main/kotlin/com/faithl/zephyrion/core/cache/WorkspaceCache.kt:68-70 | deletes exactly one player list key |
| WorkspaceCache.KeyInjective | src/main/kotlin/com/faithl/zephyrion/core/cache/WorkspaceCache.kt:20 | different workspace ids have different keys |
| WorkspaceCache.KeysDistinct | src/main/kotlin/com/faithl/zephyrion/core/cache/WorkspaceCache.kt:12-14 | id keys, the independent key and player keys never collide, and only player keys carry the player prefix |
| WorkspaceCache.JoinedMissCachesEach | src/main/kotlin/com/faithl/zephyrion/core/cache/WorkspaceCache.kt:37-40 | after a miss the player key holds the loaded list and each loaded workspace is cached under its id key |
| WorkspaceCache.MemberIdsOfJoin | src/main/kotlin/com/faithl/zephyrion/core/cache/WorkspaceCache.kt:58 | a member text written as comma-joined ids without commas or blanks splits back into exactly those ids |
| AutoPickupCache.Get | src/main/kotlin/com/faithl/zephyrion/core/cache/AutoPickupCache.kt:17-26 | answers the cached rules on a hit without change; on a miss answers the vault's rules in id order and caches them, an empty list included |
| AutoPickupCache.Update | src/main/kotlin/com/faithl/zephyrion/core/cache/AutoPickupCache.kt:28-30 | overwrites `autopickup:<vault>` |
| AutoPickupCache.Invalidate | src/main/kotlin/com/faithl/zephyrion/core/cache/AutoPickupCache.kt:32-34 | deletes exactly one key |
| AutoPickupCache.InvalidateAll | src/main/kotlin/com/faithl/zephyrion/core/cache/AutoPickupCache.kt:36-38 | deletes every key with the `autopickup` prefix |
| AutoPickupCache.BatchLoad | src/main/kotlin/com/faithl/zephyrion/core/cache/AutoPickupCache.kt:43-85 | answers an entry for every requested vault, each exactly what `get` would answer (so empty input gives an empty map); hits are left as cached, every miss is cached with its rules (an empty list when it has none), and no other key changes |
| AutoPickupCache.SplitCached | src/main/kotlin/com/faithl/zephyrion/core/cache/AutoPickupCache.kt:49-56 | the first loop: hits hold exactly the cached vaults with their cached lists, misses exactly the others; only expired requested keys are evicted |
| AutoPickupCache.CacheMisses | src/main/kotlin/com/faithl/zephyrion/core/cache/AutoPickupCache.kt:77-81 | the second loop: each miss gets its group of the store's rules in the result and in the cache; no other key changes |
| AutoPickupCache.GroupOfBatch | src/main/kotlin/com/faithl/zephyrion/core/cache/AutoPickupCache.kt:62-78 | grouping the one `vault_id in (...)` query by vault gives each requested vault exactly its own rules |
| AutoPickupCache.KeyInjectiveContra | src/main/kotlin/com/faithl/zephyrion/core/cache/AutoPickupCache.kt:18 | different vault ids have different keys |
| AutoPickupCache.ServedBelongs | src/main/kotlin/com/faithl/zephyrion/core/cache/AutoPickupCache.kt:87-103 | every rule loaded for a vault has that vault's id |
| AutoPickupCache.InvalidateAllForgets | src/main/kotlin/com/faithl/zephyrion/core/cache/AutoPickupCache.kt:36-38 | after `invalidateAll` no vault's rules are cached |
| SettingCache.Get | src/main/kotlin/com/faithl/zephyrion/core/cache/SettingCache.kt:18-27 | a hit answers the cached text; a miss answers the first stored value for (vault, setting, owner) and caches it only when there is one |
| SettingCache.Set | src/main/kotlin/com/faithl/zephyrion/core/cache/SettingCache.kt:32-34 | overwrites `setting:<vault>:<owner>:<setting>` |
| SettingCache.Invalidate | src/main/kotlin/com/faithl/zephyrion/core/cache/SettingCache.kt:39-41 | deletes exactly that one key |
| SettingCache.InvalidateByOwner | src/main/kotlin/com/faithl/zephyrion/core/cache/SettingCache.kt:46-48 | deletes exactly the keys starting `setting:<vault>:<owner>:` |
| SettingCache.InvalidateByVault | src/main/kotlin/com/faithl/zephyrion/core/cache/SettingCache.kt:53-55 | deletes exactly the keys starting `setting:<vault>:` |
| SettingCache.InvalidateAll | src/main/kotlin/com/faithl/zephyrion/core/cache/SettingCache.kt:60-62 | deletes every key with the `setting` prefix |
| SettingCache.VaultPrefixExact | src/main/kotlin/com/faithl/zephyrion/core/cache/SettingCache.kt:53-55 | the vault prefix starts a setting key exactly when the vaults are equal: the trailing `:` keeps vault 1 from matching vault 12 |
| SettingCache.OwnerPrefixExact | src/main/kotlin/com/faithl/zephyrion/core/cache/SettingCache.kt:46-48 | for colon-free player ids the owner prefix starts a setting key exactly when vault and owner are equal |
| SettingCache.KeyInjective | src/main/kotlin/com/faithl/zephyrion/core/cache/SettingCache.kt:64-66 | for colon-free player ids equal keys mean equal vault, setting and owner |
| SettingCache.InvalidateAllForgets | src/main/kotlin/com/faithl/zephyrion/core/cache/SettingCache.kt:60-62 | after `invalidateAll` no setting is cached |
| QuotaCache.Load | src/main/kotlin/com/faithl/zephyrion/core/cache/QuotaCache.kt:37-88 | an existing row is returned unchanged; without one the default quota is returned: used counters 0, the configured default limits and flag, the player's id |
| QuotaCache.Get | src/main/kotlin/com/faithl/zephyrion/core/cache/QuotaCache.kt:18-27 | a hit answers the cached quota and changes nothing; a miss answers the loaded quota and caches it, inserting the default row (with the next id) only when the player has none |
| QuotaCache.LoadFromDb | src/main/kotlin/com/faithl/zephyrion/core/cache/QuotaCache.kt:37-88 | answers the existing row and inserts nothing, or inserts the default row under the next id and answers the default quota |
| QuotaCache.Update | src/main/kotlin/com/faithl/zephyrion/core/cache/QuotaCache.kt:29-31 | overwrites `quota:<uuid>` |
| QuotaCache.Invalidate | src/main/kotlin/com/faithl/zephyrion/core/cache/QuotaCache.kt:33-35 | deletes `quota:<uuid>` |
| QuotaCache.GetKeepsCoherent | src/main/kotlin/com/faithl/zephyrion/core/cache/QuotaCache.kt:18-27 | after `get` the player has a row, its columns are those answered, and the cache entry agrees with the row |
| QuotaCache.UpdateThenRead | src/main/kotlin/com/faithl/zephyrion/core/cache/QuotaCache.kt:29-31 | after `update(u, q)` a read of u answers q |
| QuotaCache.GetThenHit | src/main/kotlin/com/faithl/zephyrion/core/cache/QuotaCache.kt:18-27 | after `get` the cache serves exactly the quota `get` answered |
| QuotaCache.KeyInjective | src/main/kotlin/com/faithl/zephyrion/core/cache/QuotaCache.kt:19 | different players have different keys |
| CacheService.ClearPlayerCache | src/main/kotlin/com/faithl/zephyrion/core/cache/CacheService.kt:43-46 | removes exactly `quota:<uuid>` and `workspace:player:<uuid>` |
| CacheService.ClearAllCache | src/main/kotlin/com/faithl/zephyrion/core/cache/CacheService.kt:51-53 | leaves the provider empty |
| CacheService.GetCacheStats | src/main/kotlin/com/faithl/zephyrion/core/cache/CacheService.kt:58-66 | the five `keys` calls sweep the expired entries once; each family reports the number of live keys with its prefix |
| CacheService.UnexpiredIdempotent | src/main/kotlin/com/faithl/zephyrion/core/cache/CacheService.kt:60-64 | a second sweep at the same instant changes nothing, so the five calls see one map |
| CacheService.VaultFamilyCounted | src/main/kotlin/com/faithl/zephyrion/core/cache/CacheService.kt:62 | vault keys and `vault:workspace:*` list keys both count under "vault" |
| CacheService.ItemFamilyCounted | src/main/kotlin/com/faithl/zephyrion/core/cache/CacheService.kt:64 | page keys and `items:all:*` keys both count under "items" |
| CacheService.OtherFamiliesCounted | src/main/kotlin/com/faithl/zephyrion/core/cache/CacheService.kt:60-63 | quota, workspace (id, player and independent) and rule keys each count under their family's prefix |
| Quotas.Apply | src/main/kotlin/com/faithl/zephyrion/core/models/Quotas.kt:82-202 | a rejected argument (negative set value, non-positive amount) or a lowering below what is in use answers false; otherwise exactly one limit or the flag changes, by the operator's rule with raised and lowered limits wrapping as 32-bit `Int` sums, and no used counter changes |
| Quotas.Adjust | src/main/kotlin/com/faithl/zephyrion/core/models/Quotas.kt:82-202 | a rejected argument changes nothing; otherwise the quota is read through the cache, and a successful operator writes exactly its column to the row and caches the new quota; the answer is whether the operator succeeded |
| Quotas.ResetQuota | src/main/kotlin/com/faithl/zephyrion/core/models/Quotas.kt:207-220 | always succeeds; writes the default limits and flag to the row and deletes the cache entry |
| Quotas.AdjustKeepsCoherent | src/main/kotlin/com/faithl/zephyrion/core/models/Quotas.kt:82-202 | from a cache entry that agrees with the row, the entry still agrees with the row after a successful operator |
| Quotas.ColumnsWriteResult | src/main/kotlin/com/faithl/zephyrion/core/models/Quotas.kt:88-91 | writing the operator's one column into the row gives exactly the quota the operator produced |
| Quotas.ResetKeepsUsage | src/main/kotlin/com/faithl/zephyrion/core/models/Quotas.kt:207-220 | after `resetQuota` the used counters are unchanged and the limits and flag are the defaults |
| Quotas.AdjustKeepsWithinLimits | src/main/kotlin/com/faithl/zephyrion/core/models/Quotas.kt:99-187 | raising a limit without leaving `Int` range, or lowering one, keeps used counters within the limits |
| Quotas.SetCanUndercut | src/main/kotlin/com/faithl/zephyrion/core/models/Quotas.kt:137-149 | `setSizeQuota` can put the size limit below the size in use |
| Quotas.AddQuotaCanWrap | src/main/kotlin/com/faithl/zephyrion/core/models/Quotas.kt:154-166 | raising a size limit of `Int.MAX_VALUE` by one wraps it to `Int.MIN_VALUE`, below the size in use |
| Quotas.AddThenRemove | src/main/kotlin/com/faithl/zephyrion/core/models/Quotas.kt:99-187 | when the raised limits stay within `Int` range, lowering a limit by the amount just added restores the quota |
| Quotas.RemoveRefusedExactly | src/main/kotlin/com/faithl/zephyrion/core/models/Quotas.kt:117-187 | for an `Int` amount and a quota within its limits, a removal is refused exactly when the amount exceeds the headroom above what is in use |
| Quotas.SetIdempotent | src/main/kotlin/com/faithl/zephyrion/core/models/Quotas.kt:82-202 | setting a limit or the flag twice is setting it once |
| Vaults.CeilPages | src/main/kotlin/com/faithl/zephyrion/core/models/Vaults.kt:186-189 | the page count is the least whole number of 36-slot pages that holds `size` slots |
| Vaults.MaxPage | src/main/kotlin/com/faithl/zephyrion/core/models/Vaults.kt:186-189 | a vault of at most one page's slots (including an empty vault) has exactly one page; a larger one has the ceiling of its size over 36 pages |
| Vaults.SlotOnSomePage | src/main/kotlin/com/faithl/zephyrion/core/models/Vaults.kt:186-189 | every slot index below the size lies on a page between 1 and the last page |
| Vaults.IndexOfPosition | src/main/kotlin/com/faithl/zephyrion/core/services/AutoPickupService.kt:123-127 | page-and-slot positions and flat slot indexes correspond one to one |
| Vaults.PositionOrder | src/main/kotlin/com/faithl/zephyrion/core/services/AutoPickupService.kt:123-133 | the flat index order is the page-then-slot order in which the slot scan visits positions |
| Vaults.FirstFreeFrom | src/main/kotlin/com/faithl/zephyrion/core/services/AutoPickupService.kt:123-133 | the first slot index from `k` on that is not taken, with every index between `k` and it taken; none exactly when every index up to the size is taken |
| Vaults.FirstFree | src/main/kotlin/com/faithl/zephyrion/core/services/AutoPickupService.kt:123-133 | the scan's answer is a free position inside the vault before which every position is taken; there is none exactly when every position inside the vault is taken |
| Vaults.FirstFreeIs | src/main/kotlin/com/faithl/zephyrion/core/services/AutoPickupService.kt:123-133 | a free position inside the vault with every earlier position taken is the scan's answer |
| Vaults.Create | src/main/kotlin/com/faithl/zephyrion/core/models/Vaults.kt:61-77 | appends a vault of size 0 with the next id, the given name, description and workspace and both timestamps set to now, and drops the workspace's cached vault list; it always succeeds |
| Vaults.FindNamed | src/main/kotlin/com/faithl/zephyrion/core/models/Vaults.kt:47-49 | the first vault in list order with the given name; none exactly when no vault has that name |
| Vaults.GetVault | src/main/kotlin/com/faithl/zephyrion/core/models/Vaults.kt:47-49 | `getVault` answers the first vault with the name among the workspace's vaults as the vault cache serves them |
| Vaults.CommitResize | src/main/kotlin/com/faithl/zephyrion/core/models/Vaults.kt:100-125 | the quota row's used size is swapped for the 32-bit sum only while it still holds the value read; on a miss nothing else changes and the answer is false; on a hit the vault's size (also a 32-bit sum) and timestamp, its row, the owner's cached quota and the cached vault are updated |
| Vaults.AddSize | src/main/kotlin/com/faithl/zephyrion/core/models/Vaults.kt:90-126 | refuses, after the quota read alone, when the new used size would leave `Int` range or a limited owner would pass the size limit: the corrected test of the Findings row, stricter than the source's wrapping test (see Left out); otherwise the answer is whether the compare-and-swap on the used size hit, after which the vault grows by `add` and the used size is the exact sum |
| Vaults.RemoveSize | src/main/kotlin/com/faithl/zephyrion/core/models/Vaults.kt:131-167 | refuses when the used size minus `remove`, as a 32-bit difference, would be negative; otherwise the answer is whether the compare-and-swap hit, after which the vault shrinks by `remove` (wrapping as an `Int`) and the used size is that difference |
| Vaults.SwapAddsDelta | src/main/kotlin/com/faithl/zephyrion/core/models/Vaults.kt:100-111 | a swap that hits sets the stored used size to the 32-bit sum of the value read and the delta |
| Vaults.RacingSwapMisses | src/main/kotlin/com/faithl/zephyrion/core/models/Vaults.kt:100-111 | a second swap computed from the same read misses once a first swap by a non-zero delta of less than 2^32 has hit, so a racing resize cannot be applied twice |
| Vaults.AddKeepsWithinQuota | src/main/kotlin/com/faithl/zephyrion/core/models/Vaults.kt:91-111 | for a limited owner whose row agrees with the read, an addition the intended test allows hits and leaves the used size at exactly the sum, within the limit |
| Vaults.AddSizeWrapsPastQuota | src/main/kotlin/com/faithl/zephyrion/core/models/Vaults.kt:91-96 | with 1 slot used of 100 and `add = 2147483647`, the test as written passes with a used size of -2147483648, and the intended test refuses |
| Vaults.AddAllowedAgrees | src/main/kotlin/com/faithl/zephyrion/core/models/Vaults.kt:91-96 | the intended test and the test as written agree whenever the sum stays within `Int` range |
| Vaults.RemoveKeepsUsageNonNegative | src/main/kotlin/com/faithl/zephyrion/core/models/Vaults.kt:131-152 | an allowed removal that hits leaves the used size non-negative |
| Vaults.DeletedEntriesForget | src/main/kotlin/com/faithl/zephyrion/core/models/Vaults.kt:273-278 | after delete's invalidation no cache entry of the vault, its rules, its settings or its item pages and lists remains |
| Vaults.Delete | src/main/kotlin/com/faithl/zephyrion/core/models/Vaults.kt:232-281 | refuses, after the quota read, when the used size minus the vault's size (a 32-bit difference) would be negative; otherwise deletes the vault's items, settings and rules and the vault, writes that difference as the used size, caches that quota and invalidates the vault's cache entries |
| Vaults.CommitDelete | src/main/kotlin/com/faithl/zephyrion/core/models/Vaults.kt:241-278 | after the quota test: the vault's rows are gone, the owner's row has the new used size, the cache holds the quota with that used size and then has the vault's entries invalidated |
| Vaults.DeleteRows | src/main/kotlin/com/faithl/zephyrion/core/models/Vaults.kt:246-264 | the vault's items, settings and rules are deleted, then the vault row, and no other row changes |
| Vaults.ForgetVault | src/main/kotlin/com/faithl/zephyrion/core/models/Vaults.kt:275-278 | the cache after the four invalidations of `delete`, in their order |
| Vaults.CascadeLeavesNoOrphans | src/main/kotlin/com/faithl/zephyrion/core/models/Vaults.kt:244-262 | the cascade removes exactly the item, setting and rule rows of the vault and keeps every other |
| Int32.Wrap | src/main/kotlin/com/faithl/zephyrion/core/models/Vaults.kt:93 | the value a 32-bit two's-complement sum yields: within `Int` range, congruent to the mathematical value modulo 2^32, and equal to it when that is in range |
| Text.NoBreakSpaceIsBlank | src/main/kotlin/com/faithl/zephyrion/core/models/AutoPickups.kt:57 | a value of one no-break space is blank, as `isBlank` counts it, while a value with a letter is not |
| Workspaces.GetMembers | src/main/kotlin/com/faithl/zephyrion/core/models/Workspaces.kt:247-251 | the members are the non-blank comma-free pieces of the member string, and each piece passes the `isMember` substring test |
| Workspaces.AddToMemberString | src/main/kotlin/com/faithl/zephyrion/core/models/Workspaces.kt:157 | appending `","` and a uuid to the member string of an owner and members gives the member string with that uuid appended to the members |
| Workspaces.RemoveFromMemberString | src/main/kotlin/com/faithl/zephyrion/core/models/Workspaces.kt:179 | deleting every `","+uuid` occurrence from a member string, when no member starts with the uuid, gives the member string without that uuid |
| Workspaces.AddThenRemove | src/main/kotlin/com/faithl/zephyrion/core/models/Workspaces.kt:152-190 | removing a uuid just added to a well-formed member string that did not contain it restores the string |
| Workspaces.AddedIsMember | src/main/kotlin/com/faithl/zephyrion/core/models/Workspaces.kt:152-168 | after `addMember` the uuid passes the `isMember` test and the parsed members are the old ones followed by the uuid |
| Workspaces.RemovedIsGone | src/main/kotlin/com/faithl/zephyrion/core/models/Workspaces.kt:170-190 | after `removeMember` of a non-owner the parsed members are the owner and the other members in order, and the uuid is no longer among them |
| Workspaces.OwnerOccurs | src/main/kotlin/com/faithl/zephyrion/core/models/Workspaces.kt:301-303 | the owner of a member string always passes the `isMember` test |
| Workspaces.AbsentPrefixOfNone | src/main/kotlin/com/faithl/zephyrion/core/models/Workspaces.kt:301-303 | a uuid that fails the substring test is neither the owner nor a member nor a prefix of any member |
| Workspaces.LoadNamed | src/main/kotlin/com/faithl/zephyrion/core/models/Workspaces.kt:81-99 | the store's answer is a workspace with the requested name whose member string contains the player |
| Workspaces.GetWorkspace | src/main/kotlin/com/faithl/zephyrion/core/models/Workspaces.kt:81-104 | answers the first stored workspace with the name whose member string contains the player; a found workspace is written to the workspace cache, a missing one changes nothing |
| Workspaces.Create | src/main/kotlin/com/faithl/zephyrion/core/models/Workspaces.kt:109-150 | refuses when the count would exceed the limit; otherwise the answer is whether the compare-and-swap on `workspace_used` hit; only on a hit is a workspace inserted whose member string is the owner, the cached quota counts one more and the owner's list index is dropped |
| Workspaces.Delete | src/main/kotlin/com/faithl/zephyrion/core/models/Workspaces.kt:266-296 | refuses when the count would go negative or the compare-and-swap misses, changing nothing else; only on a hit is the row deleted and the workspace, every player list, the vault list index and the quota entry dropped |
| Workspaces.CreateCountsOne | src/main/kotlin/com/faithl/zephyrion/core/models/Workspaces.kt:112-129 | a compare-and-swap hit on create moves the stored count up by one and keeps it within the limit |
| Workspaces.DeleteKeepsCountNonNegative | src/main/kotlin/com/faithl/zephyrion/core/models/Workspaces.kt:267-287 | a compare-and-swap hit on delete leaves the stored count non-negative |
| Workspaces.AddMember | src/main/kotlin/com/faithl/zephyrion/core/models/Workspaces.kt:152-168 | fails, changing nothing, when the uuid already passes `isMember`; otherwise appends `","+uuid`, stamps the time, writes the row, caches the workspace and drops the newcomer's list index |
| Workspaces.RemoveMember | src/main/kotlin/com/faithl/zephyrion/core/models/Workspaces.kt:170-190 | fails, changing nothing, for the owner and for a non-member; otherwise deletes every `","+uuid`, stamps the time, writes the row, caches the workspace and drops the player's list index |
| Workspaces.MembershipDropsLists | src/main/kotlin/com/faithl/zephyrion/core/models/Workspaces.kt:165-166 | after a membership change neither the changed player's list index nor any remaining member's is cached, and the workspace itself is |
| Items.SelectionExact | src/main/kotlin/com/faithl/zephyrion/core/models/Items.kt:138-153 | a store selection holds exactly the stored rows that satisfy its condition |
| Items.GetItems | src/main/kotlin/com/faithl/zephyrion/core/models/Items.kt:127-158 | `getItems` answers the page list cached under the page key on a hit; on a miss the store's rows for (vault, page), narrowed to the opener in an independent workspace, which are then cached |
| Items.GetAllItems | src/main/kotlin/com/faithl/zephyrion/core/models/Items.kt:48-74 | `getAllItems` answers the cached all-list on a hit; on a miss the vault's rows, narrowed to the owner when the workspace is independent and an owner is given, which are then cached |
| Items.PageReadCoherent | src/main/kotlin/com/faithl/zephyrion/core/models/Items.kt:127-158 | a page entry that agrees with the store (ids aside) makes `getItems` answer the store's rows, and the read keeps the entry in agreement |
| Items.VaultReadCoherent | src/main/kotlin/com/faithl/zephyrion/core/models/Items.kt:48-74 | an all-list entry that agrees with the store makes `getAllItems` answer the store's rows, and the read keeps it in agreement |
| Items.Unnumbered | src/main/kotlin/com/faithl/zephyrion/core/models/Items.kt:194-201 | the list with every item's id set to 0, as cached copies carry it, item by item |
| Items.SearchItems | src/main/kotlin/com/faithl/zephyrion/core/models/Items.kt:108-122 | `searchItems` answers the all-list as the cache serves it, filtered by the search parameters |
| Items.SearchSpec | src/main/kotlin/com/faithl/zephyrion/core/models/Items.kt:108-122 | the search keeps, in order, exactly the items whose name contains `name` and some lore line of which contains `lore`, ignoring case, each only when set; with neither set it keeps everything |
| Items.InsertByPosition | src/main/kotlin/com/faithl/zephyrion/core/models/Items.kt:245 | inserting into a list adds exactly that item to its multiset |
| Items.InsertKeepsSorted | src/main/kotlin/com/faithl/zephyrion/core/models/Items.kt:245 | inserting into a (page, slot)-sorted list keeps it sorted |
| Items.SortByPosition | src/main/kotlin/com/faithl/zephyrion/core/models/Items.kt:245 | the sort is a permutation of its input |
| Items.SortIsSorted | src/main/kotlin/com/faithl/zephyrion/core/models/Items.kt:245 | the sort's result is ordered by page, then slot |
| Items.GetItemsByMaterials | src/main/kotlin/com/faithl/zephyrion/core/models/Items.kt:242-246 | answers the all-list as the cache serves it, filtered by material and sorted by (page, slot) |
| Items.ByMaterialsSpec | src/main/kotlin/com/faithl/zephyrion/core/models/Items.kt:242-246 | the result is sorted by (page, slot), a permutation of the filtered items, and holds exactly the items whose material is in the set |
| Items.SetItem | src/main/kotlin/com/faithl/zephyrion/core/models/Items.kt:163-203 | `setItem` deletes every row at (vault, page, slot), and owner in an independent workspace, inserts the new row with the next id and writes the slot through to the cached page and all lists |
| Items.RemoveItem | src/main/kotlin/com/faithl/zephyrion/core/models/Items.kt:210-234 | `removeItem` deletes every row at the key and drops the slot from the cached page and all lists; the new rows and cache are stated in full |
| Items.SetLeavesOne | src/main/kotlin/com/faithl/zephyrion/core/models/Items.kt:163-191 | after `setItem` exactly one row sits at the key, the new one, holding the stack and the owner only in an independent workspace, and every row at another key is kept |
| Items.SetKeepsUnique | src/main/kotlin/com/faithl/zephyrion/core/models/Items.kt:163-191 | `setItem` keeps "at most one row per key" for every vault |
| Items.RemoveClears | src/main/kotlin/com/faithl/zephyrion/core/models/Items.kt:210-231 | after `removeItem` no row sits at the key, every row at another key is kept, and at most one row per key still holds |
| Items.RemoveUndoesSet | src/main/kotlin/com/faithl/zephyrion/core/models/Items.kt:163-231 | removing a slot just set leaves the store as removing it without the set would |
| Items.UnnumberedConcat | src/main/kotlin/com/faithl/zephyrion/core/models/Items.kt:194-201 | dropping ids distributes over concatenation |
| Items.UnnumberedFilter | src/main/kotlin/com/faithl/zephyrion/core/models/Items.kt:194-201 | dropping ids commutes with a filter that ignores ids |
| Items.PageRowsAfterSet | src/main/kotlin/com/faithl/zephyrion/core/models/Items.kt:163-202 | after `setItem`, the page's rows as a reader of that page sees them are the old ones without the slot followed by the new row |
| Items.VaultRowsAfterSet | src/main/kotlin/com/faithl/zephyrion/core/models/Items.kt:163-202 | after `setItem`, the vault's rows as that reader sees them are the old ones without the (page, slot) pair followed by the new row |
| Items.SetKeepsPageCoherent | src/main/kotlin/com/faithl/zephyrion/core/models/Items.kt:163-202 | a page entry that agrees with the store still agrees after `setItem` writes through |
| Items.SetKeepsVaultCoherent | src/main/kotlin/com/faithl/zephyrion/core/models/Items.kt:163-202 | an all-list entry that agrees with the store still agrees after `setItem` writes through |
| Items.OwnerKeysDiffer | src/main/kotlin/com/faithl/zephyrion/core/models/Items.kt:164-165 | two owners' page keys, and an owner's all key and another's page key, never collide |
| Items.SetLeavesOtherOwners | src/main/kotlin/com/faithl/zephyrion/core/models/Items.kt:163-202 | in an independent workspace another owner's rows on the page are untouched by a write, and that owner's agreeing page entry still agrees |
| Items.OtherOwnerRowsKept | src/main/kotlin/com/faithl/zephyrion/core/models/Items.kt:163-191 | in an independent workspace another owner's page rows are the same after a write |
| AutoPickups.FormOf | src/main/kotlin/com/faithl/zephyrion/core/models/AutoPickups.kt:139-178 | a rule's form is decided by its prefix, matched ignoring case, in the order: `type:`, `name:`, `lore:`, `regex:`, `regex-lore:`; a rule with none of them is a bare name substring |
| AutoPickups.RuleForms | src/main/kotlin/com/faithl/zephyrion/core/models/AutoPickups.kt:139-178 | `type:X` holds exactly when the material equals X ignoring case, `name:X` exactly when the name contains X ignoring case, `lore:X` exactly when some lore line contains X ignoring case; a `regex:` or `regex-lore:` pattern that does not compile never matches |
| AutoPickups.FindMatch | src/main/kotlin/com/faithl/zephyrion/core/models/AutoPickups.kt:107-118 | the loop answers whether some rule of the kind matches the item |
| AutoPickups.Decide | src/main/kotlin/com/faithl/zephyrion/core/models/AutoPickups.kt:99-121 | the loops answer the rule decision for the item |
| AutoPickups.DecisionSpec | src/main/kotlin/com/faithl/zephyrion/core/models/AutoPickups.kt:99-121 | the decision is false exactly when some deny rule matches, true exactly when no deny rule matches and some allow rule does, none for a vault without rules, and it does not depend on the rules' order |
| AutoPickups.ShouldAutoPickup | src/main/kotlin/com/faithl/zephyrion/core/models/AutoPickups.kt:99-121 | `shouldAutoPickup` decides over the vault's rules as the rule cache serves them |
| AutoPickups.GetByType | src/main/kotlin/com/faithl/zephyrion/core/models/AutoPickups.kt:49-54 | answers the served rules of the given kind, in order |
| AutoPickups.CreateReply | src/main/kotlin/com/faithl/zephyrion/core/models/AutoPickups.kt:56-79 | success exactly when the value is not blank and the vault has no rule of that kind and value; a blank value is refused with `auto_pickup_value_empty`, a duplicate with `auto_pickup_already_exists` |
| AutoPickups.Create | src/main/kotlin/com/faithl/zephyrion/core/models/AutoPickups.kt:56-79 | a refused creation inserts nothing; a successful one inserts the rule with the next id and both timestamps now and drops the vault's rule cache entry |
| AutoPickups.Clear | src/main/kotlin/com/faithl/zephyrion/core/models/AutoPickups.kt:84-94 | answers the number of rules the vault had as served, deletes every rule of the vault and drops its rule cache entry |
| AutoPickups.DeleteRule | src/main/kotlin/com/faithl/zephyrion/core/models/AutoPickups.kt:192-201 | always answers true, deletes the rule's row and drops its vault's rule cache entry |
| AutoPickups.UpdateValue | src/main/kotlin/com/faithl/zephyrion/core/models/AutoPickups.kt:203-219 | refuses a blank value with `auto_pickup_value_empty`, changing nothing; otherwise sets the value and timestamp, writes the row and drops the rule cache entry |
| AutoPickups.CreateKeepsRulesUnique | src/main/kotlin/com/faithl/zephyrion/core/models/AutoPickups.kt:56-79 | with a coherent rule cache, a successful creation keeps "no two rules of a vault share kind and value" |
| AutoPickups.InvalidatedIsCoherent | src/main/kotlin/com/faithl/zephyrion/core/models/AutoPickups.kt:75-77 | once the vault's rule entry is dropped the cache is coherent with any store |
| AutoPickups.ClearCountsStored | src/main/kotlin/com/faithl/zephyrion/core/models/AutoPickups.kt:84-94 | with a coherent cache the count answered is the number of stored rules, and none of the vault's rules remain after the clear |
| AutoPickups.UpdateCanDuplicate | src/main/kotlin/com/faithl/zephyrion/core/models/AutoPickups.kt:203-219 | `updateValue` does not check for duplicates: it can give two rules of a vault the same kind and value |
| Settings.Get | src/main/kotlin/com/faithl/zephyrion/core/models/Settings.kt:31-33 | `get` answers the value as the setting cache serves it for (vault, setting, owner); the cache is unchanged on a hit, holds the loaded value on a miss that finds one, and only loses an expired entry otherwise |
| Settings.GetOrDefault | src/main/kotlin/com/faithl/zephyrion/core/models/Settings.kt:38-40 | answers the default exactly when no value is served, else the served value; the cache changes as in `get` |
| Settings.Create | src/main/kotlin/com/faithl/zephyrion/core/models/Settings.kt:70-83 | inserts a row with the next id and both timestamps now and caches the value |
| Settings.Set | src/main/kotlin/com/faithl/zephyrion/core/models/Settings.kt:45-65 | updates the existing row's value and timestamp when one matches (vault, setting, owner), otherwise inserts one as `create` does; either way the value is cached |
| Settings.Delete | src/main/kotlin/com/faithl/zephyrion/core/models/Settings.kt:88-98 | deletes every matching row and drops exactly that one cache key |
| Settings.UpdateValue | src/main/kotlin/com/faithl/zephyrion/core/models/Settings.kt:111-119 | sets the value and timestamp and rewrites the row of that id; the cache is not touched |
| Settings.SetThenGet | src/main/kotlin/com/faithl/zephyrion/core/models/Settings.kt:31-65 | after `set` the value is served while the cache entry lives, whatever the store holds |
| Settings.SetKeepsOneRow | src/main/kotlin/com/faithl/zephyrion/core/models/Settings.kt:45-62 | `set` keeps at most one row per (vault, setting, owner), keeps ids below the next id, and the store then holds the new value for the key |
| Settings.UpdateKeepsOneRow | src/main/kotlin/com/faithl/zephyrion/core/models/Settings.kt:54-59 | the update branch keeps one row per key and stores the new value |
| Settings.InsertKeepsOneRow | src/main/kotlin/com/faithl/zephyrion/core/models/Settings.kt:60-62 | the insert branch, taken only when no row matches, keeps one row per key and stores the new value |
| Settings.DeleteForgets | src/main/kotlin/com/faithl/zephyrion/core/models/Settings.kt:88-98 | after `delete` no value is served for the key |
| Settings.UpdateLeavesCacheStale | src/main/kotlin/com/faithl/zephyrion/core/models/Settings.kt:111-119 | while the key is cached, a store change such as `updateValue` makes no difference to what `get` answers |
| Api.ReasonCodeInjective | src/main/kotlin/com/faithl/zephyrion/api/ZephyrionAPI.kt:48-125 | distinct refusals of workspace and vault names carry distinct reason codes |
| Api.StaticFault | src/main/kotlin/com/faithl/zephyrion/api/ZephyrionAPI.kt:48-61 | a null name is invalid; otherwise the name is refused for the first of the static tests (space, colour marker while allowed-colour is on, blacklist, length bounds) it fails, having passed every earlier one, and accepted exactly when it passes them all |
| Api.Verdict | src/main/kotlin/com/faithl/zephyrion/api/ZephyrionAPI.kt:48-68 | a static fault is answered with its reason code; with none, an existing name is answered with the "already exists" code; success exactly when neither applies, and then with no reason |
| Api.ValidateWorkspaceName | src/main/kotlin/com/faithl/zephyrion/api/ZephyrionAPI.kt:48-68 | answers the verdict of the static tests and, only when they pass, of the lookup of the owner's workspace of that name, which is the only step that touches the cache |
| Api.CreateWorkspace | src/main/kotlin/com/faithl/zephyrion/api/ZephyrionAPI.kt:72-92 | a refused name is answered unchanged, and then a missing type gives `workspace_type_invalid`, neither touching the quota rows or the workspaces; otherwise the owner's quota is read through the cache, and the answer is a success exactly when one more workspace is within the limit and the compare-and-swap on `workspace_used` hits, else `workspace_quota_exceeded`; a success inserts the workspace, caches the incremented quota and drops the owner's cached list; quota rows and cache are stated in full |
| Api.ValidateVaultName | src/main/kotlin/com/faithl/zephyrion/api/ZephyrionAPI.kt:102-123 | the same tests with the vault options and codes; the lookup is `getVault` among the workspace's vaults as served |
| Api.CreateVault | src/main/kotlin/com/faithl/zephyrion/api/ZephyrionAPI.kt:125-132 | the answer is the validation verdict; exactly on success a vault of size 0 is inserted; the cache is as the name check's vault-list read left it, minus the workspace's vault list on success |
| Api.CreateAutoPickup | src/main/kotlin/com/faithl/zephyrion/api/ZephyrionAPI.kt:272-280 | answers as `createAutoPickup`; a created rule drops the vault's cached rules and the per-player rule-vault lists; a refusal leaves the cache as the duplicate check's rule read left it (untouched for a blank value) |
| Api.DeleteAutoPickup | src/main/kotlin/com/faithl/zephyrion/api/ZephyrionAPI.kt:283-291 | the rule is always deleted, the vault's cached rules and the per-player lists always dropped |
| Api.ClearAutoPickups | src/main/kotlin/com/faithl/zephyrion/api/ZephyrionAPI.kt:294-302 | answers the number of the vault's rules, deletes them and the vault's cached rules, and drops the per-player lists exactly when there were some |
| Api.UpdateAutoPickup | src/main/kotlin/com/faithl/zephyrion/api/ZephyrionAPI.kt:305-313 | answers as `updateValue`; an accepted value rewrites the rule's row (value and timestamp), drops the vault's cached rules and the per-player lists; a refusal changes nothing |
| Api.FirstFailureWins | src/main/kotlin/com/faithl/zephyrion/api/ZephyrionAPI.kt:48-61 | a name with a space is invalid whatever else is wrong with it; a colour marker (while forbidden) comes before the blacklist, the blacklist before the length; the static tests never answer "already exists" |
| Api.AcceptedWorkspaceName | src/main/kotlin/com/faithl/zephyrion/api/ZephyrionAPI.kt:48-68 | a workspace name is accepted exactly when it has no space, no colour marker while the option is on, is not blacklisted, has an allowed length and no stored workspace of the owner's has that name |
| RowStore.Rows | src/main/kotlin/com/faithl/zephyrion/core/models/Items.kt:138-153 | a store selection yields only rows that satisfy its condition |
| RowStore.RowsComplete | src/main/kotlin/com/faithl/zephyrion/core/models/Items.kt:138-153 | every stored row with an id below the next id that satisfies the condition is selected |
| RowStore.RowsSound | src/main/kotlin/com/faithl/zephyrion/core/models/Items.kt:138-153 | every selected row is a stored row with an id below the next id |
| RowStore.RowsIncreasing | src/main/kotlin/com/faithl/zephyrion/storage/Tables.kt:312-330 | a selection lists rows in increasing auto-increment id order, every id below the next id |
| RowStore.RowsFilter | src/main/kotlin/com/faithl/zephyrion/core/models/Items.kt:108-122 | filtering a selection by a second condition is the selection by both |
| RowStore.RowsAfterDelete | src/main/kotlin/com/faithl/zephyrion/core/models/Items.kt:168-186 | selecting after a delete is selecting the rows that satisfy the condition and not the delete's |
| RowStore.FirstRow | src/main/kotlin/com/faithl/zephyrion/core/models/Settings.kt:46-52 | `firstOrNull` over a selection is its first row, none exactly when the selection is empty |
| RowStore.DeleteWhere | src/main/kotlin/com/faithl/zephyrion/core/models/Vaults.kt:244-262 | a delete keeps exactly the rows that do not match its condition, unchanged |
| RowStore.Rewritten | src/main/kotlin/com/faithl/zephyrion/core/models/Settings.kt:54-59 | an update by condition rewrites the value and timestamp of exactly the matching rows and keeps the key set |
| RowStore.Assign | src/main/kotlin/com/faithl/zephyrion/core/models/Quotas.kt:88-91 | setting columns changes exactly the columns named and keeps the row's id and player |
| RowStore.Written | src/main/kotlin/com/faithl/zephyrion/core/models/Vaults.kt:100-107 | a guarded update of the quota table touches only the player's row, and that only when the guard holds of it |
| RowStore.QuotaTable.Update | src/main/kotlin/com/faithl/zephyrion/core/models/Vaults.kt:100-111 | the update affects one row exactly when the player's row satisfies the guard, none otherwise; the rows become the guarded write |
| RowStore.QuotaTable.Insert | src/main/kotlin/com/faithl/zephyrion/core/cache/QuotaCache.kt:63-87 | inserting a player's quota stores it under the player with the next id |
| RowStore.Database.constructor | src/main/kotlin/com/faithl/zephyrion/storage/Tables.kt:8-569 | an empty store: each of the six tables starts with no rows |
| RowStore.QuotaTable.constructor | src/main/kotlin/com/faithl/zephyrion/storage/Tables.kt:8-107 | the quota table starts empty, with auto-increment id 1 next |
| RowStore.WorkspaceTable.constructor | src/main/kotlin/com/faithl/zephyrion/storage/Tables.kt:112-216 | the workspace table starts empty, with auto-increment id 1 next |
| RowStore.WorkspaceTable.Insert | src/main/kotlin/com/faithl/zephyrion/core/models/Workspaces.kt:132-142 | an insert stores the row under the next auto-increment id, a fresh one, and advances the counter |
| RowStore.WorkspaceTable.SetMembers | src/main/kotlin/com/faithl/zephyrion/core/models/Workspaces.kt:160-166 | an update by id rewrites the members and timestamp of that row only; a missing id changes nothing |
| RowStore.WorkspaceTable.Delete | src/main/kotlin/com/faithl/zephyrion/core/models/Workspaces.kt:289-291 | a delete by id removes that row only |
| RowStore.VaultTable.constructor | src/main/kotlin/com/faithl/zephyrion/storage/Tables.kt:217-311 | the vault table starts empty, with auto-increment id 1 next |
| RowStore.VaultTable.Insert | src/main/kotlin/com/faithl/zephyrion/core/models/Vaults.kt:62-71 | an insert stores the row under the next auto-increment id, a fresh one, and advances the counter |
| RowStore.VaultTable.SetSize | src/main/kotlin/com/faithl/zephyrion/core/models/Vaults.kt:116-121 | an update by id rewrites the size and timestamp of that row only; a missing id changes nothing |
| RowStore.VaultTable.Delete | src/main/kotlin/com/faithl/zephyrion/core/models/Vaults.kt:262-264 | a delete by id removes that row only |
| RowStore.ItemTable.constructor | src/main/kotlin/com/faithl/zephyrion/storage/Tables.kt:312-396 | the item table starts empty, with auto-increment id 1 next |
| RowStore.ItemTable.Insert | src/main/kotlin/com/faithl/zephyrion/core/models/Items.kt:189-191 | an insert stores the row under the next auto-increment id, a fresh one, and advances the counter |
| RowStore.ItemTable.DeleteAll | src/main/kotlin/com/faithl/zephyrion/core/models/Items.kt:169-186 | a delete by condition keeps exactly the rows that fail it |
| RowStore.SettingTable.constructor | src/main/kotlin/com/faithl/zephyrion/storage/Tables.kt:397-489 | the setting table starts empty, with auto-increment id 1 next |
| RowStore.SettingTable.Insert | src/main/kotlin/com/faithl/zephyrion/core/models/Settings.kt:71-80 | an insert stores the row under the next auto-increment id, a fresh one, and advances the counter |
| RowStore.SettingTable.DeleteAll | src/main/kotlin/com/faithl/zephyrion/core/models/Settings.kt:89-95 | a delete by condition keeps exactly the rows that fail it |
| RowStore.SettingTable.SetValueWhere | src/main/kotlin/com/faithl/zephyrion/core/models/Settings.kt:55-59 | an update by condition rewrites the value and timestamp of exactly the matching rows |
| RowStore.RuleTable.constructor | src/main/kotlin/com/faithl/zephyrion/storage/Tables.kt:490-569 | the rule table starts empty, with auto-increment id 1 next |
| RowStore.RuleTable.Insert | src/main/kotlin/com/faithl/zephyrion/core/models/AutoPickups.kt:68-76 | an insert stores the row under the next auto-increment id, a fresh one, and advances the counter |
| RowStore.RuleTable.DeleteAll | src/main/kotlin/com/faithl/zephyrion/core/models/AutoPickups.kt:88-90 | a delete by condition keeps exactly the rows that fail it |
| RowStore.RuleTable.Delete | src/main/kotlin/com/faithl/zephyrion/core/models/AutoPickups.kt:193-195 | a delete by id removes that row only |
| RowStore.RuleTable.SetValue | src/main/kotlin/com/faithl/zephyrion/core/models/AutoPickups.kt:211-216 | an update by id rewrites the value and timestamp of that row only; a missing id changes nothing |
| AutoPickupService.RuleVaultCache.InvalidateCache | src/main/kotlin/com/faithl/zephyrion/core/services/AutoPickupService.kt:100-102 | drops exactly the player's remembered rule vaults |
| AutoPickupService.RuleVaultCache.InvalidateAllCache | src/main/kotlin/com/faithl/zephyrion/core/services/AutoPickupService.kt:104-106 | forgets every player's rule vaults |
| AutoPickupService.WithRules | src/main/kotlin/com/faithl/zephyrion/core/services/AutoPickupService.kt:92-94 | keeps, in order, exactly the vaults whose batch-loaded rule list is non-empty |
| AutoPickupService.Ids | src/main/kotlin/com/faithl/zephyrion/core/services/AutoPickupService.kt:90 | the vaults' ids, position by position |
| AutoPickupService.IdsCover | src/main/kotlin/com/faithl/zephyrion/core/services/AutoPickupService.kt:90-94 | a batch keyed by every vault id has an entry for each vault, so the filter never meets a missing id |
| AutoPickupService.GetOrCacheVaultRules | src/main/kotlin/com/faithl/zephyrion/core/services/AutoPickupService.kt:74-98 | a remembered list is answered as is with nothing else touched; otherwise the joined workspaces are read, their vaults gathered and their rules batch-loaded through the cache, and exactly the vaults with rules are remembered for the player and answered; the three reads' results and the final cache are stated in full |
| AutoPickupService.UsedSlots | src/main/kotlin/com/faithl/zephyrion/core/services/AutoPickupService.kt:120-121 | the (page, slot) pairs of exactly the items read |
| AutoPickupService.FreeSlot | src/main/kotlin/com/faithl/zephyrion/core/services/AutoPickupService.kt:123-133 | the page-then-slot scan answers the first free usable position, as `FirstFree` defines it |
| AutoPickupService.StoreItemInVault | src/main/kotlin/com/faithl/zephyrion/core/services/AutoPickupService.kt:108-135 | a vault with no size stores nothing and touches nothing; otherwise the vault's items are read through the cache and the stack is set into the chosen slot with the player as writer, and it is stored exactly when a slot was chosen; the cache, rows and counter after it are stated in full |
| AutoPickupService.ChosenSlotSpec | src/main/kotlin/com/faithl/zephyrion/core/services/AutoPickupService.kt:108-135 | a chosen slot lies inside the vault, is free, and every earlier position in page-then-slot order is used; none is chosen exactly when every usable position is used, and always for a vault with no size |
| AutoPickupService.OnPickup | src/main/kotlin/com/faithl/zephyrion/core/services/AutoPickupService.kt:42-72 | without permission nothing changes; otherwise the vaults tried are the rule vaults `getOrCacheVaultRules` answers, and the vault stored in, the cache and the item rows are those of trying them in order and stopping at the first that stores the stack |
| AutoPickupService.TryVaults | src/main/kotlin/com/faithl/zephyrion/core/services/AutoPickupService.kt:58-71 | the vault stored in, the cache, the item rows and the counter are those of trying each vault in turn, each try seeing the state the earlier ones left, and stopping at the first that stores the stack |
| AutoPickupService.TryVault | src/main/kotlin/com/faithl/zephyrion/core/services/AutoPickupService.kt:59-62 | the vault stores the stack exactly when its rules as served decide to pick it up and a free slot is chosen; the cache, rows and counter are those of the rule read followed, when the rules allow, by the store |
| AutoPickupService.TriesStoreAtMostOnce | src/main/kotlin/com/faithl/zephyrion/core/services/AutoPickupService.kt:58-71 | trying a list stores at most one row: with no vault stored in the rows and counter are unchanged, otherwise the vault is one of the list and the one new row holds the stack in that vault |
| VaultSync.AddViewer | src/main/kotlin/com/faithl/zephyrion/core/services/VaultSyncService.kt:43-45 | after adding, the player is a viewer and the viewers are the old ones plus the player; a list without duplicates stays without them |
| VaultSync.RemoveFirst | src/main/kotlin/com/faithl/zephyrion/core/services/VaultSyncService.kt:52 | `remove` takes out one occurrence: a list without the player is unchanged, otherwise it is one shorter, and every other player stays exactly as present as before |
| VaultSync.RemoveFirstDistinct | src/main/kotlin/com/faithl/zephyrion/core/services/VaultSyncService.kt:52 | removing a player from a list without duplicates leaves no trace of them and no duplicates |
| VaultSync.OnlineOnly | src/main/kotlin/com/faithl/zephyrion/core/services/VaultSyncService.kt:102 | `removeIf { !isOnline }` keeps, in order, exactly the online viewers |
| VaultSync.OnlineOnlyDistinct | src/main/kotlin/com/faithl/zephyrion/core/services/VaultSyncService.kt:102 | the sweep keeps a list without duplicates without them |
| VaultSync.FindGroup | src/main/kotlin/com/faithl/zephyrion/core/services/VaultSyncService.kt:40 | `find` answers an index of a group with the (vault, page) key, and none only when no group has that key |
| VaultSync.FindSearchGroup | src/main/kotlin/com/faithl/zephyrion/core/services/VaultSyncService.kt:62 | the same lookup by (vault, search parameters) |
| VaultSync.Swept | src/main/kotlin/com/faithl/zephyrion/core/services/VaultSyncService.kt:117-120 | sweeping the search groups keeps their number and order |
| VaultSync.ViewerRegistry.Register | src/main/kotlin/com/faithl/zephyrion/core/services/VaultSyncService.kt:37-46 | nothing for an independent vault; otherwise the page's group is found or appended and holds the player; the search groups are untouched and the registry stays valid |
| VaultSync.ViewerRegistry.Unregister | src/main/kotlin/com/faithl/zephyrion/core/services/VaultSyncService.kt:48-57 | nothing for an independent vault; otherwise the player leaves the page's group and an emptied group is removed |
| VaultSync.ViewerRegistry.RegisterSearch | src/main/kotlin/com/faithl/zephyrion/core/services/VaultSyncService.kt:59-68 | nothing for an independent vault; otherwise the search's group is found or appended and holds the player |
| VaultSync.ViewerRegistry.UnregisterSearch | src/main/kotlin/com/faithl/zephyrion/core/services/VaultSyncService.kt:70-80 | nothing for an independent vault; otherwise the player leaves every search group of the vault and emptied groups are removed |
| VaultSync.ViewerRegistry.SyncItemChange | src/main/kotlin/com/faithl/zephyrion/core/services/VaultSyncService.kt:82-114 | a slot outside 0..35 changes nothing; for an independent vault only the operator, when viewing the page, is patched; otherwise the page's group loses its offline viewers, every remaining one is patched, and the vault's search views are swept and rebuilt |
| VaultSync.ViewerRegistry.RefreshSearchViewers | src/main/kotlin/com/faithl/zephyrion/core/services/VaultSyncService.kt:116-140 | the vault's search groups lose their offline viewers and one rebuild is listed per viewer, or only the operator in an independent vault |
| VaultSync.ViewerRegistry.RefreshAllViewers | src/main/kotlin/com/faithl/zephyrion/core/services/VaultSyncService.kt:142-156 | nothing for an independent vault or a page without a group; otherwise the group is removed and its online viewers get their views reopened |
| VaultSync.SweepAndRefresh | src/main/kotlin/com/faithl/zephyrion/core/services/VaultSyncService.kt:117-139 | the loop answers the swept groups and the rebuilds they call for |
| VaultSync.SweptStep | src/main/kotlin/com/faithl/zephyrion/core/services/VaultSyncService.kt:117-120 | sweeping one more group appends that group swept |
| VaultSync.RefreshesStep | src/main/kotlin/com/faithl/zephyrion/core/services/VaultSyncService.kt:119-138 | the rebuilds of one more group are those of the others followed by that group's |
| VaultSync.RegisterValid | src/main/kotlin/com/faithl/zephyrion/core/services/VaultSyncService.kt:37-46 | registration keeps one group per key and no viewer twice, puts the player among the page's viewers, and leaves every other page's viewers as they were |
| VaultSync.RegisterFoundValid | src/main/kotlin/com/faithl/zephyrion/core/services/VaultSyncService.kt:40-45 | the same, when the page already has a group |
| VaultSync.RegisterNewValid | src/main/kotlin/com/faithl/zephyrion/core/services/VaultSyncService.kt:41-45 | the same, when a new group is appended |
| VaultSync.SameKeysSameFind | src/main/kotlin/com/faithl/zephyrion/core/services/VaultSyncService.kt:40 | groups with the same keys in the same order give the same lookup |
| VaultSync.AppendOtherFind | src/main/kotlin/com/faithl/zephyrion/core/services/VaultSyncService.kt:41 | appending a group changes the lookup only for a key no earlier group has |
| VaultSync.UnregisterValid | src/main/kotlin/com/faithl/zephyrion/core/services/VaultSyncService.kt:48-57 | unregistering keeps the registry valid and the player is no longer among the page's viewers |
| VaultSync.RemoveAtValid | src/main/kotlin/com/faithl/zephyrion/core/services/VaultSyncService.kt:55 | removing a group keeps the registry valid |
| VaultSync.UnregisterUndoesRegister | src/main/kotlin/com/faithl/zephyrion/core/services/VaultSyncService.kt:37-57 | unregistering a player just registered, who was in no group of that page, restores the groups |
| VaultSync.RemoveLast | src/main/kotlin/com/faithl/zephyrion/core/services/VaultSyncService.kt:52 | removing a player just appended to a list without them restores it |
| VaultSync.SearchRegisterValid | src/main/kotlin/com/faithl/zephyrion/core/services/VaultSyncService.kt:59-68 | search registration keeps one group per key and no viewer twice |
| VaultSync.SearchLeftValid | src/main/kotlin/com/faithl/zephyrion/core/services/VaultSyncService.kt:70-80 | after `unregisterSearch` the registry is valid, the player is in no group of the vault, no group of the vault is empty and other vaults' groups are kept |
| VaultSync.SweptValid | src/main/kotlin/com/faithl/zephyrion/core/services/VaultSyncService.kt:116-120 | the sweep keeps the registry valid and every key, and leaves only online viewers in the vault's groups |
| VaultSync.IndependentHasNoGroup | src/main/kotlin/com/faithl/zephyrion/core/services/VaultSyncService.kt:38 | an independent vault never gets a viewer group, so it has no viewers to broadcast to |
| AutoReplaceService.ListedKind | src/main/kotlin/com/faithl/zephyrion/core/services/AutoReplaceService.kt:19-63 | every material listed in a tool group is of that group's kind |
| AutoReplaceService.ToolGroupsDisjoint | src/main/kotlin/com/faithl/zephyrion/core/services/AutoReplaceService.kt:19-63 | no material is listed in two tool groups |
| AutoReplaceService.GroupMapFinds | src/main/kotlin/com/faithl/zephyrion/core/services/AutoReplaceService.kt:66-68 | for disjoint groups the reverse map is defined exactly on the listed materials and sends each to the one group listing it |
| AutoReplaceService.MaterialToGroupSpec | src/main/kotlin/com/faithl/zephyrion/core/services/AutoReplaceService.kt:66-70 | `materialToGroup` is defined exactly on `toolMaterials` and maps each tool material to its group |
| AutoReplaceService.ReplacementGroup | src/main/kotlin/com/faithl/zephyrion/core/services/AutoReplaceService.kt:99 | the replacement set always holds the broken material; it is that material alone when it is no tool, else exactly its group |
| AutoReplaceService.InVault | src/main/kotlin/com/faithl/zephyrion/core/services/AutoReplaceService.kt:107 | each item read from a vault is paired with that vault, in order |
| AutoReplaceService.FirstCandidate | src/main/kotlin/com/faithl/zephyrion/core/services/AutoReplaceService.kt:102-117 | there is no candidate exactly when no vault has matching items; otherwise the first candidate is the least-positioned matching item of the first vault that has any |
| AutoReplaceService.TryReplaceItem | src/main/kotlin/com/faithl/zephyrion/core/services/AutoReplaceService.kt:92-123 | the joined workspaces are those served, and with none nothing more happens; otherwise each workspace's vaults are read in order, and each vault's items of the group sorted by position, each read through the cache the earlier ones left; nothing is removed when there is no candidate, else exactly the first candidate is removed from its slot and handed over; the cache and item rows after it are stated in full |
| AutoReplaceService.ScanVaults | src/main/kotlin/com/faithl/zephyrion/core/services/AutoReplaceService.kt:105-108 | list k is vault k's items as the cache left by the earlier reads serves them, narrowed to the group and sorted by (page, slot), so each is sorted and in the group; the cache ends as those reads leave it |
| AutoReplaceService.OnPlayerItemBreak | src/main/kotlin/com/faithl/zephyrion/core/services/AutoReplaceService.kt:73-90 | a player without permission, or a broken item that is no tool, changes nothing; otherwise the replacement, cache and item rows are those `tryReplaceItem` produces for the broken tool's group, and a replacement is always of that group |
| AutoReplaceService.ReplaceWithin | src/main/kotlin/com/faithl/zephyrion/core/services/AutoReplaceService.kt:92-123 | `tryReplaceItem` for a given tool group, with the same contract |
| AutoReplaceService.WalkWorkspaces | src/main/kotlin/com/faithl/zephyrion/core/services/AutoReplaceService.kt:104-109 | the vaults and lists gathered, and the cache, are those of reading each workspace's vaults and then their items, in order |
| AutoReplaceService.HandOver | src/main/kotlin/com/faithl/zephyrion/core/services/AutoReplaceService.kt:111-122 | with no candidate nothing changes; otherwise the first candidate is removed from its slot and returned |
| AutoReplaceService.ScannedSorted | src/main/kotlin/com/faithl/zephyrion/core/services/AutoReplaceService.kt:105-108 | every list a scan gathers is sorted by position and holds only materials of the group |
| AutoReplaceService.WalkedSorted | src/main/kotlin/com/faithl/zephyrion/core/services/AutoReplaceService.kt:104-109 | every list the whole walk gathers is sorted by position and holds only materials of the group |
| AutoPickupService.RuleVaultCache.constructor | src/main/kotlin/com/faithl/zephyrion/core/services/AutoPickupService.kt:24 | the per-player rule-vault memo starts empty |
| VaultSync.ViewerRegistry.constructor | src/main/kotlin/com/faithl/zephyrion/core/services/VaultSyncService.kt:34-35 | the registry starts with no viewer groups and no search viewer groups, and is valid |
| AutoPickupService.GatherVaults | src/main/kotlin/com/faithl/zephyrion/core/services/AutoPickupService.kt:83-87 | the gathered list is each workspace's vault list as the vault cache serves it, in workspace order, each read seeing the cache the earlier reads left; the cache ends as those reads leave it |
| AutoPickupService.GatheredAllCached | src/main/kotlin/com/faithl/zephyrion/core/services/AutoPickupService.kt:83-87 | when every workspace's vault list is cached, gathering changes no cache entry and yields exactly the vaults of the cached lists |
| VaultScreen.KotlinRem | src/main/kotlin/com/faithl/zephyrion/core/ui/vault/VaultUI.kt:567 | the remainder has the dividend's sign: the Euclidean remainder for a non-negative size, its negation for a negative one |
| VaultScreen.UnlockedIff | src/main/kotlin/com/faithl/zephyrion/core/ui/vault/VaultUI.kt:565-578 | for a vault of non-negative size and a page in range, a slot is left unlocked by `getLockedSlots` exactly when its slot index (page - 1) * 36 + slot lies below the size |
| VaultScreen.SearchMaxPage | src/main/kotlin/com/faithl/zephyrion/core/ui/vault/VaultUI.kt:55-58 | at least one page; one page for no results; otherwise the least number of 36-slot pages that holds every result |
| VaultScreen.SearchPageItems | src/main/kotlin/com/faithl/zephyrion/core/ui/vault/VaultUI.kt:63-71 | at most 36 results, each the result at its offset from the page's start; exactly the remaining results up to 36 when the page starts inside the list; nothing past the end |
| VaultScreen.ItemByVirtualSlot | src/main/kotlin/com/faithl/zephyrion/core/ui/vault/VaultUI.kt:76-79 | a result exactly when the virtual index is inside the results, and then the result at that index |
| VaultScreen.ResultOnItsPage | src/main/kotlin/com/faithl/zephyrion/core/ui/vault/VaultUI.kt:55-79 | every result lies on a search page in range, at the position of its virtual slot, and that virtual slot resolves back to it |
| VaultScreen.PrevPageTarget | src/main/kotlin/com/faithl/zephyrion/core/ui/vault/VaultUI.kt:467-471 | the previous-page button opens a page exactly when the page is not the first, and then page - 1 |
| VaultScreen.NextPageTarget | src/main/kotlin/com/faithl/zephyrion/core/ui/vault/VaultUI.kt:472-476 | the next-page button opens a page exactly when the page is not the vault's last, and then page + 1 |
| VaultScreen.PageTurnsStayInRange | src/main/kotlin/com/faithl/zephyrion/core/ui/vault/VaultUI.kt:444-477 | from a page in range, both page-turn buttons land on pages in range |
| VaultScreen.PageReadFrame | src/main/kotlin/com/faithl/zephyrion/core/ui/vault/VaultUI.kt:92 | reading one page through the item cache leaves what every other page reads unchanged |
| VaultScreen.VaultUI.constructor | src/main/kotlin/com/faithl/zephyrion/core/ui/vault/VaultUI.kt:31-40 | the screen opens on the given page with no search parameters, no results and search page 1 |
| VaultScreen.VaultUI.PrevSearchPage | src/main/kotlin/com/faithl/zephyrion/core/ui/vault/VaultUI.kt:306-311 | the search page goes down by one unless it is the first; the search page stays in range and nothing else changes |
| VaultScreen.VaultUI.NextSearchPage | src/main/kotlin/com/faithl/zephyrion/core/ui/vault/VaultUI.kt:312-317 | the search page goes up by one unless it is the last; the search page stays in range and nothing else changes |
| VaultScreen.VaultUI.RefreshSearchResults | src/main/kotlin/com/faithl/zephyrion/core/ui/vault/VaultUI.kt:271-278 | the results are the search filter applied to the vault's items as the cache serves them; a search page past the new last page goes back to 1; the cache ends as the vault read leaves it |
| VaultScreen.VaultUI.Search | src/main/kotlin/com/faithl/zephyrion/core/ui/vault/VaultUI.kt:556-561 | without parameters nothing changes, the cache included; with parameters the results are the search over the vault's items, the search page is 1 and the cache ends as the vault read leaves it |
| VaultScreen.VaultUI.ExitSearch | src/main/kotlin/com/faithl/zephyrion/core/ui/vault/VaultUI.kt:352-360 | leaving search mode clears the parameters and the results and resets both pages to 1 |
| VaultScreen.VaultUI.FindFirstAvailableSlot | src/main/kotlin/com/faithl/zephyrion/core/ui/vault/VaultUI.kt:85-101 | for a vault of non-negative size, the answer is the first (page, slot) whose slot index below the size has no item, as the page reads saw the cache at the start, and none when every such index is taken |
| VaultScreen.ScanPage | src/main/kotlin/com/faithl/zephyrion/core/ui/vault/VaultUI.kt:93-98 | the first slot of the page neither occupied nor locked, with every slot before it occupied or locked; none when every slot is occupied or locked |
| VaultScreen.ReadKeepsLaterPages | src/main/kotlin/com/faithl/zephyrion/core/ui/vault/VaultUI.kt:90-100 | after page p is read, pages after p still read as they did when the scan began |
| VaultScreen.FoundSlot | src/main/kotlin/com/faithl/zephyrion/core/ui/vault/VaultUI.kt:93-96 | the slot where the scan of page p stops, with every earlier index taken, is the vault's first free slot |
| VaultScreen.PageFull | src/main/kotlin/com/faithl/zephyrion/core/ui/vault/VaultUI.kt:90-100 | a page scanned without an answer extends the prefix of taken slot indices to the end of that page |
| VaultSettings.HasPermission | src/main/kotlin/com/faithl/zephyrion/core/settings/VaultSetting.kt:49-52 | an entry without a permission is open to everyone; otherwise the opener needs the permission or plugin-admin rights; an admin may always use it |
| VaultSettings.GetValue | src/main/kotlin/com/faithl/zephyrion/core/settings/VaultSetting.kt:67-71 | nothing, with the cache untouched, for an entry without a key; otherwise the deserialised text the setting cache serves for (vault, key, opener), and nothing exactly when none is served; the cache ends as that read leaves it |
| VaultSettings.GetValueOrDefault | src/main/kotlin/com/faithl/zephyrion/core/settings/VaultSetting.kt:76-78 | the default exactly when getValue answers nothing, otherwise getValue's answer, with getValue's effect on the cache |
| VaultSettings.SetValue | src/main/kotlin/com/faithl/zephyrion/core/settings/VaultSetting.kt:83-86 | nothing changes for an entry without a key; otherwise the serialised value is set under (vault, key, opener) in the store and in the cache |
| VaultSettings.SetThenGetValue | src/main/kotlin/com/faithl/zephyrion/core/settings/VaultSetting.kt:67-86 | after setValue(v), getValue answers the deserialised text of v for as long as the cache entry lives |
| VaultSettings.AutoReplace | src/main/kotlin/com/faithl/zephyrion/core/settings/AutoReplaceSetting.kt:23-28 | the auto-replace entry is stored under `auto_replace`, uses the configured permission and is off by default |
| VaultSettings.BoolRoundTrip | src/main/kotlin/com/faithl/zephyrion/core/settings/AutoReplaceSetting.kt:32-33 | parsing a printed boolean gives it back |
| VaultSettings.DeserializeBoolIff | src/main/kotlin/com/faithl/zephyrion/core/settings/AutoReplaceSetting.kt:33 | a text parses as true exactly when it is "true" in some letter case |
| VaultSettings.OnClick | src/main/kotlin/com/faithl/zephyrion/core/settings/AutoReplaceSetting.kt:49-51 | the effective value is read through the setting cache and its negation is written to the store and the cache; the cache between the two is the read's |
| VaultSettings.ClickReadsBack | src/main/kotlin/com/faithl/zephyrion/core/settings/AutoReplaceSetting.kt:49-51 | after a click that wrote b, the entry reads b while the cache entry lives |
| VaultSettings.TwoClicksRestore | src/main/kotlin/com/faithl/zephyrion/core/settings/AutoReplaceSetting.kt:49-51 | two clicks within the cache lifetime bring the entry back to the value it had before the first |
| VaultListScreen.VaultSearch | src/main/kotlin/com/faithl/zephyrion/core/ui/vault/ListVaults.kt:36-52 | without parameters every vault of the workspace; otherwise exactly the vaults that every set filter keeps: the name contains the name text, and a description exists and contains the description text |
| VaultListScreen.VaultSearchIsSubsequence | src/main/kotlin/com/faithl/zephyrion/core/ui/vault/ListVaults.kt:36-52 | the search keeps the workspace's vaults in their order |
| VaultListScreen.MoreParamsNarrow | src/main/kotlin/com/faithl/zephyrion/core/ui/vault/ListVaults.kt:42-51 | setting one more filter yields a subsequence of the search without it |
| VaultListScreen.VaultList.constructor | src/main/kotlin/com/faithl/zephyrion/core/ui/vault/ListVaults.kt:24-30 | a new list has no parameters and no vaults |
| VaultListScreen.VaultList.Search | src/main/kotlin/com/faithl/zephyrion/core/ui/vault/ListVaults.kt:36-52 | the list is reloaded with the workspace's vaults as the vault cache serves them (the store's on a miss) and narrowed to the search over them; the cache ends as that read leaves it |
| AutoPickupListScreen.KeywordKind | src/main/kotlin/com/faithl/zephyrion/core/ui/vault/autopickup/ListAutoPickups.kt:51-54 | "pickup" and "拾取" name the pick-up kind and "not-pickup", "notpickup" and "不拾取" the not-pick-up kind, after lower-casing, and both directions hold |
| AutoPickupListScreen.RuleSearch | src/main/kotlin/com/faithl/zephyrion/core/ui/vault/autopickup/ListAutoPickups.kt:38-58 | without parameters every rule of the vault; otherwise exactly the rules whose value contains the value text in any letter case and whose kind is the one the type keyword names |
| AutoPickupListScreen.RuleSearchIsSubsequence | src/main/kotlin/com/faithl/zephyrion/core/ui/vault/autopickup/ListAutoPickups.kt:38-58 | the search keeps the vault's rules in their order |
| AutoPickupListScreen.UnknownTypeIgnored | src/main/kotlin/com/faithl/zephyrion/core/ui/vault/autopickup/ListAutoPickups.kt:49-56 | a type keyword that names no kind gives the same search as no type filter |
| AutoPickupListScreen.AutoPickupList.constructor | src/main/kotlin/com/faithl/zephyrion/core/ui/vault/autopickup/ListAutoPickups.kt:26-32 | a new list has no parameters and no rules |
| AutoPickupListScreen.AutoPickupList.Search | src/main/kotlin/com/faithl/zephyrion/core/ui/vault/autopickup/ListAutoPickups.kt:38-58 | the list is reloaded with the vault's rules as the rule cache serves them and narrowed to the search over them; the cache ends as that read leaves it |
| WorkspaceListScreen.KnownNames | src/main/kotlin/com/faithl/zephyrion/core/ui/workspace/ListWorkspaces.kt:57-59 | exactly the names the name lookup knows for the listed members |
| WorkspaceListScreen.Base | src/main/kotlin/com/faithl/zephyrion/core/ui/workspace/ListWorkspaces.kt:39-43 | exactly the joined workspaces, plus the independent workspace when there is one |
| WorkspaceListScreen.WorkspaceSearch | src/main/kotlin/com/faithl/zephyrion/core/ui/workspace/ListWorkspaces.kt:38-63 | without parameters the unfiltered list; otherwise it holds exactly the workspaces every set filter keeps, by name text, by description text and by member name |
| WorkspaceListScreen.OwnedLastPermutes | src/main/kotlin/com/faithl/zephyrion/core/ui/workspace/ListWorkspaces.kt:65-67 | sorting by ownership is a permutation |
| WorkspaceListScreen.OwnedLastSorted | src/main/kotlin/com/faithl/zephyrion/core/ui/workspace/ListWorkspaces.kt:65-67 | after the sort, the workspaces the data owner owns come after the others |
| WorkspaceListScreen.OwnedLastStable | src/main/kotlin/com/faithl/zephyrion/core/ui/workspace/ListWorkspaces.kt:65-67 | the sort is stable: the owned workspaces and the others each keep their relative order |
| WorkspaceListScreen.StableSortUnique | src/main/kotlin/com/faithl/zephyrion/core/ui/workspace/ListWorkspaces.kt:65-67 | any stable permutation with the owned workspaces last is the sort's result |
| WorkspaceListScreen.WorkspaceList.constructor | src/main/kotlin/com/faithl/zephyrion/core/ui/workspace/ListWorkspaces.kt:26-30 | the data owner is the target player when one is given, else the opener; no parameters and no workspaces |
| WorkspaceListScreen.WorkspaceList.Sort | src/main/kotlin/com/faithl/zephyrion/core/ui/workspace/ListWorkspaces.kt:65-67 | the list becomes its stable sort with the data owner's workspaces last |
| WorkspaceListScreen.WorkspaceList.Search | src/main/kotlin/com/faithl/zephyrion/core/ui/workspace/ListWorkspaces.kt:38-63 | the list is the joined workspaces of the data owner as the workspace cache serves them, plus the independent workspace as the old cache serves it when enabled, narrowed and sorted as the search defines; the cache ends as the joined read and then the independent read leave it |
| WorkspaceListScreen.WorkspaceList.LoadBase | src/main/kotlin/com/faithl/zephyrion/core/ui/workspace/ListWorkspaces.kt:39-43 | the list is reloaded with the served joined workspaces and, when enabled, the independent workspace as the old cache serves it; the cache ends as the two reads leave it |
| WorkspaceListScreen.WorkspaceList.Narrow | src/main/kotlin/com/faithl/zephyrion/core/ui/workspace/ListWorkspaces.kt:47-61 | the list keeps exactly the workspaces every set filter accepts, in order |

## Left out

- I/O and the platform: Bukkit events and scheduling, message texts, inventory building and click routing are not modelled. Item stack serialisation to Base64 is treated as an opaque value. Player and permission lookups are parameters.
- Concurrency is not modelled. Operations run one at a time. The compare-and-swap on quota usage is modelled as a guarded update, and `Vaults.RacingSwapMisses` shows that a stale read makes it match nothing.
- Shared mutable records are not modelled. The Kotlin data classes are mutated in place and shared by reference with the in-memory cache. The model copies values, as a serialising cache provider would. So a mutation of a cached object is not reflected in the cache until the code writes it back.
- The Redis cache provider is not part of this model. Only the in-memory provider is modelled, so the provider contract is stated on `MemoryCache` directly.
- Strings are sequences of characters. Whitespace (`Text.IsSpace`) is Kotlin's full set on the JVM, but case folding covers ASCII letters only, and UTF-16 surrogate pairs are not distinguished. Regular expressions in rules are a parameter (`RegexEngine`) that answers whether a pattern compiles and whether it matches.
- Timestamps are parameters. The date formatting of `getCreatedAt` and `getUpdatedAt` is left out.
- UUID parsing failures and unknown players are left out. Players are identified by their id text.
- `initializeIndependentWorkspace` (core/models/Workspaces.kt:41-67) is left out. Start-up creation of the independent workspace is plugin wiring; the model reads the independent workspace through the workspace cache.
- Workspace `rename`/`updateDesc` (core/models/Workspaces.kt:193-224) and vault `rename`/`updateDesc` (core/models/Vaults.kt:194-227) are left out. They are single-column updates followed by a cache refresh, of the same shape as `Vaults.CommitResize` and `Workspaces.AddMember`.
- `searchItemsByName` and `searchItemsByLore` (core/models/Items.kt:94-103) are left out as separate members. They are `Items.SearchItems` with one parameter set.
- The API functions that only forward to a model operation (api/ZephyrionAPI.kt:13-47, 94-100, 135-256) have no members of their own. They are represented by the members they forward to.
- In api/ZephyrionAPI.kt:258-317, `getAutoPickups`, `getAutoPickupsByType` and `shouldAutoPickup` pass an owner argument that the functions in core/models/AutoPickups.kt do not take. The model follows the signatures in AutoPickups.kt.
- `Vault.delete` calls `AutoPickupCache.invalidateByVault` (core/models/Vaults.kt:276), which core/cache/AutoPickupCache.kt does not define. The model reads it as `AutoPickupCache.invalidate` of the vault's rule list.
- `CacheService.preloadPlayerData` is left out. It warms caches for a joining player with a two-argument `AutoPickupCache.get` that does not exist (core/cache/CacheService.kt:34), and it changes no answer of any read.
- `updateQuotasByPermission` (core/models/Quotas.kt:47-77) is left out, so `getUser` is the plain quota cache read. For an online player the source rewrites the limits and the flag from the player's permission group on every read; the model behaves as the source does for an offline player.
- Cached copies of written items carry id 0, as in `setItem`. The model keeps that id, so a cached list can differ from a store read in the `id` field only. `Items.PageReadCoherent` and `Items.VaultReadCoherent` compare rows without their ids.
- VaultSync.ViewerRegistry.RefreshAllViewers: removes the page's group outright. In the source the groups are data classes in a hash set, hashed by their mutable viewer list; a group is inserted empty (core/services/VaultSyncService.kt:41) and its hash changes as viewers join, so `groups.remove(group)` (core/services/VaultSyncService.kt:150) misses unless the sweep left no viewer, and the group stays. The model keeps the groups in a sequence searched by key, as the `find` calls do.
- VaultScreen.VaultUI.FindFirstAvailableSlot: does not state the cache after the scan, and states nothing for a vault of negative size.
- Vaults.AddSize: the vault's owner is a parameter. The source resolves it through the `Vault.workspace` getter (core/models/Vaults.kt:83-85) at each use, which reads `workspace:<id>` through the workspace cache, caching it on a miss, and throws for a vault whose workspace is gone; that cache fill and that error are not modelled.
- Vaults.AddSize: gates on the corrected quota test `Vaults.AddAllowed`, not on the test as written (`Vaults.AddAllowedAsWritten`, core/models/Vaults.kt:93-95). So it refuses a sum that leaves `Int` range, where the source wraps it, passes the test and stores the wrapped used size; that includes an unlimited owner whose sum wraps. The discrepancy is the row under "## Findings".
- Vaults.RemoveSize: the owner is a parameter in place of the `Vault.workspace` getter, as for `Vaults.AddSize`; its cache fill and its error for an orphaned vault are not modelled.
- Vaults.Delete: the owner is a parameter in place of the `Vault.workspace` getter, as for `Vaults.AddSize`; its cache fill and its error for an orphaned vault are not modelled.
- Vaults.CommitResize: the owner is a parameter in place of the `Vault.workspace` getter, as for `Vaults.AddSize`.
- Items.SetItem: whether the vault is independent is a parameter in place of `vault.workspace.type` (core/models/Items.kt:164), so the getter's cache fill is not modelled. The model requires a player for an independent vault where the source dereferences `player!!` (core/models/Items.kt:165) and throws; the API's default `player = null` (api/ZephyrionAPI.kt:151-157) reaches that throw.
- Items.RemoveItem: the same as `Items.SetItem`, for `vault.workspace.type` and `player!!` at core/models/Items.kt:211-212.
- AutoPickupService.StoreItemInVault: whether the vault is independent is a parameter (`independentOf` in `OnPickup`) in place of `vault.workspace.type` (core/services/AutoPickupService.kt:115), so that read's cache fill is not modelled. `AutoReplaceService.TryReplaceItem` takes the same parameter.
- Items.GetItems: whether the vault is independent is a parameter in place of `vault.workspace.type` (core/models/Items.kt:128). The `Vault.workspace` getter (core/models/Vaults.kt:83-85) reads `workspace:<id>` through the workspace cache, caching it on a miss, and throws for a vault whose workspace is gone. So the new cache stated here leaves out that fill, and the error is not modelled.
- Items.GetAllItems: the same as `Items.GetItems`, for the `vault.workspace.type` read at core/models/Items.kt:49.
- Items.SearchItems: reads through `Items.GetAllItems`, so the workspace-cache fill and the orphan error of `vault.workspace.type` are left out as they are there.
- Items.GetItemsByMaterials: reads through `Items.GetAllItems`, so the workspace-cache fill and the orphan error of `vault.workspace.type` are left out as they are there.
- AutoReplaceService.ScanVaults: reads each vault through `Items.GetItemsByMaterials`, which reads through `Items.GetAllItems`, so the workspace-cache fill and the orphan error of `vault.workspace.type` are left out for every vault scanned.
- AutoReplaceService.WalkWorkspaces: calls `AutoReplaceService.ScanVaults` for each workspace, so the same workspace-cache fill is left out.
- AutoReplaceService.ReplaceWithin: reads the items through `AutoReplaceService.WalkWorkspaces`, so the same workspace-cache fill is left out; the candidate's removal goes through `Items.RemoveItem`, whose own line applies.
- AutoReplaceService.OnPlayerItemBreak: runs `AutoReplaceService.TryReplaceItem`, which is `AutoReplaceService.ReplaceWithin` for the tool group, so the same workspace-cache fill is left out.
- VaultScreen.VaultUI.RefreshSearchResults: reads the vault's items through `Items.SearchItems`, so the new cache stated here leaves out the workspace-cache fill inside `getAllItems`.
- VaultScreen.VaultUI.Search: refreshes the results through `VaultScreen.VaultUI.RefreshSearchResults`, so the new cache stated here leaves out the same workspace-cache fill.
- VaultSync.ViewerRegistry.Register: whether the vault is independent is a parameter. The source reads `vault.workspace.type` first (core/services/VaultSyncService.kt:38), whose getter fills the workspace cache on a miss and throws for an orphaned vault; that fill and that error are not modelled. The same holds for `Unregister`, `RegisterSearch`, `UnregisterSearch`, `SyncItemChange`, `RefreshSearchViewers` and `RefreshAllViewers` (core/services/VaultSyncService.kt:49, 60, 71, 85, 122 and 143). The registry contracts are unaffected, since the registry holds no cache.
- AutoPickupCache.BatchLoad: reads the query `"vault_id" inside arrayOf(uncachedVaultIds)` (core/cache/AutoPickupCache.kt:63) as `vault_id IN (ids)`, each id spread out. Passing the list as the one element of an array may bind differently in the SQL library, which is not part of this model.
- Workspaces.Create: the increment of `workspace_used` is not wrapped at `Int.MAX_VALUE`. Reaching it takes 2^31 - 1 workspaces of one owner, since only creation raises that counter.

## Findings

| source | as written | input that shows it | evidently intended | confidence | as-written member | corrected member |
|---|---|---|---|---|---|---|
| src/main/kotlin/com/faithl/zephyrion/core/models/Vaults.kt:93-96 | the new size in use is the `Int` sum `currentSizeUsed + add`, which wraps around before the quota test | a limited owner using 1 slot of 100 adds 2147483647 (the unlock prompt, core/ui/vault/VaultUI.kt:424, passes on any `Int` typed in): the sum wraps to -2147483648, passes the test, and the compare-and-swap stores it | refuse an addition whose sum leaves `Int` range, so the used size stays within the limit | not executed | Vaults.AddSizeWrapsPastQuota | Vaults.AddKeepsWithinQuota |
