# Settings overrides for the extension's state

This project models the override synchronisation of the letsboot fork
of the Cline VS Code extension, and proves properties of the model. The
`cline.overwriteState` and `cline.overwriteSecrets` settings documents
are pushed into the extension's three stores at startup: global state,
workspace state and secret storage. When the UI later changes a value
that came from such a document, the change is written back into the
document in settings.json.

Two variants of this logic exist side by side in the repository. They
are modelled side by side and not reconciled:

- **The general variant** (`src/storage/state-overwrite.ts`). It
  remembers the dotted paths of every key in the document, deep-merges
  plain-object values into global state at startup, routes each key to
  secret, workspace or global storage, and writes a change back only at
  a remembered path. A re-entrancy flag suppresses write-back while a
  document is being applied.
- **The older variant** (`src/fork/letsboot/state-override.ts`). It
  remembers the `JSON.stringify` text of each document already applied,
  so the same document is never applied twice. It explodes the
  `apiConfiguration` object key by key, writes `autoApprovalSettings`
  whole, and writes a change back only into a key the document already
  has.

Modules:

| file | module | what it holds |
|---|---|---|
| `json.dfy` | `JsValue` | JavaScript values. An object is an ordered entry list, because enumeration order decides which of two writes to the same store key wins. Also holds property read and assignment, truthiness, own enumerable properties, `String(v)`, and the `JSON.stringify` fingerprint. |
| `stores.dfy` | `Stores` | The three stores, as a `Snapshot` value and as the mutable `ExtensionContext` class. Also holds store writes and their laws (frame, last write wins, idempotence) and the `Configuration` class holding the two documents. |
| `overwrite_tree.dfy` | `OverwriteTree` | `deepMerge`, `flattenObjectPaths`, `getNestedValue` and `setNestedValue`. |
| `state_overwrite.dfy` | `StateOverwrite` | The general variant. The module-level sets and flag become the `OverrideTracker` class. |
| `state_override.dfy` | `StateOverride` | The older variant. The two fingerprint sets become the `AppliedOverrides` class. |

Each startup loop is an imperative method, proved equal to a function
over the document's entries:

- general variant: `StartupSteps`;
- older variant: `StartupWrites` and `SecretWrites` folded by `ApplyWrites`.

The properties the source promises are lemmas about those functions.
They hold for any routing of keys to stores: `Router` in the general
variant, `LocalTest` in the older one. The concrete key lists enter
only through the methods and the test scenario.

## Model

| member | source | states |
|---|---|---|
| JsValue.Find | src/storage/state-overwrite.ts:68-70 | A property read returns `undefined` for a missing key; otherwise it returns the value of an entry that carries that key. |
| JsValue.Put | src/fork/letsboot/state-override.ts:267 | Assigning `o[k] = v` keeps the entry count when `k` exists and otherwise appends `(k, v)`. Afterwards `k` reads `v`, every other key reads as before, and the key set gains exactly `k`. |
| JsValue.PutFind | src/fork/letsboot/state-override.ts:267 | Assigning a key its own current value gives back the same object. |
| JsValue.PutTwice | src/fork/letsboot/state-override.ts:338 | Assigning the same value to the same key twice is the same as assigning it once. |
| JsValue.OwnEntries | src/storage/state-overwrite.ts:343 | `Object.entries` and `for...in` with `hasOwnProperty`: a plain object gives its entries in order, and any value that is not an object, array or string gives none. `OwnEntriesIndexed` and `OwnEntriesDistinct` cover arrays and strings. |
| JsValue.OwnEntriesIndexed | src/fork/letsboot/state-override.ts:283 | An array or a string owns one entry per index, under the index's decimal text: the element for an array, the one-character string for a string. |
| JsValue.NatToStringInjective | src/fork/letsboot/state-override.ts:264 | Different indices have different decimal texts. |
| JsValue.OwnEntriesDistinct | src/fork/letsboot/state-override.ts:283 | The own entries of any value never repeat a key, so `{ ...v }` is a well-formed object. |
| JsValue.JsString | src/storage/state-overwrite.ts:350 | `String(v)`: a string is itself, a number its decimal text, an array its items joined by commas, and an object `[object Object]`. The stored text is what `NestedStepsRouted` and `StartupTopLevelRouted` state. |
| JsValue.Fingerprint | src/fork/letsboot/state-override.ts:21 | The `JSON.stringify` text of a document, as the value that text parses back to. `FingerprintIsJson`, `JsonIsFixed` and `FingerprintIdempotent` state its laws. |
| JsValue.FingerprintIsJson | src/fork/letsboot/state-override.ts:21 | The fingerprint of any value other than `undefined` holds no `undefined` anywhere. |
| JsValue.JsonIsFixed | src/fork/letsboot/state-override.ts:97 | A value with no `undefined` inside is its own fingerprint. |
| JsValue.FingerprintIdempotent | src/fork/letsboot/state-override.ts:97 | Fingerprinting a fingerprint gives the same fingerprint, as stringifying a parsed `JSON.stringify` text gives the text back. |
| Stores.StoreSecretWrite | src/fork/letsboot/state-override.ts:323-327 | A truthy value is stored under the key, and any other value deletes the key. |
| Stores.StoreSecretReadsBack | src/storage/state-overwrite.ts:289-291 | After the write, the secret reads back as the value when it is truthy and as `undefined` otherwise. Other secrets and both state stores are unchanged. |
| Stores.Listed | src/storage/state-overwrite.ts:162 | `keys.includes(key)`, searched from an index on. `ListedIff` and `IncludesIsMembership` state what it finds. |
| Stores.ListedIff | src/storage/state-overwrite.ts:162 | The search from index `i` finds a key exactly when some index from `i` on holds it. |
| Stores.NotListed | src/storage/state-overwrite.ts:162 | A key that no index from `i` on holds is not found. |
| Stores.IncludesIsMembership | src/fork/letsboot/state-override.ts:222 | `includes` is membership in the list. |
| Stores.ApplyWritesFrame | src/fork/letsboot/state-override.ts:31-67 | A sequence of store writes changes no store key outside the keys it targets. |
| Stores.ApplyWritesConcat | src/fork/letsboot/state-override.ts:31-67 | Performing two write sequences one after the other is performing their concatenation. |
| Stores.ApplyWritesDeterminedOutside | src/fork/letsboot/state-override.ts:31-67 | Two stores that agree outside the targeted keys end equal after the same write sequence. |
| Stores.ApplyWritesIdempotent | src/fork/letsboot/state-override.ts:31-67 | Performing the same write sequence twice leaves the stores as performing it once. |
| Stores.LastWriteWins | src/fork/letsboot/state-override.ts:43-60 | After a sequence, a store key holds what its last write wrote: the stored value, or absence for a delete. |
| Stores.ExtensionContext.UpdateGlobal | src/storage/state-overwrite.ts:368 | `globalState.update` sets the key in global state and changes nothing else. |
| Stores.ExtensionContext.UpdateWorkspace | src/storage/state-overwrite.ts:366 | `workspaceState.update` sets the key in workspace state and changes nothing else. |
| Stores.ExtensionContext.Store | src/fork/letsboot/state-override.ts:112 | `secrets.store` sets the key in secret storage and changes nothing else. |
| Stores.ExtensionContext.Delete | src/fork/letsboot/state-override.ts:114 | `secrets.delete` removes the key from secret storage and changes nothing else. |
| OverwriteTree.DeepMerge | src/storage/state-overwrite.ts:20-46 | A null or undefined source returns the target. A scalar or array source is returned as it is. A plain-object source always yields a plain object. |
| OverwriteTree.MergeEntries | src/storage/state-overwrite.ts:33-45 | The key loop of `deepMerge` over the source's own keys, first to last. `MergeEntriesLaws` and `MergeAbsorbs` state its laws. |
| OverwriteTree.MergeEntriesLaws | src/storage/state-overwrite.ts:33-45 | The merged key set is the union of the target's keys and the source's keys. A key only in the target keeps its value. A source key with a non-object value gets that value, and a source key with a plain-object value gets the recursive merge. |
| OverwriteTree.DeepMergeObjectLaws | src/test/state-overwrite.test.ts:74-98 | The same laws stated on `deepMerge` itself: siblings survive, new keys appear, and nested objects merge. |
| OverwriteTree.DeepMergeIdempotent | src/storage/state-overwrite.ts:20-46 | Merging the same well-formed override twice gives the same result as merging it once. |
| OverwriteTree.MergeAbsorbs | src/storage/state-overwrite.ts:35-43 | The key loop changes nothing when every source key already holds the value the loop would leave there. |
| OverwriteTree.DeepMergeSnoc | src/storage/state-overwrite.ts:356 | Merging the nested entries one at a time, each as a one-key object, is merging them all at once. |
| OverwriteTree.FlattenObjectPaths | src/storage/state-overwrite.ts:51-63 | The method adds to `paths` exactly the flattened paths of the object's own entries under `prefix`. |
| OverwriteTree.FlattenPaths | src/storage/state-overwrite.ts:51-63 | The tracked-path set of a document. `FlattenPathsExact` characterises it. |
| OverwriteTree.FlattenPathsExact | src/storage/state-overwrite.ts:51-63 | A path is flattened exactly when it is the dotted path of a key chain through plain objects in the document. |
| OverwriteTree.FlattenIsKeyChains | src/storage/state-overwrite.ts:51-63 | The same two-way statement at any prefix. |
| OverwriteTree.FlattenedPathIsKeyChain | src/storage/state-overwrite.ts:54-58 | Every flattened path is the path of some key chain. |
| OverwriteTree.KeyChainIsFlattened | src/storage/state-overwrite.ts:54-58 | The path of every key chain is flattened. |
| OverwriteTree.Split | src/storage/state-overwrite.ts:69 | `split(".")` never yields an empty list. |
| OverwriteTree.SplitJoin | src/storage/state-overwrite.ts:76 | Splitting a dot-joined list of dot-free keys gives the keys back. |
| OverwriteTree.TrackedPathSplits | src/storage/state-overwrite.ts:51-85 | A flattened path of plain keys splits back into exactly its key chain. |
| OverwriteTree.GetAfterSet | src/storage/state-overwrite.ts:68-85 | `getNestedValue(setNestedValue(o, p, v), p) == v`. |
| OverwriteTree.GetNested | src/storage/state-overwrite.ts:68-70 | `getNestedValue`: reads along the dot-split path. `GetAfterSet`, `GetBelowSet` and `GetAwayFromSet` state how it sees a write. |
| OverwriteTree.SetKeys | src/storage/state-overwrite.ts:76-84 | The walk of `setNestedValue` along the keys. `GetBelowSet`, `GetAwayFromSet` and `SetKeysTopLevel` state its effect. |
| OverwriteTree.SetNested | src/storage/state-overwrite.ts:75-85 | `setNestedValue` on the dot-split path. `GetAfterSet` states its effect. |
| OverwriteTree.GetBelowSet | src/storage/state-overwrite.ts:75-85 | A read along the written path, extended by further keys, sees the written value followed along those keys. |
| OverwriteTree.GetAwayFromSet | src/storage/state-overwrite.ts:75-85 | A read along a path that parts from the written path reads what it read before the write. |
| OverwriteTree.SetKeysTopLevel | src/storage/state-overwrite.ts:78-84 | A nested write adds at most the first key of its path to the top level. |
| StateOverwrite.RoutedWrite | src/storage/state-overwrite.ts:308-315 | A secret key gets `storeSecret`'s write: the value is stored when truthy, and the key deleted otherwise. A workspace key that is not secret gets the value in workspace state. Any other key gets the value in global state. |
| StateOverwrite.IsLocalStateKey | src/storage/state-overwrite.ts:90-128 | `isLocalStateKey`: membership in the workspace key list, by `KeyTestsAreMembership`. |
| StateOverwrite.IsSecretKey | src/storage/state-overwrite.ts:134-163 | `isSecretKey`: membership in the secret key list, by `KeyTestsAreMembership`. |
| StateOverwrite.KeyTestsAreMembership | src/storage/state-overwrite.ts:90-163 | A key is a secret key exactly when it is in the secret list, and a workspace key exactly when it is in the workspace list. |
| StateOverwrite.Route | src/storage/state-overwrite.ts:363-369 | The store a key goes to: secret keys first, then workspace keys, everything else global. `RoutedWrite` and the routing lemmas state it for the test's keys. |
| StateOverwrite.WriteBackTarget | src/storage/state-overwrite.ts:217-238 | The rewritten path is always tracked. A tracked full path is chosen first. Only without a parent path can `apiConfiguration.<key>` be chosen instead. No path is chosen exactly when neither candidate is tracked. |
| StateOverwrite.OverriddenDocument | src/storage/state-overwrite.ts:213-238 | While a document is being applied, or when no tracked path matches, the document is left unchanged. |
| StateOverwrite.WriteBackGet | src/storage/state-overwrite.ts:242-246 | After a write-back, the document holds the new value at the path. |
| StateOverwrite.WriteBack | src/storage/state-overwrite.ts:242-246 | The rewritten document is always a plain object. `WriteBackGet`, `WriteBackElsewhere` and `WriteBackTopLevel` state its contents. |
| StateOverwrite.WriteBackElsewhere | src/storage/state-overwrite.ts:245-246 | A write-back leaves every path that parts from the rewritten one as it was. |
| StateOverwrite.WriteBackTopLevel | src/storage/state-overwrite.ts:245-246 | A write-back adds at most the first key of its path to the top level of the document. |
| StateOverwrite.WriteBackAtTrackedPath | src/storage/state-overwrite.ts:186-230 | A write-back only rewrites a path that is the dotted path of a key chain in the applied document. |
| StateOverwrite.UntrackedKeyNotAdded | src/test/state-overwrite.test.ts:151-164 | A key tracked neither directly nor under `apiConfiguration` never reaches the document. |
| StateOverwrite.NestedWrite | src/storage/state-overwrite.ts:349-358 | A nested secret key or workspace key is written flat under its own name. A nested global key merges `{ [nestedKey]: value }` into the global value of the parent key, or into `{}` when there is none. |
| StateOverwrite.TopWrite | src/storage/state-overwrite.ts:363-369 | A top-level non-object entry is written under its own key into the store its key is routed to. |
| StateOverwrite.StartupEffect | src/storage/state-overwrite.ts:329-331 | A document that is not an object leaves the stores unchanged. |
| StateOverwrite.StartupSteps | src/storage/state-overwrite.ts:343-375 | The outer startup loop over the document's entries, first to last. `StartupFrame`, `StartupStepsConcat` and `StartupTopLevelRouted` state its laws. |
| StateOverwrite.EntryStep | src/storage/state-overwrite.ts:344-371 | One outer iteration: the inner loop for a plain-object value, otherwise the routed top-level write. `StartupFrame` and `StartupTopLevelRouted` state its effect. |
| StateOverwrite.NestedSteps | src/storage/state-overwrite.ts:347-360 | The inner loop over a plain-object value's entries, first to last. `NestedStepsGlobal` and `NestedStepsRouted` state its effect. |
| StateOverwrite.NestedStepsGlobal | src/storage/state-overwrite.ts:347-358 | After the inner loop, the parent's global value is its old value (or `{}`) deep-merged with the global-routed nested entries. No other global key changes. |
| StateOverwrite.NestedStepsKeepSiblings | src/test/state-overwrite.test.ts:112-130 | A field of the existing global object that no global-routed nested entry names keeps its value. |
| StateOverwrite.NestedStepsGlobalEntry | src/storage/state-overwrite.ts:355-357 | A global-routed nested entry appears in the merged value: verbatim for a non-object value, merged for a plain-object value. |
| StateOverwrite.NestedStepsRouted | src/storage/state-overwrite.ts:349-352 | A nested secret ends in secret storage as its `String(...)` text. A nested workspace key ends in workspace state with its value. |
| StateOverwrite.NestedStepsGlobalOnly | src/storage/state-overwrite.ts:353-358 | Nested entries that are all global-routed leave workspace state and secret storage unchanged. |
| StateOverwrite.GlobalPartKeys | src/storage/state-overwrite.ts:353-357 | The global-routed part of the nested entries holds exactly the keys that are global-routed. |
| StateOverwrite.StartupFrame | src/storage/state-overwrite.ts:343-375 | Startup changes no store key outside those the document's entries target. |
| StateOverwrite.StartupStepsConcat | src/storage/state-overwrite.ts:343 | The outer loop over `a + b` is the loop over `a` followed by the loop over `b`. |
| StateOverwrite.StartupTopLevelRouted | src/storage/state-overwrite.ts:361-370 | A top-level non-object entry ends in the store its key is routed to, unless a later entry writes the same store key. A secret ends as its `String(...)` text. |
| StateOverwrite.ProviderIsLocal | src/storage/state-overwrite.ts:94 | `apiProvider` is routed to workspace state. |
| StateOverwrite.ApiKeyIsSecret | src/storage/state-overwrite.ts:137 | `openRouterApiKey` is routed to secret storage. |
| StateOverwrite.EnabledIsGlobal | src/storage/state-overwrite.ts:90-163 | `enabled` is routed to global state. |
| StateOverwrite.MaxRequestsIsGlobal | src/storage/state-overwrite.ts:90-163 | `maxRequests` is routed to global state. |
| StateOverwrite.StartupScenario | src/test/state-overwrite.test.ts:100-131 | For any leaf values in the test's document and stores, startup sets the workspace `apiProvider` and stores the secret. `autoApprovalSettings` gets the new `enabled` and `maxRequests` and keeps `version`. |
| StateOverwrite.OverrideTracker.ApplyStateOverrides | src/storage/state-overwrite.ts:169-201 | Returns `currentState` unchanged while a document is being applied or when there is no object document. Otherwise it returns `deepMerge(currentState, doc)`, replaces the tracked paths with the document's paths, and clears the flag. |
| StateOverwrite.OverrideTracker.UpdateOverriddenProperty | src/storage/state-overwrite.ts:207-254 | The new document is `OverriddenDocument` of the flag, the tracked paths and the old document. The secrets document is untouched. |
| StateOverwrite.OverrideTracker.UpdateGlobalStateWithOverride | src/storage/state-overwrite.ts:259-269 | The global write always happens, then the write-back without a parent path. |
| StateOverwrite.OverrideTracker.UpdateWorkspaceStateWithOverride | src/storage/state-overwrite.ts:274-284 | The workspace write always happens, then the write-back without a parent path. |
| StateOverwrite.OverrideTracker.StoreSecretWithOverride | src/storage/state-overwrite.ts:289-295 | The secret is stored or deleted, then the write-back without a parent path. |
| StateOverwrite.OverrideTracker.UpdateNestedStateWithOverride | src/storage/state-overwrite.ts:301-319 | The nested key is written through `RoutedWrite`, then written back under `parentKey.nestedKey`. |
| StateOverwrite.OverrideTracker.ApplyStateOverridesOnStartup | src/storage/state-overwrite.ts:325-383 | A non-object document changes nothing. Otherwise the stores end as `StartupEffect` says, the tracked paths become the document's paths, and the flag is cleared. |
| StateOverwrite.OverrideTracker.ApplyEntryOverride | src/storage/state-overwrite.ts:344-371 | One outer iteration has the effect of one `EntryStep`. |
| StateOverwrite.OverrideTracker.ApplyTopLevelOverride | src/storage/state-overwrite.ts:361-370 | A top-level entry gets the write `TopWrite` describes. |
| StateOverwrite.OverrideTracker.ApplyNestedOverrides | src/storage/state-overwrite.ts:347-360 | The inner loop's effect equals `NestedSteps`, including the read of the current global value at each step. |
| StateOverwrite.OverrideTracker.ClearOverridesCache | src/storage/state-overwrite.ts:388-392 | Both path sets are emptied. The flag is kept. |
| StateOverride.PlainWrite | src/fork/letsboot/state-override.ts:57-61 | A state key gets its value written under its own name: to workspace state when it is a workspace key, and to global state otherwise. |
| StateOverride.PlainWriteReadsBack | src/fork/letsboot/state-override.ts:252-256 | After the write, the key reads back as the value in the store it was routed to. The secrets, the other state store and every other key are unchanged. |
| StateOverride.IsLocalStateKey | src/fork/letsboot/state-override.ts:133-168 | `isLocalStateKey`: membership in the workspace key list, by `KeyTestsAreMembership`. |
| StateOverride.IsApiConfigurationKey | src/fork/letsboot/state-override.ts:173-223 | `isApiConfigurationKey`: membership in the `apiConfiguration` key list, by `KeyTestsAreMembership`. |
| StateOverride.KeyTestsAreMembership | src/fork/letsboot/state-override.ts:133-223 | A key is a workspace key exactly when it is in the workspace list, and an `apiConfiguration` key exactly when it is in that list. |
| StateOverride.IsAutoApprovalSettingsKey | src/fork/letsboot/state-override.ts:228-232 | Holds only for `autoApprovalSettings`. `AutoApprovalBranchUnreachable` shows the branch it guards is dead. |
| StateOverride.StateDocumentWrites | src/fork/letsboot/state-override.ts:19 | A document that is not an object produces no writes. |
| StateOverride.SecretDocumentWrites | src/fork/letsboot/state-override.ts:95 | A secrets document that is not an object produces no writes. |
| StateOverride.ApiConfigWrites | src/fork/letsboot/state-override.ts:38-48 | The writes of the `apiConfiguration` loop: a `PlainWrite` per entry, first to last. `ApiConfigEntryLands` states where each entry ends. |
| StateOverride.TopLevelWrite | src/fork/letsboot/state-override.ts:50-61 | The single write for a top-level entry: an `autoApprovalSettings` object goes whole to global state, and any other key is a `PlainWrite`. `EntryLands` states where it ends. |
| StateOverride.EntryWrites | src/fork/letsboot/state-override.ts:35-62 | The writes for one top-level entry: the `apiConfiguration` loop for an object `apiConfiguration`, otherwise the single top-level write. `EntryLands` and `ApiConfigEntryLands` state their effect. |
| StateOverride.StartupWrites | src/fork/letsboot/state-override.ts:31-67 | The writes of the state startup loop, entry by entry. `StartupWritesAround`, `EntryLands`, `ApiConfigEntryLands` and `StartupIdempotent` state their effect. |
| StateOverride.SecretWrites | src/fork/letsboot/state-override.ts:106-121 | The writes of the secrets startup loop, entry by entry. `SecretEntryLands` and `SecretStartupIdempotent` state their effect. |
| StateOverride.EachEntryConcat | src/fork/letsboot/state-override.ts:31-67 | The writes for `a + b` are the writes for `a` followed by the writes for `b`. |
| StateOverride.StartupWritesAround | src/fork/letsboot/state-override.ts:31-67 | One entry's writes sit between the writes of the entries before it and the writes of the entries after it. |
| StateOverride.StartupIdempotent | src/fork/letsboot/state-override.ts:19-27 | Applying the same state document a second time would leave the stores as the first run left them. |
| StateOverride.SecretStartupIdempotent | src/fork/letsboot/state-override.ts:95-103 | Applying the same secrets document a second time would leave the stores as the first run left them. |
| StateOverride.EntryLands | src/fork/letsboot/state-override.ts:49-62 | A top-level entry other than an object `apiConfiguration` ends in its store, unless a later write targets the same store key. An `autoApprovalSettings` object ends whole in global state. Another key ends in workspace state when it is a workspace key and in global state otherwise. |
| StateOverride.ApiConfigEntryLands | src/fork/letsboot/state-override.ts:35-48 | Each entry of an object `apiConfiguration` ends under its own key, in workspace or global state, unless a later write targets the same store key. |
| StateOverride.SecretEntryLands | src/fork/letsboot/state-override.ts:106-121 | A secret entry ends stored when its value is truthy and absent otherwise, unless a later entry names the same key. |
| StateOverride.AutoApprovalBranchUnreachable | src/fork/letsboot/state-override.ts:264-308 | The `autoApprovalSettings` write-back branch cannot be reached: its condition implies the own-key test made before it. |
| StateOverride.StateWriteBack | src/fork/letsboot/state-override.ts:263-310 | The `overwriteState` document after the write-back. `StateWriteBackOwnKey`, `StateWriteBackApiConfiguration`, `StateWriteBackSkips` and `StateWriteBackIdempotent` state it case by case. |
| StateOverride.StateWriteBackOwnKey | src/fork/letsboot/state-override.ts:264-277 | A key the document owns is replaced in place. The key set and every other key's value stay the same. |
| StateOverride.StateWriteBackApiConfiguration | src/fork/letsboot/state-override.ts:281-293 | A listed key that the document does not own, with `apiConfiguration` present, changes only `apiConfiguration`. In it only that key changes, and it may be added. The top-level key set stays the same. |
| StateOverride.StateWriteBackSkips | src/fork/letsboot/state-override.ts:310 | In every other case the document is left as it was, so no key is ever added at the top level. |
| StateOverride.StateWriteBackIdempotent | src/fork/letsboot/state-override.ts:240-311 | Writing the same value back twice gives the same document as writing it once. |
| StateOverride.SecretWriteBack | src/fork/letsboot/state-override.ts:334-349 | The `overwriteSecrets` document after the write-back. `SecretWriteBackKeepsKeys` and `SecretWriteBackIdempotent` state its laws. |
| StateOverride.SecretWriteBackKeepsKeys | src/fork/letsboot/state-override.ts:334-349 | The secrets write-back never adds a key. Every other key keeps its value, and a key that was already present gets the new value. |
| StateOverride.SecretWriteBackIdempotent | src/fork/letsboot/state-override.ts:334-349 | Writing the same secret back twice gives the same document as writing it once. |
| StateOverride.UpdateOverwrittenState | src/fork/letsboot/state-override.ts:240-311 | The store write always happens, and the key then reads back as the value in its store. The document then becomes `StateWriteBack` of the old document. The secrets document is untouched. |
| StateOverride.WriteStateKey | src/fork/letsboot/state-override.ts:252-256 | Writes the key's `PlainWrite` into the stores, so the key reads back as the value in workspace state for a workspace key and in global state otherwise. |
| StateOverride.WriteBackState | src/fork/letsboot/state-override.ts:263-310 | The three guarded rewrites of the document have the effect `StateWriteBack` describes. |
| StateOverride.UpdateOverwrittenSecret | src/fork/letsboot/state-override.ts:317-350 | The secret is stored or deleted by truthiness, then the secrets document becomes `SecretWriteBack` of the old one. |
| StateOverride.AppliedOverrides.ApplyStateOverwriteOnStartup | src/fork/letsboot/state-override.ts:15-72 | An object document whose fingerprint is not yet recorded is written entry by entry, and then its fingerprint is recorded. Any other document changes nothing. |
| StateOverride.AppliedOverrides.ApplyStateEntries | src/fork/letsboot/state-override.ts:31-67 | The loop's effect equals `StartupWrites` folded into the stores. |
| StateOverride.AppliedOverrides.ApplyEntryOverwrite | src/fork/letsboot/state-override.ts:35-62 | One iteration's effect equals the entry's `EntryWrites`. |
| StateOverride.AppliedOverrides.ApplyApiConfiguration | src/fork/letsboot/state-override.ts:38-48 | The inner loop's effect equals `ApiConfigWrites` folded into the stores. |
| StateOverride.AppliedOverrides.ApplySecretOverwriteOnStartup | src/fork/letsboot/state-override.ts:91-126 | Same guard as for state. The secret entries are stored or deleted in order, and then the fingerprint is recorded. |
| StateOverride.AppliedOverrides.ApplySecretEntries | src/fork/letsboot/state-override.ts:106-121 | The loop's effect equals `SecretWrites` folded into the stores. |
| StateOverride.AppliedOverrides.ClearAppliedOverridesCache | src/fork/letsboot/state-override.ts:81-85 | Both fingerprint sets are emptied. |

## Left out

- Settings access (`vscode.workspace.getConfiguration`, `config.update`) is not modelled as I/O. The `Configuration` object stands for it, and `config.update` is an assignment to one of its fields.
- Logging, error messages and the `try`/`catch` blocks are not modelled. The store and settings writes are modelled as never failing, so each error path is the same as the success path.
- `async`/`await` is not modelled. Calls that are interleaved are treated as running one after the other. The re-entrancy flag is kept, but only in sequential use.
- Numbers are integers. Floating-point values and their `String`/`JSON.stringify` texts are not modelled.
- Object key order is plain insertion order. JavaScript's rule that integer-like keys come first is not modelled, and neither is the special `__proto__` key.
- JsValue.Prop: reads only a plain object's own properties. Array indices, string characters and inherited properties read as `undefined`. The documents here only read plain objects along paths.
- Strings are sequences of Unicode scalar values, not of UTF-16 code units. For a string with a character outside the Basic Multilingual Plane (an emoji, say), JavaScript enumerates more indices than `JsValue.OwnEntries` does, one per surrogate half, so `{ ...s }` and `hasOwnProperty` on a truthy string document differ there.
- OverwriteTree.SetNested: an array met on the path is replaced by `{}`. The source keeps the array and writes a property onto it, because arrays are objects in JavaScript.
- JsValue.Fingerprint: stands for the `JSON.stringify` text as a normalising function on values, not as a string. Two documents get equal fingerprints exactly when their texts are equal: undefined members are dropped, and undefined array items become null.
- `src/core/storage/state.ts` is not part of this model. Its `updateGlobalState`, `updateWorkspaceState` and `storeSecret` are modelled as direct store writes, with `storeSecret` storing a truthy value and deleting otherwise.
- `keyToNestedPathMap` is declared and never read or written, so it is not modelled.
- `originalSecretOverrideKeys` is never filled. It is modelled, and only ever cleared.
- The lemmas about the startup passes hold for any routing of keys to stores. The concrete key lists are used by the methods and by the test scenario.
- The tests at src/test/state-overwrite.test.ts:133-149 and 166-187 depend on tracked paths left over from the preceding test's module state. They are not restated as lemmas. `UntrackedKeyNotAdded`, `WriteBackGet` and `WriteBackElsewhere` cover the behaviour they exercise.
