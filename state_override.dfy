/** The older override variant: a startup pass that writes the
    `overwriteState` and `overwriteSecrets` documents into the stores,
    guarded by the fingerprints of the documents already applied, and the
    write-back of a UI change into a document that already holds the key. */
module StateOverride {
  import opened JsValue
  import opened Stores

  // ---------------------------------------------------------------------
  // Key lists

  /** The workspace-state keys of this variant. */
  const LocalStateKeys: seq<string> := [
    "localClineRulesToggles", "chatSettings", "apiProvider", "apiModelId",
    "thinkingBudgetTokens", "reasoningEffort", "vsCodeLmModelSelector",
    "awsBedrockCustomSelected", "awsBedrockCustomModelBaseId",
    "openRouterModelId", "openRouterModelInfo", "openAiModelId",
    "openAiModelInfo", "ollamaModelId", "lmStudioModelId", "liteLlmModelId",
    "liteLlmModelInfo", "requestyModelId", "requestyModelInfo",
    "togetherModelId", "fireworksModelId", "previousModeApiProvider",
    "previousModeModelId", "previousModeModelInfo",
    "previousModeVsCodeLmModelSelector", "previousModeThinkingBudgetTokens",
    "previousModeReasoningEffort", "previousModeAwsBedrockCustomSelected",
    "previousModeAwsBedrockCustomModelBaseId"]

  /** The keys that may live inside the `apiConfiguration` object of the
      document: global-state keys first, then workspace-state keys. */
  const ApiConfigurationKeys: seq<string> := [
    "awsRegion", "awsUseCrossRegionInference", "awsBedrockUsePromptCache",
    "awsBedrockEndpoint", "awsProfile", "awsUseProfile", "vertexProjectId",
    "vertexRegion", "openAiBaseUrl", "openAiHeaders", "ollamaBaseUrl",
    "ollamaApiOptionsCtxNum", "lmStudioBaseUrl", "anthropicBaseUrl",
    "geminiBaseUrl", "azureApiVersion", "openRouterProviderSorting",
    "liteLlmBaseUrl", "liteLlmUsePromptCache",
    "fireworksModelMaxCompletionTokens", "fireworksModelMaxTokens",
    "qwenApiLine", "asksageApiUrl", "favoritedModelIds", "requestTimeoutMs",
    "apiProvider", "apiModelId", "thinkingBudgetTokens", "reasoningEffort",
    "vsCodeLmModelSelector", "awsBedrockCustomSelected",
    "awsBedrockCustomModelBaseId", "openRouterModelId", "openRouterModelInfo",
    "openAiModelId", "openAiModelInfo", "ollamaModelId", "lmStudioModelId",
    "liteLlmModelId", "liteLlmModelInfo", "requestyModelId",
    "requestyModelInfo", "togetherModelId", "fireworksModelId"]

  /** `isLocalStateKey(key)` */
  predicate IsLocalStateKey(key: string) {
    Listed(LocalStateKeys, key, 0)
  }

  /** `isApiConfigurationKey(key)` */
  predicate IsApiConfigurationKey(key: string) {
    Listed(ApiConfigurationKeys, key, 0)
  }

  /** The key tests are membership in the key lists. */
  lemma KeyTestsAreMembership(key: string)
    ensures IsLocalStateKey(key) <==> key in LocalStateKeys
    ensures IsApiConfigurationKey(key) <==> key in ApiConfigurationKeys
  {
    IncludesIsMembership(LocalStateKeys, key);
    IncludesIsMembership(ApiConfigurationKeys, key);
  }

  /** `isAutoApprovalSettingsKey(key)` */
  predicate IsAutoApprovalSettingsKey(key: string) {
    key == "autoApprovalSettings"
  }

  /** Whether a key is a workspace key. The startup pass is stated for
      any such test, so that its laws do not depend on the key list;
      `IsLocalStateKey` is the test the extension uses. */
  type LocalTest = string -> bool

  /** The store write for a state key: workspace state for a workspace
      key, global state otherwise. */
  function PlainWrite(isLocal: LocalTest, key: string, value: Value): (w: Write)
    ensures Target(w) == (if isLocal(key) then WorkspaceStore else GlobalStore, key)
    ensures (w.SetWorkspace? || w.SetGlobal?) && w.value == value
  {
    if isLocal(key) then SetWorkspace(key, value) else SetGlobal(key, value)
  }

  /** After the write the key reads back as the value in the store it was
      routed to; the other state store, the secrets and every other key
      are unchanged. */
  lemma PlainWriteReadsBack(isLocal: LocalTest, st: Snapshot, key: string, value: Value)
    ensures var r := ApplyWrite(st, PlainWrite(isLocal, key, value));
      Get(if isLocal(key) then r.workspace else r.global, key) == value
    ensures var r := ApplyWrite(st, PlainWrite(isLocal, key, value));
      r.secrets == st.secrets &&
      (if isLocal(key) then r.global == st.global else r.workspace == st.workspace) &&
      forall k | k != key :: Get(r.global, k) == Get(st.global, k) && Get(r.workspace, k) == Get(st.workspace, k)
  {
  }

  // ---------------------------------------------------------------------
  // The startup pass

  /** The writes for a list of entries: `f(e)` for each entry `e`, first
      to last. */
  function EachEntry(f: ((string, Value)) -> seq<Write>, es: Entries): seq<Write>
    decreases |es|
  {
    if es == [] then [] else EachEntry(f, es[..|es| - 1]) + f(es[|es| - 1])
  }

  /** The writes for the entries of the `apiConfiguration` object, first
      to last, each under the entry's own key. */
  function ApiConfigWrites(isLocal: LocalTest, es: Entries): seq<Write>
  {
    EachEntry(PlainWriteOf(isLocal), es)
  }

  function PlainWriteOf(isLocal: LocalTest): ((string, Value)) -> seq<Write>
  {
    (e: (string, Value)) => [PlainWrite(isLocal, e.0, e.1)]
  }

  /** An entry is an `apiConfiguration` whose value `typeof` reports as an
      object: its own entries are written one by one. */
  predicate ExplodesApiConfiguration(e: (string, Value)) {
    e.0 == "apiConfiguration" && IsTypeofObject(e.1)
  }

  /** The single write for a top-level entry other than an object
      `apiConfiguration`: an `autoApprovalSettings` object goes to global
      state whole; any other key is a plain write. */
  function TopLevelWrite(isLocal: LocalTest, e: (string, Value)): Write
  {
    if e.0 == "autoApprovalSettings" && IsTypeofObject(e.1) then SetGlobal(e.0, e.1)
    else PlainWrite(isLocal, e.0, e.1)
  }

  /** The writes for one top-level entry of the document. */
  function EntryWrites(isLocal: LocalTest, e: (string, Value)): seq<Write>
  {
    if ExplodesApiConfiguration(e) then ApiConfigWrites(isLocal, OwnEntries(e.1))
    else [TopLevelWrite(isLocal, e)]
  }

  function EntryWritesOf(isLocal: LocalTest): ((string, Value)) -> seq<Write>
  {
    (e: (string, Value)) => EntryWrites(isLocal, e)
  }

  /** The writes for the entries `es`, first to last. */
  function StartupWrites(isLocal: LocalTest, es: Entries): seq<Write>
  {
    EachEntry(EntryWritesOf(isLocal), es)
  }

  /** The writes of `applyStateOverwriteOnStartup` for a document: none
      unless it is an object. */
  function StateDocumentWrites(isLocal: LocalTest, doc: Value): (ws: seq<Write>)
    ensures !IsObjectDocument(doc) ==> ws == []
  {
    if IsObjectDocument(doc) then StartupWrites(isLocal, OwnEntries(doc)) else []
  }

  function SecretWriteOf(e: (string, Value)): seq<Write>
  {
    [StoreSecretWrite(e.0, e.1)]
  }

  /** The writes of `applySecretOverwriteOnStartup` for the entries `es`. */
  function SecretWrites(es: Entries): seq<Write>
  {
    EachEntry(SecretWriteOf, es)
  }

  function SecretDocumentWrites(doc: Value): (ws: seq<Write>)
    ensures !IsObjectDocument(doc) ==> ws == []
  {
    if IsObjectDocument(doc) then SecretWrites(OwnEntries(doc)) else []
  }

  /** The writes for `a + b` are the writes for `a` followed by those for
      `b`. */
  lemma {:induction false} EachEntryConcat(f: ((string, Value)) -> seq<Write>, a: Entries, b: Entries)
    ensures EachEntry(f, a + b) == EachEntry(f, a) + EachEntry(f, b)
    decreases |b|
  {
    if b == [] {
      assert a + b == a;
    } else {
      var pre, last := b[..|b| - 1], b[|b| - 1];
      assert (a + b)[..|a + b| - 1] == a + pre;
      assert (a + b)[|a + b| - 1] == last;
      EachEntryConcat(f, a, pre);
      var sa, sp, ew := EachEntry(f, a), EachEntry(f, pre), f(last);
      assert EachEntry(f, a + b) == (sa + sp) + ew;
      assert (sa + sp) + ew == sa + (sp + ew);
    }
  }

  /** Singles out the writes of one entry. */
  lemma EachEntryAround(f: ((string, Value)) -> seq<Write>, p: Entries, e: (string, Value), b: Entries)
    ensures EachEntry(f, p + [e] + b) == EachEntry(f, p) + f(e) + EachEntry(f, b)
  {
    EachEntryConcat(f, p + [e], b);
    assert (p + [e])[..|p|] == p;
  }

  /** One more entry is its writes after the others'. */
  lemma EachEntryStep(f: ((string, Value)) -> seq<Write>, es: Entries, i: nat)
    requires i < |es|
    ensures EachEntry(f, es[..i + 1]) == EachEntry(f, es[..i]) + f(es[i])
  {
    assert es[..i + 1][..i] == es[..i];
  }

  /** Singles out the writes of one top-level entry. */
  lemma StartupWritesAround(isLocal: LocalTest, p: Entries, e: (string, Value), b: Entries)
    ensures StartupWrites(isLocal, p + [e] + b) ==
      StartupWrites(isLocal, p) + EntryWrites(isLocal, e) + StartupWrites(isLocal, b)
  {
    EachEntryAround(EntryWritesOf(isLocal), p, e, b);
  }

  /** Running the pass a second time on the same document leaves the
      stores as the first run left them: the writes do not depend on
      what the stores hold. */
  lemma StartupIdempotent(isLocal: LocalTest, st: Snapshot, doc: Value)
    ensures var ws := StateDocumentWrites(isLocal, doc);
      ApplyWrites(ApplyWrites(st, ws), ws) == ApplyWrites(st, ws)
  {
    ApplyWritesIdempotent(st, StateDocumentWrites(isLocal, doc));
  }

  lemma SecretStartupIdempotent(st: Snapshot, doc: Value)
    ensures var ws := SecretDocumentWrites(doc);
      ApplyWrites(ApplyWrites(st, ws), ws) == ApplyWrites(st, ws)
  {
    ApplyWritesIdempotent(st, SecretDocumentWrites(doc));
  }

  /** A top-level entry other than an object `apiConfiguration` ends up
      in its store: `autoApprovalSettings` as the whole object in global
      state (replacing the old value, not merging into it), any other key
      in workspace state when it is a workspace key and in global state
      otherwise — unless a later entry writes the same store key. */
  lemma EntryLands(isLocal: LocalTest, st: Snapshot, es: Entries, i: nat)
    requires i < |es| && !ExplodesApiConfiguration(es[i])
    requires Target(TopLevelWrite(isLocal, es[i])) !in Targets(StartupWrites(isLocal, es[i + 1..]))
    ensures var r := ApplyWrites(st, StartupWrites(isLocal, es)); var k, v := es[i].0, es[i].1;
      if (k == "autoApprovalSettings" && IsTypeofObject(v)) || !isLocal(k) then Get(r.global, k) == v
      else Get(r.workspace, k) == v
  {
    assert es == es[..i] + [es[i]] + es[i + 1..];
    StartupWritesAround(isLocal, es[..i], es[i], es[i + 1..]);
    var w := TopLevelWrite(isLocal, es[i]);
    assert EntryWrites(isLocal, es[i]) == [w];
    LastWriteWins(st, StartupWrites(isLocal, es[..i]), w, StartupWrites(isLocal, es[i + 1..]));
  }

  /** An entry of an object `apiConfiguration` ends up under its own key,
      in workspace state for a workspace key and in global state
      otherwise — unless a later write targets the same store key. */
  lemma ApiConfigEntryLands(isLocal: LocalTest, st: Snapshot, es: Entries, i: nat, j: nat)
    requires i < |es| && ExplodesApiConfiguration(es[i]) && j < |OwnEntries(es[i].1)|
    requires var nested := OwnEntries(es[i].1);
      Target(PlainWrite(isLocal, nested[j].0, nested[j].1)) !in
        Targets(ApiConfigWrites(isLocal, nested[j + 1..]) + StartupWrites(isLocal, es[i + 1..]))
    ensures var r := ApplyWrites(st, StartupWrites(isLocal, es)); var nested := OwnEntries(es[i].1);
      if isLocal(nested[j].0) then Get(r.workspace, nested[j].0) == nested[j].1
      else Get(r.global, nested[j].0) == nested[j].1
  {
    var nested := OwnEntries(es[i].1);
    assert nested == nested[..j] + [nested[j]] + nested[j + 1..];
    assert es == es[..i] + [es[i]] + es[i + 1..];
    NestedEntryLands(isLocal, st, es[..i], es[i], es[i + 1..], nested[..j], nested[j], nested[j + 1..]);
  }

  /** `ApiConfigEntryLands` on the pieces around the entry. */
  lemma NestedEntryLands(isLocal: LocalTest, st: Snapshot, p: Entries, e: (string, Value), b: Entries,
                         np: Entries, ne: (string, Value), nb: Entries)
    requires ExplodesApiConfiguration(e) && OwnEntries(e.1) == np + [ne] + nb
    requires Target(PlainWrite(isLocal, ne.0, ne.1)) !in Targets(ApiConfigWrites(isLocal, nb) + StartupWrites(isLocal, b))
    ensures Reflects(ApplyWrites(st, StartupWrites(isLocal, p + [e] + b)), PlainWrite(isLocal, ne.0, ne.1))
  {
    var w := PlainWrite(isLocal, ne.0, ne.1);
    var head, tail := ApiConfigWrites(isLocal, np), ApiConfigWrites(isLocal, nb);
    ApiConfigWritesAround(isLocal, np, ne, nb);
    assert EntryWrites(isLocal, e) == head + [w] + tail;
    StartupWritesAround(isLocal, p, e, b);
    var before, after := StartupWrites(isLocal, p), StartupWrites(isLocal, b);
    RegroupWrites(before, head, w, tail, after);
    LastWriteWins(st, before + head, w, tail + after);
  }

  lemma RegroupWrites(before: seq<Write>, head: seq<Write>, w: Write, tail: seq<Write>, after: seq<Write>)
    ensures before + (head + [w] + tail) + after == (before + head) + [w] + (tail + after)
  {
  }

  /** One more entry of the `apiConfiguration` loop is one more write. */
  lemma ApiConfigStep(isLocal: LocalTest, st: Snapshot, es: Entries, j: nat)
    requires j < |es|
    ensures ApplyWrites(st, ApiConfigWrites(isLocal, es[..j + 1])) ==
      ApplyWrite(ApplyWrites(st, ApiConfigWrites(isLocal, es[..j])), PlainWrite(isLocal, es[j].0, es[j].1))
  {
    EachEntryStep(PlainWriteOf(isLocal), es, j);
    ApplyWritesSnoc(st, ApiConfigWrites(isLocal, es[..j]), PlainWrite(isLocal, es[j].0, es[j].1));
  }

  /** Singles out the write of one nested entry. */
  lemma ApiConfigWritesAround(isLocal: LocalTest, p: Entries, e: (string, Value), b: Entries)
    ensures ApiConfigWrites(isLocal, p + [e] + b) ==
      ApiConfigWrites(isLocal, p) + [PlainWrite(isLocal, e.0, e.1)] + ApiConfigWrites(isLocal, b)
  {
    EachEntryAround(PlainWriteOf(isLocal), p, e, b);
  }

  /** The secret of an entry is stored when its value is truthy and
      deleted otherwise, unless a later entry names the same key. */
  lemma SecretEntryLands(st: Snapshot, es: Entries, i: nat)
    requires i < |es|
    requires (SecretStore, es[i].0) !in Targets(SecretWrites(es[i + 1..]))
    ensures var r := ApplyWrites(st, SecretWrites(es)); var k, v := es[i].0, es[i].1;
      if Truthy(v) then k in r.secrets && r.secrets[k] == v else k !in r.secrets
  {
    var w := StoreSecretWrite(es[i].0, es[i].1);
    assert es == es[..i] + [es[i]] + es[i + 1..];
    EachEntryAround(SecretWriteOf, es[..i], es[i], es[i + 1..]);
    LastWriteWins(st, SecretWrites(es[..i]), w, SecretWrites(es[i + 1..]));
  }

  // ---------------------------------------------------------------------
  // Write-back into the documents

  /** The `overwriteState` document after `updateOverwrittenState`: the
      key is replaced when the document owns it; else, for an
      `apiConfiguration` key, it is set inside an existing
      `apiConfiguration` object; else the document is left as it is. The
      third branch, for `autoApprovalSettings`, is never taken (see
      `AutoApprovalBranchUnreachable`). */
  function StateWriteBack(doc: Value, key: string, value: Value): Value
  {
    var current := OrEmpty(doc);
    if HasOwn(current, key) then
      Obj(Put(OwnEntries(current), key, value))
    else if IsApiConfigurationKey(key) && Truthy(Prop(current, "apiConfiguration")) then
      var nested := Obj(Put(OwnEntries(Prop(current, "apiConfiguration")), key, value));
      Obj(Put(OwnEntries(current), "apiConfiguration", nested))
    else if IsAutoApprovalSettingsKey(key) && Truthy(Prop(current, "autoApprovalSettings")) then
      var nested := Obj(Put(OwnEntries(Prop(current, "autoApprovalSettings")), key, value));
      Obj(Put(OwnEntries(current), "autoApprovalSettings", nested))
    else
      doc
  }

  /** A truthy property read on the document means the document owns
      that key. */
  lemma TruthyPropIsOwn(v: Value, k: string)
    requires Truthy(Prop(v, k))
    ensures v.Obj? && HasKey(v.entries, k) && HasOwn(v, k)
  {
  }

  /** The `autoApprovalSettings` branch of `updateOverwrittenState`
      cannot be reached: its condition implies the own-key condition
      checked before it. */
  lemma AutoApprovalBranchUnreachable(doc: Value, key: string)
    requires IsAutoApprovalSettingsKey(key) && Truthy(Prop(OrEmpty(doc), "autoApprovalSettings"))
    ensures HasOwn(OrEmpty(doc), key)
  {
    TruthyPropIsOwn(OrEmpty(doc), "autoApprovalSettings");
  }

  /** A key the document owns is replaced, in place, and nothing else in
      the document changes. */
  lemma StateWriteBackOwnKey(doc: Value, key: string, value: Value)
    requires doc.Obj? && HasKey(doc.entries, key)
    ensures var r := StateWriteBack(doc, key, value);
      r.Obj? && |r.entries| == |doc.entries| && Find(r.entries, key) == value
      && (forall k | k != key :: Find(r.entries, k) == Find(doc.entries, k))
      && (forall k :: HasKey(r.entries, k) <==> HasKey(doc.entries, k))
  {
  }

  /** A key the document does not own, listed for `apiConfiguration`,
      with an `apiConfiguration` present: only that object changes, and
      in it only `key` (which may be added). */
  lemma StateWriteBackApiConfiguration(doc: Value, key: string, value: Value)
    requires doc.Obj? && !HasKey(doc.entries, key)
    requires IsApiConfigurationKey(key) && Truthy(Find(doc.entries, "apiConfiguration"))
    ensures var r := StateWriteBack(doc, key, value);
      var oldNested := OwnEntries(Find(doc.entries, "apiConfiguration"));
      r.Obj? && (forall k :: HasKey(r.entries, k) <==> HasKey(doc.entries, k))
      && (forall k | k != "apiConfiguration" :: Find(r.entries, k) == Find(doc.entries, k))
      && Find(r.entries, "apiConfiguration").Obj?
      && Find(Find(r.entries, "apiConfiguration").entries, key) == value
      && (forall k | k != key :: Find(Find(r.entries, "apiConfiguration").entries, k) == Find(oldNested, k))
  {
    TruthyPropIsOwn(doc, "apiConfiguration");
  }

  /** Any other change leaves the document as it was: no key is added
      to the document. */
  lemma StateWriteBackSkips(doc: Value, key: string, value: Value)
    requires !HasOwn(OrEmpty(doc), key)
    requires !IsApiConfigurationKey(key) || !Truthy(Prop(OrEmpty(doc), "apiConfiguration"))
    ensures StateWriteBack(doc, key, value) == doc
  {
    if IsAutoApprovalSettingsKey(key) && Truthy(Prop(OrEmpty(doc), "autoApprovalSettings")) {
      AutoApprovalBranchUnreachable(doc, key);
    }
  }

  /** Writing the same value back twice gives the document writing it
      once gives. */
  lemma StateWriteBackIdempotent(doc: Value, key: string, value: Value)
    ensures StateWriteBack(StateWriteBack(doc, key, value), key, value) == StateWriteBack(doc, key, value)
  {
    var current := OrEmpty(doc);
    if HasOwn(current, key) {
      OwnKeyWriteBackTwice(doc, key, value);
    } else if IsApiConfigurationKey(key) && Truthy(Prop(current, "apiConfiguration")) {
      ApiConfigurationWriteBackTwice(doc, key, value);
    } else {
      StateWriteBackSkips(doc, key, value);
    }
  }

  lemma OwnKeyWriteBackTwice(doc: Value, key: string, value: Value)
    requires HasOwn(OrEmpty(doc), key)
    ensures StateWriteBack(StateWriteBack(doc, key, value), key, value) == StateWriteBack(doc, key, value)
  {
    var r := StateWriteBack(doc, key, value);
    assert r.entries == Put(OwnEntries(OrEmpty(doc)), key, value);
    assert HasOwn(OrEmpty(r), key);
    PutTwice(OwnEntries(OrEmpty(doc)), key, value);
  }

  lemma ApiConfigurationWriteBackTwice(doc: Value, key: string, value: Value)
    requires !HasOwn(OrEmpty(doc), key)
    requires IsApiConfigurationKey(key) && Truthy(Prop(OrEmpty(doc), "apiConfiguration"))
    ensures StateWriteBack(StateWriteBack(doc, key, value), key, value) == StateWriteBack(doc, key, value)
  {
    var current := OrEmpty(doc);
    TruthyPropIsOwn(current, "apiConfiguration");
    var oldNested := OwnEntries(Prop(current, "apiConfiguration"));
    var nested := Obj(Put(oldNested, key, value));
    var r := Obj(Put(current.entries, "apiConfiguration", nested));
    assert StateWriteBack(doc, key, value) == r;
    assert key != "apiConfiguration";
    assert !HasOwn(r, key);
    assert Prop(r, "apiConfiguration") == nested;
    PutTwice(oldNested, key, value);
    assert Obj(Put(OwnEntries(nested), key, value)) == nested;
    PutTwice(current.entries, "apiConfiguration", nested);
    assert StateWriteBack(r, key, value) == Obj(Put(r.entries, "apiConfiguration", nested));
  }

  /** The `overwriteSecrets` document after `updateOverwrittenSecret`:
      rewritten only when it already owns the key. */
  function SecretWriteBack(doc: Value, key: string, value: Value): Value
  {
    var current := OrEmpty(doc);
    if HasOwn(current, key) then Obj(Put(OwnEntries(current), key, value)) else doc
  }

  /** The write-back never adds a secret to an object document: the key
      set stays the same, and only `key`'s value can change. */
  lemma SecretWriteBackKeepsKeys(doc: Value, key: string, value: Value)
    requires doc.Obj?
    ensures var r := SecretWriteBack(doc, key, value);
      r.Obj? && (forall k :: HasKey(r.entries, k) <==> HasKey(doc.entries, k))
      && (forall k | k != key :: Find(r.entries, k) == Find(doc.entries, k))
      && (HasKey(doc.entries, key) ==> Find(r.entries, key) == value)
  {
  }

  lemma SecretWriteBackIdempotent(doc: Value, key: string, value: Value)
    ensures SecretWriteBack(SecretWriteBack(doc, key, value), key, value) == SecretWriteBack(doc, key, value)
  {
    var current := OrEmpty(doc);
    if HasOwn(current, key) {
      var r := Obj(Put(OwnEntries(current), key, value));
      assert SecretWriteBack(doc, key, value) == r;
      assert HasOwn(r, key);
      PutTwice(OwnEntries(current), key, value);
      assert SecretWriteBack(r, key, value) == Obj(Put(r.entries, key, value));
    }
  }

  // ---------------------------------------------------------------------
  // Updates from the UI

  /** `updateOverwrittenState(context, key, value)`: the store write
      always happens, then the document is rewritten. */
  method UpdateOverwrittenState(ctx: ExtensionContext, config: Configuration, key: string, value: Value)
    modifies ctx, config
    ensures ctx.Contents() == ApplyWrite(old(ctx.Contents()), PlainWrite(IsLocalStateKey, key, value))
    ensures Get(if IsLocalStateKey(key) then ctx.workspaceState else ctx.globalState, key) == value
    ensures config.overwriteState == StateWriteBack(old(config.overwriteState), key, value)
    ensures config.overwriteSecrets == old(config.overwriteSecrets)
  {
    WriteStateKey(ctx, key, value);
    WriteBackState(config, key, value);
  }

  /** The store write of a state key: workspace state for a workspace
      key, global state otherwise. */
  method WriteStateKey(ctx: ExtensionContext, key: string, value: Value)
    modifies ctx
    ensures ctx.Contents() == ApplyWrite(old(ctx.Contents()), PlainWrite(IsLocalStateKey, key, value))
    ensures Get(if IsLocalStateKey(key) then ctx.workspaceState else ctx.globalState, key) == value
  {
    if IsLocalStateKey(key) {
      ctx.UpdateWorkspace(key, value);
    } else {
      ctx.UpdateGlobal(key, value);
    }
  }

  /** The settings part of `updateOverwrittenState`. */
  method WriteBackState(config: Configuration, key: string, value: Value)
    modifies config
    ensures config.overwriteState == StateWriteBack(old(config.overwriteState), key, value)
    ensures config.overwriteSecrets == old(config.overwriteSecrets)
  {
    var currentOverwriteState := OrEmpty(config.overwriteState);
    if HasOwn(currentOverwriteState, key) {
      var newState := Obj(Put(Spread(currentOverwriteState).entries, key, value));
      config.overwriteState := newState;
      return;
    }
    var apiConfiguration := Prop(currentOverwriteState, "apiConfiguration");
    if IsApiConfigurationKey(key) && Truthy(apiConfiguration) {
      var newApiConfiguration := Obj(Put(Spread(apiConfiguration).entries, key, value));
      var newState := Obj(Put(Spread(currentOverwriteState).entries, "apiConfiguration", newApiConfiguration));
      config.overwriteState := newState;
      return;
    }
    var autoApprovalSettings := Prop(currentOverwriteState, "autoApprovalSettings");
    if IsAutoApprovalSettingsKey(key) && Truthy(autoApprovalSettings) {
      var newAutoApprovalSettings := Obj(Put(Spread(autoApprovalSettings).entries, key, value));
      var newState := Obj(Put(Spread(currentOverwriteState).entries, "autoApprovalSettings", newAutoApprovalSettings));
      config.overwriteState := newState;
      return;
    }
  }

  /** `updateOverwrittenSecret(context, key, value)` */
  method UpdateOverwrittenSecret(ctx: ExtensionContext, config: Configuration, key: string, value: Value)
    modifies ctx, config
    ensures ctx.Contents() == ApplyWrite(old(ctx.Contents()), StoreSecretWrite(key, value))
    ensures config.overwriteSecrets == SecretWriteBack(old(config.overwriteSecrets), key, value)
    ensures config.overwriteState == old(config.overwriteState)
  {
    var currentOverwriteSecrets := OrEmpty(config.overwriteSecrets);
    if Truthy(value) {
      ctx.Store(key, value);
    } else {
      ctx.Delete(key);
    }
    if HasOwn(currentOverwriteSecrets, key) {
      var newSecrets := Obj(Put(Spread(currentOverwriteSecrets).entries, key, value));
      config.overwriteSecrets := newSecrets;
    }
  }

  // ---------------------------------------------------------------------
  // The module state

  /** The fingerprints (`JSON.stringify` texts, see `Fingerprint`) of the
      documents already applied since the last cache clear. */
  class AppliedOverrides {
    var appliedOverrides: set<Value>
    var appliedSecretOverrides: set<Value>

    constructor ()
      ensures appliedOverrides == {} && appliedSecretOverrides == {}
    {
      appliedOverrides, appliedSecretOverrides := {}, {};
    }

    /** `applyStateOverwriteOnStartup(context)`: writes an object document
        whose fingerprint has not been applied yet, then records the
        fingerprint. */
    method ApplyStateOverwriteOnStartup(ctx: ExtensionContext, config: Configuration)
      modifies this, ctx
      ensures var doc := config.overwriteState;
        if IsObjectDocument(doc) && Fingerprint(doc) !in old(appliedOverrides) then
          ctx.Contents() == ApplyWrites(old(ctx.Contents()), StateDocumentWrites(IsLocalStateKey, doc))
          && appliedOverrides == old(appliedOverrides) + {Fingerprint(doc)}
        else
          ctx.Contents() == old(ctx.Contents()) && appliedOverrides == old(appliedOverrides)
      ensures appliedSecretOverrides == old(appliedSecretOverrides)
    {
      var overwriteState := config.overwriteState;
      if !IsObjectDocument(overwriteState) {
        return;
      }
      var overwriteHash := Fingerprint(overwriteState);
      if overwriteHash in appliedOverrides {
        return;
      }
      ApplyStateEntries(ctx, OwnEntries(overwriteState));
      appliedOverrides := appliedOverrides + {overwriteHash};
    }

    /** The loop of `applyStateOverwriteOnStartup` over the document's
        own entries. */
    static method ApplyStateEntries(ctx: ExtensionContext, entries: Entries)
      modifies ctx
      ensures ctx.Contents() == ApplyWrites(old(ctx.Contents()), StartupWrites(IsLocalStateKey, entries))
    {
      var i := 0;
      while i < |entries|
        invariant 0 <= i <= |entries|
        invariant ctx.Contents() == ApplyWrites(old(ctx.Contents()), StartupWrites(IsLocalStateKey, entries[..i]))
      {
        ghost var done := StartupWrites(IsLocalStateKey, entries[..i]);
        ghost var next := EntryWrites(IsLocalStateKey, entries[i]);
        ApplyEntryOverwrite(ctx, entries[i]);
        ApplyWritesConcat(old(ctx.Contents()), done, next);
        EachEntryStep(EntryWritesOf(IsLocalStateKey), entries, i);
        i := i + 1;
      }
      assert entries[..i] == entries;
    }

    /** One iteration of the loop of `applyStateOverwriteOnStartup`. */
    static method ApplyEntryOverwrite(ctx: ExtensionContext, entry: (string, Value))
      modifies ctx
      ensures ctx.Contents() == ApplyWrites(old(ctx.Contents()), EntryWrites(IsLocalStateKey, entry))
    {
      var key, value := entry.0, entry.1;
      if key == "apiConfiguration" && IsTypeofObject(value) {
        ApplyApiConfiguration(ctx, OwnEntries(value));
      } else if key == "autoApprovalSettings" && IsTypeofObject(value) {
        ctx.UpdateGlobal(key, value);
      } else {
        WriteStateKey(ctx, key, value);
      }
    }

    /** The inner loop over the own entries of `apiConfiguration`. */
    static method ApplyApiConfiguration(ctx: ExtensionContext, apiConfig: Entries)
      modifies ctx
      ensures ctx.Contents() == ApplyWrites(old(ctx.Contents()), ApiConfigWrites(IsLocalStateKey, apiConfig))
    {
      var j := 0;
      while j < |apiConfig|
        invariant 0 <= j <= |apiConfig|
        invariant ctx.Contents() == ApplyWrites(old(ctx.Contents()), ApiConfigWrites(IsLocalStateKey, apiConfig[..j]))
      {
        var apiKey, apiValue := apiConfig[j].0, apiConfig[j].1;
        WriteStateKey(ctx, apiKey, apiValue);
        ApiConfigStep(IsLocalStateKey, old(ctx.Contents()), apiConfig, j);
        j := j + 1;
      }
      assert apiConfig[..j] == apiConfig;
    }

    /** `applySecretOverwriteOnStartup(context)` */
    method ApplySecretOverwriteOnStartup(ctx: ExtensionContext, config: Configuration)
      modifies this, ctx
      ensures var doc := config.overwriteSecrets;
        if IsObjectDocument(doc) && Fingerprint(doc) !in old(appliedSecretOverrides) then
          ctx.Contents() == ApplyWrites(old(ctx.Contents()), SecretDocumentWrites(doc))
          && appliedSecretOverrides == old(appliedSecretOverrides) + {Fingerprint(doc)}
        else
          ctx.Contents() == old(ctx.Contents()) && appliedSecretOverrides == old(appliedSecretOverrides)
      ensures appliedOverrides == old(appliedOverrides)
    {
      var overwriteSecrets := config.overwriteSecrets;
      if !IsObjectDocument(overwriteSecrets) {
        return;
      }
      var secretsHash := Fingerprint(overwriteSecrets);
      if secretsHash in appliedSecretOverrides {
        return;
      }
      ApplySecretEntries(ctx, OwnEntries(overwriteSecrets));
      appliedSecretOverrides := appliedSecretOverrides + {secretsHash};
    }

    /** The loop of `applySecretOverwriteOnStartup` over the document's
        own entries. */
    static method ApplySecretEntries(ctx: ExtensionContext, entries: Entries)
      modifies ctx
      ensures ctx.Contents() == ApplyWrites(old(ctx.Contents()), SecretWrites(entries))
    {
      var i := 0;
      while i < |entries|
        invariant 0 <= i <= |entries|
        invariant ctx.Contents() == ApplyWrites(old(ctx.Contents()), SecretWrites(entries[..i]))
      {
        var key, value := entries[i].0, entries[i].1;
        if Truthy(value) {
          ctx.Store(key, value);
        } else {
          ctx.Delete(key);
        }
        ApplyWritesSnoc(old(ctx.Contents()), SecretWrites(entries[..i]), StoreSecretWrite(key, value));
        EachEntryStep(SecretWriteOf, entries, i);
        i := i + 1;
      }
      assert entries[..i] == entries;
    }

    /** `clearAppliedOverridesCache()` */
    method ClearAppliedOverridesCache()
      modifies this
      ensures appliedOverrides == {} && appliedSecretOverrides == {}
    {
      appliedOverrides := {};
      appliedSecretOverrides := {};
    }
  }
}
