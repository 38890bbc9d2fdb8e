/** The general override variant: the tracked-path set built from the
    `overwriteState` document, the re-entrancy flag, the startup pass that
    writes the document into the three stores, and the write-back of a
    store change into the document at a tracked path. */
module StateOverwrite {
  import opened JsValue
  import opened Stores
  import opened OverwriteTree

  // ---------------------------------------------------------------------
  // Key routing

  /** The workspace-state keys of this variant. */
  const LocalStateKeys: seq<string> := [
    "localClineRulesToggles", "chatSettings", "apiProvider", "apiModelId",
    "thinkingBudgetTokens", "reasoningEffort", "vsCodeLmModelSelector",
    "awsBedrockCustomSelected", "awsBedrockCustomModelBaseId",
    "openRouterModelId", "openRouterModelInfo", "openAiModelId",
    "openAiModelInfo", "ollamaModelId", "lmStudioModelId", "liteLlmModelId",
    "liteLlmModelInfo", "requestyModelId", "requestyModelInfo",
    "togetherModelId", "fireworksModelId", "previousModeApiProvider",
    "previousModeModelId", "previousModeModelInfo",
    "previousModeVsCodeLmModelSelector", "previousModeThinkingBudgetTokens",
    "previousModeReasoningEffort", "previousModeAwsBedrockCustomSelected",
    "previousModeAwsBedrockCustomModelBaseId", "previousModeSapAiCoreClientId",
    "previousModeSapAiCoreClientSecret", "previousModeSapAiCoreBaseUrl",
    "previousModeSapAiCoreTokenUrl", "previousModeSapAiCoreResourceGroup",
    "previousModeSapAiCoreModelId"]

  /** The secret-storage keys. */
  const SecretKeys: seq<string> := [
    "apiKey", "clineApiKey", "openRouterApiKey", "awsAccessKey",
    "awsSecretKey", "awsSessionToken", "openAiApiKey", "geminiApiKey",
    "openAiNativeApiKey", "deepSeekApiKey", "requestyApiKey",
    "togetherApiKey", "fireworksApiKey", "qwenApiKey", "doubaoApiKey",
    "mistralApiKey", "liteLlmApiKey", "authNonce", "asksageApiKey",
    "xaiApiKey", "nebiusApiKey", "sambanovaApiKey", "cerebrasApiKey",
    "sapAiCoreClientId", "sapAiCoreClientSecret"]

  /** `isLocalStateKey(key)` */
  predicate IsLocalStateKey(key: string) {
    Listed(LocalStateKeys, key, 0)
  }

  /** `isSecretKey(key)` */
  predicate IsSecretKey(key: string) {
    Listed(SecretKeys, key, 0)
  }

  /** The routing tests are membership in the key lists. */
  lemma KeyTestsAreMembership(key: string)
    ensures IsSecretKey(key) <==> key in SecretKeys
    ensures IsLocalStateKey(key) <==> key in LocalStateKeys
  {
    IncludesIsMembership(SecretKeys, key);
    IncludesIsMembership(LocalStateKeys, key);
  }

  /** Neither secret nor workspace: the key lives in global state. */
  predicate IsGlobalRouted(key: string) {
    !IsSecretKey(key) && !IsLocalStateKey(key)
  }

  /** Which store a key is routed to. The startup pass is stated for any
      routing, so that its laws do not depend on the key lists;
      `Route` is the routing the extension uses. */
  type Router = string -> StoreKind

  /** Secret keys first, then workspace keys; everything else is global. */
  function Route(key: string): StoreKind
  {
    if IsSecretKey(key) then SecretStore
    else if IsLocalStateKey(key) then WorkspaceStore
    else GlobalStore
  }

  /** The store write `updateNestedStateWithOverride` performs for a key. */
  function RoutedWrite(key: string, value: Value): (w: Write)
    ensures IsSecretKey(key) ==> w == StoreSecretWrite(key, value)
    ensures !IsSecretKey(key) && IsLocalStateKey(key) ==> w == SetWorkspace(key, value)
    ensures IsGlobalRouted(key) ==> w == SetGlobal(key, value)
  {
    if IsSecretKey(key) then StoreSecretWrite(key, value)
    else if IsLocalStateKey(key) then SetWorkspace(key, value)
    else SetGlobal(key, value)
  }

  // ---------------------------------------------------------------------
  // Write-back into the document

  /** The document path `updateOverriddenProperty` rewrites, if any: the
      full path when it is tracked, else (only without a parent path) the
      same key under `apiConfiguration` when that is tracked. An absent
      parent path is the empty string. */
  function WriteBackTarget(tracked: set<string>, key: string, parentPath: string): (r: Option<string>)
    ensures r.Some? ==> r.value in tracked
    ensures JoinPath(parentPath, key) in tracked ==> r == Some(JoinPath(parentPath, key))
    ensures r.Some? && r.value != JoinPath(parentPath, key) ==>
      parentPath == "" && r.value == "apiConfiguration." + key
    ensures r.None? <==>
      JoinPath(parentPath, key) !in tracked && (parentPath != "" || "apiConfiguration." + key !in tracked)
  {
    var fullPath := JoinPath(parentPath, key);
    if fullPath in tracked then Some(fullPath)
    else if parentPath == "" && "apiConfiguration." + key in tracked then Some("apiConfiguration." + key)
    else None
  }

  /** The rewritten document: a shallow copy of `doc || {}` with the value
      set at the dotted path. */
  function WriteBack(doc: Value, targetPath: string, value: Value): (r: Value)
    ensures r.Obj?
  {
    Obj(SetNested(OwnEntries(OrEmpty(doc)), targetPath, value))
  }

  /** The `overwriteState` document after `updateOverriddenProperty`. */
  function OverriddenDocument(applying: bool, tracked: set<string>, doc: Value,
                              key: string, value: Value, parentPath: string): (r: Value)
    ensures applying ==> r == doc
    ensures WriteBackTarget(tracked, key, parentPath).None? ==> r == doc
  {
    if applying then doc
    else match WriteBackTarget(tracked, key, parentPath)
      case None => doc
      case Some(p) => WriteBack(doc, p, value)
  }

  /** After a write-back the document holds the new value at the path. */
  lemma WriteBackGet(doc: Value, p: string, v: Value)
    ensures GetNested(WriteBack(doc, p, v), p) == v
  {
    GetAfterSet(OwnEntries(OrEmpty(doc)), p, v);
  }

  /** A write-back leaves every path of an object document that does not
      pass through the rewritten path. */
  lemma WriteBackElsewhere(doc: Value, p: string, v: Value, qs: seq<string>)
    requires doc.Obj? && Diverge(Split(p), qs)
    ensures GetKeys(WriteBack(doc, p, v), qs) == GetKeys(doc, qs)
  {
    GetAwayFromSet(doc.entries, Split(p), v, qs);
  }

  /** A write-back adds at most the first key of its path to the top
      level of an object document. */
  lemma WriteBackTopLevel(doc: Value, p: string, v: Value, k: string)
    requires doc.Obj?
    ensures HasKey(WriteBack(doc, p, v).entries, k) <==> HasKey(doc.entries, k) || k == Split(p)[0]
  {
    SetKeysTopLevel(doc.entries, Split(p), v, k);
  }

  /** With the tracked set of a document, a write-back only ever
      rewrites a path that document supplied: the dotted path of one of
      its key chains. When the keys are plain, the path splits back into
      exactly that chain, so the write lands where the value came from. */
  lemma WriteBackAtTrackedPath(original: Value, key: string, parentPath: string)
    requires WriteBackTarget(FlattenPaths(original), key, parentPath).Some?
    ensures var p := WriteBackTarget(FlattenPaths(original), key, parentPath).value;
      exists ks :: IsKeyChain(OwnEntries(original), ks) && PathOf("", ks) == p
  {
    var p := WriteBackTarget(FlattenPaths(original), key, parentPath).value;
    FlattenPathsExact(original, p);
  }

  /** An untracked key never reaches the document (test "should not
      update settings.json for non-overridden properties"). */
  lemma UntrackedKeyNotAdded(applying: bool, tracked: set<string>, doc: Value, key: string, value: Value)
    requires key !in tracked && "apiConfiguration." + key !in tracked
    ensures OverriddenDocument(applying, tracked, doc, key, value, "") == doc
  {
  }

  // ---------------------------------------------------------------------
  // The startup pass

  /** The store write for one entry `(nestedKey, nestedValue)` of the
      plain-object value under top-level `key`: secret and workspace keys
      are written flat under their own name; any other key is merged into
      the global value of `key`. */
  function NestedWrite(route: Router, st: Snapshot, key: string, e: (string, Value)): (w: Write)
    ensures Target(w) == NestedTarget(route, key, e.0)
    ensures route(e.0) == GlobalStore ==> w == SetGlobal(key, DeepMerge(OrEmpty(Get(st.global, key)), Obj([e])))
  {
    match route(e.0)
    case SecretStore => StoreSecret(e.0, Str(JsString(e.1)))
    case WorkspaceStore => SetWorkspace(e.0, e.1)
    case GlobalStore => SetGlobal(key, DeepMerge(OrEmpty(Get(st.global, key)), Obj([e])))
  }

  /** The store key `NestedWrite` targets. */
  function NestedTarget(route: Router, key: string, nestedKey: string): (StoreKind, string)
  {
    match route(nestedKey)
    case GlobalStore => (GlobalStore, key)
    case other => (other, nestedKey)
  }

  /** The store write for a top-level entry whose value is not a plain
      object. */
  function TopWrite(route: Router, e: (string, Value)): (w: Write)
    ensures Target(w) == (route(e.0), e.0)
  {
    match route(e.0)
    case SecretStore => StoreSecret(e.0, Str(JsString(e.1)))
    case WorkspaceStore => SetWorkspace(e.0, e.1)
    case GlobalStore => SetGlobal(e.0, e.1)
  }

  /** The inner loop over the entries `es` of the value under `key`. */
  function NestedSteps(route: Router, st: Snapshot, key: string, es: Entries): Snapshot
    decreases |es|
  {
    if es == [] then st
    else
      var mid := NestedSteps(route, st, key, es[..|es| - 1]);
      ApplyWrite(mid, NestedWrite(route, mid, key, es[|es| - 1]))
  }

  /** One iteration of the outer loop. */
  function EntryStep(route: Router, st: Snapshot, e: (string, Value)): Snapshot
  {
    if e.1.Obj? then NestedSteps(route, st, e.0, e.1.entries) else ApplyWrite(st, TopWrite(route, e))
  }

  /** The outer loop over the document's entries, first to last. */
  function StartupSteps(route: Router, st: Snapshot, es: Entries): Snapshot
    decreases |es|
  {
    if es == [] then st else EntryStep(route, StartupSteps(route, st, es[..|es| - 1]), es[|es| - 1])
  }

  /** The store contents `applyStateOverridesOnStartup` leaves. */
  function StartupEffect(route: Router, st: Snapshot, doc: Value): (r: Snapshot)
    ensures !IsObjectDocument(doc) ==> r == st
  {
    if IsObjectDocument(doc) then StartupSteps(route, st, OwnEntries(doc)) else st
  }

  /** The entries of `es` that are routed to global state. */
  function GlobalPart(route: Router, es: Entries): Entries
    decreases |es|
  {
    if es == [] then []
    else
      var e := es[|es| - 1];
      GlobalPart(route, es[..|es| - 1]) + (if route(e.0) == GlobalStore then [e] else [])
  }

  lemma {:induction false} GlobalPartKeys(route: Router, es: Entries, k: string)
    ensures HasKey(GlobalPart(route, es), k) <==> HasKey(es, k) && route(k) == GlobalStore
    decreases |es|
  {
    if es != [] {
      var pre, e := es[..|es| - 1], es[|es| - 1];
      assert es == pre + [e];
      GlobalPartKeys(route, pre, k);
      HasKeySnoc(pre, e);
      if route(e.0) == GlobalStore {
        assert GlobalPart(route, es) == GlobalPart(route, pre) + [e];
        HasKeySnoc(GlobalPart(route, pre), e);
      } else {
        assert GlobalPart(route, es) == GlobalPart(route, pre);
      }
    }
  }

  lemma {:induction false} GlobalPartDistinct(route: Router, es: Entries)
    requires DistinctKeys(es)
    ensures DistinctKeys(GlobalPart(route, es))
    decreases |es|
  {
    if es != [] {
      var pre, e := es[..|es| - 1], es[|es| - 1];
      GlobalPartDistinct(route, pre);
      if route(e.0) == GlobalStore {
        var g := GlobalPart(route, es);
        assert g[..|g| - 1] == GlobalPart(route, pre);
        GlobalPartKeys(route, pre, e.0);
      } else {
        assert GlobalPart(route, es) == GlobalPart(route, pre);
      }
    }
  }

  lemma GlobalPartFind(route: Router, es: Entries, k: string)
    requires DistinctKeys(es) && route(k) == GlobalStore
    ensures Find(GlobalPart(route, es), k) == Find(es, k)
  {
    GlobalPartFindAt(route, es, k);
  }

  lemma {:induction false} GlobalPartFindAt(route: Router, es: Entries, k: string)
    requires route(k) == GlobalStore
    ensures Find(GlobalPart(route, es), k) == Find(es, k)
    decreases |es|
  {
    if es != [] {
      var pre, e := es[..|es| - 1], es[|es| - 1];
      assert es == pre + [e];
      GlobalPartFindAt(route, pre, k);
      FindSnoc(pre, e, k);
      GlobalPartKeys(route, pre, k);
      if route(e.0) == GlobalStore {
        assert GlobalPart(route, es) == GlobalPart(route, pre) + [e];
        FindSnoc(GlobalPart(route, pre), e, k);
      } else {
        assert GlobalPart(route, es) == GlobalPart(route, pre);
      }
    }
  }

  /** Global state after the inner loop over `es` under `key`: the old
      value (or `{}`) deep-merged with the global-routed entries, when
      there are any. */
  function MergedGlobal(route: Router, st: Snapshot, key: string, es: Entries): map<string, Value>
  {
    if GlobalPart(route, es) == [] then st.global
    else st.global[key := DeepMerge(OrEmpty(Get(st.global, key)), Obj(GlobalPart(route, es)))]
  }

  lemma NestedStepGlobal(route: Router, mid: Snapshot, key: string, e: (string, Value))
    ensures ApplyWrite(mid, NestedWrite(route, mid, key, e)).global ==
      if route(e.0) == GlobalStore then mid.global[key := DeepMerge(OrEmpty(Get(mid.global, key)), Obj([e]))]
      else mid.global
  {
  }

  lemma MergeIntoMerged(g: map<string, Value>, key: string, m: Value, e: (string, Value), pre: Entries)
    requires pre != [] && m == DeepMerge(OrEmpty(Get(g, key)), Obj(pre))
    ensures g[key := m][key := DeepMerge(OrEmpty(Get(g[key := m], key)), Obj([e]))] ==
      g[key := DeepMerge(OrEmpty(Get(g, key)), Obj(pre + [e]))]
  {
    assert Get(g[key := m], key) == m;
    assert OrEmpty(m) == m;
    DeepMergeSnoc(OrEmpty(Get(g, key)), pre, e);
  }

  lemma MergedGlobalSnoc(route: Router, st: Snapshot, mid: Snapshot, key: string, es: Entries)
    requires es != [] && mid.global == MergedGlobal(route, st, key, es[..|es| - 1])
    ensures ApplyWrite(mid, NestedWrite(route, mid, key, es[|es| - 1])).global == MergedGlobal(route, st, key, es)
  {
    var pre, e := es[..|es| - 1], es[|es| - 1];
    NestedStepGlobal(route, mid, key, e);
    var gp := GlobalPart(route, pre);
    if route(e.0) == GlobalStore {
      assert GlobalPart(route, es) == gp + [e];
      if gp == [] {
        assert gp + [e] == [e];
      } else {
        MergeIntoMerged(st.global, key, DeepMerge(OrEmpty(Get(st.global, key)), Obj(gp)), e, gp);
      }
    } else {
      assert GlobalPart(route, es) == gp + [] == gp;
    }
  }

  /** The inner loop's effect on global state: the value under `key`
      becomes the deep merge of its old value (or `{}`) with the
      global-routed entries, and nothing else in global state changes. */
  lemma {:induction false} NestedStepsGlobal(route: Router, st: Snapshot, key: string, es: Entries)
    ensures NestedSteps(route, st, key, es).global == MergedGlobal(route, st, key, es)
    decreases |es|
  {
    if es != [] {
      NestedStepsGlobal(route, st, key, es[..|es| - 1]);
      MergedGlobalSnoc(route, st, NestedSteps(route, st, key, es[..|es| - 1]), key, es);
    }
  }

  /** Sibling fields of a global object survive the startup merge: a key
      of the existing value under `key` that no global-routed nested
      entry names keeps its value (test "applyStateOverridesOnStartup
      should apply overrides from settings", `version: 1`). */
  lemma NestedStepsKeepSiblings(route: Router, st: Snapshot, key: string, es: Entries, sibling: string)
    requires DistinctKeys(es) && key in st.global && st.global[key].Obj?
    requires !HasKey(es, sibling) || route(sibling) != GlobalStore
    ensures Prop(Get(NestedSteps(route, st, key, es).global, key), sibling) == Prop(st.global[key], sibling)
  {
    NestedStepsGlobal(route, st, key, es);
    GlobalPartKeys(route, es, sibling);
    var gp := GlobalPart(route, es);
    if gp != [] {
      GlobalPartDistinct(route, es);
      assert OrEmpty(Get(st.global, key)) == st.global[key];
      var merged := DeepMerge(st.global[key], Obj(gp));
      assert Get(NestedSteps(route, st, key, es).global, key) == merged;
      DeepMergeObjectLaws(st.global[key], Obj(gp), sibling);
    }
  }

  /** A global-routed nested entry is visible in the merged global value
      under its parent key. */
  lemma NestedStepsGlobalEntry(route: Router, st: Snapshot, key: string, es: Entries, nk: string)
    requires DistinctKeys(es) && HasKey(es, nk) && route(nk) == GlobalStore
    ensures var merged := Get(NestedSteps(route, st, key, es).global, key);
      Find(es, nk).Obj? ==> Prop(merged, nk) == DeepMerge(Prop(OrEmpty(Get(st.global, key)), nk), Find(es, nk))
    ensures var merged := Get(NestedSteps(route, st, key, es).global, key);
      !Find(es, nk).Obj? ==> Prop(merged, nk) == Find(es, nk)
  {
    NestedStepsGlobal(route, st, key, es);
    GlobalPartKeys(route, es, nk);
    GlobalPartDistinct(route, es);
    GlobalPartFind(route, es, nk);
    DeepMergeObjectLaws(OrEmpty(Get(st.global, key)), Obj(GlobalPart(route, es)), nk);
  }

  /** Nested secret and workspace keys are stored flat under their own
      name: secrets as their `String(...)` text. */
  lemma {:induction false} NestedStepsRouted(route: Router, st: Snapshot, key: string, es: Entries, nk: string)
    requires DistinctKeys(es) && HasKey(es, nk)
    ensures route(nk) == SecretStore ==> Get(NestedSteps(route, st, key, es).secrets, nk) == Str(JsString(Find(es, nk)))
    ensures route(nk) == WorkspaceStore ==> Get(NestedSteps(route, st, key, es).workspace, nk) == Find(es, nk)
    decreases |es|
  {
    var pre, e := es[..|es| - 1], es[|es| - 1];
    assert es == pre + [e];
    HasKeySnoc(pre, e);
    FindSnoc(pre, e, nk);
    NestedStepRouted(route, NestedSteps(route, st, key, pre), key, e, nk);
    if e.0 != nk {
      NestedStepsRouted(route, st, key, pre, nk);
    }
  }

  /** One step of the inner loop, at a secret or workspace key. */
  lemma NestedStepRouted(route: Router, mid: Snapshot, key: string, e: (string, Value), nk: string)
    ensures var r := ApplyWrite(mid, NestedWrite(route, mid, key, e));
      route(nk) == SecretStore ==>
        Get(r.secrets, nk) == if e.0 == nk then Str(JsString(e.1)) else Get(mid.secrets, nk)
    ensures var r := ApplyWrite(mid, NestedWrite(route, mid, key, e));
      route(nk) == WorkspaceStore ==>
        Get(r.workspace, nk) == if e.0 == nk then e.1 else Get(mid.workspace, nk)
  {
  }

  /** The store keys a top-level entry may write. */
  function EntryTargets(route: Router, e: (string, Value)): set<(StoreKind, string)>
  {
    if e.1.Obj? then set i | 0 <= i < |e.1.entries| :: NestedTarget(route, e.0, e.1.entries[i].0)
    else {Target(TopWrite(route, e))}
  }

  function StartupTargets(route: Router, es: Entries): set<(StoreKind, string)>
    decreases |es|
  {
    if es == [] then {} else StartupTargets(route, es[..|es| - 1]) + EntryTargets(route, es[|es| - 1])
  }

  lemma NestedWriteTarget(route: Router, st: Snapshot, key: string, e: (string, Value))
    ensures Target(NestedWrite(route, st, key, e)) == NestedTarget(route, key, e.0)
  {
  }

  lemma {:induction false} NestedStepsFrame(route: Router, st: Snapshot, key: string, es: Entries)
    ensures AgreeOutside(NestedSteps(route, st, key, es), st, set i | 0 <= i < |es| :: NestedTarget(route, key, es[i].0))
    decreases |es|
  {
    var ts := set i | 0 <= i < |es| :: NestedTarget(route, key, es[i].0);
    if es == [] {
    } else {
      var pre, e := es[..|es| - 1], es[|es| - 1];
      var mid := NestedSteps(route, st, key, pre);
      var tpre := set i | 0 <= i < |pre| :: NestedTarget(route, key, pre[i].0);
      NestedStepsFrame(route, st, key, pre);
      ApplyWriteFrame(mid, NestedWrite(route, mid, key, e));
      NestedWriteTarget(route, mid, key, e);
      AgreeTrans(NestedSteps(route, st, key, es), mid, st, {NestedTarget(route, key, e.0)}, tpre);
      assert NestedTarget(route, key, es[|es| - 1].0) in ts;
      assert forall t | t in tpre :: t in ts by {
        forall t | t in tpre ensures t in ts {
          var i :| 0 <= i < |pre| && NestedTarget(route, key, pre[i].0) == t;
          assert es[i] == pre[i];
        }
      }
      AgreeWiden(NestedSteps(route, st, key, es), st, {NestedTarget(route, key, e.0)} + tpre, ts);
    }
  }

  /** Startup changes no store key outside the ones the document names:
      its top-level keys, the nested secret and workspace keys, and the
      parent keys of nested global entries. */
  lemma {:induction false} StartupFrame(route: Router, st: Snapshot, es: Entries)
    ensures AgreeOutside(StartupSteps(route, st, es), st, StartupTargets(route, es))
    decreases |es|
  {
    if es != [] {
      var pre, e := es[..|es| - 1], es[|es| - 1];
      var mid := StartupSteps(route, st, pre);
      StartupFrame(route, st, pre);
      if e.1.Obj? {
        NestedStepsFrame(route, mid, e.0, e.1.entries);
      } else {
        ApplyWriteFrame(mid, TopWrite(route, e));
      }
      AgreeTrans(StartupSteps(route, st, es), mid, st, EntryTargets(route, e), StartupTargets(route, pre));
    }
  }

  /** Running the loop over `a` and then over `b` is running it over
      `a + b`. */
  lemma {:induction false} StartupStepsConcat(route: Router, st: Snapshot, a: Entries, b: Entries)
    ensures StartupSteps(route, st, a + b) == StartupSteps(route, StartupSteps(route, st, a), b)
    decreases |b|
  {
    if b == [] {
      assert a + b == a;
    } else {
      assert (a + b)[..|a + b| - 1] == a + b[..|b| - 1];
      StartupStepsConcat(route, st, a, b[..|b| - 1]);
    }
  }

  /** A top-level entry that is not a plain object ends up in the store
      its key is routed to (secret, else workspace, else global), unless
      a later entry writes the same store key. */
  lemma StartupTopLevelRouted(route: Router, st: Snapshot, es: Entries, i: nat)
    requires i < |es| && !es[i].1.Obj?
    requires Target(TopWrite(route, es[i])) !in StartupTargets(route, es[i + 1..])
    ensures var r := StartupSteps(route, st, es); var k := es[i].0;
      match route(k)
      case SecretStore => Get(r.secrets, k) == Str(JsString(es[i].1))
      case WorkspaceStore => Get(r.workspace, k) == es[i].1
      case GlobalStore => Get(r.global, k) == es[i].1
  {
    assert es == es[..i + 1] + es[i + 1..];
    StartupStepsConcat(route, st, es[..i + 1], es[i + 1..]);
    var mid := StartupSteps(route, st, es[..i + 1]);
    assert es[..i + 1][..i] == es[..i];
    StartupFrame(route, mid, es[i + 1..]);
    var t := Target(TopWrite(route, es[i]));
    assert SameAt(StoreOf(StartupSteps(route, mid, es[i + 1..]), t.0), StoreOf(mid, t.0), t.1);
  }

  lemma ProviderIsLocal()
    ensures Route("apiProvider") == WorkspaceStore
  {
    NotListed(SecretKeys, "apiProvider", 0);
    ListedIff(LocalStateKeys, "apiProvider", 0);
    assert LocalStateKeys[2] == "apiProvider";
  }

  lemma EnabledIsGlobal()
    ensures Route("enabled") == GlobalStore
  {
    NotListed(SecretKeys, "enabled", 0);
    NotListed(LocalStateKeys, "enabled", 0);
  }

  lemma MaxRequestsIsGlobal()
    ensures Route("maxRequests") == GlobalStore
  {
    NotListed(SecretKeys, "maxRequests", 0);
    NotListed(LocalStateKeys, "maxRequests", 0);
  }

  lemma ScenarioKeysDiffer()
    ensures "enabled" != "maxRequests" && "version" != "enabled" && "version" != "maxRequests"
  {
    assert "enabled"[0] != "maxRequests"[0];
    assert "version"[0] != "enabled"[0] && "version"[0] != "maxRequests"[0];
  }

  /** Two top-level entries that are not plain objects are two plain
      store writes. */
  lemma TwoTopLevelEntries(route: Router, st: Snapshot, e1: (string, Value), e2: (string, Value))
    requires !e1.1.Obj? && !e2.1.Obj?
    ensures StartupSteps(route, st, [e1, e2]) == ApplyWrite(ApplyWrite(st, TopWrite(route, e1)), TopWrite(route, e2))
  {
    assert [e1, e2][..1] == [e1] && [e1][..0] == [];
    assert StartupSteps(route, st, [e1]) == EntryStep(route, StartupSteps(route, st, []), e1);
    assert StartupSteps(route, st, [e1, e2]) == EntryStep(route, StartupSteps(route, st, [e1]), e2);
  }

  lemma ThreeEntries(route: Router, st: Snapshot, e1: (string, Value), e2: (string, Value), e3: (string, Value))
    requires e3.1.Obj?
    ensures StartupSteps(route, st, [e1, e2, e3]) == NestedSteps(route, StartupSteps(route, st, [e1, e2]), e3.0, e3.1.entries)
  {
    assert [e1, e2, e3][..2] == [e1, e2];
  }

  lemma TwoKeysFind(e1: (string, Value), e2: (string, Value))
    requires e1.0 != e2.0
    ensures HasKey([e1, e2], e1.0) && Find([e1, e2], e1.0) == e1.1
    ensures HasKey([e1, e2], e2.0) && Find([e1, e2], e2.0) == e2.1
  {
    assert [e1, e2][0].0 == e1.0 && [e1, e2][1].0 == e2.0;
    assert [e1, e2][1..] == [e2];
    assert Find([e1, e2], e2.0) == Find([e2], e2.0);
  }

  lemma TwoKeysDistinct(e1: (string, Value), e2: (string, Value))
    requires e1.0 != e2.0
    ensures DistinctKeys([e1, e2])
  {
    var one: Entries := [e1];
    assert one[..0] == [] && !HasKey([], e1.0);
    assert DistinctKeys(one);
    assert !HasKey(one, e2.0);
    assert [e1, e2][..1] == one;
  }

  lemma TwoKeysAbsent(e1: (string, Value), e2: (string, Value), other: string)
    requires other != e1.0 && other != e2.0
    ensures !HasKey([e1, e2], other)
  {
    HasKeyCons(e1, [e2]);
    HasKeyCons(e2, []);
    assert [e1] + [e2] == [e1, e2];
  }

  lemma ThreeKeysLast(e1: (string, Value), e2: (string, Value), e3: (string, Value))
    requires e3.0 != e1.0 && e3.0 != e2.0
    ensures Find([e1, e2, e3], e3.0) == e3.1
  {
    assert [e1, e2, e3] == [e1, e2] + [e3];
    FindSnoc([e1, e2], e3, e3.0);
    HasKeyCons(e1, [e2]);
    HasKeyCons(e2, []);
    assert [e1] + [e2] == [e1, e2];
  }

  /** Nested entries that are all global-routed leave workspace state
      and secret storage alone. */
  lemma {:induction false} NestedStepsGlobalOnly(route: Router, st: Snapshot, key: string, es: Entries)
    requires forall i | 0 <= i < |es| :: route(es[i].0) == GlobalStore
    ensures NestedSteps(route, st, key, es).workspace == st.workspace
    ensures NestedSteps(route, st, key, es).secrets == st.secrets
    decreases |es|
  {
    if es != [] {
      NestedStepsGlobalOnly(route, st, key, es[..|es| - 1]);
    }
  }

  lemma TwoFieldMergeOthers(route: Router, st: Snapshot, key: string, k1: string, v1: Value, k2: string, v2: Value)
    requires route(k1) == GlobalStore && route(k2) == GlobalStore
    ensures var r := NestedSteps(route, st, key, [(k1, v1), (k2, v2)]);
      r.workspace == st.workspace && r.secrets == st.secrets
  {
    NestedStepsGlobalOnly(route, st, key, [(k1, v1), (k2, v2)]);
  }

  lemma TwoFieldMergeField(route: Router, st: Snapshot, key: string, k1: string, v1: Value, k2: string, v2: Value, k: string)
    requires route(k1) == GlobalStore && route(k2) == GlobalStore && k1 != k2 && (k == k1 || k == k2)
    requires !v1.Obj? && !v2.Obj?
    ensures Prop(Get(NestedSteps(route, st, key, [(k1, v1), (k2, v2)]).global, key), k) == if k == k1 then v1 else v2
  {
    TwoKeysFind((k1, v1), (k2, v2));
    TwoKeysDistinct((k1, v1), (k2, v2));
    NestedStepsGlobalEntry(route, st, key, [(k1, v1), (k2, v2)], k);
  }

  lemma TwoFieldMergeSibling(route: Router, st: Snapshot, key: string, k1: string, v1: Value, k2: string, v2: Value, sibling: string)
    requires k1 != k2 && sibling != k1 && sibling != k2
    requires key in st.global && st.global[key].Obj?
    ensures Prop(Get(NestedSteps(route, st, key, [(k1, v1), (k2, v2)]).global, key), sibling) == Prop(st.global[key], sibling)
  {
    TwoKeysDistinct((k1, v1), (k2, v2));
    TwoKeysAbsent((k1, v1), (k2, v2), sibling);
    NestedStepsKeepSiblings(route, st, key, [(k1, v1), (k2, v2)], sibling);
  }

  lemma ApiKeyIsSecret()
    ensures Route("openRouterApiKey") == SecretStore
  {
    ListedIff(SecretKeys, "openRouterApiKey", 0);
    assert SecretKeys[2] == "openRouterApiKey";
  }

  /** The two flat entries of the startup test write the workspace
      provider and then the secret. */
  lemma ScenarioFlatWrites(st: Snapshot, provider: Value, apiKey: string)
    requires !provider.Obj?
    ensures StartupSteps(Route, st, [("apiProvider", provider), ("openRouterApiKey", Str(apiKey))]) ==
      ApplyWrite(ApplyWrite(st, SetWorkspace("apiProvider", provider)), StoreSecret("openRouterApiKey", Str(apiKey)))
  {
    ProviderIsLocal();
    ApiKeyIsSecret();
    TwoTopLevelEntries(Route, st, ("apiProvider", provider), ("openRouterApiKey", Str(apiKey)));
  }

  /** The startup test of the extension's test suite, for any leaf
      values: the workspace `apiProvider` is overridden, the secret is
      stored, and the global `autoApprovalSettings` gets the new
      `enabled` and `maxRequests` while keeping its `version` (test
      "applyStateOverridesOnStartup should apply overrides from
      settings"). */
  lemma StartupScenario(provider: Value, apiKey: string, enabled: Value, maxRequests: Value,
                        oldEnabled: Value, oldMaxRequests: Value, version: Value, oldProvider: Value)
    requires !provider.Obj? && !enabled.Obj? && !maxRequests.Obj?
    ensures var doc := Obj([
        ("apiProvider", provider),
        ("openRouterApiKey", Str(apiKey)),
        ("autoApprovalSettings", Obj([("enabled", enabled), ("maxRequests", maxRequests)]))]);
      var st := Snapshot(
        map["autoApprovalSettings" := Obj([("enabled", oldEnabled), ("maxRequests", oldMaxRequests), ("version", version)])],
        map["apiProvider" := oldProvider],
        map[]);
      var r := StartupEffect(Route, st, doc);
      Get(r.workspace, "apiProvider") == provider
      && Get(r.secrets, "openRouterApiKey") == Str(apiKey)
      && Prop(Get(r.global, "autoApprovalSettings"), "enabled") == enabled
      && Prop(Get(r.global, "autoApprovalSettings"), "maxRequests") == maxRequests
      && Prop(Get(r.global, "autoApprovalSettings"), "version") == version
  {
    var e1, e2 := ("apiProvider", provider), ("openRouterApiKey", Str(apiKey));
    var e3 := ("autoApprovalSettings", Obj([("enabled", enabled), ("maxRequests", maxRequests)]));
    var oldSettings := Obj([("enabled", oldEnabled), ("maxRequests", oldMaxRequests), ("version", version)]);
    var st := Snapshot(map["autoApprovalSettings" := oldSettings], map["apiProvider" := oldProvider], map[]);
    ThreeEntries(Route, st, e1, e2, e3);
    ScenarioFlatWrites(st, provider, apiKey);
    var s2 := StartupSteps(Route, st, [e1, e2]);
    EnabledIsGlobal();
    MaxRequestsIsGlobal();
    ScenarioKeysDiffer();
    ThreeKeysLast(("enabled", oldEnabled), ("maxRequests", oldMaxRequests), ("version", version));
    TwoFieldMergeOthers(Route, s2, "autoApprovalSettings", "enabled", enabled, "maxRequests", maxRequests);
    TwoFieldMergeField(Route, s2, "autoApprovalSettings", "enabled", enabled, "maxRequests", maxRequests, "enabled");
    TwoFieldMergeField(Route, s2, "autoApprovalSettings", "enabled", enabled, "maxRequests", maxRequests, "maxRequests");
    TwoFieldMergeSibling(Route, s2, "autoApprovalSettings", "enabled", enabled, "maxRequests", maxRequests, "version");
  }

  // ---------------------------------------------------------------------
  // The module state

  /** The module-level state of the general variant: the paths of the
      last applied document, the (never filled) secret-path set, and the
      flag that suppresses write-back while a document is being applied. */
  class OverrideTracker {
    var originalOverrideKeys: set<string>
    var originalSecretOverrideKeys: set<string>
    var isApplyingOverrides: bool

    constructor ()
      ensures originalOverrideKeys == {} && originalSecretOverrideKeys == {} && !isApplyingOverrides
    {
      originalOverrideKeys, originalSecretOverrideKeys, isApplyingOverrides := {}, {}, false;
    }

    /** `applyStateOverrides(context, currentState)`: merges the document
        into `currentState` and records its paths, unless a document is
        already being applied or there is no object document. */
    method ApplyStateOverrides(config: Configuration, currentState: Value) returns (r: Value)
      modifies this
      ensures var doc := config.overwriteState;
        if old(isApplyingOverrides) || !IsObjectDocument(doc) then
          r == currentState && originalOverrideKeys == old(originalOverrideKeys)
          && isApplyingOverrides == old(isApplyingOverrides)
        else
          r == DeepMerge(currentState, doc) && originalOverrideKeys == FlattenPaths(doc)
          && !isApplyingOverrides
      ensures originalSecretOverrideKeys == old(originalSecretOverrideKeys)
    {
      if isApplyingOverrides {
        return currentState;
      }
      var overwriteState := config.overwriteState;
      if !IsObjectDocument(overwriteState) {
        return currentState;
      }
      isApplyingOverrides := true;
      var overridePaths := FlattenObjectPaths(overwriteState, "", {});
      originalOverrideKeys := {};
      originalOverrideKeys := originalOverrideKeys + overridePaths;
      r := DeepMerge(currentState, overwriteState);
      isApplyingOverrides := false;
    }

    /** `updateOverriddenProperty(context, key, value, parentPath)`: an
        absent parent path is the empty string. */
    method UpdateOverriddenProperty(config: Configuration, key: string, value: Value, parentPath: string)
      modifies config
      ensures config.overwriteState ==
        OverriddenDocument(isApplyingOverrides, originalOverrideKeys, old(config.overwriteState), key, value, parentPath)
      ensures config.overwriteSecrets == old(config.overwriteSecrets)
    {
      if isApplyingOverrides {
        return;
      }
      var target := WriteBackTarget(originalOverrideKeys, key, parentPath);
      if target.None? {
        return;
      }
      var currentOverwriteState := OrEmpty(config.overwriteState);
      var updatedOverwriteState := Spread(currentOverwriteState);
      updatedOverwriteState := Obj(SetNested(updatedOverwriteState.entries, target.value, value));
      config.overwriteState := updatedOverwriteState;
    }

    /** `updateGlobalStateWithOverride`: the store write always happens
        first, the write-back is decided afterwards. */
    method UpdateGlobalStateWithOverride(ctx: ExtensionContext, config: Configuration, key: string, value: Value)
      modifies ctx, config
      ensures ctx.Contents() == ApplyWrite(old(ctx.Contents()), SetGlobal(key, value))
      ensures config.overwriteState ==
        OverriddenDocument(isApplyingOverrides, originalOverrideKeys, old(config.overwriteState), key, value, "")
      ensures config.overwriteSecrets == old(config.overwriteSecrets)
    {
      ctx.UpdateGlobal(key, value);
      UpdateOverriddenProperty(config, key, value, "");
    }

    /** `updateWorkspaceStateWithOverride` */
    method UpdateWorkspaceStateWithOverride(ctx: ExtensionContext, config: Configuration, key: string, value: Value)
      modifies ctx, config
      ensures ctx.Contents() == ApplyWrite(old(ctx.Contents()), SetWorkspace(key, value))
      ensures config.overwriteState ==
        OverriddenDocument(isApplyingOverrides, originalOverrideKeys, old(config.overwriteState), key, value, "")
      ensures config.overwriteSecrets == old(config.overwriteSecrets)
    {
      ctx.UpdateWorkspace(key, value);
      UpdateOverriddenProperty(config, key, value, "");
    }

    /** `storeSecretWithOverride` */
    method StoreSecretWithOverride(ctx: ExtensionContext, config: Configuration, key: string, value: Value)
      modifies ctx, config
      ensures ctx.Contents() == ApplyWrite(old(ctx.Contents()), StoreSecretWrite(key, value))
      ensures config.overwriteState ==
        OverriddenDocument(isApplyingOverrides, originalOverrideKeys, old(config.overwriteState), key, value, "")
      ensures config.overwriteSecrets == old(config.overwriteSecrets)
    {
      if Truthy(value) {
        ctx.Store(key, value);
      } else {
        ctx.Delete(key);
      }
      UpdateOverriddenProperty(config, key, value, "");
    }

    /** `updateNestedStateWithOverride(context, parentKey, nestedKey,
        value)`: the nested key is routed to its store, and the
        write-back is looked up under `parentKey.nestedKey`. */
    method UpdateNestedStateWithOverride(ctx: ExtensionContext, config: Configuration,
                                         parentKey: string, nestedKey: string, value: Value)
      modifies ctx, config
      ensures ctx.Contents() == ApplyWrite(old(ctx.Contents()), RoutedWrite(nestedKey, value))
      ensures config.overwriteState ==
        OverriddenDocument(isApplyingOverrides, originalOverrideKeys, old(config.overwriteState), nestedKey, value, parentKey)
      ensures config.overwriteSecrets == old(config.overwriteSecrets)
    {
      if IsSecretKey(nestedKey) {
        if Truthy(value) {
          ctx.Store(nestedKey, value);
        } else {
          ctx.Delete(nestedKey);
        }
      } else if IsLocalStateKey(nestedKey) {
        ctx.UpdateWorkspace(nestedKey, value);
      } else {
        ctx.UpdateGlobal(nestedKey, value);
      }
      UpdateOverriddenProperty(config, nestedKey, value, parentKey);
    }

    /** `applyStateOverridesOnStartup(context)`: records the document's
        paths and writes each entry into the stores. */
    method ApplyStateOverridesOnStartup(ctx: ExtensionContext, config: Configuration)
      modifies this, ctx
      ensures var doc := config.overwriteState;
        if !IsObjectDocument(doc) then
          ctx.Contents() == old(ctx.Contents()) && originalOverrideKeys == old(originalOverrideKeys)
          && isApplyingOverrides == old(isApplyingOverrides)
        else
          ctx.Contents() == StartupEffect(Route, old(ctx.Contents()), doc)
          && originalOverrideKeys == FlattenPaths(doc) && !isApplyingOverrides
      ensures originalSecretOverrideKeys == old(originalSecretOverrideKeys)
    {
      var overwriteState := config.overwriteState;
      if !IsObjectDocument(overwriteState) {
        return;
      }
      isApplyingOverrides := true;
      var overridePaths := FlattenObjectPaths(overwriteState, "", {});
      originalOverrideKeys := {};
      originalOverrideKeys := originalOverrideKeys + overridePaths;
      var entries := OwnEntries(overwriteState);
      var i := 0;
      while i < |entries|
        invariant 0 <= i <= |entries|
        invariant ctx.Contents() == StartupSteps(Route, old(ctx.Contents()), entries[..i])
        invariant originalOverrideKeys == FlattenPaths(overwriteState)
        invariant originalSecretOverrideKeys == old(originalSecretOverrideKeys)
      {
        ApplyEntryOverride(ctx, entries[i]);
        assert entries[..i + 1][..i] == entries[..i];
        i := i + 1;
      }
      assert entries[..i] == entries;
      isApplyingOverrides := false;
    }

    /** One iteration of the outer loop of `applyStateOverridesOnStartup`. */
    static method ApplyEntryOverride(ctx: ExtensionContext, entry: (string, Value))
      modifies ctx
      ensures ctx.Contents() == EntryStep(Route, old(ctx.Contents()), entry)
    {
      var key, value := entry.0, entry.1;
      if value.Obj? {
        ApplyNestedOverrides(ctx, key, value.entries);
      } else {
        ApplyTopLevelOverride(ctx, key, value);
      }
    }

    /** The write of a top-level entry whose value is not a plain object. */
    static method ApplyTopLevelOverride(ctx: ExtensionContext, key: string, value: Value)
      modifies ctx
      ensures ctx.Contents() == ApplyWrite(old(ctx.Contents()), TopWrite(Route, (key, value)))
    {
      if IsSecretKey(key) {
        ctx.Store(key, Str(JsString(value)));
      } else if IsLocalStateKey(key) {
        ctx.UpdateWorkspace(key, value);
      } else {
        ctx.UpdateGlobal(key, value);
      }
    }

    /** The inner loop of `applyStateOverridesOnStartup` over the
        entries of the plain-object value under top-level `key`. */
    static method ApplyNestedOverrides(ctx: ExtensionContext, key: string, nested: Entries)
      modifies ctx
      ensures ctx.Contents() == NestedSteps(Route, old(ctx.Contents()), key, nested)
    {
      var j := 0;
      while j < |nested|
        invariant 0 <= j <= |nested|
        invariant ctx.Contents() == NestedSteps(Route, old(ctx.Contents()), key, nested[..j])
      {
        var nestedKey, nestedValue := nested[j].0, nested[j].1;
        if IsSecretKey(nestedKey) {
          ctx.Store(nestedKey, Str(JsString(nestedValue)));
        } else if IsLocalStateKey(nestedKey) {
          ctx.UpdateWorkspace(nestedKey, nestedValue);
        } else {
          var existingValue := Get(ctx.globalState, key);
          var mergedValue := DeepMerge(OrEmpty(existingValue), Obj([(nestedKey, nestedValue)]));
          ctx.UpdateGlobal(key, mergedValue);
        }
        assert nested[..j + 1][..j] == nested[..j];
        j := j + 1;
      }
      assert nested[..j] == nested;
    }

    /** `clearOverridesCache()` */
    method ClearOverridesCache()
      modifies this
      ensures originalOverrideKeys == {} && originalSecretOverrideKeys == {}
      ensures isApplyingOverrides == old(isApplyingOverrides)
    {
      originalOverrideKeys := {};
      originalSecretOverrideKeys := {};
    }
  }
}
