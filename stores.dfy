/** The host collaborators the override logic reads and writes: the
    extension's three key/value stores (global state, workspace state,
    secret storage) and the `cline` configuration section holding the
    override documents. Both are plain maps, as in the extension's test
    mock. */
module Stores {
  import opened JsValue

  /** The contents of the three stores at one moment. */
  datatype Snapshot = Snapshot(
    global: map<string, Value>,
    workspace: map<string, Value>,
    secrets: map<string, Value>)

  /** One store operation: `globalState.update`, `workspaceState.update`,
      `secrets.store`, `secrets.delete`. */
  datatype Write =
    | SetGlobal(key: string, value: Value)
    | SetWorkspace(key: string, value: Value)
    | StoreSecret(key: string, value: Value)
    | DeleteSecret(key: string)

  datatype StoreKind = GlobalStore | WorkspaceStore | SecretStore

  /** `get(key)` on a store: `undefined` for an absent key. */
  function Get(m: map<string, Value>, key: string): (r: Value)
    ensures key !in m ==> r == Undefined
  {
    if key in m then m[key] else Undefined
  }

  function ApplyWrite(st: Snapshot, w: Write): (r: Snapshot)
  {
    match w
    case SetGlobal(k, v) => st.(global := st.global[k := v])
    case SetWorkspace(k, v) => st.(workspace := st.workspace[k := v])
    case StoreSecret(k, v) => st.(secrets := st.secrets[k := v])
    case DeleteSecret(k) => st.(secrets := st.secrets - {k})
  }

  /** The store and key a write touches. */
  function Target(w: Write): (StoreKind, string)
  {
    match w
    case SetGlobal(k, _) => (GlobalStore, k)
    case SetWorkspace(k, _) => (WorkspaceStore, k)
    case StoreSecret(k, _) => (SecretStore, k)
    case DeleteSecret(k) => (SecretStore, k)
  }

  /** Performs the writes one after another, first to last. */
  function ApplyWrites(st: Snapshot, ws: seq<Write>): Snapshot
    decreases |ws|
  {
    if ws == [] then st else ApplyWrites(ApplyWrite(st, ws[0]), ws[1..])
  }

  function Targets(ws: seq<Write>): (r: set<(StoreKind, string)>)
    ensures forall i | 0 <= i < |ws| :: Target(ws[i]) in r
    ensures forall t | t in r :: exists i | 0 <= i < |ws| :: Target(ws[i]) == t
  {
    set i | 0 <= i < |ws| :: Target(ws[i])
  }

  function StoreOf(st: Snapshot, kind: StoreKind): map<string, Value>
  {
    match kind
    case GlobalStore => st.global
    case WorkspaceStore => st.workspace
    case SecretStore => st.secrets
  }

  /** `a` and `b` hold the same entry, or both none, at `k`. */
  predicate SameAt(a: map<string, Value>, b: map<string, Value>, k: string) {
    (k in a <==> k in b) && Get(a, k) == Get(b, k)
  }

  /** `a` and `b` agree at every store key outside `keys`. */
  ghost predicate AgreeOutside(a: Snapshot, b: Snapshot, keys: set<(StoreKind, string)>)
  {
    forall kind, k | (kind, k) !in keys :: SameAt(StoreOf(a, kind), StoreOf(b, kind), k)
  }

  lemma AgreeTrans(a: Snapshot, b: Snapshot, c: Snapshot, k1: set<(StoreKind, string)>, k2: set<(StoreKind, string)>)
    requires AgreeOutside(a, b, k1) && AgreeOutside(b, c, k2)
    ensures AgreeOutside(a, c, k1 + k2)
  {
    forall kind, k | (kind, k) !in k1 + k2
      ensures SameAt(StoreOf(a, kind), StoreOf(c, kind), k)
    {
      assert SameAt(StoreOf(a, kind), StoreOf(b, kind), k);
      assert SameAt(StoreOf(b, kind), StoreOf(c, kind), k);
    }
  }

  lemma AgreeWiden(a: Snapshot, b: Snapshot, k1: set<(StoreKind, string)>, k2: set<(StoreKind, string)>)
    requires AgreeOutside(a, b, k1) && k1 <= k2
    ensures AgreeOutside(a, b, k2)
  {
  }

  lemma ApplyWriteFrame(st: Snapshot, w: Write)
    ensures AgreeOutside(ApplyWrite(st, w), st, {Target(w)})
  {
  }

  lemma ApplyWriteElsewhere(st: Snapshot, w: Write, kind: StoreKind, k: string)
    requires (kind, k) != Target(w)
    ensures SameAt(StoreOf(ApplyWrite(st, w), kind), StoreOf(st, kind), k)
  {
  }

  lemma ApplyWriteAgree(a: Snapshot, b: Snapshot, w: Write, keys: set<(StoreKind, string)>)
    requires AgreeOutside(a, b, keys)
    ensures AgreeOutside(ApplyWrite(a, w), ApplyWrite(b, w), keys - {Target(w)})
  {
    forall kind, k | (kind, k) !in keys - {Target(w)}
      ensures SameAt(StoreOf(ApplyWrite(a, w), kind), StoreOf(ApplyWrite(b, w), kind), k)
    {
      if (kind, k) != Target(w) {
        assert SameAt(StoreOf(a, kind), StoreOf(b, kind), k);
        ApplyWriteElsewhere(a, w, kind, k);
        ApplyWriteElsewhere(b, w, kind, k);
      }
    }
  }

  lemma TargetsCons(ws: seq<Write>)
    requires ws != []
    ensures Targets(ws) == {Target(ws[0])} + Targets(ws[1..])
  {
    forall t | t in Targets(ws) ensures t in {Target(ws[0])} + Targets(ws[1..]) {
      var i :| 0 <= i < |ws| && Target(ws[i]) == t;
      if i > 0 { assert Target(ws[1..][i - 1]) == t; }
    }
  }

  /** Performing `a` and then `b` is performing `a + b`. */
  lemma {:induction false} ApplyWritesConcat(st: Snapshot, a: seq<Write>, b: seq<Write>)
    ensures ApplyWrites(st, a + b) == ApplyWrites(ApplyWrites(st, a), b)
    decreases |a|
  {
    if a == [] {
      assert a + b == b;
    } else {
      assert (a + b)[0] == a[0];
      assert (a + b)[1..] == a[1..] + b;
      ApplyWritesConcat(ApplyWrite(st, a[0]), a[1..], b);
    }
  }

  /** A write sequence changes nothing outside the store keys it targets. */
  lemma {:induction false} ApplyWritesFrame(st: Snapshot, ws: seq<Write>)
    ensures AgreeOutside(ApplyWrites(st, ws), st, Targets(ws))
    decreases |ws|
  {
    if ws != [] {
      var mid := ApplyWrite(st, ws[0]);
      ApplyWritesFrame(mid, ws[1..]);
      ApplyWriteFrame(st, ws[0]);
      AgreeTrans(ApplyWrites(st, ws), mid, st, Targets(ws[1..]), {Target(ws[0])});
      TargetsCons(ws);
    }
  }

  /** The outcome of a write sequence depends only on the state at the
      keys it does not target. */
  lemma {:induction false} ApplyWritesDeterminedOutside(a: Snapshot, b: Snapshot, ws: seq<Write>)
    requires AgreeOutside(a, b, Targets(ws))
    ensures ApplyWrites(a, ws) == ApplyWrites(b, ws)
    decreases |ws|
  {
    if ws == [] {
      SnapshotExtensional(a, b);
    } else {
      TargetsCons(ws);
      ApplyWriteAgree(a, b, ws[0], Targets(ws));
      AgreeWiden(ApplyWrite(a, ws[0]), ApplyWrite(b, ws[0]), Targets(ws) - {Target(ws[0])}, Targets(ws[1..]));
      ApplyWritesDeterminedOutside(ApplyWrite(a, ws[0]), ApplyWrite(b, ws[0]), ws[1..]);
    }
  }

  lemma SnapshotExtensional(a: Snapshot, b: Snapshot)
    requires AgreeOutside(a, b, {})
    ensures a == b
  {
    forall kind: StoreKind ensures StoreOf(a, kind) == StoreOf(b, kind) {
      var ma, mb := StoreOf(a, kind), StoreOf(b, kind);
      assert forall k :: k in ma <==> k in mb by {
        forall k ensures k in ma <==> k in mb { assert SameAt(ma, mb, k); }
      }
      assert forall k | k in ma :: ma[k] == mb[k] by {
        forall k | k in ma ensures ma[k] == mb[k] { assert SameAt(ma, mb, k); }
      }
    }
    assert StoreOf(a, GlobalStore) == StoreOf(b, GlobalStore);
    assert StoreOf(a, WorkspaceStore) == StoreOf(b, WorkspaceStore);
    assert StoreOf(a, SecretStore) == StoreOf(b, SecretStore);
  }

  /** Performing the same state-independent write sequence twice leaves
      the stores as performing it once. */
  lemma {:induction false} ApplyWritesIdempotent(st: Snapshot, ws: seq<Write>)
    ensures ApplyWrites(ApplyWrites(st, ws), ws) == ApplyWrites(st, ws)
  {
    ApplyWritesFrame(st, ws);
    ApplyWritesDeterminedOutside(ApplyWrites(st, ws), st, ws);
  }

  /** Performing a sequence and then one more write. */
  lemma ApplyWritesSnoc(st: Snapshot, ws: seq<Write>, w: Write)
    ensures ApplyWrites(st, ws + [w]) == ApplyWrite(ApplyWrites(st, ws), w)
  {
    ApplyWritesConcat(st, ws, [w]);
    assert [w][1..] == [];
  }

  /** The store holds what `w` wrote. */
  predicate Reflects(st: Snapshot, w: Write) {
    match w
    case SetGlobal(k, v) => k in st.global && st.global[k] == v
    case SetWorkspace(k, v) => k in st.workspace && st.workspace[k] == v
    case StoreSecret(k, v) => k in st.secrets && st.secrets[k] == v
    case DeleteSecret(k) => k !in st.secrets
  }

  /** The last write to a store key decides what that key holds. */
  lemma LastWriteWins(st: Snapshot, a: seq<Write>, w: Write, b: seq<Write>)
    requires Target(w) !in Targets(b)
    ensures Reflects(ApplyWrites(st, a + [w] + b), w)
  {
    ApplyWritesConcat(st, a + [w], b);
    ApplyWritesSnoc(st, a, w);
    var mid := ApplyWrites(st, a + [w]);
    ApplyWritesFrame(mid, b);
    assert SameAt(StoreOf(ApplyWrites(mid, b), Target(w).0), StoreOf(mid, Target(w).0), Target(w).1);
  }

  // ---------------------------------------------------------------------
  // Key lists

  /** `keys.includes(key)`, searched from index `i` on. Recursion keeps
      the literal key lists folded until a proof asks about one key. */
  predicate Listed(keys: seq<string>, key: string, i: nat)
    decreases |keys| - i
  {
    i < |keys| && (keys[i] == key || Listed(keys, key, i + 1))
  }

  /** The search finds `key` exactly when it occurs at index `i` or
      later. */
  lemma {:induction false} ListedIff(keys: seq<string>, key: string, i: nat)
    ensures Listed(keys, key, i) <==> exists j | i <= j < |keys| :: keys[j] == key
    decreases |keys| - i
  {
    if i < |keys| {
      ListedIff(keys, key, i + 1);
      if Listed(keys, key, i + 1) {
        var j :| i + 1 <= j < |keys| && keys[j] == key;
        assert i <= j;
      }
    }
  }

  /** A key that no index from `i` on holds is not found. */
  lemma {:induction false} NotListed(keys: seq<string>, key: string, i: nat)
    requires forall j | i <= j < |keys| :: keys[j] != key
    ensures !Listed(keys, key, i)
    decreases |keys| - i
  {
    if i < |keys| { NotListed(keys, key, i + 1); }
  }

  /** `includes` from the start is sequence membership. */
  lemma IncludesIsMembership(keys: seq<string>, key: string)
    ensures Listed(keys, key, 0) <==> key in keys
  {
    ListedIff(keys, key, 0);
  }

  /** `storeSecret(context, key, value)` and the secret branch of the
      startup pass: a truthy value is stored, any other value deletes the
      key. */
  function StoreSecretWrite(key: string, value: Value): (w: Write)
    ensures Target(w) == (SecretStore, key)
    ensures w.StoreSecret? <==> Truthy(value)
    ensures Truthy(value) ==> w == StoreSecret(key, value)
    ensures !Truthy(value) ==> w == DeleteSecret(key)
  {
    if Truthy(value) then StoreSecret(key, value) else DeleteSecret(key)
  }

  /** After `storeSecret` the secret reads back as the value when it is
      truthy and as `undefined` otherwise; every other secret and both
      state stores are unchanged. */
  lemma StoreSecretReadsBack(st: Snapshot, key: string, value: Value)
    ensures var r := ApplyWrite(st, StoreSecretWrite(key, value));
      Get(r.secrets, key) == (if Truthy(value) then value else Undefined)
    ensures var r := ApplyWrite(st, StoreSecretWrite(key, value));
      r.global == st.global && r.workspace == st.workspace &&
      forall k | k != key :: Get(r.secrets, k) == Get(st.secrets, k)
  {
  }

  /** The extension context's three stores, updated in place. */
  class ExtensionContext {
    var globalState: map<string, Value>
    var workspaceState: map<string, Value>
    var secrets: map<string, Value>

    constructor ()
      ensures globalState == map[] && workspaceState == map[] && secrets == map[]
    {
      globalState, workspaceState, secrets := map[], map[], map[];
    }

    function Contents(): Snapshot
      reads this
    {
      Snapshot(globalState, workspaceState, secrets)
    }

    /** `globalState.update(key, value)` */
    method UpdateGlobal(key: string, value: Value)
      modifies this
      ensures Contents() == ApplyWrite(old(Contents()), SetGlobal(key, value))
      ensures Get(globalState, key) == value
    {
      globalState := globalState[key := value];
    }

    /** `workspaceState.update(key, value)` */
    method UpdateWorkspace(key: string, value: Value)
      modifies this
      ensures Contents() == ApplyWrite(old(Contents()), SetWorkspace(key, value))
      ensures Get(workspaceState, key) == value
    {
      workspaceState := workspaceState[key := value];
    }

    /** `secrets.store(key, value)` */
    method Store(key: string, value: Value)
      modifies this
      ensures Contents() == ApplyWrite(old(Contents()), StoreSecret(key, value))
      ensures Get(secrets, key) == value
    {
      secrets := secrets[key := value];
    }

    /** `secrets.delete(key)` */
    method Delete(key: string)
      modifies this
      ensures Contents() == ApplyWrite(old(Contents()), DeleteSecret(key))
      ensures key !in secrets
    {
      secrets := secrets - {key};
    }
  }

  /** The `cline` configuration section: the two override documents.
      `Undefined` stands for a setting that is not present. */
  class Configuration {
    var overwriteState: Value
    var overwriteSecrets: Value

    constructor (state: Value, secretsDoc: Value)
      ensures overwriteState == state && overwriteSecrets == secretsDoc
    {
      overwriteState, overwriteSecrets := state, secretsDoc;
    }
  }
}
