/** The value operations of the general override variant: the recursive
    merge of an override document into a state value, the set of dotted
    paths a document supplies, and the dotted-path read and write used
    when a state change is mirrored back into the document. */
module OverwriteTree {
  import opened JsValue

  // ---------------------------------------------------------------------
  // deepMerge

  /** `deepMerge(target, source)`: a null or undefined source leaves the
      target; a scalar or array source replaces it wholesale; a plain
      object source is merged key by key into a fresh copy of the target
      (a target that is not a plain object counts as `{}`). */
  function DeepMerge(target: Value, source: Value): (r: Value)
    ensures source.Null? || source.Undefined? ==> r == target
    ensures !source.Null? && !source.Undefined? && !source.Obj? ==> r == source
    ensures source.Obj? ==> r.Obj?
    decreases source, 1
  {
    if source.Null? || source.Undefined? then target
    else if !source.Obj? then source
    else Obj(MergeEntries(if target.Obj? then target.entries else [], source.entries))
  }

  /** The loop of `deepMerge` over the source's own keys, first to last,
      starting from the copy `base` of the target. */
  function MergeEntries(base: Entries, src: Entries): (r: Entries)
    decreases src, 0
  {
    if src == [] then base
    else
      var e := src[|src| - 1];
      assert e in src && e.1 < e;
      var acc := MergeEntries(base, src[..|src| - 1]);
      Put(acc, e.0, MergeValue(Find(acc, e.0), e.1))
  }

  /** The value one key of the source leaves in the result: a plain
      object is merged into what was there, anything else replaces it. */
  function MergeValue(current: Value, sv: Value): (r: Value)
    decreases sv, 2
  {
    if sv.Obj? then DeepMerge(current, sv) else sv
  }

  /** Merging a plain object: a key of the target that the source lacks
      keeps its value, a key of the source whose value is not a plain
      object gets that value verbatim, and a key whose source value is a
      plain object gets the recursive merge; no other key appears. */
  lemma {:induction false} MergeEntriesLaws(base: Entries, src: Entries)
    requires DistinctKeys(src)
    ensures forall k :: HasKey(MergeEntries(base, src), k) <==> HasKey(base, k) || HasKey(src, k)
    ensures forall k :: (Find(MergeEntries(base, src), k) ==
      if HasKey(src, k) then MergeValue(Find(base, k), Find(src, k)) else Find(base, k))
    decreases |src|
  {
    if src != [] {
      var pre, e := src[..|src| - 1], src[|src| - 1];
      assert src == pre + [e];
      MergeEntriesLaws(base, pre);
      HasKeySnoc(pre, e);
      forall k ensures Find(src, k) == if HasKey(pre, k) then Find(pre, k) else if e.0 == k then e.1 else Undefined {
        FindSnoc(pre, e, k);
      }
    }
  }

  /** The same laws stated on `DeepMerge` itself (test "deepMerge should
      merge objects recursively"). */
  lemma DeepMergeObjectLaws(target: Value, source: Value, k: string)
    requires source.Obj? && DistinctKeys(source.entries)
    ensures DeepMerge(target, source).Obj?
    ensures HasKey(DeepMerge(target, source).entries, k) <==>
      (target.Obj? && HasKey(target.entries, k)) || HasKey(source.entries, k)
    ensures !HasKey(source.entries, k) ==>
      Find(DeepMerge(target, source).entries, k) == Prop(target, k)
    ensures HasKey(source.entries, k) && !Find(source.entries, k).Obj? ==>
      Find(DeepMerge(target, source).entries, k) == Find(source.entries, k)
    ensures HasKey(source.entries, k) && Find(source.entries, k).Obj? ==>
      Find(DeepMerge(target, source).entries, k) == DeepMerge(Prop(target, k), Find(source.entries, k))
  {
    MergeEntriesLaws(if target.Obj? then target.entries else [], source.entries);
  }

  /** Merging the same override twice gives what merging it once gives. */
  lemma {:induction false} DeepMergeIdempotent(target: Value, source: Value)
    requires WellFormed(source)
    ensures DeepMerge(DeepMerge(target, source), source) == DeepMerge(target, source)
    decreases source
  {
    if source.Obj? {
      var es := source.entries;
      var base := if target.Obj? then target.entries else [];
      var m := MergeEntries(base, es);
      WellFormedDistinct(es);
      MergeEntriesLaws(base, es);
      forall k | HasKey(es, k)
        ensures HasKey(m, k) && MergeValue(Find(m, k), Find(es, k)) == Find(m, k)
      {
        var sv := Find(es, k);
        var i :| 0 <= i < |es| && es[i] == (k, sv);
        assert es[i] in es && sv < es[i];
        if sv.Obj? {
          WellFormedFind(es, k);
          DeepMergeIdempotent(Find(base, k), sv);
        }
      }
      MergeAbsorbs(m, es);
    }
  }

  /** Re-running the key loop over an object that already holds, at
      every key of `src`, a value the loop would leave in place changes
      nothing. */
  lemma {:induction false} MergeAbsorbs(x: Entries, src: Entries)
    requires DistinctKeys(src)
    requires forall k | HasKey(src, k) :: HasKey(x, k) && MergeValue(Find(x, k), Find(src, k)) == Find(x, k)
    ensures MergeEntries(x, src) == x
    decreases |src|
  {
    if src != [] {
      var pre, e := src[..|src| - 1], src[|src| - 1];
      assert src == pre + [e];
      HasKeySnoc(pre, e);
      forall k | HasKey(pre, k)
        ensures HasKey(x, k) && MergeValue(Find(x, k), Find(pre, k)) == Find(x, k)
      {
        FindSnoc(pre, e, k);
      }
      MergeAbsorbs(x, pre);
      FindSnoc(pre, e, e.0);
      PutFind(x, e.0);
    }
  }

  /** Merging an object entry by entry, each entry as a one-key object,
      is merging the whole object at once. */
  lemma DeepMergeSnoc(x: Value, es: Entries, e: (string, Value))
    ensures DeepMerge(DeepMerge(x, Obj(es)), Obj([e])) == DeepMerge(x, Obj(es + [e]))
  {
    var base := if x.Obj? then x.entries else [];
    assert (es + [e])[..|es|] == es;
    assert [e][..0] == [];
    calc {
      DeepMerge(DeepMerge(x, Obj(es)), Obj([e]));
      Obj(MergeEntries(MergeEntries(base, es), [e]));
      Obj(Put(MergeEntries(base, es), e.0, MergeValue(Find(MergeEntries(base, es), e.0), e.1)));
      Obj(MergeEntries(base, es + [e]));
    }
  }

  // ---------------------------------------------------------------------
  // flattenObjectPaths

  /** `prefix ? `${prefix}.${key}` : key` */
  function JoinPath(prefix: string, key: string): string
  {
    if prefix == "" then key else prefix + "." + key
  }

  /** The paths `flattenObjectPaths` adds for the entries `es` under
      `prefix`: each key's path, and the paths below every plain-object
      value. */
  function FlattenEntries(es: Entries, prefix: string): set<string>
    decreases es
  {
    if es == [] then {}
    else
      var e := es[|es| - 1];
      assert e in es && e.1 < e;
      var path := JoinPath(prefix, e.0);
      FlattenEntries(es[..|es| - 1], prefix) + {path}
        + (if e.1.Obj? then FlattenEntries(e.1.entries, path) else {})
  }

  /** The tracked-path set of a document. */
  function FlattenPaths(doc: Value): set<string>
  {
    FlattenEntries(OwnEntries(doc), "")
  }

  lemma OwnEntryBelow(v: Value, i: nat)
    requires i < |OwnEntries(v)|
    ensures OwnEntries(v)[i].1.Obj? ==> OwnEntries(v)[i].1 < v
  {
    match v
    case Obj(es) =>
      assert es[i] in es && es[i].1 < es[i];
    case Arr(items) =>
      assert OwnEntries(v)[i].1 == items[i];
    case Str(s) =>
    case _ =>
  }

  lemma FlattenEntriesStep(es: Entries, i: nat, prefix: string)
    requires i < |es|
    ensures FlattenEntries(es[..i + 1], prefix) ==
      FlattenEntries(es[..i], prefix) + {JoinPath(prefix, es[i].0)}
        + (if es[i].1.Obj? then FlattenEntries(es[i].1.entries, JoinPath(prefix, es[i].0)) else {})
  {
    assert es[..i + 1][..i] == es[..i];
  }

  /** `flattenObjectPaths(obj, prefix, paths)`: adds to `paths` the path
      of every own key of `obj` and, recursively, of every key below a
      plain-object value. */
  method FlattenObjectPaths(obj: Value, prefix: string, paths: set<string>) returns (result: set<string>)
    ensures result == paths + FlattenEntries(OwnEntries(obj), prefix)
    decreases obj
  {
    var es := OwnEntries(obj);
    result := paths;
    var i := 0;
    while i < |es|
      invariant 0 <= i <= |es|
      invariant result == paths + FlattenEntries(es[..i], prefix)
    {
      var key, value := es[i].0, es[i].1;
      var fullPath := JoinPath(prefix, key);
      FlattenEntriesStep(es, i, prefix);
      result := result + {fullPath};
      if value.Obj? {
        OwnEntryBelow(obj, i);
        result := FlattenObjectPaths(value, fullPath, result);
      }
      i := i + 1;
    }
    assert es[..i] == es;
  }

  /** `ks` is a chain of keys, each an own key of the object reached by
      the keys before it, all intermediate values plain objects. */
  ghost predicate IsKeyChain(es: Entries, ks: seq<string>)
    decreases |ks|
  {
    |ks| >= 1 &&
    exists i | 0 <= i < |es| ::
      es[i].0 == ks[0] && (|ks| == 1 || (es[i].1.Obj? && IsKeyChain(es[i].1.entries, ks[1..])))
  }

  /** The path `flattenObjectPaths` writes for a key chain. */
  function PathOf(prefix: string, ks: seq<string>): string
    decreases |ks|
  {
    if ks == [] then prefix else PathOf(JoinPath(prefix, ks[0]), ks[1..])
  }

  lemma KeyChainPrefix(pre: Entries, es: Entries, ks: seq<string>)
    requires IsKeyChain(pre, ks) && pre <= es
    ensures IsKeyChain(es, ks)
  {
    var i :| 0 <= i < |pre| &&
      pre[i].0 == ks[0] && (|ks| == 1 || (pre[i].1.Obj? && IsKeyChain(pre[i].1.entries, ks[1..])));
    assert es[i] == pre[i];
  }

  /** Every flattened path is the path of a key chain. */
  lemma {:induction false} FlattenedPathIsKeyChain(es: Entries, prefix: string, p: string)
    requires p in FlattenEntries(es, prefix)
    ensures exists ks :: IsKeyChain(es, ks) && PathOf(prefix, ks) == p
    decreases es
  {
    var pre, e := es[..|es| - 1], es[|es| - 1];
    assert e in es && e.1 < e;
    assert es == pre + [e];
    var path := JoinPath(prefix, e.0);
    if p in FlattenEntries(pre, prefix) {
      FlattenedPathIsKeyChain(pre, prefix, p);
      var ks :| IsKeyChain(pre, ks) && PathOf(prefix, ks) == p;
      KeyChainPrefix(pre, es, ks);
    } else if p == path {
      assert es[|es| - 1].0 == [e.0][0];
      assert IsKeyChain(es, [e.0]) && PathOf(prefix, [e.0]) == p;
    } else {
      FlattenedPathIsKeyChain(e.1.entries, path, p);
      var ks' :| IsKeyChain(e.1.entries, ks') && PathOf(path, ks') == p;
      var ks := [e.0] + ks';
      assert ks[1..] == ks';
      assert es[|es| - 1].0 == ks[0];
      assert IsKeyChain(es, ks) && PathOf(prefix, ks) == p;
    }
  }

  lemma FlattenGrows(pre: Entries, e: (string, Value), prefix: string)
    ensures FlattenEntries(pre, prefix) <= FlattenEntries(pre + [e], prefix)
  {
    assert (pre + [e])[..|pre|] == pre;
  }

  /** The path of every key chain is flattened. */
  lemma {:induction false} KeyChainIsFlattened(es: Entries, prefix: string, ks: seq<string>)
    requires IsKeyChain(es, ks)
    ensures PathOf(prefix, ks) in FlattenEntries(es, prefix)
    decreases es
  {
    var pre, e := es[..|es| - 1], es[|es| - 1];
    assert e in es && e.1 < e;
    assert es == pre + [e];
    var path := JoinPath(prefix, e.0);
    var i :| 0 <= i < |es| &&
      es[i].0 == ks[0] && (|ks| == 1 || (es[i].1.Obj? && IsKeyChain(es[i].1.entries, ks[1..])));
    if i < |pre| {
      assert pre[i] == es[i];
      assert IsKeyChain(pre, ks);
      KeyChainIsFlattened(pre, prefix, ks);
      FlattenGrows(pre, e, prefix);
    } else if |ks| == 1 {
      assert PathOf(prefix, ks) == PathOf(path, ks[1..]) == path;
    } else {
      KeyChainIsFlattened(e.1.entries, path, ks[1..]);
    }
  }

  /** The flattened paths are exactly the paths of the key chains. */
  lemma FlattenIsKeyChains(es: Entries, prefix: string, p: string)
    ensures p in FlattenEntries(es, prefix) <==> exists ks :: IsKeyChain(es, ks) && PathOf(prefix, ks) == p
  {
    if p in FlattenEntries(es, prefix) {
      FlattenedPathIsKeyChain(es, prefix, p);
    }
    if exists ks :: IsKeyChain(es, ks) && PathOf(prefix, ks) == p {
      var ks :| IsKeyChain(es, ks) && PathOf(prefix, ks) == p;
      KeyChainIsFlattened(es, prefix, ks);
    }
  }

  /** `flattenObjectPaths(doc)` yields exactly the dotted paths of every
      own key at every depth reachable through plain objects. */
  lemma FlattenPathsExact(doc: Value, p: string)
    ensures p in FlattenPaths(doc) <==> exists ks :: IsKeyChain(OwnEntries(doc), ks) && PathOf("", ks) == p
  {
    FlattenIsKeyChains(OwnEntries(doc), "", p);
  }

  // ---------------------------------------------------------------------
  // Dotted paths

  /** `path.split(".")` */
  function Split(s: string): (r: seq<string>)
    ensures |r| >= 1
  {
    if s == [] then [""]
    else
      var rest := Split(s[1..]);
      if s[0] == '.' then [""] + rest else [[s[0]] + rest[0]] + rest[1..]
  }

  /** `keys.join(".")` */
  function Join(ks: seq<string>): string
    requires |ks| >= 1
  {
    if |ks| == 1 then ks[0] else ks[0] + "." + Join(ks[1..])
  }

  predicate IsPlainKey(k: string) {
    k != "" && '.' !in k
  }

  lemma {:induction false} SplitAfterKey(a: string, b: string)
    requires '.' !in a
    ensures Split(a + "." + b) == [a] + Split(b)
    decreases |a|
  {
    var s := a + "." + b;
    if a == [] {
      assert s == ['.'] + b;
      assert s[0] == '.' && s[1..] == b;
      assert Split(s) == [""] + Split(s[1..]);
    } else {
      assert s[1..] == a[1..] + "." + b;
      assert s[0] == a[0] && s[0] != '.';
      SplitAfterKey(a[1..], b);
      var rest := Split(s[1..]);
      assert rest == [a[1..]] + Split(b);
      assert rest[0] == a[1..] && rest[1..] == Split(b);
      assert [a[0]] + a[1..] == a;
      assert Split(s) == [[s[0]] + rest[0]] + rest[1..];
    }
  }

  lemma {:induction false} SplitNoDot(a: string)
    requires '.' !in a
    ensures Split(a) == [a]
    decreases |a|
  {
    if a != [] {
      SplitNoDot(a[1..]);
      assert [a[0]] + a[1..] == a;
    }
  }

  /** Splitting a joined list of dot-free keys gives the keys back. */
  lemma {:induction false} SplitJoin(ks: seq<string>)
    requires |ks| >= 1 && forall i | 0 <= i < |ks| :: '.' !in ks[i]
    ensures Split(Join(ks)) == ks
    decreases |ks|
  {
    if |ks| == 1 {
      SplitNoDot(ks[0]);
    } else {
      SplitJoin(ks[1..]);
      SplitAfterKey(ks[0], Join(ks[1..]));
      assert ks == [ks[0]] + ks[1..];
    }
  }

  lemma {:induction false} PathOfJoin(prefix: string, ks: seq<string>)
    requires |ks| >= 1 && prefix != "" && forall i | 0 <= i < |ks| :: ks[i] != ""
    ensures PathOf(prefix, ks) == prefix + "." + Join(ks)
    decreases |ks|
  {
    if |ks| > 1 {
      PathOfJoin(prefix + "." + ks[0], ks[1..]);
    }
  }

  /** A tracked path of plain keys splits back into its key chain, so a
      write-back to a tracked path lands on the key it came from. */
  lemma TrackedPathSplits(ks: seq<string>)
    requires |ks| >= 1 && forall i | 0 <= i < |ks| :: IsPlainKey(ks[i])
    ensures Split(PathOf("", ks)) == ks
  {
    if |ks| == 1 {
      SplitNoDot(ks[0]);
    } else {
      PathOfJoin(ks[0], ks[1..]);
      assert ks[0] + "." + Join(ks[1..]) == Join(ks);
      SplitJoin(ks);
    }
  }

  // ---------------------------------------------------------------------
  // getNestedValue / setNestedValue

  /** Reads along a key list, `undefined` once a step misses. */
  function GetKeys(v: Value, ks: seq<string>): Value
    decreases |ks|
  {
    if ks == [] then v else GetKeys(Prop(v, ks[0]), ks[1..])
  }

  /** `getNestedValue(obj, path)` */
  function GetNested(obj: Value, path: string): Value
  {
    GetKeys(obj, Split(path))
  }

  /** `setNestedValue` on an object with entries `es`: every intermediate
      key whose value is not a plain object gets `{}`, then the last key
      gets `v`. */
  function SetKeys(es: Entries, ks: seq<string>, v: Value): (r: Entries)
    requires |ks| >= 1
    decreases |ks|
  {
    if |ks| == 1 then Put(es, ks[0], v)
    else
      var child := Find(es, ks[0]);
      Put(es, ks[0], Obj(SetKeys(if child.Obj? then child.entries else [], ks[1..], v)))
  }

  /** `setNestedValue(obj, path, value)` on the object whose entries are
      `root`; the result is the object's new entries. */
  function SetNested(root: Entries, path: string, value: Value): Entries
  {
    SetKeys(root, Split(path), value)
  }

  lemma {:induction false} GetKeysUndefined(ks: seq<string>)
    ensures GetKeys(Undefined, ks) == Undefined
    decreases |ks|
  {
    if ks != [] { GetKeysUndefined(ks[1..]); }
  }

  /** Reading at or below the written path after a write sees the
      written value. */
  lemma {:induction false} GetBelowSet(es: Entries, ks: seq<string>, v: Value, rest: seq<string>)
    requires |ks| >= 1
    ensures GetKeys(Obj(SetKeys(es, ks, v)), ks + rest) == GetKeys(v, rest)
    decreases |ks|
  {
    assert (ks + rest)[0] == ks[0] && (ks + rest)[1..] == ks[1..] + rest;
    if |ks| == 1 {
      assert ks[1..] + rest == rest;
    } else {
      var child := Find(es, ks[0]);
      GetBelowSet(if child.Obj? then child.entries else [], ks[1..], v, rest);
    }
  }

  /** Get-after-set: `getNestedValue(setNestedValue(o, p, v), p) == v`. */
  lemma GetAfterSet(root: Entries, path: string, v: Value)
    ensures GetNested(Obj(SetNested(root, path, v)), path) == v
  {
    GetBelowSet(root, Split(path), v, []);
    assert Split(path) + [] == Split(path);
  }

  /** Two key lists that part ways before either ends. */
  predicate Diverge(ks: seq<string>, qs: seq<string>) {
    exists i | 0 <= i < |ks| && i < |qs| :: ks[..i] == qs[..i] && ks[i] != qs[i]
  }

  /** A write leaves the value at every path not on its own path. */
  lemma {:induction false} GetAwayFromSet(es: Entries, ks: seq<string>, v: Value, qs: seq<string>)
    requires |ks| >= 1 && Diverge(ks, qs)
    ensures GetKeys(Obj(SetKeys(es, ks, v)), qs) == GetKeys(Obj(es), qs)
    decreases |ks|
  {
    var i :| 0 <= i < |ks| && i < |qs| && ks[..i] == qs[..i] && ks[i] != qs[i];
    if i > 0 {
      assert ks[0] == ks[..i][0] == qs[..i][0] == qs[0];
      var child := Find(es, ks[0]);
      var base := if child.Obj? then child.entries else [];
      assert ks[1..][..i - 1] == ks[..i][1..] && qs[1..][..i - 1] == qs[..i][1..];
      assert Diverge(ks[1..], qs[1..]);
      GetAwayFromSet(base, ks[1..], v, qs[1..]);
      if !child.Obj? {
        GetKeysUndefined(qs[2..]);
        GetKeysUndefined(qs[1..]);
      }
    }
  }

  /** A write adds at most the first key of its path to the top level. */
  lemma SetKeysTopLevel(es: Entries, ks: seq<string>, v: Value, k: string)
    requires |ks| >= 1
    ensures HasKey(SetKeys(es, ks, v), k) <==> HasKey(es, k) || k == ks[0]
  {
  }
}
