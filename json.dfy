/** JavaScript values as they appear in the override documents and the
    extension's key/value stores: JSON data plus `undefined`.

    A plain object is an ordered list of (key, value) entries, because
    JavaScript enumerates an object's own keys in insertion order and the
    startup loops write the stores in that order. Assigning to an existing
    key keeps its position; assigning to a new key appends it. */
module JsValue {

  datatype Value =
    | Undefined
    | Null
    | Bool(b: bool)
    | Num(n: int)
    | Str(s: string)
    | Arr(items: seq<Value>)
    | Obj(entries: seq<(string, Value)>)

  type Entries = seq<(string, Value)>

  datatype Option<T> = None | Some(value: T)

  /** `typeof v === "object"` (true of null and of arrays as well) */
  predicate IsTypeofObject(v: Value) {
    v.Null? || v.Arr? || v.Obj?
  }

  /** The guard `v && typeof v === "object"` that every reader of a
      settings document applies before using it. */
  predicate IsObjectDocument(v: Value) {
    v.Arr? || v.Obj?
  }

  /** JavaScript truthiness. */
  predicate Truthy(v: Value) {
    match v
    case Undefined => false
    case Null => false
    case Bool(b) => b
    case Num(n) => n != 0
    case Str(s) => s != ""
    case Arr(_) => true
    case Obj(_) => true
  }

  /** `v || {}` */
  function OrEmpty(v: Value): (r: Value)
    ensures Truthy(v) ==> r == v
    ensures !Truthy(v) ==> r == Obj([])
  {
    if Truthy(v) then v else Obj([])
  }

  // ---------------------------------------------------------------------
  // Entry lists

  predicate HasKey(es: Entries, k: string) {
    exists i | 0 <= i < |es| :: es[i].0 == k
  }

  /** The value stored under `k` (its first occurrence), or `undefined`. */
  function Find(es: Entries, k: string): (r: Value)
    ensures !HasKey(es, k) ==> r == Undefined
    ensures HasKey(es, k) ==> exists i | 0 <= i < |es| :: es[i] == (k, r)
  {
    if es == [] then Undefined
    else if es[0].0 == k then es[0].1
    else
      var r := Find(es[1..], k);
      assert HasKey(es[1..], k) ==> exists i | 0 <= i < |es[1..]| :: es[1..][i] == (k, r);
      r
  }

  /** `o[k] = v` on an object with entries `es`: replaces the value in
      place when `k` is present and appends `(k, v)` otherwise. */
  function Put(es: Entries, k: string, v: Value): (r: Entries)
    ensures HasKey(es, k) ==> |r| == |es|
    ensures !HasKey(es, k) ==> r == es + [(k, v)]
    ensures Find(r, k) == v
    ensures forall k' | k' != k :: Find(r, k') == Find(es, k')
    ensures forall k' :: HasKey(r, k') <==> k' == k || HasKey(es, k')
  {
    if es == [] then [(k, v)]
    else if es[0].0 == k then
      var r := [(k, v)] + es[1..];
      HasKeyCons(es[0], es[1..]);
      HasKeyCons((k, v), es[1..]);
      assert es == [es[0]] + es[1..];
      r
    else
      var rest := Put(es[1..], k, v);
      var r := [es[0]] + rest;
      HasKeyCons(es[0], rest);
      HasKeyCons(es[0], es[1..]);
      assert es == [es[0]] + es[1..];
      r
  }

  lemma HasKeyCons(e: (string, Value), rest: Entries)
    ensures forall k :: HasKey([e] + rest, k) <==> e.0 == k || HasKey(rest, k)
  {
    forall k ensures HasKey([e] + rest, k) <==> e.0 == k || HasKey(rest, k) {
      if HasKey([e] + rest, k) && e.0 != k {
        var i :| 0 <= i < |[e] + rest| && ([e] + rest)[i].0 == k;
        assert rest[i - 1].0 == k;
      }
      if HasKey(rest, k) {
        var i :| 0 <= i < |rest| && rest[i].0 == k;
        assert ([e] + rest)[i + 1].0 == k;
      }
      if e.0 == k {
        assert ([e] + rest)[0].0 == k;
      }
    }
  }

  /** No key occurs twice: every JavaScript object has this shape. */
  predicate DistinctKeys(es: Entries) {
    es == [] || (DistinctKeys(es[..|es| - 1]) && !HasKey(es[..|es| - 1], es[|es| - 1].0))
  }

  lemma HasKeySnoc(es: Entries, e: (string, Value))
    ensures forall k :: HasKey(es + [e], k) <==> HasKey(es, k) || e.0 == k
  {
    forall k ensures HasKey(es + [e], k) <==> HasKey(es, k) || e.0 == k {
      if HasKey(es, k) {
        var i :| 0 <= i < |es| && es[i].0 == k;
        assert (es + [e])[i].0 == k;
      }
      if e.0 == k {
        assert (es + [e])[|es|].0 == k;
      }
    }
  }

  lemma {:induction false} FindSnoc(es: Entries, e: (string, Value), k: string)
    ensures Find(es + [e], k) == if HasKey(es, k) then Find(es, k) else if e.0 == k then e.1 else Undefined
    decreases |es|
  {
    HasKeySnoc(es, e);
    if es != [] {
      assert (es + [e])[0] == es[0];
      if es[0].0 != k {
        assert (es + [e])[1..] == es[1..] + [e];
        FindSnoc(es[1..], e, k);
        HasKeyCons(es[0], es[1..]);
        assert es == [es[0]] + es[1..];
      } else {
        assert es[0].0 == k;
      }
    }
  }

  /** Assigning a key its own current value changes nothing. */
  lemma {:induction false} PutFind(es: Entries, k: string)
    requires HasKey(es, k)
    ensures Put(es, k, Find(es, k)) == es
    decreases |es|
  {
    if es[0].0 != k {
      HasKeyCons(es[0], es[1..]);
      assert es == [es[0]] + es[1..];
      PutFind(es[1..], k);
    }
  }

  /** Assigning the same value twice is assigning it once. */
  lemma PutTwice(es: Entries, k: string, v: Value)
    ensures Put(Put(es, k, v), k, v) == Put(es, k, v)
  {
    PutFind(Put(es, k, v), k);
  }

  lemma {:induction false} WellFormedDistinct(es: Entries)
    requires WellFormedEntries(es)
    ensures DistinctKeys(es)
    decreases |es|
  {
    if es != [] {
      WellFormedDistinct(es[..|es| - 1]);
    }
  }

  /** A value stored in a well-formed object is well-formed. */
  lemma {:induction false} WellFormedFind(es: Entries, k: string)
    requires WellFormedEntries(es)
    ensures WellFormed(Find(es, k))
    decreases |es|
  {
    if es != [] {
      var pre, e := es[..|es| - 1], es[|es| - 1];
      assert es == pre + [e];
      FindSnoc(pre, e, k);
      WellFormedFind(pre, k);
    }
  }

  /** Every object reachable from `v` has distinct keys. */
  predicate WellFormed(v: Value)
    decreases v, 1
  {
    match v
    case Obj(es) => WellFormedEntries(es)
    case Arr(items) => forall i | 0 <= i < |items| :: WellFormed(items[i])
    case _ => true
  }

  predicate WellFormedEntries(es: Entries)
    decreases es, 0
  {
    if es == [] then true
    else
      var e := es[|es| - 1];
      assert e in es && e.1 < e;
      WellFormedEntries(es[..|es| - 1]) && !HasKey(es[..|es| - 1], e.0) && WellFormed(e.1)
  }

  // ---------------------------------------------------------------------
  // Own enumerable properties

  function DigitChar(d: nat): char
    requires d < 10
  {
    "0123456789"[d]
  }

  /** Decimal text of a natural number, as JavaScript prints it. */
  function NatToString(n: nat): (r: string)
    ensures |r| >= 1 && (|r| == 1 <==> n < 10)
  {
    if n < 10 then [DigitChar(n)] else NatToString(n / 10) + [DigitChar(n % 10)]
  }

  function IntToString(n: int): string
  {
    if n < 0 then "-" + NatToString(-n) else NatToString(n)
  }

  /** The own enumerable string-keyed properties of `v`, in enumeration
      order: what `for (k in v)` filtered by `hasOwnProperty`,
      `Object.entries(v)` and the spread `{ ...v }` see. Arrays and
      strings contribute their indices; other primitives contribute
      nothing. */
  function OwnEntries(v: Value): (r: Entries)
    ensures v.Obj? ==> r == v.entries
    ensures !v.Obj? && !v.Arr? && !v.Str? ==> r == []
  {
    match v
    case Obj(es) => es
    case Arr(items) => seq(|items|, i requires 0 <= i < |items| => (NatToString(i), items[i]))
    case Str(s) => seq(|s|, i requires 0 <= i < |s| => (NatToString(i), Str([s[i]])))
    case _ => []
  }

  /** An array or a string owns one entry per index, keyed by the
      index's decimal text: the element, or the one-character string. */
  lemma OwnEntriesIndexed(v: Value)
    ensures v.Arr? ==> (|OwnEntries(v)| == |v.items| &&
      forall i | 0 <= i < |v.items| :: OwnEntries(v)[i] == (NatToString(i), v.items[i]))
    ensures v.Str? ==> (|OwnEntries(v)| == |v.s| &&
      forall i | 0 <= i < |v.s| :: OwnEntries(v)[i] == (NatToString(i), Str([v.s[i]])))
  {
  }

  /** Different indices print as different decimal texts. */
  lemma {:induction false} NatToStringInjective(m: nat, n: nat)
    requires NatToString(m) == NatToString(n)
    ensures m == n
    decreases m
  {
    if m >= 10 && n >= 10 {
      var a, b := NatToString(m), NatToString(n);
      assert a[|a| - 1] == b[|b| - 1];
      assert DigitChar(m % 10) == DigitChar(n % 10);
      assert a[..|a| - 1] == NatToString(m / 10) && b[..|b| - 1] == NatToString(n / 10);
      NatToStringInjective(m / 10, n / 10);
    }
  }

  /** Entries whose keys differ pairwise have distinct keys. */
  lemma {:induction false} PairwiseDistinct(es: Entries)
    requires forall i, j | 0 <= i < j < |es| :: es[i].0 != es[j].0
    ensures DistinctKeys(es)
    decreases |es|
  {
    if es != [] {
      var pre := es[..|es| - 1];
      PairwiseDistinct(pre);
      forall i | 0 <= i < |pre| ensures pre[i].0 != es[|es| - 1].0 {
        assert pre[i] == es[i];
      }
    }
  }

  /** The own properties of a JavaScript value never repeat a key: the
      index keys of an array or a string are pairwise different. */
  lemma OwnEntriesDistinct(v: Value)
    requires v.Obj? ==> DistinctKeys(v.entries)
    ensures DistinctKeys(OwnEntries(v))
  {
    var es := OwnEntries(v);
    if v.Arr? || v.Str? {
      OwnEntriesIndexed(v);
      forall i, j | 0 <= i < j < |es| ensures es[i].0 != es[j].0 {
        if v.Arr? {
          assert es[i].0 == NatToString(i) && es[j].0 == NatToString(j);
        } else {
          assert es[i].0 == NatToString(i) && es[j].0 == NatToString(j);
        }
        if NatToString(i) == NatToString(j) {
          NatToStringInjective(i, j);
          assert false;
        }
      }
      PairwiseDistinct(es);
    }
  }

  /** `{ ...v }` */
  function Spread(v: Value): (r: Value)
    ensures r.Obj? && r.entries == OwnEntries(v)
  {
    Obj(OwnEntries(v))
  }

  /** `Object.prototype.hasOwnProperty.call(v, k)`: arrays and strings
      also own a non-enumerable `length`. */
  predicate HasOwn(v: Value, k: string) {
    HasKey(OwnEntries(v), k) || ((v.Arr? || v.Str?) && k == "length")
  }

  /** The property read `v[k]` for the keys this core reads: a plain
      object's own property; `undefined` on anything else. */
  function Prop(v: Value, k: string): (r: Value)
    ensures !v.Obj? ==> r == Undefined
  {
    if v.Obj? then Find(v.entries, k) else Undefined
  }

  // ---------------------------------------------------------------------
  // Conversions

  /** `String(v)`. */
  function JsString(v: Value): string
    decreases v, 1
  {
    match v
    case Undefined => "undefined"
    case Null => "null"
    case Bool(b) => if b then "true" else "false"
    case Num(n) => IntToString(n)
    case Str(s) => s
    case Arr(items) => JoinItems(items)
    case Obj(_) => "[object Object]"
  }

  /** `Array.prototype.join(",")`, which prints null and undefined items
      as empty strings. */
  function JoinItems(items: seq<Value>): string
    decreases items, 0
  {
    if items == [] then ""
    else
      var last := items[|items| - 1];
      assert last in items;
      var text := if last.Null? || last.Undefined? then "" else JsString(last);
      if |items| == 1 then text else JoinItems(items[..|items| - 1]) + "," + text
  }

  /** The value `JSON.parse(JSON.stringify(v))` yields: members whose
      value is undefined are dropped and undefined array items become
      null. Two documents have the same `JSON.stringify` text exactly when
      their fingerprints are equal (numbers here are integers, whose text
      is canonical). */
  function Fingerprint(v: Value): (r: Value)
    decreases v, 1
  {
    match v
    case Arr(items) => Arr(FingerprintItems(items))
    case Obj(es) => Obj(FingerprintEntries(es))
    case _ => v
  }

  function FingerprintItems(items: seq<Value>): (r: seq<Value>)
    ensures |r| == |items|
    decreases items, 0
  {
    if items == [] then []
    else
      var last := items[|items| - 1];
      assert last in items;
      FingerprintItems(items[..|items| - 1]) + [if last.Undefined? then Null else Fingerprint(last)]
  }

  function FingerprintEntries(es: Entries): (r: Entries)
    decreases es, 0
  {
    if es == [] then []
    else
      var e := es[|es| - 1];
      assert e in es && e.1 < e;
      FingerprintEntries(es[..|es| - 1]) + (if e.1.Undefined? then [] else [(e.0, Fingerprint(e.1))])
  }

  /** JSON data: a value with no `undefined` anywhere inside it. */
  predicate IsJson(v: Value)
    decreases v, 1
  {
    match v
    case Undefined => false
    case Arr(items) => ItemsJson(items)
    case Obj(es) => EntriesJson(es)
    case _ => true
  }

  predicate ItemsJson(items: seq<Value>)
    decreases items, 0
  {
    items == [] ||
      (var last := items[|items| - 1];
       assert last in items;
       ItemsJson(items[..|items| - 1]) && IsJson(last))
  }

  predicate EntriesJson(es: Entries)
    decreases es, 0
  {
    es == [] ||
      (var e := es[|es| - 1];
       assert e in es && e.1 < e;
       EntriesJson(es[..|es| - 1]) && IsJson(e.1))
  }

  /** `JSON.parse(JSON.stringify(v))` is JSON data whenever `v` is not
      `undefined` itself. */
  lemma {:induction false} FingerprintIsJson(v: Value)
    requires !v.Undefined?
    ensures IsJson(Fingerprint(v))
    decreases v, 1
  {
    match v
    case Arr(items) => FingerprintItemsJson(items);
    case Obj(es) => FingerprintEntriesJson(es);
    case _ =>
  }

  lemma {:induction false} FingerprintItemsJson(items: seq<Value>)
    ensures ItemsJson(FingerprintItems(items))
    decreases items, 0
  {
    if items != [] {
      var last := items[|items| - 1];
      assert last in items;
      FingerprintItemsJson(items[..|items| - 1]);
      if !last.Undefined? {
        FingerprintIsJson(last);
      }
      var r := FingerprintItems(items);
      assert r[..|r| - 1] == FingerprintItems(items[..|items| - 1]);
    }
  }

  lemma {:induction false} FingerprintEntriesJson(es: Entries)
    ensures EntriesJson(FingerprintEntries(es))
    decreases es, 0
  {
    if es != [] {
      var e := es[|es| - 1];
      assert e in es && e.1 < e;
      FingerprintEntriesJson(es[..|es| - 1]);
      if !e.1.Undefined? {
        FingerprintIsJson(e.1);
        var r := FingerprintEntries(es);
        assert r[..|r| - 1] == FingerprintEntries(es[..|es| - 1]);
      } else {
        var pre := FingerprintEntries(es[..|es| - 1]);
        assert FingerprintEntries(es) == pre + [] == pre;
      }
    }
  }

  /** JSON data is its own fingerprint: stringifying and parsing it
      gives it back. */
  lemma {:induction false} JsonIsFixed(v: Value)
    requires IsJson(v)
    ensures Fingerprint(v) == v
    decreases v, 1
  {
    match v
    case Arr(items) => JsonItemsFixed(items);
    case Obj(es) => JsonEntriesFixed(es);
    case _ =>
  }

  lemma {:induction false} JsonItemsFixed(items: seq<Value>)
    requires ItemsJson(items)
    ensures FingerprintItems(items) == items
    decreases items, 0
  {
    if items != [] {
      var pre, last := items[..|items| - 1], items[|items| - 1];
      assert last in items;
      assert ItemsJson(pre) && IsJson(last);
      JsonItemsFixed(pre);
      JsonIsFixed(last);
      assert FingerprintItems(items) == FingerprintItems(pre) + [Fingerprint(last)];
      assert items == pre + [last];
    }
  }

  lemma {:induction false} JsonEntriesFixed(es: Entries)
    requires EntriesJson(es)
    ensures FingerprintEntries(es) == es
    decreases es, 0
  {
    if es != [] {
      var pre, e := es[..|es| - 1], es[|es| - 1];
      assert e in es && e.1 < e;
      assert EntriesJson(pre) && IsJson(e.1);
      JsonEntriesFixed(pre);
      JsonIsFixed(e.1);
      assert FingerprintEntries(es) == FingerprintEntries(pre) + [(e.0, Fingerprint(e.1))];
      assert es == pre + [e];
    }
  }

  /** Stringifying the parse of a `JSON.stringify` text reproduces the
      text: the fingerprint of a fingerprint is the fingerprint. */
  lemma FingerprintIdempotent(v: Value)
    ensures Fingerprint(Fingerprint(v)) == Fingerprint(v)
  {
    if !v.Undefined? {
      FingerprintIsJson(v);
      JsonIsFixed(Fingerprint(v));
    }
  }
}
