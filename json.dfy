/**
 * JSON values as the Python side sees them after `json.load` or `ijson`, and the
 * two `ijson` helpers the splitter uses, as pure functions of an immutable
 * document.
 *
 * An object is an insertion-ordered list of key/value pairs, the way a Python
 * `dict` keeps them; `Put` is Python's `d[k] = v`. Two objects that are equal
 * as Python dicts have equal `AsMap` views.
 */
module Json {
  import opened Wrappers
  import opened Strings

  datatype Json =
    | JNull
    | JBool(b: bool)
    | JNumber(n: int)
    | JString(s: string)
    | JArray(items: seq<Json>)
    | JObject(fields: seq<(string, Json)>)

  type Fields = seq<(string, Json)>

  /** The keys of an object, in order. */
  function Keys(fs: Fields): (r: seq<string>)
    ensures |r| == |fs|
  {
    if fs == [] then [] else [fs[0].0] + Keys(fs[1..])
  }

  predicate HasKey(fs: Fields, k: string) {
    k in Keys(fs)
  }

  predicate NoDuplicates(s: seq<string>) {
    forall i, j :: 0 <= i < j < |s| ==> s[i] != s[j]
  }

  /** No key occurs twice: what every Python dict satisfies. */
  predicate UniqueKeys(fs: Fields) {
    NoDuplicates(Keys(fs))
  }

  /** The value stored under `k` (its first occurrence), like `d.get(k)`. */
  function Lookup(fs: Fields, k: string): (r: Option<Json>)
    ensures r.None? <==> !HasKey(fs, k)
  {
    if fs == [] then None
    else if fs[0].0 == k then Some(fs[0].1)
    else Lookup(fs[1..], k)
  }

  /**
   * Python's `d[k] = v`: replaces the value in place when `k` is present,
   * otherwise appends `k` at the end.
   */
  function Put(fs: Fields, k: string, v: Json): (r: Fields)
    ensures Keys(r) == if HasKey(fs, k) then Keys(fs) else Keys(fs) + [k]
    ensures Lookup(r, k) == Some(v)
    ensures forall k' :: k' != k ==> Lookup(r, k') == Lookup(fs, k')
    ensures !HasKey(fs, k) ==> r == fs + [(k, v)]
  {
    if fs == [] then [(k, v)]
    else if fs[0].0 == k then [(k, v)] + fs[1..]
    else
      var rest := Put(fs[1..], k, v);
      assert ([fs[0]] + rest)[1..] == rest;
      [fs[0]] + rest
  }

  lemma KeysAppend(a: Fields, b: Fields)
    ensures Keys(a + b) == Keys(a) + Keys(b)
  {
    if a != [] {
      assert (a + b)[1..] == a[1..] + b;
      KeysAppend(a[1..], b);
    } else {
      assert a + b == b;
    }
  }

  lemma KeysSnoc(fs: Fields)
    requires fs != []
    ensures Keys(fs) == Keys(fs[..|fs| - 1]) + [fs[|fs| - 1].0]
  {
    var init, last := fs[..|fs| - 1], fs[|fs| - 1];
    assert fs == init + [last];
    KeysAppend(init, [last]);
    assert Keys([last]) == [last.0] + Keys([]);
  }

  lemma NoDuplicatesSnoc(s: seq<string>, x: string)
    ensures NoDuplicates(s + [x]) <==> NoDuplicates(s) && x !in s
  {
    assert forall i :: 0 <= i < |s| ==> s[i] == (s + [x])[i];
    assert (s + [x])[|s|] == x;
  }

  lemma UniqueKeysInit(fs: Fields)
    requires fs != [] && UniqueKeys(fs)
    ensures UniqueKeys(fs[..|fs| - 1]) && !HasKey(fs[..|fs| - 1], fs[|fs| - 1].0)
  {
    KeysSnoc(fs);
    NoDuplicatesSnoc(Keys(fs[..|fs| - 1]), fs[|fs| - 1].0);
  }

  lemma PutKeepsUnique(fs: Fields, k: string, v: Json)
    requires UniqueKeys(fs)
    ensures UniqueKeys(Put(fs, k, v))
  {
  }

  /** The object as a Python dict: a later duplicate key overrides an earlier one. */
  function AsMap(fs: Fields): (m: map<string, Json>)
    ensures forall k :: k in m <==> k in Keys(fs)
  {
    if fs == [] then map[]
    else
      var init, last := fs[..|fs| - 1], fs[|fs| - 1];
      KeysSnoc(fs);
      AsMap(init)[last.0 := last.1]
  }

  /** The pairs whose key is not `key`, in order. */
  function WithoutKey(fs: Fields, key: string): (r: Fields)
    ensures forall k :: k in Keys(r) <==> k in Keys(fs) && k != key
  {
    if fs == [] then []
    else if fs[0].0 == key then WithoutKey(fs[1..], key)
    else
      var rest := WithoutKey(fs[1..], key);
      assert ([fs[0]] + rest)[1..] == rest;
      assert Keys([fs[0]] + rest) == [fs[0].0] + Keys(rest);
      [fs[0]] + rest
  }

  /**
   * The body of one level of `delete_node`: a fresh dict filled with
   * `data[k] = v` for every streamed pair whose key is not `key`.
   */
  function CopyExcept(kvs: Fields, key: string): (r: Fields)
    ensures UniqueKeys(r)
    ensures forall k :: k in Keys(r) <==> k in Keys(kvs) && k != key
  {
    if kvs == [] then []
    else
      var init, last := kvs[..|kvs| - 1], kvs[|kvs| - 1];
      KeysSnoc(kvs);
      var c := CopyExcept(init, key);
      if last.0 != key then PutKeepsUnique(c, last.0, last.1); Put(c, last.0, last.1) else c
  }

  /** The child of an optional node under key `k`; only objects have children. */
  function Child(o: Option<Json>, k: string): Option<Json> {
    match o
    case Some(JObject(fs)) => Lookup(fs, k)
    case _ => None
  }

  /** The node reached from `o` by following the object keys `segs`, if any. */
  function Resolve(o: Option<Json>, segs: seq<string>): Option<Json>
    decreases |segs|
  {
    if segs == [] then o else Resolve(Child(o, segs[0]), segs[1..])
  }

  /** The key/value pairs of an optional node: none unless it is an object. */
  function FieldsOf(o: Option<Json>): Fields {
    match o
    case Some(JObject(fs)) => fs
    case _ => []
  }

  /** The keys an `ijson` prefix string walks through; "" is the document root. */
  function PrefixPath(prefix: string): seq<string> {
    if prefix == "" then [] else SplitOn(prefix, {'.'})
  }

  /**
   * `ijson.kvitems(f, prefix)`: the pairs of the object at `prefix`, in
   * document order; nothing when there is no object there.
   */
  function KvItems(doc: Json, prefix: string): (r: Fields)
    ensures r != [] ==> Resolve(Some(doc), PrefixPath(prefix)) == Some(JObject(r))
    ensures prefix == "" ==> r == FieldsOf(Some(doc))
    ensures prefix != "" && '.' !in prefix ==> r == FieldsOf(Child(Some(doc), prefix))
  {
    SingleKeyPrefix(doc, prefix);
    FieldsOf(Resolve(Some(doc), PrefixPath(prefix)))
  }

  /** A prefix without dots names one key below the root. */
  lemma SingleKeyPrefix(doc: Json, prefix: string)
    ensures prefix != "" && '.' !in prefix ==> Resolve(Some(doc), PrefixPath(prefix)) == Child(Some(doc), prefix)
  {
    if prefix != "" && '.' !in prefix {
      SplitOnSeparatorFree(prefix, "", {'.'});
      assert prefix + "" == prefix;
      assert PrefixPath(prefix) == [prefix];
      assert [prefix][1..] == [];
    }
  }

  /**
   * `ijson.items(f, json_path + ".item")`: the elements of the array at
   * `json_path`; nothing when there is no array there.
   */
  function ItemsAt(doc: Json, jsonPath: string): (r: seq<Json>)
    ensures r != [] ==> Resolve(Some(doc), SplitOn(jsonPath, {'.'})) == Some(JArray(r))
  {
    match Resolve(Some(doc), SplitOn(jsonPath, {'.'}))
    case Some(JArray(xs)) => xs
    case _ => []
  }

  // ---------------------------------------------------------------------------
  // Lemmas

  lemma ResolveSnoc(o: Option<Json>, segs: seq<string>, k: string)
    ensures Resolve(o, segs + [k]) == Child(Resolve(o, segs), k)
    decreases |segs|
  {
    if segs != [] {
      assert (segs + [k])[1..] == segs[1..] + [k];
      ResolveSnoc(Child(o, segs[0]), segs[1..], k);
    } else {
      assert [k][1..] == [];
    }
  }

  lemma {:induction false} LookupAppend(fs: Fields, p: (string, Json), k: string)
    ensures Lookup(fs + [p], k) == if HasKey(fs, k) then Lookup(fs, k) else if p.0 == k then Some(p.1) else None
  {
    if fs != [] {
      assert (fs + [p])[1..] == fs[1..] + [p];
      LookupAppend(fs[1..], p, k);
    }
  }

  /** In a dict without duplicates, the dict view and `Lookup` agree. */
  lemma {:induction false} AsMapLookup(fs: Fields, k: string)
    requires UniqueKeys(fs)
    requires HasKey(fs, k)
    ensures AsMap(fs)[k] == Lookup(fs, k).value
  {
    var init, last := fs[..|fs| - 1], fs[|fs| - 1];
    assert fs == init + [last];
    KeysSnoc(fs);
    UniqueKeysInit(fs);
    LookupAppend(init, last, k);
    if last.0 != k {
      AsMapLookup(init, k);
    }
  }

  lemma MapUpdateRemove(m: map<string, Json>, a: string, b: string, v: Json)
    requires a != b
    ensures (m - {a})[b := v] == m[b := v] - {a}
  {
  }

  /** For a dict without duplicates, `d[k] = v` is a map update. */
  lemma AsMapPut(fs: Fields, k: string, v: Json)
    requires UniqueKeys(fs)
    ensures AsMap(Put(fs, k, v)) == AsMap(fs)[k := v]
  {
    var r := Put(fs, k, v);
    PutKeepsUnique(fs, k, v);
    var m, m' := AsMap(r), AsMap(fs)[k := v];
    forall k' | k' in m
      ensures k' in m' && m[k'] == m'[k']
    {
      PutEntry(fs, k, v, k');
    }
    forall k' | k' in m'
      ensures k' in m
    {
      assert k' == k || k' in Keys(fs);
    }
    MapsAgree(m, m');
  }

  lemma MapsAgree(m: map<string, Json>, m': map<string, Json>)
    requires forall k :: k in m ==> k in m' && m[k] == m'[k]
    requires forall k :: k in m' ==> k in m
    ensures m == m'
  {
  }

  /** One entry of the dict after `d[k] = v`: `v` under `k`, the old value under any other key. */
  lemma PutEntry(fs: Fields, k: string, v: Json, k': string)
    requires UniqueKeys(fs) && UniqueKeys(Put(fs, k, v)) && k' in AsMap(Put(fs, k, v))
    ensures k' in AsMap(fs)[k := v] && AsMap(Put(fs, k, v))[k'] == AsMap(fs)[k := v][k']
  {
    AsMapLookup(Put(fs, k, v), k');
    if k' != k {
      AsMapLookup(fs, k');
    }
  }

  /**
   * Copying a level keeps every key/value pair of the streamed object except
   * `key`, as a Python dict would hold them; an absent `key` removes nothing.
   */
  lemma {:induction false} CopyExceptAsMap(kvs: Fields, key: string)
    ensures AsMap(CopyExcept(kvs, key)) == AsMap(kvs) - {key}
  {
    if kvs != [] {
      var init, last := kvs[..|kvs| - 1], kvs[|kvs| - 1];
      var c := CopyExcept(init, key);
      CopyExceptAsMap(init, key);
      assert AsMap(kvs) == AsMap(init)[last.0 := last.1];
      if last.0 != key {
        assert CopyExcept(kvs, key) == Put(c, last.0, last.1);
        AsMapPut(c, last.0, last.1);
        MapUpdateRemove(AsMap(init), key, last.0, last.1);
      } else {
        assert CopyExcept(kvs, key) == c;
        assert AsMap(init) - {key} == AsMap(init)[last.0 := last.1] - {key};
      }
    }
  }

  /** Without duplicate keys, copying a level is filtering it: order is kept too. */
  lemma {:induction false} CopyExceptFilters(kvs: Fields, key: string)
    requires UniqueKeys(kvs)
    ensures CopyExcept(kvs, key) == WithoutKey(kvs, key)
  {
    if kvs != [] {
      var init, last := kvs[..|kvs| - 1], kvs[|kvs| - 1];
      CopyExceptLast(kvs, key);
      CopyExceptFilters(init, key);
      WithoutKeyLast(kvs, key);
    }
  }

  lemma WithoutKeyLast(kvs: Fields, key: string)
    requires kvs != []
    ensures var last := kvs[|kvs| - 1];
      WithoutKey(kvs, key) == WithoutKey(kvs[..|kvs| - 1], key) + (if last.0 == key then [] else [last])
  {
    assert kvs == kvs[..|kvs| - 1] + [kvs[|kvs| - 1]];
    WithoutKeyAppend(kvs[..|kvs| - 1], kvs[|kvs| - 1], key);
  }

  /** One step of `CopyExcept`: the last pair is appended unless it carries `key`. */
  lemma CopyExceptLast(kvs: Fields, key: string)
    requires kvs != [] && UniqueKeys(kvs)
    ensures UniqueKeys(kvs[..|kvs| - 1])
    ensures var last := kvs[|kvs| - 1];
      CopyExcept(kvs, key) == CopyExcept(kvs[..|kvs| - 1], key) + (if last.0 == key then [] else [last])
  {
    UniqueKeysInit(kvs);
    var c := CopyExcept(kvs[..|kvs| - 1], key);
    assert !HasKey(c, kvs[|kvs| - 1].0);
  }

  lemma {:induction false} WithoutKeyAppend(fs: Fields, p: (string, Json), key: string)
    ensures WithoutKey(fs + [p], key) == WithoutKey(fs, key) + (if p.0 == key then [] else [p])
  {
    if fs != [] {
      assert (fs + [p])[1..] == fs[1..] + [p];
      WithoutKeyAppend(fs[1..], p, key);
    } else {
      assert [p][1..] == [];
    }
  }

  /** Filtering out an absent key changes nothing. */
  lemma {:induction false} WithoutAbsentKey(fs: Fields, key: string)
    requires !HasKey(fs, key)
    ensures WithoutKey(fs, key) == fs
  {
    if fs != [] {
      WithoutAbsentKey(fs[1..], key);
    }
  }

  /** `WithoutKey` keeps the values of the other keys. */
  lemma {:induction false} LookupWithoutKey(fs: Fields, key: string, k: string)
    requires k != key
    ensures Lookup(WithoutKey(fs, key), k) == Lookup(fs, k)
  {
    if fs != [] {
      LookupWithoutKey(fs[1..], key, k);
    }
  }

  // ---------------------------------------------------------------------------
  // Small objects, for worked examples

  lemma CopyExceptOne(a: (string, Json), key: string)
    ensures CopyExcept([a], key) == if a.0 == key then [] else [a]
  {
    assert [a][..0] == [];
  }

  lemma CopyExceptPair(a: (string, Json), b: (string, Json), key: string)
    requires a.0 != b.0
    ensures CopyExcept([a, b], key) == (if a.0 == key then [] else [a]) + (if b.0 == key then [] else [b])
  {
    assert [a, b][..1] == [a];
    CopyExceptOne(a, key);
  }

  lemma LookupPair(a: (string, Json), b: (string, Json), k: string)
    ensures Lookup([a, b], k) == if a.0 == k then Some(a.1) else if b.0 == k then Some(b.1) else None
  {
    assert [a, b][1..] == [b];
  }

  lemma AsMapPair(a: (string, Json), b: (string, Json))
    requires a.0 != b.0
    ensures AsMap([a, b]) == map[a.0 := a.1, b.0 := b.1]
  {
    assert [a, b][..1] == [a] && [a][..0] == [];
  }

  lemma PutAfter(a: (string, Json), k: string, v: Json)
    requires a.0 != k
    ensures Put([a], k, v) == [a, (k, v)]
  {
  }

  lemma KeysAt(fs: Fields)
    ensures forall i :: 0 <= i < |fs| ==> Keys(fs)[i] == fs[i].0
  {
    if fs != [] {
      KeysAt(fs[1..]);
      assert forall i :: 1 <= i < |fs| ==> fs[1..][i - 1] == fs[i];
    }
  }

  /** Without repeated keys, every pair of an object is an entry of its dict. */
  lemma {:induction false} AsMapAtPair(fs: Fields, i: nat)
    requires UniqueKeys(fs) && i < |fs|
    ensures fs[i].0 in AsMap(fs) && AsMap(fs)[fs[i].0] == fs[i].1
    decreases |fs|
  {
    var init, last := fs[..|fs| - 1], fs[|fs| - 1];
    KeysSnoc(fs);
    KeysAt(fs);
    if i < |fs| - 1 {
      assert Keys(fs)[i] != Keys(fs)[|fs| - 1];
      assert Keys(init) == Keys(fs)[..|fs| - 1];
      assert UniqueKeys(init);
      assert init[i] == fs[i];
      AsMapAtPair(init, i);
    }
  }

  /**
   * Dict equality ignores key order: two objects without repeated keys that
   * hold the same pairs, in any order, make the same dict.
   */
  lemma AsMapReorder(fs: Fields, gs: Fields)
    requires UniqueKeys(fs) && UniqueKeys(gs)
    requires forall p :: p in fs <==> p in gs
    ensures AsMap(fs) == AsMap(gs)
  {
    KeysAt(fs);
    KeysAt(gs);
    forall k | k in AsMap(fs)
      ensures k in AsMap(gs) && AsMap(gs)[k] == AsMap(fs)[k]
    {
      var i :| 0 <= i < |fs| && Keys(fs)[i] == k;
      AsMapAtPair(fs, i);
      assert fs[i] in gs;
      var j :| 0 <= j < |gs| && gs[j] == fs[i];
      AsMapAtPair(gs, j);
    }
    forall k | k in AsMap(gs)
      ensures k in AsMap(fs)
    {
      var j :| 0 <= j < |gs| && Keys(gs)[j] == k;
      assert gs[j] in fs;
      var i :| 0 <= i < |fs| && fs[i] == gs[j];
    }
  }

  /** Two distinct keys listed in either order make the same dict. */
  lemma AsMapSwap(a: (string, Json), b: (string, Json))
    requires a.0 != b.0
    ensures AsMap([a, b]) == AsMap([b, a])
  {
    AsMapPair(a, b);
    AsMapPair(b, a);
  }
}
