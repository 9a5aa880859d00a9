/**
 * The streaming JSON array splitter: `delete_node`, `take` and `split_json`.
 *
 * The input file is an immutable JSON value that can be read again as often as
 * needed; `ijson.kvitems` and `ijson.items` are the pure functions `KvItems`
 * and `ItemsAt` of module Json. The output directory is a map from the
 * file's path below the directory to the JSON value dumped there.
 */
module SplitJsonLocally {
  import opened Wrappers
  import opened Strings
  import opened Json

  /** `range(1, 1 + 999)`: at most this many chunk files are written. */
  const MaxChunks: nat := 999

  /** `sys.maxsize` on a 64-bit build: the largest stop `itertools.islice` accepts. */
  const MaxSize: nat := 9223372036854775807

  /** A stop `islice` accepts; any other raises `ValueError`. */
  predicate ValidStop(n: int) {
    0 <= n <= MaxSize
  }

  /** A filesystem path, as its components. */
  type Path = seq<string>

  // ---------------------------------------------------------------------------
  // delete_node

  /**
   * The first loop of `delete_node`: for every segment of the dot path, the
   * pair (the segments before it joined by ".", the segment).
   */
  method PrefixAndKeyPairs(parts: seq<string>) returns (pairs: seq<(string, string)>)
    ensures |pairs| == |parts|
    ensures forall i :: 0 <= i < |parts| ==> pairs[i] == (Join(parts[..i], '.'), parts[i])
  {
    pairs := [];
    var lst: seq<string> := [];
    for i := 0 to |parts|
      invariant |pairs| == i && lst == parts[..i]
      invariant forall j :: 0 <= j < i ==> pairs[j] == (Join(parts[..j], '.'), parts[j])
    {
      var prefix := Join(lst, '.');
      pairs := pairs + [(prefix, parts[i])];
      lst := lst + [parts[i]];
    }
  }

  /**
   * Level `i` of `delete_node`: the pairs streamed at the level's prefix,
   * copied into a fresh dict except the level's own key.
   */
  function Level(doc: Json, parts: seq<string>, i: nat): Fields
    requires i < |parts|
  {
    CopyExcept(KvItems(doc, Join(parts[..i], '.')), parts[i])
  }

  /**
   * The value of `new_data` once the loop is over: `chain[0]` is the dict it
   * names, and each dict holds the next one under the matching entry of
   * `links`, because `parent_data[...] = data` linked them while `parent_data`
   * walked down the chain.
   */
  function Nest(chain: seq<Fields>, links: seq<string>): Fields
    requires |chain| == |links| + 1
    decreases |links|
  {
    if links == [] then chain[0]
    else Put(chain[0], links[0], JObject(Nest(chain[1..], links[1..])))
  }

  /**
   * Direct structural deletion of the node at `path` below `o`: the level's
   * pairs except `path[0]`, and, when the path goes deeper, `path[0]` set
   * (re-attached at the end) to the deletion below the child. A missing or
   * non-object child counts as `{}`.
   */
  function Remove(o: Option<Json>, path: seq<string>): Fields
    requires |path| >= 1
    decreases |path|
  {
    var kept := CopyExcept(FieldsOf(o), path[0]);
    if |path| == 1 then kept
    else Put(kept, path[0], JObject(Remove(Child(o, path[0]), path[1..])))
  }

  /**
   * What `delete_node(p_in, json_path)` returns. A dot path that starts with
   * "." (first segment empty) and has a second segment makes the second
   * level's prefix "" as well, so that level restarts from the root and the
   * deeper levels are found below the root's "" key.
   */
  function Residual(doc: Json, jsonPath: string): Fields {
    var parts := SplitOn(jsonPath, {'.'});
    if |parts| >= 2 && parts[0] == "" then
      var top := CopyExcept(FieldsOf(Some(doc)), parts[1]);
      if |parts| == 2 then top
      else Put(top, parts[1], JObject(Remove(Resolve(Some(doc), parts[..2]), parts[2..])))
    else Remove(Some(doc), parts)
  }

  /** Every level of `delete_node`, one per path segment. */
  function Levels(doc: Json, parts: seq<string>): seq<Fields> {
    seq(|parts|, i requires 0 <= i < |parts| => Level(doc, parts, i))
  }

  /**
   * `chain` holds the levels `base`, `base + 1`, ... of `levels`, and
   * `links[j]` is the key under which `chain[j]` holds `chain[j + 1]`.
   */
  predicate Spells(levels: seq<Fields>, parts: seq<string>, chain: seq<Fields>, links: seq<string>, base: nat) {
    |levels| == |parts| && |chain| == |links| + 1 && base + |chain| <= |parts|
    && (forall j :: 0 <= j < |chain| ==> chain[j] == levels[base + j])
    && (forall j :: 0 <= j < |links| ==> links[j] == parts[base + j])
  }

  /**
   * The inner loop of `delete_node`: every streamed pair except the level's
   * key, in stream order, into a fresh dict.
   */
  method CopyLevel(kvs: Fields, key: string) returns (data: Fields)
    ensures data == CopyExcept(kvs, key)
  {
    data := [];
    for j := 0 to |kvs|
      invariant data == CopyExcept(kvs[..j], key)
    {
      assert kvs[..j + 1][..j] == kvs[..j];
      if kvs[j].0 != key {
        data := Put(data, kvs[j].0, kvs[j].1);
      }
    }
    assert kvs[..|kvs|] == kvs;
  }

  /**
   * `delete_node`: one pass over the input per path level, each copying the
   * object at the level's prefix without the level's key into a fresh dict
   * that is linked into the previous level's dict.
   */
  method DeleteNode(doc: Json, jsonPath: string) returns (newData: Fields)
    ensures newData == Residual(doc, jsonPath)
  {
    var parts := SplitOn(jsonPath, {'.'});
    var pairs := PrefixAndKeyPairs(parts);
    var chain, links, base := LinkLevels(doc, pairs);
    newData := Nest(chain, links);
    LinkUpToLinked(LevelsOf(doc, pairs), parts, pairs, |parts|);
    LevelsOfIsLevels(doc, parts, pairs);
    ResidualIsNest(doc, jsonPath, LevelsOf(doc, pairs), parts, chain, links, base);
  }

  /**
   * The loop of `delete_node`: copies each level without its key and links it
   * below its parent; a level with an empty prefix starts the chain afresh.
   */
  method LinkLevels(doc: Json, pairs: seq<(string, string)>) returns (chain: seq<Fields>, links: seq<string>, ghost base: nat)
    ensures LevelState(chain, links, base) == LinkUpTo(LevelsOf(doc, pairs), pairs, |pairs|)
  {
    // `new_data` and the dicts linked below it, outermost first
    chain, links, base := [[]], [], 0;
    for i := 0 to |pairs|
      invariant LevelState(chain, links, base) == LinkUpTo(LevelsOf(doc, pairs), pairs, i)
    {
      var prefix := pairs[i].0;
      var data := LevelData(doc, pairs, i);
      if prefix == "" {
        // `new_data = data`
        chain, links := [data], [];
        base := i;
      } else {
        // `parent_data[prefix.split(".")[-1]] = data`
        var segs := SplitOn(prefix, {'.'});
        chain, links := chain + [data], links + [segs[|segs| - 1]];
      }
    }
  }

  /** `data = {k: v for k, v in kv_items(prefix) if k != key}` for pair `i`. */
  method LevelData(doc: Json, pairs: seq<(string, string)>, i: nat) returns (data: Fields)
    requires i < |pairs|
    ensures data == LevelsOf(doc, pairs)[i]
  {
    data := CopyLevel(KvItems(doc, pairs[i].0), pairs[i].1);
    LevelsOfAt(doc, pairs, i);
  }

  /** The dict copied at each (prefix, key) pair, in order. */
  function LevelsOf(doc: Json, pairs: seq<(string, string)>): (levels: seq<Fields>)
    ensures |levels| == |pairs|
  {
    if pairs == [] then []
    else LevelsOf(doc, pairs[..|pairs| - 1]) + [CopyExcept(KvItems(doc, pairs[|pairs| - 1].0), pairs[|pairs| - 1].1)]
  }

  /** Entry `i` of `LevelsOf` is the copy made at pair `i`. */
  lemma {:induction false} LevelsOfAt(doc: Json, pairs: seq<(string, string)>, i: nat)
    requires i < |pairs|
    ensures LevelsOf(doc, pairs)[i] == CopyExcept(KvItems(doc, pairs[i].0), pairs[i].1)
    decreases |pairs|
  {
    if i < |pairs| - 1 {
      LevelsOfAt(doc, pairs[..|pairs| - 1], i);
    }
  }

  /** The levels copied at the pairs of `parts` are the levels of `parts`. */
  lemma LevelsOfIsLevels(doc: Json, parts: seq<string>, pairs: seq<(string, string)>)
    requires |pairs| == |parts|
    requires forall j :: 0 <= j < |parts| ==> pairs[j] == (Join(parts[..j], '.'), parts[j])
    ensures LevelsOf(doc, pairs) == Levels(doc, parts)
  {
    forall i | 0 <= i < |parts|
      ensures LevelsOf(doc, pairs)[i] == Levels(doc, parts)[i]
    {
      LevelOfPair(doc, parts, pairs, i);
    }
  }

  lemma LevelOfPair(doc: Json, parts: seq<string>, pairs: seq<(string, string)>, i: nat)
    requires i < |pairs| == |parts| && pairs[i] == (Join(parts[..i], '.'), parts[i])
    ensures LevelsOf(doc, pairs)[i] == Level(doc, parts, i)
  {
    LevelsOfAt(doc, pairs, i);
  }

  /**
   * The state of `delete_node` after `i` levels: before the first level only
   * the empty dict; afterwards the dicts from level `base` on, linked by the
   * keys of those levels, where `base` is 1 when the second level restarted
   * the chain from the root.
   */
  ghost predicate Linked(levels: seq<Fields>, parts: seq<string>, chain: seq<Fields>, links: seq<string>, base: nat, i: nat) {
    i <= |parts|
    && base == (if i >= 2 && parts[0] == "" then 1 else 0)
    && (i == 0 ==> chain == [[]] && links == [])
    && (i > 0 ==> base < i && |chain| == i - base && Spells(levels, parts, chain, links, base))
  }

  /** The dicts of `delete_node` after some levels, outermost first, the keys linking them, and where the chain starts. */
  datatype LevelState = LevelState(chain: seq<Fields>, links: seq<string>, base: nat)

  /**
   * The state of the level loop after `n` levels: a level with the root
   * prefix replaces the chain, any other level is linked below its last dict
   * under the last segment of the prefix.
   */
  function LinkUpTo(levels: seq<Fields>, pairs: seq<(string, string)>, n: nat): (st: LevelState)
    requires n <= |pairs| == |levels|
    ensures |st.chain| == |st.links| + 1
  {
    if n == 0 then LevelState([[]], [], 0)
    else
      var st := LinkUpTo(levels, pairs, n - 1);
      var prefix, data := pairs[n - 1].0, levels[n - 1];
      if prefix == "" then LevelState([data], [], n - 1)
      else
        var segs := SplitOn(prefix, {'.'});
        LevelState(st.chain + [data], st.links + [segs[|segs| - 1]], st.base)
  }

  /** After every level the loop state is a chain of the levels so far, whatever the levels hold. */
  lemma {:induction false} LinkUpToLinked(levels: seq<Fields>, parts: seq<string>, pairs: seq<(string, string)>, n: nat)
    requires n <= |parts| == |pairs| == |levels|
    requires forall j :: 0 <= j < |parts| ==> pairs[j] == (Join(parts[..j], '.'), parts[j])
    requires forall j :: 0 <= j < |parts| ==> '.' !in parts[j]
    ensures var st := LinkUpTo(levels, pairs, n); Linked(levels, parts, st.chain, st.links, st.base, n)
    decreases n
  {
    if n > 0 {
      var i := n - 1;
      LinkUpToLinked(levels, parts, pairs, i);
      assert pairs[i] == (Join(parts[..i], '.'), parts[i]);
      LinkNext(levels, parts, LinkUpTo(levels, pairs, i), i, pairs[i].0, LinkUpTo(levels, pairs, n));
    }
  }

  /** One more level keeps the loop state linked, whether it restarts the chain or extends it. */
  lemma LinkNext(levels: seq<Fields>, parts: seq<string>, st: LevelState, i: nat, prefix: string, next: LevelState)
    requires Linked(levels, parts, st.chain, st.links, st.base, i) && i < |parts| == |levels|
    requires forall j :: 0 <= j < |parts| ==> '.' !in parts[j]
    requires prefix == Join(parts[..i], '.')
    requires next == if prefix == "" then LevelState([levels[i]], [], i)
      else var segs := SplitOn(prefix, {'.'}); LevelState(st.chain + [levels[i]], st.links + [segs[|segs| - 1]], st.base)
    ensures Linked(levels, parts, next.chain, next.links, next.base, i + 1)
  {
    if prefix == "" {
      RestartStep(levels, parts, st.chain, st.links, st.base, i);
    } else {
      LinkStep(levels, parts, st.chain, st.links, st.base, i);
    }
  }

  /** A level whose prefix is the root starts a new chain. */
  lemma RestartStep(levels: seq<Fields>, parts: seq<string>, chain: seq<Fields>, links: seq<string>, base: nat, i: nat)
    requires Linked(levels, parts, chain, links, base, i) && i < |parts| == |levels|
    requires Join(parts[..i], '.') == ""
    ensures Linked(levels, parts, [levels[i]], [], i, i + 1)
  {
    PrefixIsRoot(parts, i);
  }

  /** Any other level is linked below the last dict of the chain, under the last segment of its prefix. */
  lemma LinkStep(levels: seq<Fields>, parts: seq<string>, chain: seq<Fields>, links: seq<string>, base: nat, i: nat)
    requires Linked(levels, parts, chain, links, base, i) && i < |parts| == |levels|
    requires forall j :: 0 <= j < |parts| ==> '.' !in parts[j]
    requires Join(parts[..i], '.') != ""
    ensures var segs := SplitOn(Join(parts[..i], '.'), {'.'});
      Linked(levels, parts, chain + [levels[i]], links + [segs[|segs| - 1]], base, i + 1)
  {
    PrefixIsRoot(parts, i);
    PrefixRoundTrip(parts, i);
    ExtendChain(levels, parts, chain, links, base);
  }

  /** Linking the next level keeps the chain in step with the levels. */
  lemma ExtendChain(levels: seq<Fields>, parts: seq<string>, chain: seq<Fields>, links: seq<string>, base: nat)
    requires Spells(levels, parts, chain, links, base) && base + |chain| < |parts|
    ensures Spells(levels, parts, chain + [levels[base + |chain|]], links + [parts[base + |links|]], base)
  {
    SnocAligned(chain, levels, base);
    SnocAligned(links, parts, base);
  }

  /** A sequence that matches `want` from `base` on still does after appending the next element of `want`. */
  lemma SnocAligned<T>(xs: seq<T>, want: seq<T>, base: nat)
    requires base + |xs| < |want|
    requires forall j :: 0 <= j < |xs| ==> xs[j] == want[base + j]
    ensures var ys := xs + [want[base + |xs|]]; forall j :: 0 <= j < |ys| ==> ys[j] == want[base + j]
  {
    var ys := xs + [want[base + |xs|]];
    forall j | 0 <= j < |ys|
      ensures ys[j] == want[base + j]
    {
      if j < |xs| {
        assert ys[j] == xs[j];
      }
    }
  }

  /** A level's prefix is the root exactly for the first level, and for the second when the first segment is empty. */
  lemma PrefixIsRoot(parts: seq<string>, i: nat)
    requires i <= |parts|
    ensures Join(parts[..i], '.') == "" <==> i == 0 || (i == 1 && parts[0] == "")
  {
    JoinEmpty(parts[..i], '.');
    if i == 1 {
      assert parts[..1] == [parts[0]];
    }
  }

  /** A level's prefix splits back into the segments before it. */
  lemma PrefixRoundTrip(parts: seq<string>, i: nat)
    requires 1 <= i <= |parts|
    requires forall j :: 0 <= j < |parts| ==> '.' !in parts[j]
    ensures SplitOn(Join(parts[..i], '.'), {'.'}) == parts[..i]
  {
    SplitJoin(parts[..i], '.');
  }

  /** A level whose prefix names the segments before it streams the object found there. */
  lemma LevelAt(doc: Json, parts: seq<string>, b: nat)
    requires b < |parts|
    requires PrefixPath(Join(parts[..b], '.')) == parts[..b]
    ensures Level(doc, parts, b) == CopyExcept(FieldsOf(Resolve(Some(doc), parts[..b])), parts[b])
  {
  }

  /**
   * From level `b` on, where every prefix names the segments before it, the
   * chain of levels spells out the structural deletion below level `b`.
   */
  lemma {:induction false} NestLevels(doc: Json, parts: seq<string>, chain: seq<Fields>, links: seq<string>, b: nat)
    requires Spells(Levels(doc, parts), parts, chain, links, b) && |chain| == |parts| - b
    requires forall k :: b <= k < |parts| ==> PrefixPath(Join(parts[..k], '.')) == parts[..k]
    ensures Nest(chain, links) == Remove(Resolve(Some(doc), parts[..b]), parts[b..])
    decreases |parts| - b
  {
    var o := Resolve(Some(doc), parts[..b]);
    NestHead(doc, parts, chain, links, b);
    if links != [] {
      SpellsTail(Levels(doc, parts), parts, chain, links, b);
      NestLevels(doc, parts, chain[1..], links[1..], b + 1);
      ChildStep(doc, parts, b);
      RemoveStep(o, parts[b..]);
    }
  }

  /** The first dict of a chain from level `b` is the copy of the object found at the level's path. */
  lemma NestHead(doc: Json, parts: seq<string>, chain: seq<Fields>, links: seq<string>, b: nat)
    requires Spells(Levels(doc, parts), parts, chain, links, b) && b < |parts|
    requires PrefixPath(Join(parts[..b], '.')) == parts[..b]
    ensures chain[0] == CopyExcept(FieldsOf(Resolve(Some(doc), parts[..b])), parts[b])
  {
    LevelAt(doc, parts, b);
  }

  /** One more segment of the path is one more step down. */
  lemma ChildStep(doc: Json, parts: seq<string>, b: nat)
    requires b < |parts|
    ensures Child(Resolve(Some(doc), parts[..b]), parts[b]) == Resolve(Some(doc), parts[..b + 1])
    ensures parts[b..][1..] == parts[b + 1..] && parts[b..][0] == parts[b]
  {
    ResolveSnoc(Some(doc), parts[..b], parts[b]);
    assert parts[..b + 1] == parts[..b] + [parts[b]];
  }

  /** Dropping the first level of a chain leaves the chain from the next level on. */
  lemma SpellsTail(levels: seq<Fields>, parts: seq<string>, chain: seq<Fields>, links: seq<string>, b: nat)
    requires Spells(levels, parts, chain, links, b) && links != []
    ensures Spells(levels, parts, chain[1..], links[1..], b + 1)
    ensures links[0] == parts[b]
  {
    assert forall j :: 0 <= j < |chain| - 1 ==> chain[1..][j] == chain[j + 1];
    assert forall j :: 0 <= j < |links| - 1 ==> links[1..][j] == links[j + 1];
  }

  /** Every level's prefix but a root one names the segments before the level. */
  lemma PrefixPathJoin(parts: seq<string>, k: nat)
    requires k <= |parts| && !(k == 1 && parts[0] == "")
    requires forall j :: 0 <= j < |parts| ==> '.' !in parts[j]
    ensures PrefixPath(Join(parts[..k], '.')) == parts[..k]
  {
    PrefixIsRoot(parts, k);
    if k >= 1 {
      PrefixRoundTrip(parts, k);
    }
  }

  /** The chain the loop of `DeleteNode` leaves behind spells out `Residual`. */
  lemma ResidualIsNest(doc: Json, jsonPath: string, levels: seq<Fields>, parts: seq<string>, chain: seq<Fields>, links: seq<string>, base: nat)
    requires parts == SplitOn(jsonPath, {'.'})
    requires levels == Levels(doc, parts) && Linked(levels, parts, chain, links, base, |parts|)
    ensures Nest(chain, links) == Residual(doc, jsonPath)
  {
    assert forall j :: 0 <= j < |parts| ==> '.' !in parts[j];
    if base == 0 {
      forall k | 0 <= k < |parts|
        ensures PrefixPath(Join(parts[..k], '.')) == parts[..k]
      {
        PrefixPathJoin(parts, k);
      }
      NestLevels(doc, parts, chain, links, 0);
      assert parts[..0] == [] && parts[0..] == parts;
    } else {
      EdgeNest(doc, parts, chain, links);
    }
  }

  /** The edge case of `ResidualIsNest`: the second level restarted from the root. */
  lemma EdgeNest(doc: Json, parts: seq<string>, chain: seq<Fields>, links: seq<string>)
    requires |parts| >= 2 && parts[0] == ""
    requires forall j :: 0 <= j < |parts| ==> '.' !in parts[j]
    requires Spells(Levels(doc, parts), parts, chain, links, 1) && |chain| == |parts| - 1
    ensures Nest(chain, links) == (
      var top := CopyExcept(FieldsOf(Some(doc)), parts[1]);
      if |parts| == 2 then top
      else Put(top, parts[1], JObject(Remove(Resolve(Some(doc), parts[..2]), parts[2..]))))
  {
    PrefixIsRoot(parts, 1);
    assert chain[0] == CopyExcept(FieldsOf(Some(doc)), parts[1]);
    if |parts| >= 3 {
      forall k | 2 <= k < |parts|
        ensures PrefixPath(Join(parts[..k], '.')) == parts[..k]
      {
        PrefixPathJoin(parts, k);
      }
      SpellsTail(Levels(doc, parts), parts, chain, links, 1);
      NestLevels(doc, parts, chain[1..], links[1..], 2);
    }
  }

  // ---------------------------------------------------------------------------
  // take, and the chunks split_json writes

  function Min(a: int, b: int): int {
    if a <= b then a else b
  }

  /**
   * `take(n, iterator)`: the next `n` items as a list (fewer when the
   * iterator runs out), and the iterator advanced past them.
   */
  function Take<T>(n: nat, it: seq<T>): (r: (seq<T>, seq<T>))
    ensures |r.0| == Min(n, |it|)
    ensures r.0 + r.1 == it
  {
    if n <= |it| then (it[..n], it[n..]) else (it, [])
  }

  /**
   * The arrays `take(n, iterator)` hands out, one per pull, until the first
   * empty pull.
   */
  function Chunks(items: seq<Json>, n: nat): (cs: seq<seq<Json>>)
    ensures forall i :: 0 <= i < |cs| ==> 1 <= |cs[i]| <= n
    decreases |items|
  {
    var (chunk, rest) := Take(n, items);
    if chunk == [] then [] else [chunk] + Chunks(rest, n)
  }

  /** The arrays the chunk loop of `split_json` writes: no more than `MaxChunks` of them. */
  function Written(items: seq<Json>, n: nat): seq<seq<Json>> {
    var cs := Chunks(items, n);
    cs[..Min(MaxChunks, |cs|)]
  }

  /** The items of all chunks, in order. */
  function Flatten(cs: seq<seq<Json>>): seq<Json> {
    if cs == [] then [] else cs[0] + Flatten(cs[1..])
  }

  /** A chunk size of 0 (`islice(it, 0)`) or an empty array writes no chunk. */
  lemma NoChunks(items: seq<Json>, n: nat)
    ensures Chunks(items, n) == [] <==> n == 0 || items == []
  {
  }

  /** Every chunk but the last is full. */
  lemma {:induction false} ChunksFull(items: seq<Json>, n: nat)
    ensures var cs := Chunks(items, n); forall i :: 0 <= i < |cs| - 1 ==> |cs[i]| == n
    decreases |items|
  {
    var (chunk, rest) := Take(n, items);
    var cs := Chunks(items, n);
    if chunk != [] {
      ChunksFull(rest, n);
      assert cs == [chunk] + Chunks(rest, n);
      if |items| < n {
        assert rest == [] && |cs| == 1;
      }
      forall i | 0 <= i < |cs| - 1 ensures |cs[i]| == n {
        if i > 0 {
          assert cs[i] == Chunks(rest, n)[i - 1];
        }
      }
    }
  }

  /** There are `ceil(len(array) / n)` chunks: `n` times the count covers the array, one chunk fewer does not. */
  lemma {:induction false} ChunksCount(items: seq<Json>, n: nat)
    requires n > 0
    ensures var c := |Chunks(items, n)|; n * c >= |items| && (c > 0 ==> n * (c - 1) < |items|)
    decreases |items|
  {
    var (chunk, rest) := Take(n, items);
    if |items| >= n {
      ChunksCount(rest, n);
      var c := |Chunks(rest, n)|;
      assert |Chunks(items, n)| == c + 1;
      assert n * (c + 1) == n * c + n;
    } else if items != [] {
      assert rest == [];
    }
  }

  lemma MulNonNegative(a: nat, b: nat)
    ensures a * b >= 0
  {
  }

  lemma MinStep(len: nat, n: nat, k: nat)
    requires len >= n && k > 0
    ensures Min(len, n * k) == n + Min(len - n, n * (k - 1))
  {
    assert n * k == n * (k - 1) + n;
  }

  lemma MulMono(n: nat, a: nat, b: nat)
    requires a <= b
    ensures n * a <= n * b
  {
  }

  /** The first `k` chunks hold the first `k * n` items. */
  lemma {:induction false} FlattenChunksPrefix(items: seq<Json>, n: nat, k: nat)
    requires n > 0 && k <= |Chunks(items, n)|
    ensures Flatten(Chunks(items, n)[..k]) == items[..Min(|items|, n * k)]
    decreases k
  {
    if k > 0 {
      var (chunk, rest) := Take(n, items);
      FlattenChunksPrefix(rest, n, k - 1);
      MulNonNegative(n, k - 1);
      var m := Min(|rest|, n * (k - 1));
      assert Chunks(items, n) == [chunk] + Chunks(rest, n);
      FlattenConsPrefix(chunk, Chunks(rest, n), k);
      if |items| >= n {
        MinStep(|items|, n, k);
        PrefixGlue(items, n, m);
      } else {
        assert rest == [] && k == 1 && items[..|items|] == items;
      }
    }
  }

  lemma FlattenConsPrefix(chunk: seq<Json>, tail: seq<seq<Json>>, k: nat)
    requires 0 < k <= |tail| + 1
    ensures Flatten(([chunk] + tail)[..k]) == chunk + Flatten(tail[..k - 1])
  {
    var pre := ([chunk] + tail)[..k];
    assert pre[0] == chunk && pre[1..] == tail[..k - 1];
  }

  /** The first `n` items followed by `m` of the rest are the first `n + m` items. */
  lemma PrefixGlue(items: seq<Json>, n: nat, m: nat)
    requires n + m <= |items|
    ensures items[..n] + items[n..][..m] == items[..n + m]
  {
  }

  /**
   * The chunk files hold the array's items in order: all of them when they
   * fit in `MaxChunks` chunks, otherwise the first `MaxChunks * n`.
   */
  lemma WrittenItems(items: seq<Json>, n: nat)
    ensures Flatten(Written(items, n)) == items[..Min(|items|, n * MaxChunks)]
  {
    var cs := Chunks(items, n);
    if n == 0 {
      NoChunks(items, n);
      assert Written(items, n) == [];
    } else if |cs| <= MaxChunks {
      FlattenChunksPrefix(items, n, |cs|);
      assert Min(|items|, n * |cs|) == Min(|items|, n * MaxChunks) == |items| by {
        ChunksCount(items, n);
        MulMono(n, |cs|, MaxChunks);
      }
      assert cs[..|cs|] == cs;
    } else {
      FlattenChunksPrefix(items, n, MaxChunks);
    }
  }

  /** `f"{ith}.json"` */
  function ChunkName(i: nat): string {
    NatToString(i) + ".json"
  }

  /** The path of chunk file `i` below the output directory. */
  function ChunkPath(i: nat): Path {
    ["arrays", ChunkName(i)]
  }

  /** The path of the residual document below the output directory. */
  const DataPath: Path := ["data.json"]

  /** The chunk files for the chunks `cs`, numbered from 1. */
  function ChunkFiles(cs: seq<seq<Json>>): map<Path, Json> {
    if cs == [] then map[]
    else ChunkFiles(cs[..|cs| - 1])[ChunkPath(|cs|) := JArray(cs[|cs| - 1])]
  }

  /** Chunk `i` (from 1) is in `arrays/{i}.json`, and nothing else is. */
  lemma {:induction false} ChunkFilesLayout(cs: seq<seq<Json>>)
    ensures forall p :: p in ChunkFiles(cs) <==> exists i :: 1 <= i <= |cs| && p == ChunkPath(i)
    ensures forall i :: 1 <= i <= |cs| ==> ChunkFiles(cs)[ChunkPath(i)] == JArray(cs[i - 1])
  {
    ChunkFilesKeys(cs);
    ChunkFilesValues(cs);
  }

  lemma {:induction false} ChunkFilesKeys(cs: seq<seq<Json>>)
    ensures forall p :: p in ChunkFiles(cs) <==> exists i :: 1 <= i <= |cs| && p == ChunkPath(i)
    decreases |cs|
  {
    if cs != [] {
      ChunkFilesKeys(cs[..|cs| - 1]);
    }
  }

  lemma {:induction false} ChunkFilesValues(cs: seq<seq<Json>>)
    ensures forall i :: 1 <= i <= |cs| ==> ChunkPath(i) in ChunkFiles(cs) && ChunkFiles(cs)[ChunkPath(i)] == JArray(cs[i - 1])
    decreases |cs|
  {
    if cs != [] {
      var init := cs[..|cs| - 1];
      ChunkFilesValues(init);
      forall i | 1 <= i < |cs| ensures ChunkPath(i) != ChunkPath(|cs|) && cs[i - 1] == init[i - 1] {
        ChunkPathInjective(i, |cs|);
      }
    }
  }

  /** Distinct chunk numbers name distinct files. */
  lemma ChunkPathInjective(i: nat, j: nat)
    requires i != j
    ensures ChunkPath(i) != ChunkPath(j)
  {
    if ChunkPath(i) == ChunkPath(j) {
      assert ChunkName(i) == ChunkPath(i)[1];
      assert NatToString(i) == ChunkName(i)[..|ChunkName(i)| - 5];
      assert NatToString(j) == ChunkName(j)[..|ChunkName(j)| - 5];
      NatToStringInjective(i, j);
    }
  }

  /** The whole contents of the output directory after a successful `split_json`. */
  function SplitOutput(doc: Json, jsonPath: string, chunkSize: nat): map<Path, Json> {
    ChunkFiles(Written(ItemsAt(doc, jsonPath), chunkSize))[DataPath := JObject(Residual(doc, jsonPath))]
  }

  /** `dir / p` for every path `p` of `m`. */
  function InDir(dir: Path, m: map<Path, Json>): map<Path, Json> {
    assert forall p, q :: dir + p == dir + q ==> p == q by {
      forall p, q ensures dir + p == dir + q ==> p == q {
        if dir + p == dir + q {
          assert p == (dir + p)[|dir|..];
          assert q == (dir + q)[|dir|..];
        }
      }
    }
    map p | p in m :: dir + p := m[p]
  }

  /** `p` and its ancestors below the root, the directories `p.mkdir(parents=True)` makes. */
  function DirsOf(p: Path): (r: set<Path>)
    ensures forall q :: q in r <==> 1 <= |q| <= |p| && q == p[..|q|]
  {
    set i | 1 <= i <= |p| :: p[..i]
  }

  /** `(a | b)` then `[k] = v` is `a | (b` then `[k] = v)`. */
  lemma UnionUpdate(a: map<Path, Json>, b: map<Path, Json>, k: Path, v: Json)
    ensures (a + b)[k := v] == a + b[k := v]
  {
  }

  /** `dir / p` for every path `p` of `m`, updated at `dir / p`, is the update of `m` at `p` moved to `dir`. */
  lemma InDirUpdate(dir: Path, m: map<Path, Json>, p: Path, v: Json)
    ensures InDir(dir, m)[dir + p := v] == InDir(dir, m[p := v])
  {
    var l, r := InDir(dir, m)[dir + p := v], InDir(dir, m[p := v]);
    forall q | q in r ensures q in l && l[q] == r[q] {
      var q' :| q' in m[p := v] && q == dir + q';
      assert q' == q[|dir|..];
    }
    assert l.Keys == r.Keys;
  }

  // ---------------------------------------------------------------------------
  // The filesystem and split_json

  datatype SplitError =
    | FileExistsError     // `dir_out` exists, or `mkdir` finds its target there
    | NotADirectoryError  // `mkdir` meets a file where a parent directory should be
    | ValueError          // `itertools.islice` refuses a negative chunk size

  /** The part of the filesystem `split_json` touches: directories and the JSON files in them. */
  class FileSystem {
    var dirs: set<Path>
    var files: map<Path, Json>

    /** The root is a directory, every ancestor of an entry is a directory, and no path is both. */
    predicate Valid()
      reads this
    {
      [] in dirs
      && (forall p, i :: p in dirs && 0 <= i < |p| ==> p[..i] in dirs)
      && (forall p, i :: p in files && 0 <= i < |p| ==> p[..i] in dirs)
      && (forall p :: p in files ==> p !in dirs)
    }

    constructor ()
      ensures Valid() && dirs == {[]} && files == map[]
    {
      dirs, files := {[]}, map[];
    }

    /** `p.exists()`: a file or a directory is there. */
    predicate Exists(p: Path)
      reads this
    {
      p in dirs || p in files
    }

    /** A file sits where an ancestor directory of `p` should be. */
    predicate FileAbove(p: Path)
      reads this
    {
      exists i :: 0 <= i < |p| && p[..i] in files
    }

    /**
     * `p.mkdir(parents=True)`: refuses an existing `p` and a file among its
     * ancestors, otherwise makes `p` and its missing ancestors.
     */
    method MakeDirs(p: Path) returns (outcome: Outcome<SplitError>)
      requires Valid()
      modifies this
      ensures Valid()
      ensures outcome == if old(Exists(p)) then Fail(FileExistsError)
                         else if old(FileAbove(p)) then Fail(NotADirectoryError)
                         else Pass
      ensures dirs == if outcome.Pass? then old(dirs) + DirsOf(p) else old(dirs)
      ensures files == old(files)
    {
      if Exists(p) {
        return Fail(FileExistsError);
      }
      if exists i | 0 <= i < |p| :: p[..i] in files {
        return Fail(NotADirectoryError);
      }
      forall q, i | q in DirsOf(p) && 0 <= i < |q| ensures q[..i] in dirs + DirsOf(p) {
        assert q[..i] == p[..i];
      }
      forall q | q in DirsOf(p) ensures q !in files {
        if |q| == |p| {
          assert q == p;
        }
      }
      dirs := dirs + DirsOf(p);
      return Pass;
    }

    /** `with p.open("w") as f: json.dump(j, f)`, below an existing directory. */
    method WriteJson(p: Path, j: Json)
      requires Valid() && |p| >= 1 && p[..|p| - 1] in dirs && p !in dirs
      modifies this
      ensures Valid()
      ensures files == old(files)[p := j] && dirs == old(dirs)
    {
      forall i | 0 <= i < |p| ensures p[..i] in dirs {
        assert p[..i] == p[..|p| - 1][..i];
      }
      files := files[p := j];
    }

    /** A path below `d + ["arrays"]` has a file above it exactly when `d` is a file or has one above. */
    lemma FileAboveArrays(d: Path)
      ensures FileAbove(d + ["arrays"]) <==> FileAbove(d) || d in files
    {
      if FileAbove(d + ["arrays"]) {
        var i :| 0 <= i < |d| + 1 && (d + ["arrays"])[..i] in files;
        if i < |d| {
          assert (d + ["arrays"])[..i] == d[..i];
        } else {
          assert (d + ["arrays"])[..i] == d;
        }
      }
      if FileAbove(d) {
        var i :| 0 <= i < |d| && d[..i] in files;
        assert (d + ["arrays"])[..i] == d[..i];
      }
      if d in files {
        assert (d + ["arrays"])[..|d|] == d;
      }
    }
  }

  /**
   * The chunk loop of `split_json`: pull `take(chunk_size, iterator)` up to 999
   * times, writing each non-empty pull to `arrays/{ith}.json` and stopping at
   * the first empty one.
   */
  method WriteChunks(fs: FileSystem, dirOut: Path, all: seq<Json>, n: nat)
    requires fs.Valid() && dirOut + ["arrays"] in fs.dirs
    requires forall k :: dirOut + ChunkPath(k) !in fs.dirs
    modifies fs
    ensures fs.Valid() && fs.dirs == old(fs.dirs)
    ensures fs.files == old(fs.files) + InDir(dirOut, ChunkFiles(Written(all, n)))
  {
    var rest := all;
    ghost var written: seq<seq<Json>> := [];
    for ith := 1 to MaxChunks + 1
      invariant |written| == ith - 1
      invariant written + Chunks(rest, n) == Chunks(all, n)
      invariant fs.Valid() && fs.dirs == old(fs.dirs)
      invariant fs.files == old(fs.files) + InDir(dirOut, ChunkFiles(written))
    {
      ghost var before := rest;
      var items: seq<Json>;
      items, rest := Take(n, rest).0, Take(n, rest).1;
      var pathOut := dirOut + ChunkPath(ith);
      if |items| == 0 {
        // an empty pull leaves the iterator where it was
        assert rest == before && Chunks(rest, n) == [];
        break;
      }
      ChunkPathParent(dirOut, ith);
      fs.WriteJson(pathOut, JArray(items));
      FilesStep(old(fs.files), dirOut, written, items);
      PullStep(written, before, all, n);
      written := written + [items];
    }
    WrittenSoFar(written, Chunks(rest, n), all, n);
  }

  /** Chunk file `i` sits in the `arrays` directory. */
  lemma ChunkPathParent(dirOut: Path, i: nat)
    ensures var p := dirOut + ChunkPath(i); p[..|p| - 1] == dirOut + ["arrays"]
  {
    var p := dirOut + ChunkPath(i);
    assert p == (dirOut + ["arrays"]) + [ChunkName(i)];
  }

  /** A non-empty pull is the next chunk. */
  lemma PullStep(written: seq<seq<Json>>, before: seq<Json>, all: seq<Json>, n: nat)
    requires written + Chunks(before, n) == Chunks(all, n) && Take(n, before).0 != []
    ensures (written + [Take(n, before).0]) + Chunks(Take(n, before).1, n) == Chunks(all, n)
  {
    assert Chunks(before, n) == [Take(n, before).0] + Chunks(Take(n, before).1, n);
    assert (written + [Take(n, before).0]) + Chunks(Take(n, before).1, n) == written + Chunks(before, n);
  }

  /** The chunks pulled so far are all that is written once the pulls run dry or reach `MaxChunks`. */
  lemma WrittenSoFar(written: seq<seq<Json>>, tail: seq<seq<Json>>, all: seq<Json>, n: nat)
    requires written + tail == Chunks(all, n)
    requires (tail == [] && |written| <= MaxChunks) || |written| == MaxChunks
    ensures written == Written(all, n)
  {
    assert (written + tail)[..|written|] == written;
  }

  /**
   * `split_json(p_in, dir_out, json_path, chunk_size)`: refuses an existing
   * `dir_out`; otherwise makes `dir_out/arrays`, writes the chunks of the
   * array at `json_path` to `arrays/1.json`, `arrays/2.json`, ... and the
   * input without that array to `data.json`.
   */
  method SplitJson(fs: FileSystem, doc: Json, dirOut: Path, jsonPath: string, chunkSize: int)
    returns (outcome: Outcome<SplitError>)
    requires fs.Valid()
    modifies fs
    ensures fs.Valid()
    ensures old(fs.Exists(dirOut)) ==>
      outcome == Fail(FileExistsError) && fs.dirs == old(fs.dirs) && fs.files == old(fs.files)
    ensures !old(fs.Exists(dirOut)) && old(fs.FileAbove(dirOut)) ==>
      outcome == Fail(NotADirectoryError) && fs.dirs == old(fs.dirs) && fs.files == old(fs.files)
    ensures !old(fs.Exists(dirOut)) && !old(fs.FileAbove(dirOut)) ==>
      fs.dirs == old(fs.dirs) + DirsOf(dirOut + ["arrays"])
    ensures !old(fs.Exists(dirOut)) && !old(fs.FileAbove(dirOut)) && !ValidStop(chunkSize) ==>
      outcome == Fail(ValueError) && fs.files == old(fs.files)
    ensures !old(fs.Exists(dirOut)) && !old(fs.FileAbove(dirOut)) && ValidStop(chunkSize) ==>
      outcome == Pass && fs.files == old(fs.files) + InDir(dirOut, SplitOutput(doc, jsonPath, chunkSize))
  {
    if fs.Exists(dirOut) {
      return Fail(FileExistsError);
    }
    var dirArrays := dirOut + ["arrays"];
    fs.FileAboveArrays(dirOut);
    NothingBelow(fs, dirOut);
    ArraysFree(fs.dirs, dirOut);
    outcome := fs.MakeDirs(dirArrays);
    if outcome.Fail? {
      return;
    }
    if !ValidStop(chunkSize) {
      // the first `take` hands `islice` a negative stop, or one above `sys.maxsize`
      return Fail(ValueError);
    }
    var n: nat := chunkSize;
    WriteChunks(fs, dirOut, ItemsAt(doc, jsonPath), n);
    var data := DeleteNode(doc, jsonPath);
    var pathData := dirOut + DataPath;
    assert pathData[..|pathData| - 1] == dirOut;
    fs.WriteJson(pathData, JObject(data));
    var chunkFiles := ChunkFiles(Written(ItemsAt(doc, jsonPath), n));
    InDirUpdate(dirOut, chunkFiles, DataPath, JObject(data));
    UnionUpdate(old(fs.files), InDir(dirOut, chunkFiles), pathData, JObject(data));
    return Pass;
  }

  /** Writing the next chunk file extends the chunk files written so far. */
  lemma FilesStep(before: map<Path, Json>, dirOut: Path, written: seq<seq<Json>>, items: seq<Json>)
    ensures (before + InDir(dirOut, ChunkFiles(written)))[dirOut + ChunkPath(|written| + 1) := JArray(items)]
         == before + InDir(dirOut, ChunkFiles(written + [items]))
  {
    assert (written + [items])[..|written|] == written;
    InDirUpdate(dirOut, ChunkFiles(written), ChunkPath(|written| + 1), JArray(items));
    UnionUpdate(before, InDir(dirOut, ChunkFiles(written)), dirOut + ChunkPath(|written| + 1), JArray(items));
  }

  /** Nothing exists below a path that does not exist. */
  lemma NothingBelow(fs: FileSystem, d: Path)
    requires fs.Valid() && !fs.Exists(d)
    ensures forall p :: |d| <= |p| && p[..|d|] == d ==> p !in fs.dirs && p !in fs.files
  {
    forall p | |d| <= |p| && p[..|d|] == d ensures p !in fs.dirs && p !in fs.files {
      if |p| == |d| {
        assert p == d;
      }
    }
  }

  /**
   * Below a directory `d` where nothing exists yet, making `d/arrays` leaves
   * every chunk path and `d/data.json` free.
   */
  lemma ArraysFree(dirs0: set<Path>, d: Path)
    requires forall p :: |d| <= |p| && p[..|d|] == d ==> p !in dirs0
    ensures d + ["arrays"] in dirs0 + DirsOf(d + ["arrays"])
    ensures forall k :: d + ChunkPath(k) !in dirs0 + DirsOf(d + ["arrays"])
    ensures d + DataPath !in dirs0 + DirsOf(d + ["arrays"])
  {
    assert (d + ["arrays"])[..|d| + 1] == d + ["arrays"];
    forall k ensures d + ChunkPath(k) !in dirs0 + DirsOf(d + ["arrays"]) {
      assert (d + ChunkPath(k))[..|d|] == d;
    }
    assert (d + DataPath)[..|d|] == d;
    assert (d + DataPath)[|d|] != (d + ["arrays"])[|d|];
  }

  // ---------------------------------------------------------------------------
  // What the residual document keeps and loses

  /** The deleted node is gone: following the path through the result finds nothing. */
  lemma {:induction false} RemoveGone(o: Option<Json>, path: seq<string>)
    requires |path| >= 1
    ensures Resolve(Some(JObject(Remove(o, path))), path) == None
    decreases |path|
  {
    var kept := CopyExcept(FieldsOf(o), path[0]);
    if |path| == 1 {
      assert !HasKey(kept, path[0]);
    } else {
      var below := Remove(Child(o, path[0]), path[1..]);
      assert Child(Some(JObject(Remove(o, path))), path[0]) == Some(JObject(below));
      RemoveGone(Child(o, path[0]), path[1..]);
    }
  }

  /** Every other key of the level keeps its value (the last one, for a key given twice). */
  lemma RemoveKeepsSiblings(o: Option<Json>, path: seq<string>)
    requires |path| >= 1
    ensures AsMap(Remove(o, path)) - {path[0]} == AsMap(FieldsOf(o)) - {path[0]}
  {
    var kept := CopyExcept(FieldsOf(o), path[0]);
    CopyExceptAsMap(FieldsOf(o), path[0]);
    assert AsMap(kept) - {path[0]} == AsMap(FieldsOf(o)) - {path[0]};
    if |path| > 1 {
      var v := JObject(Remove(Child(o, path[0]), path[1..]));
      AsMapPut(kept, path[0], v);
      UpdateThenRemove(AsMap(kept), path[0], v);
    }
  }

  lemma UpdateThenRemove(m: map<string, Json>, k: string, v: Json)
    ensures m[k := v] - {k} == m - {k}
  {
  }

  /**
   * No error for a bad path: a missing or non-object intermediate node comes
   * back as `{}`, put under its key at the end of its parent.
   */
  lemma MissingBecomesEmpty(o: Option<Json>, k: string, last: string)
    requires FieldsOf(Child(o, k)) == []
    ensures Lookup(Remove(o, [k, last]), k) == Some(JObject([]))
    ensures AsMap(Remove(o, [k, last])) == AsMap(FieldsOf(o))[k := JObject([])]
  {
    var kept := CopyExcept(FieldsOf(o), k);
    assert [k, last][1..] == [last];
    assert Remove(Child(o, k), [last]) == [];
    assert Remove(o, [k, last]) == Put(kept, k, JObject([]));
    AsMapPut(kept, k, JObject([]));
    CopyExceptAsMap(FieldsOf(o), k);
    RemoveThenUpdate(AsMap(FieldsOf(o)), k, JObject([]));
  }

  lemma RemoveThenUpdate(m: map<string, Json>, k: string, v: Json)
    ensures (m - {k})[k := v] == m[k := v]
  {
  }

  /** For a dot path that does not start with ".", the node at the path is gone from the residual document. */
  lemma ResidualGone(doc: Json, jsonPath: string)
    requires var parts := SplitOn(jsonPath, {'.'}); !(|parts| >= 2 && parts[0] == "")
    ensures Resolve(Some(JObject(Residual(doc, jsonPath))), SplitOn(jsonPath, {'.'})) == None
  {
    RemoveGone(Some(doc), SplitOn(jsonPath, {'.'}));
  }

  /** The output directory holds `data.json` and `arrays/1.json` ... `arrays/{k}.json` for the `k` chunks written, and nothing else. */
  lemma SplitOutputLayout(doc: Json, jsonPath: string, n: nat)
    ensures var out, cs := SplitOutput(doc, jsonPath, n), Written(ItemsAt(doc, jsonPath), n);
      && out[DataPath] == JObject(Residual(doc, jsonPath))
      && (forall p :: p in out <==> p == DataPath || exists i :: 1 <= i <= |cs| && p == ChunkPath(i))
      && (forall i :: 1 <= i <= |cs| ==> out[ChunkPath(i)] == JArray(cs[i - 1]))
  {
    var cs := Written(ItemsAt(doc, jsonPath), n);
    ChunkFilesLayout(cs);
    forall i | 1 <= i <= |cs| ensures ChunkPath(i) != DataPath {
      assert |ChunkPath(i)| != |DataPath|;
    }
  }

  // ---------------------------------------------------------------------------
  // The examples of `delete_node`'s docstring and tests

  lemma DotPath(pieces: seq<string>, jsonPath: string)
    requires |pieces| >= 1 && (forall i :: 0 <= i < |pieces| ==> '.' !in pieces[i])
    requires Join(pieces, '.') == jsonPath
    ensures SplitOn(jsonPath, {'.'}) == pieces
  {
    SplitJoin(pieces, '.');
  }

  /** A dot path without a leading "." deletes structurally from the root. */
  lemma ResidualPlain(doc: Json, jsonPath: string, parts: seq<string>)
    requires SplitOn(jsonPath, {'.'}) == parts && parts[0] != ""
    ensures Residual(doc, jsonPath) == Remove(Some(doc), parts)
  {
  }

  /** One level of `Remove` with a deeper level below it. */
  lemma RemoveStep(o: Option<Json>, path: seq<string>)
    requires |path| >= 2
    ensures Remove(o, path) == Put(CopyExcept(FieldsOf(o), path[0]), path[0], JObject(Remove(Child(o, path[0]), path[1..])))
  {
  }

  /** `{"id": 1, "delete": []}` without "delete" is `{"id": 1}`. */
  lemma ExampleTopLevel(doc: Json, jsonPath: string)
    requires doc == JObject([("id", JNumber(1)), ("delete", JArray([]))]) && jsonPath == "delete"
    ensures Residual(doc, jsonPath) == [("id", JNumber(1))]
  {
    DotPath(["delete"], jsonPath);
    ResidualPlain(doc, jsonPath, ["delete"]);
    CopyExceptPair(("id", JNumber(1)), ("delete", JArray([])), "delete");
  }

  /** Deleting below the first key of a two-key object re-attaches that key after the second. */
  lemma RemoveBelowFirst(x: (string, Json), y: (string, Json), below: seq<string>)
    requires x.0 != y.0 && |below| >= 1
    ensures Remove(Some(JObject([x, y])), [x.0] + below) == Put([y], x.0, JObject(Remove(Some(x.1), below)))
  {
    var o := Some(JObject([x, y]));
    var path := [x.0] + below;
    assert path[0] == x.0 && path[1..] == below;
    assert CopyExcept(FieldsOf(o), x.0) == [y] by {
      CopyExceptPair(x, y, x.0);
    }
    assert Child(o, x.0) == Some(x.1) by {
      LookupPair(x, y, x.0);
    }
    RemoveStep(o, path);
  }

  /** Deleting below the second key of a two-key object keeps the first and re-attaches the second. */
  lemma RemoveBelowSecond(x: (string, Json), y: (string, Json), below: seq<string>)
    requires x.0 != y.0 && |below| >= 1
    ensures Remove(Some(JObject([x, y])), [y.0] + below) == Put([x], y.0, JObject(Remove(Some(y.1), below)))
  {
    var o := Some(JObject([x, y]));
    var path := [y.0] + below;
    assert path[0] == y.0 && path[1..] == below;
    assert CopyExcept(FieldsOf(o), y.0) == [x] by {
      CopyExceptPair(x, y, y.0);
    }
    assert Child(o, y.0) == Some(y.1) by {
      LookupPair(x, y, y.0);
    }
    RemoveStep(o, path);
  }

  /** `{"id": 1, "a": {"delete": []}}` without "a.delete" is `{"id": 1, "a": {}}`. */
  lemma ExampleNested(doc: Json, jsonPath: string)
    requires doc == JObject([("id", JNumber(1)), ("a", JObject([("delete", JArray([]))]))])
    requires jsonPath == "a.delete"
    ensures Residual(doc, jsonPath) == [("id", JNumber(1)), ("a", JObject([]))]
  {
    var a := JObject([("delete", JArray([]))]);
    var id := ("id", JNumber(1));
    assert Residual(doc, jsonPath) == Put([id], "a", JObject(Remove(Some(a), ["delete"]))) by {
      DotPath(["a", "delete"], jsonPath);
      ResidualPlain(doc, jsonPath, ["a", "delete"]);
      RemoveBelowSecond(id, ("a", a), ["delete"]);
      assert ["a"] + ["delete"] == ["a", "delete"];
    }
    assert Remove(Some(a), ["delete"]) == [] by {
      CopyExceptOne(("delete", JArray([])), "delete");
    }
    PutAfter(id, "a", JObject([]));
  }

  /** Deleting "a.b.delete" keeps "a_value" beside "b" and "b_value" beside the deleted array. */
  lemma ExampleTwoLevels(doc: Json, jsonPath: string)
    requires doc == JObject([("id", JNumber(1)), ("a", JObject([
      ("a_value", JNumber(2)),
      ("b", JObject([("delete", JArray([])), ("b_value", JNumber(3))]))]))])
    requires jsonPath == "a.b.delete"
    ensures Residual(doc, jsonPath) == [("id", JNumber(1)), ("a", JObject([
      ("a_value", JNumber(2)),
      ("b", JObject([("b_value", JNumber(3))]))]))]
  {
    var b := JObject([("delete", JArray([])), ("b_value", JNumber(3))]);
    var a := JObject([("a_value", JNumber(2)), ("b", b)]);
    var id := ("id", JNumber(1));
    var ra := [("a_value", JNumber(2)), ("b", JObject([("b_value", JNumber(3))]))];
    assert Residual(doc, jsonPath) == Put([id], "a", JObject(Remove(Some(a), ["b", "delete"]))) by {
      DotPath(["a", "b", "delete"], jsonPath);
      ResidualPlain(doc, jsonPath, ["a", "b", "delete"]);
      RemoveBelowSecond(id, ("a", a), ["b", "delete"]);
      assert ["a"] + ["b", "delete"] == ["a", "b", "delete"];
    }
    TwoLevelsInner(a, b, ra);
    PutAfter(id, "a", JObject(ra));
  }

  lemma TwoLevelsInner(a: Json, b: Json, ra: Fields)
    requires b == JObject([("delete", JArray([])), ("b_value", JNumber(3))])
    requires a == JObject([("a_value", JNumber(2)), ("b", b)])
    requires ra == [("a_value", JNumber(2)), ("b", JObject([("b_value", JNumber(3))]))]
    ensures Remove(Some(a), ["b", "delete"]) == ra
  {
    RemoveBelowPair(("a_value", JNumber(2)), "b", ("delete", JArray([])), ("b_value", JNumber(3)));
  }

  /** Deleting the first key of the object held under the second key of a two-key object. */
  lemma RemoveBelowPair(x: (string, Json), k: string, d: (string, Json), e: (string, Json))
    requires x.0 != k && d.0 != e.0
    ensures Remove(Some(JObject([x, (k, JObject([d, e]))])), [k, d.0]) == [x, (k, JObject([e]))]
  {
    assert Remove(Some(JObject([d, e])), [d.0]) == [e] by {
      CopyExceptPair(d, e, d.0);
    }
    assert [k] + [d.0] == [k, d.0];
    RemoveBelowSecond(x, (k, JObject([d, e])), [d.0]);
    PutAfter(x, k, JObject([e]));
  }

  /**
   * The dict a level's key is re-attached to gets that key last: with "a"
   * first in the input, the output lists it after "id". The two orders are
   * still equal as dicts.
   */
  lemma ExampleReorders(doc: Json, jsonPath: string)
    requires doc == JObject([("a", JObject([("delete", JArray([]))])), ("id", JNumber(1))]) && jsonPath == "a.delete"
    ensures Residual(doc, jsonPath) == [("id", JNumber(1)), ("a", JObject([]))]
    ensures AsMap(Residual(doc, jsonPath)) == AsMap([("a", JObject([])), ("id", JNumber(1))])
  {
    var a := JObject([("delete", JArray([]))]);
    var id := ("id", JNumber(1));
    assert Residual(doc, jsonPath) == Put([id], "a", JObject(Remove(Some(a), ["delete"]))) by {
      DotPath(["a", "delete"], jsonPath);
      ResidualPlain(doc, jsonPath, ["a", "delete"]);
      RemoveBelowFirst(("a", a), id, ["delete"]);
      assert ["a"] + ["delete"] == ["a", "delete"];
    }
    assert Remove(Some(a), ["delete"]) == [] by {
      CopyExceptOne(("delete", JArray([])), "delete");
    }
    PutAfter(id, "a", JObject([]));
    AsMapSwap(id, ("a", JObject([])));
  }

  /** A dot path starting with "." and at least three segments. */
  lemma ResidualLeading(doc: Json, jsonPath: string, parts: seq<string>)
    requires SplitOn(jsonPath, {'.'}) == parts && |parts| >= 3 && parts[0] == ""
    ensures Residual(doc, jsonPath)
         == Put(CopyExcept(FieldsOf(Some(doc)), parts[1]), parts[1], JObject(Remove(Resolve(Some(doc), parts[..2]), parts[2..])))
  {
  }

  /**
   * A dot path starting with ".": for ".a.del" the second level streams the
   * root again, so the root's "a" is replaced by the object at `[""]["a"]`
   * without "del", while `[""]["a"]` itself is left whole.
   */
  lemma ExampleLeadingDot(doc: Json, jsonPath: string, xs: seq<Json>)
    requires doc == JObject([("", JObject([("a", JObject([("x", JNumber(1)), ("del", JArray(xs))]))])), ("a", JNumber(5))])
    requires jsonPath == ".a.del"
    ensures Residual(doc, jsonPath) == [
      ("", JObject([("a", JObject([("x", JNumber(1)), ("del", JArray(xs))]))])),
      ("a", JObject([("x", JNumber(1))]))]
  {
    var inner := JObject([("x", JNumber(1)), ("del", JArray(xs))]);
    var top := JObject([("a", inner)]);
    LeadingDotShape(doc, jsonPath);
    CopyExceptPair(("", top), ("a", JNumber(5)), "a");
    LeadingDotInner(doc, top, inner, xs);
    PutAfter(("", top), "a", JObject([("x", JNumber(1))]));
  }

  /**
   * For the same ".a.del": the array at `[""]["a"]["del"]` is the one that is
   * chunked, yet `data.json` still holds it, while the structural deletion
   * along the same segments removes it.
   */
  lemma ExampleLeadingDotKept(doc: Json, jsonPath: string, xs: seq<Json>)
    requires doc == JObject([("", JObject([("a", JObject([("x", JNumber(1)), ("del", JArray(xs))]))])), ("a", JNumber(5))])
    requires jsonPath == ".a.del"
    ensures SplitOn(jsonPath, {'.'}) == ["", "a", "del"]
    ensures ItemsAt(doc, jsonPath) == xs
    ensures Resolve(Some(JObject(Residual(doc, jsonPath))), ["", "a", "del"]) == Some(JArray(xs))
    ensures Resolve(Some(JObject(Remove(Some(doc), ["", "a", "del"]))), ["", "a", "del"]) == None
  {
    LeadingThreeParts(jsonPath, "a", "del");
    assert ItemsAt(doc, jsonPath) == xs by {
      ResolveThree("", "a", ("x", JNumber(1)), "del", JArray(xs), ("a", JNumber(5)));
    }
    assert Resolve(Some(JObject(Residual(doc, jsonPath))), ["", "a", "del"]) == Some(JArray(xs)) by {
      ExampleLeadingDot(doc, jsonPath, xs);
      ResolveThree("", "a", ("x", JNumber(1)), "del", JArray(xs), ("a", JObject([("x", JNumber(1))])));
    }
    RemoveGone(Some(doc), ["", "a", "del"]);
  }

  /** Following keys `p`, `q`, `r` into nested objects whose wanted entry is the first, first and second. */
  lemma ResolveThree(p: string, q: string, a: (string, Json), r: string, v: Json, other: (string, Json))
    requires p != other.0 && a.0 != r
    ensures Resolve(Some(JObject([(p, JObject([(q, JObject([a, (r, v)]))])), other])), [p, q, r]) == Some(v)
  {
    var o := Some(JObject([(p, JObject([(q, JObject([a, (r, v)]))])), other]));
    ResolveSnoc(o, [p, q], r);
    assert [p, q] + [r] == [p, q, r];
    ResolveFirstTwo(p, q, JObject([a, (r, v)]), other);
    LookupPair(a, (r, v), r);
  }

  lemma LeadingDotShape(doc: Json, jsonPath: string)
    requires jsonPath == ".a.del"
    ensures Residual(doc, jsonPath)
         == Put(CopyExcept(FieldsOf(Some(doc)), "a"), "a", JObject(Remove(Resolve(Some(doc), ["", "a"]), ["del"])))
  {
    assert jsonPath == "." + "a" + "." + "del";
    ResidualLeadingThree(doc, jsonPath, "a", "del");
  }

  lemma LeadingThreeParts(jsonPath: string, x: string, y: string)
    requires '.' !in x && '.' !in y && jsonPath == "." + x + "." + y
    ensures SplitOn(jsonPath, {'.'}) == ["", x, y]
  {
    JoinThree("", x, y, '.');
    assert "" + ['.'] + x + ['.'] + y == jsonPath;
    DotPath(["", x, y], jsonPath);
  }

  /** A dot path ".x.y": the root without `x`, and `x` re-attached as `[""][x]` without `y`. */
  lemma ResidualLeadingThree(doc: Json, jsonPath: string, x: string, y: string)
    requires '.' !in x && '.' !in y && jsonPath == "." + x + "." + y
    ensures Residual(doc, jsonPath)
         == Put(CopyExcept(FieldsOf(Some(doc)), x), x, JObject(Remove(Resolve(Some(doc), ["", x]), [y])))
  {
    var parts := ["", x, y];
    LeadingThreeParts(jsonPath, x, y);
    ResidualLeading(doc, jsonPath, parts);
    assert parts[1] == x && parts[..2] == ["", x] && parts[2..] == [y];
  }

  lemma LeadingDotInner(doc: Json, top: Json, inner: Json, xs: seq<Json>)
    requires inner == JObject([("x", JNumber(1)), ("del", JArray(xs))])
    requires top == JObject([("a", inner)]) && doc == JObject([("", top), ("a", JNumber(5))])
    ensures Remove(Resolve(Some(doc), ["", "a"]), ["del"]) == [("x", JNumber(1))]
  {
    ResolveFirstTwo("", "a", inner, ("a", JNumber(5)));
    assert Remove(Some(inner), ["del"]) == [("x", JNumber(1))] by {
      CopyExceptPair(("x", JNumber(1)), ("del", JArray(xs)), "del");
    }
  }

  /** Following keys `p`, `q` into the first entry of a two-key object. */
  lemma ResolveFirstTwo(p: string, q: string, inner: Json, other: (string, Json))
    requires p != other.0
    ensures Resolve(Some(JObject([(p, JObject([(q, inner)])), other])), [p, q]) == Some(inner)
  {
    var o := Some(JObject([(p, JObject([(q, inner)])), other]));
    assert Child(o, p) == Some(JObject([(q, inner)])) by {
      LookupPair((p, JObject([(q, inner)])), other, p);
    }
    assert Child(Child(o, p), q) == Some(inner);
    assert [p, q][0] == p && [p, q][1..] == [q] && [q][0] == q && [q][1..] == [];
    assert Resolve(o, [p, q]) == Resolve(Child(o, p), [q]);
    assert Resolve(Child(o, p), [q]) == Resolve(Child(Child(o, p), q), []);
  }
}
