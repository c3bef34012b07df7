/** The resume cache of the category crawler: the product maps recorded per
    category path, their copy keyed by the `">"`-joined path that is written
    to the items cache file, the list of completed paths, and the recursive
    walk over the category pages that fills and consults them. The browser
    is replaced by a finite tree of pages: following a link yields the page
    it leads to. */
module ResumeCache {
  import opened Common
  import opened Strings

  /** A category path, from the top-level category down. */
  type Path = seq<string>

  /** A value in a products map: a product page link, or the products map
      of a subcategory. */
  datatype Entry = Link(href: string) | Group(entries: map<string, Entry>)

  /** A products map: product title (or subcategory name) to entry. */
  type Products = map<string, Entry>

  /** A Python dict as its (key, value) pairs in insertion order. */
  type Dict<K, V> = seq<(K, V)>

  /** An entry of the completed list: a list read back from the completed
      cache file, or a tuple appended during this run. */
  datatype CompletedEntry = Loaded(path: Path) | Appended(path: Path)

  /** The `cache` dict: "items", "serializable_items" and "completed". */
  datatype CacheState = CacheState(items: Dict<Path, Products>, serializable: Dict<string, Products>,
                                   completed: seq<CompletedEntry>)

  // ---------------------------------------------------------------------
  // Insertion-ordered dicts

  predicate DistinctKeys<K(==), V>(d: Dict<K, V>) {
    forall i, j :: 0 <= i < j < |d| ==> d[i].0 != d[j].0
  }

  /** `d.get(k)`. */
  function Get<K(==), V>(d: Dict<K, V>, k: K): Option<V>
    decreases |d|
  {
    if d == [] then None
    else if d[0].0 == k then Some(d[0].1)
    else Get(d[1..], k)
  }

  /** `d[k] = v`: an existing key keeps its place, a new key goes last. */
  function Put<K(==), V>(d: Dict<K, V>, k: K, v: V): Dict<K, V>
    decreases |d|
  {
    if d == [] then [(k, v)]
    else if d[0].0 == k then [(k, v)] + d[1..]
    else [d[0]] + Put(d[1..], k, v)
  }

  /** `del d[k]` for a key that is present. */
  function Del<K(==), V>(d: Dict<K, V>, k: K): Dict<K, V>
    decreases |d|
  {
    if d == [] then []
    else if d[0].0 == k then d[1..]
    else [d[0]] + Del(d[1..], k)
  }

  /** A lookup finds the value of the key's pair, and nothing for a key
      no pair has. */
  lemma {:induction false} GetFinds<K, V>(d: Dict<K, V>, k: K)
    requires DistinctKeys(d)
    ensures Get(d, k).None? <==> forall i :: 0 <= i < |d| ==> d[i].0 != k
    ensures forall i :: 0 <= i < |d| && d[i].0 == k ==> Get(d, k) == Some(d[i].1)
    decreases |d|
  {
    if d != [] {
      GetFinds(d[1..], k);
      assert forall i :: 1 <= i < |d| ==> d[1..][i - 1] == d[i];
    }
  }

  /** After `d[k] = v` the key holds `v` and every other key is as before;
      the keys stay distinct. */
  lemma {:induction false} PutEffect<K, V>(d: Dict<K, V>, k: K, v: V)
    requires DistinctKeys(d)
    ensures DistinctKeys(Put(d, k, v))
    ensures forall k' :: Get(Put(d, k, v), k') == if k' == k then Some(v) else Get(d, k')
    decreases |d|
  {
    if d != [] && d[0].0 != k {
      PutEffect(d[1..], k, v);
      var rest := Put(d[1..], k, v);
      assert Put(d, k, v) == [d[0]] + rest;
      GetFinds(d[1..], d[0].0);
      assert Get(rest, d[0].0).None?;
      GetNone(rest, d[0].0);
    } else if d != [] {
      assert Put(d, k, v) == [(k, v)] + d[1..];
      forall k' | k' != k ensures Get(d[1..], k') == Get(d, k') {
      }
    }
  }

  lemma {:induction false} GetNone<K, V>(d: Dict<K, V>, k: K)
    requires Get(d, k).None?
    ensures forall i :: 0 <= i < |d| ==> d[i].0 != k
    decreases |d|
  {
    if d != [] {
      GetNone(d[1..], k);
      assert forall i :: 1 <= i < |d| ==> d[1..][i - 1] == d[i];
    }
  }

  /** After `del d[k]` the key is gone and every other key is as before;
      the keys stay distinct. */
  lemma {:induction false} DelEffect<K, V>(d: Dict<K, V>, k: K)
    requires DistinctKeys(d)
    ensures DistinctKeys(Del(d, k))
    ensures forall k' :: Get(Del(d, k), k') == if k' == k then None else Get(d, k')
    decreases |d|
  {
    if d != [] {
      assert forall i :: 1 <= i < |d| ==> d[1..][i - 1] == d[i];
      if d[0].0 == k {
        GetFinds(d[1..], k);
      } else {
        DelEffect(d[1..], k);
        var rest := Del(d[1..], k);
        GetFinds(d[1..], d[0].0);
        GetNone(rest, d[0].0);
      }
    }
  }

  // ---------------------------------------------------------------------
  // Cache keys

  /** A path `">".join` and `split(">")` agree on: at least one name, and
      no name containing the separator. */
  predicate PlainPath(p: Path) {
    |p| >= 1 && forall i :: 0 <= i < |p| ==> '>' !in p[i]
  }

  /** The key of a path in the serializable copy. */
  function EncodeKey(p: Path): string {
    Join(p, '>')
  }

  /** The path a key of the items cache file is read back as. */
  function DecodeKey(k: string): Path {
    Split(k, '>')
  }

  /** The serializable copy of an items dict: the same values, in the same
      order, under the joined keys. */
  function EncodeItems(items: Dict<Path, Products>): (ser: Dict<string, Products>)
    ensures |ser| == |items|
  {
    seq(|items|, i requires 0 <= i < |items| => (EncodeKey(items[i].0), items[i].1))
  }

  /** The items dict `load_cache` builds from the file's object. */
  function DecodeItems(ser: Dict<string, Products>): (items: Dict<Path, Products>)
    ensures |items| == |ser|
  {
    seq(|ser|, i requires 0 <= i < |ser| => (DecodeKey(ser[i].0), ser[i].1))
  }

  /** Two plain paths with the same key are the same path. */
  lemma EncodeKeyInjective(p: Path, q: Path)
    requires PlainPath(p) && PlainPath(q) && EncodeKey(p) == EncodeKey(q)
    ensures p == q
  {
    SplitJoin(p, '>');
    SplitJoin(q, '>');
  }

  /** Re-encoding what was decoded gives the file's object back. */
  lemma EncodeDecode(ser: Dict<string, Products>)
    ensures EncodeItems(DecodeItems(ser)) == ser
  {
    forall i | 0 <= i < |ser| ensures EncodeItems(DecodeItems(ser))[i] == ser[i] {
      JoinSplit(ser[i].0, '>');
    }
  }

  /** Decoding what was encoded gives the items back when every key is a
      plain path. */
  lemma DecodeEncode(items: Dict<Path, Products>)
    requires forall e :: e in items ==> PlainPath(e.0)
    ensures DecodeItems(EncodeItems(items)) == items
  {
    forall i | 0 <= i < |items| ensures DecodeItems(EncodeItems(items))[i] == items[i] {
      assert items[i] in items;
      SplitJoin(items[i].0, '>');
    }
  }

  /** The empty path is written under the key "" and read back as the path
      holding one empty name. */
  lemma EmptyPathReloadsAsEmptyName(v: Products)
    ensures EncodeItems([([], v)]) == [("", v)]
    ensures DecodeItems(EncodeItems([([], v)])) == [([""], v)]
  {
    assert EncodeKey([]) == "";
    assert DecodeKey("") == [""];
  }

  /** Distinct keys in the file give distinct paths: the comprehension in
      `load_cache` never merges two entries. */
  lemma DecodeDistinct(ser: Dict<string, Products>)
    requires DistinctKeys(ser)
    ensures DistinctKeys(DecodeItems(ser))
  {
    var items := DecodeItems(ser);
    forall i, j | 0 <= i < j < |items| ensures items[i].0 != items[j].0 {
      if items[i].0 == items[j].0 {
        SplitInjective(ser[i].0, ser[j].0, '>');
      }
    }
  }

  /** Plain distinct paths have distinct keys. */
  lemma EncodeDistinct(items: Dict<Path, Products>)
    requires DistinctKeys(items) && forall e :: e in items ==> PlainPath(e.0)
    ensures DistinctKeys(EncodeItems(items))
  {
    forall i, j | 0 <= i < j < |items| ensures EncodeItems(items)[i].0 != EncodeItems(items)[j].0 {
      assert items[i] in items && items[j] in items;
      if EncodeKey(items[i].0) == EncodeKey(items[j].0) {
        EncodeKeyInjective(items[i].0, items[j].0);
      }
    }
  }

  // ---------------------------------------------------------------------
  // The cache state

  /** The two items dicts agree: the serializable copy is the encoding of
      the items dict and no two of its keys coincide. */
  predicate Synced(st: CacheState) {
    st.serializable == EncodeItems(st.items) && DistinctKeys(st.serializable)
  }

  /** Synced, and every cached path is plain. */
  predicate WellFormed(st: CacheState) {
    Synced(st) && forall e :: e in st.items ==> PlainPath(e.0)
  }

  /** `list(path) in cache["completed"]`: only a list read back from the
      file equals the list of the path. */
  predicate IsCompleted(st: CacheState, path: Path) {
    Loaded(path) in st.completed
  }

  /** The paths the completed cache file holds after a write of the
      completed list (tuples are written as lists). */
  function CompletedPaths(completed: seq<CompletedEntry>): (paths: seq<Path>)
    ensures |paths| == |completed|
    ensures forall i :: 0 <= i < |completed| ==> paths[i] == completed[i].path
  {
    seq(|completed|, i requires 0 <= i < |completed| => completed[i].path)
  }

  /** `load_cache()` from the two files' contents, `None` for a file that
      is missing or empty. */
  function LoadOn(itemsFile: Option<Dict<string, Products>>, completedFile: Option<seq<Path>>): CacheState {
    var ser := if itemsFile.Some? then itemsFile.value else [];
    var done := if completedFile.Some? then completedFile.value else [];
    CacheState(DecodeItems(ser), ser, seq(|done|, i requires 0 <= i < |done| => Loaded(done[i])))
  }

  /** A loaded cache is synced, and a path counts as completed exactly when
      the completed file lists it. */
  lemma LoadSynced(itemsFile: Option<Dict<string, Products>>, completedFile: Option<seq<Path>>)
    requires itemsFile.Some? ==> DistinctKeys(itemsFile.value)
    ensures Synced(LoadOn(itemsFile, completedFile))
    ensures forall p :: IsCompleted(LoadOn(itemsFile, completedFile), p) <==> completedFile.Some? && p in completedFile.value
  {
    var st := LoadOn(itemsFile, completedFile);
    EncodeDecode(st.serializable);
    forall p ensures IsCompleted(st, p) <==> completedFile.Some? && p in completedFile.value {
      if completedFile.Some? && p in completedFile.value {
        var i :| 0 <= i < |completedFile.value| && completedFile.value[i] == p;
        assert st.completed[i] == Loaded(p);
      }
    }
  }

  /** Resuming from the files a well-formed cache was written to restores
      its items, and every path recorded as completed, whether read back
      or appended during the run, now counts as completed. */
  lemma ReloadRestores(st: CacheState)
    requires WellFormed(st)
    ensures var st' := LoadOn(Some(st.serializable), Some(CompletedPaths(st.completed)));
      && st'.items == st.items && st'.serializable == st.serializable
      && forall e :: e in st.completed ==> IsCompleted(st', e.path)
  {
    DecodeEncode(st.items);
    var st' := LoadOn(Some(st.serializable), Some(CompletedPaths(st.completed)));
    forall e | e in st.completed ensures IsCompleted(st', e.path) {
      var i :| 0 <= i < |st.completed| && st.completed[i] == e;
      assert st'.completed[i] == Loaded(e.path);
    }
  }

  // ---------------------------------------------------------------------
  // Writes

  /** `write_item_cache(cache, products, path)` on the dicts. */
  function WriteItemOn(st: CacheState, products: Products, path: Path): CacheState {
    st.(items := Put(st.items, path, products), serializable := Put(st.serializable, EncodeKey(path), products))
  }

  /** The effective `write_completed_cache(cache, path)`: the path is
      appended whatever it is, and being a tuple it never makes a path
      count as completed during the run. */
  function WriteCompletedOn(st: CacheState, path: Path): (st': CacheState)
    ensures |st'.completed| == |st.completed| + 1 && st'.completed[..|st.completed|] == st.completed
    ensures st'.completed[|st.completed|].path == path
    ensures forall p :: IsCompleted(st', p) <==> IsCompleted(st, p)
    ensures st'.items == st.items && st'.serializable == st.serializable
  {
    st.(completed := st.completed + [Appended(path)])
  }

  /** Keys of `d[k] = v` are the old keys and `k`. */
  lemma {:induction false} PutKeys<K, V>(d: Dict<K, V>, k: K, v: V)
    ensures forall e :: e in Put(d, k, v) ==> e == (k, v) || e in d
    decreases |d|
  {
    if d != [] && d[0].0 != k {
      PutKeys(d[1..], k, v);
      assert Put(d, k, v) == [d[0]] + Put(d[1..], k, v);
    }
  }

  lemma EncodeCons(x: (Path, Products), rest: Dict<Path, Products>)
    ensures EncodeItems([x] + rest) == [(EncodeKey(x.0), x.1)] + EncodeItems(rest)
  {
    assert forall i :: 1 <= i < |rest| + 1 ==> ([x] + rest)[i] == rest[i - 1];
  }

  /** Encoding commutes with `d[path] = v` when no other key encodes like
      `path`. */
  lemma {:induction false} EncodePut(items: Dict<Path, Products>, path: Path, v: Products)
    requires PlainPath(path) && forall e :: e in items ==> PlainPath(e.0)
    ensures EncodeItems(Put(items, path, v)) == Put(EncodeItems(items), EncodeKey(path), v)
    decreases |items|
  {
    if items != [] {
      var x, rest := items[0], items[1..];
      assert items == [x] + rest;
      assert x in items;
      EncodeCons(x, rest);
      if x.0 == path {
        assert Put(items, path, v) == [(path, v)] + rest;
        EncodeCons((path, v), rest);
      } else {
        assert EncodeKey(x.0) != EncodeKey(path) by {
          if EncodeKey(x.0) == EncodeKey(path) {
            EncodeKeyInjective(x.0, path);
          }
        }
        assert forall e :: e in rest ==> e in items;
        EncodePut(rest, path, v);
        assert Put(items, path, v) == [x] + Put(rest, path, v);
        EncodeCons(x, Put(rest, path, v));
      }
    }
  }

  /** Writing a plain path keeps the cache well formed, stores the products
      under the path in both dicts and leaves every other path as it was. */
  lemma WriteItemEffect(st: CacheState, products: Products, path: Path)
    requires WellFormed(st) && PlainPath(path)
    ensures var st' := WriteItemOn(st, products, path);
      && WellFormed(st')
      && Get(st'.items, path) == Some(products)
      && Get(st'.serializable, EncodeKey(path)) == Some(products)
      && (forall k :: k != path ==> Get(st'.items, k) == Get(st.items, k))
      && st'.completed == st.completed
  {
    var st' := WriteItemOn(st, products, path);
    EncodePut(st.items, path, products);
    PutEffect(st.serializable, EncodeKey(path), products);
    PutKeys(st.items, path, products);
    assert DistinctKeys(st.items) by {
      forall i, j | 0 <= i < j < |st.items| ensures st.items[i].0 != st.items[j].0 {
        assert st.serializable[i].0 != st.serializable[j].0;
      }
    }
    PutEffect(st.items, path, products);
  }

  /** A synced cache has distinct paths. */
  lemma SyncedDistinct(st: CacheState)
    requires Synced(st)
    ensures DistinctKeys(st.items)
  {
    forall i, j | 0 <= i < j < |st.items| ensures st.items[i].0 != st.items[j].0 {
      assert st.serializable[i].0 != st.serializable[j].0;
    }
  }

  // ---------------------------------------------------------------------
  // Rolling subcategories up into their parent

  /** `key[:-1]`. */
  function Parent(key: Path): Path {
    if key == [] then [] else key[..|key| - 1]
  }

  /** The items dict without the direct children of `path`, in order. */
  function RemoveChildren(d: Dict<Path, Products>, path: Path): Dict<Path, Products>
    decreases |d|
  {
    if d == [] then []
    else (if Parent(d[0].0) == path then [] else [d[0]]) + RemoveChildren(d[1..], path)
  }

  /** The products maps of the direct children of `path`, merged in dict
      order with `update`, so a later child wins on a shared title. */
  function MergeChildren(d: Dict<Path, Products>, path: Path): Products
    decreases |d|
  {
    if d == [] then map[]
    else
      var merged := MergeChildren(d[..|d| - 1], path);
      if Parent(d[|d| - 1].0) == path then merged + d[|d| - 1].1 else merged
  }

  /** The loop of `cache_subcategories_complete` from the `i`-th pair of the
      snapshot `list(cache["items"].items())` on: each direct child's
      products are merged in and its key deleted from both dicts; a key
      missing from the serializable copy raises KeyError after the items
      entry is gone. */
  function RollUpLoop(snapshot: Dict<Path, Products>, path: Path, i: nat, st: CacheState, merged: Products)
    : (CacheState, Result<Products>)
    requires i <= |snapshot|
    decreases |snapshot| - i
  {
    if i == |snapshot| then (st, Ok(merged))
    else
      var key := snapshot[i].0;
      if Parent(key) != path then RollUpLoop(snapshot, path, i + 1, st, merged)
      else
        var items := Del(st.items, key);
        if Get(st.serializable, EncodeKey(key)).None? then (st.(items := items), Err(KeyError(EncodeKey(key))))
        else RollUpLoop(snapshot, path, i + 1, st.(items := items, serializable := Del(st.serializable, EncodeKey(key))),
                        merged + snapshot[i].1)
  }

  /** `cache_subcategories_complete(cache, path)` on the dicts: nothing for
      the empty path; otherwise the loop, then the merged map stored under
      `path` in both dicts. */
  function RollUpOn(st: CacheState, path: Path): (c: (CacheState, Result<()>))
    ensures path == [] ==> c == (st, Ok(()))
    ensures c.0.completed == st.completed
  {
    if path == [] then (st, Ok(()))
    else
      var c := RollUpLoop(st.items, path, 0, st, map[]);
      RollUpLoopCompleted(st.items, path, 0, st, map[]);
      if c.1.Err? then (c.0, Err(c.1.error))
      else (c.0.(items := Put(c.0.items, path, c.1.value), serializable := Put(c.0.serializable, EncodeKey(path), c.1.value)), Ok(()))
  }

  lemma {:induction false} RollUpLoopCompleted(snapshot: Dict<Path, Products>, path: Path, i: nat, st: CacheState, merged: Products)
    requires i <= |snapshot|
    ensures RollUpLoop(snapshot, path, i, st, merged).0.completed == st.completed
    decreases |snapshot| - i
  {
    if i < |snapshot| {
      var key := snapshot[i].0;
      var items := Del(st.items, key);
      RollUpLoopCompleted(snapshot, path, i + 1, st, merged);
      RollUpLoopCompleted(snapshot, path, i + 1, st.(items := items, serializable := Del(st.serializable, EncodeKey(key))),
                          merged + snapshot[i].1);
    }
  }

  lemma {:induction false} RemoveChildrenAppend(a: Dict<Path, Products>, x: (Path, Products), path: Path)
    ensures RemoveChildren(a + [x], path) == RemoveChildren(a, path) + (if Parent(x.0) == path then [] else [x])
    decreases |a|
  {
    if a != [] {
      assert (a + [x])[1..] == a[1..] + [x];
      RemoveChildrenAppend(a[1..], x, path);
    } else {
      assert RemoveChildren([x], path) == (if Parent(x.0) == path then [] else [x]) + RemoveChildren([], path);
    }
  }

  /** What is kept is an entry of the dict and not a direct child. */
  lemma {:induction false} RemoveChildrenSubset(d: Dict<Path, Products>, path: Path)
    ensures forall e :: e in RemoveChildren(d, path) ==> e in d && Parent(e.0) != path
    decreases |d|
  {
    if d != [] {
      RemoveChildrenSubset(d[1..], path);
    }
  }

  lemma DistinctTail<K, V>(d: Dict<K, V>)
    requires DistinctKeys(d) && d != []
    ensures DistinctKeys(d[1..])
    ensures forall e :: e in d[1..] ==> e.0 != d[0].0
  {
    forall i, j | 0 <= i < j < |d[1..]| ensures d[1..][i].0 != d[1..][j].0 {
      assert d[1..][i] == d[i + 1] && d[1..][j] == d[j + 1];
    }
    forall e | e in d[1..] ensures e.0 != d[0].0 {
      var i :| 0 <= i < |d[1..]| && d[1..][i] == e;
      assert d[i + 1] == e;
    }
  }

  lemma DistinctCons<K, V>(x: (K, V), r: Dict<K, V>)
    requires DistinctKeys(r) && forall e :: e in r ==> e.0 != x.0
    ensures DistinctKeys([x] + r)
  {
    forall i, j | 0 <= i < j < |[x] + r| ensures ([x] + r)[i].0 != ([x] + r)[j].0 {
      if i == 0 {
        assert ([x] + r)[j] == r[j - 1];
        assert r[j - 1] in r;
      } else {
        assert ([x] + r)[i] == r[i - 1] && ([x] + r)[j] == r[j - 1];
      }
    }
  }

  /** Removing children keeps the keys distinct and answers lookups of
      children with nothing and of other keys as before. */
  lemma {:induction false} RemoveChildrenGet(d: Dict<Path, Products>, path: Path, k: Path)
    requires DistinctKeys(d)
    ensures DistinctKeys(RemoveChildren(d, path))
    ensures Get(RemoveChildren(d, path), k) == if Parent(k) == path then None else Get(d, k)
    decreases |d|
  {
    if d != [] {
      var rest := RemoveChildren(d[1..], path);
      DistinctTail(d);
      RemoveChildrenGet(d[1..], path, k);
      if Parent(d[0].0) != path {
        assert RemoveChildren(d, path) == [d[0]] + rest;
        RemoveChildrenSubset(d[1..], path);
        DistinctCons(d[0], rest);
        assert ([d[0]] + rest)[1..] == rest;
      } else {
        assert RemoveChildren(d, path) == rest;
      }
    }
  }

  lemma {:induction false} GetAfter<K, V>(a: Dict<K, V>, x: (K, V), b: Dict<K, V>)
    requires forall e :: e in a ==> e.0 != x.0
    ensures Get(a + [x] + b, x.0) == Some(x.1)
    decreases |a|
  {
    if a != [] {
      assert a[0] in a;
      assert (a + [x] + b)[1..] == a[1..] + [x] + b;
      GetAfter(a[1..], x, b);
    }
  }

  lemma {:induction false} DelAfter<K, V>(a: Dict<K, V>, x: (K, V), b: Dict<K, V>)
    requires forall e :: e in a ==> e.0 != x.0
    ensures Del(a + [x] + b, x.0) == a + b
    decreases |a|
  {
    if a == [] {
      assert ([x] + b)[1..] == b;
    } else {
      assert a[0] in a;
      assert (a + [x] + b)[1..] == a[1..] + [x] + b;
      DelAfter(a[1..], x, b);
    }
  }

  lemma EncodeAppend(a: Dict<Path, Products>, b: Dict<Path, Products>)
    ensures EncodeItems(a + b) == EncodeItems(a) + EncodeItems(b)
  {
  }

  /** Every kept entry's key, and its encoding, differ from those of the
      snapshot's `i`-th entry. */
  lemma KeptBefore(snapshot: Dict<Path, Products>, path: Path, i: nat)
    requires i < |snapshot| && DistinctKeys(EncodeItems(snapshot))
    ensures forall e :: e in RemoveChildren(snapshot[..i], path) ==> e.0 != snapshot[i].0
    ensures forall e :: e in EncodeItems(RemoveChildren(snapshot[..i], path)) ==> e.0 != EncodeKey(snapshot[i].0)
  {
    var r := RemoveChildren(snapshot[..i], path);
    RemoveChildrenSubset(snapshot[..i], path);
    forall e | e in r ensures EncodeKey(e.0) != EncodeKey(snapshot[i].0) {
      var j :| 0 <= j < i && snapshot[..i][j] == e;
      assert EncodeItems(snapshot)[j].0 != EncodeItems(snapshot)[i].0;
    }
    forall e | e in EncodeItems(r) ensures e.0 != EncodeKey(snapshot[i].0) {
      var j :| 0 <= j < |r| && EncodeItems(r)[j] == e;
      assert r[j] in r;
    }
  }

  /** One child step of the loop on the items dict: the key deleted is
      the snapshot's `i`-th. */
  lemma ChildItems(snapshot: Dict<Path, Products>, path: Path, i: nat)
    requires i < |snapshot| && DistinctKeys(EncodeItems(snapshot)) && Parent(snapshot[i].0) == path
    ensures Del(RemoveChildren(snapshot[..i], path) + snapshot[i..], snapshot[i].0)
      == RemoveChildren(snapshot[..i + 1], path) + snapshot[i + 1..]
  {
    var x, r, post := snapshot[i], RemoveChildren(snapshot[..i], path), snapshot[i + 1..];
    assert snapshot[i..] == [x] + post;
    assert r + snapshot[i..] == r + [x] + post;
    assert snapshot[..i + 1] == snapshot[..i] + [x];
    RemoveChildrenAppend(snapshot[..i], x, path);
    assert RemoveChildren(snapshot[..i + 1], path) == r;
    KeptBefore(snapshot, path, i);
    DelAfter(r, x, post);
  }

  /** Encoding around one pair. */
  lemma EncodeAround(r: Dict<Path, Products>, x: (Path, Products), post: Dict<Path, Products>)
    ensures EncodeItems(r + [x] + post) == EncodeItems(r) + [(EncodeKey(x.0), x.1)] + EncodeItems(post)
    ensures EncodeItems(r + post) == EncodeItems(r) + EncodeItems(post)
  {
    EncodeAppend(r + [x], post);
    EncodeAppend(r, [x]);
    EncodeAppend(r, post);
    assert EncodeItems([x]) == [(EncodeKey(x.0), x.1)];
  }

  /** One child step of the loop on the serializable dict: the encoded key
      is present, and deleting it keeps the dict the encoding of the items. */
  lemma ChildEncoded(snapshot: Dict<Path, Products>, path: Path, i: nat)
    requires i < |snapshot| && DistinctKeys(EncodeItems(snapshot)) && Parent(snapshot[i].0) == path
    ensures var ser := EncodeItems(RemoveChildren(snapshot[..i], path) + snapshot[i..]);
      && Get(ser, EncodeKey(snapshot[i].0)).Some?
      && Del(ser, EncodeKey(snapshot[i].0)) == EncodeItems(RemoveChildren(snapshot[..i + 1], path) + snapshot[i + 1..])
  {
    var x, r, post := snapshot[i], RemoveChildren(snapshot[..i], path), snapshot[i + 1..];
    var ex := (EncodeKey(x.0), x.1);
    assert snapshot[i..] == [x] + post;
    assert r + snapshot[i..] == r + [x] + post;
    EncodeAround(r, x, post);
    KeptBefore(snapshot, path, i);
    DelAfter(EncodeItems(r), ex, EncodeItems(post));
    GetAfter(EncodeItems(r), ex, EncodeItems(post));
    assert snapshot[..i + 1] == snapshot[..i] + [x];
    RemoveChildrenAppend(snapshot[..i], x, path);
    assert RemoveChildren(snapshot[..i + 1], path) == r;
  }

  lemma MergeStep(snapshot: Dict<Path, Products>, path: Path, i: nat)
    requires i < |snapshot|
    ensures MergeChildren(snapshot[..i + 1], path)
      == if Parent(snapshot[i].0) == path then MergeChildren(snapshot[..i], path) + snapshot[i].1
         else MergeChildren(snapshot[..i], path)
  {
    assert snapshot[..i + 1][..i] == snapshot[..i];
  }

  lemma LoopSkip(snapshot: Dict<Path, Products>, path: Path, i: nat, st: CacheState, merged: Products)
    requires i < |snapshot| && Parent(snapshot[i].0) != path
    ensures RollUpLoop(snapshot, path, i, st, merged) == RollUpLoop(snapshot, path, i + 1, st, merged)
  {
  }

  lemma LoopChild(snapshot: Dict<Path, Products>, path: Path, i: nat, st: CacheState, merged: Products)
    requires i < |snapshot| && Parent(snapshot[i].0) == path && Get(st.serializable, EncodeKey(snapshot[i].0)).Some?
    ensures RollUpLoop(snapshot, path, i, st, merged)
      == RollUpLoop(snapshot, path, i + 1,
                    st.(items := Del(st.items, snapshot[i].0), serializable := Del(st.serializable, EncodeKey(snapshot[i].0))),
                    merged + snapshot[i].1)
  {
  }

  /** What holds before the `i`-th step of the loop on a synced cache:
      the children among the first `i` pairs are gone from both dicts and
      their products merged. */
  ghost predicate LoopInv(snapshot: Dict<Path, Products>, path: Path, i: nat, st: CacheState, merged: Products) {
    && i <= |snapshot| && DistinctKeys(EncodeItems(snapshot))
    && st.items == RemoveChildren(snapshot[..i], path) + snapshot[i..]
    && st.serializable == EncodeItems(st.items)
    && merged == MergeChildren(snapshot[..i], path)
  }

  /** One skipped step leaves the items dict as it was. */
  lemma SkipItems(snapshot: Dict<Path, Products>, path: Path, i: nat)
    requires i < |snapshot| && Parent(snapshot[i].0) != path
    ensures RemoveChildren(snapshot[..i], path) + snapshot[i..] == RemoveChildren(snapshot[..i + 1], path) + snapshot[i + 1..]
  {
    var x, r, post := snapshot[i], RemoveChildren(snapshot[..i], path), snapshot[i + 1..];
    assert snapshot[..i + 1] == snapshot[..i] + [x];
    RemoveChildrenAppend(snapshot[..i], x, path);
    assert snapshot[i..] == [x] + post;
    assert r + ([x] + post) == (r + [x]) + post;
  }

  lemma SkipKeeps(snapshot: Dict<Path, Products>, path: Path, i: nat, st: CacheState, merged: Products)
    requires LoopInv(snapshot, path, i, st, merged) && i < |snapshot| && Parent(snapshot[i].0) != path
    ensures LoopInv(snapshot, path, i + 1, st, merged)
  {
    MergeStep(snapshot, path, i);
    SkipItems(snapshot, path, i);
  }

  lemma ChildKeeps(snapshot: Dict<Path, Products>, path: Path, i: nat, st: CacheState, merged: Products)
    requires LoopInv(snapshot, path, i, st, merged) && i < |snapshot| && Parent(snapshot[i].0) == path
    ensures Get(st.serializable, EncodeKey(snapshot[i].0)).Some?
    ensures LoopInv(snapshot, path, i + 1,
                    st.(items := Del(st.items, snapshot[i].0), serializable := Del(st.serializable, EncodeKey(snapshot[i].0))),
                    merged + snapshot[i].1)
  {
    MergeStep(snapshot, path, i);
    ChildItems(snapshot, path, i);
    ChildEncoded(snapshot, path, i);
  }

  lemma LoopEnd(snapshot: Dict<Path, Products>, path: Path, st: CacheState, merged: Products)
    requires LoopInv(snapshot, path, |snapshot|, st, merged)
    ensures st.items == RemoveChildren(snapshot, path) && merged == MergeChildren(snapshot, path)
  {
    assert snapshot[..|snapshot|] == snapshot && snapshot[|snapshot|..] == [];
  }

  /** On a synced cache with distinctly encoded keys the loop raises
      nothing, removes exactly the direct children from both dicts and
      returns their merged products. */
  lemma {:induction false} RollUpLoopSynced(snapshot: Dict<Path, Products>, path: Path, i: nat, st: CacheState, merged: Products)
    requires LoopInv(snapshot, path, i, st, merged)
    ensures RollUpLoop(snapshot, path, i, st, merged)
      == (st.(items := RemoveChildren(snapshot, path), serializable := EncodeItems(RemoveChildren(snapshot, path))),
          Ok(MergeChildren(snapshot, path)))
    decreases |snapshot| - i
  {
    if i == |snapshot| {
      LoopEnd(snapshot, path, st, merged);
    } else if Parent(snapshot[i].0) != path {
      SkipKeeps(snapshot, path, i, st, merged);
      LoopSkip(snapshot, path, i, st, merged);
      RollUpLoopSynced(snapshot, path, i + 1, st, merged);
    } else {
      ChildKeeps(snapshot, path, i, st, merged);
      LoopChild(snapshot, path, i, st, merged);
      RollUpLoopSynced(snapshot, path, i + 1,
                       st.(items := Del(st.items, snapshot[i].0), serializable := Del(st.serializable, EncodeKey(snapshot[i].0))),
                       merged + snapshot[i].1);
    }
  }

  /** The cache with the direct children of `path` dropped from both dicts. */
  function Pruned(st: CacheState, path: Path): CacheState {
    var kept := RemoveChildren(st.items, path);
    st.(items := kept, serializable := EncodeItems(kept))
  }

  /** On a synced cache and a non-empty path the loop raises nothing, so
      the roll-up is the pruned cache with the merged products written
      under the path. */
  lemma RollUpResult(st: CacheState, path: Path)
    requires Synced(st) && path != []
    ensures RollUpOn(st, path) == (WriteItemOn(Pruned(st, path), MergeChildren(st.items, path), path), Ok(()))
  {
    assert st.items[..0] == [] && st.items[0..] == st.items;
    assert LoopInv(st.items, path, 0, st, map[]);
    RollUpLoopSynced(st.items, path, 0, st, map[]);
  }

  /** Pruning keeps the cache well formed, answers nothing for a direct
      child of the path and leaves every other path's products alone. */
  lemma PrunedEffect(st: CacheState, path: Path)
    requires WellFormed(st)
    ensures WellFormed(Pruned(st, path))
    ensures forall k :: Get(Pruned(st, path).items, k) == if Parent(k) == path then None else Get(st.items, k)
  {
    var kept := RemoveChildren(st.items, path);
    SyncedDistinct(st);
    RemoveChildrenSubset(st.items, path);
    forall k ensures Get(kept, k) == if Parent(k) == path then None else Get(st.items, k) {
      RemoveChildrenGet(st.items, path, k);
    }
    RemoveChildrenGet(st.items, path, path);
    EncodeDistinct(kept);
  }

  /** On a well-formed cache and a plain path, `cache_subcategories_complete`
      raises nothing, leaves the cache well formed and the completed list
      alone, drops the direct children of the path from both dicts and
      stores their merged products under the path; every other path keeps
      its products. */
  lemma RollUpEffect(st: CacheState, path: Path)
    requires WellFormed(st) && PlainPath(path)
    ensures var c := RollUpOn(st, path);
      && c.1 == Ok(())
      && WellFormed(c.0) && c.0.completed == st.completed
      && Get(c.0.items, path) == Some(MergeChildren(st.items, path))
      && Get(c.0.serializable, EncodeKey(path)) == Some(MergeChildren(st.items, path))
      && (forall k :: Parent(k) == path ==> Get(c.0.items, k).None?)
      && (forall k :: Parent(k) != path && k != path ==> Get(c.0.items, k) == Get(st.items, k))
  {
    RollUpResult(st, path);
    PrunedEffect(st, path);
    WriteItemEffect(Pruned(st, path), MergeChildren(st.items, path), path);
  }

  /** A title of the merged map comes from some direct child, and its value
      is that of the last direct child that has the title. */
  lemma {:induction false} LaterChildWins(d: Dict<Path, Products>, path: Path, n: string)
    ensures n in MergeChildren(d, path) <==> exists i :: 0 <= i < |d| && Parent(d[i].0) == path && n in d[i].1
    ensures n in MergeChildren(d, path) ==>
      exists i :: 0 <= i < |d| && Parent(d[i].0) == path && n in d[i].1 && MergeChildren(d, path)[n] == d[i].1[n]
        && forall j :: i < j < |d| && Parent(d[j].0) == path ==> n !in d[j].1
    decreases |d|
  {
    if d != [] {
      var init, last := d[..|d| - 1], d[|d| - 1];
      LaterChildWins(init, path, n);
      assert forall i :: 0 <= i < |init| ==> init[i] == d[i];
      if Parent(last.0) == path && n in last.1 {
        assert MergeChildren(d, path)[n] == d[|d| - 1].1[n];
      }
    }
  }

  // ---------------------------------------------------------------------
  // The category walk

  /** What the browser shows at a category url once it has loaded; `Fails`
      stands for a url that does not load on the retry either, or for any
      other exception the page plumbing raises. */
  datatype SitePage =
    | ProductList(links: map<string, string>)  // a "product-area": title -> product href
    | SubcategoryList(menu: Menu)               // a "categories" block of subcategory links
    | Unrecognized                              // the "cat" element without either block
    | Landing                                   // no "cat" element: a special landing page
    | Fails

  /** `category_urls`: the category names in dict order, each with the
      pages its urls lead to. */
  datatype Menu = Menu(entries: seq<MenuEntry>)
  datatype MenuEntry = MenuEntry(category: string, pages: seq<SitePage>)

  /** The path of a category below `parent`: "View All" stands for the
      parent itself. */
  function ChildPath(parent: Path, category: string): (path: Path)
    ensures category != "View All" ==> Parent(path) == parent && |path| == |parent| + 1
    ensures category == "View All" ==> path == parent
  {
    if category == "View All" then parent else parent + [category]
  }

  /** A category's path is its parent's path with the category's own name
      as the last segment; "View All" stays at the parent's path. */
  lemma ChildPathNamed(parent: Path, category: string)
    ensures var path := ChildPath(parent, category);
      && (category != "View All" ==> Parent(path) == parent && |path| == |parent| + 1 && path[|path| - 1] == category)
      && (category == "View All" ==> path == parent)
  {
  }

  /** The products map of a product list page. */
  function Links(links: map<string, string>): (products: Products)
    ensures products.Keys == links.Keys
    ensures forall t :: t in links ==> products[t] == Link(links[t])
  {
    map t | t in links :: Link(links[t])
  }

  /** The products map a subcategory page returns: each subcategory's own
      map, nested under its name. */
  function Groups(byCategory: map<string, Products>): (products: Products)
    ensures products.Keys == byCategory.Keys
    ensures forall c :: c in byCategory ==> products[c] == Group(byCategory[c])
  {
    map c | c in byCategory :: Group(byCategory[c])
  }

  /** `walk_products` from the `i`-th category on, with `acc` the
      `products_by_category` built so far: a category whose path the
      completed list holds is not visited and contributes the cached items
      if any; any other category has each page visited in order, its
      products merged, and its path marked completed. */
  function WalkOn(st: CacheState, menu: Menu, parent: Path, i: nat, acc: map<string, Products>)
    : (CacheState, Result<map<string, Products>>)
    requires i <= |menu.entries|
    decreases menu, |menu.entries| - i
  {
    if i == |menu.entries| then (st, Ok(acc))
    else
      var entry := menu.entries[i];
      var path := ChildPath(parent, entry.category);
      if IsCompleted(st, path) then
        var cached := Get(st.items, path);
        WalkOn(st, menu, parent, i + 1, if cached.Some? then acc[entry.category := cached.value] else acc)
      else
        var (st', r) := VisitOn(st, entry, path, 0, map[]);
        if r.Err? then (st', Err(r.error))
        else WalkOn(WriteCompletedOn(st', path), menu, parent, i + 1, acc[entry.category := r.value])
  }

  /** The inner loop over one category's urls from the `j`-th on:
      `visit_category_page` then `handle_category_page`, whose result is
      merged into the category's map; a page that gives no map makes the
      `update` raise TypeError. */
  function VisitOn(st: CacheState, entry: MenuEntry, path: Path, j: nat, merged: Products)
    : (CacheState, Result<Products>)
    requires j <= |entry.pages|
    decreases entry, |entry.pages| - j
  {
    if j == |entry.pages| then (st, Ok(merged))
    else if entry.pages[j].Fails? then (st, Err(PageLoadFailed))
    else
      var (st', r) := HandleOn(st, entry.pages[j], path);
      if r.Err? then (st', Err(r.error))
      else if r.value.None? then (st', Err(TypeError))
      else VisitOn(st', entry, path, j + 1, merged + r.value.value)
  }

  /** `handle_category_page(browser, path, cache)` on a loaded page: a
      product list is written to the cache and returned; a subcategory page
      is walked below `path`, rolled up into `path` and its nested map
      returned; any other page returns None. */
  function HandleOn(st: CacheState, page: SitePage, path: Path): (CacheState, Result<Option<Products>>)
    requires !page.Fails?
    decreases page
  {
    match page
    case ProductList(links) => (WriteItemOn(st, Links(links), path), Ok(Some(Links(links))))
    case SubcategoryList(menu) =>
      var (st', r) := WalkOn(st, menu, path, 0, map[]);
      if r.Err? then (st', Err(r.error))
      else
        var (st'', r') := RollUpOn(st', path);
        if r'.Err? then (st'', Err(r'.error)) else (st'', Ok(Some(Groups(r.value))))
    case Unrecognized => (st, Ok(None))
    case Landing => (st, Ok(None))
  }

  /** `b` is `a` with only appended tuples added to its completed list. */
  ghost predicate Extends(a: CacheState, b: CacheState) {
    && |a.completed| <= |b.completed| && b.completed[..|a.completed|] == a.completed
    && forall k :: |a.completed| <= k < |b.completed| ==> b.completed[k].Appended?
  }

  lemma ExtendsTrans(a: CacheState, b: CacheState, c: CacheState)
    requires Extends(a, b) && Extends(b, c)
    ensures Extends(a, c)
  {
    assert c.completed[..|a.completed|] == c.completed[..|b.completed|][..|a.completed|];
  }

  /** What a run of the walk appends never makes a path count as completed:
      the set of completed paths is the one loaded. */
  lemma ExtendsKeepsCompleted(a: CacheState, b: CacheState)
    requires Extends(a, b)
    ensures forall p :: IsCompleted(b, p) <==> IsCompleted(a, p)
  {
    forall p ensures IsCompleted(b, p) ==> IsCompleted(a, p) {
      if IsCompleted(b, p) {
        var k :| 0 <= k < |b.completed| && b.completed[k] == Loaded(p);
        assert k < |a.completed| && a.completed[k] == b.completed[..|a.completed|][k];
      }
    }
    forall p ensures IsCompleted(a, p) ==> IsCompleted(b, p) {
      if IsCompleted(a, p) {
        var k :| 0 <= k < |a.completed| && a.completed[k] == Loaded(p);
        assert b.completed[..|a.completed|][k] == b.completed[k];
      }
    }
  }

  /** The walk only ever appends tuples to the completed list. */
  lemma {:induction false} WalkExtends(st: CacheState, menu: Menu, parent: Path, i: nat, acc: map<string, Products>)
    requires i <= |menu.entries|
    ensures Extends(st, WalkOn(st, menu, parent, i, acc).0)
    decreases menu, |menu.entries| - i
  {
    if i < |menu.entries| {
      var entry := menu.entries[i];
      var path := ChildPath(parent, entry.category);
      if IsCompleted(st, path) {
        var cached := Get(st.items, path);
        WalkExtends(st, menu, parent, i + 1, if cached.Some? then acc[entry.category := cached.value] else acc);
      } else {
        var (st', r) := VisitOn(st, entry, path, 0, map[]);
        VisitExtends(st, entry, path, 0, map[]);
        if r.Ok? {
          var st'' := WriteCompletedOn(st', path);
          WalkExtends(st'', menu, parent, i + 1, acc[entry.category := r.value]);
          ExtendsTrans(st, st', st'');
          ExtendsTrans(st, st'', WalkOn(st'', menu, parent, i + 1, acc[entry.category := r.value]).0);
        }
      }
    } else {
      assert st.completed[..|st.completed|] == st.completed;
    }
  }

  lemma {:induction false} VisitExtends(st: CacheState, entry: MenuEntry, path: Path, j: nat, merged: Products)
    requires j <= |entry.pages|
    ensures Extends(st, VisitOn(st, entry, path, j, merged).0)
    decreases entry, |entry.pages| - j
  {
    assert st.completed[..|st.completed|] == st.completed;
    if j < |entry.pages| && !entry.pages[j].Fails? {
      var (st', r) := HandleOn(st, entry.pages[j], path);
      HandleExtends(st, entry.pages[j], path);
      if r.Ok? && r.value.Some? {
        VisitExtends(st', entry, path, j + 1, merged + r.value.value);
        ExtendsTrans(st, st', VisitOn(st', entry, path, j + 1, merged + r.value.value).0);
      }
    }
  }

  lemma {:induction false} HandleExtends(st: CacheState, page: SitePage, path: Path)
    requires !page.Fails?
    ensures Extends(st, HandleOn(st, page, path).0)
    decreases page
  {
    assert st.completed[..|st.completed|] == st.completed;
    if page.SubcategoryList? {
      var (st', r) := WalkOn(st, page.menu, path, 0, map[]);
      WalkExtends(st, page.menu, path, 0, map[]);
      if r.Ok? {
        var c := RollUpOn(st', path);
        assert c.0.completed == st'.completed;
        assert c.0.completed[..|st'.completed|] == st'.completed;
        ExtendsTrans(st, st', c.0);
      }
    }
  }

  /** The walk from the `j`-th category on reads only the categories from
      the `j`-th on. */
  lemma {:induction false} WalkSuffix(st: CacheState, m1: Menu, m2: Menu, parent: Path, j: nat, acc: map<string, Products>)
    requires j <= |m1.entries| == |m2.entries|
    requires forall k :: j <= k < |m1.entries| ==> m1.entries[k] == m2.entries[k]
    ensures WalkOn(st, m1, parent, j, acc) == WalkOn(st, m2, parent, j, acc)
    decreases |m1.entries| - j
  {
    if j < |m1.entries| {
      var entry := m1.entries[j];
      var path := ChildPath(parent, entry.category);
      if IsCompleted(st, path) {
        var cached := Get(st.items, path);
        WalkSuffix(st, m1, m2, parent, j + 1, if cached.Some? then acc[entry.category := cached.value] else acc);
      } else {
        var (st', r) := VisitOn(st, entry, path, 0, map[]);
        if r.Ok? {
          WalkSuffix(WriteCompletedOn(st', path), m1, m2, parent, j + 1, acc[entry.category := r.value]);
        }
      }
    }
  }

  /** The menu with the `i`-th category's pages replaced. */
  function WithPages(menu: Menu, i: nat, pages: seq<SitePage>): (m: Menu)
    requires i < |menu.entries|
    ensures |m.entries| == |menu.entries| && m.entries[i].category == menu.entries[i].category
    ensures forall k :: 0 <= k < |menu.entries| && k != i ==> m.entries[k] == menu.entries[k]
  {
    Menu(menu.entries[i := MenuEntry(menu.entries[i].category, pages)])
  }

  /** One step of the walk past a completed category. */
  lemma WalkSkipStep(st: CacheState, menu: Menu, parent: Path, i: nat, acc: map<string, Products>)
    requires i < |menu.entries| && IsCompleted(st, ChildPath(parent, menu.entries[i].category))
    ensures var cached := Get(st.items, ChildPath(parent, menu.entries[i].category));
      WalkOn(st, menu, parent, i, acc)
        == WalkOn(st, menu, parent, i + 1, if cached.Some? then acc[menu.entries[i].category := cached.value] else acc)
  {
  }

  /** One step of the walk through a category that is not completed. */
  lemma WalkVisitStep(st: CacheState, menu: Menu, parent: Path, i: nat, acc: map<string, Products>)
    requires i < |menu.entries| && !IsCompleted(st, ChildPath(parent, menu.entries[i].category))
    ensures var path := ChildPath(parent, menu.entries[i].category);
      var (st', r) := VisitOn(st, menu.entries[i], path, 0, map[]);
      WalkOn(st, menu, parent, i, acc)
        == if r.Err? then (st', Err(r.error))
           else WalkOn(WriteCompletedOn(st', path), menu, parent, i + 1, acc[menu.entries[i].category := r.value])
  {
  }

  /** The same step, once the visit's outcome `(st', r)` is known. */
  lemma WalkVisited(st: CacheState, menu: Menu, parent: Path, i: nat, acc: map<string, Products>,
                    st': CacheState, r: Result<Products>)
    requires i < |menu.entries| && !IsCompleted(st, ChildPath(parent, menu.entries[i].category))
    requires (st', r) == VisitOn(st, menu.entries[i], ChildPath(parent, menu.entries[i].category), 0, map[])
    ensures r.Err? ==> WalkOn(st, menu, parent, i, acc) == (st', Err(r.error))
    ensures r.Ok? ==>
              WalkOn(st, menu, parent, i, acc)
                == WalkOn(WriteCompletedOn(st', ChildPath(parent, menu.entries[i].category)), menu, parent, i + 1,
                          acc[menu.entries[i].category := r.value])
  {
    WalkVisitStep(st, menu, parent, i, acc);
  }

  /** One step of a category's visit through a page that loads. */
  lemma VisitPageStep(st: CacheState, entry: MenuEntry, path: Path, j: nat, merged: Products)
    requires j < |entry.pages| && !entry.pages[j].Fails?
    ensures var (st', r) := HandleOn(st, entry.pages[j], path);
      VisitOn(st, entry, path, j, merged)
        == if r.Err? then (st', Err(r.error))
           else if r.value.None? then (st', Err(TypeError))
           else VisitOn(st', entry, path, j + 1, merged + r.value.value)
  {
  }

  /** Two menus that agree on the `j`-th category, which is completed, walk
      alike from `j` when they walk alike from `j + 1`. */
  lemma SkipBoth(st: CacheState, m1: Menu, m2: Menu, parent: Path, j: nat, acc: map<string, Products>)
    requires j < |m1.entries| == |m2.entries| && m1.entries[j].category == m2.entries[j].category
    requires IsCompleted(st, ChildPath(parent, m1.entries[j].category))
    requires var cached := Get(st.items, ChildPath(parent, m1.entries[j].category));
      var acc' := if cached.Some? then acc[m1.entries[j].category := cached.value] else acc;
      WalkOn(st, m1, parent, j + 1, acc') == WalkOn(st, m2, parent, j + 1, acc')
    ensures WalkOn(st, m1, parent, j, acc) == WalkOn(st, m2, parent, j, acc)
  {
    WalkSkipStep(st, m1, parent, j, acc);
    WalkSkipStep(st, m2, parent, j, acc);
  }

  /** Two menus that agree on the `j`-th category, which is not completed,
      walk alike from `j` when they walk alike after visiting it. */
  lemma VisitBoth(st: CacheState, m1: Menu, m2: Menu, parent: Path, j: nat, acc: map<string, Products>)
    requires j < |m1.entries| == |m2.entries| && m1.entries[j] == m2.entries[j]
    requires !IsCompleted(st, ChildPath(parent, m1.entries[j].category))
    requires var path := ChildPath(parent, m1.entries[j].category);
      var (st', r) := VisitOn(st, m1.entries[j], path, 0, map[]);
      r.Ok? ==>
        WalkOn(WriteCompletedOn(st', path), m1, parent, j + 1, acc[m1.entries[j].category := r.value])
          == WalkOn(WriteCompletedOn(st', path), m2, parent, j + 1, acc[m1.entries[j].category := r.value])
    ensures WalkOn(st, m1, parent, j, acc) == WalkOn(st, m2, parent, j, acc)
  {
    var entry := m1.entries[j];
    var path := ChildPath(parent, entry.category);
    assert m2.entries[j] == entry;
    WalkVisitStep(st, m1, parent, j, acc);
    WalkVisitStep(st, m2, parent, j, acc);
    var (st', r) := VisitOn(st, entry, path, 0, map[]);
    if r.Ok? {
      assert WalkOn(st, m1, parent, j, acc) == WalkOn(WriteCompletedOn(st', path), m1, parent, j + 1, acc[entry.category := r.value]);
    }
  }

  /** Visiting a category and marking it done keeps every completed path
      completed. */
  lemma VisitKeepsCompleted(st: CacheState, entry: MenuEntry, path: Path, p: Path)
    requires IsCompleted(st, p)
    ensures IsCompleted(WriteCompletedOn(VisitOn(st, entry, path, 0, map[]).0, path), p)
  {
    VisitExtends(st, entry, path, 0, map[]);
    ExtendsKeepsCompleted(st, VisitOn(st, entry, path, 0, map[]).0);
  }

  /** The walk from the completed category itself ignores its pages. */
  lemma IgnoredAt(st: CacheState, menu: Menu, parent: Path, i: nat, acc: map<string, Products>, pages: seq<SitePage>)
    requires i < |menu.entries| && IsCompleted(st, ChildPath(parent, menu.entries[i].category))
    ensures WalkOn(st, menu, parent, i, acc) == WalkOn(st, WithPages(menu, i, pages), parent, i, acc)
  {
    var m2 := WithPages(menu, i, pages);
    var cached := Get(st.items, ChildPath(parent, menu.entries[i].category));
    WalkSuffix(st, menu, m2, parent, i + 1, if cached.Some? then acc[menu.entries[i].category := cached.value] else acc);
    SkipBoth(st, menu, m2, parent, i, acc);
  }

  lemma {:induction false} CompletedIgnoresPagesFrom(st: CacheState, menu: Menu, parent: Path, i: nat, j: nat,
                                                     acc: map<string, Products>, pages: seq<SitePage>)
    requires j <= i < |menu.entries| && IsCompleted(st, ChildPath(parent, menu.entries[i].category))
    ensures WalkOn(st, menu, parent, j, acc) == WalkOn(st, WithPages(menu, i, pages), parent, j, acc)
    decreases i - j, 1
  {
    var entry := menu.entries[j];
    var path := ChildPath(parent, entry.category);
    if j == i {
      IgnoredAt(st, menu, parent, i, acc, pages);
    } else if IsCompleted(st, path) {
      var cached := Get(st.items, path);
      CompletedIgnoresPagesFrom(st, menu, parent, i, j + 1, if cached.Some? then acc[entry.category := cached.value] else acc, pages);
      SkipBoth(st, menu, WithPages(menu, i, pages), parent, j, acc);
    } else {
      VisitedIgnoresPages(st, menu, parent, i, j, acc, pages);
    }
  }

  /** The step of `CompletedIgnoresPagesFrom` at a category before the
      `i`-th that is not completed: it is visited alike in both menus. */
  lemma {:induction false} VisitedIgnoresPages(st: CacheState, menu: Menu, parent: Path, i: nat, j: nat,
                                               acc: map<string, Products>, pages: seq<SitePage>)
    requires j < i < |menu.entries| && IsCompleted(st, ChildPath(parent, menu.entries[i].category))
    requires !IsCompleted(st, ChildPath(parent, menu.entries[j].category))
    ensures WalkOn(st, menu, parent, j, acc) == WalkOn(st, WithPages(menu, i, pages), parent, j, acc)
    decreases i - j, 0
  {
    var entry := menu.entries[j];
    var path := ChildPath(parent, entry.category);
    var (st', r) := VisitOn(st, entry, path, 0, map[]);
    if r.Ok? {
      VisitKeepsCompleted(st, entry, path, ChildPath(parent, menu.entries[i].category));
      CompletedIgnoresPagesFrom(WriteCompletedOn(st', path), menu, parent, i, j + 1, acc[entry.category := r.value], pages);
    }
    VisitBoth(st, menu, WithPages(menu, i, pages), parent, j, acc);
  }

  /** Resuming: a category whose path the loaded completed list holds is
      never visited, so what its urls would show makes no difference to
      the walk, its result or the cache. */
  lemma CompletedIgnoresPages(st: CacheState, menu: Menu, parent: Path, i: nat, pages: seq<SitePage>)
    requires i < |menu.entries| && IsCompleted(st, ChildPath(parent, menu.entries[i].category))
    ensures WalkOn(st, menu, parent, 0, map[]) == WalkOn(st, WithPages(menu, i, pages), parent, 0, map[])
  {
    CompletedIgnoresPagesFrom(st, menu, parent, i, 0, map[], pages);
  }

  /** A walk that raises nothing marks the path of every category it found
      not completed, and gives each such category an entry in its result;
      what was in `acc` stays a key. */
  lemma {:induction false} WalkMarksVisited(st: CacheState, menu: Menu, parent: Path, i: nat, acc: map<string, Products>)
    requires i <= |menu.entries|
    ensures var (st', r) := WalkOn(st, menu, parent, i, acc);
      r.Ok? ==>
        && acc.Keys <= r.value.Keys
        && forall j :: i <= j < |menu.entries| && !IsCompleted(st, ChildPath(parent, menu.entries[j].category)) ==>
             && Appended(ChildPath(parent, menu.entries[j].category)) in st'.completed
             && menu.entries[j].category in r.value
    decreases |menu.entries| - i
  {
    if i < |menu.entries| {
      var entry := menu.entries[i];
      var path := ChildPath(parent, entry.category);
      if IsCompleted(st, path) {
        var cached := Get(st.items, path);
        WalkSkipStep(st, menu, parent, i, acc);
        WalkMarksVisited(st, menu, parent, i + 1, if cached.Some? then acc[entry.category := cached.value] else acc);
      } else {
        WalkVisitStep(st, menu, parent, i, acc);
        var (st', r) := VisitOn(st, entry, path, 0, map[]);
        if r.Ok? {
          var st'' := WriteCompletedOn(st', path);
          var acc' := acc[entry.category := r.value];
          VisitExtends(st, entry, path, 0, map[]);
          ExtendsKeepsCompleted(st, st');
          WalkMarksVisited(st'', menu, parent, i + 1, acc');
          WalkExtends(st'', menu, parent, i + 1, acc');
          var fin := WalkOn(st'', menu, parent, i + 1, acc').0;
          assert st''.completed[|st'.completed|] == Appended(path);
          assert fin.completed[..|st''.completed|][|st'.completed|] == Appended(path);
        }
      }
    }
  }

  /** Some category of the menu from the `i`-th on is named `c`. */
  ghost predicate NamedFrom(menu: Menu, i: nat, c: string) {
    exists k :: i <= k < |menu.entries| && menu.entries[k].category == c
  }

  /** A walk that raises nothing leaves alone every entry of `acc` whose
      name no category from the `i`-th on carries: such a name is a key of
      the result exactly when it is a key of `acc`, with the same products. */
  lemma {:induction false} WalkKeepsEntries(st: CacheState, menu: Menu, parent: Path, i: nat,
                                            acc: map<string, Products>, c: string)
    requires i <= |menu.entries| && !NamedFrom(menu, i, c)
    ensures var r := WalkOn(st, menu, parent, i, acc).1;
      r.Ok? ==> (c in r.value <==> c in acc) && (c in acc ==> r.value[c] == acc[c])
    decreases |menu.entries| - i
  {
    if i < |menu.entries| {
      var entry := menu.entries[i];
      var path := ChildPath(parent, entry.category);
      assert entry.category != c;
      assert !NamedFrom(menu, i + 1, c);
      if IsCompleted(st, path) {
        var cached := Get(st.items, path);
        WalkSkipStep(st, menu, parent, i, acc);
        WalkKeepsEntries(st, menu, parent, i + 1, if cached.Some? then acc[entry.category := cached.value] else acc, c);
      } else {
        var (st', r) := VisitOn(st, entry, path, 0, map[]);
        WalkVisited(st, menu, parent, i, acc, st', r);
        if r.Ok? {
          WalkKeepsEntries(WriteCompletedOn(st', path), menu, parent, i + 1, acc[entry.category := r.value], c);
        }
      }
    }
  }

  /** Walking the categories before the `j`-th and then the rest is the
      whole walk: the prefix's state and `products_by_category` are those
      with which the `j`-th category is reached. */
  lemma {:induction false} WalkSplit(st: CacheState, menu: Menu, parent: Path, i: nat, acc: map<string, Products>, j: nat)
    requires i <= j <= |menu.entries|
    ensures var (stj, rj) := WalkOn(st, Menu(menu.entries[..j]), parent, i, acc);
      WalkOn(st, menu, parent, i, acc) == if rj.Err? then (stj, rj) else WalkOn(stj, menu, parent, j, rj.value)
    decreases j - i, 1
  {
    if i < j {
      var front := Menu(menu.entries[..j]);
      var entry := menu.entries[i];
      var path := ChildPath(parent, entry.category);
      assert front.entries[i] == entry;
      if IsCompleted(st, path) {
        var cached := Get(st.items, path);
        WalkSkipStep(st, menu, parent, i, acc);
        WalkSkipStep(st, front, parent, i, acc);
        WalkSplit(st, menu, parent, i + 1, if cached.Some? then acc[entry.category := cached.value] else acc, j);
      } else {
        VisitedSplit(st, menu, parent, i, acc, j);
      }
    }
  }

  /** The step of `WalkSplit` at a category that is not completed. */
  lemma {:induction false} VisitedSplit(st: CacheState, menu: Menu, parent: Path, i: nat, acc: map<string, Products>, j: nat)
    requires i < j <= |menu.entries| && !IsCompleted(st, ChildPath(parent, menu.entries[i].category))
    ensures var (stj, rj) := WalkOn(st, Menu(menu.entries[..j]), parent, i, acc);
      WalkOn(st, menu, parent, i, acc) == if rj.Err? then (stj, rj) else WalkOn(stj, menu, parent, j, rj.value)
    decreases j - i, 0
  {
    var front := Menu(menu.entries[..j]);
    var entry := menu.entries[i];
    var path := ChildPath(parent, entry.category);
    assert front.entries[i] == entry;
    var (st', r) := VisitOn(st, entry, path, 0, map[]);
    WalkVisited(st, menu, parent, i, acc, st', r);
    WalkVisited(st, front, parent, i, acc, st', r);
    if r.Ok? {
      WalkSplit(WriteCompletedOn(st', path), menu, parent, i + 1, acc[entry.category := r.value], j);
    }
  }

  /** What a walk that raises nothing puts in its result for the `j`-th
      category, when no later category has the same name. With `(stj, rj)`
      the walk of the categories before it: a category whose path is in the
      loaded completed list keeps its cached products when the items dict
      has its path, and otherwise whatever `rj` held for the name; any
      other category maps to the merged products of its visit from `stj`. */
  lemma WalkEntryAt(st: CacheState, menu: Menu, parent: Path, i: nat, acc: map<string, Products>, j: nat)
    requires i <= j < |menu.entries| && !NamedFrom(menu, j + 1, menu.entries[j].category)
    ensures var (stj, rj) := WalkOn(st, Menu(menu.entries[..j]), parent, i, acc);
      var r := WalkOn(st, menu, parent, i, acc).1;
      var c := menu.entries[j].category;
      var path := ChildPath(parent, c);
      r.Ok? ==>
        && rj.Ok?
        && (IsCompleted(st, path) && Get(stj.items, path).Some? ==>
              c in r.value && r.value[c] == Get(stj.items, path).value)
        && (IsCompleted(st, path) && Get(stj.items, path).None? ==>
              (c in r.value <==> c in rj.value) && (c in rj.value ==> r.value[c] == rj.value[c]))
        && (!IsCompleted(st, path) ==>
              VisitOn(stj, menu.entries[j], path, 0, map[]).1.Ok?
              && c in r.value && r.value[c] == VisitOn(stj, menu.entries[j], path, 0, map[]).1.value)
  {
    var front := Menu(menu.entries[..j]);
    var (stj, rj) := WalkOn(st, front, parent, i, acc);
    WalkSplit(st, menu, parent, i, acc, j);
    if rj.Ok? {
      var entry := menu.entries[j];
      var c := entry.category;
      var path := ChildPath(parent, c);
      WalkExtends(st, front, parent, i, acc);
      ExtendsKeepsCompleted(st, stj);
      if IsCompleted(stj, path) {
        var cached := Get(stj.items, path);
        WalkSkipStep(stj, menu, parent, j, rj.value);
        WalkKeepsEntries(stj, menu, parent, j + 1, if cached.Some? then rj.value[c := cached.value] else rj.value, c);
      } else {
        var (st', r) := VisitOn(stj, entry, path, 0, map[]);
        WalkVisited(stj, menu, parent, j, rj.value, st', r);
        if r.Ok? {
          WalkKeepsEntries(WriteCompletedOn(st', path), menu, parent, j + 1, rj.value[c := r.value], c);
        }
      }
    }
  }

  /** Some category from the `i`-th on is named `c` and the items dict has
      its path. */
  ghost predicate CachedFrom(st: CacheState, menu: Menu, parent: Path, i: nat, c: string) {
    && NamedFrom(menu, i, c)
    && Get(st.items, ChildPath(parent, c)).Some?
  }

  /** A walk on which every category from the `i`-th on is completed visits
      nothing: the cache is unchanged, nothing is raised, and the result is
      `acc` with each category that has cached items mapped to them. */
  lemma {:induction false} WalkResumed(st: CacheState, menu: Menu, parent: Path, i: nat, acc: map<string, Products>)
    requires i <= |menu.entries|
    requires forall k :: i <= k < |menu.entries| ==> IsCompleted(st, ChildPath(parent, menu.entries[k].category))
    ensures var (st', r) := WalkOn(st, menu, parent, i, acc);
      && st' == st
      && r.Ok?
      && (forall c :: c in r.value <==> c in acc || CachedFrom(st, menu, parent, i, c))
      && (forall c :: CachedFrom(st, menu, parent, i, c) ==> r.value[c] == Get(st.items, ChildPath(parent, c)).value)
      && (forall c :: c in acc && !CachedFrom(st, menu, parent, i, c) ==> r.value[c] == acc[c])
    decreases |menu.entries| - i
  {
    if i < |menu.entries| {
      var c0 := menu.entries[i].category;
      var cached := Get(st.items, ChildPath(parent, c0));
      var acc' := if cached.Some? then acc[c0 := cached.value] else acc;
      WalkSkipStep(st, menu, parent, i, acc);
      WalkResumed(st, menu, parent, i + 1, acc');
      CachedFromStep(st, menu, parent, i);
    }
  }

  /** `CachedFrom` at the `i`-th category in terms of the `i + 1`-th. */
  lemma CachedFromStep(st: CacheState, menu: Menu, parent: Path, i: nat)
    requires i < |menu.entries|
    ensures forall c :: CachedFrom(st, menu, parent, i, c) <==>
      (c == menu.entries[i].category && Get(st.items, ChildPath(parent, c)).Some?) || CachedFrom(st, menu, parent, i + 1, c)
  {
    forall c | CachedFrom(st, menu, parent, i + 1, c) ensures CachedFrom(st, menu, parent, i, c) {
      var k :| i + 1 <= k < |menu.entries| && menu.entries[k].category == c;
    }
    forall c | c == menu.entries[i].category && Get(st.items, ChildPath(parent, c)).Some?
      ensures CachedFrom(st, menu, parent, i, c)
    {
      assert menu.entries[i].category == c;
    }
  }

  /** No category name anywhere below the menu contains the separator. */
  ghost predicate NamesPlain(menu: Menu)
    decreases menu
  {
    forall k :: 0 <= k < |menu.entries| ==>
      && '>' !in menu.entries[k].category
      && forall j :: 0 <= j < |menu.entries[k].pages| ==> PagePlain(menu.entries[k].pages[j])
  }

  ghost predicate PagePlain(page: SitePage)
    decreases page
  {
    page.SubcategoryList? ==> NamesPlain(page.menu)
  }

  /** Every category of the menu from the `i`-th on has a plain path. */
  ghost predicate PathsPlain(menu: Menu, parent: Path, i: nat) {
    forall k :: i <= k < |menu.entries| ==> PlainPath(ChildPath(parent, menu.entries[k].category))
  }

  lemma ChildPathPlain(parent: Path, category: string)
    requires PlainPath(parent) && '>' !in category
    ensures PlainPath(ChildPath(parent, category))
  {
    if category != "View All" {
      assert forall k :: 0 <= k < |parent| ==> (parent + [category])[k] == parent[k];
    }
  }

  /** Below a plain path, every category of a plain menu has a plain path. */
  lemma MenuPathsPlain(menu: Menu, parent: Path)
    requires PlainPath(parent) && NamesPlain(menu)
    ensures PathsPlain(menu, parent, 0)
  {
    forall k | 0 <= k < |menu.entries| ensures PlainPath(ChildPath(parent, menu.entries[k].category)) {
      ChildPathPlain(parent, menu.entries[k].category);
    }
  }

  /** A walk over plain paths keeps the cache well formed, whether it
      completes or raises: the serializable copy keeps mirroring the items,
      so the roll-up never misses a key and a reload gives the cache back. */
  lemma {:induction false} WalkWellFormed(st: CacheState, menu: Menu, parent: Path, i: nat, acc: map<string, Products>)
    requires i <= |menu.entries| && WellFormed(st) && NamesPlain(menu) && PathsPlain(menu, parent, i)
    ensures WellFormed(WalkOn(st, menu, parent, i, acc).0)
    decreases menu, |menu.entries| - i, 1
  {
    if i < |menu.entries| {
      var entry := menu.entries[i];
      var path := ChildPath(parent, entry.category);
      if IsCompleted(st, path) {
        var cached := Get(st.items, path);
        WalkSkipStep(st, menu, parent, i, acc);
        WalkWellFormed(st, menu, parent, i + 1, if cached.Some? then acc[entry.category := cached.value] else acc);
      } else {
        VisitedWellFormed(st, menu, parent, i, acc);
      }
    }
  }

  /** The step of `WalkWellFormed` through a category that is not
      completed. */
  lemma {:induction false} VisitedWellFormed(st: CacheState, menu: Menu, parent: Path, i: nat, acc: map<string, Products>)
    requires i < |menu.entries| && WellFormed(st) && NamesPlain(menu) && PathsPlain(menu, parent, i)
    requires !IsCompleted(st, ChildPath(parent, menu.entries[i].category))
    ensures WellFormed(WalkOn(st, menu, parent, i, acc).0)
    decreases menu, |menu.entries| - i, 0
  {
    var entry := menu.entries[i];
    var path := ChildPath(parent, entry.category);
    WalkVisitStep(st, menu, parent, i, acc);
    var (st', r) := VisitOn(st, entry, path, 0, map[]);
    VisitWellFormed(st, entry, path, 0, map[]);
    if r.Ok? {
      WalkWellFormed(WriteCompletedOn(st', path), menu, parent, i + 1, acc[entry.category := r.value]);
    }
  }

  lemma {:induction false} VisitWellFormed(st: CacheState, entry: MenuEntry, path: Path, j: nat, merged: Products)
    requires j <= |entry.pages| && WellFormed(st) && PlainPath(path)
    requires forall k :: 0 <= k < |entry.pages| ==> PagePlain(entry.pages[k])
    ensures WellFormed(VisitOn(st, entry, path, j, merged).0)
    decreases entry, |entry.pages| - j
  {
    if j < |entry.pages| && !entry.pages[j].Fails? {
      var (st', r) := HandleOn(st, entry.pages[j], path);
      HandleWellFormed(st, entry.pages[j], path);
      if r.Ok? && r.value.Some? {
        VisitWellFormed(st', entry, path, j + 1, merged + r.value.value);
      }
    }
  }

  lemma {:induction false} HandleWellFormed(st: CacheState, page: SitePage, path: Path)
    requires !page.Fails? && WellFormed(st) && PlainPath(path) && PagePlain(page)
    ensures WellFormed(HandleOn(st, page, path).0)
    decreases page
  {
    match page
    case ProductList(links) =>
      WriteItemEffect(st, Links(links), path);
    case SubcategoryList(menu) =>
      MenuPathsPlain(menu, path);
      var (st', r) := WalkOn(st, menu, path, 0, map[]);
      WalkWellFormed(st, menu, path, 0, map[]);
      if r.Ok? {
        RollUpEffect(st', path);
      }
    case Unrecognized =>
    case Landing =>
  }

  lemma ProductListStep(st: CacheState, entry: MenuEntry, path: Path, j: nat, merged: Products)
    requires j < |entry.pages| && entry.pages[j].ProductList?
    ensures VisitOn(st, entry, path, j, merged)
      == VisitOn(WriteItemOn(st, Links(entry.pages[j].links), path), entry, path, j + 1, merged + Links(entry.pages[j].links))
  {
  }

  /** A category whose urls all lead to product lists: the cache keeps only
      the last url's products under the path, and nothing else changes. */
  lemma {:induction false} VisitProductListsCache(st: CacheState, entry: MenuEntry, path: Path, j: nat, merged: Products)
    requires j <= |entry.pages| && WellFormed(st) && PlainPath(path)
    requires forall k :: j <= k < |entry.pages| ==> entry.pages[k].ProductList?
    ensures var (st', r) := VisitOn(st, entry, path, j, merged);
      && r.Ok? && WellFormed(st') && st'.completed == st.completed
      && (j < |entry.pages| ==> Get(st'.items, path) == Some(Links(entry.pages[|entry.pages| - 1].links)))
      && (forall p :: p != path ==> Get(st'.items, p) == Get(st.items, p))
    decreases |entry.pages| - j
  {
    if j < |entry.pages| {
      var links := entry.pages[j].links;
      WriteItemEffect(st, Links(links), path);
      ProductListStep(st, entry, path, j, merged);
      VisitProductListsCache(WriteItemOn(st, Links(links), path), entry, path, j + 1, merged + Links(links));
    }
  }

  /** The `k`-th page is the last from the `j`-th on whose list has title `t`. */
  ghost predicate LastWith(pages: seq<SitePage>, k: nat, t: string)
    requires k < |pages| && forall i :: k <= i < |pages| ==> pages[i].ProductList?
  {
    t in pages[k].links && forall i :: k < i < |pages| ==> t !in pages[i].links
  }

  /** ... while the category's result merges the products of every url, a
      later url winning on a shared title. */
  lemma {:induction false} VisitProductListsResult(st: CacheState, entry: MenuEntry, path: Path, j: nat, merged: Products)
    requires j <= |entry.pages|
    requires forall k :: j <= k < |entry.pages| ==> entry.pages[k].ProductList?
    ensures var r := VisitOn(st, entry, path, j, merged).1;
      && r.Ok?
      && (forall t :: t in r.value <==> t in merged || exists k :: j <= k < |entry.pages| && t in entry.pages[k].links)
      && (forall t :: t in merged && (forall k :: j <= k < |entry.pages| ==> t !in entry.pages[k].links) ==> r.value[t] == merged[t])
      && (forall t, k :: j <= k < |entry.pages| && LastWith(entry.pages, k, t) ==> r.value[t] == Link(entry.pages[k].links[t]))
    decreases |entry.pages| - j
  {
    if j < |entry.pages| {
      var links := entry.pages[j].links;
      var merged' := merged + Links(links);
      ProductListStep(st, entry, path, j, merged);
      VisitProductListsResult(WriteItemOn(st, Links(links), path), entry, path, j + 1, merged');
      var r := VisitOn(st, entry, path, j, merged).1;
      forall t | t in r.value ensures t in merged || exists k :: j <= k < |entry.pages| && t in entry.pages[k].links {
        if t !in merged && t in links {
          assert t in entry.pages[j].links;
        }
      }
      forall t, k | j <= k < |entry.pages| && LastWith(entry.pages, k, t) ensures r.value[t] == Link(entry.pages[k].links[t]) {
        if k == j {
          assert t in merged';
        }
      }
    }
  }

  /** A subcategory page on a well-formed cache: once its walk completes,
      no direct child of the path is left in the cache, the path holds the
      merge of the children's products, and the page returns the walk's
      result nested by subcategory. */
  lemma HandleSubcategories(st: CacheState, menu: Menu, path: Path)
    requires WellFormed(st) && PlainPath(path) && NamesPlain(menu)
    ensures var (walked, w) := WalkOn(st, menu, path, 0, map[]);
      var (st', r) := HandleOn(st, SubcategoryList(menu), path);
      w.Ok? ==>
        && r == Ok(Some(Groups(w.value)))
        && Get(st'.items, path) == Some(MergeChildren(walked.items, path))
        && (forall k :: Parent(k) == path ==> Get(st'.items, k).None?)
  {
    MenuPathsPlain(menu, path);
    WalkWellFormed(st, menu, path, 0, map[]);
    var (walked, w) := WalkOn(st, menu, path, 0, map[]);
    if w.Ok? {
      RollUpEffect(walked, path);
    }
  }

  // ---------------------------------------------------------------------
  // The cache dict the crawler mutates

  /** The `cache` dict: "items", "serializable_items" and "completed". */
  class Cache {
    var items: Dict<Path, Products>
    var serializable: Dict<string, Products>
    var completed: seq<CompletedEntry>

    function State(): CacheState
      reads this
    {
      CacheState(items, serializable, completed)
    }

    /** `load_cache()`, given the two files' contents. */
    constructor Load(itemsFile: Option<Dict<string, Products>>, completedFile: Option<seq<Path>>)
      ensures State() == LoadOn(itemsFile, completedFile)
    {
      items := [];
      serializable := [];
      completed := [];
      if itemsFile.Some? {
        serializable := itemsFile.value;
        items := DecodeItems(itemsFile.value);
      }
      if completedFile.Some? {
        var done := completedFile.value;
        completed := seq(|done|, i requires 0 <= i < |done| => Loaded(done[i]));
      }
    }

    /** `write_item_cache(cache, products, path)`. */
    method WriteItemCache(products: Products, path: Path)
      modifies this
      ensures State() == WriteItemOn(old(State()), products, path)
    {
      items := Put(items, path, products);
      serializable := Put(serializable, EncodeKey(path), products);
    }

    /** The effective `write_completed_cache(cache, path)`. */
    method WriteCompletedCache(path: Path)
      modifies this
      ensures State() == WriteCompletedOn(old(State()), path)
    {
      completed := completed + [Appended(path)];
    }

    /** `cache_subcategories_complete(cache, path)`: iterates over a
        snapshot of the items while deleting from both dicts. */
    method CacheSubcategoriesComplete(path: Path) returns (r: Result<()>)
      modifies this
      ensures (State(), r) == RollUpOn(old(State()), path)
    {
      if path == [] {
        return Ok(());
      }
      var snapshot := items;
      var merged: Products := map[];
      for i := 0 to |snapshot|
        invariant RollUpLoop(snapshot, path, 0, old(State()), map[]) == RollUpLoop(snapshot, path, i, State(), merged)
      {
        var key := snapshot[i].0;
        if Parent(key) == path {
          merged := merged + snapshot[i].1;
          items := Del(items, key);
          if Get(serializable, EncodeKey(key)).None? {
            return Err(KeyError(EncodeKey(key)));
          }
          serializable := Del(serializable, EncodeKey(key));
        }
      }
      items := Put(items, path, merged);
      serializable := Put(serializable, EncodeKey(path), merged);
      r := Ok(());
    }

    /** `walk_products(browser, menu, parent, cache)`. */
    method WalkProducts(menu: Menu, parent: Path) returns (r: Result<map<string, Products>>)
      modifies this
      ensures (State(), r) == WalkOn(old(State()), menu, parent, 0, map[])
      decreases menu, 2
    {
      var byCategory: map<string, Products> := map[];
      for i := 0 to |menu.entries|
        invariant WalkOn(old(State()), menu, parent, 0, map[]) == WalkOn(State(), menu, parent, i, byCategory)
      {
        var step := WalkCategory(menu, parent, i, byCategory);
        if step.Err? {
          return Err(step.error);
        }
        byCategory := step.value;
      }
      r := Ok(byCategory);
    }

    /** One pass of the loop of `walk_products`: skip the `i`-th category if
        its path is completed, else visit it and mark its path done. */
    method WalkCategory(menu: Menu, parent: Path, i: nat, byCategory: map<string, Products>)
      returns (r: Result<map<string, Products>>)
      requires i < |menu.entries|
      modifies this
      ensures WalkOn(old(State()), menu, parent, i, byCategory)
        == if r.Err? then (State(), Err(r.error)) else WalkOn(State(), menu, parent, i + 1, r.value)
      decreases menu, 1
    {
      var entry := menu.entries[i];
      var path := ChildPath(parent, entry.category);
      if Loaded(path) in completed {
        WalkSkipStep(State(), menu, parent, i, byCategory);
        var cached := Get(items, path);
        r := Ok(if cached.Some? then byCategory[entry.category := cached.value] else byCategory);
      } else {
        ghost var before := State();
        assert entry < menu;
        var merged := VisitCategory(entry, path);
        WalkVisited(before, menu, parent, i, byCategory, State(), merged);
        if merged.Err? {
          return Err(merged.error);
        }
        WriteCompletedCache(path);
        r := Ok(byCategory[entry.category := merged.value]);
      }
    }

    /** The inner loop of `walk_products` over one category's urls:
        visit each, handle the page, and merge what it returns. */
    method VisitCategory(entry: MenuEntry, path: Path) returns (r: Result<Products>)
      modifies this
      ensures (State(), r) == VisitOn(old(State()), entry, path, 0, map[])
      decreases entry
    {
      var merged: Products := map[];
      for j := 0 to |entry.pages|
        invariant VisitOn(old(State()), entry, path, 0, map[]) == VisitOn(State(), entry, path, j, merged)
      {
        if entry.pages[j].Fails? {
          return Err(PageLoadFailed);
        }
        assert entry.pages[j] < entry;
        VisitPageStep(State(), entry, path, j, merged);
        var products := HandleCategoryPage(entry.pages[j], path);
        if products.Err? {
          return Err(products.error);
        }
        if products.value.None? {
          return Err(TypeError);
        }
        merged := merged + products.value.value;
      }
      r := Ok(merged);
    }

    /** `handle_category_page(browser, path, cache)` on a loaded page. */
    method HandleCategoryPage(page: SitePage, path: Path) returns (r: Result<Option<Products>>)
      requires !page.Fails?
      modifies this
      ensures (State(), r) == HandleOn(old(State()), page, path)
      decreases page
    {
      match page
      case ProductList(links) =>
        WriteItemCache(Links(links), path);
        r := Ok(Some(Links(links)));
      case SubcategoryList(menu) =>
        var products := WalkProducts(menu, path);
        if products.Err? {
          return Err(products.error);
        }
        var rolled := CacheSubcategoriesComplete(path);
        if rolled.Err? {
          return Err(rolled.error);
        }
        r := Ok(Some(Groups(products.value)));
      case Unrecognized =>
        r := Ok(None);
      case Landing =>
        r := Ok(None);
    }
  }

  /** `get_products(browser, category_urls)`: load the cache, then walk
      from the root. */
  method GetProducts(itemsFile: Option<Dict<string, Products>>, completedFile: Option<seq<Path>>, menu: Menu)
    returns (r: Result<map<string, Products>>)
    ensures r == WalkOn(LoadOn(itemsFile, completedFile), menu, [], 0, map[]).1
  {
    var cache := new Cache.Load(itemsFile, completedFile);
    r := cache.WalkProducts(menu, []);
  }
}
