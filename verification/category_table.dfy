/** The `categories` and `products` tables of the SQLite store, the
    find-or-insert step `_insert_if_new` on `categories`, and the root-to-leaf
    walk `_insert_categories` that resolves a category path to the id of its
    deepest row. The tables are sequences of rows plus the AUTOINCREMENT
    counter; the pure functions below give the effect of each statement, and
    class `Db` performs them in place. */
module CategoryTable {
  import opened Common
  import opened Categories

  /** A row of `categories(id, name, store, parentid)`. */
  datatype CategoryRow = CategoryRow(id: nat, name: string, store: string, parentId: Option<nat>)

  /** A row of `products(name, categoryid, url, store, stocked)`; ingestion
      always writes NULL into `stocked`. */
  datatype ProductRow = ProductRow(name: string, categoryId: nat, url: string, store: string, stocked: Option<bool>)

  /** The column values handed to `_insert_if_new` for `categories`: name and
      store always, and `parentid` only for a non-root segment. `None` means
      the column is absent from the dictionary, so the SELECT does not
      constrain it and the INSERT leaves it NULL. */
  datatype Key = Key(name: string, store: string, parentId: Option<nat>)

  /** Both tables and the next id AUTOINCREMENT hands out. */
  datatype Tables = Tables(categories: seq<CategoryRow>, products: seq<ProductRow>, nextId: nat)

  /** The empty store `_create_tables` leaves behind. */
  const EmptyTables := Tables([], [], 1)

  /** The ids present in `categories`. */
  function Ids(rows: seq<CategoryRow>): set<nat>
    decreases |rows|
  {
    if rows == [] then {} else Ids(rows[..|rows| - 1]) + {rows[|rows| - 1].id}
  }

  /** An id is present exactly when some row carries it. */
  lemma {:induction false} IdsHas(rows: seq<CategoryRow>, id: nat)
    ensures id in Ids(rows) <==> exists j :: 0 <= j < |rows| && rows[j].id == id
    decreases |rows|
  {
    if rows != [] {
      var last := |rows| - 1;
      IdsHas(rows[..last], id);
      if id in Ids(rows[..last]) {
        var j :| 0 <= j < last && rows[..last][j].id == id;
        assert rows[j].id == id;
      }
      if exists j :: 0 <= j < |rows| && rows[j].id == id {
        var j :| 0 <= j < |rows| && rows[j].id == id;
        if j < last {
          assert rows[..last][j].id == id;
        }
      }
    }
  }

  lemma {:induction false} IdsAt(rows: seq<CategoryRow>, j: nat)
    requires j < |rows|
    ensures rows[j].id in Ids(rows)
  {
    IdsHas(rows, rows[j].id);
  }

  predicate IdsIncrease(rows: seq<CategoryRow>) {
    forall i, j :: 0 <= i < j < |rows| ==> rows[i].id < rows[j].id
  }

  /** What SQLite guarantees of `categories`: ids are positive, increase in
      rowid order and stay below the counter, and a `parentid` names an
      earlier row (the foreign key). */
  predicate Valid(t: Tables) {
    && t.nextId >= 1
    && (forall i :: 0 <= i < |t.categories| ==> 1 <= t.categories[i].id < t.nextId)
    && IdsIncrease(t.categories)
    && (forall i :: 0 <= i < |t.categories| && t.categories[i].parentId.Some? ==>
          t.categories[i].parentId.value < t.categories[i].id && t.categories[i].parentId.value in Ids(t.categories))
  }

  /** The WHERE clause `name = ? AND store = ? [AND parentid = ?]`. */
  predicate Matches(row: CategoryRow, q: Key) {
    row.name == q.name && row.store == q.store && (q.parentId.Some? ==> row.parentId == q.parentId)
  }

  /** The positions of the rows the SELECT returns, in rowid order. */
  function MatchingIndices(rows: seq<CategoryRow>, q: Key): (found: seq<nat>)
    ensures forall k :: 0 <= k < |found| ==> found[k] < |rows| && Matches(rows[found[k]], q)
    ensures forall i :: 0 <= i < |rows| && Matches(rows[i], q) ==> i in found
    ensures forall k, l :: 0 <= k < l < |found| ==> found[k] < found[l]
    decreases |rows|
  {
    if rows == [] then []
    else
      var last := |rows| - 1;
      var earlier := MatchingIndices(rows[..last], q);
      if Matches(rows[last], q) then earlier + [last] else earlier
  }

  /** The store after an INSERT: the row is appended and the counter moves
      past its id. */
  function AppendRow(t: Tables, row: CategoryRow): Tables {
    t.(categories := t.categories + [row], nextId := t.nextId + 1)
  }

  /** The effect of `_insert_if_new(cursor, "categories", q)`: no matching
      row inserts one and yields its new id, one matching row yields that
      row's id, several raise. An insert whose `parentid` names no row is
      refused by the enforced foreign key. */
  function InsertIfNewOn(t: Tables, q: Key): (Tables, Result<nat>) {
    var found := MatchingIndices(t.categories, q);
    if |found| == 0 then
      if q.parentId.Some? && q.parentId.value !in Ids(t.categories) then (t, Err(ForeignKeyViolation))
      else (AppendRow(t, CategoryRow(t.nextId, q.name, q.store, q.parentId)), Ok(t.nextId))
    else if |found| == 1 then (t, Ok(t.categories[found[0]].id))
    else (t, Err(MultipleRows(q.name, q.store)))
  }

  lemma {:induction false} NoMatchFindsNothing(rows: seq<CategoryRow>, q: Key)
    requires forall i :: 0 <= i < |rows| ==> !Matches(rows[i], q)
    ensures MatchingIndices(rows, q) == []
    decreases |rows|
  {
    if rows != [] {
      NoMatchFindsNothing(rows[..|rows| - 1], q);
    }
  }

  lemma {:induction false} OneMatchFindsIt(rows: seq<CategoryRow>, q: Key, i: nat)
    requires i < |rows| && Matches(rows[i], q)
    requires forall j :: 0 <= j < |rows| && j != i ==> !Matches(rows[j], q)
    ensures MatchingIndices(rows, q) == [i]
    decreases |rows|
  {
    var last := |rows| - 1;
    if i == last {
      NoMatchFindsNothing(rows[..last], q);
    } else {
      OneMatchFindsIt(rows[..last], q, i);
    }
  }

  /** No row matches: one row with the given values and a new id is
      appended, and nothing else changes. */
  lemma {:induction false} InsertIfNewInserts(t: Tables, q: Key)
    requires forall i :: 0 <= i < |t.categories| ==> !Matches(t.categories[i], q)
    requires q.parentId.Some? ==> q.parentId.value in Ids(t.categories)
    ensures InsertIfNewOn(t, q) == (AppendRow(t, CategoryRow(t.nextId, q.name, q.store, q.parentId)), Ok(t.nextId))
  {
    NoMatchFindsNothing(t.categories, q);
  }

  /** Exactly one row matches: its id is returned and the tables are
      unchanged. */
  lemma {:induction false} InsertIfNewFindsOne(t: Tables, q: Key, i: nat)
    requires i < |t.categories| && Matches(t.categories[i], q)
    requires forall j :: 0 <= j < |t.categories| && j != i ==> !Matches(t.categories[j], q)
    ensures InsertIfNewOn(t, q) == (t, Ok(t.categories[i].id))
  {
    OneMatchFindsIt(t.categories, q, i);
  }

  /** Two or more rows match: the call raises and nothing changes. */
  lemma {:induction false} InsertIfNewRejectsDuplicates(t: Tables, q: Key, i: nat, j: nat)
    requires i < j < |t.categories|
    requires Matches(t.categories[i], q) && Matches(t.categories[j], q)
    ensures InsertIfNewOn(t, q) == (t, Err(MultipleRows(q.name, q.store)))
  {
    var found := MatchingIndices(t.categories, q);
    assert i in found && j in found;
    var ki :| 0 <= ki < |found| && found[ki] == i;
    var kj :| 0 <= kj < |found| && found[kj] == j;
    assert ki != kj;
  }

  /** Calling `_insert_if_new` twice with the same values gives the same
      answer and adds at most one row overall. */
  lemma {:induction false} InsertIfNewIdempotent(t: Tables, q: Key)
    ensures var (t1, r1) := InsertIfNewOn(t, q);
            var (t2, r2) := InsertIfNewOn(t1, q);
            r2 == r1 && t2 == t1 && |t.categories| <= |t1.categories| <= |t.categories| + 1
  {
    var (t1, r1) := InsertIfNewOn(t, q);
    var found := MatchingIndices(t.categories, q);
    if t1 != t {
      var n := |t.categories|;
      assert t1.categories == t.categories + [CategoryRow(t.nextId, q.name, q.store, q.parentId)];
      forall j | 0 <= j < |t1.categories| && j != n ensures !Matches(t1.categories[j], q) {
        assert t1.categories[j] == t.categories[j];
        assert j !in found;
      }
      InsertIfNewFindsOne(t1, q, n);
    }
  }

  /** The row an id names, if any. */
  function RowById(rows: seq<CategoryRow>, id: nat): (row: Option<CategoryRow>)
    ensures row.Some? ==> row.value in rows && row.value.id == id
    ensures row.None? <==> id !in Ids(rows)
    decreases |rows|
  {
    if rows == [] then None
    else
      var last := |rows| - 1;
      if rows[last].id == id then Some(rows[last])
      else
        var earlier := RowById(rows[..last], id);
        assert earlier.Some? ==> earlier.value in rows by {
          if earlier.Some? {
            var j :| 0 <= j < last && rows[..last][j] == earlier.value;
            assert rows[j] == earlier.value;
          }
        }
        earlier
  }

  /** The names from the root down to the row `id`, following `parentid`. */
  function PathOf(rows: seq<CategoryRow>, id: nat): seq<string>
    decreases id
  {
    match RowById(rows, id)
    case None => []
    case Some(row) =>
      if row.parentId.Some? && row.parentId.value < id then PathOf(rows, row.parentId.value) + [row.name]
      else [row.name]
  }

  lemma {:induction false} RowByIdAppend(rows: seq<CategoryRow>, row: CategoryRow, id: nat)
    requires row.id != id
    ensures RowById(rows + [row], id) == RowById(rows, id)
  {
    assert (rows + [row])[..|rows|] == rows;
  }

  /** Appending a row with the next id never changes the path of a row
      already present. */
  lemma {:induction false} PathOfAppend(t: Tables, row: CategoryRow, id: nat)
    requires Valid(t) && row.id == t.nextId
    requires id in Ids(t.categories)
    ensures PathOf(t.categories + [row], id) == PathOf(t.categories, id)
    decreases id
  {
    IdsHas(t.categories, id);
    RowByIdAppend(t.categories, row, id);
    var r := RowById(t.categories, id).value;
    if r.parentId.Some? && r.parentId.value < id {
      var i :| 0 <= i < |t.categories| && t.categories[i] == r;
      PathOfAppend(t, row, r.parentId.value);
    }
  }

  /** In a valid store, the id of the row at position `k` names that row. */
  lemma {:induction false} RowByIdAt(t: Tables, k: nat)
    requires Valid(t) && k < |t.categories|
    ensures RowById(t.categories, t.categories[k].id) == Some(t.categories[k])
  {
    RowByIdAtIndex(t.categories, k);
  }

  lemma {:induction false} RowByIdAtIndex(rows: seq<CategoryRow>, k: nat)
    requires IdsIncrease(rows) && k < |rows|
    ensures RowById(rows, rows[k].id) == Some(rows[k])
    decreases |rows|
  {
    var last := |rows| - 1;
    if k < last {
      assert rows[k].id < rows[last].id;
      assert rows[..last][k] == rows[k];
      RowByIdAtIndex(rows[..last], k);
    }
  }

  /** Appending a row with the next id gives it an id no other row has. */
  lemma {:induction false} AppendFreshIds(t: Tables, row: CategoryRow)
    ensures Ids(AppendRow(t, row).categories) == Ids(t.categories) + {row.id}
  {
    assert (t.categories + [row])[..|t.categories|] == t.categories;
  }

  /** Appending a row with the next id keeps ids increasing and below the
      counter. */
  lemma {:induction false} AppendFreshIncreases(t: Tables, row: CategoryRow)
    requires Valid(t) && row.id == t.nextId
    ensures IdsIncrease(AppendRow(t, row).categories)
    ensures forall i :: 0 <= i < |AppendRow(t, row).categories| ==> 1 <= AppendRow(t, row).categories[i].id < t.nextId + 1
  {
    var rows := AppendRow(t, row).categories;
    var n := |t.categories|;
    forall i, j | 0 <= i < j < |rows| ensures rows[i].id < rows[j].id {
      assert rows[i] == t.categories[i];
      if j < n {
        assert rows[j] == t.categories[j];
      }
    }
    forall i | 0 <= i < |rows| ensures 1 <= rows[i].id < t.nextId + 1 {
      if i < n {
        assert rows[i] == t.categories[i];
      }
    }
  }

  /** Appending a row whose parent exists and is older keeps the foreign
      key. */
  lemma {:induction false} AppendFreshKeepsParents(t: Tables, row: CategoryRow)
    requires Valid(t) && row.id == t.nextId
    requires row.parentId.Some? ==> row.parentId.value in Ids(t.categories)
    ensures forall i :: 0 <= i < |AppendRow(t, row).categories| && AppendRow(t, row).categories[i].parentId.Some? ==>
      AppendRow(t, row).categories[i].parentId.value < AppendRow(t, row).categories[i].id &&
      AppendRow(t, row).categories[i].parentId.value in Ids(AppendRow(t, row).categories)
  {
    var rows := AppendRow(t, row).categories;
    var n := |t.categories|;
    AppendFreshIds(t, row);
    forall i | 0 <= i < |rows| && rows[i].parentId.Some?
      ensures rows[i].parentId.value < rows[i].id && rows[i].parentId.value in Ids(rows)
    {
      if i < n {
        assert rows[i] == t.categories[i];
      } else {
        IdsHas(t.categories, row.parentId.value);
      }
    }
  }

  /** Appending a row with the next id, whose parent exists, keeps the store
      valid, and the new id names the new row. */
  lemma {:induction false} AppendFreshValid(t: Tables, row: CategoryRow)
    requires Valid(t) && row.id == t.nextId
    requires row.parentId.Some? ==> row.parentId.value in Ids(t.categories)
    ensures Valid(AppendRow(t, row))
    ensures RowById(AppendRow(t, row).categories, row.id) == Some(row)
  {
    AppendFreshIncreases(t, row);
    AppendFreshKeepsParents(t, row);
    RowByIdAtIndex(AppendRow(t, row).categories, |t.categories|);
  }

  /** Appending a row leaves the path of every existing row as it was. */
  lemma {:induction false} AppendKeepsPaths(t: Tables, row: CategoryRow)
    requires Valid(t) && row.id == t.nextId
    ensures forall id :: id in Ids(t.categories) ==> PathOf(AppendRow(t, row).categories, id) == PathOf(t.categories, id)
  {
    forall id | id in Ids(t.categories) ensures PathOf(t.categories + [row], id) == PathOf(t.categories, id) {
      PathOfAppend(t, row, id);
    }
  }

  /** `_insert_if_new` only ever appends a category row and never touches
      `products`. */
  lemma {:induction false} InsertIfNewAppends(t: Tables, q: Key)
    ensures var t' := InsertIfNewOn(t, q).0;
      && t'.products == t.products
      && t.categories <= t'.categories
      && Ids(t.categories) <= Ids(t'.categories)
  {
    AppendFreshIds(t, CategoryRow(t.nextId, q.name, q.store, q.parentId));
  }

  /** `_insert_if_new` keeps the store valid (the foreign key holds, ids
      increase and stay below the counter). */
  lemma {:induction false} InsertIfNewStaysValid(t: Tables, q: Key)
    requires Valid(t)
    ensures Valid(InsertIfNewOn(t, q).0)
  {
    if InsertIfNewOn(t, q).0 != t {
      AppendFreshValid(t, CategoryRow(t.nextId, q.name, q.store, q.parentId));
    }
  }

  /** `_insert_if_new` answers with the id of a row that matches the key. */
  lemma {:induction false} InsertIfNewAnswers(t: Tables, q: Key)
    requires Valid(t)
    ensures var (t', r) := InsertIfNewOn(t, q);
      r.Ok? ==> RowById(t'.categories, r.value).Some? && Matches(RowById(t'.categories, r.value).value, q)
  {
    var (t', r) := InsertIfNewOn(t, q);
    if t' != t {
      AppendFreshValid(t, CategoryRow(t.nextId, q.name, q.store, q.parentId));
    } else if r.Ok? {
      RowByIdAt(t, MatchingIndices(t.categories, q)[0]);
    }
  }

  /** `_insert_if_new` leaves the path of every existing row as it was. */
  lemma {:induction false} InsertIfNewKeepsPaths(t: Tables, q: Key)
    requires Valid(t)
    ensures forall id :: id in Ids(t.categories) ==> PathOf(InsertIfNewOn(t, q).0.categories, id) == PathOf(t.categories, id)
  {
    AppendKeepsPaths(t, CategoryRow(t.nextId, q.name, q.store, q.parentId));
  }

  /** No two rows share a (name, store, parentid) triple. */
  predicate KeysUnique(rows: seq<CategoryRow>) {
    forall i, j :: 0 <= i < j < |rows| ==>
      !(rows[i].name == rows[j].name && rows[i].store == rows[j].store && rows[i].parentId == rows[j].parentId)
  }

  /** `_insert_if_new` keeps the triples unique, and under that invariant a
      lookup that names the parent never finds several rows. A root lookup
      still can: it does not ask for `parentid IS NULL` (see
      `RootLookupIgnoresParent`). */
  lemma {:induction false} InsertIfNewKeepsKeysUnique(t: Tables, q: Key)
    requires KeysUnique(t.categories)
    ensures KeysUnique(InsertIfNewOn(t, q).0.categories)
    ensures q.parentId.Some? ==> InsertIfNewOn(t, q).1 != Err(MultipleRows(q.name, q.store))
  {
    var found := MatchingIndices(t.categories, q);
    var t' := InsertIfNewOn(t, q).0;
    if t' != t {
      var n := |t.categories|;
      forall i | 0 <= i < n
        ensures !(t.categories[i].name == q.name && t.categories[i].store == q.store && t.categories[i].parentId == q.parentId)
      {
        assert i !in found;
      }
      assert forall j :: 0 <= j < n ==> t'.categories[j] == t.categories[j];
    }
    if q.parentId.Some? {
      AtMostOneChildMatch(t.categories, q);
    }
  }

  lemma {:induction false} AtMostOneChildMatch(rows: seq<CategoryRow>, q: Key)
    requires KeysUnique(rows) && q.parentId.Some?
    ensures |MatchingIndices(rows, q)| <= 1
    decreases |rows|
  {
    if rows != [] {
      var last := |rows| - 1;
      if Matches(rows[last], q) {
        forall i | 0 <= i < last ensures !Matches(rows[..last][i], q) {
          assert rows[..last][i] == rows[i];
        }
        NoMatchFindsNothing(rows[..last], q);
      } else {
        AtMostOneChildMatch(rows[..last], q);
      }
    }
  }

  /** The root lookup matches on name and store only: a child row of the same
      name is taken as the root, and two such rows raise. */
  lemma RootLookupIgnoresParent()
    ensures var t := Tables([CategoryRow(1, "Home", "BJs", None), CategoryRow(2, "Pet", "BJs", Some(1))], [], 3);
      InsertIfNewOn(t, Key("Pet", "BJs", None)) == (t, Ok(2))
    ensures var t := Tables([CategoryRow(1, "Home", "BJs", None), CategoryRow(2, "Pet", "BJs", Some(1)),
                             CategoryRow(3, "Grocery", "BJs", None), CategoryRow(4, "Pet", "BJs", Some(3))], [], 5);
      InsertIfNewOn(t, Key("Pet", "BJs", None)) == (t, Err(MultipleRows("Pet", "BJs")))
  {
    var t := Tables([CategoryRow(1, "Home", "BJs", None), CategoryRow(2, "Pet", "BJs", Some(1))], [], 3);
    InsertIfNewFindsOne(t, Key("Pet", "BJs", None), 1);
    var u := Tables([CategoryRow(1, "Home", "BJs", None), CategoryRow(2, "Pet", "BJs", Some(1)),
                     CategoryRow(3, "Grocery", "BJs", None), CategoryRow(4, "Pet", "BJs", Some(3))], [], 5);
    InsertIfNewRejectsDuplicates(u, Key("Pet", "BJs", None), 1, 3);
  }

  /** The loop of `_insert_categories` over the segments after the root:
      each is found or inserted under the id obtained for the one before. */
  function WalkOn(t: Tables, segments: seq<string>, store: string, parent: nat): (Tables, Result<nat>)
    decreases |segments|
  {
    if segments == [] then (t, Ok(parent))
    else
      var (t1, r) := InsertIfNewOn(t, Key(segments[0], store, Some(parent)));
      if r.Err? then (t1, r) else WalkOn(t1, segments[1..], store, r.value)
  }

  /** The last segment is looked up under the id the walk obtained for the
      segment before it. */
  lemma {:induction false} WalkOnLastStep(t: Tables, segments: seq<string>, store: string, parent: nat)
    requires segments != []
    ensures var n := |segments| - 1;
      var (t1, r1) := WalkOn(t, segments[..n], store, parent);
      WalkOn(t, segments, store, parent) ==
        if r1.Err? then (t1, r1) else InsertIfNewOn(t1, Key(segments[n], store, Some(r1.value)))
    decreases |segments|
  {
    var n := |segments| - 1;
    if n > 0 {
      var (t1, r) := InsertIfNewOn(t, Key(segments[0], store, Some(parent)));
      var front := segments[..n];
      assert front[0] == segments[0];
      assert front[1..] == segments[1..][..n - 1];
      assert WalkOn(t, front, store, parent) == if r.Err? then (t1, r) else WalkOn(t1, front[1..], store, r.value);
      if r.Ok? {
        WalkOnLastStep(t1, segments[1..], store, r.value);
      }
    }
  }

  /** The walk keeps the store valid, only ever appends rows, and leaves the
      path of every existing row as it was. */
  lemma {:induction false} WalkOnFrame(t: Tables, segments: seq<string>, store: string, parent: nat)
    requires Valid(t)
    ensures var t' := WalkOn(t, segments, store, parent).0;
      && Valid(t')
      && t'.products == t.products
      && t.categories <= t'.categories
      && Ids(t.categories) <= Ids(t'.categories)
      && (forall id :: id in Ids(t.categories) ==> PathOf(t'.categories, id) == PathOf(t.categories, id))
    decreases |segments|
  {
    if segments != [] {
      var q := Key(segments[0], store, Some(parent));
      var (t1, r) := InsertIfNewOn(t, q);
      InsertIfNewStaysValid(t, q);
      InsertIfNewAppends(t, q);
      InsertIfNewKeepsPaths(t, q);
      if r.Ok? {
        WalkOnFrame(t1, segments[1..], store, r.value);
      }
    }
  }

  /** One step of the walk: the id found or inserted under `parent` names a
      row of the store whose path is the parent's path plus the segment. */
  lemma {:induction false} ChildStep(t: Tables, name: string, store: string, parent: nat)
    requires Valid(t) && parent in Ids(t.categories)
    ensures var step := InsertIfNewOn(t, Key(name, store, Some(parent)));
      step.1.Ok? ==>
        && step.1.value in Ids(step.0.categories)
        && RowById(step.0.categories, step.1.value).value.store == store
        && PathOf(step.0.categories, step.1.value) == PathOf(t.categories, parent) + [name]
  {
    var q := Key(name, store, Some(parent));
    var step := InsertIfNewOn(t, q);
    InsertIfNewStaysValid(t, q);
    InsertIfNewAnswers(t, q);
    InsertIfNewKeepsPaths(t, q);
    if step.1.Ok? {
      var rows := step.0.categories;
      var row := RowById(rows, step.1.value).value;
      var j :| 0 <= j < |rows| && rows[j] == row;
      ChildRowPath(rows, step.1.value, row);
    }
  }

  /** The path of a row with a smaller parent is the parent's path plus its
      name. */
  lemma ChildRowPath(rows: seq<CategoryRow>, id: nat, row: CategoryRow)
    requires RowById(rows, id) == Some(row)
    requires row.parentId.Some? && row.parentId.value < id
    ensures PathOf(rows, id) == PathOf(rows, row.parentId.value) + [row.name]
  {
  }

  /** Walking from an existing row reaches an existing row, of the store
      walked unless there was nothing to walk. */
  lemma {:induction false} WalkOnReachesRow(t: Tables, segments: seq<string>, store: string, parent: nat)
    requires Valid(t) && parent in Ids(t.categories)
    ensures var w := WalkOn(t, segments, store, parent);
      w.1.Ok? ==>
        && w.1.value in Ids(w.0.categories)
        && (segments != [] ==> RowById(w.0.categories, w.1.value).value.store == store)
    decreases |segments|
  {
    if segments != [] {
      var q := Key(segments[0], store, Some(parent));
      var step := InsertIfNewOn(t, q);
      InsertIfNewStaysValid(t, q);
      ChildStep(t, segments[0], store, parent);
      if step.1.Ok? {
        assert WalkOn(t, segments, store, parent) == WalkOn(step.0, segments[1..], store, step.1.value);
        WalkOnReachesRow(step.0, segments[1..], store, step.1.value);
      }
    }
  }


  /** Walking from an existing row appends the segments to its path. */
  lemma {:induction false} WalkOnPath(t: Tables, segments: seq<string>, store: string, parent: nat)
    requires Valid(t) && parent in Ids(t.categories)
    ensures var (t', r) := WalkOn(t, segments, store, parent);
      r.Ok? ==> PathOf(t'.categories, r.value) == PathOf(t.categories, parent) + segments
    decreases |segments|
  {
    var w := WalkOn(t, segments, store, parent);
    if segments != [] && w.1.Ok? {
      var q := Key(segments[0], store, Some(parent));
      var step := InsertIfNewOn(t, q);
      var t1, id := step.0, step.1.value;
      InsertIfNewStaysValid(t, q);
      ChildStep(t, segments[0], store, parent);
      WalkOnPath(t1, segments[1..], store, id);
      AppendSegments(PathOf(t.categories, parent), segments);
    }
  }

  lemma AppendSegments(prefix: seq<string>, segments: seq<string>)
    requires segments != []
    ensures prefix + [segments[0]] + segments[1..] == prefix + segments
  {
    assert [segments[0]] + segments[1..] == segments;
  }

  /** The effect of `_insert_categories(cursor, categories, store)`: None for
      no candidates; otherwise the longest candidate is walked, its root
      found or inserted by name and store alone, and the deepest id returned.
      An empty longest candidate raises on `category[0]`. */
  function InsertCategoriesOn(t: Tables, candidates: seq<seq<string>>, store: string): (Tables, Result<Option<nat>>) {
    if candidates == [] then (t, Ok(None))
    else
      var path := Longest(candidates);
      if path == [] then (t, Err(IndexError))
      else
        var (t', r) := InsertPathOn(t, path, store);
        (t', if r.Err? then Err(r.error) else Ok(Some(r.value)))
  }

  /** The root of `path` found or inserted by name and store, then the rest
      of the path walked below it. */
  function InsertPathOn(t: Tables, path: seq<string>, store: string): (Tables, Result<nat>)
    requires path != []
  {
    var (t1, r1) := InsertIfNewOn(t, Key(path[0], store, None));
    if r1.Err? then (t1, r1) else WalkOn(t1, path[1..], store, r1.value)
  }


  /** None exactly for no candidates, IndexError exactly when every
      candidate is empty, and no change in either case. */
  lemma {:induction false} InsertCategoriesOutcome(t: Tables, candidates: seq<seq<string>>, store: string)
    ensures var (t', r) := InsertCategoriesOn(t, candidates, store);
      && (r == Ok(None) <==> candidates == [])
      && (r == Err(IndexError) <==> candidates != [] && forall i :: 0 <= i < |candidates| ==> candidates[i] == [])
      && (r == Ok(None) || r == Err(IndexError) ==> t' == t)
  {
    if candidates != [] {
      var path := Longest(candidates);
      if path != [] {
        var q := Key(path[0], store, None);
        var (t1, r1) := InsertIfNewOn(t, q);
        assert r1 != Err(IndexError);
        if r1.Ok? {
          var (t2, r2) := WalkOn(t1, path[1..], store, r1.value);
          WalkOnNeverIndexError(t1, path[1..], store, r1.value);
        }
        assert candidates[LongestIndex(candidates)] != [];
      }
    }
  }

  lemma {:induction false} WalkOnNeverIndexError(t: Tables, segments: seq<string>, store: string, parent: nat)
    ensures WalkOn(t, segments, store, parent).1 != Err(IndexError)
    decreases |segments|
  {
    if segments != [] {
      var (t1, r) := InsertIfNewOn(t, Key(segments[0], store, Some(parent)));
      if r.Ok? {
        WalkOnNeverIndexError(t1, segments[1..], store, r.value);
      }
    }
  }

  /** `_insert_categories` keeps the store valid, leaves `products` alone
      and only ever appends category rows. */
  lemma {:induction false} InsertCategoriesFrame(t: Tables, candidates: seq<seq<string>>, store: string)
    requires Valid(t)
    ensures var t' := InsertCategoriesOn(t, candidates, store).0;
      Valid(t') && t'.products == t.products && t.categories <= t'.categories
  {
    if candidates != [] && Longest(candidates) != [] {
      InsertPathFrame(t, Longest(candidates), store);
    }
  }

  lemma {:induction false} InsertPathFrame(t: Tables, path: seq<string>, store: string)
    requires Valid(t) && path != []
    ensures var t' := InsertPathOn(t, path, store).0;
      Valid(t') && t'.products == t.products && t.categories <= t'.categories
  {
    var q := Key(path[0], store, None);
    var root := InsertIfNewOn(t, q);
    InsertIfNewStaysValid(t, q);
    InsertIfNewAppends(t, q);
    if root.1.Ok? {
      assert InsertPathOn(t, path, store) == WalkOn(root.0, path[1..], store, root.1.value);
      WalkOnFrame(root.0, path[1..], store, root.1.value);
    }
  }


  /** `_insert_categories` only adds ids and leaves the path of every
      existing row as it was. */
  lemma {:induction false} InsertCategoriesKeepsPaths(t: Tables, candidates: seq<seq<string>>, store: string)
    requires Valid(t)
    ensures var t' := InsertCategoriesOn(t, candidates, store).0;
      && Ids(t.categories) <= Ids(t'.categories)
      && (forall id :: id in Ids(t.categories) ==> PathOf(t'.categories, id) == PathOf(t.categories, id))
  {
    if candidates != [] && Longest(candidates) != [] {
      InsertPathKeepsPaths(t, Longest(candidates), store);
    }
  }

  lemma {:induction false} InsertPathKeepsPaths(t: Tables, path: seq<string>, store: string)
    requires Valid(t) && path != []
    ensures var t' := InsertPathOn(t, path, store).0;
      && Ids(t.categories) <= Ids(t'.categories)
      && (forall id :: id in Ids(t.categories) ==> PathOf(t'.categories, id) == PathOf(t.categories, id))
  {
    var q := Key(path[0], store, None);
    var root := InsertIfNewOn(t, q);
    InsertIfNewStaysValid(t, q);
    InsertIfNewAppends(t, q);
    InsertIfNewKeepsPaths(t, q);
    if root.1.Ok? {
      assert InsertPathOn(t, path, store) == WalkOn(root.0, path[1..], store, root.1.value);
      WalkOnFrame(root.0, path[1..], store, root.1.value);
    }
  }

  /** Every row of this name in this store is a root. */
  predicate RootsOnly(rows: seq<CategoryRow>, name: string, store: string) {
    forall i :: 0 <= i < |rows| && rows[i].name == name && rows[i].store == store ==> rows[i].parentId.None?
  }

  /** The root lookup yields a row whose path ends with the root's name, and
      is just that name when every row of the name in the store is a root. */
  lemma {:induction false} RootStep(t: Tables, name: string, store: string)
    requires Valid(t)
    ensures var step := InsertIfNewOn(t, Key(name, store, None));
      step.1.Ok? ==>
        var prefix := PathOf(step.0.categories, step.1.value);
        && step.1.value in Ids(step.0.categories)
        && RowById(step.0.categories, step.1.value).value.store == store
        && |prefix| >= 1 && prefix[|prefix| - 1] == name
        && (RootsOnly(t.categories, name, store) ==> prefix == [name])
  {
    var q := Key(name, store, None);
    var step := InsertIfNewOn(t, q);
    InsertIfNewAnswers(t, q);
    if step.1.Ok? {
      var row := RowById(step.0.categories, step.1.value).value;
      RootRowPath(step.0.categories, step.1.value, row);
      if RootsOnly(t.categories, name, store) {
        var j :| 0 <= j < |step.0.categories| && step.0.categories[j] == row;
        if j < |t.categories| {
          assert step.0.categories[j] == t.categories[j];
        }
      }
    }
  }

  /** The path of a row ends with its name, and is only that name for a root. */
  lemma RootRowPath(rows: seq<CategoryRow>, id: nat, row: CategoryRow)
    requires RowById(rows, id) == Some(row)
    ensures var p := PathOf(rows, id);
      |p| >= 1 && p[|p| - 1] == row.name && (row.parentId.None? ==> p == [row.name])
  {
  }

  /** A path ending with the root's name, followed by the segments below
      the root, ends with the whole path. */
  lemma ComposePath(prefix: seq<string>, path: seq<string>)
    requires path != [] && |prefix| >= 1 && prefix[|prefix| - 1] == path[0]
    ensures var found := prefix + path[1..];
      |path| <= |found| && found[|found| - |path|..] == path && (prefix == [path[0]] ==> found == path)
  {
    var found := prefix + path[1..];
    assert found[|found| - |path|..] == [path[0]] + path[1..];
    assert [path[0]] + path[1..] == path;
  }

  /** A resolved id names a row whose path ends with the longest candidate
      (the parent chain below the root matches the candidate segment by
      segment); when every row of the root's name in the store is a root,
      the path is exactly the candidate. */
  lemma {:induction false} InsertCategoriesPath(t: Tables, candidates: seq<seq<string>>, store: string)
    requires Valid(t)
    ensures var (t', r) := InsertCategoriesOn(t, candidates, store);
      r.Ok? && r.value.Some? ==>
        var path := Longest(candidates);
        var found := PathOf(t'.categories, r.value.value);
        && r.value.value in Ids(t'.categories)
        && RowById(t'.categories, r.value.value).value.store == store
        && |path| <= |found| && found[|found| - |path|..] == path
        && (RootsOnly(t.categories, path[0], store) ==> found == path)
  {
    if candidates != [] && Longest(candidates) != [] {
      var path := Longest(candidates);
      InsertPathFinds(t, path, store);
      InsertPathStore(t, path, store);
      var p := InsertPathOn(t, path, store);
      assert InsertCategoriesOn(t, candidates, store) == (p.0, if p.1.Err? then Err(p.1.error) else Ok(Some(p.1.value)));
    }
  }

  /** The id `InsertPathOn` resolves names a row whose path ends with `path`,
      and is `path` itself when every row of the root's name in the store is
      a root. */
  lemma {:induction false} InsertPathFinds(t: Tables, path: seq<string>, store: string)
    requires Valid(t) && path != []
    ensures var res := InsertPathOn(t, path, store);
      res.1.Ok? ==>
        var found := PathOf(res.0.categories, res.1.value);
        && res.1.value in Ids(res.0.categories)
        && |path| <= |found| && found[|found| - |path|..] == path
        && (RootsOnly(t.categories, path[0], store) ==> found == path)
  {
    var q := Key(path[0], store, None);
    var root := InsertIfNewOn(t, q);
    InsertIfNewStaysValid(t, q);
    RootStep(t, path[0], store);
    if root.1.Ok? {
      assert InsertPathOn(t, path, store) == WalkOn(root.0, path[1..], store, root.1.value);
      var prefix := PathOf(root.0.categories, root.1.value);
      WalkOnPath(root.0, path[1..], store, root.1.value);
      WalkOnReachesRow(root.0, path[1..], store, root.1.value);
      ComposePath(prefix, path);
    }
  }

  /** The id `InsertPathOn` resolves names a row of the store. */
  lemma {:induction false} InsertPathStore(t: Tables, path: seq<string>, store: string)
    requires Valid(t) && path != []
    ensures var res := InsertPathOn(t, path, store);
      res.1.Ok? ==> RowById(res.0.categories, res.1.value).Some? && RowById(res.0.categories, res.1.value).value.store == store
  {
    var q := Key(path[0], store, None);
    var root := InsertIfNewOn(t, q);
    InsertIfNewStaysValid(t, q);
    RootStep(t, path[0], store);
    if root.1.Ok? {
      assert InsertPathOn(t, path, store) == WalkOn(root.0, path[1..], store, root.1.value);
      WalkOnReachesRow(root.0, path[1..], store, root.1.value);
    }
  }

  /** Walking ["X", "Y"] when a row "X" already sits under "A" files the leaf
      under A > X > Y, not under a new root X. */
  lemma RootFoundUnderAnotherParent()
    ensures var t := Tables([CategoryRow(1, "A", "BJs", None), CategoryRow(2, "X", "BJs", Some(1))], [], 3);
      var (t', r) := InsertCategoriesOn(t, [["X", "Y"]], "BJs");
      r == Ok(Some(3)) && PathOf(t'.categories, 3) == ["A", "X", "Y"]
  {
    var t := Tables([CategoryRow(1, "A", "BJs", None), CategoryRow(2, "X", "BJs", Some(1))], [], 3);
    InsertIfNewFindsOne(t, Key("X", "BJs", None), 1);
    assert 2 in Ids(t.categories) by {
      assert t.categories[1] in t.categories;
    }
    InsertIfNewInserts(t, Key("Y", "BJs", Some(2)));
    var t' := InsertIfNewOn(t, Key("Y", "BJs", Some(2))).0;
    assert 2 in Ids(t.categories) by {
      assert t.categories[1].id == 2;
    }
    assert t'.categories == t.categories + [CategoryRow(3, "Y", "BJs", Some(2))];
    assert RowById(t'.categories, 3) == Some(CategoryRow(3, "Y", "BJs", Some(2)));
    assert RowById(t'.categories, 2) == Some(CategoryRow(2, "X", "BJs", Some(1)));
    assert RowById(t'.categories, 1) == Some(CategoryRow(1, "A", "BJs", None));
  }

  /** The SQLite connection: both tables, updated in place. */
  class Db {
    var categories: seq<CategoryRow>
    var products: seq<ProductRow>
    var nextId: nat

    function State(): Tables
      reads this
    {
      Tables(categories, products, nextId)
    }

    /** A freshly created database (`_create_tables` on an empty file). */
    constructor ()
      ensures State() == EmptyTables
    {
      categories, products, nextId := [], [], 1;
    }

    /** A connection to a database file holding `t`; `CREATE TABLE IF NOT
        EXISTS` leaves existing tables as they are. */
    constructor Open(t: Tables)
      ensures State() == t
    {
      categories, products, nextId := t.categories, t.products, t.nextId;
    }

    /** `_insert_if_new(cursor, "categories", q)`. */
    method InsertIfNew(q: Key) returns (r: Result<nat>)
      modifies this
      ensures (State(), r) == InsertIfNewOn(old(State()), q)
    {
      var found := MatchingIndices(categories, q);
      if |found| == 0 {
        if q.parentId.Some? && q.parentId.value !in Ids(categories) {
          r := Err(ForeignKeyViolation);
        } else {
          r := Ok(nextId);
          categories := categories + [CategoryRow(nextId, q.name, q.store, q.parentId)];
          nextId := nextId + 1;
        }
      } else if |found| == 1 {
        r := Ok(categories[found[0]].id);
      } else {
        r := Err(MultipleRows(q.name, q.store));
      }
    }

    /** `_insert_categories(cursor, categories, store)`. */
    method InsertCategories(candidates: seq<seq<string>>, store: string) returns (r: Result<Option<nat>>)
      modifies this
      ensures (State(), r) == InsertCategoriesOn(old(State()), candidates, store)
    {
      if candidates == [] {
        return Ok(None);
      }
      var path := Longest(candidates);
      if path == [] {
        return Err(IndexError);
      }
      var root := InsertIfNew(Key(path[0], store, None));
      if root.Err? {
        return Err(root.error);
      }
      ghost var afterRoot := State();
      var parent := root.value;
      var i := 1;
      while i < |path|
        invariant 1 <= i <= |path|
        invariant WalkOn(afterRoot, path[1..], store, root.value) == WalkOn(State(), path[i..], store, parent)
      {
        assert path[i..][1..] == path[i + 1..];
        var next := InsertIfNew(Key(path[i], store, Some(parent)));
        if next.Err? {
          return Err(next.error);
        }
        parent := next.value;
        i := i + 1;
      }
      r := Ok(Some(parent));
    }

    /** The INSERT INTO products of one ingested item. */
    method InsertProduct(name: string, categoryId: nat, url: string, store: string)
      modifies this
      ensures products == old(products) + [ProductRow(name, categoryId, url, store, None)]
      ensures categories == old(categories) && nextId == old(nextId)
    {
      products := products + [ProductRow(name, categoryId, url, store, None)];
    }
  }
}
