/** `_insert_inventory` and `populate`: every item of the inventory snapshot
    is either dropped by the exclusion rules, skipped for want of category
    information, or filed as one product row under the deepest category of
    its longest candidate path. An exception anywhere aborts the run before
    the commit, so the database file keeps its old contents. */
module Database {
  import opened Common
  import opened Categories
  import opened CategoryTable

  /** The store name every row is written with. */
  const Store := "BJs"

  /** An item that gets a product row: not excluded, and with at least one
      candidate path. */
  predicate Admits(item: Item, rules: set<seq<string>>) {
    !Exclude(item.categories, rules) && item.categories != []
  }

  /** The items of `items` that get a product row, in inventory order. */
  function Admitted(items: seq<Item>, rules: set<seq<string>>): seq<Item>
    decreases |items|
  {
    if items == [] then []
    else (if Admits(items[0], rules) then [items[0]] else []) + Admitted(items[1..], rules)
  }

  /** `found` ends with `path`. */
  predicate EndsWith(found: seq<string>, path: seq<string>) {
    |path| <= |found| && found[|found| - |path|..] == path
  }

  /** The product row `p` files `item`: its name and url, the store, a NULL
      `stocked`, and the id of a category row of the same store whose path
      from the root ends with the item's longest candidate path. */
  predicate FiledUnder(rows: seq<CategoryRow>, p: ProductRow, item: Item, store: string) {
    && item.categories != []
    && p == ProductRow(item.name, p.categoryId, item.url, store, None)
    && p.categoryId in Ids(rows)
    && (exists row :: row in rows && row.id == p.categoryId && row.store == store)
    && EndsWith(PathOf(rows, p.categoryId), Longest(item.categories))
  }

  /** One iteration of the `for item in ...` loop of `_insert_inventory`:
      skip an excluded item, raise what `_insert_categories` raises, skip
      an item whose category id is falsy, and otherwise insert its product
      row. */
  function IngestItemOn(t: Tables, item: Item, rules: set<seq<string>>, store: string): (Tables, Result<()>) {
    if Exclude(item.categories, rules) then (t, Ok(()))
    else FileProduct(InsertCategoriesOn(t, item.categories, store), item, store)
  }

  /** What follows `_insert_categories` in the loop: its exception
      propagates, a falsy id skips the item, and any other id gets the
      product row. */
  function FileProduct(c: (Tables, Result<Option<nat>>), item: Item, store: string): (Tables, Result<()>) {
    var (t1, r) := c;
    if r.Err? then (t1, Err(r.error))
    else if r.value.None? || r.value.value == 0 then (t1, Ok(()))
    else (t1.(products := t1.products + [ProductRow(item.name, r.value.value, item.url, store, None)]), Ok(()))
  }


  /** The whole loop: the items in order, stopping at the first exception. */
  function IngestOn(t: Tables, items: seq<Item>, rules: set<seq<string>>, store: string): (Tables, Result<()>)
    decreases |items|
  {
    if items == [] then (t, Ok(()))
    else
      var (t1, r) := IngestItemOn(t, items[0], rules, store);
      if r.Err? then (t1, r) else IngestOn(t1, items[1..], rules, store)
  }

  /** One item keeps the store valid, only appends rows, and leaves the
      path of every existing category row as it was. */
  lemma {:induction false} IngestItemFrame(t: Tables, item: Item, rules: set<seq<string>>, store: string)
    requires Valid(t)
    ensures var t1 := IngestItemOn(t, item, rules, store).0;
      && Valid(t1)
      && t.categories <= t1.categories
      && |t.products| <= |t1.products| && t1.products[..|t.products|] == t.products
      && Ids(t.categories) <= Ids(t1.categories)
      && (forall id :: id in Ids(t.categories) ==> PathOf(t1.categories, id) == PathOf(t.categories, id))
  {
    if !Exclude(item.categories, rules) {
      var c := InsertCategoriesOn(t, item.categories, store);
      InsertCategoriesFrame(t, item.categories, store);
      InsertCategoriesKeepsPaths(t, item.categories, store);
      var t1 := FileProduct(c, item, store).0;
      assert t1.categories == c.0.categories && t1.nextId == c.0.nextId;
      assert t1.products[..|c.0.products|] == c.0.products;
    }
  }


  lemma IngestItemStaysValid(t: Tables, item: Item, rules: set<seq<string>>, store: string)
    requires Valid(t)
    ensures Valid(IngestItemOn(t, item, rules, store).0)
  {
    IngestItemFrame(t, item, rules, store);
  }

  /** One item: an excluded item and an item without candidates change
      nothing; an admitted item that raises nothing adds exactly one product
      row, filed under its longest candidate. */
  lemma {:induction false} IngestItemEffect(t: Tables, item: Item, rules: set<seq<string>>, store: string)
    requires Valid(t)
    ensures var step := IngestItemOn(t, item, rules, store);
      && (!Admits(item, rules) ==> step == (t, Ok(())))
      && (step.1.Ok? && Admits(item, rules) ==>
            |step.0.products| == |t.products| + 1
            && FiledUnder(step.0.categories, step.0.products[|t.products|], item, store))
  {
    if !Exclude(item.categories, rules) {
      InsertCategoriesOutcome(t, item.categories, store);
      if item.categories != [] {
        FileProductFiles(t, item, store);
      }
    }
  }

  /** An item with candidates that raises nothing gets one product row,
      filed under the category row `_insert_categories` resolved. */
  lemma FileProductFiles(t: Tables, item: Item, store: string)
    requires Valid(t) && item.categories != []
    ensures var c := InsertCategoriesOn(t, item.categories, store);
      var f := FileProduct(c, item, store);
      f.1.Ok? && c.1.Ok? && c.1.value.Some? ==>
        |f.0.products| == |t.products| + 1 && FiledUnder(f.0.categories, f.0.products[|t.products|], item, store)
  {
    var c := InsertCategoriesOn(t, item.categories, store);
    InsertCategoriesFrame(t, item.categories, store);
    InsertCategoriesPath(t, item.categories, store);
    if c.1.Ok? && c.1.value.Some? {
      IdsHas(c.0.categories, c.1.value.value);
      RowOfStore(c.0.categories, c.1.value.value, store);
    }
  }

  /** The row an id names is a witness for a row of its store with that id. */
  lemma RowOfStore(rows: seq<CategoryRow>, id: nat, store: string)
    requires RowById(rows, id).Some? && RowById(rows, id).value.store == store
    ensures exists row :: row in rows && row.id == id && row.store == store
  {
    var row := RowById(rows, id).value;
    assert row in rows && row.id == id;
  }


  /** Filing survives later steps that keep ids and paths. */
  lemma FiledStays(rows: seq<CategoryRow>, rows': seq<CategoryRow>, p: ProductRow, item: Item, store: string)
    requires rows <= rows' && Ids(rows) <= Ids(rows')
    requires forall id :: id in Ids(rows) ==> PathOf(rows', id) == PathOf(rows, id)
    requires FiledUnder(rows, p, item, store)
    ensures FiledUnder(rows', p, item, store)
  {
    var row :| row in rows && row.id == p.categoryId && row.store == store;
    var j :| 0 <= j < |rows| && rows[j] == row;
    assert rows'[j] == row;
  }

  /** The whole loop keeps the store valid, only appends rows, and leaves
      the path of every existing category row as it was, whether or not it
      raises. */
  lemma {:induction false} IngestFrame(t: Tables, items: seq<Item>, rules: set<seq<string>>, store: string)
    requires Valid(t)
    ensures var t' := IngestOn(t, items, rules, store).0;
      && Valid(t')
      && t.categories <= t'.categories
      && |t.products| <= |t'.products| && t'.products[..|t.products|] == t.products
      && Ids(t.categories) <= Ids(t'.categories)
      && (forall id :: id in Ids(t.categories) ==> PathOf(t'.categories, id) == PathOf(t.categories, id))
    decreases |items|
  {
    if items != [] {
      var step := IngestItemOn(t, items[0], rules, store);
      IngestItemFrame(t, items[0], rules, store);
      if step.1.Ok? {
        assert IngestOn(t, items, rules, store) == IngestOn(step.0, items[1..], rules, store);
        IngestFrame(step.0, items[1..], rules, store);
        var t' := IngestOn(step.0, items[1..], rules, store).0;
        assert t'.products[..|t.products|] == t'.products[..|step.0.products|][..|t.products|];
      }
    }
  }

  /** From position `from` on, `products` holds exactly one row filing each
      of `admitted`, in order. */
  predicate FiledAll(rows: seq<CategoryRow>, products: seq<ProductRow>, from: nat, admitted: seq<Item>, store: string) {
    && |products| == from + |admitted|
    && forall k :: 0 <= k < |admitted| ==> FiledUnder(rows, products[from + k], admitted[k], store)
  }

  lemma FiledAllCons(rows: seq<CategoryRow>, products: seq<ProductRow>, from: nat, item: Item, rest: seq<Item>, store: string)
    requires from < |products| && FiledUnder(rows, products[from], item, store)
    requires FiledAll(rows, products, from + 1, rest, store)
    ensures FiledAll(rows, products, from, [item] + rest, store)
  {
    var admitted := [item] + rest;
    forall k | 0 <= k < |admitted| ensures FiledUnder(rows, products[from + k], admitted[k], store) {
      if k > 0 {
        assert admitted[k] == rest[k - 1];
        assert from + k == (from + 1) + (k - 1);
      }
    }
  }

  /** The row filed for an item survives the rest of the run, and the rows
      filed for the later items follow it. */
  lemma FiledAllAfter(t1: Tables, t': Tables, item: Item, rest: seq<Item>, store: string)
    requires |t1.products| >= 1 && FiledUnder(t1.categories, t1.products[|t1.products| - 1], item, store)
    requires |t1.products| <= |t'.products| && t'.products[..|t1.products|] == t1.products
    requires t1.categories <= t'.categories && Ids(t1.categories) <= Ids(t'.categories)
    requires forall id :: id in Ids(t1.categories) ==> PathOf(t'.categories, id) == PathOf(t1.categories, id)
    requires FiledAll(t'.categories, t'.products, |t1.products|, rest, store)
    ensures FiledAll(t'.categories, t'.products, |t1.products| - 1, [item] + rest, store)
  {
    var n := |t1.products| - 1;
    assert t'.products[n] == t1.products[n] by {
      assert t'.products[..|t1.products|][n] == t1.products[n];
    }
    FiledStays(t1.categories, t'.categories, t1.products[n], item, store);
    FiledAllCons(t'.categories, t'.products, n, item, rest, store);
  }

  /** The row just filed for `item` heads the rows the rest of the run
      files. */
  lemma FiledAllRest(t1: Tables, items: seq<Item>, rules: set<seq<string>>, store: string, item: Item)
    requires Valid(t1)
    requires |t1.products| >= 1 && FiledUnder(t1.categories, t1.products[|t1.products| - 1], item, store)
    requires var run := IngestOn(t1, items, rules, store);
      run.1.Ok? && FiledAll(run.0.categories, run.0.products, |t1.products|, Admitted(items, rules), store)
    ensures var run := IngestOn(t1, items, rules, store);
      FiledAll(run.0.categories, run.0.products, |t1.products| - 1, [item] + Admitted(items, rules), store)
  {
    IngestFrame(t1, items, rules, store);
    FiledAllAfter(t1, IngestOn(t1, items, rules, store).0, item, Admitted(items, rules), store);
  }

  /** A run that raises nothing adds one product row per admitted item, in
      inventory order, each filed under its item's longest candidate path. */
  lemma {:induction false} IngestFiles(t: Tables, items: seq<Item>, rules: set<seq<string>>, store: string)
    requires Valid(t)
    ensures var run := IngestOn(t, items, rules, store);
      run.1.Ok? ==> FiledAll(run.0.categories, run.0.products, |t.products|, Admitted(items, rules), store)
    decreases |items|
  {
    if items != [] {
      var step := IngestItemOn(t, items[0], rules, store);
      IngestItemEffect(t, items[0], rules, store);
      if step.1.Ok? {
        var t1 := step.0;
        IngestItemStaysValid(t, items[0], rules, store);
        var rest := IngestOn(t1, items[1..], rules, store);
        assert IngestOn(t, items, rules, store) == rest;
        IngestFiles(t1, items[1..], rules, store);
        if rest.1.Ok? && Admits(items[0], rules) {
          FiledAllRest(t1, items[1..], rules, store, items[0]);
        }
      }
    }
  }

  /** `_insert_inventory(cursor, inventory)`: the items under the key
      "inventory" against the configured exclusion set, as "BJs". */
  function InsertInventoryOn(t: Tables, inventory: Document): (Tables, Result<()>) {
    if "inventory" !in inventory then (t, Err(KeyError("inventory")))
    else IngestOn(t, inventory["inventory"], ExclusionSet(ExcludeCategories), Store)
  }

  /** `populate(inventory, database_filepath)` on a file holding `file`: the
      new tables are saved only when no exception escaped. */
  function PopulateOn(file: Tables, inventory: Document): (Tables, Result<()>) {
    var (t', r) := InsertInventoryOn(file, inventory);
    if r.Ok? then (t', r) else (file, r)
  }

  /** A populate either saves nothing and reports the exception, or saves a
      valid store that extends the old one with one product row per admitted
      item of the "inventory" list. */
  lemma {:induction false} PopulateSaves(file: Tables, inventory: Document)
    requires Valid(file)
    ensures var (saved, r) := PopulateOn(file, inventory);
      && ("inventory" !in inventory ==> r == Err(KeyError("inventory")))
      && (r.Err? ==> saved == file)
      && Valid(saved)
      && file.categories <= saved.categories
      && (r.Ok? ==>
            && |file.products| <= |saved.products| && saved.products[..|file.products|] == file.products
            && FiledAll(saved.categories, saved.products, |file.products|, Admitted(inventory["inventory"], ExclusionSet(ExcludeCategories)), Store))
  {
    if "inventory" in inventory {
      IngestFrame(file, inventory["inventory"], ExclusionSet(ExcludeCategories), Store);
      IngestFiles(file, inventory["inventory"], ExclusionSet(ExcludeCategories), Store);
    }
  }

  /** The `for item in items` loop, performed on the connection. */
  method IngestItems(db: Db, items: seq<Item>, rules: set<seq<string>>, store: string) returns (r: Result<()>)
    modifies db
    ensures (db.State(), r) == IngestOn(old(db.State()), items, rules, store)
  {
    var i := 0;
    while i < |items|
      invariant 0 <= i <= |items|
      invariant IngestOn(old(db.State()), items, rules, store) == IngestOn(db.State(), items[i..], rules, store)
    {
      assert items[i..][1..] == items[i + 1..];
      var item := items[i];
      if !Exclude(item.categories, rules) {
        var categoryId := db.InsertCategories(item.categories, store);
        if categoryId.Err? {
          return Err(categoryId.error);
        }
        if categoryId.value.Some? && categoryId.value.value != 0 {
          db.InsertProduct(item.name, categoryId.value.value, item.url, store);
        }
      }
      i := i + 1;
    }
    r := Ok(());
  }

  /** `_insert_inventory(cursor, inventory)`. */
  method InsertInventory(db: Db, inventory: Document) returns (r: Result<()>)
    modifies db
    ensures (db.State(), r) == InsertInventoryOn(old(db.State()), inventory)
  {
    if "inventory" !in inventory {
      return Err(KeyError("inventory"));
    }
    r := IngestItems(db, inventory["inventory"], ExclusionSet(ExcludeCategories), Store);
  }

  /** `populate(inventory, database_filepath)`: connect, insert, and commit
      only when nothing raised. */
  method Populate(file: Tables, inventory: Document) returns (saved: Tables, r: Result<()>)
    ensures (saved, r) == PopulateOn(file, inventory)
  {
    var db := new Db.Open(file);
    r := InsertInventory(db, inventory);
    saved := if r.Ok? then db.State() else file;
  }
}
