/** The older top-level ingestion script: the same find-or-insert,
    category walk and exclusion test as the library (its `_insert_if_new`,
    `insert_categories` and `exclude` are the library's functions with a
    module-level cursor), run over the list under the key "items" and
    committed once at the end. */
module InventoryToDb {
  import opened Common
  import opened Categories
  import opened CategoryTable
  import opened Database

  /** The script from connecting to the final commit, on a database file
      holding `file`: an exception ends the script before the commit. */
  function RunOn(file: Tables, inventory: Document): (Tables, Result<()>) {
    if "items" !in inventory then (file, Err(KeyError("items")))
    else
      var (t', r) := IngestOn(file, inventory["items"], ExclusionSet(ExcludeCategories), Store);
      if r.Ok? then (t', r) else (file, r)
  }

  /** The script either saves nothing and reports the exception, or saves a
      valid store that extends the old one with one product row per
      admitted item of the "items" list, in order. */
  lemma {:induction false} RunSaves(file: Tables, inventory: Document)
    requires Valid(file)
    ensures var (saved, r) := RunOn(file, inventory);
      && ("items" !in inventory ==> r == Err(KeyError("items")))
      && (r.Err? ==> saved == file)
      && Valid(saved)
      && file.categories <= saved.categories
      && (r.Ok? ==>
            && |file.products| <= |saved.products| && saved.products[..|file.products|] == file.products
            && FiledAll(saved.categories, saved.products, |file.products|, Admitted(inventory["items"], ExclusionSet(ExcludeCategories)), Store))
  {
    if "items" in inventory {
      IngestFrame(file, inventory["items"], ExclusionSet(ExcludeCategories), Store);
      IngestFiles(file, inventory["items"], ExclusionSet(ExcludeCategories), Store);
    }
  }

  /** A run over the same list gives the library's `_insert_inventory`
      result whenever the document carries it under both keys. */
  lemma {:induction false} RunAgreesWithPopulate(file: Tables, inventory: Document)
    requires "items" in inventory && "inventory" in inventory && inventory["items"] == inventory["inventory"]
    ensures RunOn(file, inventory) == PopulateOn(file, inventory)
  {
  }

  /** The script's statements from `connection = sqlite3.connect(...)` to
      `connection.close()`. */
  method Run(file: Tables, inventory: Document) returns (saved: Tables, r: Result<()>)
    ensures (saved, r) == RunOn(file, inventory)
  {
    var db := new Db.Open(file);
    if "items" !in inventory {
      return file, Err(KeyError("items"));
    }
    r := IngestItems(db, inventory["items"], ExclusionSet(ExcludeCategories), Store);
    saved := if r.Ok? then db.State() else file;
  }
}
