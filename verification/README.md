# bjsparser, modelled in Dafny

This project models the core of bjsparser, a scraper for the BJ's
Wholesale catalogue, and proves properties of that model. The core has
three parts.

- **Inventory download** (`bjsparserlib/inventory.py`). The download pages
  through the search API. A request asks for 120 records from an offset.
  Each page's records become inventory items: a title, the category paths,
  the first variant's url and a price. The price comes from the
  variants' prices: the club "0001" price where a club price list is
  given, and the display price otherwise. It is either one value or a
  (min, max) range. The items are appended to an "inventory" list. The
  next request starts where the page ended, and the loop stops at the page
  whose end index is the total count.
- **Database population** (`bjsparserlib/database.py` and the older script
  `inventory-to-db.py`). An item is dropped when one of its category paths
  has a prefix on the configured exclusion list. Otherwise the longest
  category path is walked root to leaf. Each segment is looked up in a
  `categories` table whose rows point to their parent, and inserted when
  missing. A lookup that finds several rows raises. Each admitted item then
  gets one product row filed under the deepest category.
- **Resume cache of the category crawler** (`bjsparser.py`). Product maps
  are recorded per category path, keyed by a tuple in memory and by the
  `">"`-joined path in the items cache file. The completed list records
  the paths already walked. `walk_products` skips a category whose path is
  completed. Otherwise it visits each of the category's urls. When a
  subcategory page is finished, `cache_subcategories_complete` rolls the
  children's maps up into their parent.

The files:

- `common.dfy`: the result and error types, the inventory records, and
  the shape of a Python loop that stops at the first exception.
- `strings.dfy`: Python's `str` order, `split` and `join`.
- `categories.dfy`: the exclusion list, the exclusion test and
  `max(..., key=len)`.
- `category_table.dfy`: the `categories` and `products` tables, find or
  insert, the category walk, and a `Db` class holding the tables.
- `database.dfy`: the library's ingestion loop and `populate`.
- `inventory_to_db.dfy`: the older script.
- `inventory.dfy`: prices, records, pages and `download`.
- `resume_cache.dfy`: the cache, its file encoding, the roll-up, the walk
  and a `Cache` class.

The resume cache's two dicts are modelled as sequences of (key, value)
pairs in insertion order. Assigning to a present key keeps its place, and
a new key goes last. JSON documents and product maps, whose order nothing
depends on, are Dafny maps. The SQLite tables are sequences of rows in
rowid order. Ids come from a counter.

Three behaviours of the code are easy to misread.
The root lookup in `_insert_categories` asks only for name and store, not
for `parentid IS NULL`. So a child row with the root's name is taken as the
root (`CategoryTable.RootLookupIgnoresParent`,
`CategoryTable.RootFoundUnderAnotherParent`). The second definition of
`write_completed_cache` replaces the first, so the model appends every path,
the empty path included. `list(path) in cache["completed"]` matches only
lists read back from the file, never the tuples appended during a run, so
a path never becomes completed during the run that completed it.

## Model

| member | source | states |
|---|---|---|
| Common.MapResultsOk | bjsparserlib/inventory.py:61-78 | a loop over the records completes iff every record is read, and then it gives one result per record, in order |
| Common.MapResultsFirstError | bjsparserlib/inventory.py:61-78 | a failed loop raises the exception of the first element that fails, after every earlier element succeeded |
| Common.MapResultsFailEarly | bjsparserlib/inventory.py:47-53 | once a prefix of the loop raises, the whole loop raises the same exception |
| Strings.Split | bjsparser.py:172 | `split` gives at least one piece, and no piece contains the separator |
| Strings.JoinSplit | bjsparser.py:172 | joining the pieces of a split with the separator gives back the string |
| Strings.SplitJoin | bjsparser.py:172 | splitting a join of at least one piece, none containing the separator, gives back the pieces |
| Categories.PrefixExcluded | bjsparserlib/database.py:90-92 | the inner loop finds a rule iff some prefix of the path at least as long as the current one is a rule |
| Categories.Exclude | bjsparserlib/database.py:88-93 | an item is excluded iff some candidate path has a non-empty prefix that is exactly a rule |
| Categories.ExclusionSetMembers | bjsparserlib/database.py:96 | the rule set holds exactly the 1-tuples of the bare names and the tuples of the listed paths |
| Categories.ConfiguredShapes | bjsparserlib/database.py:7-47 | no configured entry is "Appliances" or "Appliances > Cooling & Heating" |
| Categories.ApplianceAncestorsAreNotRules | bjsparserlib/database.py:23-31 | the prefixes of the multi-name Appliances rules are not rules themselves |
| Categories.PrefixOfRuleNotExcluded | bjsparserlib/database.py:88-96 | a product filed only under "Appliances" or "Appliances > Cooling & Heating" is kept, because no prefixes are added to the set |
| Categories.PathRuleMatchesAtAnyDepth | bjsparserlib/database.py:88-93 | any product with a candidate under "Appliances > Freezers" is dropped, whatever its other candidates |
| Categories.NameRuleMatchesAtAnyDepth | bjsparserlib/database.py:88-93 | any product with a candidate under the bare name "Office" is dropped |
| Categories.ExcludeWithoutNames | bjsparserlib/database.py:88-93 | an item without candidates, or with only empty candidates, is never excluded |
| Categories.LongestIndex | bjsparserlib/database.py:79 | `max(categories, key=len)` picks a longest candidate, and the first among equally long ones |
| CategoryTable.MatchingIndices | bjsparserlib/database.py:58-65 | the SELECT returns exactly the rows matching name, store and (when given) parentid, in rowid order |
| CategoryTable.InsertIfNewInserts | bjsparserlib/database.py:66-71 | with no matching row, one row with a fresh id is appended and its id returned |
| CategoryTable.InsertIfNewFindsOne | bjsparserlib/database.py:72-73 | with exactly one matching row, its id is returned and nothing changes |
| CategoryTable.InsertIfNewRejectsDuplicates | bjsparserlib/database.py:74-75 | with two matching rows, the call raises and nothing changes |
| CategoryTable.InsertIfNewIdempotent | bjsparserlib/database.py:57-75 | a second call with the same values gives the same answer and adds nothing |
| CategoryTable.AppendFreshValid | bjsparserlib/database.py:66-71 | an insert with the next id and an existing parent keeps the foreign key and increasing ids, and the new id names the new row |
| CategoryTable.InsertIfNewAppends | bjsparserlib/database.py:57-75 | find-or-insert only appends category rows and never touches products |
| CategoryTable.InsertIfNewStaysValid | bjsparserlib/database.py:57-75 | find-or-insert keeps the tables valid |
| CategoryTable.InsertIfNewAnswers | bjsparserlib/database.py:57-75 | the returned id names a row that matches the lookup |
| CategoryTable.InsertIfNewKeepsPaths | bjsparserlib/database.py:57-75 | the root-to-row path of every existing row is unchanged |
| CategoryTable.InsertIfNewKeepsKeysUnique | bjsparserlib/database.py:57-75 | unique (name, store, parentid) triples stay unique, and a lookup naming the parent then never raises for several rows |
| CategoryTable.RootLookupIgnoresParent | bjsparserlib/database.py:83 | the root lookup takes a child row of the same name as the root, and raises when two such rows exist |
| CategoryTable.WalkOnLastStep | bjsparserlib/database.py:84-85 | the last segment is looked up under the id obtained for the segment before it |
| CategoryTable.WalkOnFrame | bjsparserlib/database.py:84-85 | the walk keeps the tables valid, only appends rows and leaves existing paths alone |
| CategoryTable.ChildStep | bjsparserlib/database.py:85 | a step under an existing parent yields a row of the store whose path is the parent's path plus the segment |
| CategoryTable.WalkOnReachesRow | bjsparserlib/database.py:84-86 | walking from an existing row ends at an existing row of the store |
| CategoryTable.WalkOnPath | bjsparserlib/database.py:84-86 | walking from an existing row appends the segments to its path |
| CategoryTable.WalkOnNeverIndexError | bjsparserlib/database.py:84-85 | the walk below the root never raises IndexError |
| CategoryTable.InsertCategoriesOutcome | bjsparserlib/database.py:77-83 | None exactly for no candidates, IndexError exactly when every candidate is empty, and no change in either case |
| CategoryTable.InsertCategoriesFrame | bjsparserlib/database.py:77-86 | `_insert_categories` keeps the tables valid, leaves products alone and only appends category rows |
| CategoryTable.InsertCategoriesKeepsPaths | bjsparserlib/database.py:77-86 | `_insert_categories` keeps every existing id and its path |
| CategoryTable.RootStep | bjsparserlib/database.py:83 | the root lookup yields a row of the store whose path ends with the root's name, and is just that name when every row of that name in the store is a root |
| CategoryTable.InsertCategoriesPath | bjsparserlib/database.py:77-86 | the returned id names a row of the store whose path ends with the longest candidate, and is exactly it when the root's name belongs only to roots |
| CategoryTable.InsertPathFinds | bjsparserlib/database.py:83-86 | the same, for the walk of one non-empty path |
| CategoryTable.RootFoundUnderAnotherParent | bjsparserlib/database.py:83-85 | walking ["X", "Y"] when a row "X" sits under "A" files the leaf under A > X > Y |
| CategoryTable.Db.constructor | bjsparserlib/database.py:110-113 | a fresh database has empty tables |
| CategoryTable.Db.Open | bjsparserlib/database.py:115-123 | connecting to a file and creating missing tables leaves existing tables as they are |
| CategoryTable.Db.InsertIfNew | bjsparserlib/database.py:57-75 | the method changes the tables and answers as find-or-insert does |
| CategoryTable.Db.InsertCategories | bjsparserlib/database.py:77-86 | the method's loop changes the tables and answers as the category walk does |
| CategoryTable.Db.InsertProduct | bjsparserlib/database.py:108 | one product row with a NULL `stocked` is appended and nothing else changes |
| Database.IngestItemFrame | bjsparserlib/database.py:99-108 | one item keeps the tables valid, only appends rows and leaves existing paths alone |
| Database.IngestItemEffect | bjsparserlib/database.py:99-108 | an excluded item or one without candidates changes nothing; an admitted item adds exactly one product row, filed under a category row of the store whose path ends with its longest candidate |
| Database.IngestFrame | bjsparserlib/database.py:99-108 | the whole loop keeps the tables valid and only appends, whether or not it raises |
| Database.IngestFiles | bjsparserlib/database.py:99-108 | a run that raises nothing adds one product row per admitted item, in inventory order, each filed under its longest candidate |
| Database.PopulateSaves | bjsparserlib/database.py:120-126 | `populate` either saves nothing and raises (KeyError without "inventory"), or saves valid tables extended by one filed row per admitted item |
| Database.IngestItems | bjsparserlib/database.py:99-108 | the loop method changes the tables and answers as the ingestion loop does |
| Database.InsertInventory | bjsparserlib/database.py:95-108 | `_insert_inventory` reads the "inventory" list against the configured rules, as store "BJs" |
| Database.Populate | bjsparserlib/database.py:120-126 | connect, insert, and commit only when nothing raised |
| InventoryToDb.RunSaves | inventory-to-db.py:101-114 | the script either commits nothing and raises (KeyError without "items"), or commits valid tables extended by one filed row per admitted item |
| InventoryToDb.RunAgreesWithPopulate | inventory-to-db.py:53-89 | the script and `populate` run the same ingestion over the same list; the script's helpers are the library's, text for text |
| InventoryToDb.Run | inventory-to-db.py:91-115 | the script's statements from connecting to closing compute the modelled run |
| Inventory.CreatePayload | bjsparserlib/inventory.py:80-83 | a request skips `start` records and asks for 120 |
| Inventory.ClubPairsShape | bjsparserlib/inventory.py:51 | the pairs are read iff every `;` piece has exactly two `_` halves, one pair per piece; otherwise ValueError |
| Inventory.LastValueWins | bjsparserlib/inventory.py:51 | `dict(pairs)[key]` is the value of the last pair with the key, and is missing iff no pair has it |
| Inventory.ClubPairsDecode | bjsparserlib/inventory.py:51 | a field written from pairs without separators decodes to those pairs |
| Inventory.ClubPriceRoundTrip | bjsparserlib/inventory.py:51 | such a field yields the last "0001" price, and KeyError exactly when no pair is for club "0001" |
| Inventory.ClubPriceRejectsLoosePiece | bjsparserlib/inventory.py:51 | a piece that is not a key/price pair makes the field raise ValueError |
| Inventory.VariantPriceSource | bjsparserlib/inventory.py:48-53 | a variant with a non-empty `clubid_price` gets its club price, one without it gets its `displayPrice` |
| Inventory.MaxOfIsMax | bjsparserlib/inventory.py:55 | `max(prices)` is a collected price at or above every other in `str` order |
| Inventory.MinOfIsMin | bjsparserlib/inventory.py:56 | `min(prices)` is a collected price at or below every other in `str` order |
| Inventory.PriceOfBounds | bjsparserlib/inventory.py:55-57 | no prices raise ValueError; one price iff all collected prices are equal; otherwise distinct least and greatest prices bounding all others |
| Inventory.PriceOfSameElements | bjsparserlib/inventory.py:46-56 | the price depends only on which strings were collected, as with a set |
| Inventory.PricesCompareAsText | bjsparserlib/inventory.py:55-57 | prices compare as text: "9.99" and "10.99" give the range ("10.99", "9.99") |
| Inventory.GetPrice | bjsparserlib/inventory.py:45-57 | the loop over the variants computes the price of the collected prices, or the first variant's exception |
| Inventory.InsertByKeyPermutes | bjsparserlib/inventory.py:69 | inserting a member adds exactly that member |
| Inventory.InsertByKeySorted | bjsparserlib/inventory.py:69 | inserting into a key-sorted sequence keeps it sorted |
| Inventory.SortByKeySorted | bjsparserlib/inventory.py:69 | `sorted(gbi_category)` orders the members by key and is a permutation of them |
| Inventory.SortedUnique | bjsparserlib/inventory.py:69 | two key-sorted orders of the same members with distinct keys are equal |
| Inventory.TruthyValuesNames | bjsparserlib/inventory.py:69 | the kept names are exactly the members' non-empty names |
| Inventory.CategoryPathNames | bjsparserlib/inventory.py:69 | a category path holds exactly the object's non-null, non-empty names |
| Inventory.CategoryPathIgnoresOrder | bjsparserlib/inventory.py:69 | the path does not depend on the order of the object's members |
| Inventory.CategoryPathInKeyOrder | bjsparserlib/inventory.py:69 | members already in key order give their names in that order |
| Inventory.PresentEntries | bjsparserlib/inventory.py:65 | null and empty `gbi_categories` entries are dropped and every other entry is kept |
| Inventory.PathsOf | bjsparserlib/inventory.py:67-69 | one category path per present entry, the `k`-th being the path of the `k`-th entry |
| Inventory.CategoriesOf | bjsparserlib/inventory.py:67-69 | the loop appends one path per present entry, in entry order |
| Inventory.ItemsOfFields | bjsparserlib/inventory.py:59-78 | one item per record in record order, with the title as name, the first variant's url, the present category paths and the record's price; any record that cannot be read fails the page |
| Inventory.ProcessPageItems | bjsparserlib/inventory.py:59-78 | the loop over the records computes the page's items |
| Inventory.UpdateInventory | bjsparserlib/inventory.py:105-112 | the page's items are appended to the "inventory" list, KeyError without one, and nothing else changes |
| Inventory.NextRequest | bjsparserlib/inventory.py:127-134 | each request starts at the previous page's end index |
| Inventory.CrawlAdvance | bjsparserlib/inventory.py:126-134 | a readable page that is not the last appends its items and the loop continues from its end index |
| Inventory.CrawlLast | bjsparserlib/inventory.py:126-132 | the last page ends the download with its items appended; an unreadable page raises and the file keeps what was written before |
| Inventory.CrawlCollects | bjsparserlib/inventory.py:120-139 | when page n is the first last page, the result and the file hold every page's items in request order |
| Inventory.CrawlKeepsProgress | bjsparserlib/inventory.py:120-139 | when page n cannot be read, the download raises page n's exception and the file keeps the items of the earlier pages |
| Inventory.DownloadWithoutFile | bjsparserlib/inventory.py:121-129 | without a file path the document has no "inventory" list, so the first update raises KeyError |
| Inventory.LaterStop | bjsparserlib/inventory.py:127-134 | when a later page is the last or cannot be read, the crawl from the first page's end index stops one request sooner |
| Inventory.FetchPage | bjsparserlib/inventory.py:127-134 | the loop body's request, read and update leave the crawl either finished or continuing from the page's end index |
| Inventory.Download | bjsparserlib/inventory.py:120-139 | the `while True` loop computes the download's result and the file's last contents, for every crawl without a file and every crawl with a file that stops |
| ResumeCache.GetFinds | bjsparser.py:152-153 | a lookup finds the value of the key's pair, and nothing iff no pair has the key |
| ResumeCache.PutEffect | bjsparser.py:131-132 | an assignment keeps keys distinct and changes the lookup of that key only |
| ResumeCache.DelEffect | bjsparser.py:121-122 | a deletion keeps keys distinct and removes that key only |
| ResumeCache.EncodeKeyInjective | bjsparser.py:132 | distinct non-empty paths whose names have no `>` get distinct keys |
| ResumeCache.EncodeDecode | bjsparser.py:171-172 | encoding the decoded keys gives back the file's keys |
| ResumeCache.DecodeEncode | bjsparser.py:172 | decoding the keys of non-empty paths without `>` in any name gives back the paths |
| ResumeCache.EmptyPathReloadsAsEmptyName | bjsparser.py:130-132 | products stored under the empty path are saved under "" and reload under the path [""] |
| ResumeCache.DecodeDistinct | bjsparser.py:172 | distinct file keys decode to distinct paths |
| ResumeCache.EncodeDistinct | bjsparser.py:132 | distinct plain paths encode to distinct keys |
| ResumeCache.LoadSynced | bjsparser.py:164-180 | a loaded cache mirrors its file in both dicts, and a path counts as completed exactly when the file lists it |
| ResumeCache.ReloadRestores | bjsparser.py:164-180 | reloading the files a well-formed cache writes restores both dicts, and every path in the completed list counts as completed |
| ResumeCache.WriteCompletedOn | bjsparser.py:182-187 | the path is appended to the completed list, and the set of completed paths stays the same |
| ResumeCache.EncodePut | bjsparser.py:130-132 | storing under a path and storing under its key keep the two dicts in step |
| ResumeCache.WriteItemEffect | bjsparser.py:130-132 | `write_item_cache` keeps the cache well formed, stores the products under the path and its key, and leaves other paths alone |
| ResumeCache.RollUpOn | bjsparser.py:111-124 | the empty path changes nothing, and the completed list is never touched |
| ResumeCache.RemoveChildrenGet | bjsparser.py:118-122 | removing the direct children answers nothing for a child and the old value for any other path |
| ResumeCache.RollUpLoopSynced | bjsparser.py:118-122 | on a mirrored cache the loop raises nothing, removes exactly the direct children from both dicts and returns their merged maps |
| ResumeCache.RollUpResult | bjsparser.py:116-124 | for a non-empty path the roll-up is the pruned cache with the merged map stored under the path |
| ResumeCache.PrunedEffect | bjsparser.py:118-122 | pruning keeps the cache well formed and touches only the direct children |
| ResumeCache.RollUpEffect | bjsparser.py:111-124 | `cache_subcategories_complete` keeps the cache well formed, stores the children's merged maps under the path, removes every direct child and leaves other paths alone |
| ResumeCache.LaterChildWins | bjsparser.py:118-120 | the merged map has a title iff some direct child has it, with the value of the last such child |
| ResumeCache.ChildPathNamed | bjsparser.py:150 | a category other than "View All" extends the parent path by its own name, one segment deeper, and "View All" is the parent path itself |
| ResumeCache.ExtendsKeepsCompleted | bjsparser.py:151 | appending tuples never makes a path count as completed |
| ResumeCache.WalkExtends | bjsparser.py:147-162 | a walk only appends tuples to the completed list |
| ResumeCache.VisitExtends | bjsparser.py:156-159 | visiting a category's urls only appends tuples to the completed list |
| ResumeCache.HandleExtends | bjsparser.py:79-99 | handling a page only appends tuples to the completed list |
| ResumeCache.CompletedIgnoresPages | bjsparser.py:151-153 | a category whose path is in the loaded completed list is not visited, so its pages make no difference |
| ResumeCache.WalkMarksVisited | bjsparser.py:154-160 | a walk that raises nothing marks every category it found not completed and gives it a result entry |
| ResumeCache.WalkKeepsEntries | bjsparser.py:149-160 | an entry of `products_by_category` whose name no remaining category carries is neither added, removed nor changed by the rest of the walk |
| ResumeCache.WalkSplit | bjsparser.py:149-160 | the walk is the walk of the categories before the `j`-th followed by the walk from the `j`-th, in the state and with the map the prefix leaves |
| ResumeCache.WalkEntryAt | bjsparser.py:151-159 | in a walk that raises nothing, a category named by no later category maps to its cached products when its path is completed and cached (otherwise it keeps what the map held), and to the merge of its urls' products when it is visited |
| ResumeCache.WalkResumed | bjsparser.py:151-153 | when every remaining path is in the loaded completed list, the walk changes nothing in the cache, raises nothing, and adds exactly the cached categories, each with its cached products |
| ResumeCache.WalkWellFormed | bjsparser.py:147-162 | over plain paths the walk keeps the two dicts in step, whether it completes or raises |
| ResumeCache.VisitWellFormed | bjsparser.py:156-159 | visiting a category's urls keeps the cache well formed |
| ResumeCache.HandleWellFormed | bjsparser.py:79-99 | handling a page keeps the cache well formed |
| ResumeCache.VisitProductListsCache | bjsparser.py:156-159 | when all of a category's urls lead to product lists, the cache keeps only the last url's products under the path |
| ResumeCache.VisitProductListsResult | bjsparser.py:155-159 | in that case the result merges the products of every url, a later url winning on a shared title |
| ResumeCache.HandleSubcategories | bjsparser.py:88-94 | a finished subcategory page leaves no direct child in the cache and the merged children's maps under its path |
| ResumeCache.Cache.Load | bjsparser.py:164-180 | `load_cache` builds the modelled cache from the two files |
| ResumeCache.Cache.WriteItemCache | bjsparser.py:130-132 | the method updates both dicts as `write_item_cache` does |
| ResumeCache.Cache.WriteCompletedCache | bjsparser.py:182-187 | the method appends the path to the completed list |
| ResumeCache.Cache.CacheSubcategoriesComplete | bjsparser.py:111-124 | the loop over the snapshot, deleting while iterating, computes the modelled roll-up |
| ResumeCache.Cache.WalkProducts | bjsparser.py:147-162 | the nested loops compute the modelled walk and its cache |
| ResumeCache.Cache.WalkCategory | bjsparser.py:150-160 | one pass over a category computes the modelled step of the walk: a completed path is skipped with its cached products, any other is visited and then marked done |
| ResumeCache.Cache.VisitCategory | bjsparser.py:155-159 | the inner loop over a category's urls computes the modelled visit and its cache |
| ResumeCache.Cache.HandleCategoryPage | bjsparser.py:79-99 | the method computes the modelled handling of a page |
| ResumeCache.GetProducts | bjsparser.py:189-191 | `get_products` walks from the root over the loaded cache |

## Left out

- Browser automation is not modelled. This covers PhantomJS installation,
  the browser set-up, `filter_in_club`, `increase_items_per_page`,
  `parse_items`, `get_category_urls` and the club selection.
- A category url is modelled as the page it shows once loaded. A product
  list page carries the title-to-href map that `parse_items` would return.
  `Fails` stands for a url that fails to load after the retry, and for any
  exception of the page plumbing.
- The site is a finite tree of pages, so cyclic links are not modelled.
- A subcategory page's menu is taken as the dict the comprehension builds.
  When link texts repeat, the comprehension keeps the last href; this
  collapsing is not modelled.
- `strip_html` is left out: it depends on Python regex semantics.
- HTTP, `time.sleep`, `print`, and every file and JSON read and write are
  left out. This covers `send_request`, `_load_inventory`, the file write
  in `_update_inventory`, `_clear_inventory`'s write, the cache file writes
  and the `__main__` blocks. The server is a function from request to
  page. A file is modelled as its last written contents.
- JSON objects with duplicate keys are not modelled. A document is a map,
  and a `gbi_categories` object has distinct keys.
- The SQL text, `PRAGMA`, `CREATE TABLE`, commit and close are not
  modelled. Only their effect on the two tables is.
- `argparse`, `setup.py` and `bjsparserlib/__init__.py` are not modelled.
  The last is a one-line composition of `download` and `populate`.
- `EXCLUDE_CATEGORIES` in `bjsparserlib/inventory.py` is not modelled,
  because no function of that file uses it.
- Inventory.Download: requires, with a file, a request count by which
  some page is the last or cannot be read. The source loops forever when,
  with a file, every page is readable and none is the last, and a
  non-terminating loop is not modelled. Without a file the first request
  always ends the download.
- Missing JSON fields are not modelled. A record always has `allMeta`,
  `gbi_categories`, `title`, `visualVariant`, `nonvisualVariant`,
  `product_url` and `displayPrice`, and an item always has `categories`,
  `name` and `url`. The KeyError the source raises for a missing one is
  left out (`bjsparserlib/inventory.py:47-53, 62-73`,
  `bjsparserlib/database.py:99-107`). The same goes for the TypeError of a
  null `gbi_categories` list: the list is always present, and only its
  entries may be null.
- Inventory.GetPrice: collects the prices as the list of distinct strings
  in insertion order, not as a set. `Inventory.PriceOfSameElements` shows
  that only the collected strings matter.
- Prices are compared as strings, as in the source. Numeric parsing is not
  modelled.
- ResumeCache.WalkWellFormed: requires every category name to be free of
  `>`, and the top-level menu to have no "View All" entry. Under other
  names, two paths can share a key in the file.
- The product maps that the cache and the result share are values in the
  model, so aliasing between them is not modelled. The source never
  mutates a shared map after storing it.
