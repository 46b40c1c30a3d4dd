# FastAPI restaurant catalogue: cache layer and spreadsheet reconciliation

A Dafny model of the core of a restaurant-menu service. The catalogue is a
tree of menus, their submenus and the submenus' dishes, kept in PostgreSQL
behind a Redis cache. The model covers four parts:

- **The Redis cache** (`RedisCache`, `LegacyRedisCache`). A class whose
  `store` field maps keys to entries with a fixed 1800-second expiry. It
  offers `get`, `add`, `delete`, `multiply_delete`, `cascade_delete` and
  `excel_cascade_delete`. The current variant also drops the heavy views
  `'full'` and `'db_data'` on every delete; the older variant does not. Each
  delete method is proved equal to a specification function that states
  exactly which keys go and that nothing else changes.
- **The cache-aside services** (`MenuService`, `SubmenuService`,
  `DishService`, `FullMenuService`).
  - Keys are `'all'`, `"{m}"`, `"{m}_all"`, `"{m}_{s}"`, `"{m}_{s}_all"`,
    `"{m}_{s}_{d}"` and `'full'` (`CacheKeys`).
  - A read returns the cached value on a hit. On a miss it takes the
    repository's answer and queues an `add`.
  - A mutation queues its invalidation commands on FastAPI's
    `BackgroundTasks` (`BackgroundTasks.Tasks`), a queue that is drained in
    order against the cache once the request has succeeded.
  - Lemmas state which keys are gone and which remain after each
    mutation's commands have run.
- **The spreadsheet reconciliation job** (`ExcelRows`, `TitleSort`,
  `ExcelDiscounts`, `ExcelTasks`).
  - Rows are classified as menu, submenu or dish rows. A cursor holds the
    current menu and submenu id (the module globals, `ExcelRows.Globals`).
  - Rows are bucketed per category, `None` is stripped from the tuples, and
    the sheet's five-field projection is sorted by title.
  - `compare_data` compares that projection with the database snapshot:
    - when they are equal, only the discounts are checked against the
      cached `'excel'` sheet;
    - when the sheet is empty, the tables and the cache are cleared;
    - otherwise the tables are dropped and refilled (`ExcelTasks.Database`).
- **The full-menu tree** (`FullMenuRepository`). Each joined SQL row is
  parsed into a menu carrying at most one submenu. The rows are then merged
  by menu id, a group-by that keeps the order in which each id first
  appears.

Ids are modelled as canonical UUID text (`Common.IsUuid`). This makes the
key builders injective and free of glob metacharacters, so Redis
`scan_iter('{p}*')` is a prefix test and `scan_iter('*{p}*')` a substring
test. A repository call, the SQL snapshot, the file's existence and an
integrity error on insert are all parameters of the operations that use
them.

Where the code and its description differ, the model follows the code.

- After an integrity error, `compare_data` rolls back only the inserts. The
  dropped tables and the flushed cache stay empty, and the job answers 409.
  `ExcelTasks.ConflictLosesCatalogue` states this.
- A second dish added to a submenu runs `cascade_delete` on the menu id,
  which also evicts the first dish from the cache.
  `DishService.TwoDishAddsKeepOnlyLatest` states this.
- An empty price cell becomes a NaN decimal, and NaN equals nothing. So a
  sheet with such a cell never equals the database snapshot, nor the cached
  `'excel'` sheet (`Catalog.EqualsRows`). Every run of the job then drops
  and refills the tables and flushes the cache, and every discount check
  reports a change. `ExcelTasks.EmptyPriceRebuildsEveryRun` and
  `ExcelDiscounts.RepeatedDiscountCheck` state this.

## Model

| member | source | states |
|---|---|---|
| RedisCache.Cache.Get | src/cache/redis_cache.py:26-36 | a lookup that is `None` exactly when the key is absent, and otherwise the stored value |
| RedisCache.Cache.Add | src/cache/redis_cache.py:38-46 | overwrites the key with the value and expiry 1800; every other key is unchanged |
| RedisCache.AfterAdd | src/cache/redis_cache.py:23-24 | the key holds the value with expiry 1800, and every other key is as before |
| RedisCache.Cache.MultiplyDelete | src/cache/redis_cache.py:77-88 | the new store equals `AfterMultiplyDelete` |
| RedisCache.AfterMultiplyDelete | src/cache/redis_cache.py:84-88 | a key survives iff it is not `'full'`, not `'db_data'` and not listed; survivors keep their values; absent keys are harmless |
| RedisCache.Cache.Delete | src/cache/redis_cache.py:48-55 | the new store equals `AfterDelete` |
| RedisCache.AfterDelete | src/cache/redis_cache.py:48-55 | a key survives iff it is not the key, `'full'` or `'db_data'`; survivors keep their values |
| RedisCache.Cache.CascadeDelete | src/cache/redis_cache.py:57-65 | the multiply-delete followed by the prefix-scan loop equals `AfterCascadeDelete`; the loop invariant tracks the scanned keys |
| RedisCache.AfterCascadeDelete | src/cache/redis_cache.py:57-65 | a key survives iff it is not `'all'`, `'full'` or `'db_data'` and does not start with the pattern |
| RedisCache.PrefixScanThenDelete | src/cache/redis_cache.py:63-65 | deleting every key the scan `{p}*` matches after the side-deletes leaves exactly `AfterCascadeDelete` |
| RedisCache.Cache.ExcelCascadeDelete | src/cache/redis_cache.py:67-75 | the new store equals `AfterExcelCascadeDelete` |
| RedisCache.AfterExcelCascadeDelete | src/cache/redis_cache.py:67-75 | a key survives iff it is not `'full'` or `'db_data'` and does not contain the pattern, so `'all'` survives unless it contains it |
| RedisCache.SubstringScanThenDelete | src/cache/redis_cache.py:73-75 | deleting every key the scan `*{p}*` matches after the side-deletes leaves exactly `AfterExcelCascadeDelete` |
| RedisCache.Cache.FlushDb | src/database.py:47-50 | `delete_cache` (`flushdb`) empties the store |
| RedisCache.AddThenGet | src/cache/redis_cache.py:27-46 | after `add(k, v)`, reading `k` gives `v`, and an absent key stays absent |
| RedisCache.DeletesAreIdempotent | src/cache/redis_cache.py:48-88 | each of the four deletes applied twice equals applying it once |
| RedisCache.CascadeClearsMenuSubtree | src/cache/redis_cache.py:57-65 | a cascade on menu id `m` removes every key of `m`'s subtree and keeps every key of another menu's subtree |
| LegacyRedisCache.Cache.Get | src/repository/redis_cache.py:11-16 | `None` exactly when the key is absent, and otherwise the stored value |
| LegacyRedisCache.Cache.Add | src/repository/redis_cache.py:18-20 | overwrite with expiry 1800 |
| LegacyRedisCache.Cache.Delete | src/repository/redis_cache.py:22-24 | the new store equals `AfterDelete` |
| LegacyRedisCache.AfterDelete | src/repository/redis_cache.py:22-24 | removes exactly the key |
| LegacyRedisCache.Cache.CascadeDelete | src/repository/redis_cache.py:26-30 | the new store equals `AfterCascadeDelete` (loop over the prefix scan) |
| LegacyRedisCache.AfterCascadeDelete | src/repository/redis_cache.py:26-30 | removes `'all'` and the keys starting with the pattern, and nothing else |
| LegacyRedisCache.Cache.MultiplyDelete | src/repository/redis_cache.py:32-36 | the new store equals `AfterMultiplyDelete` |
| LegacyRedisCache.AfterMultiplyDelete | src/repository/redis_cache.py:32-36 | removes exactly the listed keys |
| LegacyRedisCache.HeavyViewsSurvive | src/repository/redis_cache.py:22-36 | a heavy view survives the older deletes but not the current ones |
| LegacyRedisCache.DeletesAreIdempotent | src/repository/redis_cache.py:22-36 | each of the older deletes applied twice equals applying it once |
| CacheKeys.SubtreeKeysStartWithMenu | src/service/dish_service.py:101-103 | every key of menu `m`'s subtree starts with `m` |
| CacheKeys.UnderMenuPrefix | src/service/menu_service.py:117 | a subtree key of menu `m` starts with another menu's id iff that id is `m` |
| CacheKeys.GlobalKeysAreNotEntityKeys | src/cache/redis_cache.py:63 | `'all'`, `'full'`, `'db_data'` and `'excel'` neither start with nor contain a UUID |
| CacheKeys.KeyFamiliesAreInjective | src/service/dish_service.py:46-80 | equal keys of one family have equal ids |
| CacheKeys.KeyFamiliesAreDisjoint | src/service/submenu_service.py:47-78 | the five key families are pairwise distinct and differ from the global keys |
| CacheKeys.DishKeyMentions | src/utils/excel_discounts.py:45-46 | a dish key contains a UUID iff that UUID is its menu, submenu or dish id |
| CacheKeys.SubmenuKeyMentions | src/utils/excel_discounts.py:45-46 | a submenu key contains a UUID iff that UUID is its menu or submenu id |
| BackgroundTasks.Tasks.AddTask | src/service/menu_service.py:48 | `add_task` appends one command to the queue |
| BackgroundTasks.Run | src/service/menu_service.py:83-84 | draining the queue leaves the store equal to `ApplyAll` of the queue, in order |
| BackgroundTasks.ApplyAllAppend | src/service/submenu_service.py:96-101 | draining `a + b` is draining `a` then `b` |
| MenuService.GetAllMenus | src/service/menu_service.py:44-49 | it hits iff `'all'` is stored, including an empty list; on a hit it returns the cached value and queues nothing; on a miss it returns the repository's list and queues exactly `add('all', data)` |
| MenuService.GetMenuById | src/service/menu_service.py:63-68 | a hit needs a truthy value under `"{m}"`; on a miss the repository's error is passed through with nothing queued, or its menu is returned and queued for `add` |
| MenuService.AddMenu | src/service/menu_service.py:82-84 | on success it queues `[delete('all'), add("{id}", data)]`; on a repository error it queues nothing |
| MenuService.UpdateMenu | src/service/menu_service.py:100-102 | as `AddMenu` |
| MenuService.DeleteMenu | src/service/menu_service.py:117-118 | it queues `cascade_delete("{m}")` whatever the repository answers |
| MenuService.MenuWriteInvalidates | src/service/menu_service.py:82-84 | after the commands run, `'all'`, `'full'` and `'db_data'` are gone, the menu is cached, and every other key is unchanged |
| MenuService.DeleteMenuClearsSubtree | src/service/menu_service.py:117-118 | after the cascade, no key of the menu's subtree and no global view is left; other menus are untouched |
| SubmenuService.GetAllSubmenus | src/service/submenu_service.py:47-54 | hit/miss on `"{m}_all"`; a hit returns the cached value with nothing queued; a miss returns and queues the repository's list |
| SubmenuService.GetSubmenuById | src/service/submenu_service.py:69-80 | a truthy hit on `"{m}_{s}"` skips the repository; a miss passes an error through or queues `add` of the result |
| SubmenuService.AddSubmenu | src/service/submenu_service.py:95-102 | on success it queues `multiply_delete(['all', "{m}_all", "{m}"])` then `add("{m}_{id}")`; on an error it queues nothing |
| SubmenuService.UpdateSubmenu | src/service/submenu_service.py:118-123 | on success it queues `delete("{m}_all")` then `add("{m}_{id}")`; on an error it queues nothing |
| SubmenuService.DeleteSubmenu | src/service/submenu_service.py:138-139 | it queues `cascade_delete("{m}")` |
| SubmenuService.AddSubmenuInvalidates | src/service/submenu_service.py:95-102 | after the commands run, `'all'`, `"{m}_all"`, `"{m}"`, `'full'` and `'db_data'` are gone, the submenu is cached, and every other key is unchanged |
| SubmenuService.UpdateSubmenuKeepsMenu | src/service/submenu_service.py:118-123 | `"{m}_all"` and the heavy views are gone and the submenu is re-cached; `'all'` and `"{m}"` are untouched |
| SubmenuService.DeleteSubmenuClearsMenuSubtree | src/service/submenu_service.py:138-139 | after the cascade, the submenu, its siblings, their dishes and lists, and the menu are gone |
| SubmenuService.TwoSubmenuAddsRefreshMenu | tests/test_submenu.py:119-127 | after two submenu adds, `"{m}"`, `'all'` and `"{m}_all"` are gone, so the next read counts both submenus, and both submenus are cached |
| DishService.GetAllDishes | src/service/dish_service.py:46-55 | hit/miss on `"{m}_{s}_all"`; a hit skips the repository; a miss returns and queues its list |
| DishService.GetDishById | src/service/dish_service.py:71-82 | hit/miss on `"{m}_{s}_{d}"` (`is not None`); a miss passes an error through or queues `add` of the result |
| DishService.AddDish | src/service/dish_service.py:98-105 | on success it queues `cascade_delete("{m}")` then `add("{m}_{s}_{id}")`; on an error it queues nothing |
| DishService.UpdateDish | src/service/dish_service.py:122-131 | on success it queues `delete("{m}_{s}_all")` then `add` of the dish key; on an error it queues nothing |
| DishService.DeleteDish | src/service/dish_service.py:147-150 | it queues `cascade_delete("{m}")` |
| DishService.AddDishInvalidates | src/service/dish_service.py:98-105 | afterwards the new dish is the only key left in the menu's subtree, the global views are gone, and other menus are untouched |
| DishService.UpdateDishKeepsParents | src/service/dish_service.py:122-131 | the dish list and the heavy views are gone and the dish is re-cached; `'all'`, `"{m}"` and `"{m}_{s}"` are untouched |
| DishService.TwoDishAddsKeepOnlyLatest | tests/test_dish.py:149-169 | after two dish adds, the menu and submenu entries are gone, so the next reads count both dishes; only the second dish stays cached |
| FullMenuService.GetFullMenu | src/service/full_menu_service.py:35-40 | hit iff `'full'` is stored (`is not None`, so an empty tree is a hit); a miss returns the repository's tree unchanged and queues exactly `add('full', tree)` |
| FullMenuService.MutationsDropFullView | tests/test_full_menu.py:141-167 | every mutation's commands remove `'full'` and `'db_data'`, so the next full read shows the change |
| FullMenuRepository.ParsedRow | src/repository/full_menu_repository.py:68-97 | copies the menu columns; it has one submenu, the first of the row's array, iff that array is non-empty; that submenu carries all the row's dishes in order |
| FullMenuRepository.ParseRow | src/repository/full_menu_repository.py:74-96 | the appending loop equals `ParsedRow` |
| FullMenuRepository.CreateJson | src/repository/full_menu_repository.py:99-114 | the dictionary-filling loop, which extends the first item's submenus in place, equals `Merged` |
| FullMenuRepository.Get | src/repository/full_menu_repository.py:53-66 | the result is `Merged` of the parsed rows; no rows gives `[]` (tests/test_full_menu.py:64-68) |
| FullMenuRepository.DedupFirstOccurrenceOrder | src/repository/full_menu_repository.py:106-113 | the distinct ids are exactly the input's ids, ordered by first occurrence |
| FullMenuRepository.MergedIsGroupBy | src/repository/full_menu_repository.py:106-113 | merged ids are distinct, are exactly the input ids and come in first-occurrence order; each merged menu has the first item's columns and the in-order concatenation of all its items' submenus |
| FullMenuRepository.MergedKeepsEverySubmenu | src/repository/full_menu_repository.py:107-112 | the merge keeps the total number of submenus |
| FullMenuRepository.TwoMenusGrouped | tests/test_full_menu.py:211-257 | with two menus, every submenu and dish ends up under its own parent |
| FullMenuRepository.MergedThreeItems | src/repository/full_menu_repository.py:107-112 | two items with one id and a third with another merge into two menus, the first with both submenu lists |
| ExcelRows.Globals.CreateDataForBd | src/task/tasks.py:60-114 | the tuple, the category and the new cursor equal `Classify` of the row under the old cursor |
| ExcelRows.Scan | src/task/tasks.py:46-49 | one entry and one category per row |
| ExcelRows.ReadExcelFile | src/task/tasks.py:31-57 | the entries, the buckets (dish entries cut to five fields) and the final cursor equal the fold `Scan`/`BucketsOf` |
| ExcelRows.ScanEntry | src/task/tasks.py:46-49 | entry `i` is row `i` classified under the cursor left by rows `0..i-1` |
| ExcelRows.MenuCursorIsLatestMenuRow | src/task/tasks.py:80 | after a scan, the menu cursor is the id of the last menu row |
| ExcelRows.SubmenuCursorIsLatestSubmenuRow | src/task/tasks.py:91 | after a scan, the submenu cursor is the id of the last submenu row |
| ExcelRows.SubmenuCursorCarriesOver | src/task/tasks.py:19-20 | without submenu rows the submenu cursor is the one the previous run left, whatever menu rows occur |
| ExcelRows.DishParentIsLatestSubmenu | src/task/tasks.py:94-113 | a dish's parent field is the id of the closest submenu row above it, even across menu rows |
| ExcelRows.SubmenuParentIsLatestMenu | src/task/tasks.py:83-92 | a submenu's parent field is the id of the closest menu row above it |
| ExcelRows.SelfContainedIgnoresCursor | src/task/tasks.py:19-20 | a sheet whose every submenu and dish row has a parent row above it gives the same entries whatever cursor it starts from |
| ExcelRows.BucketsPartitionEntries | src/task/tasks.py:50-55 | every entry lands in exactly one bucket |
| ExcelRows.Truncated | src/task/tasks.py:55 | every tuple is cut to its first five fields |
| ExcelRows.WithoutNone | src/task/tasks.py:225-226 | the result holds no `None` and is no longer than the tuple |
| ExcelRows.WithoutNoneAppend | src/task/tasks.py:225-226 | stripping distributes over concatenation, so the order of the remaining fields is kept |
| ExcelRows.WithoutNoneKeepsNoneFree | src/task/tasks.py:225-226 | a tuple without `None` is unchanged |
| ExcelRows.StripNone | src/task/tasks.py:223-228 | the `while None in item: remove(None)` loop equals `WithoutNone` |
| ExcelRows.StripEach | src/task/tasks.py:222-229 | each tuple of a bucket stripped, in order |
| ExcelRows.DeleteNone | src/task/tasks.py:209-231 | the three buckets stripped element by element, keys and order kept |
| ExcelRows.StrippedShapes | src/task/tasks.py:72-113 | a stripped menu tuple is (id, title, description); a stripped submenu tuple is (id, title, description, menu); a dish bucket tuple has five fields and no `None` |
| TitleSort.LessTransitive | src/task/tasks.py:172 | Python's string `<` is transitive |
| TitleSort.LessTotal | src/task/tasks.py:172 | two different titles are ordered one way or the other |
| TitleSort.SortByTitleSortsAndPermutes | src/task/tasks.py:172 | the sort yields a title-ordered permutation of its input |
| TitleSort.SortByTitleEmpty | src/task/tasks.py:178 | the sorted list is empty iff the sheet is |
| TitleSort.InsertKeepsTitleOrder | src/task/tasks.py:172 | inserting into a sorted list places the tuple behind every tuple that shares its title |
| TitleSort.SortByTitleIsStable | src/task/tasks.py:172 | the sort is stable: for every title, the tuples carrying it appear in their input order |
| ExcelDiscounts.CheckDiscount | src/utils/excel_discounts.py:12-27 | no file gives `{}`; otherwise the row loop builds `DiscountsOf` |
| ExcelDiscounts.DiscountKeys | src/utils/excel_discounts.py:21-26 | an id has a discount entry iff some seven-cell dish row with columns 0 and 1 empty names it |
| ExcelDiscounts.LastDiscountRowWins | src/utils/excel_discounts.py:23-26 | a dish's entry is its last row's discount cell, or `None` when that cell is blank |
| ExcelDiscounts.DifferentBetweenDiscounts | src/utils/excel_discounts.py:30-48 | the new store and the status equal `DiscountCheck` of the old store: no change only when the cached `'excel'` equals the sheet under Python's `==`, where a NaN cell never matches |
| ExcelDiscounts.AfterExcelDeletesAt | src/utils/excel_discounts.py:45-46 | after the loop, a key survives iff it is not a heavy view and contains no entry's id; survivors keep their values |
| ExcelDiscounts.ExcelEntrySurvives | src/utils/excel_discounts.py:44-46 | the freshly written `'excel'` is never removed by the deletes that follow it |
| ExcelDiscounts.RepeatedDiscountCheck | src/utils/excel_discounts.py:41-48 | after one check `'excel'` holds the sheet; a second check with the same sheet reports no change iff no cell is NaN, and then changes nothing; with a NaN cell it reports a change again |
| ExcelDiscounts.ChangeDropsMentionedEntities | src/utils/excel_discounts.py:41-47 | on a change the status is `'Discount changes detected'`, the heavy views are gone, and so is every cached dish or submenu whose key mentions an id of the sheet |
| ExcelDiscounts.ChangeKeepsUnrelatedKeys | src/utils/excel_discounts.py:45-46 | a key that mentions no id of the sheet and is not a heavy view keeps its value |
| ExcelTasks.Database.CreateTables | src/database.py:40-44 | dropping and recreating leaves all three tables empty |
| ExcelTasks.Database.InsertMenus | src/task/tasks.py:193 | appends the rows to the menu table only |
| ExcelTasks.Database.InsertSubmenus | src/task/tasks.py:194 | appends the rows to the submenu table only |
| ExcelTasks.Database.InsertDishes | src/task/tasks.py:195 | appends the rows to the dish table only |
| ExcelTasks.GetDataFromDb | src/task/tasks.py:117-161 | it queries iff `'db_data'` is absent; a hit returns the cached rows and changes nothing; a miss returns the snapshot and caches it under `'db_data'` |
| ExcelTasks.SheetIdsAreUuids | src/task/tasks.py:74-107 | every entry of a well-formed sheet starts with a UUID |
| ExcelTasks.ReplaceCatalogue | src/task/tasks.py:178-206 | the stores, tables and outcome equal `Replace`: an empty sheet clears everything and stores `'excel'`; a conflict answers 409 after the drop and flush; otherwise the stripped buckets are inserted and `'excel'` is stored |
| ExcelTasks.CompareData | src/task/tasks.py:164-206 | the cache, the tables, the cursor and the outcome equal `Reconcile`: a projection equal to the snapshot under Python's `==` (so without NaN) gives the discount check; otherwise `Replace` |
| ExcelTasks.RebuildInsertsEveryRowOnce | src/task/tasks.py:187-206 | a rebuild of a well-formed sheet inserts one row per sheet row, none holding `None`, and leaves only `'excel'` with the sheet in the cache |
| ExcelTasks.ConflictLosesCatalogue | src/task/tasks.py:189-200 | a conflicting rebuild answers 409 and leaves the tables and the cache empty |
| ExcelTasks.SecondRunChangesNothing | src/task/tasks.py:168-176 | after a rebuild from a self-contained sheet without NaN cells, a second run whose snapshot is the sheet's projection reports no changes and keeps the tables |
| ExcelTasks.NaNOnlyInPrice | src/task/tasks.py:72-113 | a well-formed row's tuple holds NaN iff it is a dish row with an empty price cell |
| ExcelTasks.NaNOnlyFromEmptyPrice | src/task/tasks.py:72-113 | a well-formed sheet's entries are free of NaN iff every dish row has its price cell filled |
| ExcelTasks.ProjectionKeepsNaNFree | src/task/tasks.py:171-172 | cutting to five fields and sorting add no NaN |
| ExcelTasks.ProjectionKeepsNaNPrice | src/task/tasks.py:171-172 | a NaN price survives the cut and the sort |
| ExcelTasks.EmptyPriceRebuildsEveryRun | src/task/tasks.py:173-206 | with an empty price cell every run, whatever the cache and the snapshot, rebuilds: it answers the update message (or 409 on a conflict) and leaves only `'excel'` (or nothing) in the cache |

## Left out

- UUID parsing and normalisation: ids are taken as canonical lower-case UUID text, so `UUID(...)` is the identity. Two `UUID` objects compare equal exactly when their canonical texts are equal, and the cursor's raw id text is turned into a `UUID` before any comparison.
- Decimal price rounding (`round(Decimal(...), 2)`) and the discount division `round(d / 100, 2)`: filled price and discount cells are kept as their text. An empty price cell is kept as NaN (`Catalog.Blank`), which `round(Decimal(nan), 2)` leaves NaN.
- pickle serialisation, wall-clock expiry (only the constant 1800 is kept), pandas reading of the file and `os.path.isfile` (the parameter `fileExists`).
- The SQL queries: the repositories' answers, the `db_data` snapshot and the joined full-menu rows are parameters. The database's `ORDER BY title` collation is not modelled; the snapshot is compared as given.
- The SQLAlchemy repositories themselves, HTTP routing and FastAPI's behaviour after an exception. Background tasks are drained only after a successful call.
- An integrity error on insert is the boolean parameter `conflict`; which titles collide is not modelled.
- ReplaceCatalogue: an insert of an empty bucket (a sheet without submenu rows, or without dish rows) is taken as inserting nothing. The source still runs `insert(X).values([])`, which SQLAlchemy turns into a one-row INSERT of column defaults; whether that row fails a NOT NULL column (an integrity error, then 409 after the drop and the flush) or is stored depends on the ORM models, which are not part of this model.
- Replace: same assumption, so a rebuild with an empty bucket yields that table empty and the update message.
- RebuildInsertsEveryRowOnce: its count of one table row per sheet row rests on the same assumption; a default row the database might add for an empty bucket is not counted.
- ExcelTasks.Database.InsertSubmenus and ExcelTasks.Database.InsertDishes (and InsertMenus): given no rows they change nothing, under the same assumption.
- Redis glob metacharacters: `CascadeDelete` and `ExcelCascadeDelete` require a pattern free of `*`, `?`, `[`, `]`, `^` and `\`, which every UUID meets.
- Aliasing in `_create_json`: the first item of an id is extended in place. The model builds the merged menu as a new value, which is what the returned list shows.
- Rows the source cannot process are excluded by preconditions (`ExcelRows.Ready`, `ExcelTasks.Sheet`, `FullMenuRepository.Parsable`):
  - a row too short for its category (pandas pads every row to the sheet's width);
  - a submenu row while no menu id has been read yet, in this run or an earlier one, and likewise a dish row without a submenu id (the source fails on `UUID(None)`);
  - a row with columns 0-2 all empty, whose empty entry has no title to sort by;
  - a blank title cell, which cannot be compared with text;
  - a full-menu row with dishes but no submenu.
- async/await, concurrency between requests and the Celery worker, and the 15-second schedule.
