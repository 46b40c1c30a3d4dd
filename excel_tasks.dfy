/**
  The reconciliation job `compare_data` (`src/task/tasks.py`): it compares
  the spreadsheet, cut to five fields and sorted by title, with the database
  snapshot (cached under `'db_data'`).  When they agree only the discounts are
  checked; when the sheet is empty the database and the cache are cleared;
  otherwise the tables are dropped and refilled from the sheet.
 */
module ExcelTasks {
  import opened Common
  import opened CacheKeys
  import opened Catalog
  import opened RedisCache
  import opened ExcelRows
  import opened TitleSort
  import opened ExcelDiscounts

  const EmptySheet := "Excel file is empty, database cleared"
  const DatabaseUpdated := "Changes detected between excel file and database, database updated"
  const TitleExists := "This title already exists"

  /** What the job ends with: its message, or the HTTP error it raises. */
  datatype Outcome = Message(text: string) | HttpError(status: nat, detail: string)

  /** The three catalogue tables, each as the list of rows inserted into it. */
  class Database {
    var menus: seq<Tuple>
    var submenus: seq<Tuple>
    var dishes: seq<Tuple>

    constructor (initial: Buckets)
      ensures Contents() == initial
    {
      menus, submenus, dishes := initial.menus, initial.submenus, initial.dishes;
    }

    function Contents(): Buckets
      reads this
    {
      Buckets(menus, submenus, dishes)
    }

    /** `create_tables`: drop every table and create it again, empty. */
    method CreateTables()
      modifies this
      ensures Contents() == Buckets([], [], [])
    {
      menus, submenus, dishes := [], [], [];
    }

    /** `insert(Menu).values(rows)` */
    method InsertMenus(rows: seq<Tuple>)
      modifies this
      ensures Contents() == old(Contents()).(menus := old(menus) + rows)
    {
      menus := menus + rows;
    }

    /** `insert(Submenu).values(rows)` */
    method InsertSubmenus(rows: seq<Tuple>)
      modifies this
      ensures Contents() == old(Contents()).(submenus := old(submenus) + rows)
    {
      submenus := submenus + rows;
    }

    /** `insert(Dish).values(rows)` */
    method InsertDishes(rows: seq<Tuple>)
      modifies this
      ensures Contents() == old(Contents()).(dishes := old(dishes) + rows)
    {
      dishes := dishes + rows;
    }
  }

  /**
    `_get_data_from_db`: any stored `'db_data'` is returned as is; otherwise
    the query's answer `snapshot` (the tables' rows ordered by title) is
    cached and returned.
   */
  method GetDataFromDb(cache: Cache<Value>, snapshot: seq<Tuple>) returns (r: Value, queried: bool)
    modifies cache
    ensures queried <==> DbDataKey !in old(cache.store)
    ensures !queried ==> r == old(cache.store)[DbDataKey].value && cache.store == old(cache.store)
    ensures queried ==> r == Rows(snapshot) && cache.store == AfterAdd(old(cache.store), DbDataKey, Rows(snapshot))
  {
    var cached := cache.Get(DbDataKey);
    if cached.Some? {
      return cached.value, false;
    }
    cache.Add(DbDataKey, Rows(snapshot));
    return Rows(snapshot), true;
  }

  /** The cells a row's category reads as its id and its title. */
  function IdColumn(row: Row): nat
  {
    if IsMenuRow(row) then 0 else if IsSubmenuRow(row) then 1 else 2
  }

  /**
    What the job needs of a row beyond being readable: one of the first three
    columns is filled (an empty row has no title to sort by), its id is a
    UUID, and its title cell is filled (an empty one cannot be compared with
    text).
   */
  predicate WellFormed(row: Row)
  {
    var c := IdColumn(row);
    Cell(row, c).Some? && IsUuid(Cell(row, c).value) && Cell(row, c + 1).Some?
  }

  predicate Sheet(rows: seq<Row>, cur: Cursor)
  {
    Ready(rows, cur) && forall i :: 0 <= i < |rows| ==> WellFormed(rows[i])
  }

  /** `excel_data_list_wo_discounts` after the sort: every entry cut to five fields, in title order. */
  function Projection(entries: seq<Tuple>): seq<Tuple>
  {
    SortByTitle(Truncated(entries))
  }

  /** The cache, the tables, the cursor and the outcome after one run of the job. */
  datatype Reconciled = Reconciled(store: Store<Value>, tables: Buckets, cursor: Cursor, outcome: Outcome)

  /** The cache, the tables and the outcome once the sheet was found to differ from the snapshot. */
  datatype Replaced = Replaced(store: Store<Value>, tables: Buckets, outcome: Outcome)

  /** The rebuild branch of `compare_data`; inserting an empty bucket is taken to add no row. */
  function Replace(entries: seq<Tuple>, buckets: Buckets, conflict: bool): Replaced
  {
    if entries == [] then
      Replaced(AfterAdd(map[], ExcelKey, Rows(entries)), Buckets([], [], []), Message(EmptySheet))
    else if conflict then
      Replaced(map[], Buckets([], [], []), HttpError(409, TitleExists))
    else
      Replaced(AfterAdd(map[], ExcelKey, Rows(entries)),
               Buckets(Stripped(buckets.menus), Stripped(buckets.submenus), Stripped(buckets.dishes)),
               Message(DatabaseUpdated))
  }

  /**
    One run of `compare_data` from cache `m`, tables `tables` and cursor
    `cur`; `snapshot` is what the database query would answer and `conflict`
    whether the inserts raise an integrity error.  Such an error is caught
    after the tables were dropped and the cache flushed by calls that commit
    on their own, so the rollback leaves both empty.
   */
  function Reconcile(m: Store<Value>, tables: Buckets, rows: seq<Row>, cur: Cursor, snapshot: seq<Tuple>,
                     conflict: bool): Reconciled
  {
    var sql := if DbDataKey in m then m[DbDataKey].value else Rows(snapshot);
    var read := if DbDataKey in m then m else AfterAdd(m, DbDataKey, Rows(snapshot));
    var s := Scan(rows, cur);
    if EqualsRows(sql, Projection(s.entries)) then
      var (store, status) := DiscountCheck(read, s.entries);
      Reconciled(store, tables, s.cursor, Message(status))
    else
      var r := Replace(s.entries, BucketsOf(s), conflict);
      Reconciled(r.store, r.tables, s.cursor, r.outcome)
  }

  /** A well-formed sheet gives entries that start with a UUID, as `excel_cascade_delete` needs. */
  lemma SheetIdsAreUuids(rows: seq<Row>, cur: Cursor)
    requires Sheet(rows, cur)
    ensures IdsAreUuids(Scan(rows, cur).entries)
  {
    forall i | 0 <= i < |rows|
      ensures var e := Scan(rows, cur).entries[i]; |e| > 0 && e[0].Val? && IsUuid(e[0].text)
    {
      ScanEntry(rows, cur, i);
    }
  }

  /** The part of `compare_data` that runs when the sheet differs from the snapshot. */
  method ReplaceCatalogue(cache: Cache<Value>, db: Database, entries: seq<Tuple>, buckets: Buckets, conflict: bool)
    returns (outcome: Outcome)
    modifies cache, db
    ensures Replaced(cache.store, db.Contents(), outcome) == Replace(entries, buckets, conflict)
  {
    if Projection(entries) == [] {
      SortByTitleEmpty(Truncated(entries));
      db.CreateTables();
      cache.FlushDb();
      cache.Add(ExcelKey, Rows(entries));
      return Message(EmptySheet);
    }
    SortByTitleEmpty(Truncated(entries));
    var stripped := DeleteNone(buckets);
    db.CreateTables();
    cache.FlushDb();
    if conflict {
      // the inserts are rolled back; the drop and the flush above are not
      return HttpError(409, TitleExists);
    }
    db.InsertMenus(stripped.menus);
    db.InsertSubmenus(stripped.submenus);
    db.InsertDishes(stripped.dishes);
    cache.Add(ExcelKey, Rows(entries));
    return Message(DatabaseUpdated);
  }

  /** `compare_data` */
  method CompareData(cache: Cache<Value>, db: Database, g: Globals, rows: seq<Row>, snapshot: seq<Tuple>,
                     conflict: bool)
    returns (outcome: Outcome)
    requires Sheet(rows, g.Cur())
    modifies cache, db, g
    ensures Reconciled(cache.store, db.Contents(), g.Cur(), outcome) ==
            Reconcile(old(cache.store), old(db.Contents()), rows, old(g.Cur()), snapshot, conflict)
  {
    SheetIdsAreUuids(rows, g.Cur());
    var sql, _ := GetDataFromDb(cache, snapshot);
    var entries, buckets := ReadExcelFile(g, rows);
    if EqualsRows(sql, Projection(entries)) {
      var status := DifferentBetweenDiscounts(cache, entries);
      return Message(status);
    }
    outcome := ReplaceCatalogue(cache, db, entries, buckets, conflict);
  }

  // ---------------------------------------------------------------------------
  // Properties of a run.

  /**
    A rebuild of a sheet the job can process inserts one row per spreadsheet
    row, none of them holding a None field, and leaves only the sheet under
    `'excel'` in the cache.  An empty bucket is taken to insert nothing.
   */
  lemma RebuildInsertsEveryRowOnce(m: Store<Value>, tables: Buckets, rows: seq<Row>, cur: Cursor,
                                   snapshot: seq<Tuple>)
    requires Sheet(rows, cur)
    requires Reconcile(m, tables, rows, cur, snapshot, false).outcome == Message(DatabaseUpdated)
    ensures var r := Reconcile(m, tables, rows, cur, snapshot, false);
      && |r.tables.menus| + |r.tables.submenus| + |r.tables.dishes| == |rows|
      && (forall t :: t in r.tables.menus || t in r.tables.submenus || t in r.tables.dishes ==> NoneField !in t)
      && r.store.Keys == {ExcelKey} && r.store[ExcelKey].value == Rows(Scan(rows, cur).entries)
  {
    var s := Scan(rows, cur);
    BucketsPartitionEntries(s.entries, s.kinds);
  }

  /**
    A conflicting rebuild answers 409 and leaves the tables and the cache
    empty: the old catalogue is not restored.
   */
  lemma ConflictLosesCatalogue(m: Store<Value>, tables: Buckets, rows: seq<Row>, cur: Cursor, snapshot: seq<Tuple>)
    requires rows != []
    requires !EqualsRows(if DbDataKey in m then m[DbDataKey].value else Rows(snapshot), Projection(Scan(rows, cur).entries))
    ensures var r := Reconcile(m, tables, rows, cur, snapshot, true);
      r.outcome == HttpError(409, TitleExists) && r.tables == Buckets([], [], []) && r.store == map[]
  {
  }

  /**
    Running the job twice on the same self-contained sheet without an empty
    cell: once the database answers with the sheet's own rows, the second
    run changes no table and reports no discount change.
   */
  lemma SecondRunChangesNothing(m: Store<Value>, tables: Buckets, rows: seq<Row>, cur: Cursor, snapshot: seq<Tuple>,
                                snapshot': seq<Tuple>, conflict': bool)
    requires SelfContained(rows) && IdsAreUuids(Scan(rows, cur).entries) && NaNFree(Scan(rows, cur).entries)
    requires Reconcile(m, tables, rows, cur, snapshot, false).outcome == Message(DatabaseUpdated)
    requires snapshot' == Projection(Scan(rows, cur).entries)
    ensures var r1 := Reconcile(m, tables, rows, cur, snapshot, false);
      var r2 := Reconcile(r1.store, r1.tables, rows, r1.cursor, snapshot', conflict');
      r2.outcome == Message(NoChanges) && r2.tables == r1.tables &&
      r2.store == AfterAdd(r1.store, DbDataKey, Rows(snapshot'))
  {
    var r1 := Reconcile(m, tables, rows, cur, snapshot, false);
    SelfContainedIgnoresCursor(rows, cur, r1.cursor);
    ProjectionKeepsNaNFree(Scan(rows, cur).entries);
    assert DbDataKey !in r1.store;
  }

  // ---------------------------------------------------------------------------
  // Empty price cells.  `round(Decimal(nan), 2)` is a NaN decimal, and NaN
  // equals nothing, so a sheet with an empty price never matches anything.

  /** Every dish row has its price cell filled. */
  predicate PricesFilled(rows: seq<Row>)
  {
    forall i :: 0 <= i < |rows| && IsDishRow(rows[i]) ==> Cell(rows[i], 5).Some?
  }

  /** On a well-formed sheet the only NaN a tuple can hold is an empty dish price. */
  lemma NaNOnlyFromEmptyPrice(rows: seq<Row>, cur: Cursor)
    requires Sheet(rows, cur)
    ensures NaNFree(Scan(rows, cur).entries) <==> PricesFilled(rows)
  {
    var s := Scan(rows, cur);
    forall i | 0 <= i < |rows|
      ensures Blank in s.entries[i] <==> IsDishRow(rows[i]) && Cell(rows[i], 5).None?
    {
      ScanEntry(rows, cur, i);
      NaNOnlyInPrice(rows[i], Scan(rows[..i], cur).cursor);
    }
  }

  /** One well-formed row: its tuple holds a NaN exactly when it is a dish row with an empty price. */
  lemma NaNOnlyInPrice(row: Row, cur: Cursor)
    requires WellFormed(row)
    ensures Blank in Classify(row, cur).entry <==> IsDishRow(row) && Cell(row, 5).None?
  {
  }

  /** Cutting to five fields and sorting add no NaN. */
  lemma ProjectionKeepsNaNFree(entries: seq<Tuple>)
    requires NaNFree(entries)
    ensures NaNFree(Projection(entries))
  {
    var t := Truncated(entries);
    SortByTitleSortsAndPermutes(t);
    forall j | 0 <= j < |Projection(entries)|
      ensures Blank !in Projection(entries)[j]
    {
      var p := Projection(entries)[j];
      assert p in multiset(SortByTitle(t));
      var i :| 0 <= i < |t| && t[i] == p;
      assert Blank !in entries[i];
    }
  }

  /** A NaN price keeps its place in the cut tuple, and sorting keeps the tuple. */
  lemma ProjectionKeepsNaNPrice(entries: seq<Tuple>, i: nat)
    requires i < |entries| && |entries[i]| > 3 && entries[i][3] == Blank
    ensures !NaNFree(Projection(entries))
  {
    var t := Truncated(entries);
    SortByTitleSortsAndPermutes(t);
    assert t[i][3] == Blank;
    assert t[i] in multiset(SortByTitle(t));
  }

  /**
    A sheet with an empty price cell never matches the snapshot: every run
    drops and refills the tables (or, on a conflict, leaves them empty) and
    flushes the cache, whatever the cache and the database hold.
   */
  lemma EmptyPriceRebuildsEveryRun(m: Store<Value>, tables: Buckets, rows: seq<Row>, cur: Cursor,
                                   snapshot: seq<Tuple>, conflict: bool, i: nat)
    requires i < |rows| && IsDishRow(rows[i]) && Cell(rows[i], 5).None?
    ensures var r := Reconcile(m, tables, rows, cur, snapshot, conflict);
      && r.outcome == (if conflict then HttpError(409, TitleExists) else Message(DatabaseUpdated))
      && r.store.Keys == (if conflict then {} else {ExcelKey})
  {
    ScanEntry(rows, cur, i);
    ProjectionKeepsNaNPrice(Scan(rows, cur).entries, i);
  }
}
