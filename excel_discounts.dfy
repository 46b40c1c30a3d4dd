/**
  The discount tracker (`src/utils/excel_discounts.py`): the discounts the
  spreadsheet assigns to dishes, and the comparison of the spreadsheet with
  the copy cached under `'excel'` that drops every cache entry mentioning
  one of its ids when they differ.
 */
module ExcelDiscounts {
  import opened Common
  import opened CacheKeys
  import opened Catalog
  import opened RedisCache
  import opened ExcelRows

  const NoChanges := "No changes found"
  const ChangesDetected := "Discount changes detected"

  // ---------------------------------------------------------------------------
  // `check_discount`

  /** A seven-column dish row: only column 2 of the first three is filled. */
  predicate IsDiscountRow(row: Row)
  {
    |row| == 7 && row[0].None? && row[1].None? && row[2].Some?
  }

  /**
    The discount map built from `rows` in order: a later row for the same dish
    overwrites an earlier one.  The value is the discount cell (`None` when
    empty), kept as its text.
   */
  function DiscountsOf(rows: seq<Row>): map<string, Option<string>>
    decreases |rows|
  {
    if rows == [] then map[]
    else
      var last := rows[|rows| - 1];
      var earlier := DiscountsOf(rows[..|rows| - 1]);
      if IsDiscountRow(last) then earlier[last[2].value := last[6]] else earlier
  }

  /** `check_discount`: no file, no discounts. */
  method CheckDiscount(fileExists: bool, rows: seq<Row>) returns (discounts: map<string, Option<string>>)
    ensures discounts == if fileExists then DiscountsOf(rows) else map[]
  {
    discounts := map[];
    if fileExists {
      for i := 0 to |rows|
        invariant discounts == DiscountsOf(rows[..i])
      {
        assert rows[..i + 1][..i] == rows[..i];
        var row := rows[i];
        if |row| == 7 {
          if row[2].Some? && row[0].None? && row[1].None? {
            if row[6].Some? {
              discounts := discounts[row[2].value := row[6]];
            } else {
              discounts := discounts[row[2].value := None];
            }
          }
        }
      }
      assert rows[..|rows|] == rows;
    }
  }

  /** A dish has a discount entry exactly when some seven-column dish row names it. */
  lemma {:induction false} DiscountKeys(rows: seq<Row>, id: string)
    ensures id in DiscountsOf(rows) <==> exists i :: 0 <= i < |rows| && IsDiscountRow(rows[i]) && rows[i][2].value == id
    decreases |rows|
  {
    if rows != [] {
      var n := |rows| - 1;
      DiscountKeys(rows[..n], id);
      if exists i :: 0 <= i < n && IsDiscountRow(rows[..n][i]) && rows[..n][i][2].value == id {
        var i :| 0 <= i < n && IsDiscountRow(rows[..n][i]) && rows[..n][i][2].value == id;
        assert rows[i] == rows[..n][i];
      }
      if exists i :: 0 <= i < |rows| && IsDiscountRow(rows[i]) && rows[i][2].value == id {
        var i :| 0 <= i < |rows| && IsDiscountRow(rows[i]) && rows[i][2].value == id;
        if i < n {
          assert rows[..n][i] == rows[i];
        }
      }
    }
  }

  /** Rows after `i` that do not name `id` leave its entry alone. */
  lemma {:induction false} DiscountSkips(rows: seq<Row>, i: nat, id: string)
    requires i <= |rows|
    requires forall j :: i <= j < |rows| && IsDiscountRow(rows[j]) ==> rows[j][2].value != id
    ensures id in DiscountsOf(rows) <==> id in DiscountsOf(rows[..i])
    ensures id in DiscountsOf(rows) ==> DiscountsOf(rows)[id] == DiscountsOf(rows[..i])[id]
    decreases |rows|
  {
    if i < |rows| {
      var n := |rows| - 1;
      assert rows[..n][..i] == rows[..i];
      assert forall j :: i <= j < n ==> rows[..n][j] == rows[j];
      DiscountSkips(rows[..n], i, id);
    } else {
      assert rows[..i] == rows;
    }
  }

  /** The discount of a dish is the one of the last row naming it. */
  lemma {:induction false} LastDiscountRowWins(rows: seq<Row>, i: nat)
    requires i < |rows| && IsDiscountRow(rows[i])
    requires forall j :: i < j < |rows| && IsDiscountRow(rows[j]) ==> rows[j][2] != rows[i][2]
    ensures rows[i][2].value in DiscountsOf(rows) && DiscountsOf(rows)[rows[i][2].value] == rows[i][6]
  {
    DiscountSkips(rows, i + 1, rows[i][2].value);
    assert rows[..i + 1][..i] == rows[..i];
  }

  // ---------------------------------------------------------------------------
  // `different_between_discounts`

  /** `item[0]`, the entity id the invalidation pattern is built from. */
  function IdOf(t: Tuple): string
  {
    if |t| > 0 && t[0].Val? then t[0].text else ""
  }

  /** Every entry starts with the canonical text of a UUID. */
  predicate IdsAreUuids(entries: seq<Tuple>)
  {
    forall i :: 0 <= i < |entries| ==> |entries[i]| > 0 && entries[i][0].Val? && IsUuid(entries[i][0].text)
  }

  /** The store after `excel_cascade_delete(item[0])` for every entry in turn. */
  function AfterExcelDeletes(m: Store<Value>, entries: seq<Tuple>): Store<Value>
    decreases |entries|
  {
    if entries == [] then m
    else AfterExcelCascadeDelete(AfterExcelDeletes(m, entries[..|entries| - 1]), IdOf(entries[|entries| - 1]))
  }

  /** `different_between_discounts` on store `m`: the new store and the message. */
  function DiscountCheck(m: Store<Value>, entries: seq<Tuple>): (Store<Value>, string)
  {
    if ExcelKey in m && EqualsRows(m[ExcelKey].value, entries) then (m, NoChanges)
    else (AfterExcelDeletes(AfterAdd(m, ExcelKey, Rows(entries)), entries), ChangesDetected)
  }

  /** `different_between_discounts`: store the sheet under `'excel'` and drop what mentions its ids, unless unchanged. */
  method DifferentBetweenDiscounts(cache: Cache<Value>, entries: seq<Tuple>) returns (status: string)
    requires IdsAreUuids(entries)
    modifies cache
    ensures (cache.store, status) == DiscountCheck(old(cache.store), entries)
  {
    var cached := cache.Get(ExcelKey);
    if cached.None? || !EqualsRows(cached.value, entries) {
      cache.Add(ExcelKey, Rows(entries));
      ghost var added := cache.store;
      for i := 0 to |entries|
        invariant cache.store == AfterExcelDeletes(added, entries[..i])
      {
        assert entries[..i + 1][..i] == entries[..i];
        UuidCharacters(entries[i][0].text);
        cache.ExcelCascadeDelete(entries[i][0].text);
      }
      assert entries[..|entries|] == entries;
      return ChangesDetected;
    }
    return NoChanges;
  }

  /** Some entry's id occurs in key `k`. */
  predicate MentionsSome(k: string, entries: seq<Tuple>)
  {
    exists i :: 0 <= i < |entries| && Contains(k, IdOf(entries[i]))
  }

  lemma MentionsSomeSnoc(k: string, entries: seq<Tuple>)
    requires entries != []
    ensures var n := |entries| - 1;
      MentionsSome(k, entries) <==> MentionsSome(k, entries[..n]) || Contains(k, IdOf(entries[n]))
  {
    var n := |entries| - 1;
    if MentionsSome(k, entries[..n]) {
      var i :| 0 <= i < n && Contains(k, IdOf(entries[..n][i]));
      assert entries[..n][i] == entries[i];
    }
    if MentionsSome(k, entries) {
      var i :| 0 <= i < |entries| && Contains(k, IdOf(entries[i]));
      if i < n {
        assert entries[..n][i] == entries[i];
      }
    }
  }

  /** One `excel_cascade_delete`, seen at a single key. */
  lemma ExcelCascadeAt(m: Store<Value>, pattern: string, k: string)
    ensures var r := AfterExcelCascadeDelete(m, pattern);
      (k in r <==> k in m && k != FullKey && k != DbDataKey && !Contains(k, pattern)) && (k in r ==> r[k] == m[k])
  {
  }

  /**
    After the per-id deletions a key survives exactly when it is not one of
    the heavy views (once there was anything to delete) and mentions none of
    the ids; survivors keep their entries.
   */
  lemma {:induction false} AfterExcelDeletesAt(m: Store<Value>, entries: seq<Tuple>, k: string)
    ensures var r := AfterExcelDeletes(m, entries);
      k in r <==> k in m && (entries != [] ==> k != FullKey && k != DbDataKey) && !MentionsSome(k, entries)
    ensures var r := AfterExcelDeletes(m, entries); k in r ==> r[k] == m[k]
    decreases |entries|
  {
    if entries != [] {
      var n := |entries| - 1;
      AfterExcelDeletesAt(m, entries[..n], k);
      MentionsSomeSnoc(k, entries);
      ExcelCascadeAt(AfterExcelDeletes(m, entries[..n]), IdOf(entries[n]), k);
    }
  }

  /** `'excel'` embeds no UUID, so the deletions keep it. */
  lemma {:induction false} ExcelEntrySurvives(m: Store<Value>, entries: seq<Tuple>)
    requires IdsAreUuids(entries)
    ensures var r := AfterExcelDeletes(m, entries); ExcelKey in r <==> ExcelKey in m
    ensures var r := AfterExcelDeletes(m, entries); ExcelKey in r ==> r[ExcelKey] == m[ExcelKey]
  {
    AfterExcelDeletesAt(m, entries, ExcelKey);
    if MentionsSome(ExcelKey, entries) {
      var i :| 0 <= i < |entries| && Contains(ExcelKey, IdOf(entries[i]));
      ShortKeyMentionsNoUuid(ExcelKey, IdOf(entries[i]));
    }
  }

  /**
    Checking the same sheet twice: afterwards `'excel'` holds the sheet, and
    the second check changes nothing exactly when no cell is NaN; a sheet
    with an empty cell is reported changed, and its ids deleted, every time.
   */
  lemma RepeatedDiscountCheck(m: Store<Value>, entries: seq<Tuple>)
    requires IdsAreUuids(entries)
    ensures var (r, _) := DiscountCheck(m, entries);
      && ExcelKey in r && r[ExcelKey].value == Rows(entries)
      && (DiscountCheck(r, entries).1 == NoChanges <==> NaNFree(entries))
      && (NaNFree(entries) ==> DiscountCheck(r, entries).0 == r)
      && (!NaNFree(entries) ==> DiscountCheck(r, entries).1 == ChangesDetected)
  {
    ExcelEntrySurvives(AfterAdd(m, ExcelKey, Rows(entries)), entries);
  }

  /**
    When a change is reported, every cached dish whose menu, submenu or own
    id is in the sheet is gone, and so is every submenu entry whose menu or
    own id is in it.
   */
  lemma ChangeDropsMentionedEntities(m: Store<Value>, entries: seq<Tuple>, i: nat, menuId: string,
                                     submenuId: string, dishId: string)
    requires IdsAreUuids(entries) && i < |entries|
    requires IsUuid(menuId) && IsUuid(submenuId) && IsUuid(dishId)
    requires !(ExcelKey in m && EqualsRows(m[ExcelKey].value, entries))
    ensures var (r, status) := DiscountCheck(m, entries); var x := IdOf(entries[i]);
      && status == ChangesDetected
      && FullKey !in r && DbDataKey !in r
      && (x in {menuId, submenuId, dishId} ==> DishKey(menuId, submenuId, dishId) !in r)
      && (x in {menuId, submenuId} ==> SubmenuKey(menuId, submenuId) !in r)
  {
    var added := AfterAdd(m, ExcelKey, Rows(entries));
    var x := IdOf(entries[i]);
    AfterExcelDeletesAt(added, entries, FullKey);
    AfterExcelDeletesAt(added, entries, DbDataKey);
    DishKeyMentions(menuId, submenuId, dishId, x);
    SubmenuKeyMentions(menuId, submenuId, x);
    AfterExcelDeletesAt(added, entries, DishKey(menuId, submenuId, dishId));
    AfterExcelDeletesAt(added, entries, SubmenuKey(menuId, submenuId));
  }

  /** When a change is reported, a cached key that mentions none of the sheet's ids and is not a heavy view stays. */
  lemma ChangeKeepsUnrelatedKeys(m: Store<Value>, entries: seq<Tuple>, k: string)
    requires k in m && k !in {FullKey, DbDataKey, ExcelKey} && !MentionsSome(k, entries)
    ensures var (r, _) := DiscountCheck(m, entries); k in r && r[k] == m[k]
  {
    AfterExcelDeletesAt(AfterAdd(m, ExcelKey, Rows(entries)), entries, k);
  }
}
