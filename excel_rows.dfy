/**
  Reading the menu spreadsheet (`src/task/tasks.py`): each row is classified
  as a menu, a submenu or a dish by which of its first three columns is
  filled, and turned into the tuple the database insert expects.  The ids of
  the current menu and submenu are module globals in the program; here they
  are the fields of a `Globals` object, written by `CreateDataForBd` and
  carried from one run of the job to the next.
 */
module ExcelRows {
  import opened Common
  import opened Catalog

  /** A spreadsheet row as pandas yields it: each cell holds text or is empty (NaN). */
  type Row = seq<Option<string>>

  /** The category `_create_data_for_bd` returns with each tuple. */
  datatype Kind = MenuKind | SubmenuKind | DishKind

  /** `global_menu_id` and `global_submenu_id`: the raw id cells of the latest menu and submenu rows. */
  datatype Cursor = Cursor(menuId: Option<string>, submenuId: Option<string>)

  /** The cell in column `i`; a column the row does not have reads as empty. */
  function Cell(row: Row, i: nat): Option<string>
  {
    if i < |row| then row[i] else None
  }

  predicate IsMenuRow(row: Row)
  {
    Cell(row, 0).Some?
  }

  predicate IsSubmenuRow(row: Row)
  {
    Cell(row, 0).None? && Cell(row, 1).Some?
  }

  predicate IsDishRow(row: Row)
  {
    Cell(row, 0).None? && Cell(row, 1).None? && Cell(row, 2).Some?
  }

  /** A cell copied unconverted: an empty one stays NaN. */
  function AsField(c: Option<string>): Field
  {
    if c.Some? then Val(c.value) else Blank
  }

  /** `x if not pd.isnull(x) else 'null'` */
  function OrNull(c: Option<string>): Field
  {
    if c.Some? then Val(c.value) else Val("null")
  }

  /** `x if not pd.isnull(x) else None`; also a parent id taken from the cursor. */
  function OrNone(c: Option<string>): Field
  {
    if c.Some? then Val(c.value) else NoneField
  }

  /** The row has every column its category reads (otherwise the program fails with an index error). */
  predicate Readable(row: Row)
  {
    && |row| >= 3
    && (IsSubmenuRow(row) ==> |row| >= 4)
    && (IsDishRow(row) ==> |row| >= 6)
  }

  /** The cursor holds the parent id the row needs (otherwise `UUID(None)` fails). */
  predicate CursorReady(row: Row, cur: Cursor)
  {
    && (IsSubmenuRow(row) ==> cur.menuId.Some?)
    && (IsDishRow(row) ==> cur.submenuId.Some?)
  }

  /** The outcome of `_create_data_for_bd` on one row: the tuple, its category and the new cursor. */
  datatype Classified = Classified(entry: Tuple, kind: Kind, cursor: Cursor)

  /**
    `_create_data_for_bd`.  A menu tuple is `(id, title, description or
    'null', None, None)`; a submenu tuple ends with the current menu id; a
    dish tuple is `(id, title, description or 'null', price, submenu id)`,
    plus the discount (or None) when the row has seven cells.  A row with
    none of the first three columns filled gives an empty entry filed as a
    menu.  Prices are carried as the cell's text; an empty one stays NaN.
   */
  function Classify(row: Row, cur: Cursor): Classified
  {
    if IsMenuRow(row) then
      Classified([Val(Cell(row, 0).value), AsField(Cell(row, 1)), OrNull(Cell(row, 2)), NoneField, NoneField],
                 MenuKind, cur.(menuId := Cell(row, 0)))
    else if IsSubmenuRow(row) then
      Classified([Val(Cell(row, 1).value), AsField(Cell(row, 2)), OrNull(Cell(row, 3)), NoneField, OrNone(cur.menuId)],
                 SubmenuKind, cur.(submenuId := Cell(row, 1)))
    else if IsDishRow(row) then
      var dish := [Val(Cell(row, 2).value), AsField(Cell(row, 3)), OrNull(Cell(row, 4)), AsField(Cell(row, 5)),
                   OrNone(cur.submenuId)];
      Classified(if |row| == 7 then dish + [OrNone(Cell(row, 6))] else dish, DishKind, cur)
    else
      Classified([], MenuKind, cur)
  }

  /** The entries, categories and final cursor after classifying `rows` in order. */
  datatype Scanned = Scanned(entries: seq<Tuple>, kinds: seq<Kind>, cursor: Cursor)

  /** One row of `_read_excel_file`'s loop. */
  function Step(s: Scanned, row: Row): Scanned
  {
    var c := Classify(row, s.cursor);
    Scanned(s.entries + [c.entry], s.kinds + [c.kind], c.cursor)
  }

  function Scan(rows: seq<Row>, cur: Cursor): (s: Scanned)
    ensures |s.entries| == |rows| && |s.kinds| == |rows|
    decreases |rows|
  {
    if rows == [] then Scanned([], [], cur) else Step(Scan(rows[..|rows| - 1], cur), rows[|rows| - 1])
  }

  lemma ScanSnoc(rows: seq<Row>, cur: Cursor, i: nat)
    requires i < |rows|
    ensures Scan(rows[..i + 1], cur) == Step(Scan(rows[..i], cur), rows[i])
  {
    assert rows[..i + 1][..i] == rows[..i];
  }

  /** Every row can be read with the cursor it meets. */
  predicate Ready(rows: seq<Row>, cur: Cursor)
  {
    forall i :: 0 <= i < |rows| ==> Readable(rows[i]) && CursorReady(rows[i], Scan(rows[..i], cur).cursor)
  }

  /** The entries of category `k`, in order. */
  function Select(entries: seq<Tuple>, kinds: seq<Kind>, k: Kind): seq<Tuple>
    requires |entries| == |kinds|
    decreases |entries|
  {
    if entries == [] then []
    else
      var n := |entries| - 1;
      Select(entries[..n], kinds[..n], k) + if kinds[n] == k then [entries[n]] else []
  }

  /** `data_as_sql[:5]` */
  function Take5(t: Tuple): Tuple
  {
    if |t| <= 5 then t else t[..5]
  }

  function Truncated(ts: seq<Tuple>): (r: seq<Tuple>)
    ensures |r| == |ts| && forall i :: 0 <= i < |ts| ==> r[i] == Take5(ts[i])
  {
    seq(|ts|, i requires 0 <= i < |ts| => Take5(ts[i]))
  }

  /** `excel_data_dict`: the three lists the database is refilled from. */
  datatype Buckets = Buckets(menus: seq<Tuple>, submenus: seq<Tuple>, dishes: seq<Tuple>)

  /** The buckets `_read_excel_file` fills from the scanned entries. */
  function BucketsOf(s: Scanned): Buckets
    requires |s.entries| == |s.kinds|
  {
    Buckets(Select(s.entries, s.kinds, MenuKind), Select(s.entries, s.kinds, SubmenuKind),
            Truncated(Select(s.entries, s.kinds, DishKind)))
  }

  /** Filing one more entry appends it to its own bucket only (a dish cut to five fields). */
  lemma BucketsOfSnoc(s: Scanned, row: Row)
    requires |s.entries| == |s.kinds|
    ensures var b, c := BucketsOf(s), Classify(row, s.cursor);
      BucketsOf(Step(s, row)) == match c.kind
        case MenuKind => b.(menus := b.menus + [c.entry])
        case SubmenuKind => b.(submenus := b.submenus + [c.entry])
        case DishKind => b.(dishes := b.dishes + [Take5(c.entry)])
  {
    var t := Step(s, row);
    var n := |s.entries|;
    assert t.entries[..n] == s.entries && t.kinds[..n] == s.kinds;
    var d := Select(s.entries, s.kinds, DishKind);
    assert Truncated(d + [t.entries[n]]) == Truncated(d) + [Take5(t.entries[n])];
  }

  /** The module-level cursor of the reconciliation job. */
  class Globals {
    var menuId: Option<string>
    var submenuId: Option<string>

    constructor (start: Cursor)
      ensures Cur() == start
    {
      menuId, submenuId := start.menuId, start.submenuId;
    }

    function Cur(): Cursor
      reads this
    {
      Cursor(menuId, submenuId)
    }

    /** `_create_data_for_bd`: build the row's tuple and move the cursor. */
    method CreateDataForBd(row: Row) returns (entry: Tuple, kind: Kind)
      requires Readable(row) && CursorReady(row, Cur())
      modifies this
      ensures Classified(entry, kind, Cur()) == Classify(row, old(Cur()))
    {
      if row[0].Some? {
        entry := [Val(row[0].value), AsField(row[1]), OrNull(row[2]), NoneField, NoneField];
        menuId := row[0];
        return entry, MenuKind;
      } else if row[1].Some? {
        entry := [Val(row[1].value), AsField(row[2]), OrNull(row[3]), NoneField, Val(menuId.value)];
        submenuId := row[1];
        return entry, SubmenuKind;
      } else if row[2].Some? {
        if |row| == 7 {
          entry := [Val(row[2].value), AsField(row[3]), OrNull(row[4]), AsField(row[5]), Val(submenuId.value),
                    OrNone(row[6])];
        } else {
          entry := [Val(row[2].value), AsField(row[3]), OrNull(row[4]), AsField(row[5]), Val(submenuId.value)];
        }
        return entry, DishKind;
      }
      return [], MenuKind;
    }
  }

  /** `_read_excel_file`: classify every row in order, keep the flat list and file each entry in its bucket. */
  method ReadExcelFile(g: Globals, rows: seq<Row>) returns (entries: seq<Tuple>, buckets: Buckets)
    requires Ready(rows, g.Cur())
    modifies g
    ensures var s := Scan(rows, old(g.Cur()));
      entries == s.entries && g.Cur() == s.cursor && buckets == BucketsOf(s)
  {
    ghost var start := g.Cur();
    ghost var kinds: seq<Kind> := [];
    entries, buckets := [], Buckets([], [], []);
    for i := 0 to |rows|
      invariant Scan(rows[..i], start) == Scanned(entries, kinds, g.Cur())
      invariant buckets == BucketsOf(Scanned(entries, kinds, g.Cur()))
    {
      ghost var before := Scanned(entries, kinds, g.Cur());
      ScanSnoc(rows, start, i);
      BucketsOfSnoc(before, rows[i]);
      var entry, kind := g.CreateDataForBd(rows[i]);
      entries, kinds := entries + [entry], kinds + [kind];
      match kind
      case MenuKind => buckets := buckets.(menus := buckets.menus + [entry]);
      case SubmenuKind => buckets := buckets.(submenus := buckets.submenus + [entry]);
      case DishKind => buckets := buckets.(dishes := buckets.dishes + [Take5(entry)]);
    }
    assert rows[..|rows|] == rows;
  }

  // ---------------------------------------------------------------------------
  // What the scan computes.

  /** Scanning a prefix gives a prefix of the scan: entry `i` is row `i` classified with the cursor it met. */
  lemma {:induction false} ScanEntry(rows: seq<Row>, cur: Cursor, i: nat)
    requires i < |rows|
    ensures var s, c := Scan(rows, cur), Classify(rows[i], Scan(rows[..i], cur).cursor);
      s.entries[i] == c.entry && s.kinds[i] == c.kind
    decreases |rows|
  {
    var n := |rows| - 1;
    if i < n {
      assert rows[..n][..i] == rows[..i];
      ScanEntry(rows[..n], cur, i);
    } else {
      assert rows[..n] == rows[..i];
    }
  }

  /** Rows that are not menu rows leave the menu cursor alone. */
  lemma {:induction false} MenuCursorSkips(rows: seq<Row>, cur: Cursor, i: nat)
    requires i <= |rows|
    requires forall j :: i <= j < |rows| ==> !IsMenuRow(rows[j])
    ensures Scan(rows, cur).cursor.menuId == Scan(rows[..i], cur).cursor.menuId
    decreases |rows|
  {
    if i < |rows| {
      var n := |rows| - 1;
      assert rows[..n][..i] == rows[..i];
      assert forall j :: i <= j < n ==> rows[..n][j] == rows[j];
      MenuCursorSkips(rows[..n], cur, i);
    } else {
      assert rows[..i] == rows;
    }
  }

  /** Rows that are not submenu rows (menu rows included) leave the submenu cursor alone. */
  lemma {:induction false} SubmenuCursorSkips(rows: seq<Row>, cur: Cursor, i: nat)
    requires i <= |rows|
    requires forall j :: i <= j < |rows| ==> !IsSubmenuRow(rows[j])
    ensures Scan(rows, cur).cursor.submenuId == Scan(rows[..i], cur).cursor.submenuId
    decreases |rows|
  {
    if i < |rows| {
      var n := |rows| - 1;
      assert rows[..n][..i] == rows[..i];
      assert forall j :: i <= j < n ==> rows[..n][j] == rows[j];
      SubmenuCursorSkips(rows[..n], cur, i);
    } else {
      assert rows[..i] == rows;
    }
  }

  /** After a scan the menu cursor holds the id of the latest menu row. */
  lemma {:induction false} MenuCursorIsLatestMenuRow(rows: seq<Row>, cur: Cursor, i: nat)
    requires i < |rows| && IsMenuRow(rows[i])
    requires forall j :: i < j < |rows| ==> !IsMenuRow(rows[j])
    ensures Scan(rows, cur).cursor.menuId == Cell(rows[i], 0)
  {
    MenuCursorSkips(rows, cur, i + 1);
    ScanSnoc(rows, cur, i);
  }

  /** After a scan the submenu cursor holds the id of the latest submenu row, whatever menu rows follow it. */
  lemma {:induction false} SubmenuCursorIsLatestSubmenuRow(rows: seq<Row>, cur: Cursor, i: nat)
    requires i < |rows| && IsSubmenuRow(rows[i])
    requires forall j :: i < j < |rows| ==> !IsSubmenuRow(rows[j])
    ensures Scan(rows, cur).cursor.submenuId == Cell(rows[i], 1)
  {
    SubmenuCursorSkips(rows, cur, i + 1);
    ScanSnoc(rows, cur, i);
  }

  /** Without any submenu row the submenu cursor keeps the value of the previous run. */
  lemma {:induction false} SubmenuCursorCarriesOver(rows: seq<Row>, cur: Cursor)
    requires forall j :: 0 <= j < |rows| ==> !IsSubmenuRow(rows[j])
    ensures Scan(rows, cur).cursor.submenuId == cur.submenuId
  {
    SubmenuCursorSkips(rows, cur, 0);
  }

  /**
    A dish row's tuple names as parent the submenu row closest above it,
    even across menu rows in between.
   */
  lemma DishParentIsLatestSubmenu(rows: seq<Row>, cur: Cursor, sub: nat, dish: nat)
    requires sub < dish < |rows| && IsSubmenuRow(rows[sub]) && IsDishRow(rows[dish])
    requires forall j :: sub < j < dish ==> !IsSubmenuRow(rows[j])
    ensures var e := Scan(rows, cur).entries[dish];
      Scan(rows, cur).kinds[dish] == DishKind && |e| >= 5 && e[4] == Val(Cell(rows[sub], 1).value)
  {
    ScanEntry(rows, cur, dish);
    var pre := rows[..dish];
    assert pre[sub] == rows[sub];
    assert forall j :: sub < j < |pre| ==> pre[j] == rows[j];
    SubmenuCursorIsLatestSubmenuRow(pre, cur, sub);
  }

  /** A submenu row's tuple names as parent the menu row closest above it. */
  lemma SubmenuParentIsLatestMenu(rows: seq<Row>, cur: Cursor, menu: nat, sub: nat)
    requires menu < sub < |rows| && IsMenuRow(rows[menu]) && IsSubmenuRow(rows[sub])
    requires forall j :: menu < j < sub ==> !IsMenuRow(rows[j])
    ensures var e := Scan(rows, cur).entries[sub];
      Scan(rows, cur).kinds[sub] == SubmenuKind && |e| == 5 && e[4] == Val(Cell(rows[menu], 0).value)
  {
    ScanEntry(rows, cur, sub);
    var pre := rows[..sub];
    assert pre[menu] == rows[menu];
    assert forall j :: menu < j < |pre| ==> pre[j] == rows[j];
    MenuCursorIsLatestMenuRow(pre, cur, menu);
  }

  /** Every submenu row has a menu row above it and every dish row a submenu row above it. */
  predicate SelfContained(rows: seq<Row>)
  {
    forall i :: 0 <= i < |rows| ==>
      && (IsSubmenuRow(rows[i]) ==> exists j :: 0 <= j < i && IsMenuRow(rows[j]))
      && (IsDishRow(rows[i]) ==> exists j :: 0 <= j < i && IsSubmenuRow(rows[j]))
  }

  /** Once a menu (submenu) row has been read, the menu (submenu) cursor no longer depends on where it started. */
  lemma {:induction false} CursorsAgree(rows: seq<Row>, c1: Cursor, c2: Cursor)
    ensures (exists j :: 0 <= j < |rows| && IsMenuRow(rows[j])) ==>
              Scan(rows, c1).cursor.menuId == Scan(rows, c2).cursor.menuId
    ensures (exists j :: 0 <= j < |rows| && IsSubmenuRow(rows[j])) ==>
              Scan(rows, c1).cursor.submenuId == Scan(rows, c2).cursor.submenuId
    decreases |rows|
  {
    if rows != [] {
      var n := |rows| - 1;
      CursorsAgree(rows[..n], c1, c2);
      if !IsMenuRow(rows[n]) && exists j :: 0 <= j < |rows| && IsMenuRow(rows[j]) {
        var j :| 0 <= j < |rows| && IsMenuRow(rows[j]);
        assert rows[..n][j] == rows[j];
      }
      if !IsSubmenuRow(rows[n]) && exists j :: 0 <= j < |rows| && IsSubmenuRow(rows[j]) {
        var j :| 0 <= j < |rows| && IsSubmenuRow(rows[j]);
        assert rows[..n][j] == rows[j];
      }
    }
  }

  lemma SelfContainedPrefix(rows: seq<Row>, n: nat)
    requires SelfContained(rows) && n <= |rows|
    ensures SelfContained(rows[..n])
  {
    var pre := rows[..n];
    forall i | 0 <= i < n
      ensures IsSubmenuRow(pre[i]) ==> exists j :: 0 <= j < i && IsMenuRow(pre[j])
      ensures IsDishRow(pre[i]) ==> exists j :: 0 <= j < i && IsSubmenuRow(pre[j])
    {
      assert pre[i] == rows[i];
      if IsSubmenuRow(pre[i]) {
        var j :| 0 <= j < i && IsMenuRow(rows[j]);
        assert pre[j] == rows[j];
      }
      if IsDishRow(pre[i]) {
        var j :| 0 <= j < i && IsSubmenuRow(rows[j]);
        assert pre[j] == rows[j];
      }
    }
  }

  /** A self-contained sheet gives the same entries whatever cursor the previous run left behind. */
  lemma {:induction false} SelfContainedIgnoresCursor(rows: seq<Row>, c1: Cursor, c2: Cursor)
    requires SelfContained(rows)
    ensures Scan(rows, c1).entries == Scan(rows, c2).entries && Scan(rows, c1).kinds == Scan(rows, c2).kinds
    decreases |rows|
  {
    if rows != [] {
      var n := |rows| - 1;
      var pre := rows[..n];
      SelfContainedPrefix(rows, n);
      SelfContainedIgnoresCursor(pre, c1, c2);
      CursorsAgree(pre, c1, c2);
      if IsSubmenuRow(rows[n]) {
        var j :| 0 <= j < n && IsMenuRow(rows[j]);
        assert pre[j] == rows[j];
      }
      if IsDishRow(rows[n]) {
        var j :| 0 <= j < n && IsSubmenuRow(rows[j]);
        assert pre[j] == rows[j];
      }
    }
  }

  /** Every entry lands in exactly one bucket: the three buckets together hold as many entries as there are rows. */
  lemma {:induction false} BucketsPartitionEntries(entries: seq<Tuple>, kinds: seq<Kind>)
    requires |entries| == |kinds|
    ensures |Select(entries, kinds, MenuKind)| + |Select(entries, kinds, SubmenuKind)| +
            |Select(entries, kinds, DishKind)| == |entries|
    decreases |entries|
  {
    if entries != [] {
      var n := |entries| - 1;
      BucketsPartitionEntries(entries[..n], kinds[..n]);
    }
  }

  // ---------------------------------------------------------------------------
  // `_delete_none`

  /** The fields of `t` other than None, in order. */
  function WithoutNone(t: Tuple): (r: Tuple)
    ensures NoneField !in r && |r| <= |t|
    decreases |t|
  {
    if t == [] then []
    else (if t[0] == NoneField then [] else [t[0]]) + WithoutNone(t[1..])
  }

  lemma {:induction false} WithoutNoneAppend(a: Tuple, b: Tuple)
    ensures WithoutNone(a + b) == WithoutNone(a) + WithoutNone(b)
    decreases |a|
  {
    if a != [] {
      assert (a + b)[0] == a[0] && (a + b)[1..] == a[1..] + b;
      WithoutNoneAppend(a[1..], b);
    } else {
      assert a + b == b;
    }
  }

  lemma {:induction false} WithoutNoneKeepsNoneFree(t: Tuple)
    requires NoneField !in t
    ensures WithoutNone(t) == t
    decreases |t|
  {
    if t != [] {
      assert t[0] in t;
      WithoutNoneKeepsNoneFree(t[1..]);
      assert t == [t[0]] + t[1..];
    }
  }

  /** The position of the first None: what `list.remove(None)` deletes. */
  function FirstNone(t: Tuple): (i: nat)
    requires NoneField in t
    ensures i < |t| && t[i] == NoneField && NoneField !in t[..i]
  {
    if t[0] == NoneField then 0
    else
      var j := FirstNone(t[1..]);
      assert t[..j + 1] == [t[0]] + t[1..][..j];
      j + 1
  }

  /** Removing one None leaves the other fields as they were. */
  lemma RemoveNoneAt(t: Tuple, i: nat)
    requires i < |t| && t[i] == NoneField
    ensures WithoutNone(t[..i] + t[i + 1..]) == WithoutNone(t)
  {
    assert t == t[..i] + ([NoneField] + t[i + 1..]);
    WithoutNoneAppend(t[..i], [NoneField] + t[i + 1..]);
    WithoutNoneAppend(t[..i], t[i + 1..]);
  }

  /** `while None in item_list: item_list.remove(None)` */
  method StripNone(t: Tuple) returns (r: Tuple)
    ensures r == WithoutNone(t)
  {
    r := t;
    while NoneField in r
      invariant WithoutNone(r) == WithoutNone(t)
      decreases |r|
    {
      var i := FirstNone(r);
      RemoveNoneAt(r, i);
      r := r[..i] + r[i + 1..];
    }
    WithoutNoneKeepsNoneFree(r);
  }

  function Stripped(ts: seq<Tuple>): (r: seq<Tuple>)
    ensures |r| == |ts| && forall i :: 0 <= i < |ts| ==> r[i] == WithoutNone(ts[i])
  {
    seq(|ts|, i requires 0 <= i < |ts| => WithoutNone(ts[i]))
  }

  method StripEach(ts: seq<Tuple>) returns (r: seq<Tuple>)
    ensures r == Stripped(ts)
  {
    r := [];
    for i := 0 to |ts|
      invariant r == Stripped(ts[..i])
    {
      var t := StripNone(ts[i]);
      r := r + [t];
    }
    assert ts[..|ts|] == ts;
  }

  /** `_delete_none`: the same buckets, every tuple without its None fields. */
  method DeleteNone(b: Buckets) returns (r: Buckets)
    ensures r == Buckets(Stripped(b.menus), Stripped(b.submenus), Stripped(b.dishes))
  {
    var menus := StripEach(b.menus);
    var submenus := StripEach(b.submenus);
    var dishes := StripEach(b.dishes);
    r := Buckets(menus, submenus, dishes);
  }

  /** A menu tuple loses its two trailing None fields. */
  lemma StripMenuTuple(id: Field, title: Field, description: Field)
    requires id != NoneField && title != NoneField && description != NoneField
    ensures WithoutNone([id, title, description, NoneField, NoneField]) == [id, title, description]
  {
    var t := [id, title, description, NoneField, NoneField];
    assert t == [id, title, description] + [NoneField, NoneField];
    WithoutNoneAppend([id, title, description], [NoneField, NoneField]);
    WithoutNoneKeepsNoneFree([id, title, description]);
  }

  /** A submenu tuple loses the None that stands for the price. */
  lemma StripSubmenuTuple(id: Field, title: Field, description: Field, parent: Field)
    requires id != NoneField && title != NoneField && description != NoneField && parent != NoneField
    ensures WithoutNone([id, title, description, NoneField, parent]) == [id, title, description, parent]
  {
    var t := [id, title, description, NoneField, parent];
    assert t == [id, title, description] + [NoneField, parent];
    WithoutNoneAppend([id, title, description], [NoneField, parent]);
    WithoutNoneKeepsNoneFree([id, title, description]);
    WithoutNoneKeepsNoneFree([parent]);
    assert [NoneField, parent][1..] == [parent];
  }

  /**
    What the inserts receive: a menu tuple loses its two None fields, a
    submenu tuple its price placeholder, and a dish tuple (cut to five
    fields) keeps all of them.
   */
  lemma StrippedShapes(row: Row, cur: Cursor)
    requires Readable(row) && CursorReady(row, cur)
    ensures var c := Classify(row, cur);
      && (IsMenuRow(row) ==> WithoutNone(c.entry) == c.entry[..3])
      && (IsSubmenuRow(row) ==> WithoutNone(c.entry) == c.entry[..3] + [c.entry[4]])
      && (IsDishRow(row) ==> WithoutNone(Take5(c.entry)) == Take5(c.entry) && |Take5(c.entry)| == 5)
  {
    var e := Classify(row, cur).entry;
    if IsMenuRow(row) {
      StripMenuTuple(e[0], e[1], e[2]);
      assert e == [e[0], e[1], e[2], NoneField, NoneField];
    } else if IsSubmenuRow(row) {
      StripSubmenuTuple(e[0], e[1], e[2], e[4]);
      assert e == [e[0], e[1], e[2], NoneField, e[4]];
    } else if IsDishRow(row) {
      WithoutNoneKeepsNoneFree(Take5(e));
    }
  }
}
