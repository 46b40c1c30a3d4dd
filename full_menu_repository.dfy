/**
  `FullMenuRepository`: turning the rows of the joined menu/submenu/dish
  query into the nested view.  Each row carries one menu and the aggregated
  arrays of (at most) one submenu group; rows of the same menu are then
  merged by id.  The SQL query itself is not modelled: its rows are the input.
 */
module FullMenuRepository {
  import opened Common
  import opened Catalog

  /** An element of a row's aggregated submenu array: `(id, title, description)`. */
  datatype SubmenuCell = SubmenuCell(id: string, title: string, description: Option<string>)

  /** An element of a row's aggregated dish array: `(id, title, description, price)`, the price as display text. */
  datatype DishCell = DishCell(id: string, title: string, description: Option<string>, price: string)

  /** One row of the joined query: the menu columns, then the two arrays (a SQL NULL array is empty). */
  datatype JoinedRow =
    JoinedRow(id: string, title: string, description: Option<string>, submenus: seq<SubmenuCell>, dishes: seq<DishCell>)

  /** `_parse_row` indexes the first submenu whenever there are dishes. */
  predicate Parsable(row: JoinedRow)
  {
    |row.dishes| > 0 ==> |row.submenus| > 0
  }

  function AsFullDish(d: DishCell): FullDish
  {
    FullDish(d.id, d.title, d.description, d.price)
  }

  /** The menu `_parse_row` builds from one row. */
  function ParsedRow(row: JoinedRow): (item: FullMenu)
    requires Parsable(row)
    ensures item.id == row.id && item.title == row.title && item.description == row.description
    ensures |item.submenus| == if |row.submenus| > 0 then 1 else 0
    ensures |row.submenus| > 0 ==>
              var s := item.submenus[0];
              s.id == row.submenus[0].id && s.title == row.submenus[0].title &&
              s.description == row.submenus[0].description &&
              |s.dishes| == |row.dishes| &&
              forall i :: 0 <= i < |row.dishes| ==> s.dishes[i] == AsFullDish(row.dishes[i])
  {
    var dishes := seq(|row.dishes|, i requires 0 <= i < |row.dishes| => AsFullDish(row.dishes[i]));
    FullMenu(row.id, row.title, row.description,
             if |row.submenus| > 0
             then [FullSubmenu(row.submenus[0].id, row.submenus[0].title, row.submenus[0].description, dishes)]
             else [])
  }

  /** `_parse_row`: copy the menu, keep only the first submenu, append every dish to it. */
  method ParseRow(row: JoinedRow) returns (item: FullMenu)
    requires Parsable(row)
    ensures item == ParsedRow(row)
  {
    item := FullMenu(row.id, row.title, row.description, []);
    if |row.submenus| > 0 {
      var first := row.submenus[0];
      item := item.(submenus := [FullSubmenu(first.id, first.title, first.description, [])]);
    }
    if |row.dishes| > 0 {
      var dishes: seq<FullDish> := [];
      for i := 0 to |row.dishes|
        invariant |dishes| == i
        invariant forall j :: 0 <= j < i ==> dishes[j] == AsFullDish(row.dishes[j])
      {
        dishes := dishes + [AsFullDish(row.dishes[i])];
      }
      item := item.(submenus := [item.submenus[0].(dishes := dishes)]);
    }
    if |row.submenus| > 0 {
      assert item.submenus[0].dishes == ParsedRow(row).submenus[0].dishes;
    }
  }

  /** The rows' menus, parsed one by one. */
  function ParsedRows(rows: seq<JoinedRow>): seq<FullMenu>
    requires forall i :: 0 <= i < |rows| ==> Parsable(rows[i])
  {
    seq(|rows|, i requires 0 <= i < |rows| && Parsable(rows[i]) => ParsedRow(rows[i]))
  }

  // ---------------------------------------------------------------------------
  // The reference group-by: one menu per distinct id, in first-occurrence order,
  // carrying the first row's columns and every row's submenus in input order.

  function Ids(items: seq<FullMenu>): (ids: seq<string>)
    ensures |ids| == |items| && forall i :: 0 <= i < |items| ==> ids[i] == items[i].id
  {
    seq(|items|, i requires 0 <= i < |items| => items[i].id)
  }

  predicate Distinct(xs: seq<string>)
  {
    forall i, j :: 0 <= i < j < |xs| ==> xs[i] != xs[j]
  }

  /** The distinct elements of `xs`, each at its first occurrence. */
  function Dedup(xs: seq<string>): seq<string>
    decreases |xs|
  {
    if xs == [] then []
    else
      var p := Dedup(xs[..|xs| - 1]);
      var x := xs[|xs| - 1];
      if x in p then p else p + [x]
  }

  /** `Dedup` keeps every element and invents none. */
  lemma {:induction false} DedupMembers(xs: seq<string>)
    ensures forall x :: x in Dedup(xs) <==> x in xs
    decreases |xs|
  {
    if xs != [] {
      var pre := xs[..|xs| - 1];
      assert xs == pre + [xs[|xs| - 1]];
      DedupMembers(pre);
    }
  }

  /** `Dedup` lists each element once. */
  lemma {:induction false} DedupDistinct(xs: seq<string>)
    ensures Distinct(Dedup(xs))
    decreases |xs|
  {
    if xs != [] {
      DedupDistinct(xs[..|xs| - 1]);
    }
  }

  /** The position of the first occurrence of `x`. */
  function FirstIndex(xs: seq<string>, x: string): (i: nat)
    requires x in xs
    ensures i < |xs| && xs[i] == x && x !in xs[..i]
  {
    if xs[0] == x then 0
    else
      var j := FirstIndex(xs[1..], x);
      assert xs[..j + 1] == [xs[0]] + xs[1..][..j];
      j + 1
  }

  /** The first item with id `id`: the one `_create_json` stores in its dict. */
  function FirstWith(items: seq<FullMenu>, id: string): FullMenu
    requires id in Ids(items)
  {
    items[FirstIndex(Ids(items), id)]
  }

  /** The submenus of all items with id `id`, concatenated in input order. */
  function SubmenusOf(items: seq<FullMenu>, id: string): seq<FullSubmenu>
    decreases |items|
  {
    if items == [] then []
    else
      var last := items[|items| - 1];
      SubmenusOf(items[..|items| - 1], id) + (if last.id == id then last.submenus else [])
  }

  /** The merged menu for id `id`: the first item's columns with every item's submenus. */
  function GroupOf(items: seq<FullMenu>, id: string): FullMenu
    requires id in Ids(items)
  {
    FirstWith(items, id).(submenus := SubmenusOf(items, id))
  }

  /** The merge `_create_json` is meant to compute. */
  function Merged(items: seq<FullMenu>): seq<FullMenu>
  {
    var d := Dedup(Ids(items));
    DedupMembers(Ids(items));
    seq(|d|, j requires 0 <= j < |d| => GroupOf(items, d[j]))
  }

  function TotalSubmenus(ms: seq<FullMenu>): nat
    decreases |ms|
  {
    if ms == [] then 0 else TotalSubmenus(ms[..|ms| - 1]) + |ms[|ms| - 1].submenus|
  }

  // ---------------------------------------------------------------------------
  // What appending one item does to each of the definitions above.

  lemma IdsSnoc(pre: seq<FullMenu>, x: FullMenu)
    ensures Ids(pre + [x]) == Ids(pre) + [x.id]
  {
  }

  lemma DedupSnoc(xs: seq<string>, y: string)
    ensures Dedup(xs + [y]) == if y in xs then Dedup(xs) else Dedup(xs) + [y]
  {
    assert (xs + [y])[..|xs|] == xs;
    DedupMembers(xs);
  }

  lemma SubmenusSnoc(pre: seq<FullMenu>, x: FullMenu, id: string)
    ensures SubmenusOf(pre + [x], id) == SubmenusOf(pre, id) + (if x.id == id then x.submenus else [])
  {
    assert (pre + [x])[..|pre|] == pre;
  }

  /** Appending an element leaves the first occurrence of an element already present where it was. */
  lemma FirstIndexOfExtension(xs: seq<string>, y: string, x: string)
    requires x in xs
    ensures FirstIndex(xs + [y], x) == FirstIndex(xs, x)
  {
    var i, j := FirstIndex(xs + [y], x), FirstIndex(xs, x);
    assert (xs + [y])[j] == x;
    assert i <= j by {
      assert x !in (xs + [y])[..i];
      assert (xs + [y])[..j + 1][j] == x;
    }
    assert i >= j by {
      assert x !in xs[..j];
      assert i < |xs| + 1;
      if i < |xs| {
        assert (xs + [y])[i] == xs[i];
      }
    }
  }

  /** An element not yet present first occurs where it is appended. */
  lemma FirstIndexOfNew(xs: seq<string>, y: string)
    requires y !in xs
    ensures FirstIndex(xs + [y], y) == |xs|
  {
    assert (xs + [y])[..|xs|] == xs;
  }

  lemma FirstWithSnoc(pre: seq<FullMenu>, x: FullMenu)
    ensures forall k :: k in Ids(pre) ==> k in Ids(pre + [x]) && FirstWith(pre + [x], k) == FirstWith(pre, k)
    ensures x.id in Ids(pre + [x])
    ensures x.id !in Ids(pre) ==> FirstWith(pre + [x], x.id) == x
  {
    IdsSnoc(pre, x);
    forall k | k in Ids(pre)
      ensures FirstWith(pre + [x], k) == FirstWith(pre, k)
    {
      FirstIndexOfExtension(Ids(pre), x.id, k);
    }
    if x.id !in Ids(pre) {
      FirstIndexOfNew(Ids(pre), x.id);
    }
  }

  lemma {:induction false} NoSubmenusForAbsentId(items: seq<FullMenu>, id: string)
    requires id !in Ids(items)
    ensures SubmenusOf(items, id) == []
    decreases |items|
  {
    if items != [] {
      var pre, x := items[..|items| - 1], items[|items| - 1];
      assert items == pre + [x];
      IdsSnoc(pre, x);
      NoSubmenusForAbsentId(pre, id);
      SubmenusSnoc(pre, x, id);
    }
  }

  // ---------------------------------------------------------------------------
  // The methods.

  /** The dict `_create_json` has built from `items`: its keys in insertion order, and its entries. */
  ghost predicate Grouped(items: seq<FullMenu>, order: seq<string>, byId: map<string, FullMenu>)
  {
    && order == Dedup(Ids(items))
    && (forall k :: k in byId <==> k in order)
    && (forall k :: k in byId ==> k in Ids(items) && byId[k] == GroupOf(items, k))
  }

  /** The merged menu of an id after one more item. */
  lemma GroupOfSnoc(items: seq<FullMenu>, x: FullMenu, k: string)
    requires k in Ids(items) || k == x.id
    ensures k in Ids(items + [x])
    ensures k in Ids(items) ==>
              GroupOf(items + [x], k) ==
              GroupOf(items, k).(submenus := GroupOf(items, k).submenus + if x.id == k then x.submenus else [])
    ensures k !in Ids(items) ==> GroupOf(items + [x], k) == x
  {
    FirstWithSnoc(items, x);
    SubmenusSnoc(items, x, k);
    if k !in Ids(items) {
      NoSubmenusForAbsentId(items, k);
    }
  }

  /** An item whose id is already in the dict extends that entry's submenus. */
  lemma GroupedExtend(items: seq<FullMenu>, x: FullMenu, order: seq<string>, byId: map<string, FullMenu>)
    requires Grouped(items, order, byId) && x.id in byId
    ensures Grouped(items + [x], order, byId[x.id := byId[x.id].(submenus := byId[x.id].submenus + x.submenus)])
  {
    var post := items + [x];
    var extended := byId[x.id := byId[x.id].(submenus := byId[x.id].submenus + x.submenus)];
    OrderAfterItem(items, x);
    forall k | k in extended
      ensures k in Ids(post) && extended[k] == GroupOf(post, k)
    {
      EntryAfterItem(items, x, k, byId[k]);
    }
  }

  /** The dict's key order after one more item. */
  lemma OrderAfterItem(items: seq<FullMenu>, x: FullMenu)
    ensures Dedup(Ids(items + [x])) == if x.id in Ids(items) then Dedup(Ids(items)) else Dedup(Ids(items)) + [x.id]
  {
    IdsSnoc(items, x);
    DedupSnoc(Ids(items), x.id);
  }

  /** The entry of `k` after one more item, given its entry before. */
  lemma EntryAfterItem(items: seq<FullMenu>, x: FullMenu, k: string, entry: FullMenu)
    requires k in Ids(items) && entry == GroupOf(items, k)
    ensures k in Ids(items + [x])
    ensures GroupOf(items + [x], k) == if k == x.id then entry.(submenus := entry.submenus + x.submenus) else entry
  {
    GroupOfSnoc(items, x, k);
  }

  /** An item with a new id becomes the dict's last entry. */
  lemma GroupedAppend(items: seq<FullMenu>, x: FullMenu, order: seq<string>, byId: map<string, FullMenu>)
    requires Grouped(items, order, byId) && x.id !in byId
    ensures Grouped(items + [x], order + [x.id], byId[x.id := x])
  {
    DedupMembers(Ids(items));
    OrderAfterItem(items, x);
    forall k | k in byId[x.id := x]
      ensures k in Ids(items + [x]) && GroupOf(items + [x], k) == byId[x.id := x][k]
    {
      GroupOfSnoc(items, x, k);
    }
  }

  /**
    `_create_json`: a dict from id to menu (insertion-ordered, as Python's is)
    filled item by item; a repeated id extends the stored menu's submenus.
   */
  method CreateJson(items: seq<FullMenu>) returns (r: seq<FullMenu>)
    ensures r == Merged(items)
  {
    var order: seq<string> := [];
    var byId: map<string, FullMenu> := map[];
    for i := 0 to |items|
      invariant Grouped(items[..i], order, byId)
    {
      var item := items[i];
      assert items[..i + 1] == items[..i] + [item];
      if item.id in byId {
        GroupedExtend(items[..i], item, order, byId);
        if |item.submenus| > 0 {
          byId := byId[item.id := byId[item.id].(submenus := byId[item.id].submenus + item.submenus)];
        } else {
          assert item.submenus == [];
          assert byId[item.id].submenus + item.submenus == byId[item.id].submenus;
          assert byId[item.id].(submenus := byId[item.id].submenus + item.submenus) == byId[item.id];
        }
      } else {
        GroupedAppend(items[..i], item, order, byId);
        order := order + [item.id];
        byId := byId[item.id := item];
      }
    }
    assert items[..|items|] == items;
    r := seq(|order|, j requires 0 <= j < |order| && order[j] in byId => byId[order[j]]);
  }

  /** `get`: parse every row of the joined query, then merge the menus by id. */
  method Get(rows: seq<JoinedRow>) returns (r: seq<FullMenu>)
    requires forall i :: 0 <= i < |rows| ==> Parsable(rows[i])
    ensures r == Merged(ParsedRows(rows))
    ensures rows == [] ==> r == []
  {
    var fullMenus: seq<FullMenu> := [];
    for i := 0 to |rows|
      invariant |fullMenus| == i
      invariant forall j :: 0 <= j < i ==> fullMenus[j] == ParsedRow(rows[j])
    {
      var item := ParseRow(rows[i]);
      fullMenus := fullMenus + [item];
    }
    assert fullMenus == ParsedRows(rows);
    r := CreateJson(fullMenus);
  }

  // ---------------------------------------------------------------------------
  // Properties of the merge.

  /** `Dedup` lists each element in the order of its first occurrence. */
  lemma {:induction false} DedupFirstOccurrenceOrder(xs: seq<string>)
    ensures forall x :: x in Dedup(xs) <==> x in xs
    ensures forall i, j :: 0 <= i < j < |Dedup(xs)| ==> FirstIndex(xs, Dedup(xs)[i]) < FirstIndex(xs, Dedup(xs)[j])
    decreases |xs|
  {
    if xs != [] {
      var pre, x := xs[..|xs| - 1], xs[|xs| - 1];
      assert xs == pre + [x];
      DedupFirstOccurrenceOrder(pre);
      DedupSnoc(pre, x);
      DedupMembers(xs);
      var p, d := Dedup(pre), Dedup(xs);
      forall y | y in pre
        ensures FirstIndex(xs, y) == FirstIndex(pre, y)
      {
        FirstIndexOfExtension(pre, x, y);
      }
      if x !in pre {
        FirstIndexOfNew(pre, x);
      }
      forall i, j | 0 <= i < j < |d|
        ensures FirstIndex(xs, d[i]) < FirstIndex(xs, d[j])
      {
        assert d[i] == p[i] && d[i] in pre;
        if j < |p| {
          assert d[j] == p[j] && d[j] in pre;
        }
      }
    }
  }

  /**
    The merged menus have pairwise distinct ids, exactly the input's ids, in
    the order in which each id first occurs; each carries the columns of the
    first item with its id and the submenus of all items with its id, in order.
   */
  lemma MergedIsGroupBy(items: seq<FullMenu>)
    ensures var r := Merged(items);
      && Distinct(Ids(r))
      && (forall x :: x in Ids(r) <==> x in Ids(items))
      && (forall i, j :: 0 <= i < j < |r| ==> FirstIndex(Ids(items), r[i].id) < FirstIndex(Ids(items), r[j].id))
      && (forall j :: 0 <= j < |r| ==>
            var f := FirstWith(items, r[j].id);
            r[j].title == f.title && r[j].description == f.description &&
            r[j].submenus == SubmenusOf(items, r[j].id))
  {
    var d := Dedup(Ids(items));
    assert Ids(Merged(items)) == d;
    DedupDistinct(Ids(items));
    DedupFirstOccurrenceOrder(Ids(items));
  }

  /** Submenu counts, summed per key of `keys`. */
  function CountFor(items: seq<FullMenu>, keys: seq<string>): nat
    decreases |keys|
  {
    if keys == [] then 0 else CountFor(items, keys[..|keys| - 1]) + |SubmenusOf(items, keys[|keys| - 1])|
  }

  /** One more item adds its submenus to the count of its own id, if that id is a key. */
  lemma {:induction false} CountForStep(pre: seq<FullMenu>, x: FullMenu, keys: seq<string>)
    requires Distinct(keys)
    ensures CountFor(pre + [x], keys) == CountFor(pre, keys) + if x.id in keys then |x.submenus| else 0
    decreases |keys|
  {
    if keys != [] {
      var ks, k := keys[..|keys| - 1], keys[|keys| - 1];
      assert keys == ks + [k];
      SubmenusSnoc(pre, x, k);
      CountForStep(pre, x, ks);
    }
  }

  /** The total number of submenus of `ms` is the per-key count, when `ms` lists the keys' submenus. */
  lemma {:induction false} TotalIsCountFor(items: seq<FullMenu>, ms: seq<FullMenu>, keys: seq<string>)
    requires |ms| == |keys|
    requires forall j :: 0 <= j < |ms| ==> ms[j].submenus == SubmenusOf(items, keys[j])
    ensures TotalSubmenus(ms) == CountFor(items, keys)
    decreases |keys|
  {
    if keys != [] {
      TotalIsCountFor(items, ms[..|ms| - 1], keys[..|keys| - 1]);
    }
  }

  /** Summed over the distinct ids, the per-id submenu lists hold every submenu once. */
  lemma {:induction false} CountForDedup(items: seq<FullMenu>)
    ensures CountFor(items, Dedup(Ids(items))) == TotalSubmenus(items)
    decreases |items|
  {
    if items != [] {
      var pre, x := items[..|items| - 1], items[|items| - 1];
      assert items == pre + [x];
      IdsSnoc(pre, x);
      DedupSnoc(Ids(pre), x.id);
      CountForDedup(pre);
      var d := Dedup(Ids(pre));
      DedupMembers(Ids(pre));
      DedupDistinct(Ids(pre));
      CountForStep(pre, x, d);
      if x.id !in d {
        NoSubmenusForAbsentId(pre, x.id);
        SubmenusSnoc(pre, x, x.id);
        assert (d + [x.id])[..|d|] == d;
      }
    }
  }

  /** Merging neither loses nor duplicates a submenu. */
  lemma MergedKeepsEverySubmenu(items: seq<FullMenu>)
    ensures TotalSubmenus(Merged(items)) == TotalSubmenus(items)
  {
    var d := Dedup(Ids(items));
    TotalIsCountFor(items, Merged(items), d);
    CountForDedup(items);
  }

  /**
    Two menus, the first with two submenu groups (one of them without
    dishes) and the second with one group of two dishes: each submenu and
    dish ends up under its own parent.
   */
  lemma TwoMenusGrouped(m1: string, m2: string, t1: string, t2: string, s1: SubmenuCell, s2: SubmenuCell,
                        s3: SubmenuCell, d1: DishCell, d2: DishCell, d3: DishCell)
    requires m1 != m2
    ensures var rows := [JoinedRow(m1, t1, None, [s1], [d1]),
                         JoinedRow(m1, t1, None, [s3], []),
                         JoinedRow(m2, t2, None, [s2], [d2, d3])];
      Merged(ParsedRows(rows)) ==
        [FullMenu(m1, t1, None, [FullSubmenu(s1.id, s1.title, s1.description, [AsFullDish(d1)]),
                                 FullSubmenu(s3.id, s3.title, s3.description, [])]),
         FullMenu(m2, t2, None, [FullSubmenu(s2.id, s2.title, s2.description, [AsFullDish(d2), AsFullDish(d3)])])]
  {
    var rows := [JoinedRow(m1, t1, None, [s1], [d1]),
                 JoinedRow(m1, t1, None, [s3], []),
                 JoinedRow(m2, t2, None, [s2], [d2, d3])];
    var a := FullMenu(m1, t1, None, [FullSubmenu(s1.id, s1.title, s1.description, [AsFullDish(d1)])]);
    var b := FullMenu(m1, t1, None, [FullSubmenu(s3.id, s3.title, s3.description, [])]);
    var c := FullMenu(m2, t2, None, [FullSubmenu(s2.id, s2.title, s2.description, [AsFullDish(d2), AsFullDish(d3)])]);
    assert ParsedRow(rows[0]).submenus[0].dishes == [AsFullDish(d1)];
    assert ParsedRow(rows[1]).submenus[0].dishes == [];
    assert ParsedRow(rows[2]).submenus[0].dishes == [AsFullDish(d2), AsFullDish(d3)];
    assert ParsedRows(rows) == [a, b, c];
    MergedThreeItems(a, b, c);
    assert a.submenus + b.submenus == [a.submenus[0], b.submenus[0]];
  }

  /** The merge of the three menus of the example above. */
  lemma MergedThreeItems(a: FullMenu, b: FullMenu, c: FullMenu)
    requires a.id == b.id != c.id
    ensures Merged([a, b, c]) == [a.(submenus := a.submenus + b.submenus), c]
  {
    ThreeItemsOrder(a, b, c);
    ThreeItemsGroups(a, b, c);
  }

  lemma ThreeItemsOrder(a: FullMenu, b: FullMenu, c: FullMenu)
    requires a.id == b.id != c.id
    ensures Dedup(Ids([a, b, c])) == [a.id, c.id]
  {
    var xs := [a.id, a.id, c.id];
    assert Ids([a, b, c]) == xs;
    assert xs[..2] == [a.id, a.id] && [a.id, a.id][..1] == [a.id] && [a.id][..0] == [];
    assert Dedup([a.id]) == [a.id];
    assert Dedup([a.id, a.id]) == [a.id];
  }

  lemma ThreeItemsGroups(a: FullMenu, b: FullMenu, c: FullMenu)
    requires a.id == b.id != c.id
    ensures a.id in Ids([a, b, c]) && GroupOf([a, b, c], a.id) == a.(submenus := a.submenus + b.submenus)
    ensures c.id in Ids([a, b, c]) && GroupOf([a, b, c], c.id) == c
  {
    var xs := [a.id, a.id, c.id];
    assert Ids([a, b, c]) == xs;
    assert [a, b, c][..2] == [a, b] && [a, b][..1] == [a] && [a][..0] == [];
    assert SubmenusOf([a], a.id) == a.submenus;
    assert SubmenusOf([a, b, c], a.id) == a.submenus + b.submenus;
    assert SubmenusOf([a, b, c], c.id) == c.submenus by {
      assert SubmenusOf([a], c.id) == [];
    }
    assert FirstIndex(xs, a.id) == 0;
    assert xs[1..] == [a.id, c.id] && [a.id, c.id][1..] == [c.id];
    assert FirstIndex(xs, c.id) == 2;
  }
}
