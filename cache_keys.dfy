/**
  The flat key namespace of the cache, as the service layer and the
  reconciliation job build it.  Descendant keys embed their ancestors' ids as
  a prefix, which is what makes prefix deletion a subtree invalidation.
 */
module CacheKeys {
  import opened Common

  const AllKey := "all"         // list of all menus
  const FullKey := "full"       // nested menu tree
  const DbDataKey := "db_data"  // reconciliation's database snapshot
  const ExcelKey := "excel"     // reconciliation's spreadsheet snapshot

  function MenuKey(m: string): string { m }
  function SubmenuListKey(m: string): string { m + "_all" }
  function SubmenuKey(m: string, s: string): string { m + "_" + s }
  function DishListKey(m: string, s: string): string { m + "_" + s + "_all" }
  function DishKey(m: string, s: string, d: string): string { m + "_" + s + "_" + d }

  /** The keys of the global views, none of which embeds an entity id. */
  const GlobalKeys: set<string> := {AllKey, FullKey, DbDataKey, ExcelKey}

  /** A key that belongs to the subtree of menu `m`. */
  ghost predicate UnderMenu(k: string, m: string)
  {
    k == MenuKey(m) || k == SubmenuListKey(m) ||
    (exists s :: IsUuid(s) && (k == SubmenuKey(m, s) || k == DishListKey(m, s))) ||
    (exists s, d :: IsUuid(s) && IsUuid(d) && k == DishKey(m, s, d))
  }

  /** Every key built for menu `m` or one of its descendants starts with `m`. */
  lemma SubtreeKeysStartWithMenu(m: string, s: string, d: string)
    ensures StartsWith(MenuKey(m), m) && StartsWith(SubmenuListKey(m), m)
    ensures StartsWith(SubmenuKey(m, s), m) && StartsWith(DishListKey(m, s), m)
    ensures StartsWith(DishKey(m, s, d), m)
  {
    assert (m + "_all")[..|m|] == m;
    assert (m + "_" + s)[..|m|] == m;
    assert (m + "_" + s + "_all")[..|m|] == m;
    assert (m + "_" + s + "_" + d)[..|m|] == m;
  }

  /** A key of the subtree of menu `m` starts with `m` and with no other menu id. */
  lemma UnderMenuPrefix(k: string, m: string, m': string)
    requires IsUuid(m) && IsUuid(m') && UnderMenu(k, m)
    ensures StartsWith(k, m)
    ensures StartsWith(k, m') <==> m' == m
  {
    if k == SubmenuListKey(m) || k == MenuKey(m) {
      SubtreeKeysStartWithMenu(m, m, m);
    } else if s :| IsUuid(s) && (k == SubmenuKey(m, s) || k == DishListKey(m, s)) {
      SubtreeKeysStartWithMenu(m, s, s);
    } else {
      var s, d :| IsUuid(s) && IsUuid(d) && k == DishKey(m, s, d);
      SubtreeKeysStartWithMenu(m, s, d);
    }
    assert k[..36] == m;
  }

  /** The global keys are disjoint from every entity key. */
  lemma GlobalKeysAreNotEntityKeys(k: string, m: string)
    requires IsUuid(m) && k in GlobalKeys
    ensures !StartsWith(k, m) && !Contains(k, m) && !UnderMenu(k, m)
  {
    ShortKeyMentionsNoUuid(k, m);
    if UnderMenu(k, m) {
      SubtreeKeysStartWithMenu(m, m, m);
      if s :| IsUuid(s) && (k == SubmenuKey(m, s) || k == DishListKey(m, s)) {
        SubtreeKeysStartWithMenu(m, s, s);
      } else if s, d :| IsUuid(s) && IsUuid(d) && k == DishKey(m, s, d) {
        SubtreeKeysStartWithMenu(m, s, d);
      }
      assert false;
    }
  }

  /** Within one key family the ids are recovered by slicing, so equal keys have equal ids. */
  lemma KeyFamiliesAreInjective(m: string, s: string, d: string, m': string, s': string, d': string)
    requires IsUuid(m) && IsUuid(s) && IsUuid(d) && IsUuid(m') && IsUuid(s') && IsUuid(d')
    ensures MenuKey(m) == MenuKey(m') ==> m == m'
    ensures SubmenuListKey(m) == SubmenuListKey(m') ==> m == m'
    ensures SubmenuKey(m, s) == SubmenuKey(m', s') ==> m == m' && s == s'
    ensures DishListKey(m, s) == DishListKey(m', s') ==> m == m' && s == s'
    ensures DishKey(m, s, d) == DishKey(m', s', d') ==> m == m' && s == s' && d == d'
  {
    var k1, k2 := SubmenuListKey(m), SubmenuListKey(m');
    if k1 == k2 { assert m == k1[..36] == k2[..36] == m'; }
    var k3, k4 := SubmenuKey(m, s), SubmenuKey(m', s');
    if k3 == k4 {
      assert m == k3[..36] == k4[..36] == m';
      assert s == k3[37..] == k4[37..] == s';
    }
    var k5, k6 := DishListKey(m, s), DishListKey(m', s');
    if k5 == k6 {
      assert m == k5[..36] == k6[..36] == m';
      assert s == k5[37..73] == k6[37..73] == s';
    }
    var k7, k8 := DishKey(m, s, d), DishKey(m', s', d');
    if k7 == k8 {
      assert m == k7[..36] == k8[..36] == m';
      assert s == k7[37..73] == k8[37..73] == s';
      assert d == k7[74..] == k8[74..] == d';
    }
  }

  /** The five key families have pairwise different lengths, none of them a global key's. */
  lemma KeyFamiliesAreDisjoint(m: string, s: string, d: string, m': string, s': string)
    requires IsUuid(m) && IsUuid(s) && IsUuid(d) && IsUuid(m') && IsUuid(s')
    ensures |{MenuKey(m), SubmenuListKey(m'), SubmenuKey(m, s), DishListKey(m', s'), DishKey(m, s, d)}| == 5
    ensures {MenuKey(m), SubmenuListKey(m'), SubmenuKey(m, s), DishListKey(m', s'), DishKey(m, s, d)} !! GlobalKeys
  {
    var keys := {MenuKey(m), SubmenuListKey(m'), SubmenuKey(m, s), DishListKey(m', s'), DishKey(m, s, d)};
    assert |MenuKey(m)| == 36 && |SubmenuListKey(m')| == 40 && |SubmenuKey(m, s)| == 73;
    assert |DishListKey(m', s')| == 77 && |DishKey(m, s, d)| == 110;
    assert |keys - {MenuKey(m)}| == 4;
    assert |keys - {MenuKey(m), SubmenuListKey(m')}| == 3;
    assert |keys - {MenuKey(m), SubmenuListKey(m'), SubmenuKey(m, s)}| == 2;
  }

  /** A window of 36 characters that covers an `_` is not a UUID. */
  lemma WindowOverSeparator(k: string, i: int, j: int, x: string)
    requires IsUuid(x) && 0 <= i <= j < i + 36 <= |k| && k[j] == '_'
    ensures k[i..i + 36] != x
  {
    UuidCharacters(x);
    assert k[i..i + 36][j - i] == '_' != x[j - i];
  }

  /** Where the three ids and the two separators sit in a dish key. */
  lemma DishKeyLayout(m: string, s: string, d: string)
    requires IsUuid(m) && IsUuid(s) && IsUuid(d)
    ensures var k := DishKey(m, s, d);
      |k| == 110 && k[36] == '_' && k[73] == '_' && k[0..36] == m && k[37..73] == s && k[74..110] == d
  {
  }

  /**
    The only UUIDs that occur inside a dish key are its menu, submenu and dish
    ids: the substring scan that the discount tracker runs for an id `x`
    removes `DishKey(m, s, d)` exactly when `x` is one of the three.
   */
  lemma DishKeyMentions(m: string, s: string, d: string, x: string)
    requires IsUuid(m) && IsUuid(s) && IsUuid(d) && IsUuid(x)
    ensures Contains(DishKey(m, s, d), x) <==> x == m || x == s || x == d
  {
    var k := DishKey(m, s, d);
    DishKeyLayout(m, s, d);
    if x == m || x == s || x == d {
      var i := if x == m then 0 else if x == s then 37 else 74;
      assert k[i..][..36] == x;
    } else if Contains(k, x) {
      var i :| 0 <= i <= |k| && StartsWith(k[i..], x);
      assert k[i..][..36] == k[i..i + 36];
      AlignedInDishKey(k, i, x);
    }
  }

  /** A UUID found in a dish key starts where one of its three ids starts. */
  lemma AlignedInDishKey(k: string, i: nat, x: string)
    requires |k| == 110 && k[36] == '_' && k[73] == '_'
    requires IsUuid(x) && i + 36 <= |k| && k[i..i + 36] == x
    ensures i == 0 || i == 37 || i == 74
  {
    if 1 <= i <= 36 {
      WindowOverSeparator(k, i, 36, x);
    } else if 38 <= i <= 73 {
      WindowOverSeparator(k, i, 73, x);
    }
  }

  /** Likewise for a submenu key: it mentions its menu id and its submenu id, no other UUID. */
  lemma SubmenuKeyMentions(m: string, s: string, x: string)
    requires IsUuid(m) && IsUuid(s) && IsUuid(x)
    ensures Contains(SubmenuKey(m, s), x) <==> x == m || x == s
  {
    var k := SubmenuKey(m, s);
    assert |k| == 73 && k[36] == '_';
    assert k[0..36] == m && k[37..73] == s;
    assert StartsWith(k[0..], m) && StartsWith(k[37..], s);
    if Contains(k, x) {
      var i :| 0 <= i <= |k| && StartsWith(k[i..], x);
      assert k[i..i + 36] == x;
      if 1 <= i <= 36 {
        WindowOverSeparator(k, i, 36, x);
      }
    }
  }
}
