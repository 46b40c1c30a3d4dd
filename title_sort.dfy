/**
  The order the reconciliation job compares in: the spreadsheet's tuples
  sorted by their title field (`src/task/tasks.py`), which is Python's stable
  `list.sort` under string `<`.
 */
module TitleSort {
  import opened Catalog

  /** Python's `<` on `str`: code points compared left to right, a proper prefix first. */
  predicate Less(a: string, b: string)
    decreases |a|
  {
    if a == [] then b != []
    else if b == [] then false
    else if a[0] != b[0] then a[0] < b[0]
    else Less(a[1..], b[1..])
  }

  lemma {:induction false} LessIrreflexive(a: string)
    ensures !Less(a, a)
    decreases |a|
  {
    if a != [] {
      LessIrreflexive(a[1..]);
    }
  }

  lemma {:induction false} LessTransitive(a: string, b: string, c: string)
    requires Less(a, b) && Less(b, c)
    ensures Less(a, c)
    decreases |a|
  {
    if a != [] && b != [] && c != [] && a[0] == b[0] && b[0] == c[0] {
      LessTransitive(a[1..], b[1..], c[1..]);
    }
  }

  /** Two different titles are always ordered one way or the other. */
  lemma {:induction false} LessTotal(a: string, b: string)
    requires a != b
    ensures Less(a, b) || Less(b, a)
    decreases |a|
  {
    if a != [] && b != [] && a[0] == b[0] {
      assert a == [a[0]] + a[1..] && b == [b[0]] + b[1..];
      LessTotal(a[1..], b[1..]);
    }
  }

  /** The sort key `x[1]`. */
  function Title(t: Tuple): string
  {
    if |t| > 1 && t[1].Val? then t[1].text else ""
  }

  predicate SortedByTitle(ts: seq<Tuple>)
  {
    forall i, j :: 0 <= i < j < |ts| ==> !Less(Title(ts[j]), Title(ts[i]))
  }

  /** Insert `t` after every tuple whose title is not greater: equal titles keep their order. */
  function Insert(t: Tuple, ts: seq<Tuple>): seq<Tuple>
    decreases |ts|
  {
    if ts == [] then [t]
    else if Less(Title(t), Title(ts[0])) then [t] + ts
    else [ts[0]] + Insert(t, ts[1..])
  }

  /** `list.sort(key=lambda x: x[1])`: a stable insertion sort. */
  function SortByTitle(ts: seq<Tuple>): seq<Tuple>
    decreases |ts|
  {
    if ts == [] then []
    else Insert(ts[|ts| - 1], SortByTitle(ts[..|ts| - 1]))
  }

  lemma {:induction false} InsertPermutes(t: Tuple, ts: seq<Tuple>)
    ensures multiset(Insert(t, ts)) == multiset(ts) + multiset{t}
    decreases |ts|
  {
    if ts != [] && !Less(Title(t), Title(ts[0])) {
      InsertPermutes(t, ts[1..]);
      assert ts == [ts[0]] + ts[1..];
    }
  }

  lemma InsertAtFront(t: Tuple, ts: seq<Tuple>)
    requires ts != [] && SortedByTitle(ts) && Less(Title(t), Title(ts[0]))
    ensures SortedByTitle([t] + ts)
  {
    var r := [t] + ts;
    forall j | 0 < j < |r|
      ensures !Less(Title(r[j]), Title(t))
    {
      if Less(Title(r[j]), Title(t)) {
        LessTransitive(Title(r[j]), Title(t), Title(ts[0]));
        if j == 1 {
          LessIrreflexive(Title(ts[0]));
        }
      }
    }
  }

  lemma InsertBehind(t: Tuple, ts: seq<Tuple>, rest: seq<Tuple>)
    requires ts != [] && SortedByTitle(ts) && !Less(Title(t), Title(ts[0]))
    requires SortedByTitle(rest) && multiset(rest) == multiset(ts[1..]) + multiset{t}
    ensures SortedByTitle([ts[0]] + rest)
  {
    var r := [ts[0]] + rest;
    forall j | 0 < j < |r|
      ensures !Less(Title(r[j]), Title(ts[0]))
    {
      assert r[j] in multiset(rest);
      if r[j] != t {
        assert r[j] in ts[1..];
        var k :| 0 <= k < |ts[1..]| && ts[1..][k] == r[j];
        assert ts[k + 1] == r[j];
      }
    }
  }

  lemma {:induction false} InsertSorted(t: Tuple, ts: seq<Tuple>)
    requires SortedByTitle(ts)
    ensures SortedByTitle(Insert(t, ts))
    decreases |ts|
  {
    if ts != [] {
      if Less(Title(t), Title(ts[0])) {
        InsertAtFront(t, ts);
      } else {
        InsertSorted(t, ts[1..]);
        InsertPermutes(t, ts[1..]);
        InsertBehind(t, ts, Insert(t, ts[1..]));
      }
    }
  }

  /** The sorted list is in title order and holds exactly the tuples it was given. */
  lemma {:induction false} SortByTitleSortsAndPermutes(ts: seq<Tuple>)
    ensures SortedByTitle(SortByTitle(ts))
    ensures multiset(SortByTitle(ts)) == multiset(ts)
    decreases |ts|
  {
    if ts != [] {
      var n := |ts| - 1;
      SortByTitleSortsAndPermutes(ts[..n]);
      InsertSorted(ts[n], SortByTitle(ts[..n]));
      InsertPermutes(ts[n], SortByTitle(ts[..n]));
      assert ts == ts[..n] + [ts[n]];
    }
  }

  /** Sorting keeps the number of tuples, so only an empty sheet sorts to an empty list. */
  lemma SortByTitleEmpty(ts: seq<Tuple>)
    ensures SortByTitle(ts) == [] <==> ts == []
  {
    SortByTitleSortsAndPermutes(ts);
    if ts != [] {
      assert ts[0] in multiset(ts);
    }
  }

  /** The tuples of `ts` whose title is `t`, in their order. */
  function WithTitle(ts: seq<Tuple>, t: string): seq<Tuple>
    decreases |ts|
  {
    if ts == [] then []
    else (if Title(ts[0]) == t then [ts[0]] else []) + WithTitle(ts[1..], t)
  }

  lemma {:induction false} WithTitleAppend(a: seq<Tuple>, b: seq<Tuple>, t: string)
    ensures WithTitle(a + b, t) == WithTitle(a, t) + WithTitle(b, t)
    decreases |a|
  {
    if a == [] {
      assert a + b == b;
    } else {
      assert (a + b)[0] == a[0] && (a + b)[1..] == a[1..] + b;
      WithTitleAppend(a[1..], b, t);
    }
  }

  lemma {:induction false} WithTitleNone(ts: seq<Tuple>, t: string)
    requires forall k :: 0 <= k < |ts| ==> Title(ts[k]) != t
    ensures WithTitle(ts, t) == []
    decreases |ts|
  {
    if ts != [] {
      WithTitleNone(ts[1..], t);
    }
  }

  /** Inserting into a sorted list puts `x` behind every tuple with its title. */
  lemma {:induction false} InsertKeepsTitleOrder(x: Tuple, ts: seq<Tuple>, t: string)
    requires SortedByTitle(ts)
    ensures WithTitle(Insert(x, ts), t) == WithTitle(ts, t) + (if Title(x) == t then [x] else [])
    decreases |ts|
  {
    if ts == [] {
    } else if Less(Title(x), Title(ts[0])) {
      assert ([x] + ts)[1..] == ts;
      if Title(x) == t {
        forall k | 0 <= k < |ts|
          ensures Title(ts[k]) != t
        {
          if Title(ts[k]) == t {
            if k == 0 {
              LessIrreflexive(t);
            }
          }
        }
        WithTitleNone(ts, t);
      }
    } else {
      assert ([ts[0]] + Insert(x, ts[1..]))[1..] == Insert(x, ts[1..]);
      InsertKeepsTitleOrder(x, ts[1..], t);
    }
  }

  /** `list.sort` is stable: the tuples sharing a title keep their relative order. */
  lemma {:induction false} SortByTitleIsStable(ts: seq<Tuple>, t: string)
    ensures WithTitle(SortByTitle(ts), t) == WithTitle(ts, t)
    decreases |ts|
  {
    if ts != [] {
      var n := |ts| - 1;
      var pre, x := ts[..n], ts[n];
      var own := if Title(x) == t then [x] else [];
      SortByTitleSortsAndPermutes(pre);
      calc {
        WithTitle(SortByTitle(ts), t);
        WithTitle(Insert(x, SortByTitle(pre)), t);
        { InsertKeepsTitleOrder(x, SortByTitle(pre), t); }
        WithTitle(SortByTitle(pre), t) + own;
        { SortByTitleIsStable(pre, t); }
        WithTitle(pre, t) + own;
        { assert WithTitle([x], t) == own + WithTitle([], t); }
        WithTitle(pre, t) + WithTitle([x], t);
        { WithTitleAppend(pre, [x], t); assert pre + [x] == ts; }
        WithTitle(ts, t);
      }
    }
  }
}
