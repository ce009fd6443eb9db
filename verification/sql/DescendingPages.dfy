/**
 ORDER BY an indexed column, descending, with LIMIT and OFFSET: the index read backwards and the stable sort
 agree on a page exactly when each of its rows stands in the middle of the rows it ties with.
 */
module DescendingPages {
  import opened Bytes
  import opened Engine
  import opened Encoding
  import opened IndexKeys
  import opened IndexUpkeep
  import opened Eval
  import opened Planner
  import opened Execute
  import opened PlanRows
  import opened PlanMeaning
  import opened SortElimination
  import opened PlanAgreement
  import opened DescendingTies

  // ---- the place of an id is the number of ids in front of it ----

  lemma PlaceIs(s: seq<Key>, i: nat, below: set<Key>)
    requires Once(s) && i < |s|
    requires forall x | x in below :: x in s
    requires forall j | 0 <= j < |s| :: s[j] in below <==> j < i
    ensures |below| == i
  {
    var front := s[..i];
    OnceCounts(front);
    forall x ensures x in below <==> x in front {
      if x in below {
        var j :| 0 <= j < |s| && s[j] == x;
        assert front[j] == x;
      }
    }
    assert below == set x | x in front;
  }

  // ---- larger values, and equal values on either side ----

  ghost function Larger(env: Env, meta: Meta, rows: Rows, ids: seq<Key>, id: Key): set<Key>
    requires HasColumn(meta, rows, id)
  {
    set x | x in ids && HasColumn(meta, rows, x) && ValueLess(rows[id][meta.column], rows[x][meta.column], env.ofInt)
  }

  ghost function TiedBefore(env: Env, meta: Meta, rows: Rows, ids: seq<Key>, id: Key): set<Key>
    requires HasColumn(meta, rows, id)
  {
    set x | x in ids && HasColumn(meta, rows, x) && SameInIndex(rows[id][meta.column], rows[x][meta.column], env.ofInt) && Less(x, id)
  }

  ghost function TiedBehind(env: Env, meta: Meta, rows: Rows, ids: seq<Key>, id: Key): set<Key>
    requires HasColumn(meta, rows, id)
  {
    set x | x in ids && HasColumn(meta, rows, x) && SameInIndex(rows[id][meta.column], rows[x][meta.column], env.ofInt) && Less(id, x)
  }

  /** As many rows of the same value have smaller ids as have larger ones. */
  ghost predicate InTheMiddle(env: Env, meta: Meta, rows: Rows, ids: seq<Key>, id: Key) {
    HasColumn(meta, rows, id) && |TiedBefore(env, meta, rows, ids, id)| == |TiedBehind(env, meta, rows, ids, id)|
  }

  lemma DownOnce(env: Env, meta: Meta, rows: Rows, b: seq<Key>)
    requires InDownOrder(env, meta, rows, b)
    ensures Once(b)
  {
    forall i, j | 0 <= i < j < |b| ensures b[i] != b[j] {
      Irreflexive(b[i]);
      ValueTrichotomy(rows[b[i]][meta.column], rows[b[i]][meta.column], env.ofInt);
    }
  }

  /** Of two ids in descending order the first is larger or ties and is smaller as an id, and not the other way round. */
  lemma DownApart(env: Env, meta: Meta, rows: Rows, b: seq<Key>, i: nat, j: nat)
    requires InDownOrder(env, meta, rows, b) && i < |b| && j < |b|
    ensures b[j] in Larger(env, meta, rows, b, b[i]) + TiedBefore(env, meta, rows, b, b[i]) <==> j < i
  {
    var v, w := rows[b[i]][meta.column], rows[b[j]][meta.column];
    ValueTrichotomy(v, w, env.ofInt);
    ValueTrichotomy(w, v, env.ofInt);
    Irreflexive(b[i]);
    NotBoth(b[i], b[j]);
  }

  lemma DownPlace(env: Env, meta: Meta, rows: Rows, b: seq<Key>, i: nat)
    requires InDownOrder(env, meta, rows, b) && i < |b|
    ensures |Larger(env, meta, rows, b, b[i])| + |TiedBefore(env, meta, rows, b, b[i])| == i
  {
    var larger, tied := Larger(env, meta, rows, b, b[i]), TiedBefore(env, meta, rows, b, b[i]);
    DownOnce(env, meta, rows, b);
    forall j | 0 <= j < |b| ensures b[j] in larger + tied <==> j < i {
      DownApart(env, meta, rows, b, i, j);
    }
    PlaceIs(b, i, larger + tied);
    LargerIsNotTied(env, meta, rows, b, b[i]);
  }

  lemma LargerIsNotTied(env: Env, meta: Meta, rows: Rows, ids: seq<Key>, id: Key)
    requires HasColumn(meta, rows, id)
    ensures Larger(env, meta, rows, ids, id) !! TiedBefore(env, meta, rows, ids, id)
    ensures Larger(env, meta, rows, ids, id) !! TiedBehind(env, meta, rows, ids, id)
  {
    forall x | x in Larger(env, meta, rows, ids, id) ensures !SameInIndex(rows[id][meta.column], rows[x][meta.column], env.ofInt) {
      ValueTrichotomy(rows[id][meta.column], rows[x][meta.column], env.ofInt);
    }
  }

  lemma BackApart(env: Env, meta: Meta, rows: Rows, a: seq<Key>, i: nat, j: nat)
    requires InIndexOrder(env, meta, rows, a) && i < |a| && j < |a|
    ensures var back := Reversed(a);
            && HasColumn(meta, rows, back[i])
            && (back[j] in Larger(env, meta, rows, a, back[i]) + TiedBehind(env, meta, rows, a, back[i]) <==> j < i)
  {
    var x, y := a[|a| - 1 - i], a[|a| - 1 - j];
    assert Reversed(a)[i] == x && Reversed(a)[j] == y && HasColumn(meta, rows, x) && HasColumn(meta, rows, y);
    ValueTrichotomy(rows[x][meta.column], rows[y][meta.column], env.ofInt);
    ValueTrichotomy(rows[y][meta.column], rows[x][meta.column], env.ofInt);
    Irreflexive(x);
    NotBoth(x, y);
  }

  lemma BackPlace(env: Env, meta: Meta, rows: Rows, a: seq<Key>, i: nat)
    requires InIndexOrder(env, meta, rows, a) && i < |a|
    ensures var id := Reversed(a)[i];
            HasColumn(meta, rows, id) && |Larger(env, meta, rows, a, id)| + |TiedBehind(env, meta, rows, a, id)| == i
  {
    var back := Reversed(a);
    BackApart(env, meta, rows, a, i, i);
    var larger, tied := Larger(env, meta, rows, a, back[i]), TiedBehind(env, meta, rows, a, back[i]);
    OrderIsOnce(env, meta, rows, a);
    forall j | 0 <= j < |back| ensures back[j] in larger + tied <==> j < i {
      BackApart(env, meta, rows, a, i, j);
    }
    forall x | x in larger + tied ensures x in back {
      SameMembersReversed(a, x);
    }
    ReversedOnce(a);
    PlaceIs(back, i, larger + tied);
    LargerIsNotTied(env, meta, rows, a, back[i]);
  }

  lemma ReversedOnce(a: seq<Key>)
    requires Once(a)
    ensures Once(Reversed(a))
  {
  }

  lemma SameMembersSameSets(env: Env, meta: Meta, rows: Rows, a: seq<Key>, b: seq<Key>, id: Key)
    requires HasColumn(meta, rows, id) && forall x :: x in a <==> x in b
    ensures Larger(env, meta, rows, a, id) == Larger(env, meta, rows, b, id)
    ensures TiedBefore(env, meta, rows, a, id) == TiedBefore(env, meta, rows, b, id)
    ensures TiedBehind(env, meta, rows, a, id) == TiedBehind(env, meta, rows, b, id)
  {
  }

  lemma SameLength(a: seq<Key>, b: seq<Key>)
    requires Once(a) && Once(b) && forall x :: x in a <==> x in b
    ensures |a| == |b|
  {
    OnceCounts(a);
    OnceCounts(b);
    assert (set x | x in a) == (set x | x in b);
  }

  /** Index order backwards has an id where the descending order has it exactly when it is in the middle of its ties. */
  lemma SamePlaceIff(env: Env, meta: Meta, rows: Rows, a: seq<Key>, b: seq<Key>, i: nat)
    requires InIndexOrder(env, meta, rows, a) && InDownOrder(env, meta, rows, b) && (forall x :: x in a <==> x in b)
    requires |a| == |b| && i < |b|
    ensures Reversed(a)[i] == b[i] <==> InTheMiddle(env, meta, rows, b, b[i])
  {
    var id, back := b[i], Reversed(a);
    DownPlace(env, meta, rows, b, i);
    SameMembersSameSets(env, meta, rows, a, b, id);
    SameMembersReversed(a, id);
    var j :| 0 <= j < |back| && back[j] == id;
    BackPlace(env, meta, rows, a, j);
    OrderIsOnce(env, meta, rows, a);
    ReversedOnce(a);
  }

  // ---- pages ----

  function First(n: nat, limit: Option<int>, offset: Option<int>): (i: nat)
    ensures i <= n
  {
    var skip := if offset.Some? then offset.value else 0;
    if skip <= 0 then 0 else if skip >= n then n else skip
  }

  function Behind(n: nat, limit: Option<int>, offset: Option<int>): (i: nat)
    ensures First(n, limit, offset) <= i <= n
  {
    var from, keep := First(n, limit, offset), if limit.Some? then limit.value else 0;
    if 0 < keep < n - from then from + keep else n
  }

  lemma CutIs<T>(s: seq<T>, limit: Option<int>, offset: Option<int>)
    ensures Cut(s, limit, offset) == s[First(|s|, limit, offset)..Behind(|s|, limit, offset)]
  {
  }

  lemma ShownCut(rows: Rows, alias: Name, ids: seq<Key>, limit: Option<int>, offset: Option<int>)
    requires AllIn(rows, ids)
    ensures AllIn(rows, Cut(ids, limit, offset))
    ensures Cut(Shown(rows, alias, ids), limit, offset) == Shown(rows, alias, Cut(ids, limit, offset))
  {
    CutIs(ids, limit, offset);
    CutIs(Shown(rows, alias, ids), limit, offset);
  }

  lemma SameCutIff(a: seq<Key>, b: seq<Key>, limit: Option<int>, offset: Option<int>)
    requires |a| == |b|
    ensures Cut(a, limit, offset) == Cut(b, limit, offset) <==>
            forall i | First(|b|, limit, offset) <= i < Behind(|b|, limit, offset) :: a[i] == b[i]
  {
    var from, end := First(|b|, limit, offset), Behind(|b|, limit, offset);
    CutIs(a, limit, offset);
    CutIs(b, limit, offset);
    if a[from..end] == b[from..end] {
      forall i | from <= i < end ensures a[i] == b[i] {
        assert a[from..end][i - from] == b[from..end][i - from];
      }
    }
  }

  lemma CutHas(b: seq<Key>, limit: Option<int>, offset: Option<int>, id: Key)
    ensures id in Cut(b, limit, offset) <==>
            exists i :: First(|b|, limit, offset) <= i < Behind(|b|, limit, offset) && b[i] == id
  {
    var from, end := First(|b|, limit, offset), Behind(|b|, limit, offset);
    CutIs(b, limit, offset);
    if i :| from <= i < end && b[i] == id {
      assert b[from..end][i - from] == id;
    }
  }

  /** A page of both orders is the same exactly when each of its ids is in the middle of its ties. */
  lemma CutsAgreeIff(env: Env, meta: Meta, rows: Rows, a: seq<Key>, b: seq<Key>, limit: Option<int>, offset: Option<int>)
    requires InIndexOrder(env, meta, rows, a) && InDownOrder(env, meta, rows, b) && (forall x :: x in a <==> x in b) && |a| == |b|
    ensures Cut(Reversed(a), limit, offset) == Cut(b, limit, offset) <==>
            forall id | id in Cut(b, limit, offset) :: InTheMiddle(env, meta, rows, b, id)
  {
    var from, end := First(|b|, limit, offset), Behind(|b|, limit, offset);
    SameCutIff(Reversed(a), b, limit, offset);
    if Cut(Reversed(a), limit, offset) == Cut(b, limit, offset) {
      forall id | id in Cut(b, limit, offset) ensures InTheMiddle(env, meta, rows, b, id) {
        CutHas(b, limit, offset, id);
        var i :| from <= i < end && b[i] == id;
        SamePlaceIff(env, meta, rows, a, b, i);
      }
    } else if forall id | id in Cut(b, limit, offset) :: InTheMiddle(env, meta, rows, b, id) {
      forall i | from <= i < end ensures Reversed(a)[i] == b[i] {
        CutHas(b, limit, offset, b[i]);
        SamePlaceIff(env, meta, rows, a, b, i);
      }
    }
  }

  /** Two rows of the same value: LIMIT 1 keeps the one with the larger id when the index is read backwards, and the
      other one after the sort. */
  lemma TiedPairSwaps(env: Env, meta: Meta, rows: Rows, x: Key, y: Key)
    requires HasColumn(meta, rows, x) && HasColumn(meta, rows, y) && Less(x, y)
    requires SameInIndex(rows[x][meta.column], rows[y][meta.column], env.ofInt)
    ensures HaveColumn(meta, rows, [x, y])
    ensures Cut(Reversed(IdSort(env, meta, rows, [x, y])), Some(1), None) == [y]
    ensures Cut(DownSort(env, meta, rows, [x, y]), Some(1), None) == [x]
  {
    var a, b := IdSort(env, meta, rows, [x, y]), DownSort(env, meta, rows, [x, y]);
    ValueTrichotomy(rows[x][meta.column], rows[y][meta.column], env.ofInt);
    NotBoth(x, y);
    assert [x, y][..1] == [x];
    assert DownSort(env, meta, rows, [x]) == [x] && IdSort(env, meta, rows, [x]) == [x];
    assert b == [x, y] && a == [x, y];
    assert Reversed(a) == [y, x];
  }

  // ---- whole plans ----

  /** Before paging: the ascending ids read backwards, and the descending ids. */
  lemma UnpagedRuns(sem: Semantics, text: Texts, t: ColumnType, tables: Tables, db: Db, catalog: Catalog, s: Select, meta: Meta)
    requires OrderFits(sem, t, tables, db, catalog, s, meta) && !s.orderBy[0].ascending && s.limit == None && s.offset == None
    ensures Runnable(tables, db.metas, PlanOf(catalog, s)) && Runnable(tables, db.metas, PlanOf(None, s))
    ensures var rows, ids := RowsOf(db.data, tables[s.from.name]), SourceIds(sem, tables, db, None, s);
            && HaveColumn(meta, rows, ids) && AllIn(rows, Reversed(IdSort(sem.env, meta, rows, ids)))
            && Exec(sem, text, tables, db, PlanOf(catalog, s)) == Shown(rows, s.from.alias, Reversed(IdSort(sem.env, meta, rows, ids)))
            && Exec(sem, text, tables, db, PlanOf(None, s)) == Shown(rows, s.from.alias, DownSort(sem.env, meta, rows, ids))
  {
    var rows, ids, up := RowsOf(db.data, tables[s.from.name]), SourceIds(sem, tables, db, None, s), Upwards(s);
    DescendingIsReversed(sem, text, t, tables, db, catalog, s, meta);
    BothSortedScans(sem, text, t, tables, db, s);
    ScanSourceSorted(sem, t, tables, db, s);
    FitsHaveColumn(sem, t, meta, rows, ids);
    SortedIs(sem, t, meta, rows, s.from.alias, up.orderBy, s.orderBy, ids);
  }

  lemma SortedIs(sem: Semantics, t: ColumnType, meta: Meta, rows: Rows, alias: Name, up: seq<Order>, down: seq<Order>, ids: seq<Key>)
    requires ColumnFits(sem, t, rows, meta.column) && Ascends(up, meta.column) && Descends(down, meta.column)
    requires HaveColumn(meta, rows, ids) && Sorted(ids)
    ensures InIndexOrder(sem.env, meta, rows, IdSort(sem.env, meta, rows, ids))
    ensures InDownOrder(sem.env, meta, rows, DownSort(sem.env, meta, rows, ids))
    ensures AllIn(rows, Reversed(IdSort(sem.env, meta, rows, ids)))
    ensures Reversed(StableSort(sem, up, Shown(rows, alias, ids))) == Shown(rows, alias, Reversed(IdSort(sem.env, meta, rows, ids)))
    ensures StableSort(sem, down, Shown(rows, alias, ids)) == Shown(rows, alias, DownSort(sem.env, meta, rows, ids))
  {
    var a := IdSort(sem.env, meta, rows, ids);
    StableSortIs(sem, t, meta, rows, alias, up, ids);
    StableSortIsDown(sem, t, meta, rows, alias, down, ids);
    IdSortOrders(sem.env, meta, rows, ids);
    DownSortOrders(sem.env, meta, rows, ids);
    OrderIsOnce(sem.env, meta, rows, a);
    ShownReversed(rows, alias, a);
  }

  lemma SortedCutsIff(env: Env, meta: Meta, rows: Rows, alias: Name, ids: seq<Key>, limit: Option<int>, offset: Option<int>)
    requires HaveColumn(meta, rows, ids) && Sorted(ids) && GoodTable(rows) && AllIn(rows, Reversed(IdSort(env, meta, rows, ids)))
    ensures Cut(Shown(rows, alias, Reversed(IdSort(env, meta, rows, ids))), limit, offset)
            == Cut(Shown(rows, alias, DownSort(env, meta, rows, ids)), limit, offset) <==>
            forall id | id in Cut(DownSort(env, meta, rows, ids), limit, offset) :: InTheMiddle(env, meta, rows, ids, id)
  {
    var a, b := IdSort(env, meta, rows, ids), DownSort(env, meta, rows, ids);
    IdSortOrders(env, meta, rows, ids);
    DownSortOrders(env, meta, rows, ids);
    OrderIsOnce(env, meta, rows, a);
    DownOnce(env, meta, rows, b);
    SameLength(a, b);
    CutsAgreeIff(env, meta, rows, a, b, limit, offset);
    ShownCut(rows, alias, Reversed(a), limit, offset);
    ShownCut(rows, alias, b, limit, offset);
    SameShownSameIds(rows, alias, Cut(Reversed(a), limit, offset), Cut(b, limit, offset));
    forall id | HasColumn(meta, rows, id) ensures InTheMiddle(env, meta, rows, ids, id) <==> InTheMiddle(env, meta, rows, b, id) {
      SameMembersSameSets(env, meta, rows, ids, b, id);
    }
  }

  /** Descending, with any LIMIT and OFFSET: both plans return the same rows in the same order exactly when each row on
      the page has, among the rows that pass WHERE, as many of its value with smaller ids as with larger ones. */
  lemma PagesAgreeIff(sem: Semantics, text: Texts, t: ColumnType, tables: Tables, db: Db, catalog: Catalog, s: Select, meta: Meta)
    requires OrderFits(sem, t, tables, db, catalog, s, meta) && !s.orderBy[0].ascending
    ensures Runnable(tables, db.metas, PlanOf(catalog, s)) && Runnable(tables, db.metas, PlanOf(None, s))
    ensures var rows, ids := RowsOf(db.data, tables[s.from.name]), SourceIds(sem, tables, db, None, s);
            && HaveColumn(meta, rows, ids)
            && (Exec(sem, text, tables, db, PlanOf(catalog, s)) == Exec(sem, text, tables, db, PlanOf(None, s)) <==>
                forall id | id in Cut(DownSort(sem.env, meta, rows, ids), s.limit, s.offset) :: InTheMiddle(sem.env, meta, rows, ids, id))
  {
    var rows, ids := RowsOf(db.data, tables[s.from.name]), SourceIds(sem, tables, db, None, s);
    UnpagedFits(sem, t, tables, db, catalog, s, meta);
    UnpagedRuns(sem, text, t, tables, db, catalog, Unpaged(s), meta);
    PagedPlan(catalog, s);
    PagedPlan(None, s);
    PagedIs(sem, text, tables, db, PlanOf(catalog, Unpaged(s)), s.limit, s.offset);
    PagedIs(sem, text, tables, db, PlanOf(None, Unpaged(s)), s.limit, s.offset);
    GoodRowsOf(sem.env, tables, db, s.from.name);
    ScanSourceSorted(sem, t, tables, db, Unpaged(s));
    SortedCutsIff(sem.env, meta, rows, s.from.alias, ids, s.limit, s.offset);
  }
}
