/**
 ORDER BY an indexed column, descending: the planner reads the index backwards, which puts rows of equal
 values the other way round than the stable sort does.
 */
module DescendingTies {
  import opened Bytes
  import opened Engine
  import opened Encoding
  import opened IndexKeys
  import opened IndexLookup
  import opened IndexUpkeep
  import opened Eval
  import opened Planner
  import opened Execute
  import opened PlanRows
  import opened PlanMeaning
  import opened SortElimination
  import opened PlanAgreement

  // ---- descending order on ids: by value downwards, equal values by id upwards ----

  ghost predicate DownLess(env: Env, meta: Meta, rows: Rows, a: Key, b: Key)
    requires HasColumn(meta, rows, a) && HasColumn(meta, rows, b)
  {
    var v, w := rows[a][meta.column], rows[b][meta.column];
    ValueLess(w, v, env.ofInt) || (SameInIndex(v, w, env.ofInt) && Less(a, b))
  }

  ghost predicate InDownOrder(env: Env, meta: Meta, rows: Rows, ids: seq<Key>) {
    HaveColumn(meta, rows, ids) && forall i, j | 0 <= i < j < |ids| :: DownLess(env, meta, rows, ids[i], ids[j])
  }

  lemma DownLessTrans(env: Env, meta: Meta, rows: Rows, a: Key, b: Key, c: Key)
    requires HasColumn(meta, rows, a) && HasColumn(meta, rows, b) && HasColumn(meta, rows, c)
    requires DownLess(env, meta, rows, a, b) && DownLess(env, meta, rows, b, c)
    ensures DownLess(env, meta, rows, a, c)
  {
    ValueLessTrans(rows[c][meta.column], rows[b][meta.column], rows[a][meta.column], env.ofInt);
    if Less(a, b) && Less(b, c) {
      Transitive(a, b, c);
    }
  }

  ghost function InsertDown(env: Env, meta: Meta, rows: Rows, ids: seq<Key>, id: Key): (out: seq<Key>)
    requires HaveColumn(meta, rows, ids) && HasColumn(meta, rows, id)
    ensures HaveColumn(meta, rows, out) && forall x :: x in out <==> x in ids || x == id
  {
    if ids == [] then [id]
    else
      var front, last := ids[..|ids| - 1], ids[|ids| - 1];
      assert ids == front + [last];
      if !ValueLess(rows[last][meta.column], rows[id][meta.column], env.ofInt) then ids + [id]
      else InsertDown(env, meta, rows, front, id) + [last]
  }

  ghost function DownSort(env: Env, meta: Meta, rows: Rows, ids: seq<Key>): (out: seq<Key>)
    requires HaveColumn(meta, rows, ids)
    ensures HaveColumn(meta, rows, out) && forall x :: x in out <==> x in ids
  {
    if ids == [] then []
    else
      assert ids == ids[..|ids| - 1] + [ids[|ids| - 1]];
      InsertDown(env, meta, rows, DownSort(env, meta, rows, ids[..|ids| - 1]), ids[|ids| - 1])
  }

  lemma DownSnoc(env: Env, meta: Meta, rows: Rows, ids: seq<Key>, last: Key)
    requires InDownOrder(env, meta, rows, ids) && HasColumn(meta, rows, last)
    requires forall k | k in ids :: HasColumn(meta, rows, k) && DownLess(env, meta, rows, k, last)
    ensures InDownOrder(env, meta, rows, ids + [last])
  {
  }

  lemma {:induction false} InsertDownOrdered(env: Env, meta: Meta, rows: Rows, ids: seq<Key>, id: Key)
    requires InDownOrder(env, meta, rows, ids) && HasColumn(meta, rows, id)
    requires forall x | x in ids :: Less(x, id)
    ensures InDownOrder(env, meta, rows, InsertDown(env, meta, rows, ids, id))
  {
    if ids != [] {
      var front, last := ids[..|ids| - 1], ids[|ids| - 1];
      assert ids == front + [last] && last in ids;
      if !ValueLess(rows[last][meta.column], rows[id][meta.column], env.ofInt) {
        BehindAll(env, meta, rows, ids, id);
        DownSnoc(env, meta, rows, ids, id);
      } else {
        InsertDownOrdered(env, meta, rows, front, id);
        BeforeLast(env, meta, rows, ids, id);
        DownSnoc(env, meta, rows, InsertDown(env, meta, rows, front, id), last);
      }
    }
  }

  lemma BehindAll(env: Env, meta: Meta, rows: Rows, ids: seq<Key>, id: Key)
    requires ids != [] && InDownOrder(env, meta, rows, ids) && HasColumn(meta, rows, id) && forall x | x in ids :: Less(x, id)
    requires !ValueLess(rows[ids[|ids| - 1]][meta.column], rows[id][meta.column], env.ofInt)
    ensures forall k | k in ids :: HasColumn(meta, rows, k) && DownLess(env, meta, rows, k, id)
  {
    var n := |ids| - 1;
    assert ids[n] in ids;
    BehindOne(env, meta, rows, ids[n], id);
    forall k | k in ids ensures HasColumn(meta, rows, k) && DownLess(env, meta, rows, k, id) {
      var i :| 0 <= i < |ids| && ids[i] == k;
      BehindLast(env, meta, rows, ids, i, id);
    }
  }

  lemma BehindLast(env: Env, meta: Meta, rows: Rows, ids: seq<Key>, i: nat, id: Key)
    requires InDownOrder(env, meta, rows, ids) && i < |ids| && HasColumn(meta, rows, id)
    requires DownLess(env, meta, rows, ids[|ids| - 1], id)
    ensures DownLess(env, meta, rows, ids[i], id)
  {
    if i < |ids| - 1 {
      DownLessTrans(env, meta, rows, ids[i], ids[|ids| - 1], id);
    }
  }

  lemma BehindOne(env: Env, meta: Meta, rows: Rows, last: Key, id: Key)
    requires HasColumn(meta, rows, last) && HasColumn(meta, rows, id) && Less(last, id)
    requires !ValueLess(rows[last][meta.column], rows[id][meta.column], env.ofInt)
    ensures DownLess(env, meta, rows, last, id)
  {
    ValueTrichotomy(rows[last][meta.column], rows[id][meta.column], env.ofInt);
  }

  lemma BeforeLast(env: Env, meta: Meta, rows: Rows, ids: seq<Key>, id: Key)
    requires ids != [] && InDownOrder(env, meta, rows, ids) && HasColumn(meta, rows, id)
    requires ValueLess(rows[ids[|ids| - 1]][meta.column], rows[id][meta.column], env.ofInt)
    ensures forall k | k in InsertDown(env, meta, rows, ids[..|ids| - 1], id) ::
              HasColumn(meta, rows, k) && DownLess(env, meta, rows, k, ids[|ids| - 1])
  {
    var front, last := ids[..|ids| - 1], ids[|ids| - 1];
    forall k | k in InsertDown(env, meta, rows, front, id)
      ensures HasColumn(meta, rows, k) && DownLess(env, meta, rows, k, last)
    {
      if k != id {
        var i :| 0 <= i < |front| && front[i] == k;
        assert ids[i] == k;
      }
    }
  }

  lemma {:induction false} DownSortOrders(env: Env, meta: Meta, rows: Rows, ids: seq<Key>)
    requires HaveColumn(meta, rows, ids) && Sorted(ids)
    ensures InDownOrder(env, meta, rows, DownSort(env, meta, rows, ids))
  {
    if ids != [] {
      var front, last := ids[..|ids| - 1], ids[|ids| - 1];
      DownSortOrders(env, meta, rows, front);
      forall x | x in DownSort(env, meta, rows, front) ensures Less(x, last) {
        assert x in front;
      }
      InsertDownOrdered(env, meta, rows, DownSort(env, meta, rows, front), last);
    }
  }

  // ---- the stable sort of the rows is this sort of the ids ----

  lemma InsertStableStep(sem: Semantics, order: seq<Order>, rows: seq<Row>, last: Row, row: Row)
    ensures InsertStable(sem, order, rows + [last], row) ==
            if RowLess(sem, order, row, last) then InsertStable(sem, order, rows, row) + [last] else rows + [last] + [row]
  {
    assert (rows + [last])[..|rows|] == rows;
  }

  lemma InsertDownStep(env: Env, meta: Meta, rows: Rows, ids: seq<Key>, last: Key, id: Key)
    requires HaveColumn(meta, rows, ids + [last]) && HasColumn(meta, rows, last) && HasColumn(meta, rows, id)
    ensures HaveColumn(meta, rows, ids)
    ensures InsertDown(env, meta, rows, ids + [last], id) ==
            if ValueLess(rows[last][meta.column], rows[id][meta.column], env.ofInt) then InsertDown(env, meta, rows, ids, id) + [last]
            else ids + [last] + [id]
  {
    assert (ids + [last])[..|ids|] == ids;
    forall i | 0 <= i < |ids| ensures HasColumn(meta, rows, ids[i]) {
      assert (ids + [last])[i] == ids[i];
    }
  }

  lemma {:induction false} InsertStableIsDown(sem: Semantics, t: ColumnType, meta: Meta, rows: Rows, alias: Name, order: seq<Order>,
                                              ids: seq<Key>, id: Key)
    requires ColumnFits(sem, t, rows, meta.column) && Descends(order, meta.column) && HaveColumn(meta, rows, ids) && id in rows
    ensures InsertStable(sem, order, Shown(rows, alias, ids), Aliased(rows[id], alias))
            == Shown(rows, alias, InsertDown(sem.env, meta, rows, ids, id))
  {
    ShownSnoc(rows, alias, ids, id);
    if ids != [] {
      var front, last := ids[..|ids| - 1], ids[|ids| - 1];
      assert ids == front + [last];
      ShownSnoc(rows, alias, front, last);
      RowLessDown(sem, t, meta, rows, alias, order, id, last);
      InsertStableStep(sem, order, Shown(rows, alias, front), Aliased(rows[last], alias), Aliased(rows[id], alias));
      InsertDownStep(sem.env, meta, rows, front, last, id);
      if ValueLess(rows[last][meta.column], rows[id][meta.column], sem.env.ofInt) {
        InsertStableIsDown(sem, t, meta, rows, alias, order, front, id);
        ShownSnoc(rows, alias, InsertDown(sem.env, meta, rows, front, id), last);
      }
    }
  }

  lemma {:induction false} StableSortIsDown(sem: Semantics, t: ColumnType, meta: Meta, rows: Rows, alias: Name, order: seq<Order>,
                                            ids: seq<Key>)
    requires ColumnFits(sem, t, rows, meta.column) && Descends(order, meta.column) && HaveColumn(meta, rows, ids)
    ensures StableSort(sem, order, Shown(rows, alias, ids)) == Shown(rows, alias, DownSort(sem.env, meta, rows, ids))
  {
    if ids != [] {
      var front, last := ids[..|ids| - 1], ids[|ids| - 1];
      var shown := Shown(rows, alias, ids);
      assert shown[..|shown| - 1] == Shown(rows, alias, front);
      StableSortIsDown(sem, t, meta, rows, alias, order, front);
      InsertStableIsDown(sem, t, meta, rows, alias, order, DownSort(sem.env, meta, rows, front), last);
    }
  }

  // ---- ties ----

  /** No two of the rows have the same value. */
  ghost predicate NoTies(env: Env, meta: Meta, rows: Rows, ids: seq<Key>) {
    forall a, b | a in ids && b in ids && a != b && HasColumn(meta, rows, a) && HasColumn(meta, rows, b) ::
      !SameInIndex(rows[a][meta.column], rows[b][meta.column], env.ofInt)
  }

  lemma SameMembersSameTies(env: Env, meta: Meta, rows: Rows, a: seq<Key>, b: seq<Key>)
    requires forall id :: id in a <==> id in b
    ensures NoTies(env, meta, rows, a) <==> NoTies(env, meta, rows, b)
  {
  }

  ghost predicate IsBackwards(a: seq<Key>, back: seq<Key>) {
    |back| == |a| && forall i | 0 <= i < |a| :: back[i] == a[|a| - 1 - i]
  }

  lemma BackwardsHasNoTies(env: Env, meta: Meta, rows: Rows, a: seq<Key>, back: seq<Key>)
    requires InIndexOrder(env, meta, rows, a) && InDownOrder(env, meta, rows, back) && IsBackwards(a, back)
    ensures NoTies(env, meta, rows, a)
  {
    forall x, y | x in a && y in a && x != y && HasColumn(meta, rows, x) && HasColumn(meta, rows, y)
      ensures !SameInIndex(rows[x][meta.column], rows[y][meta.column], env.ofInt)
    {
      var i :| 0 <= i < |a| && a[i] == x;
      var j :| 0 <= j < |a| && a[j] == y;
      if i < j {
        NotTied(env, meta, rows, a, back, i, j);
      } else {
        NotTied(env, meta, rows, a, back, j, i);
      }
    }
  }

  lemma NotTied(env: Env, meta: Meta, rows: Rows, a: seq<Key>, back: seq<Key>, i: nat, j: nat)
    requires InIndexOrder(env, meta, rows, a) && InDownOrder(env, meta, rows, back) && IsBackwards(a, back) && i < j < |a|
    ensures !SameInIndex(rows[a[i]][meta.column], rows[a[j]][meta.column], env.ofInt)
  {
    var n := |a| - 1;
    assert back[n - j] == a[j] && back[n - i] == a[i];
    UntiedPair(env, meta, rows, a[i], a[j]);
  }

  lemma UntiedPair(env: Env, meta: Meta, rows: Rows, x: Key, y: Key)
    requires HasColumn(meta, rows, x) && HasColumn(meta, rows, y)
    requires IndexLess(env, meta, rows, x, y) && DownLess(env, meta, rows, y, x)
    ensures !SameInIndex(rows[x][meta.column], rows[y][meta.column], env.ofInt)
  {
    ValueTrichotomy(rows[x][meta.column], rows[y][meta.column], env.ofInt);
    NotBoth(x, y);
  }

  lemma NotBoth(x: Key, y: Key)
    ensures !(Less(x, y) && Less(y, x))
  {
    if Less(x, y) {
      Asymmetric(x, y);
    }
  }

  lemma WithoutTiesBackwards(env: Env, meta: Meta, rows: Rows, b: seq<Key>, back: seq<Key>)
    requires InDownOrder(env, meta, rows, b) && NoTies(env, meta, rows, b) && IsBackwards(b, back)
    ensures InIndexOrder(env, meta, rows, back)
  {
    var n := |b| - 1;
    forall i | 0 <= i < |back| ensures HasColumn(meta, rows, back[i]) {
      assert back[i] == b[n - i];
    }
    forall i, j | 0 <= i < j < |back| ensures IndexLess(env, meta, rows, back[i], back[j]) {
      LaterIsLess(env, meta, rows, b, n - j, n - i);
    }
  }

  lemma LaterIsLess(env: Env, meta: Meta, rows: Rows, b: seq<Key>, i: nat, j: nat)
    requires InDownOrder(env, meta, rows, b) && NoTies(env, meta, rows, b) && i < j < |b|
    ensures IndexLess(env, meta, rows, b[j], b[i])
  {
    NotItself(env, meta, rows, b, i, j);
    assert DownLess(env, meta, rows, b[i], b[j]);
  }

  lemma NotItself(env: Env, meta: Meta, rows: Rows, b: seq<Key>, i: nat, j: nat)
    requires InDownOrder(env, meta, rows, b) && NoTies(env, meta, rows, b) && i < j < |b|
    ensures !SameInIndex(rows[b[i]][meta.column], rows[b[j]][meta.column], env.ofInt)
  {
    assert b[i] in b && b[j] in b && DownLess(env, meta, rows, b[i], b[j]);
    Irreflexive(b[i]);
    ValueTrichotomy(rows[b[i]][meta.column], rows[b[j]][meta.column], env.ofInt);
    ValueTrichotomy(rows[b[j]][meta.column], rows[b[i]][meta.column], env.ofInt);
  }

  lemma BackTwice(a: seq<Key>)
    ensures Reversed(Reversed(a)) == a
  {
  }

  /** Index order backwards is the descending order exactly when no two ids tie. */
  lemma BackwardsIff(env: Env, meta: Meta, rows: Rows, a: seq<Key>, b: seq<Key>)
    requires InIndexOrder(env, meta, rows, a) && InDownOrder(env, meta, rows, b) && forall id :: id in a <==> id in b
    ensures Reversed(a) == b <==> NoTies(env, meta, rows, a)
  {
    if Reversed(a) == b {
      BackwardsHasNoTies(env, meta, rows, a, Reversed(a));
    } else if NoTies(env, meta, rows, a) {
      SameMembersSameTies(env, meta, rows, a, b);
      WithoutTiesBackwards(env, meta, rows, b, Reversed(b));
      forall id ensures id in Reversed(b) <==> id in b {
        SameMembersReversed(b, id);
      }
      OneIndexOrder(env, meta, rows, a, Reversed(b));
      BackTwice(b);
    }
  }

  lemma SameShownSameIds(rows: Rows, alias: Name, a: seq<Key>, b: seq<Key>)
    requires AllIn(rows, a) && AllIn(rows, b) && GoodTable(rows)
    ensures Shown(rows, alias, a) == Shown(rows, alias, b) <==> a == b
  {
    if Shown(rows, alias, a) == Shown(rows, alias, b) {
      assert |a| == |Shown(rows, alias, a)| == |b|;
      forall i | 0 <= i < |a| ensures a[i] == b[i] {
        assert Shown(rows, alias, a)[i] == Shown(rows, alias, b)[i];
        ShownKeepsId(rows[a[i]], alias);
        ShownKeepsId(rows[b[i]], alias);
        assert rows[a[i]][ID] == Str(a[i]) && rows[b[i]][ID] == Str(b[i]);
      }
    }
  }

  /** The ascending sort read backwards is the descending sort exactly when no two rows tie. */
  lemma SortBackwardsIff(sem: Semantics, t: ColumnType, meta: Meta, rows: Rows, alias: Name, up: seq<Order>, down: seq<Order>, ids: seq<Key>)
    requires ColumnFits(sem, t, rows, meta.column) && Ascends(up, meta.column) && Descends(down, meta.column)
    requires AllIn(rows, ids) && Sorted(ids) && GoodTable(rows)
    ensures Reversed(StableSort(sem, up, Shown(rows, alias, ids))) == StableSort(sem, down, Shown(rows, alias, ids))
            <==> NoTies(sem.env, meta, rows, ids)
  {
    FitsHaveColumn(sem, t, meta, rows, ids);
    var a, b := IdSort(sem.env, meta, rows, ids), DownSort(sem.env, meta, rows, ids);
    StableSortIs(sem, t, meta, rows, alias, up, ids);
    StableSortIsDown(sem, t, meta, rows, alias, down, ids);
    IdSortOrders(sem.env, meta, rows, ids);
    DownSortOrders(sem.env, meta, rows, ids);
    BackwardsIff(sem.env, meta, rows, a, b);
    SameMembersSameTies(sem.env, meta, rows, a, ids);
    OrderIsOnce(sem.env, meta, rows, a);
    ShownReversed(rows, alias, a);
    SameShownSameIds(rows, alias, Reversed(a), b);
  }

  lemma OrderIsOnce(env: Env, meta: Meta, rows: Rows, a: seq<Key>)
    requires InIndexOrder(env, meta, rows, a)
    ensures AllIn(rows, a) && Once(a)
  {
    forall i, j | 0 <= i < j < |a| ensures a[i] != a[j] {
      IndexLessAsymmetric(env, meta, rows, a[i], a[j]);
    }
  }

  // ---- whole plans ----

  /** Descending: the very sequence of the stable sort exactly when no two rows that pass WHERE have the same value. */
  lemma DescendingIsExactIff(sem: Semantics, text: Texts, t: ColumnType, tables: Tables, db: Db, catalog: Catalog, s: Select, meta: Meta)
    requires OrderFits(sem, t, tables, db, catalog, s, meta) && !s.orderBy[0].ascending
    requires s.limit == None && s.offset == None
    ensures Runnable(tables, db.metas, PlanOf(catalog, s)) && Runnable(tables, db.metas, PlanOf(None, s))
    ensures Exec(sem, text, tables, db, PlanOf(catalog, s)) == Exec(sem, text, tables, db, PlanOf(None, s)) <==>
            NoTies(sem.env, meta, RowsOf(db.data, tables[s.from.name]), SourceIds(sem, tables, db, None, s))
  {
    DescendingIsReversed(sem, text, t, tables, db, catalog, s, meta);
    GoodRowsOf(sem.env, tables, db, s.from.name);
    ScansSortBothWays(sem, text, t, tables, db, s, meta);
  }

  lemma BothSortedScans(sem: Semantics, text: Texts, t: ColumnType, tables: Tables, db: Db, s: Select)
    requires Setting(sem, t, tables, db, None, s) && IsStar(s.columns) && |s.orderBy| == 1
    ensures var plan, up := Ordered(None, s, BeforeOrder(None, s)), Ordered(None, Upwards(s), BeforeOrder(None, Upwards(s)));
            && Runnable(tables, db.metas, plan) && Runnable(tables, db.metas, up)
            && var shown := Shown(RowsOf(db.data, tables[s.from.name]), s.from.alias, SourceIds(sem, tables, db, None, s));
               Exec(sem, text, tables, db, plan) == StableSort(sem, s.orderBy, shown)
               && Exec(sem, text, tables, db, up) == StableSort(sem, Upwards(s).orderBy, shown)
  {
    SortedScanRuns(sem, text, t, tables, db, s);
    SortedScanRuns(sem, text, t, tables, db, Upwards(s));
  }

  lemma ScansSortBothWays(sem: Semantics, text: Texts, t: ColumnType, tables: Tables, db: Db, s: Select, meta: Meta)
    requires Setting(sem, t, tables, db, None, s) && IsStar(s.columns) && Descends(s.orderBy, meta.column)
    requires ColumnFits(sem, t, RowsOf(db.data, tables[s.from.name]), meta.column) && GoodTable(RowsOf(db.data, tables[s.from.name]))
    ensures var plan, up := Ordered(None, s, BeforeOrder(None, s)), Ordered(None, Upwards(s), BeforeOrder(None, Upwards(s)));
            && Runnable(tables, db.metas, plan) && Runnable(tables, db.metas, up)
            && (Reversed(Exec(sem, text, tables, db, up)) == Exec(sem, text, tables, db, plan) <==>
                NoTies(sem.env, meta, RowsOf(db.data, tables[s.from.name]), SourceIds(sem, tables, db, None, s)))
  {
    var up, rows := Upwards(s), RowsOf(db.data, tables[s.from.name]);
    BothSortedScans(sem, text, t, tables, db, s);
    ScanSourceSorted(sem, t, tables, db, s);
    SortBackwardsIff(sem, t, meta, rows, s.from.alias, up.orderBy, s.orderBy, SourceIds(sem, tables, db, None, s));
  }

  function Unpaged(s: Select): Select { s.(limit := None, offset := None) }

  lemma UnpagedFits(sem: Semantics, t: ColumnType, tables: Tables, db: Db, catalog: Catalog, s: Select, meta: Meta)
    requires OrderFits(sem, t, tables, db, catalog, s, meta)
    ensures OrderFits(sem, t, tables, db, catalog, Unpaged(s), meta)
    ensures SourceIds(sem, tables, db, None, Unpaged(s)) == SourceIds(sem, tables, db, None, s)
  {
    assert BeforeOrder(catalog, Unpaged(s)) == BeforeOrder(catalog, s);
  }

  lemma PagedPlan(catalog: Catalog, s: Select)
    ensures PlanOf(catalog, s) == Limited(PlanOf(catalog, Unpaged(s)), s.limit, s.offset)
  {
    assert BeforeOrder(catalog, Unpaged(s)) == BeforeOrder(catalog, s);
  }

  function Cut<T>(rows: seq<T>, limit: Option<int>, offset: Option<int>): seq<T> {
    if limit.None? && offset.None? then rows
    else Page(rows, if limit.Some? then limit.value else 0, if offset.Some? then offset.value else 0)
  }

  lemma PagedIs(sem: Semantics, text: Texts, tables: Tables, db: Db, p: Plan, limit: Option<int>, offset: Option<int>)
    requires Runnable(tables, db.metas, p)
    ensures Runnable(tables, db.metas, Limited(p, limit, offset))
    ensures Exec(sem, text, tables, db, Limited(p, limit, offset)) == Cut(Exec(sem, text, tables, db, p), limit, offset)
  {
  }

  lemma PagedAlike(sem: Semantics, text: Texts, tables: Tables, db: Db, p: Plan, q: Plan, limit: Option<int>, offset: Option<int>)
    requires Runnable(tables, db.metas, p) && Runnable(tables, db.metas, q)
    requires Exec(sem, text, tables, db, p) == Exec(sem, text, tables, db, q)
    ensures Runnable(tables, db.metas, Limited(p, limit, offset)) && Runnable(tables, db.metas, Limited(q, limit, offset))
    ensures Exec(sem, text, tables, db, Limited(p, limit, offset)) == Exec(sem, text, tables, db, Limited(q, limit, offset))
  {
    PagedIs(sem, text, tables, db, p, limit, offset);
    PagedIs(sem, text, tables, db, q, limit, offset);
  }

  /** Descending, with any LIMIT and OFFSET: the page is cut from the reverse of the ascending stable sort. */
  lemma PageIsReversed(sem: Semantics, text: Texts, t: ColumnType, tables: Tables, db: Db, catalog: Catalog, s: Select, meta: Meta)
    requires OrderFits(sem, t, tables, db, catalog, s, meta) && !s.orderBy[0].ascending
    ensures var up := PlanOf(None, Upwards(Unpaged(s)));
            && Runnable(tables, db.metas, PlanOf(catalog, s)) && Runnable(tables, db.metas, up)
            && Exec(sem, text, tables, db, PlanOf(catalog, s)) == Cut(Reversed(Exec(sem, text, tables, db, up)), s.limit, s.offset)
  {
    UnpagedFits(sem, t, tables, db, catalog, s, meta);
    DescendingIsReversed(sem, text, t, tables, db, catalog, Unpaged(s), meta);
    PagedPlan(catalog, s);
    PagedIs(sem, text, tables, db, PlanOf(catalog, Unpaged(s)), s.limit, s.offset);
  }

  /** It is cut from rows that are in descending order and are those that sorting returns. */
  lemma PageIsSorted(sem: Semantics, text: Texts, t: ColumnType, tables: Tables, db: Db, catalog: Catalog, s: Select, meta: Meta)
    requires OrderFits(sem, t, tables, db, catalog, s, meta) && !s.orderBy[0].ascending
    ensures var p, q := PlanOf(catalog, Unpaged(s)), PlanOf(None, Unpaged(s));
            && Runnable(tables, db.metas, PlanOf(catalog, s)) && Runnable(tables, db.metas, p) && Runnable(tables, db.metas, q)
            && Exec(sem, text, tables, db, PlanOf(catalog, s)) == Cut(Exec(sem, text, tables, db, p), s.limit, s.offset)
            && multiset(Exec(sem, text, tables, db, p)) == multiset(Exec(sem, text, tables, db, q))
            && RowsSorted(sem, s.orderBy, Exec(sem, text, tables, db, p))
  {
    UnpagedFits(sem, t, tables, db, catalog, s, meta);
    DescendingSorts(sem, text, t, tables, db, catalog, Unpaged(s), meta);
    PagedPlan(catalog, s);
    PagedIs(sem, text, tables, db, PlanOf(catalog, Unpaged(s)), s.limit, s.offset);
  }

  /** Without ties LIMIT and OFFSET cut both plans alike. */
  lemma UntiedPages(sem: Semantics, text: Texts, t: ColumnType, tables: Tables, db: Db, catalog: Catalog, s: Select, meta: Meta)
    requires OrderFits(sem, t, tables, db, catalog, s, meta) && !s.orderBy[0].ascending
    requires NoTies(sem.env, meta, RowsOf(db.data, tables[s.from.name]), SourceIds(sem, tables, db, None, s))
    ensures Runnable(tables, db.metas, PlanOf(catalog, s)) && Runnable(tables, db.metas, PlanOf(None, s))
    ensures Exec(sem, text, tables, db, PlanOf(catalog, s)) == Exec(sem, text, tables, db, PlanOf(None, s))
  {
    UnpagedFits(sem, t, tables, db, catalog, s, meta);
    DescendingIsExactIff(sem, text, t, tables, db, catalog, Unpaged(s), meta);
    PagedPlan(catalog, s);
    PagedPlan(None, s);
    PagedAlike(sem, text, tables, db, PlanOf(catalog, Unpaged(s)), PlanOf(None, Unpaged(s)), s.limit, s.offset);
  }
}
