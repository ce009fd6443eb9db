/**
 ORDER BY an indexed column: the planner reads the rows in index order instead of sorting them.
 For SELECT * on one table, ascending order gives the very sequence of the stable sort, and
 descending order its reverse.
 */
module SortElimination {
  import opened Bytes
  import opened Engine
  import opened Encoding
  import opened IndexKeys
  import opened IndexLookup
  import opened IndexManager
  import opened IndexUpkeep
  import opened Ast
  import opened Eval
  import opened Planner
  import opened Execute
  import opened PlanRows
  import opened PlanMeaning

  // ---- index order on ids ----

  ghost predicate HaveColumn(meta: Meta, rows: Rows, ids: seq<Key>) {
    forall i | 0 <= i < |ids| :: ids[i] in rows && meta.column in rows[ids[i]]
  }

  ghost predicate InIndexOrder(env: Env, meta: Meta, rows: Rows, ids: seq<Key>) {
    HaveColumn(meta, rows, ids) && forall i, j | 0 <= i < j < |ids| :: IndexLess(env, meta, rows, ids[i], ids[j])
  }

  ghost predicate HasColumn(meta: Meta, rows: Rows, id: Key) {
    id in rows && meta.column in rows[id]
  }

  lemma ValueLessTrans(u: Value, v: Value, w: Value, ofInt: OfInt)
    requires ValueLess(u, v, ofInt) || SameInIndex(u, v, ofInt)
    requires ValueLess(v, w, ofInt) || SameInIndex(v, w, ofInt)
    ensures ValueLess(u, w, ofInt) || SameInIndex(u, w, ofInt)
    ensures ValueLess(u, v, ofInt) || ValueLess(v, w, ofInt) ==> ValueLess(u, w, ofInt)
  {
    if Less(Raw(u, ofInt), Raw(v, ofInt)) && Less(Raw(v, ofInt), Raw(w, ofInt)) {
      Transitive(Raw(u, ofInt), Raw(v, ofInt), Raw(w, ofInt));
    }
  }

  lemma IndexLessTrans(env: Env, meta: Meta, rows: Rows, a: Key, b: Key, c: Key)
    requires HasColumn(meta, rows, a) && HasColumn(meta, rows, b) && HasColumn(meta, rows, c)
    requires IndexLess(env, meta, rows, a, b) && IndexLess(env, meta, rows, b, c)
    ensures IndexLess(env, meta, rows, a, c)
  {
    ValueLessTrans(rows[a][meta.column], rows[b][meta.column], rows[c][meta.column], env.ofInt);
    if Less(a, b) && Less(b, c) {
      Transitive(a, b, c);
    }
  }

  lemma IndexLessAsymmetric(env: Env, meta: Meta, rows: Rows, a: Key, b: Key)
    requires HasColumn(meta, rows, a) && HasColumn(meta, rows, b) && IndexLess(env, meta, rows, a, b)
    ensures !IndexLess(env, meta, rows, b, a) && a != b
  {
    ValueTrichotomy(rows[a][meta.column], rows[b][meta.column], env.ofInt);
    ValueTrichotomy(rows[b][meta.column], rows[a][meta.column], env.ofInt);
    Irreflexive(a);
    if Less(a, b) {
      Asymmetric(a, b);
    }
  }

  /** There is one way to put a set of ids in index order. */
  lemma {:induction false} OneIndexOrder(env: Env, meta: Meta, rows: Rows, a: seq<Key>, b: seq<Key>)
    requires InIndexOrder(env, meta, rows, a) && InIndexOrder(env, meta, rows, b)
    requires forall id :: id in a <==> id in b
    ensures a == b
    decreases |a|
  {
    SameEmpty(a, b);
    if a != [] {
      var x, y := a[|a| - 1], b[|b| - 1];
      LastsAgree(env, meta, rows, a, b);
      var p, q := a[..|a| - 1], b[..|b| - 1];
      forall id ensures id in p <==> id in q {
        WithoutLast(env, meta, rows, a, id);
        WithoutLast(env, meta, rows, b, id);
      }
      OneIndexOrder(env, meta, rows, p, q);
      assert a == p + [x] && b == q + [y];
    }
  }

  lemma SameEmpty(a: seq<Key>, b: seq<Key>)
    requires forall id :: id in a <==> id in b
    ensures a == [] <==> b == []
  {
    if a != [] {
      HasSome(a);
    }
    if b != [] {
      HasSome(b);
    }
  }

  lemma LastsAgree(env: Env, meta: Meta, rows: Rows, a: seq<Key>, b: seq<Key>)
    requires InIndexOrder(env, meta, rows, a) && InIndexOrder(env, meta, rows, b) && a != [] && b != []
    requires forall id :: id in a <==> id in b
    ensures a[|a| - 1] == b[|b| - 1]
  {
    var x, y := a[|a| - 1], b[|b| - 1];
    assert x in a && y in b;
    NoneBehindLast(env, meta, rows, a, y);
    NoneBehindLast(env, meta, rows, b, x);
    if x != y {
      IndexLessAsymmetric(env, meta, rows, x, y);
    }
  }

  lemma NoneBehindLast(env: Env, meta: Meta, rows: Rows, ids: seq<Key>, id: Key)
    requires InIndexOrder(env, meta, rows, ids) && id in ids && ids != []
    ensures HasColumn(meta, rows, id) && HasColumn(meta, rows, ids[|ids| - 1])
    ensures id == ids[|ids| - 1] || IndexLess(env, meta, rows, id, ids[|ids| - 1])
  {
    var i :| 0 <= i < |ids| && ids[i] == id;
  }

  lemma WithoutLast(env: Env, meta: Meta, rows: Rows, a: seq<Key>, id: Key)
    requires InIndexOrder(env, meta, rows, a) && a != []
    ensures id in a[..|a| - 1] <==> id in a && id != a[|a| - 1]
  {
    var p := a[..|a| - 1];
    assert a == p + [a[|a| - 1]];
    if id in p {
      var i :| 0 <= i < |p| && p[i] == id;
      IndexLessAsymmetric(env, meta, rows, a[i], a[|a| - 1]);
    }
  }

  // ---- the stable sort, on ids ----

  ghost function InsertId(env: Env, meta: Meta, rows: Rows, ids: seq<Key>, id: Key): (out: seq<Key>)
    requires HaveColumn(meta, rows, ids) && HasColumn(meta, rows, id)
    ensures HaveColumn(meta, rows, out) && forall x :: x in out <==> x in ids || x == id
  {
    if ids == [] then [id]
    else
      var front, last := ids[..|ids| - 1], ids[|ids| - 1];
      assert ids == front + [last];
      if !ValueLess(rows[id][meta.column], rows[last][meta.column], env.ofInt) then ids + [id]
      else InsertId(env, meta, rows, front, id) + [last]
  }

  ghost function IdSort(env: Env, meta: Meta, rows: Rows, ids: seq<Key>): (out: seq<Key>)
    requires HaveColumn(meta, rows, ids)
    ensures HaveColumn(meta, rows, out) && forall x :: x in out <==> x in ids
  {
    if ids == [] then []
    else
      assert ids == ids[..|ids| - 1] + [ids[|ids| - 1]];
      InsertId(env, meta, rows, IdSort(env, meta, rows, ids[..|ids| - 1]), ids[|ids| - 1])
  }

  lemma {:induction false} InsertOrdered(env: Env, meta: Meta, rows: Rows, ids: seq<Key>, id: Key)
    requires InIndexOrder(env, meta, rows, ids) && HasColumn(meta, rows, id)
    requires forall x | x in ids :: Less(x, id)
    ensures InIndexOrder(env, meta, rows, InsertId(env, meta, rows, ids, id))
  {
    if ids != [] {
      var front, last := ids[..|ids| - 1], ids[|ids| - 1];
      assert ids == front + [last] && last in ids;
      var out := InsertId(env, meta, rows, ids, id);
      if !ValueLess(rows[id][meta.column], rows[last][meta.column], env.ofInt) {
        ValueTrichotomy(rows[id][meta.column], rows[last][meta.column], env.ofInt);
        forall i | 0 <= i < |ids| ensures IndexLess(env, meta, rows, ids[i], id) {
          if i < |ids| - 1 {
            IndexLessTrans(env, meta, rows, ids[i], last, id);
          }
        }
      } else {
        InsertOrdered(env, meta, rows, front, id);
        var most := InsertId(env, meta, rows, front, id);
        forall i | 0 <= i < |most| ensures IndexLess(env, meta, rows, most[i], last) {
          assert most[i] in most;
          if most[i] != id {
            var j :| 0 <= j < |front| && front[j] == most[i];
            assert ids[j] == most[i];
          }
        }
      }
    }
  }

  lemma {:induction false} IdSortOrders(env: Env, meta: Meta, rows: Rows, ids: seq<Key>)
    requires HaveColumn(meta, rows, ids) && Sorted(ids)
    ensures InIndexOrder(env, meta, rows, IdSort(env, meta, rows, ids))
  {
    if ids != [] {
      var front, last := ids[..|ids| - 1], ids[|ids| - 1];
      IdSortOrders(env, meta, rows, front);
      forall x | x in IdSort(env, meta, rows, front) ensures Less(x, last) {
        assert x in front;
      }
      InsertOrdered(env, meta, rows, IdSort(env, meta, rows, front), last);
    }
  }

  /** ORDER BY the column, ascending. */
  ghost predicate Ascends(order: seq<Order>, column: Name) {
    |order| == 1 && order[0].expr.Ident? && order[0].expr.name == column && order[0].ascending
  }

  lemma RowLessIs(sem: Semantics, t: ColumnType, meta: Meta, rows: Rows, alias: Name, order: seq<Order>, a: Key, b: Key)
    requires ColumnFits(sem, t, rows, meta.column) && Ascends(order, meta.column) && a in rows && b in rows
    ensures RowLess(sem, order, Aliased(rows[a], alias), Aliased(rows[b], alias))
            <==> ValueLess(rows[a][meta.column], rows[b][meta.column], sem.env.ofInt)
  {
    ColumnIsRead(sem, order[0].expr.table, meta.column, rows[a], alias);
    ColumnIsRead(sem, order[0].expr.table, meta.column, rows[b], alias);
    CompareIsIndexOrder(sem, t, rows[a][meta.column], rows[b][meta.column]);
    assert order[1..] == [];
  }

  lemma FitsHaveColumn(sem: Semantics, t: ColumnType, meta: Meta, rows: Rows, ids: seq<Key>)
    requires ColumnFits(sem, t, rows, meta.column) && AllIn(rows, ids)
    ensures HaveColumn(meta, rows, ids)
  {
  }

  lemma {:induction false} InsertStableIs(sem: Semantics, t: ColumnType, meta: Meta, rows: Rows, alias: Name, order: seq<Order>,
                                          ids: seq<Key>, id: Key)
    requires ColumnFits(sem, t, rows, meta.column) && Ascends(order, meta.column) && HaveColumn(meta, rows, ids) && id in rows
    ensures InsertStable(sem, order, Shown(rows, alias, ids), Aliased(rows[id], alias))
            == Shown(rows, alias, InsertId(sem.env, meta, rows, ids, id))
  {
    ShownSnoc(rows, alias, ids, id);
    if ids != [] {
      var front, last := ids[..|ids| - 1], ids[|ids| - 1];
      var shown := Shown(rows, alias, ids);
      assert shown[..|shown| - 1] == Shown(rows, alias, front);
      RowLessIs(sem, t, meta, rows, alias, order, id, last);
      if ValueLess(rows[id][meta.column], rows[last][meta.column], sem.env.ofInt) {
        InsertStableIs(sem, t, meta, rows, alias, order, front, id);
        ShownSnoc(rows, alias, InsertId(sem.env, meta, rows, front, id), last);
      }
    }
  }

  lemma {:induction false} StableSortIs(sem: Semantics, t: ColumnType, meta: Meta, rows: Rows, alias: Name, order: seq<Order>,
                                        ids: seq<Key>)
    requires ColumnFits(sem, t, rows, meta.column) && Ascends(order, meta.column) && HaveColumn(meta, rows, ids)
    ensures StableSort(sem, order, Shown(rows, alias, ids)) == Shown(rows, alias, IdSort(sem.env, meta, rows, ids))
  {
    if ids != [] {
      var front, last := ids[..|ids| - 1], ids[|ids| - 1];
      var shown := Shown(rows, alias, ids);
      assert shown[..|shown| - 1] == Shown(rows, alias, front);
      StableSortIs(sem, t, meta, rows, alias, order, front);
      InsertStableIs(sem, t, meta, rows, alias, order, IdSort(sem.env, meta, rows, front), last);
    }
  }

  /** Sorting the rows of ids in key order gives the rows of the same ids in index order. */
  lemma SortGivesIndexOrder(sem: Semantics, t: ColumnType, meta: Meta, rows: Rows, alias: Name, order: seq<Order>,
                            a: seq<Key>, b: seq<Key>)
    requires ColumnFits(sem, t, rows, meta.column) && Ascends(order, meta.column)
    requires AllIn(rows, b) && Sorted(b) && InIndexOrder(sem.env, meta, rows, a) && forall id :: id in a <==> id in b
    ensures StableSort(sem, order, Shown(rows, alias, b)) == Shown(rows, alias, a)
  {
    FitsHaveColumn(sem, t, meta, rows, b);
    StableSortIs(sem, t, meta, rows, alias, order, b);
    IdSortOrders(sem.env, meta, rows, b);
    OneIndexOrder(sem.env, meta, rows, a, IdSort(sem.env, meta, rows, b));
  }

  // ---- filters keep order ----

  lemma {:induction false} ChosenIndexOrder(sem: Semantics, e: Expr, meta: Meta, rows: Rows, alias: Name, ids: seq<Key>)
    requires AllIn(rows, ids) && InIndexOrder(sem.env, meta, rows, ids)
    ensures InIndexOrder(sem.env, meta, rows, Chosen(sem, e, rows, alias, ids))
  {
    if ids != [] {
      var front, last := ids[..|ids| - 1], ids[|ids| - 1];
      ChosenIndexOrder(sem, e, meta, rows, alias, front);
      var out := Chosen(sem, e, rows, alias, front);
      forall k | k in front ensures IndexLess(sem.env, meta, rows, k, last) {
        var j :| 0 <= j < |front| && front[j] == k;
        assert ids[j] == k;
      }
      IndexOrderSnoc(sem.env, meta, rows, out, last);
    }
  }

  lemma IndexOrderSnoc(env: Env, meta: Meta, rows: Rows, ids: seq<Key>, last: Key)
    requires InIndexOrder(env, meta, rows, ids) && HasColumn(meta, rows, last)
    requires forall k | k in ids :: HasColumn(meta, rows, k) && IndexLess(env, meta, rows, k, last)
    ensures InIndexOrder(env, meta, rows, ids + [last])
  {
  }

  lemma {:induction false} ChosenSorted(sem: Semantics, e: Expr, rows: Rows, alias: Name, ids: seq<Key>)
    requires AllIn(rows, ids) && Sorted(ids)
    ensures Sorted(Chosen(sem, e, rows, alias, ids))
  {
    if ids != [] {
      var front, last := ids[..|ids| - 1], ids[|ids| - 1];
      ChosenSorted(sem, e, rows, alias, front);
      var out := Chosen(sem, e, rows, alias, front);
      forall i | 0 <= i < |out| ensures Less(out[i], last) {
        assert out[i] in front;
      }
    }
  }

  lemma AnswersAreKnown(env: Env, meta: Meta, rows: Rows, span: Span, ids: seq<Key>)
    requires Answers(env, meta, rows, span, ids)
    ensures Known(rows, ids) == ids && InIndexOrder(env, meta, rows, ids) && AllIn(rows, ids) && Once(ids)
  {
    forall i | 0 <= i < |ids| ensures HasColumn(meta, rows, ids[i]) {
      assert ids[i] in ids && Hit(env, meta, rows, span, ids[i]);
    }
    forall i, j | 0 <= i < j < |ids| ensures ids[i] != ids[j] {
      IndexLessAsymmetric(env, meta, rows, ids[i], ids[j]);
    }
    KnownAll(rows, ids);
  }

  // ---- the assumptions ----

  /** The index the planner reads in order. */
  ghost predicate ReadInOrder(tables: Tables, db: Db, catalog: Catalog, s: Select, meta: Meta) {
    && |s.orderBy| == 1 && s.orderBy[0].expr.Ident? && s.orderBy[0].expr.name != []
    && s.from.name in tables && meta.name in db.metas && db.metas[meta.name] == meta
    && var p := BeforeOrder(catalog, s);
    if ServesOrder(p, s.orderBy[0].expr.name) then UnwrapIndexScan(p).value.index == meta.name
    else OrderedIndex(catalog, s, p) == Some(meta)
  }

  /** SELECT * ordered by that index's column, whose values keep their order. */
  ghost predicate OrderFits(sem: Semantics, t: ColumnType, tables: Tables, db: Db, catalog: Catalog, s: Select, meta: Meta) {
    && Setting(sem, t, tables, db, catalog, s)
    && IsStar(s.columns)
    && ReadInOrder(tables, db, catalog, s, meta)
    && s.orderBy[0].expr.name == meta.column
    && ColumnFits(sem, t, RowsOf(db.data, tables[s.from.name]), meta.column)
  }

  function Upwards(s: Select): Select
    requires |s.orderBy| == 1
  {
    s.(orderBy := [s.orderBy[0].(ascending := true)])
  }

  // ---- reading an index scan in order ----

  /** Whatever else a lookup by value reads, the ids that have rows come in index order. */
  lemma {:induction false} KnownIndexOrder(env: Env, meta: Meta, rows: Rows, ids: seq<Key>)
    requires forall i | 0 <= i < |ids| && ids[i] in rows :: HasColumn(meta, rows, ids[i])
    requires forall i, j | 0 <= i < j < |ids| && ids[i] in rows && ids[j] in rows && ids[i] != ids[j] ::
               HasColumn(meta, rows, ids[i]) && HasColumn(meta, rows, ids[j]) && IndexLess(env, meta, rows, ids[i], ids[j])
    ensures InIndexOrder(env, meta, rows, Known(rows, ids))
  {
    if ids != [] {
      var before, id := ids[..|ids| - 1], ids[|ids| - 1];
      KnownIndexOrder(env, meta, rows, before);
      if id !in before && id in rows {
        forall k | k in Known(rows, before) ensures HasColumn(meta, rows, k) && IndexLess(env, meta, rows, k, id) {
          var j :| 0 <= j < |before| && before[j] == k;
          assert ids[j] == k && k != id;
        }
        IndexOrderSnoc(env, meta, rows, Known(rows, before), id);
      }
    }
  }

  lemma LookupInOrder(env: Env, tables: Tables, db: Db, n: Name, span: Span)
    requires Inv(env, tables, db) && n in db.metas && db.metas[n].kind != Inverted
    ensures var rows := RowsOf(db.data, tables[db.metas[n].table]);
            InIndexOrder(env, db.metas[n], rows, Known(rows, Lookup(db.data, db.metas[n], span, env.ofInt)))
  {
    var meta, rows := db.metas[n], RowsOf(db.data, tables[db.metas[n].table]);
    assert Exact(env, tables, db, n);
    GoodIds(tables, db.data, meta.table);
    var ids := Lookup(db.data, meta, span, env.ofInt);
    match span
    case Equal(v) =>
      EqualInOrder(env, db.data, meta, rows, v);
      KnownIndexOrder(env, meta, rows, ids);
    case Range(_, _, _, _) =>
      RangeAnswers(env, db.data, meta, rows, span);
      AnswersAreKnown(env, meta, rows, span, ids);
  }

  /** The source's ids come in the order of the index that serves WHERE. */
  lemma SourceInIndexOrder(sem: Semantics, t: ColumnType, tables: Tables, db: Db, catalog: Catalog, s: Select, meta: Meta)
    requires OrderFits(sem, t, tables, db, catalog, s, meta) && ServesOrder(BeforeOrder(catalog, s), meta.column)
    ensures InIndexOrder(sem.env, meta, RowsOf(db.data, tables[s.from.name]), SourceIds(sem, tables, db, catalog, s))
  {
    var k := SourceIs(sem, t, tables, db, catalog, s);
    var (scan, rest) := Source(catalog, s);
    var rows := RowsOf(db.data, tables[s.from.name]);
    ServedIsScan(catalog, s, scan, rest);
    LookupInOrder(sem.env, tables, db, scan.index, scan.span);
    if rest.Some? {
      ChosenIndexOrder(sem, rest.value, meta, rows, s.from.alias, Known(rows, Lookup(db.data, meta, scan.span, sem.env.ofInt)));
    }
  }

  /** What UnwrapIndexScan finds in a plan before ordering is its source. */
  lemma ServedIsScan(catalog: Catalog, s: Select, scan: Plan, rest: Option<Expr>)
    requires OneTable(s) && Source(catalog, s) == (scan, rest) && (scan.Scan? || scan.IndexScan?)
    ensures UnwrapIndexScan(BeforeOrder(catalog, s)) == if scan.IndexScan? then Some(scan) else None
    ensures HasFilterOrIndexScan(BeforeOrder(catalog, s)) <==> scan.IndexScan? || rest.Some? || s.where_.Some?
  {
    var p := Filtered(scan, rest, s.where_);
    assert BeforeOrder(catalog, s) == Project(p, s.columns);
    assert UnwrapIndexScan(p) == if scan.IndexScan? then Some(scan) else None;
  }

  lemma ScanSourceSorted(sem: Semantics, t: ColumnType, tables: Tables, db: Db, s: Select)
    requires Setting(sem, t, tables, db, None, s)
    ensures Sorted(SourceIds(sem, tables, db, None, s))
  {
    var rows := RowsOf(db.data, tables[s.from.name]);
    if s.where_.Some? {
      ChosenSorted(sem, s.where_.value, rows, s.from.alias, ScanIds(rows));
    }
  }

  lemma StarIsShown(sem: Semantics, text: Texts, s: Select, rows: Rows, ids: seq<Key>)
    requires IsStar(s.columns) && AllIn(rows, ids)
    ensures Mapped(RowView(sem, text, s, rows), ids) == Shown(rows, s.from.alias, ids)
  {
  }

  /** What the plan without indexes returns: the source sorted. */
  lemma SortedScanRuns(sem: Semantics, text: Texts, t: ColumnType, tables: Tables, db: Db, s: Select)
    requires Setting(sem, t, tables, db, None, s) && IsStar(s.columns) && s.orderBy != []
    ensures Ordered(None, s, BeforeOrder(None, s)) == Sort(BeforeOrder(None, s), s.orderBy)
    ensures Runnable(tables, db.metas, Ordered(None, s, BeforeOrder(None, s)))
    ensures Exec(sem, text, tables, db, Ordered(None, s, BeforeOrder(None, s)))
            == StableSort(sem, s.orderBy, Shown(RowsOf(db.data, tables[s.from.name]), s.from.alias, SourceIds(sem, tables, db, None, s)))
  {
    BeforeOrderRuns(sem, text, tables, db, None, s);
    StarIsShown(sem, text, s, RowsOf(db.data, tables[s.from.name]), SourceIds(sem, tables, db, None, s));
    ServedIsScan(None, s, Scan(s.from.name, s.from.alias), None);
  }

  // ---- the two ways of reading in order ----

  lemma ServedAscending(sem: Semantics, text: Texts, t: ColumnType, tables: Tables, db: Db, catalog: Catalog, s: Select, meta: Meta)
    requires OrderFits(sem, t, tables, db, catalog, s, meta) && s.orderBy[0].ascending
    requires ServesOrder(BeforeOrder(catalog, s), meta.column)
    ensures var p := Ordered(catalog, s, BeforeOrder(catalog, s));
            && Runnable(tables, db.metas, p)
            && Runnable(tables, db.metas, Ordered(None, s, BeforeOrder(None, s)))
            && Exec(sem, text, tables, db, p) == Exec(sem, text, tables, db, Ordered(None, s, BeforeOrder(None, s)))
  {
    var rows := RowsOf(db.data, tables[s.from.name]);
    var a, b := SourceIds(sem, tables, db, catalog, s), SourceIds(sem, tables, db, None, s);
    BeforeOrderRuns(sem, text, tables, db, catalog, s);
    StarIsShown(sem, text, s, rows, a);
    SortedScanRuns(sem, text, t, tables, db, s);
    SourceSelects(sem, t, tables, db, catalog, s);
    SourceSelects(sem, t, tables, db, None, s);
    SourceInIndexOrder(sem, t, tables, db, catalog, s, meta);
    ScanSourceSorted(sem, t, tables, db, s);
    SortGivesIndexOrder(sem, t, meta, rows, s.from.alias, s.orderBy, a, b);
  }

  /** The index of an ordered scan is a live one on the table, and there is no WHERE. */
  lemma OrderedIndexIs(sem: Semantics, t: ColumnType, tables: Tables, db: Db, catalog: Catalog, s: Select, meta: Meta)
    requires Setting(sem, t, tables, db, catalog, s) && ReadInOrder(tables, db, catalog, s, meta)
    requires !ServesOrder(BeforeOrder(catalog, s), s.orderBy[0].expr.name)
    ensures s.where_ == None && meta.table == s.from.name && meta.kind != Inverted
    ensures Ordered(catalog, s, BeforeOrder(catalog, s)) ==
            OrderedScan(s.from.name, s.from.alias, meta.name, s.orderBy[0].expr.name, s.orderBy[0].ascending)
  {
    var k := SourceIs(sem, t, tables, db, catalog, s);
    ServedIsScan(catalog, s, Source(catalog, s).0, Source(catalog, s).1);
    PickedIsLive(db, catalog, s.from.name, s.orderBy[0].expr.name, ForRange);
  }

  /** The whole index holds every row, in index order. */
  lemma WholeIndex(sem: Semantics, t: ColumnType, tables: Tables, db: Db, meta: Meta)
    requires Inv(sem.env, tables, db) && meta.name in db.metas && db.metas[meta.name] == meta && meta.kind != Inverted
    requires ColumnFits(sem, t, RowsOf(db.data, tables[meta.table]), meta.column)
    ensures var rows, ids := RowsOf(db.data, tables[meta.table]), Lookup(db.data, meta, ALL, sem.env.ofInt);
            && InIndexOrder(sem.env, meta, rows, ids) && AllIn(rows, ids) && Once(ids) && Known(rows, ids) == ids
            && forall id :: id in ids <==> id in rows
  {
    var rows, ids := RowsOf(db.data, tables[meta.table]), Lookup(db.data, meta, ALL, sem.env.ofInt);
    assert Exact(sem.env, tables, db, meta.name);
    GoodIds(tables, db.data, meta.table);
    RangeAnswers(sem.env, db.data, meta, rows, ALL);
    AnswersAreKnown(sem.env, meta, rows, ALL, ids);
    forall id ensures id in ids <==> id in rows {
      assert id in ids <==> Hit(sem.env, meta, rows, ALL, id);
    }
  }

  lemma SameMembersReversed(a: seq<Key>, x: Key)
    ensures x in Reversed(a) <==> x in a
  {
    if x in a {
      var i :| 0 <= i < |a| && a[i] == x;
      assert Reversed(a)[|a| - 1 - i] == x;
    }
  }

  /** Running an ordered scan: the ids' rows, forwards or backwards. */
  lemma OrderedScanShows(data: Data, prefix: Byte, alias: Name, ids: seq<Key>)
    requires AllIn(RowsOf(data, prefix), ids) && Once(ids)
    ensures Fetch(data, prefix, alias, ids) == Shown(RowsOf(data, prefix), alias, ids)
    ensures Fetch(data, prefix, alias, Reversed(ids)) == Reversed(Shown(RowsOf(data, prefix), alias, ids))
  {
    var rows := RowsOf(data, prefix);
    FetchIsShown(data, prefix, alias, ids);
    FetchIsShown(data, prefix, alias, Reversed(ids));
    KnownAll(rows, ids);
    ShownReversed(rows, alias, ids);
    KnownAll(rows, Reversed(ids));
  }

  lemma ShownReversed(rows: Rows, alias: Name, ids: seq<Key>)
    requires AllIn(rows, ids) && Once(ids)
    ensures AllIn(rows, Reversed(ids)) && Once(Reversed(ids))
    ensures Shown(rows, alias, Reversed(ids)) == Reversed(Shown(rows, alias, ids))
  {
  }

  lemma OrderedScanRuns(sem: Semantics, text: Texts, t: ColumnType, tables: Tables, db: Db, catalog: Catalog, s: Select, meta: Meta)
    requires OrderFits(sem, t, tables, db, catalog, s, meta) && !ServesOrder(BeforeOrder(catalog, s), meta.column)
    ensures var p, ids := Ordered(catalog, s, BeforeOrder(catalog, s)), Lookup(db.data, meta, ALL, sem.env.ofInt);
            && Runnable(tables, db.metas, p)
            && AllIn(RowsOf(db.data, tables[s.from.name]), ids)
            && var shown := Shown(RowsOf(db.data, tables[s.from.name]), s.from.alias, ids);
               Exec(sem, text, tables, db, p) == if s.orderBy[0].ascending then shown else Reversed(shown)
  {
    OrderedIndexIs(sem, t, tables, db, catalog, s, meta);
    WholeIndex(sem, t, tables, db, meta);
    OrderedScanShows(db.data, tables[s.from.name], s.from.alias, Lookup(db.data, meta, ALL, sem.env.ofInt));
  }

  lemma WholeAscending(sem: Semantics, text: Texts, t: ColumnType, tables: Tables, db: Db, catalog: Catalog, s: Select, meta: Meta)
    requires OrderFits(sem, t, tables, db, catalog, s, meta) && s.orderBy[0].ascending
    requires !ServesOrder(BeforeOrder(catalog, s), meta.column)
    ensures var p := Ordered(catalog, s, BeforeOrder(catalog, s));
            && Runnable(tables, db.metas, p)
            && Runnable(tables, db.metas, Ordered(None, s, BeforeOrder(None, s)))
            && Exec(sem, text, tables, db, p) == Exec(sem, text, tables, db, Ordered(None, s, BeforeOrder(None, s)))
  {
    var rows, ids := RowsOf(db.data, tables[s.from.name]), Lookup(db.data, meta, ALL, sem.env.ofInt);
    OrderedScanRuns(sem, text, t, tables, db, catalog, s, meta);
    OrderedIndexIs(sem, t, tables, db, catalog, s, meta);
    WholeIndex(sem, t, tables, db, meta);
    SortedScanRuns(sem, text, t, tables, db, s);
    ScanSourceSorted(sem, t, tables, db, s);
    SortGivesIndexOrder(sem, t, meta, rows, s.from.alias, s.orderBy, ids, SourceIds(sem, tables, db, None, s));
  }

  /** Ascending: skipping the sort gives the identical sequence of rows, with or without LIMIT and OFFSET. */
  lemma AscendingIsExact(sem: Semantics, text: Texts, t: ColumnType, tables: Tables, db: Db, catalog: Catalog, s: Select, meta: Meta)
    requires OrderFits(sem, t, tables, db, catalog, s, meta) && s.orderBy[0].ascending
    ensures Runnable(tables, db.metas, PlanOf(catalog, s)) && Runnable(tables, db.metas, PlanOf(None, s))
    ensures Exec(sem, text, tables, db, PlanOf(catalog, s)) == Exec(sem, text, tables, db, PlanOf(None, s))
  {
    if ServesOrder(BeforeOrder(catalog, s), meta.column) {
      ServedAscending(sem, text, t, tables, db, catalog, s, meta);
    } else {
      WholeAscending(sem, text, t, tables, db, catalog, s, meta);
    }
  }

  // ---- descending ----

  lemma {:induction false} FilterSplits(sem: Semantics, e: Expr, a: seq<Row>, b: seq<Row>)
    ensures FilterRows(sem, e, a + b) == FilterRows(sem, e, a) + FilterRows(sem, e, b)
    decreases |b|
  {
    if b == [] {
      assert a + b == a;
    } else {
      assert (a + b)[..|a + b| - 1] == a + b[..|b| - 1];
      FilterSplits(sem, e, a, b[..|b| - 1]);
    }
  }

  lemma {:induction false} FilterReversed(sem: Semantics, e: Expr, rows: seq<Row>)
    ensures FilterRows(sem, e, Reversed(rows)) == Reversed(FilterRows(sem, e, rows))
  {
    if rows != [] {
      var front, last := rows[..|rows| - 1], rows[|rows| - 1];
      FilterReversed(sem, e, front);
      FilterSplits(sem, e, [last], Reversed(front));
      assert Reversed(rows) == [last] + Reversed(front);
      var one: seq<Row> := [last];
      assert one[..0] == [];
      assert FilterRows(sem, e, one) == if EvalBool(sem, e, last) then [last] else [];
      var kept := FilterRows(sem, e, front);
      if EvalBool(sem, e, last) {
        assert (kept + [last])[..|kept|] == kept;
      }
    }
  }

  /** A Reverse right above the scan reverses what comes out of filter and projection. */
  lemma ReverseBelow(sem: Semantics, text: Texts, tables: Tables, db: Db, scan: Plan, rest: Option<Expr>, columns: seq<Column>)
    requires scan.IndexScan? && Runnable(tables, db.metas, scan) && IsStar(columns)
    ensures var p := Project(if rest.Some? then Filter(scan, rest.value) else scan, columns);
            && Runnable(tables, db.metas, p) && Runnable(tables, db.metas, InjectReverse(p))
            && Exec(sem, text, tables, db, InjectReverse(p)) == Reversed(Exec(sem, text, tables, db, p))
  {
    var back := Reverse(scan);
    assert Exec(sem, text, tables, db, back) == Reversed(Exec(sem, text, tables, db, scan));
    if rest.Some? {
      var inner, outer := Filter(scan, rest.value), Filter(back, rest.value);
      FilterReversed(sem, rest.value, Exec(sem, text, tables, db, scan));
      assert InjectReverse(inner) == outer;
      assert Exec(sem, text, tables, db, outer) == Reversed(Exec(sem, text, tables, db, inner));
      StarKeeps(sem, text, tables, db, inner, columns);
      StarKeeps(sem, text, tables, db, outer, columns);
    } else {
      StarKeeps(sem, text, tables, db, scan, columns);
      StarKeeps(sem, text, tables, db, back, columns);
    }
  }

  lemma StarKeeps(sem: Semantics, text: Texts, tables: Tables, db: Db, p: Plan, columns: seq<Column>)
    requires Runnable(tables, db.metas, p) && IsStar(columns)
    ensures Exec(sem, text, tables, db, Project(p, columns)) == Exec(sem, text, tables, db, p)
  {
  }

  lemma InjectedReverses(sem: Semantics, text: Texts, t: ColumnType, tables: Tables, db: Db, catalog: Catalog, s: Select)
    requires Setting(sem, t, tables, db, catalog, s) && IsStar(s.columns) && Source(catalog, s).0.IndexScan?
    ensures var p := BeforeOrder(catalog, s);
            && Runnable(tables, db.metas, p) && Runnable(tables, db.metas, InjectReverse(p))
            && Exec(sem, text, tables, db, InjectReverse(p)) == Reversed(Exec(sem, text, tables, db, p))
  {
    var (scan, rest) := Source(catalog, s);
    var k := SourceIs(sem, t, tables, db, catalog, s);
    ReverseBelow(sem, text, tables, db, scan, rest, s.columns);
  }

  lemma UpwardsFits(sem: Semantics, t: ColumnType, tables: Tables, db: Db, catalog: Catalog, s: Select, meta: Meta)
    requires OrderFits(sem, t, tables, db, catalog, s, meta)
    ensures BeforeOrder(catalog, Upwards(s)) == BeforeOrder(catalog, s) && BeforeOrder(None, Upwards(s)) == BeforeOrder(None, s)
    ensures OrderFits(sem, t, tables, db, catalog, Upwards(s), meta)
  {
    assert BeforeOrder(catalog, Upwards(s)) == BeforeOrder(catalog, s);
  }

  lemma ServedBackwards(sem: Semantics, text: Texts, t: ColumnType, tables: Tables, db: Db, catalog: Catalog, s: Select, meta: Meta)
    requires OrderFits(sem, t, tables, db, catalog, s, meta) && !s.orderBy[0].ascending
    requires ServesOrder(BeforeOrder(catalog, s), meta.column)
    ensures var p, up := Ordered(catalog, s, BeforeOrder(catalog, s)), Ordered(catalog, Upwards(s), BeforeOrder(catalog, s));
            && Runnable(tables, db.metas, p) && Runnable(tables, db.metas, up)
            && Exec(sem, text, tables, db, p) == Reversed(Exec(sem, text, tables, db, up))
  {
    var k := SourceIs(sem, t, tables, db, catalog, s);
    ServedIsScan(catalog, s, Source(catalog, s).0, Source(catalog, s).1);
    InjectedReverses(sem, text, t, tables, db, catalog, s);
  }

  /** Descending: the reverse of the sequence that the ascending stable sort over the scan gives. */
  lemma DescendingIsReversed(sem: Semantics, text: Texts, t: ColumnType, tables: Tables, db: Db, catalog: Catalog, s: Select, meta: Meta)
    requires OrderFits(sem, t, tables, db, catalog, s, meta) && !s.orderBy[0].ascending
    requires s.limit == None && s.offset == None
    ensures Runnable(tables, db.metas, PlanOf(catalog, s)) && Runnable(tables, db.metas, PlanOf(None, Upwards(s)))
    ensures Exec(sem, text, tables, db, PlanOf(catalog, s)) == Reversed(Exec(sem, text, tables, db, PlanOf(None, Upwards(s))))
  {
    var up := Upwards(s);
    UpwardsFits(sem, t, tables, db, catalog, s, meta);
    AscendingIsExact(sem, text, t, tables, db, catalog, up, meta);
    if ServesOrder(BeforeOrder(catalog, s), meta.column) {
      ServedBackwards(sem, text, t, tables, db, catalog, s, meta);
    } else {
      OrderedScanRuns(sem, text, t, tables, db, catalog, s, meta);
      OrderedScanRuns(sem, text, t, tables, db, catalog, up, meta);
    }
  }

  lemma {:induction false} InsertKeepsRows(sem: Semantics, order: seq<Order>, rows: seq<Row>, row: Row)
    ensures multiset(InsertStable(sem, order, rows, row)) == multiset(rows) + multiset{row}
  {
    if rows != [] && RowLess(sem, order, row, rows[|rows| - 1]) {
      var front := rows[..|rows| - 1];
      InsertKeepsRows(sem, order, front, row);
      assert rows == front + [rows[|rows| - 1]];
    }
  }

  lemma {:induction false} SortKeepsRows(sem: Semantics, order: seq<Order>, rows: seq<Row>)
    ensures multiset(StableSort(sem, order, rows)) == multiset(rows)
  {
    if rows != [] {
      var front, last := rows[..|rows| - 1], rows[|rows| - 1];
      SortKeepsRows(sem, order, front);
      InsertKeepsRows(sem, order, StableSort(sem, order, front), last);
      assert rows == front + [last];
    }
  }

  lemma {:induction false} ReversedKeepsRows(rows: seq<Row>)
    ensures multiset(Reversed(rows)) == multiset(rows)
  {
    if rows != [] {
      var front, last := rows[..|rows| - 1], rows[|rows| - 1];
      ReversedKeepsRows(front);
      assert rows == front + [last];
    }
  }

  /** ORDER BY the column, descending. */
  ghost predicate Descends(order: seq<Order>, column: Name) {
    |order| == 1 && order[0].expr.Ident? && order[0].expr.name == column && !order[0].ascending
  }

  /** Nothing stands behind a row that ORDER BY puts after it. */
  ghost predicate RowsSorted(sem: Semantics, order: seq<Order>, out: seq<Row>) {
    forall i, j | 0 <= i < j < |out| :: !RowLess(sem, order, out[j], out[i])
  }

  lemma RowLessDown(sem: Semantics, t: ColumnType, meta: Meta, rows: Rows, alias: Name, order: seq<Order>, a: Key, b: Key)
    requires ColumnFits(sem, t, rows, meta.column) && Descends(order, meta.column) && a in rows && b in rows
    ensures RowLess(sem, order, Aliased(rows[a], alias), Aliased(rows[b], alias))
            <==> ValueLess(rows[b][meta.column], rows[a][meta.column], sem.env.ofInt)
  {
    ColumnIsRead(sem, order[0].expr.table, meta.column, rows[a], alias);
    ColumnIsRead(sem, order[0].expr.table, meta.column, rows[b], alias);
    CompareIsIndexOrder(sem, t, rows[a][meta.column], rows[b][meta.column]);
    assert order[1..] == [];
  }

  lemma NotLessBack(env: Env, meta: Meta, rows: Rows, x: Key, y: Key)
    requires HasColumn(meta, rows, x) && HasColumn(meta, rows, y) && IndexLess(env, meta, rows, x, y)
    ensures !ValueLess(rows[y][meta.column], rows[x][meta.column], env.ofInt)
  {
    ValueTrichotomy(rows[y][meta.column], rows[x][meta.column], env.ofInt);
  }

  /** Index order backwards is sorted in descending order. */
  lemma BackwardsIsSorted(sem: Semantics, t: ColumnType, meta: Meta, rows: Rows, alias: Name, order: seq<Order>, a: seq<Key>)
    requires ColumnFits(sem, t, rows, meta.column) && Descends(order, meta.column)
    requires AllIn(rows, a) && InIndexOrder(sem.env, meta, rows, a)
    ensures RowsSorted(sem, order, Reversed(Shown(rows, alias, a)))
  {
    var shown := Shown(rows, alias, a);
    forall i, j | 0 <= i < j < |a| ensures !RowLess(sem, order, shown[i], shown[j]) {
      assert IndexLess(sem.env, meta, rows, a[i], a[j]);
      NotLessBack(sem.env, meta, rows, a[i], a[j]);
      RowLessDown(sem, t, meta, rows, alias, order, a[i], a[j]);
    }
    BackwardsSorted(sem, order, shown);
  }

  lemma BackwardsSorted(sem: Semantics, order: seq<Order>, rows: seq<Row>)
    requires forall i, j | 0 <= i < j < |rows| :: !RowLess(sem, order, rows[i], rows[j])
    ensures RowsSorted(sem, order, Reversed(rows))
  {
    var out := Reversed(rows);
    forall i, j | 0 <= i < j < |out| ensures !RowLess(sem, order, out[j], out[i]) {
      assert out[i] == rows[|rows| - 1 - i] && out[j] == rows[|rows| - 1 - j];
    }
  }

  /** The ascending sort read backwards: the rows of the descending sort, sorted. */
  lemma SortBackwards(sem: Semantics, t: ColumnType, meta: Meta, rows: Rows, alias: Name, up: seq<Order>, down: seq<Order>, ids: seq<Key>)
    requires ColumnFits(sem, t, rows, meta.column) && Ascends(up, meta.column) && Descends(down, meta.column)
    requires AllIn(rows, ids) && Sorted(ids)
    ensures var out, shown := Reversed(StableSort(sem, up, Shown(rows, alias, ids))), Shown(rows, alias, ids);
            multiset(out) == multiset(StableSort(sem, down, shown)) && RowsSorted(sem, down, out)
  {
    var shown := Shown(rows, alias, ids);
    SortKeepsRows(sem, down, shown);
    SortKeepsRows(sem, up, shown);
    ReversedKeepsRows(StableSort(sem, up, shown));
    FitsHaveColumn(sem, t, meta, rows, ids);
    StableSortIs(sem, t, meta, rows, alias, up, ids);
    IdSortOrders(sem.env, meta, rows, ids);
    BackwardsIsSorted(sem, t, meta, rows, alias, down, IdSort(sem.env, meta, rows, ids));
  }

  /** Without indexes: the ascending plan backwards against the descending plan. */
  lemma ScanBackwards(sem: Semantics, text: Texts, t: ColumnType, tables: Tables, db: Db, s: Select, meta: Meta)
    requires Setting(sem, t, tables, db, None, s) && IsStar(s.columns) && Descends(s.orderBy, meta.column)
    requires ColumnFits(sem, t, RowsOf(db.data, tables[s.from.name]), meta.column)
    ensures var plan, up := Ordered(None, s, BeforeOrder(None, s)), Ordered(None, Upwards(s), BeforeOrder(None, Upwards(s)));
            && Runnable(tables, db.metas, plan) && Runnable(tables, db.metas, up)
            && var out := Reversed(Exec(sem, text, tables, db, up));
               multiset(out) == multiset(Exec(sem, text, tables, db, plan)) && RowsSorted(sem, s.orderBy, out)
  {
    var up, rows := Upwards(s), RowsOf(db.data, tables[s.from.name]);
    SortedScanRuns(sem, text, t, tables, db, s);
    SortedScanRuns(sem, text, t, tables, db, up);
    ScanSourceSorted(sem, t, tables, db, s);
    SortBackwards(sem, t, meta, rows, s.from.alias, up.orderBy, s.orderBy, SourceIds(sem, tables, db, None, s));
  }

  /** Descending: the rows that sorting gives, in descending order; only rows with equal values may stand otherwise. */
  lemma DescendingSorts(sem: Semantics, text: Texts, t: ColumnType, tables: Tables, db: Db, catalog: Catalog, s: Select, meta: Meta)
    requires OrderFits(sem, t, tables, db, catalog, s, meta) && !s.orderBy[0].ascending
    requires s.limit == None && s.offset == None
    ensures Runnable(tables, db.metas, PlanOf(catalog, s)) && Runnable(tables, db.metas, PlanOf(None, s))
    ensures var out := Exec(sem, text, tables, db, PlanOf(catalog, s));
            multiset(out) == multiset(Exec(sem, text, tables, db, PlanOf(None, s))) && RowsSorted(sem, s.orderBy, out)
  {
    DescendingIsReversed(sem, text, t, tables, db, catalog, s, meta);
    ScanBackwards(sem, text, t, tables, db, s, meta);
  }
}
