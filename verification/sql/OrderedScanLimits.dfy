/**
 ORDER BY over an index without WHERE replaces the projection and the grouping of a statement too
 (internal/query/sql/planner.go:265-277).  When the rows are still those the statement asks for, and
 statements for which they are not.
 */
module OrderedScanLimits {
  import opened Bytes
  import opened Engine
  import opened Encoding
  import opened IndexKeys
  import opened IndexUpkeep
  import opened Ast
  import opened Eval
  import opened Planner
  import opened Execute
  import opened PlanRows
  import opened PlanMeaning
  import opened SortElimination
  import opened PlanAgreement
  import opened IndexLimits

  // ---- the statements ----

  /** One table, no WHERE and no paging, ORDER BY one column ascending, with a BTREE index in order on it. */
  ghost predicate OrderedByIndex(sem: Semantics, t: ColumnType, tables: Tables, db: Db, catalog: Catalog, s: Select, meta: Meta) {
    && s.joins == [] && s.where_ == None && s.limit == None && s.offset == None
    && OrderFits(sem, t, tables, db, catalog, AllColumns(s), meta) && s.orderBy[0].ascending
    && PickIndex(catalog, s.from.name, OrderColumn(s.orderBy[0].expr), ForRange) == Some(meta) && meta.kind == BTree
  }

  /** A result column named id is the column id. */
  predicate IdIsId(text: Texts, columns: seq<Column>) {
    forall i | 0 <= i < |columns| ::
      ColumnName(text, columns[i]) == ID ==> !columns[i].aggregate && columns[i].expr.Ident? && columns[i].expr.name == ID
  }

  function ShownRow(s: Select, rows: Rows, id: Key): Row
    requires id in rows
  {
    Aliased(rows[id], s.from.alias)
  }

  /** With the index: the rows of SELECT *, sorted. */
  lemma IndexRuns(sem: Semantics, text: Texts, t: ColumnType, tables: Tables, db: Db, catalog: Catalog, s: Select, meta: Meta)
    requires OrderedByIndex(sem, t, tables, db, catalog, s, meta)
    ensures Runnable(tables, db.metas, PlanOf(catalog, s))
    ensures var rows := RowsOf(db.data, tables[s.from.name]);
            Exec(sem, text, tables, db, PlanOf(catalog, s))
            == StableSort(sem, s.orderBy, Shown(rows, s.from.alias, ScanIds(rows)))
  {
    var star := AllColumns(s);
    ReplacedPlanIsSelectAll(catalog, s, meta);
    AscendingIsExact(sem, text, t, tables, db, catalog, star, meta);
    SortedScanRuns(sem, text, t, tables, db, star);
  }

  lemma SortedTells(sem: Semantics, order: seq<Order>, a: seq<Row>, b: seq<Row>)
    requires StableSort(sem, order, a) == StableSort(sem, order, b)
    ensures multiset(a) == multiset(b)
  {
    SortKeepsRows(sem, order, a);
    SortKeepsRows(sem, order, b);
  }

  lemma MemberOfBoth(a: seq<Row>, b: seq<Row>, i: nat) returns (j: nat)
    requires multiset(a) == multiset(b) && i < |a|
    ensures j < |b| && b[j] == a[i]
  {
    assert a[i] in multiset(a);
    assert a[i] in multiset(b);
    j :| 0 <= j < |b| && b[j] == a[i];
  }

  lemma ScannedAt(rows: Rows, id: Key) returns (i: nat)
    requires id in rows
    ensures i < |ScanIds(rows)| && ScanIds(rows)[i] == id
  {
    assert id in ScanIds(rows);
    i :| 0 <= i < |ScanIds(rows)| && ScanIds(rows)[i] == id;
  }

  // ---- projection ----

  /** The id column of a projected row, if there is one, holds the row's id. */
  lemma {:induction false} ProjectKeepsId(sem: Semantics, text: Texts, columns: seq<Column>, row: Row, alias: Name)
    requires IdIsId(text, columns) && ID in row && NoDot(row)
    ensures var out := ProjectRow(sem, text, columns, Aliased(row, alias)); ID in out ==> out[ID] == row[ID]
  {
    if columns != [] {
      var front, c := columns[..|columns| - 1], columns[|columns| - 1];
      ProjectKeepsId(sem, text, front, row, alias);
      if ColumnName(text, c) == ID {
        ColumnIsRead(sem, c.expr.table, ID, row, alias);
      }
    }
  }

  lemma ViewKeepsId(sem: Semantics, text: Texts, s: Select, rows: Rows, id: Key)
    requires IdIsId(text, s.columns) && id in rows && GoodRow(rows[id], id) && NoDot(rows[id])
    ensures var view := RowView(sem, text, s, rows)(id); ID in view ==> view[ID] == Str(id)
  {
    ShownKeepsId(rows[id], s.from.alias);
    ProjectKeepsId(sem, text, s.columns, rows[id], s.from.alias);
  }

  /** Projecting changes no row. */
  ghost predicate ViewsAreRows(sem: Semantics, text: Texts, s: Select, rows: Rows) {
    forall id | id in rows :: RowView(sem, text, s, rows)(id) == ShownRow(s, rows, id)
  }

  lemma SameViewsSameRow(sem: Semantics, text: Texts, s: Select, rows: Rows, id: Key)
    requires GoodTable(rows) && IdIsId(text, s.columns) && id in rows && forall x | x in rows :: NoDot(rows[x])
    requires multiset(Shown(rows, s.from.alias, ScanIds(rows))) == multiset(Mapped(RowView(sem, text, s, rows), ScanIds(rows)))
    ensures RowView(sem, text, s, rows)(id) == ShownRow(s, rows, id)
  {
    var ids, view := ScanIds(rows), RowView(sem, text, s, rows);
    var i := ScannedAt(rows, id);
    var j := MemberOfBoth(Shown(rows, s.from.alias, ids), Mapped(view, ids), i);
    ShownKeepsId(rows[id], s.from.alias);
    ViewKeepsId(sem, text, s, rows, ids[j]);
    assert view(ids[j])[ID] == Str(id);
  }

  /** Without indexes the planner sorts. */
  lemma WithoutIndexSorts(s: Select)
    requires s.joins == [] && s.where_ == None && s.limit == None && s.offset == None && s.orderBy != []
    ensures PlanOf(None, s) == Sort(Projected(Scan(s.from.name, s.from.alias), s), s.orderBy)
  {
    assert BeforeOrder(None, s) == Projected(Scan(s.from.name, s.from.alias), s);
    assert UnwrapIndexScan(BeforeOrder(None, s)) == None;
  }

  lemma ScanRuns(sem: Semantics, text: Texts, tables: Tables, db: Db, s: Select)
    requires Inv(sem.env, tables, db) && OneTable(s) && s.from.name in tables
    requires s.where_ == None && s.limit == None && s.offset == None && s.orderBy != []
    ensures Runnable(tables, db.metas, PlanOf(None, s))
    ensures var rows := RowsOf(db.data, tables[s.from.name]);
            Exec(sem, text, tables, db, PlanOf(None, s))
            == StableSort(sem, s.orderBy, Mapped(RowView(sem, text, s, rows), ScanIds(rows)))
  {
    WithoutIndexSorts(s);
    BeforeOrderRuns(sem, text, tables, db, None, s);
    assert BeforeOrder(None, s) == Projected(Scan(s.from.name, s.from.alias), s);
  }

  /**
   A projection, ordered by an index: the rows are those the statement asks for exactly when
   projecting changes no row of the table.
   */
  lemma ProjectedOrderIff(sem: Semantics, text: Texts, t: ColumnType, tables: Tables, db: Db, catalog: Catalog, s: Select, meta: Meta)
    requires OrderedByIndex(sem, t, tables, db, catalog, s, meta) && OneTable(s) && IdIsId(text, s.columns)
    ensures Runnable(tables, db.metas, PlanOf(catalog, s)) && Runnable(tables, db.metas, PlanOf(None, s))
    ensures Exec(sem, text, tables, db, PlanOf(catalog, s)) == Exec(sem, text, tables, db, PlanOf(None, s)) <==>
            ViewsAreRows(sem, text, s, RowsOf(db.data, tables[s.from.name]))
  {
    var rows := RowsOf(db.data, tables[s.from.name]);
    IndexRuns(sem, text, t, tables, db, catalog, s, meta);
    ScanRuns(sem, text, tables, db, s);
    GoodRowsOf(sem.env, tables, db, s.from.name);
    ViewsIff(sem, text, s, rows);
  }

  lemma ViewsIff(sem: Semantics, text: Texts, s: Select, rows: Rows)
    requires GoodTable(rows) && IdIsId(text, s.columns) && forall x | x in rows :: NoDot(rows[x])
    ensures StableSort(sem, s.orderBy, Shown(rows, s.from.alias, ScanIds(rows)))
            == StableSort(sem, s.orderBy, Mapped(RowView(sem, text, s, rows), ScanIds(rows))) <==>
            ViewsAreRows(sem, text, s, rows)
  {
    var shown, views := Shown(rows, s.from.alias, ScanIds(rows)), Mapped(RowView(sem, text, s, rows), ScanIds(rows));
    if StableSort(sem, s.orderBy, shown) == StableSort(sem, s.orderBy, views) {
      SortedTells(sem, s.orderBy, shown, views);
      AllViewsAreRows(sem, text, s, rows);
    } else if ViewsAreRows(sem, text, s, rows) {
      ViewsAreShown(sem, text, s, rows);
    }
  }

  lemma AllViewsAreRows(sem: Semantics, text: Texts, s: Select, rows: Rows)
    requires GoodTable(rows) && IdIsId(text, s.columns) && forall x | x in rows :: NoDot(rows[x])
    requires multiset(Shown(rows, s.from.alias, ScanIds(rows))) == multiset(Mapped(RowView(sem, text, s, rows), ScanIds(rows)))
    ensures ViewsAreRows(sem, text, s, rows)
  {
    forall id | id in rows ensures RowView(sem, text, s, rows)(id) == ShownRow(s, rows, id) {
      SameViewsSameRow(sem, text, s, rows, id);
    }
  }

  lemma ViewsAreShown(sem: Semantics, text: Texts, s: Select, rows: Rows)
    requires ViewsAreRows(sem, text, s, rows)
    ensures Mapped(RowView(sem, text, s, rows), ScanIds(rows)) == Shown(rows, s.from.alias, ScanIds(rows))
  {
  }

  const NAME: Name := [0x6E, 0x61, 0x6D, 0x65]
  const NAME_COLUMN := Column(Ident([], NAME), [], false)

  lemma NameView(sem: Semantics, text: Texts, s: Select, rows: Rows, id: Key)
    requires text.name(Ident([], NAME)) == NAME && s.columns == [NAME_COLUMN] && GoodTable(rows) && id in rows
    ensures RowView(sem, text, s, rows)(id) != ShownRow(s, rows, id)
  {
    assert NAME[0] != ID[0];
    ShownKeepsId(rows[id], s.from.alias);
    assert ProjectRow(sem, text, s.columns[..0], ShownRow(s, rows, id)) == map[];
  }

  lemma NamesAreNames(text: Texts, columns: seq<Column>)
    requires text.name(Ident([], NAME)) == NAME && columns == [NAME_COLUMN]
    ensures IdIsId(text, columns)
  {
    assert NAME[0] != ID[0];
  }

  /** SELECT name FROM t ORDER BY name: with an index on name, wrong for every table that has a row. */
  lemma NamesOrderedWrong(sem: Semantics, text: Texts, t: ColumnType, tables: Tables, db: Db, catalog: Catalog, s: Select, meta: Meta)
    requires OrderedByIndex(sem, t, tables, db, catalog, s, meta) && s.groupBy == [] && text.name(Ident([], NAME)) == NAME
    requires s.columns == [NAME_COLUMN] && s.orderBy == [Order(Ident([], NAME), true)]
    requires RowsOf(db.data, tables[s.from.name]) != map[]
    ensures Runnable(tables, db.metas, PlanOf(catalog, s)) && Runnable(tables, db.metas, PlanOf(None, s))
    ensures Exec(sem, text, tables, db, PlanOf(catalog, s)) != Exec(sem, text, tables, db, PlanOf(None, s))
  {
    var rows := RowsOf(db.data, tables[s.from.name]);
    NamesAreNames(text, s.columns);
    ProjectedOrderIff(sem, text, t, tables, db, catalog, s, meta);
    GoodRowsOf(sem.env, tables, db, s.from.name);
    var id :| id in rows;
    NameView(sem, text, s, rows, id);
  }

  // ---- grouping ----

  /** The first rows of groups: every group holds the rows of its key. */
  ghost predicate GroupsKeyed(sem: Semantics, text: Texts, groupBy: seq<Expr>, rows: seq<Row>, g: Groups) {
    forall key | key in g.rows ::
      && g.rows[key] != [] && forall i | 0 <= i < |g.rows[key]| :: g.rows[key][i] in rows && GroupKey(sem, text, groupBy, g.rows[key][i]) == key
  }

  lemma {:induction false} GroupsAreKeyed(sem: Semantics, text: Texts, groupBy: seq<Expr>, rows: seq<Row>)
    ensures GroupsKeyed(sem, text, groupBy, rows, GroupsOf(sem, text, groupBy, rows))
  {
    if rows != [] {
      var front, row := rows[..|rows| - 1], rows[|rows| - 1];
      GroupsAreKeyed(sem, text, groupBy, front);
      assert rows == front + [row];
      KeyedNext(sem, text, groupBy, front, row, GroupsOf(sem, text, groupBy, front));
    }
  }

  lemma KeyedNext(sem: Semantics, text: Texts, groupBy: seq<Expr>, rows: seq<Row>, row: Row, g: Groups)
    requires GroupsKeyed(sem, text, groupBy, rows, g)
    ensures GroupsKeyed(sem, text, groupBy, rows + [row], Joined(g, GroupKey(sem, text, groupBy, row), row))
  {
  }

  /** The keys of the rows, when no two are equal, are the groups' keys, and each group is one row. */
  ghost predicate EachItsOwn(sem: Semantics, text: Texts, groupBy: seq<Expr>, rows: seq<Row>, g: Groups) {
    && |g.order| == |rows|
    && (forall i | 0 <= i < |rows| :: g.order[i] == GroupKey(sem, text, groupBy, rows[i]) && g.order[i] in g.rows && g.rows[g.order[i]] == [rows[i]])
    && forall key | key in g.rows :: exists i :: 0 <= i < |rows| && g.order[i] == key
  }

  ghost predicate KeysDistinct(sem: Semantics, text: Texts, groupBy: seq<Expr>, rows: seq<Row>) {
    forall i, j | 0 <= i < j < |rows| :: GroupKey(sem, text, groupBy, rows[i]) != GroupKey(sem, text, groupBy, rows[j])
  }

  lemma {:induction false} DistinctKeysGroup(sem: Semantics, text: Texts, groupBy: seq<Expr>, rows: seq<Row>)
    requires KeysDistinct(sem, text, groupBy, rows)
    ensures EachItsOwn(sem, text, groupBy, rows, GroupsOf(sem, text, groupBy, rows))
  {
    if rows != [] {
      var front := rows[..|rows| - 1];
      DistinctKeysGroup(sem, text, groupBy, front);
      OwnNext(sem, text, groupBy, rows, GroupsOf(sem, text, groupBy, front));
    }
  }

  lemma OwnNext(sem: Semantics, text: Texts, groupBy: seq<Expr>, rows: seq<Row>, g: Groups)
    requires rows != [] && KeysDistinct(sem, text, groupBy, rows) && EachItsOwn(sem, text, groupBy, rows[..|rows| - 1], g)
    ensures EachItsOwn(sem, text, groupBy, rows, Joined(g, GroupKey(sem, text, groupBy, rows[|rows| - 1]), rows[|rows| - 1]))
  {
    var n := |rows| - 1;
    var key := GroupKey(sem, text, groupBy, rows[n]);
    forall k | k in g.rows ensures k != key {
      var i :| 0 <= i < n && g.order[i] == k;
      assert GroupKey(sem, text, groupBy, rows[i]) == k;
    }
    OwnKeys(sem, text, groupBy, rows, g, key);
  }

  lemma OwnKeys(sem: Semantics, text: Texts, groupBy: seq<Expr>, rows: seq<Row>, g: Groups, key: Key)
    requires rows != [] && EachItsOwn(sem, text, groupBy, rows[..|rows| - 1], g) && key !in g.rows
    ensures var h := Joined(g, key, rows[|rows| - 1]);
            forall k | k in h.rows :: exists i :: 0 <= i < |rows| && h.order[i] == k
  {
    var n := |rows| - 1;
    var h := Joined(g, key, rows[n]);
    forall k | k in h.rows ensures exists i :: 0 <= i < |rows| && h.order[i] == k {
      if k == key {
        assert h.order[n] == k;
      } else {
        var i :| 0 <= i < n && g.order[i] == k;
        assert h.order[i] == k;
      }
    }
  }

  /** What becomes of a group of one row, if HAVING lets it through. */
  function AloneResult(sem: Semantics, text: Texts, s: Select, row: Row): Option<Row> {
    var out := GroupResult(sem, text, s.columns, s.groupBy, [row]);
    if s.having.Some? && !EvalBool(sem, s.having.value, out) then None else Some(out)
  }

  /** Groups of one row that come out as that row. */
  lemma {:induction false} AloneResults(sem: Semantics, text: Texts, s: Select, rows: seq<Row>, g: Groups, n: nat)
    requires n <= |rows| && EachItsOwn(sem, text, s.groupBy, rows, g) && GroupsOk(g)
    requires forall i | 0 <= i < |rows| :: AloneResult(sem, text, s, rows[i]) == Some(rows[i])
    ensures GroupResults(sem, text, s.columns, s.groupBy, s.having, g, n) == rows[..n]
  {
    if n > 0 {
      AloneResults(sem, text, s, rows, g, n - 1);
      assert rows[..n] == rows[..n - 1] + [rows[n - 1]];
      assert AloneResult(sem, text, s, rows[n - 1]) == Some(rows[n - 1]);
      assert g.rows[g.order[n - 1]] == [rows[n - 1]];
    }
  }

  /** Every result is that of a group. */
  lemma {:induction false} ResultHasGroup(sem: Semantics, text: Texts, s: Select, g: Groups, n: nat, j: nat) returns (i: nat)
    requires n <= |g.order| && GroupsOk(g) && j < |GroupResults(sem, text, s.columns, s.groupBy, s.having, g, n)|
    ensures i < n
    ensures var out := GroupResult(sem, text, s.columns, s.groupBy, g.rows[g.order[i]]);
            && GroupResults(sem, text, s.columns, s.groupBy, s.having, g, n)[j] == out
            && (s.having.Some? ==> EvalBool(sem, s.having.value, out))
  {
    var before := GroupResults(sem, text, s.columns, s.groupBy, s.having, g, n - 1);
    if j < |before| {
      i := ResultHasGroup(sem, text, s, g, n - 1, j);
    } else {
      i := n - 1;
    }
  }

  /** A column grouped by and named id is the column id, too. */
  predicate GroupIdIsId(text: Texts, groupBy: seq<Expr>) {
    forall i | 0 <= i < |groupBy| :: groupBy[i].Ident? && text.name(groupBy[i]) == ID ==> groupBy[i].name == ID
  }

  lemma {:induction false} AggregateKeepsId(sem: Semantics, text: Texts, columns: seq<Column>, rows: seq<Row>, row: Row, alias: Name)
    requires IdIsId(text, columns) && ID in row && NoDot(row) && rows != [] && rows[0] == Aliased(row, alias)
    ensures var out := AggregateRow(sem, text, columns, rows); ID in out ==> out[ID] == row[ID]
  {
    if columns != [] {
      var front, c := columns[..|columns| - 1], columns[|columns| - 1];
      AggregateKeepsId(sem, text, front, rows, row, alias);
      if ColumnName(text, c) == ID {
        ColumnIsRead(sem, c.expr.table, ID, row, alias);
      }
    }
  }

  lemma {:induction false} GroupKeepsId(sem: Semantics, text: Texts, groupBy: seq<Expr>, row: Row, alias: Name, out: Row)
    requires GroupIdIsId(text, groupBy) && ID in row && NoDot(row) && (ID in out ==> out[ID] == row[ID])
    ensures var all := WithGroup(sem, text, groupBy, Aliased(row, alias), out); ID in all ==> all[ID] == row[ID]
  {
    if groupBy != [] {
      var front, e := groupBy[..|groupBy| - 1], groupBy[|groupBy| - 1];
      GroupKeepsId(sem, text, front, row, alias, out);
      if e.Ident? && text.name(e) == ID {
        ColumnIsRead(sem, e.table, ID, row, alias);
      }
    }
  }

  lemma ResultKeepsId(sem: Semantics, text: Texts, s: Select, rows: seq<Row>, row: Row)
    requires IdIsId(text, s.columns) && GroupIdIsId(text, s.groupBy) && ID in row && NoDot(row)
    requires rows != [] && rows[0] == Aliased(row, s.from.alias)
    ensures var out := GroupResult(sem, text, s.columns, s.groupBy, rows); ID in out ==> out[ID] == row[ID]
  {
    AggregateKeepsId(sem, text, s.columns, rows, row, s.from.alias);
    GroupKeepsId(sem, text, s.groupBy, row, s.from.alias, AggregateRow(sem, text, s.columns, rows));
  }

  /** No two rows share a group, and each row alone comes out as it is. */
  ghost predicate GroupsAreRows(sem: Semantics, text: Texts, s: Select, rows: Rows) {
    var shown := Shown(rows, s.from.alias, ScanIds(rows));
    && KeysDistinct(sem, text, s.groupBy, shown)
    && forall i | 0 <= i < |shown| :: AloneResult(sem, text, s, shown[i]) == Some(shown[i])
  }

  /** If every row comes out of the grouping, each is the first of its group. */
  lemma FirstOfGroup(sem: Semantics, text: Texts, s: Select, rows: Rows, i: nat)
    requires GoodTable(rows) && IdIsId(text, s.columns) && GroupIdIsId(text, s.groupBy) && s.groupBy != []
    requires forall x | x in rows :: NoDot(rows[x])
    requires var shown := Shown(rows, s.from.alias, ScanIds(rows));
             i < |shown| && multiset(shown) == multiset(Aggregated(sem, text, s.columns, s.groupBy, s.having, shown))
    ensures var shown := Shown(rows, s.from.alias, ScanIds(rows));
            var g, key := GroupsOf(sem, text, s.groupBy, shown), GroupKey(sem, text, s.groupBy, shown[i]);
            && key in g.rows && g.rows[key] != [] && g.rows[key][0] == shown[i]
            && GroupResult(sem, text, s.columns, s.groupBy, g.rows[key]) == shown[i]
            && (s.having.Some? ==> EvalBool(sem, s.having.value, shown[i]))
  {
    var ids := ScanIds(rows);
    var shown := Shown(rows, s.from.alias, ids);
    var g := GroupsOf(sem, text, s.groupBy, shown);
    GroupsAreOk(sem, text, s.groupBy, shown);
    GroupsAreKeyed(sem, text, s.groupBy, shown);
    var j := MemberOfBoth(shown, Aggregated(sem, text, s.columns, s.groupBy, s.having, shown), i);
    var n := ResultHasGroup(sem, text, s, g, |g.order|, j);
    var group := g.rows[g.order[n]];
    assert group[0] in shown;
    var m :| 0 <= m < |shown| && shown[m] == group[0];
    ResultKeepsId(sem, text, s, group, rows[ids[m]]);
    ShownKeepsId(rows[ids[i]], s.from.alias);
    assert rows[ids[m]][ID] == Str(ids[m]) && rows[ids[i]][ID] == Str(ids[i]);
    assert ids[m] == ids[i];
  }

  lemma ShownTellsId(rows: Rows, alias: Name, i: nat, j: nat)
    requires GoodTable(rows) && i < |ScanIds(rows)| && j < |ScanIds(rows)|
    requires Shown(rows, alias, ScanIds(rows))[i] == Shown(rows, alias, ScanIds(rows))[j]
    ensures i == j
  {
    var ids := ScanIds(rows);
    ShownKeepsId(rows[ids[i]], alias);
    ShownKeepsId(rows[ids[j]], alias);
    assert rows[ids[i]][ID] == Str(ids[i]) && rows[ids[j]][ID] == Str(ids[j]);
  }

  lemma EachIsFirst(sem: Semantics, text: Texts, s: Select, rows: Rows)
    requires GoodTable(rows) && IdIsId(text, s.columns) && GroupIdIsId(text, s.groupBy) && s.groupBy != []
    requires forall x | x in rows :: NoDot(rows[x])
    requires var shown := Shown(rows, s.from.alias, ScanIds(rows));
             multiset(shown) == multiset(Aggregated(sem, text, s.columns, s.groupBy, s.having, shown))
    ensures GroupsAreRows(sem, text, s, rows)
  {
    var shown := Shown(rows, s.from.alias, ScanIds(rows));
    forall i, j | 0 <= i < j < |shown|
      ensures GroupKey(sem, text, s.groupBy, shown[i]) != GroupKey(sem, text, s.groupBy, shown[j])
    {
      FirstOfGroup(sem, text, s, rows, i);
      FirstOfGroup(sem, text, s, rows, j);
      if GroupKey(sem, text, s.groupBy, shown[i]) == GroupKey(sem, text, s.groupBy, shown[j]) {
        ShownTellsId(rows, s.from.alias, i, j);
      }
    }
    DistinctKeysGroup(sem, text, s.groupBy, shown);
    forall i | 0 <= i < |shown| ensures AloneResult(sem, text, s, shown[i]) == Some(shown[i]) {
      FirstOfGroup(sem, text, s, rows, i);
      assert GroupsOf(sem, text, s.groupBy, shown).order[i] == GroupKey(sem, text, s.groupBy, shown[i]);
    }
  }

  lemma GroupsComeOut(sem: Semantics, text: Texts, s: Select, shown: seq<Row>)
    requires s.groupBy != [] && KeysDistinct(sem, text, s.groupBy, shown)
    requires forall i | 0 <= i < |shown| :: AloneResult(sem, text, s, shown[i]) == Some(shown[i])
    ensures Aggregated(sem, text, s.columns, s.groupBy, s.having, shown) == shown
  {
    GroupsAreOk(sem, text, s.groupBy, shown);
    DistinctKeysGroup(sem, text, s.groupBy, shown);
    AllComeOut(sem, text, s, shown, GroupsOf(sem, text, s.groupBy, shown));
  }

  lemma AllComeOut(sem: Semantics, text: Texts, s: Select, shown: seq<Row>, g: Groups)
    requires EachItsOwn(sem, text, s.groupBy, shown, g) && GroupsOk(g)
    requires forall i | 0 <= i < |shown| :: AloneResult(sem, text, s, shown[i]) == Some(shown[i])
    ensures GroupResults(sem, text, s.columns, s.groupBy, s.having, g, |g.order|) == shown
  {
    AloneResults(sem, text, s, shown, g, |shown|);
    assert shown[..|shown|] == shown;
  }

  lemma GroupSortRuns(sem: Semantics, text: Texts, tables: Tables, db: Db, p: Plan, s: Select)
    requires Runnable(tables, db.metas, p)
    ensures var plan := Sort(Aggregate(p, s.columns, s.groupBy, s.having), s.orderBy);
            && Runnable(tables, db.metas, plan)
            && Exec(sem, text, tables, db, plan)
               == StableSort(sem, s.orderBy, Aggregated(sem, text, s.columns, s.groupBy, s.having, Exec(sem, text, tables, db, p)))
  {
    AggregateRuns(sem, text, tables, db, p, s);
    SortRuns(sem, text, tables, db, Aggregate(p, s.columns, s.groupBy, s.having), s.orderBy);
  }

  lemma AggregateRuns(sem: Semantics, text: Texts, tables: Tables, db: Db, p: Plan, s: Select)
    requires Runnable(tables, db.metas, p)
    ensures var plan := Aggregate(p, s.columns, s.groupBy, s.having);
            && Runnable(tables, db.metas, plan)
            && Exec(sem, text, tables, db, plan)
               == Aggregated(sem, text, s.columns, s.groupBy, s.having, Exec(sem, text, tables, db, p))
  {
  }

  lemma SortRuns(sem: Semantics, text: Texts, tables: Tables, db: Db, p: Plan, order: seq<Order>)
    requires Runnable(tables, db.metas, p)
    ensures Runnable(tables, db.metas, Sort(p, order))
    ensures Exec(sem, text, tables, db, Sort(p, order)) == StableSort(sem, order, Exec(sem, text, tables, db, p))
  {
  }

  lemma GroupScanRuns(sem: Semantics, text: Texts, tables: Tables, db: Db, s: Select)
    requires Inv(sem.env, tables, db) && s.joins == [] && s.groupBy != [] && s.from.name in tables
    requires s.where_ == None && s.limit == None && s.offset == None && s.orderBy != []
    ensures Runnable(tables, db.metas, PlanOf(None, s))
    ensures var rows := RowsOf(db.data, tables[s.from.name]);
            var shown := Shown(rows, s.from.alias, ScanIds(rows));
            Exec(sem, text, tables, db, PlanOf(None, s))
            == StableSort(sem, s.orderBy, Aggregated(sem, text, s.columns, s.groupBy, s.having, shown))
  {
    var scan := Scan(s.from.name, s.from.alias);
    WithoutIndexSorts(s);
    GroupSortRuns(sem, text, tables, db, scan, s);
    ScanExecutes(sem, text, tables, db, s.from.name, s.from.alias);
  }

  lemma ScanExecutes(sem: Semantics, text: Texts, tables: Tables, db: Db, table: Name, alias: Name)
    requires Inv(sem.env, tables, db) && table in tables
    ensures var rows := RowsOf(db.data, tables[table]);
            Exec(sem, text, tables, db, Scan(table, alias)) == Shown(rows, alias, ScanIds(rows))
  {
    ScanIsShown(tables, db.data, table, alias);
  }

  /**
   A grouping, ordered by an index: the rows are those the statement asks for exactly when no two rows
   share a group, and each comes out of its group unchanged.
   */
  lemma GroupedOrderIff(sem: Semantics, text: Texts, t: ColumnType, tables: Tables, db: Db, catalog: Catalog, s: Select, meta: Meta)
    requires OrderedByIndex(sem, t, tables, db, catalog, s, meta) && s.groupBy != []
    requires IdIsId(text, s.columns) && GroupIdIsId(text, s.groupBy)
    ensures Runnable(tables, db.metas, PlanOf(catalog, s)) && Runnable(tables, db.metas, PlanOf(None, s))
    ensures Exec(sem, text, tables, db, PlanOf(catalog, s)) == Exec(sem, text, tables, db, PlanOf(None, s)) <==>
            GroupsAreRows(sem, text, s, RowsOf(db.data, tables[s.from.name]))
  {
    IndexRuns(sem, text, t, tables, db, catalog, s, meta);
    GroupScanRuns(sem, text, tables, db, s);
    GoodRowsOf(sem.env, tables, db, s.from.name);
    GroupsIff(sem, text, s, RowsOf(db.data, tables[s.from.name]));
  }

  lemma GroupsIff(sem: Semantics, text: Texts, s: Select, rows: Rows)
    requires GoodTable(rows) && IdIsId(text, s.columns) && GroupIdIsId(text, s.groupBy) && s.groupBy != []
    requires forall x | x in rows :: NoDot(rows[x])
    ensures var shown := Shown(rows, s.from.alias, ScanIds(rows));
            StableSort(sem, s.orderBy, shown)
            == StableSort(sem, s.orderBy, Aggregated(sem, text, s.columns, s.groupBy, s.having, shown)) <==>
            GroupsAreRows(sem, text, s, rows)
  {
    var shown := Shown(rows, s.from.alias, ScanIds(rows));
    var results := Aggregated(sem, text, s.columns, s.groupBy, s.having, shown);
    if StableSort(sem, s.orderBy, shown) == StableSort(sem, s.orderBy, results) {
      SortedTells(sem, s.orderBy, shown, results);
      EachIsFirst(sem, text, s, rows);
    } else if GroupsAreRows(sem, text, s, rows) {
      GroupsComeOut(sem, text, s, shown);
    }
  }

  lemma NameGroup(sem: Semantics, text: Texts, s: Select, row: Row)
    requires text.name(Ident([], NAME)) == NAME && s.columns == [NAME_COLUMN] && s.groupBy == [Ident([], NAME)] && ID in row
    ensures AloneResult(sem, text, s, row) != Some(row)
  {
    assert NAME[0] != ID[0];
    var before := AggregateRow(sem, text, s.columns, [row]);
    assert AggregateRow(sem, text, s.columns[..0], [row]) == map[];
    assert ID !in before;
    assert WithGroup(sem, text, s.groupBy[..0], row, before) == before;
  }

  /** SELECT name FROM t GROUP BY name ORDER BY name: with an index on name, wrong for every table that has a row. */
  lemma NamesGroupedWrong(sem: Semantics, text: Texts, t: ColumnType, tables: Tables, db: Db, catalog: Catalog, s: Select, meta: Meta)
    requires OrderedByIndex(sem, t, tables, db, catalog, s, meta) && text.name(Ident([], NAME)) == NAME
    requires s.columns == [NAME_COLUMN] && s.groupBy == [Ident([], NAME)] && s.orderBy == [Order(Ident([], NAME), true)]
    requires RowsOf(db.data, tables[s.from.name]) != map[]
    ensures Runnable(tables, db.metas, PlanOf(catalog, s)) && Runnable(tables, db.metas, PlanOf(None, s))
    ensures Exec(sem, text, tables, db, PlanOf(catalog, s)) != Exec(sem, text, tables, db, PlanOf(None, s))
  {
    var rows := RowsOf(db.data, tables[s.from.name]);
    NamesAreNames(text, s.columns);
    assert NAME[0] != ID[0];
    GroupedOrderIff(sem, text, t, tables, db, catalog, s, meta);
    GoodRowsOf(sem.env, tables, db, s.from.name);
    var id :| id in rows;
    var i := ScannedAt(rows, id);
    ShownKeepsId(rows[id], s.from.alias);
    NameGroup(sem, text, s, Shown(rows, s.from.alias, ScanIds(rows))[i]);
  }

  // ---- aggregates of the whole table ----

  lemma WholeAggregateRuns(sem: Semantics, text: Texts, tables: Tables, db: Db, s: Select)
    requires Inv(sem.env, tables, db) && s.joins == [] && s.groupBy == [] && HasAggregates(s.columns) && s.from.name in tables
    requires s.where_ == None && s.limit == None && s.offset == None && s.orderBy != []
    ensures Runnable(tables, db.metas, PlanOf(None, s))
    ensures var rows := RowsOf(db.data, tables[s.from.name]);
            Exec(sem, text, tables, db, PlanOf(None, s)) == [AggregateRow(sem, text, s.columns, Shown(rows, s.from.alias, ScanIds(rows)))]
  {
    var scan := Scan(s.from.name, s.from.alias);
    WithoutIndexSorts(s);
    GroupSortRuns(sem, text, tables, db, scan, s);
    ScanExecutes(sem, text, tables, db, s.from.name, s.from.alias);
    var rows := RowsOf(db.data, tables[s.from.name]);
    SortOne(sem, s.orderBy, AggregateRow(sem, text, s.columns, Shown(rows, s.from.alias, ScanIds(rows))));
  }

  /**
   Aggregates without GROUP BY, ordered by an index: the result is the one the statement asks for exactly
   when the table has a single row and its aggregates are that row.
   */
  lemma AggregatedOrderIff(sem: Semantics, text: Texts, t: ColumnType, tables: Tables, db: Db, catalog: Catalog, s: Select, meta: Meta)
    requires OrderedByIndex(sem, t, tables, db, catalog, s, meta) && s.groupBy == [] && HasAggregates(s.columns)
    ensures Runnable(tables, db.metas, PlanOf(catalog, s)) && Runnable(tables, db.metas, PlanOf(None, s))
    ensures var rows := RowsOf(db.data, tables[s.from.name]);
            var shown := Shown(rows, s.from.alias, ScanIds(rows));
            Exec(sem, text, tables, db, PlanOf(catalog, s)) == Exec(sem, text, tables, db, PlanOf(None, s)) <==>
            |rows| == 1 && AggregateRow(sem, text, s.columns, shown) == shown[0]
  {
    var rows := RowsOf(db.data, tables[s.from.name]);
    IndexRuns(sem, text, t, tables, db, catalog, s, meta);
    WholeAggregateRuns(sem, text, tables, db, s);
    ScanCounts(rows);
    OneRowIff(sem, s.orderBy, Shown(rows, s.from.alias, ScanIds(rows)), AggregateRow(sem, text, s.columns, Shown(rows, s.from.alias, ScanIds(rows))));
  }

  lemma OneRowIff(sem: Semantics, order: seq<Order>, shown: seq<Row>, one: Row)
    ensures StableSort(sem, order, shown) == [one] <==> |shown| == 1 && one == shown[0]
  {
    SortKeepsRows(sem, order, shown);
    assert |multiset(shown)| == |shown| && |multiset(StableSort(sem, order, shown))| == |StableSort(sem, order, shown)|;
    if |shown| == 1 {
      SortOne(sem, order, shown[0]);
      assert shown == [shown[0]];
    }
  }

  lemma ScanCounts(rows: Rows)
    ensures |ScanIds(rows)| == |rows|
  {
    OnceCounts(ScanIds(rows));
    assert (set id | id in ScanIds(rows)) == rows.Keys;
  }

  lemma OneAggregate(sem: Semantics, text: Texts, columns: seq<Column>, rows: seq<Row>)
    requires |columns| == 1 && columns[0].aggregate && ColumnName(text, columns[0]) != ID
    ensures ID !in AggregateRow(sem, text, columns, rows)
  {
    assert columns[..0] == [] && AggregateRow(sem, text, columns[..0], rows) == map[];
  }

  /** SELECT COUNT(*) FROM t ORDER BY a column: with an index on the column, wrong for every table, the empty one included. */
  lemma CountedWrong(sem: Semantics, text: Texts, t: ColumnType, tables: Tables, db: Db, catalog: Catalog, s: Select, meta: Meta)
    requires OrderedByIndex(sem, t, tables, db, catalog, s, meta) && s.groupBy == []
    requires |s.columns| == 1 && s.columns[0].aggregate && ColumnName(text, s.columns[0]) != ID
    ensures Runnable(tables, db.metas, PlanOf(catalog, s)) && Runnable(tables, db.metas, PlanOf(None, s))
    ensures Exec(sem, text, tables, db, PlanOf(catalog, s)) != Exec(sem, text, tables, db, PlanOf(None, s))
  {
    var rows := RowsOf(db.data, tables[s.from.name]);
    AggregatedOrderIff(sem, text, t, tables, db, catalog, s, meta);
    GoodRowsOf(sem.env, tables, db, s.from.name);
    ScanCounts(rows);
    if |rows| == 1 {
      var id := ScanIds(rows)[0];
      var shown := Shown(rows, s.from.alias, ScanIds(rows));
      ShownKeepsId(rows[id], s.from.alias);
      OneAggregate(sem, text, s.columns, shown);
    }
  }

  // ---- what the condition on the name id is for ----

  const SWAPPED := [Column(Ident([], NAME), ID, false), Column(Ident([], ID), NAME, false)]
  const BY_NAME := [Order(Ident([], NAME), true)]

  function TwoNames(id: Key, name: Key): Row { map[ID := Str(id), NAME := Str(name)] }

  /** SELECT name AS id, id AS name turns two rows into each other: every row changes, the result does not. */
  lemma SwapGoesUnnoticed(sem: Semantics, text: Texts)
    ensures var a, b := TwoNames([1], [2]), TwoNames([2], [1]);
            && ProjectRow(sem, text, SWAPPED, a) == b && ProjectRow(sem, text, SWAPPED, b) == a && a != b
            && StableSort(sem, BY_NAME, ProjectRows(sem, text, SWAPPED, [a, b])) == StableSort(sem, BY_NAME, [a, b])
  {
    var a, b := TwoNames([1], [2]), TwoNames([2], [1]);
    assert NAME[0] != ID[0];
    SwappedIs(sem, text, [1], [2]);
    SwappedIs(sem, text, [2], [1]);
    assert a[ID] != b[ID];
    assert ProjectRows(sem, text, SWAPPED, [a, b]) == [b, a];
    NameLess(sem, a, b);
    NameLess(sem, b, a);
    SortTwo(sem, BY_NAME, a, b);
    SortTwo(sem, BY_NAME, b, a);
  }

  lemma SwappedIs(sem: Semantics, text: Texts, x: Key, y: Key)
    ensures ProjectRow(sem, text, SWAPPED, TwoNames(x, y)) == TwoNames(y, x)
  {
    assert NAME[0] != ID[0];
    var front := SWAPPED[..1];
    assert ProjectRow(sem, text, front[..0], TwoNames(x, y)) == map[];
    assert ProjectRow(sem, text, front, TwoNames(x, y)) == map[ID := Str(y)];
  }

  lemma NameLess(sem: Semantics, a: Row, b: Row)
    requires NAME in a && NAME in b && a[NAME].Str? && b[NAME].Str?
    ensures RowLess(sem, BY_NAME, a, b) <==> Less(a[NAME].s, b[NAME].s)
  {
    assert BY_NAME[1..] == [];
    Irreflexive(a[NAME].s);
  }

  lemma SortTwo(sem: Semantics, order: seq<Order>, a: Row, b: Row)
    ensures StableSort(sem, order, [a, b]) == if RowLess(sem, order, b, a) then [b, a] else [a, b]
  {
    var one, two := [a], [a, b];
    assert two[..1] == one;
    SortOne(sem, order, a);
    InsertIntoOne(sem, order, a, b);
  }

  lemma SortOne(sem: Semantics, order: seq<Order>, a: Row)
    ensures StableSort(sem, order, [a]) == [a]
  {
    var none: seq<Row> := [];
    assert [a][..0] == none;
    assert StableSort(sem, order, none) == none && InsertStable(sem, order, none, a) == [a];
  }

  lemma InsertIntoOne(sem: Semantics, order: seq<Order>, a: Row, b: Row)
    ensures InsertStable(sem, order, [a], b) == if RowLess(sem, order, b, a) then [b, a] else [a, b]
  {
    var none: seq<Row> := [];
    assert [a][..0] == none;
    assert InsertStable(sem, order, none, b) == [b];
  }
}
