/**
 Planning preserves meaning: the index scan and the filter left above it select the same rows as
 filtering a scan of the whole table.
 */
module PlanMeaning {
  import opened Bytes
  import opened Engine
  import opened Encoding
  import opened IndexKeys
  import opened IndexLookup
  import opened IndexManager
  import opened IndexUpkeep
  import opened Ast
  import opened Eval
  import opened Planner
  import opened Execute
  import opened PlanRows

  // ---- conjunctions ----

  /** A filter passes exactly when all its conjuncts do. */
  ghost predicate AllPass(sem: Semantics, es: seq<Expr>, row: Row) {
    forall i | 0 <= i < |es| :: EvalBool(sem, es[i], row)
  }

  lemma {:induction false} SplitPasses(sem: Semantics, e: Expr, row: Row)
    ensures EvalBool(sem, e, row) <==> AllPass(sem, SplitAnd(e), row)
  {
    if e.Binary? && e.op == And {
      SplitPasses(sem, e.left, row);
      SplitPasses(sem, e.right, row);
      JoinPasses(sem, SplitAnd(e.left), SplitAnd(e.right), row);
    } else {
      assert SplitAnd(e) == [e] && [e][0] == e;
      assert AllPass(sem, [e], row) <==> EvalBool(sem, [e][0], row);
    }
  }

  lemma JoinPasses(sem: Semantics, a: seq<Expr>, b: seq<Expr>, row: Row)
    ensures AllPass(sem, a + b, row) <==> AllPass(sem, a, row) && AllPass(sem, b, row)
  {
    if AllPass(sem, a + b, row) {
      forall i | 0 <= i < |a| ensures EvalBool(sem, a[i], row) {
        assert (a + b)[i] == a[i];
      }
      forall i | 0 <= i < |b| ensures EvalBool(sem, b[i], row) {
        assert (a + b)[|a| + i] == b[i];
      }
    }
  }

  /** No filter passes everything. */
  function Passes(sem: Semantics, e: Option<Expr>, row: Row): bool {
    e.Some? ==> EvalBool(sem, e.value, row)
  }

  lemma {:induction false} JoinAndPasses(sem: Semantics, es: seq<Expr>, row: Row)
    ensures Passes(sem, JoinAnd(es), row) <==> AllPass(sem, es, row)
  {
    if |es| > 1 {
      var front, last := es[..|es| - 1], es[|es| - 1];
      JoinAndPasses(sem, front, row);
      JoinPasses(sem, front, [last], row);
      assert es == front + [last];
    }
  }

  /** Taking one conjunct out, at any position, leaves the rest. */
  lemma WithoutOne(sem: Semantics, e: Expr, k: nat, row: Row)
    requires k < |SplitAnd(e)|
    ensures var es := SplitAnd(e);
            EvalBool(sem, e, row) <==> EvalBool(sem, es[k], row) && Passes(sem, JoinAnd(es[..k] + es[k + 1..]), row)
  {
    var es := SplitAnd(e);
    SplitPasses(sem, e, row);
    JoinAndPasses(sem, es[..k] + es[k + 1..], row);
    AllButOne(sem, es, k, row);
  }

  lemma AllButOne(sem: Semantics, es: seq<Expr>, k: nat, row: Row)
    requires k < |es|
    ensures AllPass(sem, es, row) <==> EvalBool(sem, es[k], row) && AllPass(sem, es[..k] + es[k + 1..], row)
  {
    JoinPasses(sem, es[..k], es[k + 1..], row);
    JoinPasses(sem, es[..k], [es[k]] + es[k + 1..], row);
    JoinPasses(sem, [es[k]], es[k + 1..], row);
    assert es == es[..k] + ([es[k]] + es[k + 1..]);
  }

  // ---- columns under an alias ----

  ghost predicate NoDot(row: Row) {
    forall c | c in row :: DOT !in c
  }

  lemma LastDot(a: Name, c: Name, b: Name, d: Name)
    requires DOT !in c && DOT !in d && a + [DOT] + c == b + [DOT] + d
    ensures a == b && c == d
  {
    var x, y := a + [DOT] + c, b + [DOT] + d;
    DotAfter(a, c, b, d);
    DotAfter(b, d, a, c);
    assert x[..|a|] == a && y[..|b|] == b && x[|a| + 1..] == c && y[|b| + 1..] == d;
  }

  lemma DotAfter(a: Name, c: Name, b: Name, d: Name)
    requires DOT !in c && a + [DOT] + c == b + [DOT] + d
    ensures |a| >= |b|
  {
    var y := b + [DOT] + d;
    assert y[|b|] == DOT;
    if |a| < |b| {
      DotIn(a, c, |b|);
    }
  }

  lemma DotIn(a: Name, c: Name, i: int)
    requires |a| < i < |a + [DOT] + c| && (a + [DOT] + c)[i] == DOT
    ensures DOT in c
  {
    assert c[i - |a| - 1] == DOT;
  }

  /** A column is read from a shown row whatever its qualifier. */
  lemma ColumnIsRead(sem: Semantics, table: Name, column: Name, row: Row, alias: Name)
    requires column in row && NoDot(row)
    ensures EvalExpr(sem, Ident(table, column), Aliased(row, alias)) == row[column]
  {
    var full, shown := FullName(table, column), Aliased(row, alias);
    if table != [] {
      assert full[|table|] == DOT;
      assert full !in row;
      if alias != [] && full in shown {
        var c :| c in row && full == alias + [DOT] + c;
        LastDot(table, column, alias, c);
        assert full[|alias| + 1..] == column;
      }
    }
  }

  // ---- the predicate an index serves ----

  /** Every row has the column, and its values are of one type the index keeps in order. */
  ghost predicate ColumnFits(sem: Semantics, t: ColumnType, rows: Rows, column: Name) {
    forall id | id in rows :: column in rows[id] && Fits(sem, t, rows[id][column]) && NoDot(rows[id])
  }

  /** A range asks for a bound: with NULL for one, the index would return every row. */
  ghost predicate LiteralFits(sem: Semantics, t: ColumnType, test: ColumnTest) {
    Fits(sem, t, test.literal) && (test.op != Eq ==> test.literal != Null)
  }

  function TestSpan(test: ColumnTest): Span {
    if test.op == Eq then Equal(test.literal)
    else RangeFor(if test.swapped then FlipCompare(test.op) else test.op, test.literal)
  }

  /** A value passes the test exactly when the span of the index scan holds it. */
  lemma TestIsSpan(sem: Semantics, t: ColumnType, test: ColumnTest, v: Value)
    requires Fits(sem, t, v) && LiteralFits(sem, t, test) && (test.op == Eq || IsRangeOp(test.op))
    ensures ToBool(if test.swapped then BinaryOp(sem, test.op, test.literal, v) else BinaryOp(sem, test.op, v, test.literal))
            <==> InSpan(TestSpan(test), v, sem.env.ofInt)
  {
    CompareIsIndexOrder(sem, t, v, test.literal);
    CompareIsIndexOrder(sem, t, test.literal, v);
  }

  lemma LiteralEvaluates(sem: Semantics, e: Expr, row: Row)
    requires LiteralOf(e).Some?
    ensures EvalExpr(sem, e, row) == LiteralOf(e).value
  {
  }

  /** On a shown row, the conjunct says whether the span holds the row's value. */
  lemma ConjunctIsSpan(sem: Semantics, t: ColumnType, e: Expr, test: ColumnTest, row: Row, alias: Name)
    requires e.Binary? && ExtractColumnTest(e.op, e.left, e.right) == Some(test)
    requires test.op == Eq || IsRangeOp(test.op)
    requires test.column in row && Fits(sem, t, row[test.column]) && NoDot(row) && LiteralFits(sem, t, test)
    ensures EvalBool(sem, e, Aliased(row, alias)) <==> InSpan(TestSpan(test), row[test.column], sem.env.ofInt)
  {
    var shown := Aliased(row, alias);
    var ident, literal := if test.swapped then e.right else e.left, if test.swapped then e.left else e.right;
    ColumnIsRead(sem, ident.table, test.column, row, alias);
    LiteralEvaluates(sem, literal, shown);
    TestIsSpan(sem, t, test, row[test.column]);
  }

  // ---- the catalog ----

  /** The catalog lists live indexes on the column it was asked for. */
  ghost predicate CatalogOk(db: Db, catalog: Catalog) {
    catalog.Some? ==> forall table, column, m | m in catalog.value(table, column) ::
      m.name in db.metas && db.metas[m.name] == m && SameName(m.table, table) && SameName(m.column, column)
  }

  lemma {:induction false} FirstIsListed(metas: seq<Meta>, kinds: set<Kind>)
    ensures FirstOfKind(metas, kinds).Some? ==>
              FirstOfKind(metas, kinds).value in metas && FirstOfKind(metas, kinds).value.kind in kinds
  {
    if metas != [] && metas[0].kind !in kinds {
      FirstIsListed(metas[1..], kinds);
    }
  }

  lemma PickedIsLive(db: Db, catalog: Catalog, table: Name, column: Name, usage: Usage)
    requires CatalogOk(db, catalog) && usage != ForMatch
    ensures PickIndex(catalog, table, column, usage).Some? ==>
              var m := PickIndex(catalog, table, column, usage).value;
              m.name in db.metas && db.metas[m.name] == m && SameName(m.table, table) && SameName(m.column, column)
              && m.kind != Inverted
  {
    if catalog.Some? {
      FirstIsListed(catalog.value(table, column), {Preferred(usage)});
      FirstIsListed(catalog.value(table, column), {BTree, Hash});
    }
  }

  // ---- what the planner takes out of WHERE ----

  /** The scan the planner found for conjunct e, and the assumptions on its column and literal. */
  ghost predicate ServedBy(sem: Semantics, t: ColumnType, db: Db, rows: Rows, e: Expr, p: Plan) {
    && e.Binary? && ExtractColumnTest(e.op, e.left, e.right).Some?
    && p.IndexScan? && p.index in db.metas && db.metas[p.index].column == p.column
    && ColumnFits(sem, t, rows, p.column)
    && LiteralFits(sem, t, ExtractColumnTest(e.op, e.left, e.right).value)
  }

  /** The conjunct an index serves, if any, fits the column. */
  ghost predicate WhereFits(sem: Semantics, t: ColumnType, tables: Tables, db: Db, catalog: Catalog, s: Select) {
    && s.from.name in tables
    && (s.where_.Some? && catalog.Some? ==>
          var es := SplitAnd(s.where_.value);
          var k := FirstServed(catalog, s.from, es, 0);
          k < |es| ==> ServedBy(sem, t, db, RowsOf(db.data, tables[s.from.name]), es[k], MatchIndexPredicate(catalog, s.from, es[k]).value))
  }

  /** The plain statements of this theorem: one table, no grouping. */
  predicate OneTable(s: Select) {
    s.joins == [] && s.groupBy == [] && !HasAggregates(s.columns)
  }

  /** The scan of a served conjunct. */
  lemma ServedScan(catalog: Catalog, from: TableRef, e: Expr)
    requires e.Binary? && ExtractColumnTest(e.op, e.left, e.right).Some? && MatchIndexPredicate(catalog, from, e).Some?
    ensures var test := ExtractColumnTest(e.op, e.left, e.right).value;
            var p := MatchIndexPredicate(catalog, from, e).value;
            && (test.op == Eq || IsRangeOp(test.op))
            && exists usage :: usage != ForMatch && PickIndex(catalog, from.name, test.column, usage).Some?
                 && p == IndexScan(from.name, from.alias, PickIndex(catalog, from.name, test.column, usage).value.name,
                                   test.column, TestSpan(test))
  {
    var test := ExtractColumnTest(e.op, e.left, e.right).value;
    var usage := if test.op == Eq then ForEqual else ForRange;
    assert PickIndex(catalog, from.name, test.column, usage).Some?;
  }

  ghost predicate SameTable(tables: Tables, db: Db, p: Plan)
    requires p.IndexScan?
  {
    && p.table in tables && p.index in db.metas
    && db.metas[p.index].table == p.table && db.metas[p.index].kind != Inverted
  }

  lemma ServedIsLive(env: Env, tables: Tables, db: Db, catalog: Catalog, from: TableRef, e: Expr)
    requires Inv(env, tables, db) && CatalogOk(db, catalog) && from.name in tables
    requires e.Binary? && ExtractColumnTest(e.op, e.left, e.right).Some? && MatchIndexPredicate(catalog, from, e).Some?
    ensures var p := MatchIndexPredicate(catalog, from, e).value; p.IndexScan? && SameTable(tables, db, p)
  {
    ServedScan(catalog, from, e);
    var test := ExtractColumnTest(e.op, e.left, e.right).value;
    PickedIsLive(db, catalog, from.name, test.column, ForEqual);
    PickedIsLive(db, catalog, from.name, test.column, ForRange);
  }

  // ---- the rows of an index scan ----

  /** Distinct known ids, exactly those whose value the span holds. */
  lemma ScanFinds(env: Env, tables: Tables, db: Db, p: Plan)
    requires Inv(env, tables, db) && p.IndexScan? && SameTable(tables, db, p)
    ensures var rows := RowsOf(db.data, tables[p.table]);
            forall id :: id in Known(rows, Lookup(db.data, db.metas[p.index], p.span, env.ofInt))
                         <==> Hit(env, db.metas[p.index], rows, p.span, id)
  {
    var meta, rows := db.metas[p.index], RowsOf(db.data, tables[p.table]);
    assert Exact(env, tables, db, p.index);
    GoodIds(tables, db.data, p.table);
    if p.span.Range? {
      RangeAnswers(env, db.data, meta, rows, p.span);
    } else {
      forall id
        ensures id in Known(rows, Lookup(db.data, meta, p.span, env.ofInt)) <==> Hit(env, meta, rows, p.span, id)
      {
        EqualFinds(env, db.data, meta, rows, p.span.value, id);
        assert id in rows ==> GoodId(id);
      }
    }
  }

  /** The ids a source yields before projection. */
  ghost function SourceIds(sem: Semantics, tables: Tables, db: Db, catalog: Catalog, s: Select): (ids: seq<Key>)
    requires s.from.name in tables
    ensures AllIn(RowsOf(db.data, tables[s.from.name]), ids)
  {
    var rows := RowsOf(db.data, tables[s.from.name]);
    var (scan, rest) := Source(catalog, s);
    if scan.IndexScan? && scan.index in db.metas then
      var known := Known(rows, Lookup(db.data, db.metas[scan.index], scan.span, sem.env.ofInt));
      if rest.Some? then Chosen(sem, rest.value, rows, s.from.alias, known) else known
    else if s.where_.Some? then Chosen(sem, s.where_.value, rows, s.from.alias, ScanIds(rows))
    else ScanIds(rows)
  }

  ghost predicate Setting(sem: Semantics, t: ColumnType, tables: Tables, db: Db, catalog: Catalog, s: Select) {
    && Inv(sem.env, tables, db)
    && CatalogOk(db, catalog)
    && OneTable(s)
    && WhereFits(sem, t, tables, db, catalog, s)
  }

  /** A statement on one stored table; the conjunct an index serves, if any, compares a column with a literal. */
  ghost predicate Ready(env: Env, tables: Tables, db: Db, catalog: Catalog, s: Select) {
    && Inv(env, tables, db) && CatalogOk(db, catalog) && OneTable(s) && s.from.name in tables
    && (s.where_.Some? && catalog.Some? ==>
          var es := SplitAnd(s.where_.value);
          var k := FirstServed(catalog, s.from, es, 0);
          k < |es| ==> es[k].Binary? && ExtractColumnTest(es[k].op, es[k].left, es[k].right).Some?)
  }

  /** The source is the index scan of conjunct k, which leaves the other conjuncts. */
  ghost predicate IndexShape(tables: Tables, db: Db, catalog: Catalog, s: Select, scan: Plan, rest: Option<Expr>, k: nat) {
    && s.from.name in tables && s.where_.Some? && k < |SplitAnd(s.where_.value)|
    && scan.IndexScan? && SameTable(tables, db, scan) && scan.table == s.from.name && scan.alias == s.from.alias
    && var es := SplitAnd(s.where_.value);
    && k == FirstServed(catalog, s.from, es, 0) && MatchIndexPredicate(catalog, s.from, es[k]) == Some(scan)
    && rest == JoinAnd(es[..k] + es[k + 1..])
  }

  ghost predicate IndexSource(sem: Semantics, t: ColumnType, tables: Tables, db: Db, catalog: Catalog, s: Select,
                              scan: Plan, rest: Option<Expr>, k: nat)
  {
    && IndexShape(tables, db, catalog, s, scan, rest, k)
    && ServedBy(sem, t, db, RowsOf(db.data, tables[s.from.name]), SplitAnd(s.where_.value)[k], scan)
  }

  lemma SourceIs(sem: Semantics, t: ColumnType, tables: Tables, db: Db, catalog: Catalog, s: Select) returns (k: nat)
    requires Setting(sem, t, tables, db, catalog, s)
    ensures var (scan, rest) := Source(catalog, s);
            || (scan == Scan(s.from.name, s.from.alias) && rest == None)
            || IndexSource(sem, t, tables, db, catalog, s, scan, rest, k)
  {
    k := ShapeIs(sem.env, tables, db, catalog, s);
  }

  lemma ShapeIs(env: Env, tables: Tables, db: Db, catalog: Catalog, s: Select) returns (k: nat)
    requires Ready(env, tables, db, catalog, s)
    ensures var (scan, rest) := Source(catalog, s);
            || (scan == Scan(s.from.name, s.from.alias) && rest == None)
            || IndexShape(tables, db, catalog, s, scan, rest, k)
  {
    k := 0;
    if catalog.Some? && s.where_.Some? {
      var es := SplitAnd(s.where_.value);
      k := FirstServed(catalog, s.from, es, 0);
      if k < |es| {
        ServedIsLive(env, tables, db, catalog, s.from, es[k]);
        ServedScan(catalog, s.from, es[k]);
        SourceOf(catalog, s, k);
      }
    }
  }

  lemma SourceOf(catalog: Catalog, s: Select, k: nat)
    requires s.joins == [] && catalog.Some? && s.where_.Some?
    requires k == FirstServed(catalog, s.from, SplitAnd(s.where_.value), 0) < |SplitAnd(s.where_.value)|
    ensures var es := SplitAnd(s.where_.value);
            Source(catalog, s) == (MatchIndexPredicate(catalog, s.from, es[k]).value, JoinAnd(es[..k] + es[k + 1..]))
  {
  }

  /** Running the source gives the rows of SourceIds. */
  lemma SourceRuns(sem: Semantics, text: Texts, tables: Tables, db: Db, catalog: Catalog, s: Select)
    requires Ready(sem.env, tables, db, catalog, s)
    ensures var (scan, rest) := Source(catalog, s);
            var p := Filtered(scan, rest, s.where_);
            && Runnable(tables, db.metas, p)
            && Exec(sem, text, tables, db, p)
               == Shown(RowsOf(db.data, tables[s.from.name]), s.from.alias, SourceIds(sem, tables, db, catalog, s))
  {
    var k := ShapeIs(sem.env, tables, db, catalog, s);
    var rows := RowsOf(db.data, tables[s.from.name]);
    var (scan, rest) := Source(catalog, s);
    if scan.IndexScan? {
      var ids := Lookup(db.data, db.metas[scan.index], scan.span, sem.env.ofInt);
      FetchIsShown(db.data, tables[scan.table], scan.alias, ids);
      if rest.Some? {
        FilterIsChosen(sem, rest.value, rows, scan.alias, Known(rows, ids));
      }
    } else {
      ScanIsShown(tables, db.data, s.from.name, s.from.alias);
      if s.where_.Some? {
        FilterIsChosen(sem, s.where_.value, rows, s.from.alias, ScanIds(rows));
      }
    }
  }

  /** Each id once, and exactly those whose row passes WHERE. */
  lemma SourceSelects(sem: Semantics, t: ColumnType, tables: Tables, db: Db, catalog: Catalog, s: Select)
    requires Setting(sem, t, tables, db, catalog, s)
    ensures var ids, rows := SourceIds(sem, tables, db, catalog, s), RowsOf(db.data, tables[s.from.name]);
            && Once(ids)
            && forall id :: id in ids <==> id in rows && Passes(sem, s.where_, Aliased(rows[id], s.from.alias))
  {
    var k := SourceIs(sem, t, tables, db, catalog, s);
    var rows := RowsOf(db.data, tables[s.from.name]);
    var (scan, rest) := Source(catalog, s);
    if scan.IndexScan? {
      IndexSelects(sem, t, tables, db, catalog, s, scan, rest, k);
    } else {
      if s.where_.Some? {
        ChosenOnce(sem, s.where_.value, rows, s.from.alias, ScanIds(rows));
      }
    }
  }

  lemma IndexSelects(sem: Semantics, t: ColumnType, tables: Tables, db: Db, catalog: Catalog, s: Select,
                     scan: Plan, rest: Option<Expr>, k: nat)
    requires Setting(sem, t, tables, db, catalog, s) && Source(catalog, s) == (scan, rest)
    requires IndexSource(sem, t, tables, db, catalog, s, scan, rest, k)
    ensures var ids, rows := SourceIds(sem, tables, db, catalog, s), RowsOf(db.data, tables[s.from.name]);
            && Once(ids)
            && forall id :: id in ids <==> id in rows && Passes(sem, s.where_, Aliased(rows[id], s.from.alias))
  {
    var es, rows := SplitAnd(s.where_.value), RowsOf(db.data, tables[s.from.name]);
    var known := Known(rows, Lookup(db.data, db.metas[scan.index], scan.span, sem.env.ofInt));
    ScanFinds(sem.env, tables, db, scan);
    KnownOnce(rows, Lookup(db.data, db.metas[scan.index], scan.span, sem.env.ofInt));
    if rest.Some? {
      ChosenOnce(sem, rest.value, rows, s.from.alias, known);
    }
    forall id | id in rows
      ensures Passes(sem, s.where_, Aliased(rows[id], s.from.alias))
              <==> id in known && Passes(sem, rest, Aliased(rows[id], s.from.alias))
    {
      WithoutOne(sem, s.where_.value, k, Aliased(rows[id], s.from.alias));
      ServedHit(sem, t, db, rows, catalog, s.from, es[k], scan, id);
    }
  }

  lemma ServedHit(sem: Semantics, t: ColumnType, db: Db, rows: Rows, catalog: Catalog, from: TableRef, e: Expr, scan: Plan, id: Key)
    requires MatchIndexPredicate(catalog, from, e) == Some(scan) && ServedBy(sem, t, db, rows, e, scan) && id in rows
    ensures EvalBool(sem, e, Aliased(rows[id], from.alias)) <==> Hit(sem.env, db.metas[scan.index], rows, scan.span, id)
  {
    var test := ExtractColumnTest(e.op, e.left, e.right).value;
    ServedScan(catalog, from, e);
    ConjunctIsSpan(sem, t, e, test, rows[id], from.alias);
  }

  // ---- whole plans ----

  function RowView(sem: Semantics, text: Texts, s: Select, rows: Rows): Key -> Row {
    id =>
      if id !in rows then map[]
      else if IsStar(s.columns) then Aliased(rows[id], s.from.alias)
      else ProjectRow(sem, text, s.columns, Aliased(rows[id], s.from.alias))
  }

  lemma ProjectIsMapped(sem: Semantics, text: Texts, s: Select, rows: Rows, ids: seq<Key>)
    requires AllIn(rows, ids)
    ensures ProjectRows(sem, text, s.columns, Shown(rows, s.from.alias, ids)) == Mapped(RowView(sem, text, s, rows), ids)
  {
  }

  /** Before sorting and paging, planned with and without indexes. */
  lemma BeforeOrderRuns(sem: Semantics, text: Texts, tables: Tables, db: Db, catalog: Catalog, s: Select)
    requires Ready(sem.env, tables, db, catalog, s)
    ensures Runnable(tables, db.metas, BeforeOrder(catalog, s))
    ensures Exec(sem, text, tables, db, BeforeOrder(catalog, s))
            == Mapped(RowView(sem, text, s, RowsOf(db.data, tables[s.from.name])), SourceIds(sem, tables, db, catalog, s))
  {
    SourceRuns(sem, text, tables, db, catalog, s);
    ProjectIsMapped(sem, text, s, RowsOf(db.data, tables[s.from.name]), SourceIds(sem, tables, db, catalog, s));
  }

  /**
   For every WHERE, whatever conjunct an index serves and wherever it stands, planning with the
   catalog and without it gives the same rows, as multisets.
   */
  lemma WhereMeaning(sem: Semantics, text: Texts, t: ColumnType, tables: Tables, db: Db, catalog: Catalog, s: Select)
    requires Setting(sem, t, tables, db, catalog, s)
    ensures Runnable(tables, db.metas, BeforeOrder(catalog, s)) && Runnable(tables, db.metas, BeforeOrder(None, s))
    ensures multiset(Exec(sem, text, tables, db, BeforeOrder(catalog, s)))
            == multiset(Exec(sem, text, tables, db, BeforeOrder(None, s)))
  {
    BeforeOrderRuns(sem, text, tables, db, catalog, s);
    BeforeOrderRuns(sem, text, tables, db, None, s);
    SourceSelects(sem, t, tables, db, catalog, s);
    SourceSelects(sem, t, tables, db, None, s);
    var a, b := SourceIds(sem, tables, db, catalog, s), SourceIds(sem, tables, db, None, s);
    OnceMultiset(a, b);
    SameIdsSameRows(RowView(sem, text, s, RowsOf(db.data, tables[s.from.name])), a, b);
  }
}
