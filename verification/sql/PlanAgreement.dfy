/**
 When the plan with an index on a column returns what the plan without one returns, with no
 assumption on the column's values, the rows that lack it, the spelling of its name or the literal:
 the exact condition on the rows.
 */
module PlanAgreement {
  import opened Bytes
  import opened KeyEncode
  import opened Engine
  import opened Encoding
  import opened IndexKeys
  import opened IndexLookup
  import opened IndexManager
  import opened IndexUpkeep
  import opened Ast
  import opened Eval
  import opened Planner
  import opened Execute
  import opened PlanRows
  import opened PlanMeaning
  import opened ValueAgreement

  /** An index serves conjunct k of WHERE, which is this test; no name of a column holds a dot. */
  ghost predicate ServedTest(env: Env, tables: Tables, db: Db, catalog: Catalog, s: Select, k: nat, test: ColumnTest, meta: Meta) {
    && Ready(env, tables, db, catalog, s) && s.where_.Some? && catalog.Some?
    && var es := SplitAnd(s.where_.value);
    && k == FirstServed(catalog, s.from, es, 0) < |es|
    && ExtractColumnTest(es[k].op, es[k].left, es[k].right) == Some(test)
    && Source(catalog, s).0.IndexScan? && Source(catalog, s).0.index in db.metas
    && db.metas[Source(catalog, s).0.index] == meta
    && DOT !in test.column
    && forall id | id in RowsOf(db.data, tables[s.from.name]) :: NoDot(RowsOf(db.data, tables[s.from.name])[id])
  }

  /** The conjuncts that the index does not serve. */
  function Others(s: Select, k: nat): Option<Expr>
    requires s.where_.Some? && k < |SplitAnd(s.where_.value)|
  {
    JoinAnd(SplitAnd(s.where_.value)[..k] + SplitAnd(s.where_.value)[k + 1..])
  }

  ghost predicate SameIds(sem: Semantics, tables: Tables, db: Db, catalog: Catalog, s: Select)
    requires s.from.name in tables
  {
    SameMembers(SourceIds(sem, tables, db, catalog, s), SourceIds(sem, tables, db, None, s))
  }

  ghost predicate SameMembers(a: seq<Key>, b: seq<Key>) { forall id :: id in a <==> id in b }

  /** A row that lacks a column shows NULL for it. */
  function Seen(row: Row, column: Name): Value {
    if column in row then row[column] else Null
  }

  /** A column is read from a shown row whatever its qualifier, and as NULL if the row lacks it. */
  lemma ColumnIsSeen(sem: Semantics, table: Name, column: Name, row: Row, alias: Name)
    requires NoDot(row) && DOT !in column
    ensures EvalExpr(sem, Ident(table, column), Aliased(row, alias)) == Seen(row, column)
  {
    if column in row {
      ColumnIsRead(sem, table, column, row, alias);
    } else {
      NameIsAbsent(table, column, row, alias);
    }
  }

  lemma NameIsAbsent(table: Name, column: Name, row: Row, alias: Name)
    requires NoDot(row) && DOT !in column && column !in row
    ensures FullName(table, column) !in Aliased(row, alias) && column !in Aliased(row, alias)
  {
    var full := FullName(table, column);
    forall c | c in row ensures column != alias + [DOT] + c && full != alias + [DOT] + c {
      assert (alias + [DOT] + c)[|alias|] == DOT;
      if table != [] && full == alias + [DOT] + c {
        LastDot(table, column, alias, c);
      }
    }
    if table != [] {
      assert full[|table|] == DOT;
    }
  }

  lemma ConjunctIsTest(sem: Semantics, e: Expr, test: ColumnTest, row: Row, alias: Name)
    requires e.Binary? && ExtractColumnTest(e.op, e.left, e.right) == Some(test)
    requires DOT !in test.column && NoDot(row)
    ensures EvalBool(sem, e, Aliased(row, alias)) <==> TestHolds(sem, test, Seen(row, test.column))
  {
    var shown := Aliased(row, alias);
    var ident, literal := if test.swapped then e.right else e.left, if test.swapped then e.left else e.right;
    ColumnIsSeen(sem, ident.table, test.column, row, alias);
    LiteralEvaluates(sem, literal, shown);
  }

  /** The index plan takes a row that has the index's column, when the span holds its value and the other conjuncts pass. */
  lemma IndexTakes(sem: Semantics, tables: Tables, db: Db, catalog: Catalog, s: Select, k: nat, test: ColumnTest, meta: Meta, id: Key)
    requires ServedTest(sem.env, tables, db, catalog, s, k, test, meta)
    ensures var rows := RowsOf(db.data, tables[s.from.name]);
            id in SourceIds(sem, tables, db, catalog, s) <==>
              && id in rows && meta.column in rows[id] && InSpan(TestSpan(test), rows[id][meta.column], sem.env.ofInt)
              && Passes(sem, Others(s, k), Aliased(rows[id], s.from.alias))
  {
    var rows, es := RowsOf(db.data, tables[s.from.name]), SplitAnd(s.where_.value);
    SourceOf(catalog, s, k);
    ServedIsLive(sem.env, tables, db, catalog, s.from, es[k]);
    ServedScan(catalog, s.from, es[k]);
    var scan := Source(catalog, s).0;
    ScanFinds(sem.env, tables, db, scan);
    assert id in Known(rows, Lookup(db.data, meta, scan.span, sem.env.ofInt)) <==> Hit(sem.env, meta, rows, scan.span, id);
  }

  /** The scan takes a row when the served conjunct is true of what it shows and the other conjuncts pass. */
  lemma ScanTakes(sem: Semantics, tables: Tables, db: Db, catalog: Catalog, s: Select, k: nat, test: ColumnTest, meta: Meta, id: Key)
    requires ServedTest(sem.env, tables, db, catalog, s, k, test, meta)
    ensures var rows := RowsOf(db.data, tables[s.from.name]);
            id in SourceIds(sem, tables, db, None, s) <==>
              && id in rows && TestHolds(sem, test, Seen(rows[id], test.column))
              && Passes(sem, Others(s, k), Aliased(rows[id], s.from.alias))
  {
    var rows, es := RowsOf(db.data, tables[s.from.name]), SplitAnd(s.where_.value);
    assert Source(None, s) == (Scan(s.from.name, s.from.alias), None);
    if id in rows {
      WithoutOne(sem, s.where_.value, k, Aliased(rows[id], s.from.alias));
      ConjunctIsTest(sem, es[k], test, rows[id], s.from.alias);
    }
  }

  /** The scan's answer is that of the span, or no for a row without the index's column. */
  predicate IndexAnswers(sem: Semantics, meta: Meta, test: ColumnTest, row: Row) {
    if meta.column in row then
      TestHolds(sem, test, Seen(row, test.column)) <==> InSpan(TestSpan(test), row[meta.column], sem.env.ofInt)
    else
      !TestHolds(sem, test, Seen(row, test.column))
  }

  /** On every row that passes the other conjuncts. */
  ghost predicate RowsAgree(sem: Semantics, rows: Rows, s: Select, k: nat, test: ColumnTest, meta: Meta)
    requires s.where_.Some? && k < |SplitAnd(s.where_.value)|
  {
    forall id | id in rows && Passes(sem, Others(s, k), Aliased(rows[id], s.from.alias)) :: IndexAnswers(sem, meta, test, rows[id])
  }

  /** An index on the column compared: the values must be ordered as the test needs it, and rows without one not pass. */
  lemma SameColumnIff(sem: Semantics, meta: Meta, test: ColumnTest, row: Row)
    requires meta.column == test.column && IsServed(test.op)
    ensures IndexAnswers(sem, meta, test, row) <==>
            if test.column in row then SameVerdict(sem, test, row[test.column])
            else !NullPasses(if test.swapped then FlipCompare(test.op) else test.op, test.literal)
  {
    NullPassesIff(sem, test);
  }

  lemma TestIsServed(env: Env, tables: Tables, db: Db, catalog: Catalog, s: Select, k: nat, test: ColumnTest, meta: Meta)
    requires ServedTest(env, tables, db, catalog, s, k, test, meta)
    ensures IsServed(test.op) && SameName(meta.column, test.column)
  {
    var es := SplitAnd(s.where_.value);
    SourceOf(catalog, s, k);
    ServedIsLive(env, tables, db, catalog, s.from, es[k]);
    ServedScan(catalog, s.from, es[k]);
    PickedIsLive(db, catalog, s.from.name, test.column, ForEqual);
    PickedIsLive(db, catalog, s.from.name, test.column, ForRange);
  }

  lemma PlansAgreeAt(sem: Semantics, tables: Tables, db: Db, catalog: Catalog, s: Select, k: nat, test: ColumnTest, meta: Meta, id: Key)
    requires ServedTest(sem.env, tables, db, catalog, s, k, test, meta)
    ensures var rows := RowsOf(db.data, tables[s.from.name]);
            (id in SourceIds(sem, tables, db, catalog, s) <==> id in SourceIds(sem, tables, db, None, s)) <==>
            (id in rows && Passes(sem, Others(s, k), Aliased(rows[id], s.from.alias)) ==> IndexAnswers(sem, meta, test, rows[id]))
  {
    IndexTakes(sem, tables, db, catalog, s, k, test, meta, id);
    ScanTakes(sem, tables, db, catalog, s, k, test, meta, id);
  }

  /** The two plans take the same rows exactly when index and scan agree on each row that is left to decide. */
  lemma PlansAgreeIff(sem: Semantics, tables: Tables, db: Db, catalog: Catalog, s: Select, k: nat, test: ColumnTest, meta: Meta)
    requires ServedTest(sem.env, tables, db, catalog, s, k, test, meta)
    ensures SameIds(sem, tables, db, catalog, s) <==> RowsAgree(sem, RowsOf(db.data, tables[s.from.name]), s, k, test, meta)
  {
    var rows := RowsOf(db.data, tables[s.from.name]);
    forall id
      ensures (id in SourceIds(sem, tables, db, catalog, s) <==> id in SourceIds(sem, tables, db, None, s)) <==>
              (id in rows && Passes(sem, Others(s, k), Aliased(rows[id], s.from.alias)) ==> IndexAnswers(sem, meta, test, rows[id]))
    {
      PlansAgreeAt(sem, tables, db, catalog, s, k, test, meta, id);
    }
  }

  // ---- SELECT * ----

  lemma ShownKeepsId(row: Row, alias: Name)
    requires ID in row
    ensures ID in Aliased(row, alias) && Aliased(row, alias)[ID] == row[ID]
  {
  }

  ghost predicate GoodTable(rows: Rows) { forall x | x in rows :: GoodRow(rows[x], x) }

  /** Rows tell their ids, so equal rows are rows of equal ids. */
  lemma SameRowsSameIds(rows: Rows, alias: Name, a: seq<Key>, b: seq<Key>, id: Key)
    requires AllIn(rows, a) && AllIn(rows, b) && GoodTable(rows)
    requires multiset(Shown(rows, alias, a)) == multiset(Shown(rows, alias, b)) && id in a
    ensures id in b
  {
    var i :| 0 <= i < |a| && a[i] == id;
    var row := Shown(rows, alias, a)[i];
    assert row in multiset(Shown(rows, alias, a));
    assert row in multiset(Shown(rows, alias, b));
    var j :| 0 <= j < |b| && Shown(rows, alias, b)[j] == row;
    ShownKeepsId(rows[a[i]], alias);
    ShownKeepsId(rows[b[j]], alias);
  }

  lemma GoodRowsOf(env: Env, tables: Tables, db: Db, table: Name)
    requires Inv(env, tables, db) && table in tables
    ensures GoodTable(RowsOf(db.data, tables[table]))
  {
    var rows := RowsOf(db.data, tables[table]);
    forall x | x in rows ensures GoodRow(rows[x], x) {
      var k := EncodeKey(tables[table], x);
      assert k in db.data && k[0] == tables[table] && k[1..] == x;
    }
  }

  lemma SourceOnce(sem: Semantics, tables: Tables, db: Db, catalog: Catalog, s: Select)
    requires s.from.name in tables
    ensures Once(SourceIds(sem, tables, db, catalog, s))
  {
    var rows := RowsOf(db.data, tables[s.from.name]);
    var (scan, rest) := Source(catalog, s);
    if scan.IndexScan? && scan.index in db.metas {
      var ids := Lookup(db.data, db.metas[scan.index], scan.span, sem.env.ofInt);
      KnownOnce(rows, ids);
      if rest.Some? {
        ChosenOnce(sem, rest.value, rows, s.from.alias, Known(rows, ids));
      }
    } else if s.where_.Some? {
      ChosenOnce(sem, s.where_.value, rows, s.from.alias, ScanIds(rows));
    }
  }

  lemma StarRows(sem: Semantics, text: Texts, tables: Tables, db: Db, catalog: Catalog, s: Select)
    requires Ready(sem.env, tables, db, catalog, s) && IsStar(s.columns)
    ensures Runnable(tables, db.metas, BeforeOrder(catalog, s))
    ensures Exec(sem, text, tables, db, BeforeOrder(catalog, s))
            == Shown(RowsOf(db.data, tables[s.from.name]), s.from.alias, SourceIds(sem, tables, db, catalog, s))
  {
    BeforeOrderRuns(sem, text, tables, db, catalog, s);
  }

  ghost predicate SameRows(sem: Semantics, text: Texts, tables: Tables, db: Db, a: Plan, b: Plan)
    requires Runnable(tables, db.metas, a) && Runnable(tables, db.metas, b)
  {
    multiset(Exec(sem, text, tables, db, a)) == multiset(Exec(sem, text, tables, db, b))
  }

  /** Of SELECT *, the two plans return the same rows exactly when they take the same ids. */
  lemma SameRowsIff(sem: Semantics, text: Texts, tables: Tables, db: Db, catalog: Catalog, s: Select)
    requires Ready(sem.env, tables, db, catalog, s) && IsStar(s.columns)
    ensures Runnable(tables, db.metas, BeforeOrder(catalog, s)) && Runnable(tables, db.metas, BeforeOrder(None, s))
    ensures SameRows(sem, text, tables, db, BeforeOrder(catalog, s), BeforeOrder(None, s))
            <==> SameIds(sem, tables, db, catalog, s)
  {
    StarRows(sem, text, tables, db, catalog, s);
    StarRows(sem, text, tables, db, None, s);
    GoodRowsOf(sem.env, tables, db, s.from.name);
    SameIdsIff(sem, tables, db, catalog, s);
  }

  lemma SameIdsIff(sem: Semantics, tables: Tables, db: Db, catalog: Catalog, s: Select)
    requires s.from.name in tables && GoodTable(RowsOf(db.data, tables[s.from.name]))
    ensures var rows := RowsOf(db.data, tables[s.from.name]);
            var a, b := SourceIds(sem, tables, db, catalog, s), SourceIds(sem, tables, db, None, s);
            multiset(Shown(rows, s.from.alias, a)) == multiset(Shown(rows, s.from.alias, b)) <==> SameMembers(a, b)
  {
    SourceOnce(sem, tables, db, catalog, s);
    SourceOnce(sem, tables, db, None, s);
    SameShownIff(RowsOf(db.data, tables[s.from.name]), s.from.alias,
                 SourceIds(sem, tables, db, catalog, s), SourceIds(sem, tables, db, None, s));
  }

  lemma SameShownIff(rows: Rows, alias: Name, a: seq<Key>, b: seq<Key>)
    requires AllIn(rows, a) && AllIn(rows, b) && Once(a) && Once(b) && GoodTable(rows)
    ensures multiset(Shown(rows, alias, a)) == multiset(Shown(rows, alias, b)) <==> SameMembers(a, b)
  {
    if multiset(Shown(rows, alias, a)) == multiset(Shown(rows, alias, b)) {
      forall id ensures id in a <==> id in b {
        if id in a {
          SameRowsSameIds(rows, alias, a, b, id);
        } else if id in b {
          SameRowsSameIds(rows, alias, b, a, id);
        }
      }
    } else if SameMembers(a, b) {
      SameIdsSameShown(rows, alias, a, b);
    }
  }

  lemma SameIdsSameShown(rows: Rows, alias: Name, a: seq<Key>, b: seq<Key>)
    requires AllIn(rows, a) && AllIn(rows, b) && Once(a) && Once(b) && SameMembers(a, b)
    ensures multiset(Shown(rows, alias, a)) == multiset(Shown(rows, alias, b))
  {
    var view := id => if id in rows then Aliased(rows[id], alias) else map[];
    OnceMultiset(a, b);
    SameIdsSameRows(view, a, b);
    ShownIsMapped(rows, alias, view, a);
    ShownIsMapped(rows, alias, view, b);
  }

  lemma ShownIsMapped(rows: Rows, alias: Name, view: Key -> Row, ids: seq<Key>)
    requires AllIn(rows, ids) && forall id | id in rows :: view(id) == Aliased(rows[id], alias)
    ensures Shown(rows, alias, ids) == Mapped(view, ids)
  {
  }

  /** SELECT * with and without the index: the same rows exactly when index and scan agree on every row left to decide. */
  lemma SelectAllAgreesIff(sem: Semantics, text: Texts, tables: Tables, db: Db, catalog: Catalog, s: Select, k: nat,
                           test: ColumnTest, meta: Meta)
    requires ServedTest(sem.env, tables, db, catalog, s, k, test, meta) && IsStar(s.columns)
    ensures Runnable(tables, db.metas, BeforeOrder(catalog, s)) && Runnable(tables, db.metas, BeforeOrder(None, s))
    ensures SameRows(sem, text, tables, db, BeforeOrder(catalog, s), BeforeOrder(None, s))
            <==> RowsAgree(sem, RowsOf(db.data, tables[s.from.name]), s, k, test, meta)
  {
    SameRowsIff(sem, text, tables, db, catalog, s);
    PlansAgreeIff(sem, tables, db, catalog, s, k, test, meta);
  }

  // ---- a range against NULL ----

  /** Of the rows left to decide, those that have the index's column are those that pass a range test with NULL. */
  ghost predicate NullRowsKeep(sem: Semantics, rows: Rows, s: Select, k: nat, column: Name, op: Operator, meta: Meta)
    requires s.where_.Some? && k < |SplitAnd(s.where_.value)|
  {
    forall id | id in rows && Passes(sem, Others(s, k), Aliased(rows[id], s.from.alias)) ::
      meta.column in rows[id] <==> NullKeeps(op, Seen(rows[id], column))
  }

  lemma NullAnswersIff(sem: Semantics, meta: Meta, test: ColumnTest, row: Row)
    requires IsRangeOp(test.op) && test.literal == Null
    ensures IndexAnswers(sem, meta, test, row) <==>
            (meta.column in row <==> NullKeeps(if test.swapped then FlipCompare(test.op) else test.op, Seen(row, test.column)))
  {
    NullVerdictIff(sem, test, Seen(row, test.column));
    if meta.column in row {
      NullVerdictIff(sem, test, row[meta.column]);
    }
  }

  /**
   A range test with NULL, either way round, reads every row of the index.  The plans agree exactly when, of the rows
   left to decide, the index has all for >=, those whose column is not NULL for >, those where it is for <=, none for <.
   */
  lemma NullRangeAgreesIff(sem: Semantics, tables: Tables, db: Db, catalog: Catalog, s: Select, k: nat, test: ColumnTest, meta: Meta)
    requires ServedTest(sem.env, tables, db, catalog, s, k, test, meta) && IsRangeOp(test.op) && test.literal == Null
    ensures SameIds(sem, tables, db, catalog, s) <==>
            NullRowsKeep(sem, RowsOf(db.data, tables[s.from.name]), s, k, test.column,
                         if test.swapped then FlipCompare(test.op) else test.op, meta)
  {
    var rows := RowsOf(db.data, tables[s.from.name]);
    PlansAgreeIff(sem, tables, db, catalog, s, k, test, meta);
    forall id | id in rows
      ensures IndexAnswers(sem, meta, test, rows[id]) <==>
              (meta.column in rows[id] <==> NullKeeps(if test.swapped then FlipCompare(test.op) else test.op, Seen(rows[id], test.column)))
    {
      NullAnswersIff(sem, meta, test, rows[id]);
    }
  }

  /** Where every value is ordered alike with the literal and NULL does not pass for a missing one, the index may be used. */
  lemma AlikeAgrees(sem: Semantics, tables: Tables, db: Db, catalog: Catalog, s: Select, k: nat, test: ColumnTest, meta: Meta)
    requires ServedTest(sem.env, tables, db, catalog, s, k, test, meta) && test.literal != Null && meta.column == test.column
    requires var rows := RowsOf(db.data, tables[s.from.name]);
             forall id | id in rows ::
               if test.column in rows[id] then KeepsOrder(sem, rows[id][test.column], test.literal)
               else !NullPasses(if test.swapped then FlipCompare(test.op) else test.op, test.literal)
    ensures SameIds(sem, tables, db, catalog, s)
  {
    PlansAgreeIff(sem, tables, db, catalog, s, k, test, meta);
    TestIsServed(sem.env, tables, db, catalog, s, k, test, meta);
    var rows := RowsOf(db.data, tables[s.from.name]);
    forall id | id in rows ensures IndexAnswers(sem, meta, test, rows[id]) {
      SameColumnIff(sem, meta, test, rows[id]);
      if test.column in rows[id] {
        AlikeIff(sem, rows[id][test.column], test.literal);
        EveryVerdictIff(sem, test.column, rows[id][test.column], test.literal);
      }
    }
  }
}
