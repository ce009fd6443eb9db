/**
 Rows that lack the indexed column, or spell it in another case, have no entry in the index, while a
 scan shows NULL for the column or reads it: what that does to WHERE and to ORDER BY.
 */
module MissingColumns {
  import opened Bytes
  import opened Engine
  import opened Encoding
  import opened IndexKeys
  import opened IndexLookup
  import opened IndexManager
  import opened IndexUpkeep
  import opened Ast
  import opened Eval
  import opened Planner
  import opened Execute
  import opened PlanRows
  import opened PlanMeaning
  import opened SortElimination
  import opened ValueAgreement
  import opened PlanAgreement
  import opened IndexLimits
  import opened OrderedScanLimits

  // ---- WHERE ----

  const AGE: Name := [0x61, 0x67, 0x65]
  const UPPER_NAME: Name := [0x4E, 0x41, 0x4D, 0x45]
  const X_TEXT: Key := [0x78]

  /** A row without age is in no index on age, but the scan finds it under age < 5, and under age >= NULL. */
  lemma MissingIsLost(sem: Semantics, meta: Meta, id: Key, alias: Name)
    requires meta.column == AGE
    ensures var row := map[ID := Str(id)];
            && RowKeys(sem.env, meta, row, id) == []
            && EvalBool(sem, Binary(Lt, Ident([], AGE), IntLit(5)), Aliased(row, alias))
            && EvalBool(sem, Binary(Gte, Ident([], AGE), NullLit), Aliased(row, alias))
            && !IndexAnswers(sem, meta, ColumnTest(AGE, Int(5), Lt, false), row)
            && !IndexAnswers(sem, meta, ColumnTest(AGE, Null, Gte, false), row)
  {
    var row := map[ID := Str(id)];
    assert AGE[0] != ID[0] && DOT !in AGE && DOT !in ID;
    ConjunctIsTest(sem, Binary(Lt, Ident([], AGE), IntLit(5)), ColumnTest(AGE, Int(5), Lt, false), row, alias);
    ConjunctIsTest(sem, Binary(Gte, Ident([], AGE), NullLit), ColumnTest(AGE, Null, Gte, false), row, alias);
  }

  /** An index on NAME serves tests of name, but a row with a name has no entry in it. */
  lemma OtherCaseIsLost(sem: Semantics, meta: Meta, id: Key, alias: Name)
    requires meta.column == UPPER_NAME
    ensures var row := map[ID := Str(id), NAME := Str(X_TEXT)];
            && SameName(meta.column, NAME) && RowKeys(sem.env, meta, row, id) == []
            && EvalBool(sem, Binary(Eq, Ident([], NAME), StringLit(X_TEXT)), Aliased(row, alias))
            && !IndexAnswers(sem, meta, ColumnTest(NAME, Str(X_TEXT), Eq, false), row)
  {
    var row := map[ID := Str(id), NAME := Str(X_TEXT)];
    NamesApart();
    ConjunctIsTest(sem, Binary(Eq, Ident([], NAME), StringLit(X_TEXT)), ColumnTest(NAME, Str(X_TEXT), Eq, false), row, alias);
    SameTextPasses(sem);
  }

  lemma NamesApart()
    ensures UPPER_NAME != ID && UPPER_NAME != NAME && ID != NAME && DOT !in NAME && DOT !in ID && SameName(UPPER_NAME, NAME)
  {
    assert UPPER_NAME[0] != ID[0] && UPPER_NAME[0] != NAME[0] && ID[0] != NAME[0];
    assert Fold(UPPER_NAME) == NAME == Fold(NAME);
  }

  lemma SameTextPasses(sem: Semantics)
    ensures TestHolds(sem, ColumnTest(NAME, Str(X_TEXT), Eq, false), Str(X_TEXT))
  {
    Irreflexive(X_TEXT);
  }

  // ---- ORDER BY ----

  /** SELECT * from one table without WHERE or paging, ORDER BY one column, with a BTREE index listed for that column. */
  ghost predicate ReadByIndex(env: Env, tables: Tables, db: Db, catalog: Catalog, s: Select, meta: Meta) {
    && Inv(env, tables, db) && CatalogOk(db, catalog) && s.from.name in tables
    && OneTable(s) && IsStar(s.columns) && s.where_ == None && s.limit == None && s.offset == None
    && |s.orderBy| == 1 && OrderColumn(s.orderBy[0].expr) != []
    && PickIndex(catalog, s.from.name, OrderColumn(s.orderBy[0].expr), ForRange) == Some(meta) && meta.kind == BTree
  }

  ghost predicate AllHave(rows: Rows, column: Name) {
    forall id | id in rows :: column in rows[id]
  }

  /** The index holds the rows that have its column. */
  lemma IndexHolds(env: Env, tables: Tables, db: Db, catalog: Catalog, s: Select, meta: Meta)
    requires ReadByIndex(env, tables, db, catalog, s, meta)
    ensures meta.name in db.metas && db.metas[meta.name] == meta
    ensures var rows := RowsOf(db.data, tables[s.from.name]);
            forall id :: id in Known(rows, Lookup(db.data, meta, ALL, env.ofInt)) <==> id in rows && meta.column in rows[id]
  {
    var rows := RowsOf(db.data, tables[s.from.name]);
    PickedIsLive(db, catalog, s.from.name, OrderColumn(s.orderBy[0].expr), ForRange);
    var scan := IndexScan(s.from.name, s.from.alias, meta.name, meta.column, ALL);
    ScanFinds(env, tables, db, scan);
    forall id ensures Hit(env, meta, rows, ALL, id) <==> id in rows && meta.column in rows[id] {
    }
  }

  /** The rows of the ordered scan, in either direction. */
  lemma OrderedScanHas(sem: Semantics, text: Texts, tables: Tables, db: Db, catalog: Catalog, s: Select, meta: Meta) returns (ids: seq<Key>)
    requires ReadByIndex(sem.env, tables, db, catalog, s, meta)
    ensures Runnable(tables, db.metas, PlanOf(catalog, s))
    ensures var rows := RowsOf(db.data, tables[s.from.name]);
            && AllIn(rows, ids) && Once(ids) && (forall id :: id in ids <==> id in rows && meta.column in rows[id])
            && Exec(sem, text, tables, db, PlanOf(catalog, s)) == Shown(rows, s.from.alias, ids)
  {
    var rows, all := RowsOf(db.data, tables[s.from.name]), Lookup(db.data, meta, ALL, sem.env.ofInt);
    OrderedScanReplaces(catalog, s, meta);
    IndexHolds(sem.env, tables, db, catalog, s, meta);
    var read := if s.orderBy[0].ascending then all else Reversed(all);
    forall id ensures id in read <==> id in all {
      SameMembersReversed(all, id);
    }
    ids := Known(rows, read);
    KnownOnce(rows, read);
    FetchIsShown(db.data, tables[s.from.name], s.from.alias, read);
  }

  lemma SortedScanHas(sem: Semantics, text: Texts, tables: Tables, db: Db, catalog: Catalog, s: Select, meta: Meta)
    requires ReadByIndex(sem.env, tables, db, catalog, s, meta)
    ensures Runnable(tables, db.metas, PlanOf(None, s))
    ensures var rows := RowsOf(db.data, tables[s.from.name]);
            multiset(Exec(sem, text, tables, db, PlanOf(None, s))) == multiset(Shown(rows, s.from.alias, ScanIds(rows)))
  {
    WithoutIndexSorts(s);
    StarRows(sem, text, tables, db, None, s);
    var rows := RowsOf(db.data, tables[s.from.name]);
    assert BeforeOrder(None, s) == Projected(Scan(s.from.name, s.from.alias), s);
    SortKeepsRows(sem, s.orderBy, Shown(rows, s.from.alias, ScanIds(rows)));
  }

  /** ORDER BY over an index, in either direction, returns all rows exactly when every row has the index's column. */
  lemma OrderedRowsIff(sem: Semantics, text: Texts, tables: Tables, db: Db, catalog: Catalog, s: Select, meta: Meta)
    requires ReadByIndex(sem.env, tables, db, catalog, s, meta)
    ensures Runnable(tables, db.metas, PlanOf(catalog, s)) && Runnable(tables, db.metas, PlanOf(None, s))
    ensures SameRows(sem, text, tables, db, PlanOf(catalog, s), PlanOf(None, s))
            <==> AllHave(RowsOf(db.data, tables[s.from.name]), meta.column)
  {
    var rows := RowsOf(db.data, tables[s.from.name]);
    var ids := OrderedScanHas(sem, text, tables, db, catalog, s, meta);
    SortedScanHas(sem, text, tables, db, catalog, s, meta);
    GoodRowsOf(sem.env, tables, db, s.from.name);
    SameShownIff(rows, s.from.alias, ids, ScanIds(rows));
    assert SameMembers(ids, ScanIds(rows)) <==> AllHave(rows, meta.column);
  }
}
