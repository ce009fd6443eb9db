/**
 BETWEEN: an index serves it as the range from one end to the other, ends included; without an index
 no row passes, since evaluation does not know it.
 */
module BetweenScan {
  import opened Bytes
  import opened KeyEncode
  import opened Engine
  import opened Encoding
  import opened IndexKeys
  import opened IndexLookup
  import opened IndexManager
  import opened IndexUpkeep
  import opened Ast
  import opened Eval
  import opened Planner
  import opened Execute
  import opened PlanRows
  import opened PlanMeaning
  import opened PlanAgreement
  import opened SortElimination

  /** An index serves conjunct k of WHERE, which is a BETWEEN. */
  ghost predicate ServedBetween(env: Env, tables: Tables, db: Db, catalog: Catalog, s: Select, k: nat, e: Expr, meta: Meta) {
    && Inv(env, tables, db) && CatalogOk(db, catalog) && OneTable(s) && s.from.name in tables
    && s.where_.Some? && catalog.Some?
    && var es := SplitAnd(s.where_.value);
    && k == FirstServed(catalog, s.from, es, 0) < |es| && es[k] == e && e.Between?
    && Source(catalog, s).0.IndexScan? && Source(catalog, s).0.index in db.metas
    && db.metas[Source(catalog, s).0.index] == meta
  }

  /** In the order of the index; an end that is NULL or no literal is none. */
  predicate NotBelow(v: Value, low: Expr, ofInt: OfInt) {
    LiteralOf(low).Some? && LiteralOf(low).value != Null ==> !ValueLess(v, LiteralOf(low).value, ofInt)
  }

  predicate NotAbove(v: Value, high: Expr, ofInt: OfInt) {
    LiteralOf(high).Some? && LiteralOf(high).value != Null ==> !ValueLess(LiteralOf(high).value, v, ofInt)
  }

  /** The row has the column, with a value that is not below the one end and not above the other. */
  predicate WithinEnds(meta: Meta, e: Expr, row: Row, ofInt: OfInt)
    requires e.Between?
  {
    meta.column in row && NotBelow(row[meta.column], e.low, ofInt) && NotAbove(row[meta.column], e.high, ofInt)
  }

  lemma SpanIsWithinEnds(e: Expr, v: Value, ofInt: OfInt)
    requires e.Between?
    ensures InSpan(Range(EvalLiteral(e.low), EvalLiteral(e.high), true, true), v, ofInt) <==> NotBelow(v, e.low, ofInt) && NotAbove(v, e.high, ofInt)
  {
    ValueTrichotomy(EvalLiteral(e.low), v, ofInt);
    ValueTrichotomy(v, EvalLiteral(e.low), ofInt);
    ValueTrichotomy(v, EvalLiteral(e.high), ofInt);
    ValueTrichotomy(EvalLiteral(e.high), v, ofInt);
  }

  lemma BetweenIsLive(env: Env, tables: Tables, db: Db, catalog: Catalog, s: Select, k: nat, e: Expr, meta: Meta)
    requires ServedBetween(env, tables, db, catalog, s, k, e, meta)
    ensures var scan := Source(catalog, s).0;
            && SameTable(tables, db, scan) && scan.table == s.from.name
            && scan.span == Range(EvalLiteral(e.low), EvalLiteral(e.high), true, true)
            && e.operand.Ident? && !e.negated && SameName(meta.column, e.operand.name)
    ensures Source(catalog, s).1 == Others(s, k)
  {
    SourceOf(catalog, s, k);
    PickedIsLive(db, catalog, s.from.name, e.operand.name, ForRange);
  }

  /** The scan returns the rows between the ends, of those that pass the other conjuncts. */
  lemma BetweenTakes(sem: Semantics, tables: Tables, db: Db, catalog: Catalog, s: Select, k: nat, e: Expr, meta: Meta, id: Key)
    requires ServedBetween(sem.env, tables, db, catalog, s, k, e, meta)
    ensures var rows := RowsOf(db.data, tables[s.from.name]);
            id in SourceIds(sem, tables, db, catalog, s) <==>
              id in rows && WithinEnds(meta, e, rows[id], sem.env.ofInt) && Passes(sem, Others(s, k), Aliased(rows[id], s.from.alias))
  {
    var rows, scan := RowsOf(db.data, tables[s.from.name]), Source(catalog, s).0;
    BetweenIsLive(sem.env, tables, db, catalog, s, k, e, meta);
    ScanFinds(sem.env, tables, db, scan);
    assert id in Known(rows, Lookup(db.data, meta, scan.span, sem.env.ofInt)) <==> Hit(sem.env, meta, rows, scan.span, id);
    if id in rows && meta.column in rows[id] {
      SpanIsWithinEnds(e, rows[id][meta.column], sem.env.ofInt);
    }
  }

  /** Where column and ends are of one type, that is the comparison with both ends. */
  lemma BetweenIsBothComparisons(sem: Semantics, t: ColumnType, tables: Tables, db: Db, catalog: Catalog, s: Select, k: nat, e: Expr, meta: Meta,
                                 id: Key, low: Value, high: Value)
    requires ServedBetween(sem.env, tables, db, catalog, s, k, e, meta)
    requires ColumnFits(sem, t, RowsOf(db.data, tables[s.from.name]), meta.column)
    requires LiteralOf(e.low) == Some(low) && low != Null && Fits(sem, t, low)
    requires LiteralOf(e.high) == Some(high) && high != Null && Fits(sem, t, high)
    ensures var rows := RowsOf(db.data, tables[s.from.name]);
            id in SourceIds(sem, tables, db, catalog, s) <==>
              && id in rows && Compare(sem, low, rows[id][meta.column]) <= 0 && Compare(sem, rows[id][meta.column], high) <= 0
              && Passes(sem, Others(s, k), Aliased(rows[id], s.from.alias))
  {
    var rows := RowsOf(db.data, tables[s.from.name]);
    BetweenTakes(sem, tables, db, catalog, s, k, e, meta, id);
    if id in rows {
      CompareIsIndexOrder(sem, t, low, rows[id][meta.column]);
      CompareIsIndexOrder(sem, t, rows[id][meta.column], high);
    }
  }

  /** The forms that evaluation does not know. */
  predicate IsUnknown(e: Expr) { e.Between? || e.Like? || e.IsNull? || e.MatchAgainst? }

  lemma UnknownFails(sem: Semantics, e: Expr, k: nat, row: Row)
    requires k < |SplitAnd(e)| && IsUnknown(SplitAnd(e)[k])
    ensures !EvalBool(sem, e, row)
  {
    WithoutOne(sem, e, k, row);
    assert !EvalBool(sem, SplitAnd(e)[k], row);
  }

  lemma NoneChosen(sem: Semantics, e: Expr, rows: Rows, alias: Name, ids: seq<Key>)
    requires AllIn(rows, ids) && forall id | id in rows :: !EvalBool(sem, e, Aliased(rows[id], alias))
    ensures Chosen(sem, e, rows, alias, ids) == []
  {
    var chosen := Chosen(sem, e, rows, alias, ids);
    if chosen != [] {
      HasSome(chosen);
    }
  }

  /** Without an index no row passes a WHERE one of whose conjuncts is such a form. */
  lemma ScanTakesNone(sem: Semantics, tables: Tables, db: Db, s: Select, k: nat)
    requires s.from.name in tables && s.where_.Some? && k < |SplitAnd(s.where_.value)| && IsUnknown(SplitAnd(s.where_.value)[k])
    ensures SourceIds(sem, tables, db, None, s) == []
  {
    var rows := RowsOf(db.data, tables[s.from.name]);
    assert Source(None, s) == (Scan(s.from.name, s.from.alias), None);
    forall id | id in rows ensures !EvalBool(sem, s.where_.value, Aliased(rows[id], s.from.alias)) {
      UnknownFails(sem, s.where_.value, k, Aliased(rows[id], s.from.alias));
    }
    NoneChosen(sem, s.where_.value, rows, s.from.alias, ScanIds(rows));
  }

  /** The two plans agree exactly when no row that passes the other conjuncts is between the ends. */
  lemma BetweenAgreesIff(sem: Semantics, tables: Tables, db: Db, catalog: Catalog, s: Select, k: nat, e: Expr, meta: Meta)
    requires ServedBetween(sem.env, tables, db, catalog, s, k, e, meta)
    ensures var rows := RowsOf(db.data, tables[s.from.name]);
            SameIds(sem, tables, db, catalog, s) <==>
              forall id | id in rows && Passes(sem, Others(s, k), Aliased(rows[id], s.from.alias)) :: !WithinEnds(meta, e, rows[id], sem.env.ofInt)
  {
    var rows := RowsOf(db.data, tables[s.from.name]);
    ScanTakesNone(sem, tables, db, s, k);
    forall id
      ensures id in SourceIds(sem, tables, db, catalog, s) <==>
                id in rows && WithinEnds(meta, e, rows[id], sem.env.ofInt) && Passes(sem, Others(s, k), Aliased(rows[id], s.from.alias))
    {
      BetweenTakes(sem, tables, db, catalog, s, k, e, meta, id);
    }
  }
}
