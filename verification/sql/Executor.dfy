/**
 The executor (internal/query/sql/executor.go): running plans, and the statements that write rows
 and indexes.  Column constraints and generated ids are parameters.
 */
module Executor {
  import opened Bytes
  import opened KeyEncode
  import opened Engine
  import opened Encoding
  import opened IndexKeys
  import opened IndexLookup
  import opened IndexManager
  import opened IndexUpkeep
  import opened Ast
  import opened Eval
  import opened Planner
  import opened Execute
  import opened PlanRows
  import opened RowWrites

  // ---- the executor ----

  /** Swaps from both ends towards the middle. */
  method ReverseInPlace<T>(a: array<T>)
    modifies a
    ensures a[..] == Reversed(old(a[..]))
  {
    var i, j := 0, a.Length - 1;
    while i < j
      invariant 0 <= i <= j + 1 <= a.Length && i + j == a.Length - 1
      invariant forall k | 0 <= k < i :: a[k] == old(a[a.Length - 1 - k]) && a[a.Length - 1 - k] == old(a[k])
      invariant forall k | i <= k <= j :: a[k] == old(a[k])
    {
      a[i], a[j] := a[j], a[i];
      i, j := i + 1, j - 1;
    }
    assert forall k | 0 <= k < a.Length :: a[..][k] == Reversed(old(a[..]))[k];
  }

  class Executor {
    const engine: Store<Cell>
    const indexes: Manager
    const tables: Tables
    const sem: Semantics
    const text: Texts
    const check: (Name, Row) -> bool

    constructor (engine: Store<Cell>, indexes: Manager, tables: Tables, sem: Semantics, text: Texts, check: (Name, Row) -> bool)
      ensures this.engine == engine && this.indexes == indexes && this.tables == tables
      ensures this.sem == sem && this.text == text && this.check == check
    {
      this.engine, this.indexes, this.tables := engine, indexes, tables;
      this.sem, this.text, this.check := sem, text, check;
    }

    ghost predicate Valid()
      reads this, indexes
    {
      indexes.engine == engine && indexes.env == sem.env
    }

    ghost function State(): Db
      reads this, engine, indexes
    {
      Db(engine.data, indexes.byName)
    }

    method Execute(p: Plan) returns (rows: seq<Row>)
      requires Valid() && Runnable(tables, indexes.byName, p)
      ensures rows == Exec(sem, text, tables, State(), p)
    {
      match p {
        case Scan(table, alias) =>
          rows := ExecuteScan(table, alias);
        case IndexScan(table, alias, index, column, span) =>
          var ids: seq<Key>;
          match span {
            case Equal(v) => ids := indexes.LookupEqual(indexes.byName[index], v);
            case Range(low, high, includeLow, includeHigh) =>
              ids := indexes.LookupRange(indexes.byName[index], low, high, includeLow, includeHigh);
          }
          rows := FetchRows(tables[table], alias, ids);
        case OrderedScan(table, alias, index, column, ascending) =>
          var ids := indexes.LookupRange(indexes.byName[index], Null, Null, true, true);
          if !ascending {
            ids := ReverseSeq(ids);
          }
          rows := FetchRows(tables[table], alias, ids);
        case Filter(input, e) =>
          var all := Execute(input);
          rows := Keep(e, all);
        case Project(input, columns) =>
          var all := Execute(input);
          rows := ExecuteProject(columns, all);
        case Aggregate(input, columns, groupBy, having) =>
          var all := Execute(input);
          rows := ExecuteAggregate(columns, groupBy, having, all);
        case Sort(input, order) =>
          var all := Execute(input);
          rows := StableSort(sem, order, all);
        case Reverse(input) =>
          var all := Execute(input);
          rows := ReverseSeq(all);
        case Limit(input, limit, offset) =>
          rows := Execute(input);
          if 0 < offset < |rows| {
            rows := rows[offset..];
          } else if offset >= |rows| {
            rows := [];
          }
          if 0 < limit < |rows| {
            rows := rows[..limit];
          }
      }
    }

    method ReverseSeq<T>(s: seq<T>) returns (r: seq<T>)
      ensures r == Reversed(s)
    {
      if s == [] {
        return [];
      }
      var a := new T[|s|](i requires 0 <= i < |s| => s[i]);
      assert a[..] == s;
      ReverseInPlace(a);
      r := a[..];
    }

    method ExecuteScan(table: Name, alias: Name) returns (rows: seq<Row>)
      requires table in tables
      ensures rows == ScanRows(engine.data, tables[table], alias)
    {
      var keys := engine.PrefixScan([tables[table]]);
      rows := [];
      for i := 0 to |keys|
        invariant rows == CellRows(engine.data, alias, keys[..i])
      {
        assert keys[..i + 1][..i] == keys[..i];
        if keys[i] in engine.data && engine.data[keys[i]].RowCell? {
          rows := rows + [Aliased(engine.data[keys[i]].row, alias)];
        }
      }
      assert keys[..|keys|] == keys;
    }

    method FetchRows(prefix: Byte, alias: Name, ids: seq<Key>) returns (rows: seq<Row>)
      ensures rows == Fetch(engine.data, prefix, alias, ids)
    {
      var seen: set<Key> := {};
      rows := [];
      for i := 0 to |ids|
        invariant seen == set id | id in ids[..i]
        invariant rows == Fetch(engine.data, prefix, alias, ids[..i])
      {
        assert ids[..i + 1] == ids[..i] + [ids[i]];
        if ids[i] !in seen {
          seen := seen + {ids[i]};
          var cell := engine.Get(EncodeKey(prefix, ids[i]));
          if cell.Some? && cell.value.RowCell? {
            rows := rows + [Aliased(cell.value.row, alias)];
          }
        }
      }
      assert ids[..|ids|] == ids;
    }

    method Keep(e: Expr, all: seq<Row>) returns (rows: seq<Row>)
      ensures rows == FilterRows(sem, e, all)
    {
      rows := [];
      for i := 0 to |all|
        invariant rows == FilterRows(sem, e, all[..i])
      {
        assert all[..i + 1][..i] == all[..i];
        if EvalBool(sem, e, all[i]) {
          rows := rows + [all[i]];
        }
      }
      assert all[..|all|] == all;
    }

    method ExecuteProject(columns: seq<Column>, all: seq<Row>) returns (rows: seq<Row>)
      ensures rows == ProjectRows(sem, text, columns, all)
    {
      if IsStar(columns) {
        return all;
      }
      rows := [];
      for i := 0 to |all|
        invariant rows == ProjectRows(sem, text, columns, all[..i])
      {
        assert all[..i + 1][..i] == all[..i];
        var row := ProjectOne(columns, all[i]);
        rows := rows + [row];
      }
      assert all[..|all|] == all;
    }

    method ProjectOne(columns: seq<Column>, row: Row) returns (newRow: Row)
      ensures newRow == ProjectRow(sem, text, columns, row)
    {
      newRow := map[];
      for j := 0 to |columns|
        invariant newRow == ProjectRow(sem, text, columns[..j], row)
      {
        assert columns[..j + 1][..j] == columns[..j];
        newRow := newRow[ColumnName(text, columns[j]) := EvalExpr(sem, columns[j].expr, row)];
      }
      assert columns[..|columns|] == columns;
    }

    // ---- grouping ----

    method ExecuteAggregate(columns: seq<Column>, groupBy: seq<Expr>, having: Option<Expr>, all: seq<Row>) returns (rows: seq<Row>)
      ensures rows == Aggregated(sem, text, columns, groupBy, having, all)
    {
      if groupBy == [] {
        var row := ComputeAggregates(columns, all);
        return [row];
      }
      var groups := CollectGroups(groupBy, all);
      GroupsAreOk(sem, text, groupBy, all);
      rows := [];
      for i := 0 to |groups.order|
        invariant rows == GroupResults(sem, text, columns, groupBy, having, groups, i)
      {
        var groupRows := groups.rows[groups.order[i]];
        var row := ComputeAggregates(columns, groupRows);
        row := AddGroupColumns(groupBy, groupRows[0], row);
        if having.None? || EvalBool(sem, having.value, row) {
          rows := rows + [row];
        }
      }
    }

    method CollectGroups(groupBy: seq<Expr>, all: seq<Row>) returns (groups: Groups)
      ensures groups == GroupsOf(sem, text, groupBy, all)
    {
      var order, members := [], map[];
      for i := 0 to |all|
        invariant Groups(order, members) == GroupsOf(sem, text, groupBy, all[..i])
      {
        assert all[..i + 1][..i] == all[..i];
        var key := GroupKey(sem, text, groupBy, all[i]);
        if key !in members {
          order := order + [key];
          members := members[key := [all[i]]];
        } else {
          members := members[key := members[key] + [all[i]]];
        }
      }
      assert all[..|all|] == all;
      groups := Groups(order, members);
    }

    method ComputeAggregates(columns: seq<Column>, all: seq<Row>) returns (row: Row)
      ensures row == AggregateRow(sem, text, columns, all)
    {
      row := map[];
      for j := 0 to |columns|
        invariant row == AggregateRow(sem, text, columns[..j], all)
      {
        assert columns[..j + 1][..j] == columns[..j];
        var name := ColumnName(text, columns[j]);
        if columns[j].aggregate {
          var v := text.aggregate(columns[j], all);
          if v.Some? {
            row := row[name := v.value];
          }
        } else if all != [] {
          row := row[name := EvalExpr(sem, columns[j].expr, all[0])];
        }
      }
      assert columns[..|columns|] == columns;
    }

    method AddGroupColumns(groupBy: seq<Expr>, first: Row, before: Row) returns (row: Row)
      ensures row == WithGroup(sem, text, groupBy, first, before)
    {
      row := before;
      for j := 0 to |groupBy|
        invariant row == WithGroup(sem, text, groupBy[..j], first, before)
      {
        assert groupBy[..j + 1][..j] == groupBy[..j];
        if groupBy[j].Ident? {
          row := row[text.name(groupBy[j]) := EvalExpr(sem, groupBy[j], first)];
        }
      }
      assert groupBy[..|groupBy|] == groupBy;
    }

    // ---- writing one row ----

    /** The body of executeInsert's loop: a taken id or a clash in a unique index stops it. */
    method InsertOne(table: Name, row: Row, id: Key) returns (ok: bool)
      requires Valid() && table in tables && GoodData(tables, engine.data)
      modifies engine
      ensures Valid() && indexes.byName == old(indexes.byName)
      ensures State() == Do(sem.env, tables, old(State()), Insert(table, id, Stored(sem.env, row)))
      ensures ok <==> RowAt(tables, old(State()), table, id).None?
                      && !Rejected(sem.env, old(engine.data), indexes.byName, table, row, id)
      ensures !ok ==> State() == old(State())
    {
      var key := EncodeKey(tables[table], id);
      ghost var stored := Stored(sem.env, row);
      StoredSameWrites(sem.env, engine.data, indexes.byName, table, row, id);
      TakenIsRow(tables, engine.data, table, id);
      var there := engine.Get(key);
      if there.Some? {
        return false;
      }
      var ops;
      ok, ops := indexes.InsertRowOps(table, row, id);
      if !ok {
        return;
      }
      InsertedIs(sem.env, indexes.byName, engine.data, tables[table], table, id, stored, ops);
      engine.BatchWrite([Put(key, RowCell(Stored(sem.env, row)))] + ops);
    }

    method UpdateOne(table: Name, oldRow: Row, newRow: Row, id: Key) returns (ok: bool)
      requires Valid() && table in tables && RowAt(tables, State(), table, id) == Some(oldRow)
      modifies engine
      ensures Valid() && indexes.byName == old(indexes.byName)
      ensures State() == Do(sem.env, tables, old(State()), Update(table, id, Stored(sem.env, newRow)))
      ensures ok <==> !Rejected(sem.env, old(engine.data), indexes.byName, table, newRow, id)
      ensures !ok ==> State() == old(State())
    {
      var key := EncodeKey(tables[table], id);
      StoredSameWrites(sem.env, engine.data, indexes.byName, table, newRow, id);
      var ops;
      ok, ops := indexes.UpdateRowOps(table, oldRow, newRow, id);
      if !ok {
        return;
      }
      ghost var base := engine.data[key := RowCell(Stored(sem.env, newRow))];
      ApplyAppend(engine.data, [Put(key, RowCell(Stored(sem.env, newRow)))], ops);
      FirstPut(engine.data, key, RowCell(Stored(sem.env, newRow)));
      assert Apply(base, ops) == WithAll(base - TableKeys(sem.env, indexes.byName, table, oldRow, id),
                                         TableKeys(sem.env, indexes.byName, table, newRow, id), Mark);
      engine.BatchWrite([Put(key, RowCell(Stored(sem.env, newRow)))] + ops);
    }

    method DeleteOne(table: Name, row: Row, id: Key)
      requires Valid() && table in tables && RowAt(tables, State(), table, id) == Some(row)
      modifies engine
      ensures Valid() && indexes.byName == old(indexes.byName)
      ensures State() == Do(sem.env, tables, old(State()), Write.Delete(table, id))
    {
      var key := EncodeKey(tables[table], id);
      var ops := indexes.DeleteRowOps(table, row, id);
      ApplyAppend(engine.data, [WriteOp.Delete(key)], ops);
      FirstDelete(engine.data, key);
      AllDeletesApplied(engine.data - {key}, ops, TableKeys(sem.env, indexes.byName, table, row, id));
      NothingAdded(engine.data - {key} - TableKeys(sem.env, indexes.byName, table, row, id));
      engine.BatchWrite([WriteOp.Delete(key)] + ops);
    }

    // ---- statements ----

    /** A constraint of the table or a unique index refuses the row. */
    ghost predicate Refused(db: Db, table: Name, row: Row, id: Key) {
      !check(table, row) || Rejected(sem.env, db.data, db.metas, table, row, id)
    }

    /** These are the ids of the rows that pass WHERE, each once. */
    ghost predicate Passing(db: Db, table: Name, where_: Option<Expr>, ids: seq<Key>)
      requires table in tables
    {
      var rows := RowsOf(db.data, tables[table]);
      Once(ids) && forall id :: id in ids <==> id in rows && (where_.Some? ==> EvalBool(sem, where_.value, rows[id]))
    }

    /** The rows of a table that pass WHERE, as UPDATE and DELETE read them before they write. */
    method ReadRows(table: Name, where_: Option<Expr>) returns (rows: seq<Row>)
      requires Valid() && table in tables && Inv(sem.env, tables, State())
      ensures rows == Shown(RowsOf(engine.data, tables[table]), [], WhereIds(sem, tables, State(), table, where_))
    {
      ScanIsShown(tables, engine.data, table, []);
      if where_.Some? {
        FilterIsChosen(sem, where_.value, RowsOf(engine.data, tables[table]), [], ScanIds(RowsOf(engine.data, tables[table])));
        rows := Execute(Filter(Scan(table, []), where_.value));
      } else {
        rows := Execute(Scan(table, []));
      }
    }

    /**
     One INSERT per row of values, an id generated where none is given.  The first row that a
     constraint, a taken id or a unique index refuses stops the statement; earlier rows stay.
     */
    method ExecuteInsert(table: Name, values: seq<Row>, generated: seq<Key>) returns (ok: bool, affected: nat)
      requires Valid() && Consistent(sem.env, tables, State()) && |generated| == |values|
      requires forall i | 0 <= i < |values| :: GoodRow(Prepared(values[i], generated[i]), IdIn(Prepared(values[i], generated[i])))
      modifies engine
      ensures Valid() && indexes.byName == old(indexes.byName) && Consistent(sem.env, tables, State())
      ensures table !in tables ==> !ok && State() == old(State())
      ensures table in tables ==>
                var ws := InsertWrites(sem.env, table, values, generated);
                affected <= |ws| && (ok <==> affected == |ws|) && State() == DoAll(sem.env, tables, old(State()), ws[..affected])
      ensures table in tables ==>
                exists ids :: |ids| == affected && TableInserted(sem.env, tables, old(State()), table, values, generated, ids, State())
      ensures table in tables && !ok ==>
                var row := Prepared(values[affected], generated[affected]);
                RowAt(tables, State(), table, IdIn(row)).Some? || Refused(State(), table, row, IdIn(row))
    {
      if table !in tables {
        return false, 0;
      }
      ghost var ws := InsertWrites(sem.env, table, values, generated);
      ok, affected := InsertValues(table, values, generated, ws);
      ghost var ids :| Inserting(sem.env, tables, old(State()), table, values, generated, ws, ids, affected, State());
      InsertingGood(sem.env, tables, old(State()), table, values, generated, ws, ids, affected, State());
    }

    method InsertValues(table: Name, values: seq<Row>, generated: seq<Key>, ghost ws: seq<Write>) returns (ok: bool, affected: nat)
      requires Valid() && Consistent(sem.env, tables, State()) && table in tables && |generated| == |values| == |ws|
      requires forall i | 0 <= i < |values| :: GoodRow(Prepared(values[i], generated[i]), IdIn(Prepared(values[i], generated[i])))
      requires forall i | 0 <= i < |values| ::
                 ws[i] == Insert(table, IdIn(Prepared(values[i], generated[i])), Stored(sem.env, Prepared(values[i], generated[i])))
      modifies engine
      ensures Valid() && indexes.byName == old(indexes.byName)
      ensures affected <= |values| && (ok <==> affected == |values|)
      ensures exists ids :: Inserting(sem.env, tables, old(State()), table, values, generated, ws, ids, affected, State())
      ensures !ok ==>
                var row := Prepared(values[affected], generated[affected]);
                RowAt(tables, State(), table, IdIn(row)).Some? || Refused(State(), table, row, IdIn(row))
    {
      affected, ok := 0, true;
      ghost var was := State();
      ghost var ids: seq<Key> := [];
      InsertingStart(sem.env, tables, was, table, values, generated, ws);
      while affected < |values|
        invariant affected <= |values| && Valid() && indexes.byName == old(indexes.byName)
        invariant Inserting(sem.env, tables, was, table, values, generated, ws, ids, affected, State())
      {
        var row := Prepared(values[affected], generated[affected]);
        ok := InsertNext(table, row, values, generated, ws, was, ids, affected);
        if !ok {
          return;
        }
        ids := ids + [IdIn(row)];
        affected := affected + 1;
      }
    }

    method InsertNext(table: Name, row: Row, ghost values: seq<Row>, ghost generated: seq<Key>, ghost ws: seq<Write>, ghost was: Db,
                      ghost ids: seq<Key>, ghost n: nat)
      returns (ok: bool)
      requires Valid() && table in tables && n < |values| == |generated| == |ws|
      requires row == Prepared(values[n], generated[n]) && GoodRow(row, IdIn(row))
      requires ws[n] == Insert(table, IdIn(row), Stored(sem.env, row))
      requires Inserting(sem.env, tables, was, table, values, generated, ws, ids, n, State())
      modifies engine
      ensures Valid() && indexes.byName == old(indexes.byName)
      ensures ok ==> Inserting(sem.env, tables, was, table, values, generated, ws, ids + [IdIn(row)], n + 1, State())
      ensures !ok ==> State() == old(State()) && (RowAt(tables, State(), table, IdIn(row)).Some? || Refused(State(), table, row, IdIn(row)))
    {
      if !check(table, row) {
        return false;
      }
      ghost var before := State();
      InsertingGood(sem.env, tables, was, table, values, generated, ws, ids, n, before);
      ok := InsertOne(table, row, IdIn(row));
      if ok {
        InsertRows(sem.env, tables, was, table, values, generated, ws, ids, n, before, row, State());
      }
    }

    /** One DELETE per row that passes WHERE. */
    method ExecuteDelete(table: Name, where_: Option<Expr>) returns (ok: bool, affected: nat)
      requires Valid() && Consistent(sem.env, tables, State())
      modifies engine
      ensures Valid() && indexes.byName == old(indexes.byName) && Consistent(sem.env, tables, State())
      ensures if table in tables then
                var ids := WhereIds(sem, tables, old(State()), table, where_);
                && ok && affected == |ids| && State() == DoAll(sem.env, tables, old(State()), DeleteWrites(table, ids))
                && Passing(old(State()), table, where_, ids) && TableDeleted(tables, old(State()), table, IdSet(ids), State())
              else
                !ok && State() == old(State())
    {
      if table !in tables {
        return false, 0;
      }
      var found := ReadRows(table, where_);
      ghost var was, ids := State(), WhereIds(sem, tables, State(), table, where_);
      WritesStart(sem, tables, was, table, where_, DeleteWrites(table, ids));
      WhereIdsAre(sem, tables, was, table, where_);
      ghost var ws := DeleteWrites(table, ids);
      DeletingStart(sem.env, tables, was, table, ids, found, ws);
      DeleteFound(table, found, ids, ws, was);
      AllDeleted(sem.env, tables, was, table, ids, found, ws, State());
      ok, affected := true, |found|;
    }

    method DeleteFound(table: Name, found: seq<Row>, ghost ids: seq<Key>, ghost ws: seq<Write>, ghost was: Db)
      requires Valid() && |found| == |ids| == |ws| && Deleting(sem.env, tables, was, table, ids, found, ws, 0, State())
      requires forall i | 0 <= i < |ws| :: ws[i] == Write.Delete(table, ids[i])
      modifies engine
      ensures Valid() && indexes.byName == old(indexes.byName)
      ensures Deleting(sem.env, tables, was, table, ids, found, ws, |ids|, State())
    {
      for i := 0 to |found|
        invariant Valid() && indexes.byName == old(indexes.byName)
        invariant Deleting(sem.env, tables, was, table, ids, found, ws, i, State())
      {
        DeleteNext(table, found[i], ids, found, ws, was, i);
      }
    }

    method DeleteNext(table: Name, row: Row, ghost ids: seq<Key>, ghost found: seq<Row>, ghost ws: seq<Write>, ghost was: Db, ghost n: nat)
      requires Valid() && n < |ids| == |found| == |ws| && row == found[n] && ws[n] == Write.Delete(table, ids[n])
      requires Deleting(sem.env, tables, was, table, ids, found, ws, n, State())
      modifies engine
      ensures Valid() && indexes.byName == old(indexes.byName)
      ensures Deleting(sem.env, tables, was, table, ids, found, ws, n + 1, State())
    {
      ghost var before := State();
      NextRow(sem.env, tables, was, table, ids, found, ws, n, before);
      DeleteOne(table, row, row[ID].s);
      DeleteStep(sem.env, tables, was, table, ids, found, ws, n, before, State());
    }

    /**
     One UPDATE per row that passes WHERE, in key order.  The first row that a constraint or a
     unique index refuses stops the statement; it and the rows after it are unchanged.
     */
    method ExecuteUpdate(table: Name, sets: seq<(Name, Expr)>, where_: Option<Expr>) returns (ok: bool, affected: nat)
      requires Valid() && Consistent(sem.env, tables, State()) && KeepsId(sets)
      modifies engine
      ensures Valid() && indexes.byName == old(indexes.byName) && Consistent(sem.env, tables, State())
      ensures table !in tables ==> !ok && State() == old(State())
      ensures table in tables ==>
                var ws := UpdatesOf(sem, tables, old(State()), table, sets, where_);
                affected <= |ws| && (ok <==> affected == |ws|) && State() == DoAll(sem.env, tables, old(State()), ws[..affected])
      ensures table in tables ==>
                var ids := WhereIds(sem, tables, old(State()), table, where_);
                && affected <= |ids| && Passing(old(State()), table, where_, ids)
                && TableUpdated(sem, tables, old(State()), table, sets, IdSet(ids[..affected]), State())
      ensures table in tables && !ok ==>
                var ids := WhereIds(sem, tables, old(State()), table, where_);
                Refused(State(), table, Assigned(sem, sets, RowsOf(old(engine.data), tables[table])[ids[affected]]), ids[affected])
    {
      if table !in tables {
        return false, 0;
      }
      var found := ReadRows(table, where_);
      ghost var was, ids := State(), WhereIds(sem, tables, State(), table, where_);
      ghost var ws := UpdatesOf(sem, tables, was, table, sets, where_);
      WritesStart(sem, tables, was, table, where_, ws);
      WhereIdsAre(sem, tables, was, table, where_);
      ok, affected := UpdateFound(table, sets, found, ids, ws, was);
    }

    method UpdateFound(table: Name, sets: seq<(Name, Expr)>, found: seq<Row>, ghost ids: seq<Key>, ghost ws: seq<Write>, ghost was: Db)
      returns (ok: bool, affected: nat)
      requires Valid() && State() == was && KeepsId(sets) && Written(sem.env, tables, was, table, ids, found, ws, 0, State())
      requires forall i | 0 <= i < |ws| :: ws[i] == Update(table, ids[i], Stored(sem.env, Assigned(sem, sets, found[i])))
      modifies engine
      ensures Valid() && indexes.byName == old(indexes.byName) && Consistent(sem.env, tables, State())
      ensures affected <= |ws| && (ok <==> affected == |ws|) && State() == DoAll(sem.env, tables, was, ws[..affected])
      ensures affected <= |ids| && TableUpdated(sem, tables, was, table, sets, IdSet(ids[..affected]), State())
      ensures !ok ==> Refused(State(), table, Assigned(sem, sets, found[affected]), ids[affected])
    {
      affected, ok := 0, true;
      NothingUpdated(sem, tables, was, table, sets, ids);
      assert Updating(sem, tables, was, table, sets, ids, found, ws, 0, State());
      while affected < |found|
        invariant affected <= |found| == |ids| == |ws| && Valid() && indexes.byName == old(indexes.byName)
        invariant Updating(sem, tables, was, table, sets, ids, found, ws, affected, State())
      {
        ok := UpdateNext(table, sets, found[affected], ids, found, ws, was, affected);
        if !ok {
          return;
        }
        affected := affected + 1;
      }
    }

    method UpdateNext(table: Name, sets: seq<(Name, Expr)>, row: Row, ghost ids: seq<Key>, ghost found: seq<Row>, ghost ws: seq<Write>,
                      ghost was: Db, ghost n: nat)
      returns (ok: bool)
      requires Valid() && KeepsId(sets) && n < |ids| == |found| == |ws| && row == found[n]
      requires ws[n] == Update(table, ids[n], Stored(sem.env, Assigned(sem, sets, row)))
      requires Updating(sem, tables, was, table, sets, ids, found, ws, n, State())
      modifies engine
      ensures Valid() && indexes.byName == old(indexes.byName)
      ensures ok ==> Updating(sem, tables, was, table, sets, ids, found, ws, n + 1, State())
      ensures !ok ==> State() == old(State()) && Refused(State(), table, Assigned(sem, sets, row), ids[n])
    {
      ghost var before := State();
      NextRow(sem.env, tables, was, table, ids, found, ws, n, before);
      var newRow := Assigned(sem, sets, row);
      if !check(table, newRow) {
        return false;
      }
      ok := UpdateOne(table, row, newRow, row[ID].s);
      if ok {
        UpdateStep(sem, tables, was, table, sets, ids, found, ws, n, before, State());
      }
    }

    /** Creates the index, fills it from the table, and drops it again when the rows clash. */
    method ExecuteCreateIndex(meta: Meta, ifNotExists: bool) returns (ok: bool)
      requires Valid() && Consistent(sem.env, tables, State())
      modifies engine, indexes
      ensures Valid()
      ensures State() == Do(sem.env, tables, old(State()), CreateIndex(meta, ifNotExists))
      ensures ok <==>
                && meta.table in tables && !CreatesNothing(meta) && (meta.name in old(indexes.byName) ==> ifNotExists)
                && !RowsClash(sem.env, LiveMeta(old(State()), meta), RowsOf(old(engine.data), tables[meta.table]))
    {
      if meta.table !in tables {
        return false;
      }
      if meta.unique && meta.kind == Inverted {
        return false;
      }
      ghost var was := State();
      ok := indexes.Create(meta, ifNotExists);
      if !ok {
        return;
      }
      ok := Backfill(meta.name, meta.table, was);
      CreatedIs(sem.env, tables, was, meta, ifNotExists);
    }

    method Backfill(name: Name, table: Name, ghost was: Db) returns (ok: bool)
      requires Valid() && name in indexes.byName && table in tables && Inv(sem.env, tables, was) && was.data == engine.data
      modifies engine, indexes
      ensures Valid()
      ensures var live, rows := old(indexes.byName)[name], RowsOf(was.data, tables[table]);
              && (ok <==> !RowsClash(sem.env, live, rows))
              && State() == if ok then Db(WithAll(was.data, AllEntries(sem.env, live, rows), Mark), old(indexes.byName))
                            else Db(Cleared(was.data, live), old(indexes.byName) - {name})
    {
      var rows, ids := ReadTable(table, was);
      BackfillIs(sem.env, indexes.byName[name], RowsOf(was.data, tables[table]), rows, ids);
      ok := indexes.RebuildFromRows(indexes.byName[name], rows, ids);
      if !ok {
        var _ := indexes.Drop(name, true);
      }
    }

    /** The rows of a table and their ids, as the backfill collects them. */
    method ReadTable(table: Name, ghost db: Db) returns (rows: seq<Row>, ids: seq<Key>)
      requires Valid() && table in tables && Inv(sem.env, tables, db) && db.data == engine.data
      ensures ids == ScanIds(RowsOf(engine.data, tables[table]))
      ensures rows == Shown(RowsOf(engine.data, tables[table]), [], ids)
    {
      ScanIsShown(tables, engine.data, table, []);
      rows := ExecuteScan(table, []);
      ghost var scanned := ScanIds(RowsOf(engine.data, tables[table]));
      RowsNameThemselves(sem.env, tables, db, table, scanned, rows);
      ids := IdsOfRows(rows, scanned);
    }

    method IdsOfRows(rows: seq<Row>, ghost scanned: seq<Key>) returns (ids: seq<Key>)
      requires |rows| == |scanned| && forall i | 0 <= i < |rows| :: GoodRow(rows[i], scanned[i])
      ensures ids == scanned
    {
      ids := [];
      for i := 0 to |rows|
        invariant ids == scanned[..i]
      {
        var name: Value := rows[i][ID];
        ids := ids + [name.s];
      }
    }

    method ExecuteDropIndex(name: Name, ifExists: bool) returns (ok: bool)
      requires Valid()
      modifies engine, indexes
      ensures Valid() && (ok <==> name in old(indexes.byName) || ifExists)
      ensures State() == Do(sem.env, tables, old(State()), DropIndex(name))
    {
      ghost var metas := indexes.byName;
      ok := indexes.Drop(name, ifExists);
      assert name !in metas ==> metas - {name} == metas;
    }
  }

  // ---- what the statements rely on ----

  ghost function UpdatesOf(sem: Semantics, tables: Tables, db: Db, table: Name, sets: seq<(Name, Expr)>, where_: Option<Expr>): seq<Write>
    requires table in tables
  {
    UpdateWrites(sem, table, sets, RowsOf(db.data, tables[table]), WhereIds(sem, tables, db, table, where_))
  }

  ghost predicate Inserted(env: Env, tables: Tables, was: Db, ws: seq<Write>, n: nat, db: Db) {
    n <= |ws| && Consistent(env, tables, db) && db == DoAll(env, tables, was, ws[..n])
  }

  lemma InsertStep(env: Env, tables: Tables, was: Db, ws: seq<Write>, n: nat, db: Db, table: Name, row: Row)
    requires Inserted(env, tables, was, ws, n, db) && n < |ws| && GoodRow(row, IdIn(row))
    requires ws[n] == Insert(table, IdIn(row), Stored(env, row))
    ensures Inserted(env, tables, was, ws, n + 1, Do(env, tables, db, ws[n]))
  {
    NextWrite(env, tables, was, ws[..n], db, ws[n]);
    assert ws[..n + 1] == ws[..n] + [ws[n]];
  }

  /** The first n writes are done; the rows of the others are still as they were found. */
  ghost predicate Written(env: Env, tables: Tables, was: Db, table: Name, ids: seq<Key>, found: seq<Row>,
                          ws: seq<Write>, n: nat, db: Db)
  {
    && |ws| == |ids| == |found| && n <= |ws| && Once(ids) && table in tables
    && Consistent(env, tables, db)
    && db == DoAll(env, tables, was, ws[..n])
    && forall j | n <= j < |ids| :: RowAt(tables, db, table, ids[j]) == Some(found[j])
  }

  lemma WritesStart(sem: Semantics, tables: Tables, was: Db, table: Name, where_: Option<Expr>, ws: seq<Write>)
    requires table in tables && Consistent(sem.env, tables, was)
    requires |ws| == |WhereIds(sem, tables, was, table, where_)|
    ensures var rows, ids := RowsOf(was.data, tables[table]), WhereIds(sem, tables, was, table, where_);
            Written(sem.env, tables, was, table, ids, Shown(rows, [], ids), ws, 0, was)
  {
    WhereOnce(sem, tables, was, table, where_);
    assert ws[..0] == [];
  }

  lemma NextRow(env: Env, tables: Tables, was: Db, table: Name, ids: seq<Key>, found: seq<Row>, ws: seq<Write>, n: nat, db: Db)
    requires Written(env, tables, was, table, ids, found, ws, n, db) && n < |ids|
    ensures table in tables && RowAt(tables, db, table, ids[n]) == Some(found[n]) && GoodRow(found[n], ids[n])
  {
    RowNamesItself(env, tables, db, table, ids[n]);
  }

  lemma WritesStep(env: Env, tables: Tables, was: Db, table: Name, ids: seq<Key>, found: seq<Row>, ws: seq<Write>, n: nat, db: Db)
    requires Written(env, tables, was, table, ids, found, ws, n, db) && n < |ids| && Proper(db, ws[n])
    requires ws[n] == Write.Delete(table, ids[n]) || (ws[n].Update? && ws[n].table == table && ws[n].id == ids[n])
    ensures Written(env, tables, was, table, ids, found, ws, n + 1, Do(env, tables, db, ws[n]))
  {
    NextWrite(env, tables, was, ws[..n], db, ws[n]);
    assert ws[..n + 1] == ws[..n] + [ws[n]];
    OthersStay(env, tables, db, table, ids, n, ws[n]);
  }

  lemma UpdateIsProper(sem: Semantics, sets: seq<(Name, Expr)>, db: Db, row: Row, id: Key, w: Write)
    requires KeepsId(sets) && GoodRow(row, id)
    requires w.Update? && w.id == id && w.row == Stored(sem.env, Assigned(sem, sets, row))
    ensures Proper(db, w)
  {
    AssignedKeepsId(sem, sets, row);
  }

  /** The first n updates are done. */
  ghost predicate Updating(sem: Semantics, tables: Tables, was: Db, table: Name, sets: seq<(Name, Expr)>, ids: seq<Key>, found: seq<Row>,
                           ws: seq<Write>, n: nat, db: Db)
  {
    var done :=
      && Written(sem.env, tables, was, table, ids, found, ws, n, db)
      && TableUpdated(sem, tables, was, table, sets, IdSet(ids[..n]), db);
    done
  }

  /** The first n deletions are done. */
  ghost predicate Deleting(env: Env, tables: Tables, was: Db, table: Name, ids: seq<Key>, found: seq<Row>, ws: seq<Write>, n: nat, db: Db) {
    var done := Written(env, tables, was, table, ids, found, ws, n, db) && TableDeleted(tables, was, table, IdSet(ids[..n]), db);
    done
  }

  lemma DeletingStart(env: Env, tables: Tables, was: Db, table: Name, ids: seq<Key>, found: seq<Row>, ws: seq<Write>)
    requires Written(env, tables, was, table, ids, found, ws, 0, was)
    ensures Deleting(env, tables, was, table, ids, found, ws, 0, was)
  {
    NothingDeleted(tables, was, table, ids);
  }

  lemma AllDeleted(env: Env, tables: Tables, was: Db, table: Name, ids: seq<Key>, found: seq<Row>, ws: seq<Write>, db: Db)
    requires Deleting(env, tables, was, table, ids, found, ws, |ids|, db)
    ensures table in tables && Consistent(env, tables, db) && db == DoAll(env, tables, was, ws) && TableDeleted(tables, was, table, IdSet(ids), db)
  {
    assert |ws| == |ids|;
    assert ws[..|ids|] == ws && ids[..|ids|] == ids;
  }

  lemma UpdateStep(sem: Semantics, tables: Tables, was: Db, table: Name, sets: seq<(Name, Expr)>, ids: seq<Key>, found: seq<Row>,
                   ws: seq<Write>, n: nat, db: Db, now: Db)
    requires Updating(sem, tables, was, table, sets, ids, found, ws, n, db) && n < |ids| && KeepsId(sets)
    requires var newRow := Assigned(sem, sets, found[n]);
             && ws[n] == Update(table, ids[n], Stored(sem.env, newRow)) && now == Do(sem.env, tables, db, ws[n])
             && !Rejected(sem.env, db.data, db.metas, table, newRow, ids[n])
    ensures Updating(sem, tables, was, table, sets, ids, found, ws, n + 1, now)
  {
    NextRow(sem.env, tables, was, table, ids, found, ws, n, db);
    StoredSameWrites(sem.env, db.data, db.metas, table, Assigned(sem, sets, found[n]), ids[n]);
    OneMoreId(ids, n);
    UpdatedMore(sem, tables, was, table, sets, IdSet(ids[..n]), ids[n], db, found[n], now);
    UpdateIsProper(sem, sets, db, found[n], ids[n], ws[n]);
    WritesStep(sem.env, tables, was, table, ids, found, ws, n, db);
  }

  lemma DeleteStep(env: Env, tables: Tables, was: Db, table: Name, ids: seq<Key>, found: seq<Row>, ws: seq<Write>, n: nat, db: Db, now: Db)
    requires Deleting(env, tables, was, table, ids, found, ws, n, db) && n < |ids|
    requires ws[n] == Write.Delete(table, ids[n]) && now == Do(env, tables, db, ws[n])
    ensures Deleting(env, tables, was, table, ids, found, ws, n + 1, now)
  {
    DeletedMore(env, tables, was, table, IdSet(ids[..n]), ids[n], db, Some(found[n]), now);
    OneMoreId(ids, n);
    WritesStep(env, tables, was, table, ids, found, ws, n, db);
  }

  /** The first n insertions are done, under these ids. */
  ghost predicate Inserting(env: Env, tables: Tables, was: Db, table: Name, values: seq<Row>, generated: seq<Key>, ws: seq<Write>,
                            ids: seq<Key>, n: nat, db: Db)
  {
    var done :=
      && Inserted(env, tables, was, ws, n, db) && table in tables && |generated| == |values|
      && |ids| == n && TableInserted(env, tables, was, table, values, generated, ids, db);
    done
  }

  lemma InsertingStart(env: Env, tables: Tables, was: Db, table: Name, values: seq<Row>, generated: seq<Key>, ws: seq<Write>)
    requires Consistent(env, tables, was) && table in tables && |generated| == |values|
    ensures Inserting(env, tables, was, table, values, generated, ws, [], 0, was)
  {
    assert ws[..0] == [];
    NothingInserted(env, tables, was, table, values, generated);
  }

  lemma InsertingGood(env: Env, tables: Tables, was: Db, table: Name, values: seq<Row>, generated: seq<Key>, ws: seq<Write>,
                      ids: seq<Key>, n: nat, db: Db)
    requires Inserting(env, tables, was, table, values, generated, ws, ids, n, db)
    ensures GoodData(tables, db.data)
  {
  }

  lemma InsertRows(env: Env, tables: Tables, was: Db, table: Name, values: seq<Row>, generated: seq<Key>, ws: seq<Write>,
                   ids: seq<Key>, n: nat, db: Db, row: Row, now: Db)
    requires Inserting(env, tables, was, table, values, generated, ws, ids, n, db) && n < |values| == |ws|
    requires row == Prepared(values[n], generated[n]) && GoodRow(row, IdIn(row))
    requires RowAt(tables, db, table, IdIn(row)).None? && !Rejected(env, db.data, db.metas, table, row, IdIn(row))
    requires ws[n] == Insert(table, IdIn(row), Stored(env, row)) && now == Do(env, tables, db, ws[n])
    ensures Inserting(env, tables, was, table, values, generated, ws, ids + [IdIn(row)], n + 1, now)
  {
    InsertStep(env, tables, was, ws, n, db, table, row);
    StoredSameWrites(env, db.data, db.metas, table, row, IdIn(row));
    InsertedMore(env, tables, was, table, values, generated, ids, db, row, now);
  }

  lemma RowNamesItself(env: Env, tables: Tables, db: Db, table: Name, id: Key)
    requires Inv(env, tables, db) && RowAt(tables, db, table, id).Some?
    ensures GoodRow(RowAt(tables, db, table, id).value, id)
  {
    var k := EncodeKey(tables[table], id);
    assert k in db.data && k[0] == tables[table] && k[1..] == id;
  }

  lemma RowsNameThemselves(env: Env, tables: Tables, db: Db, table: Name, ids: seq<Key>, rows: seq<Row>)
    requires Inv(env, tables, db) && table in tables && AllIn(RowsOf(db.data, tables[table]), ids)
    requires rows == Shown(RowsOf(db.data, tables[table]), [], ids)
    ensures forall i | 0 <= i < |rows| :: GoodRow(rows[i], ids[i])
  {
    forall i | 0 <= i < |rows| ensures GoodRow(rows[i], ids[i]) {
      RowNamesItself(env, tables, db, table, ids[i]);
    }
  }

  lemma NextWrite(env: Env, tables: Tables, was: Db, ws: seq<Write>, db: Db, w: Write)
    requires db == DoAll(env, tables, was, ws) && Consistent(env, tables, db) && Proper(db, w)
    ensures Do(env, tables, db, w) == DoAll(env, tables, was, ws + [w])
    ensures Consistent(env, tables, Do(env, tables, db, w))
  {
    DoAllSnoc(env, tables, was, ws, w);
    WriteKeeps(env, tables, db, w);
  }

  /** Writing one row leaves the others as they are. */
  lemma OtherStays(env: Env, tables: Tables, db: Db, table: Name, id: Key, w: Write, other: Key)
    requires GoodTables(tables) && table in tables && id != other
    requires w == Write.Delete(table, id) || (w.Update? && w.table == table && w.id == id)
    ensures RowAt(tables, Do(env, tables, db, w), table, other) == RowAt(tables, db, table, other)
  {
    var was := RowAt(tables, db, table, id);
    var now := if w.Update? then Some(w.row) else None;
    AfterChanges(env, tables, db, table, id, was, now);
    RowsAfter(tables, db.data, After(env, tables, db, table, id, was, now).data, table, id, now, table);
  }

  lemma OthersStay(env: Env, tables: Tables, db: Db, table: Name, ids: seq<Key>, i: nat, w: Write)
    requires GoodTables(tables) && table in tables && Once(ids) && i < |ids|
    requires w == Write.Delete(table, ids[i]) || (w.Update? && w.table == table && w.id == ids[i])
    ensures forall j | i < j < |ids| :: RowAt(tables, Do(env, tables, db, w), table, ids[j]) == RowAt(tables, db, table, ids[j])
  {
    forall j | i < j < |ids| ensures RowAt(tables, Do(env, tables, db, w), table, ids[j]) == RowAt(tables, db, table, ids[j]) {
      OtherStays(env, tables, db, table, ids[i], w, ids[j]);
    }
  }

  /** The place of a row in the list of all rows. */
  ghost function Place(table: Rows, id: Key): (i: nat)
    requires id in table
    ensures i < |ScanIds(table)| && ScanIds(table)[i] == id
  {
    assert id in table.Keys && id in ScanIds(table);
    var i :| 0 <= i < |ScanIds(table)| && ScanIds(table)[i] == id;
    i
  }

  /** Filling from the list of all rows is filling from the table. */
  lemma BackfillIs(env: Env, meta: Meta, table: Rows, rows: seq<Row>, ids: seq<Key>)
    requires ids == ScanIds(table) && rows == Shown(table, [], ids)
    ensures BackfillKeys(env, meta, rows, ids) == AllEntries(env, meta, table)
    ensures BatchClash(env, meta, rows, ids) <==> RowsClash(env, meta, table)
  {
    forall k | k in AllEntries(env, meta, table) ensures k in BackfillKeys(env, meta, rows, ids) {
      var id :| id in table && k in RowKeys(env, meta, table[id], id);
      assert rows[Place(table, id)] == table[id];
    }
    forall k | k in BackfillKeys(env, meta, rows, ids) ensures k in AllEntries(env, meta, table) {
      var i :| 0 <= i < |rows| && k in RowKeys(env, meta, rows[i], ids[i]);
      assert ids[i] in table && rows[i] == table[ids[i]];
    }
    if RowsClash(env, meta, table) {
      TableClashInList(env, meta, table, rows, ids);
    }
    if BatchClash(env, meta, rows, ids) {
      ListClashInTable(env, meta, table, rows, ids);
    }
  }

  lemma TableClashInList(env: Env, meta: Meta, table: Rows, rows: seq<Row>, ids: seq<Key>)
    requires ids == ScanIds(table) && rows == Shown(table, [], ids) && RowsClash(env, meta, table)
    ensures BatchClash(env, meta, rows, ids)
  {
    if meta.kind == Inverted && exists a :: a in table && meta.column in table[a] {
      var a :| a in table && meta.column in table[a];
      assert meta.column in rows[Place(table, a)];
    } else {
      var a, b :| a in table && b in table && a != b && SameEncoded(env, meta, table[a], table[b]);
      PairClashes(env, meta, rows, ids, Place(table, a), Place(table, b));
    }
  }

  lemma PairClashes(env: Env, meta: Meta, rows: seq<Row>, ids: seq<Key>, i: nat, j: nat)
    requires |rows| == |ids| && i < |rows| && j < |rows| && ids[i] != ids[j] && meta.unique
    requires SameEncoded(env, meta, rows[i], rows[j])
    ensures BatchClash(env, meta, rows, ids)
  {
    assert SameEncoded(env, meta, rows[j], rows[i]);
  }

  lemma ListClashInTable(env: Env, meta: Meta, table: Rows, rows: seq<Row>, ids: seq<Key>)
    requires ids == ScanIds(table) && rows == Shown(table, [], ids) && BatchClash(env, meta, rows, ids)
    ensures RowsClash(env, meta, table)
  {
    forall i | 0 <= i < |rows| ensures ids[i] in table && rows[i] == table[ids[i]] {
    }
    ClashAmong(env, meta, table, rows, ids);
  }

  lemma ClashAmong(env: Env, meta: Meta, table: Rows, rows: seq<Row>, ids: seq<Key>)
    requires |rows| == |ids| && (forall i | 0 <= i < |rows| :: ids[i] in table && rows[i] == table[ids[i]])
    requires BatchClash(env, meta, rows, ids)
    ensures RowsClash(env, meta, table)
  {
    if meta.kind == Inverted && exists i :: 0 <= i < |rows| && meta.column in rows[i] {
      var i :| 0 <= i < |rows| && meta.column in rows[i];
      assert meta.column in table[ids[i]];
    } else {
      var i, j :| 0 <= i < j < |rows| && ids[i] != ids[j] && SameEncoded(env, meta, rows[i], rows[j]);
      assert SameEncoded(env, meta, table[ids[i]], table[ids[j]]);
    }
  }

  lemma TakenIsRow(tables: Tables, data: Data, table: Name, id: Key)
    requires GoodData(tables, data) && table in tables
    ensures EncodeKey(tables[table], id) in data <==> id in RowsOf(data, tables[table])
  {
    assert EncodeKey(tables[table], id)[0] == tables[table];
  }

  /** What creating an index that is not refused leaves behind. */
  lemma CreatedIs(env: Env, tables: Tables, was: Db, meta: Meta, ifNotExists: bool)
    requires meta.table in tables && !CreatesNothing(meta) && (meta.name in was.metas ==> ifNotExists)
    ensures var live, rows := LiveMeta(was, meta), RowsOf(was.data, tables[meta.table]);
            var metas := was.metas[meta.name := live];
            Do(env, tables, was, CreateIndex(meta, ifNotExists)) ==
            if RowsClash(env, live, rows) then Db(Cleared(was.data, live), metas - {meta.name})
            else Db(WithAll(was.data, AllEntries(env, live, rows), Mark), metas)
  {
    var live := LiveMeta(was, meta);
    assert Do(env, tables, was, CreateIndex(meta, ifNotExists)) == Created(env, tables, was, meta, ifNotExists);
    if RowsClash(env, live, RowsOf(was.data, tables[meta.table])) {
      assert was.metas[meta.name := live] - {meta.name} == was.metas - {meta.name};
    }
  }

  /** The batch of an INSERT. */
  lemma InsertedIs(env: Env, metas: Metas, data: Data, prefix: Byte, table: Name, id: Key, row: Row, ops: seq<Op>)
    requires AllPuts(ops, TableKeys(env, metas, table, row, id), Mark)
    ensures Apply(data, [Put(EncodeKey(prefix, id), RowCell(row))] + ops)
            == Replaced(env, metas, data, prefix, table, id, None, Some(row))
  {
    var base := data[EncodeKey(prefix, id) := RowCell(row)];
    ApplyAppend(data, [Put(EncodeKey(prefix, id), RowCell(row))], ops);
    FirstPut(data, EncodeKey(prefix, id), RowCell(row));
    AllPutsApplied(base, ops, TableKeys(env, metas, table, row, id), Mark);
    assert base - {} == base;
  }

  lemma FirstPut(data: Data, key: Key, cell: Cell)
    ensures Apply(data, [Put(key, cell)]) == data[key := cell]
  {
    var ops: seq<Op> := [Put(key, cell)];
    assert ops[..0] == [];
  }

  lemma FirstDelete(data: Data, key: Key)
    ensures Apply(data, [WriteOp.Delete(key)]) == data - {key}
  {
    var ops: seq<Op> := [WriteOp.Delete(key)];
    assert ops[..0] == [];
  }

  lemma NothingAdded(data: Data)
    ensures WithAll(data, {}, Mark) == data
  {
  }
}
