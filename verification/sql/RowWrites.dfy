/**
 Rows as INSERT, UPDATE and DELETE write them (internal/query/sql/executor.go): how a row is prepared and
 stored, the writes of a statement, and what they make of the rows of a table.
 */
module RowWrites {
  import opened Bytes
  import opened KeyEncode
  import opened Engine
  import opened Encoding
  import opened IndexKeys
  import opened IndexLookup
  import opened IndexManager
  import opened IndexUpkeep
  import opened Ast
  import opened Eval
  import opened Planner
  import opened Execute
  import opened PlanRows

  // ---- rows as they are written ----

  /** What reading a stored row gives back: int64 values have become binary64. */
  function Stored(env: Env, row: Row): Row {
    map c | c in row :: if row[c].Int? then Num(env.ofInt(row[c].n)) else row[c]
  }

  /** A stored row has the columns of the row, with values that compare with any value, and are indexed, as those of the row. */
  lemma StoredCompares(sem: Semantics, row: Row, c: Name, w: Value)
    ensures c in Stored(sem.env, row) <==> c in row
    ensures c in row ==>
              var v := Stored(sem.env, row)[c];
              && Compare(sem, v, w) == Compare(sem, row[c], w) && Compare(sem, w, v) == Compare(sem, w, row[c])
              && SameInIndex(v, row[c], sem.env.ofInt)
  {
  }

  lemma StoredSameKeys(env: Env, meta: Meta, row: Row, id: Key)
    ensures RowKeys(env, meta, Stored(env, row), id) == RowKeys(env, meta, row, id)
  {
  }

  lemma {:induction false} SameStartSameIds(meta: Meta, v: Value, w: Value, ofInt: OfInt, keys: seq<Key>)
    requires EncodeValue(v, ofInt) == EncodeValue(w, ofInt)
    ensures IdsOf(meta, Equal(v), ofInt, keys) == IdsOf(meta, Equal(w), ofInt, keys)
  {
    if keys != [] {
      SameStartSameIds(meta, v, w, ofInt, keys[..|keys| - 1]);
    }
  }

  lemma StoredSameClash(env: Env, data: Data, meta: Meta, row: Row, id: Key)
    ensures Clash(env, data, meta, Stored(env, row), id) <==> Clash(env, data, meta, row, id)
  {
    if meta.column in row {
      StoredSameLookup(env, data, meta, row[meta.column]);
    }
  }

  /** An integer is looked up as the number it is stored as. */
  lemma StoredSameLookup(env: Env, data: Data, meta: Meta, v: Value)
    ensures var w := if v.Int? then Num(env.ofInt(v.n)) else v;
            Lookup(data, meta, Equal(w), env.ofInt) == Lookup(data, meta, Equal(v), env.ofInt)
  {
    var w := if v.Int? then Num(env.ofInt(v.n)) else v;
    assert EncodeValue(w, env.ofInt) == EncodeValue(v, env.ofInt);
    SameStartSameIds(meta, v, w, env.ofInt, Scanned(data, SpanStart(meta, Equal(v), env.ofInt), SpanEnd(meta, Equal(v), env.ofInt)));
  }

  lemma StoredSameWrites(env: Env, data: Data, metas: Metas, table: Name, row: Row, id: Key)
    ensures TableKeys(env, metas, table, Stored(env, row), id) == TableKeys(env, metas, table, row, id)
    ensures Rejected(env, data, metas, table, Stored(env, row), id) <==> Rejected(env, data, metas, table, row, id)
  {
    forall n | n in metas
      ensures RowKeys(env, metas[n], Stored(env, row), id) == RowKeys(env, metas[n], row, id)
      ensures Clash(env, data, metas[n], Stored(env, row), id) <==> Clash(env, data, metas[n], row, id)
    {
      StoredSameKeys(env, metas[n], row, id);
      StoredSameClash(env, data, metas[n], row, id);
    }
  }

  /** UPDATE's assignments, each evaluated on the row as the earlier ones left it. */
  function Assigned(sem: Semantics, sets: seq<(Name, Expr)>, row: Row): Row {
    if sets == [] then row
    else
      var before := Assigned(sem, sets[..|sets| - 1], row);
      before[sets[|sets| - 1].0 := EvalExpr(sem, sets[|sets| - 1].1, before)]
  }

  predicate KeepsId(sets: seq<(Name, Expr)>) {
    forall i | 0 <= i < |sets| :: sets[i].0 != ID
  }

  lemma {:induction false} AssignedKeepsId(sem: Semantics, sets: seq<(Name, Expr)>, row: Row)
    requires KeepsId(sets) && ID in row
    ensures ID in Assigned(sem, sets, row) && Assigned(sem, sets, row)[ID] == row[ID]
  {
    if sets != [] {
      AssignedKeepsId(sem, sets[..|sets| - 1], row);
    }
  }

  /** A row without an id, or with an empty one, gets a generated id. */
  function Prepared(row: Row, generated: Key): Row {
    if ID !in row || row[ID] == Null || row[ID] == Str([]) then row[ID := Str(generated)] else row
  }

  function IdIn(row: Row): Key {
    if ID in row && row[ID].Str? then row[ID].s else []
  }

  ghost function InsertWrites(env: Env, table: Name, values: seq<Row>, generated: seq<Key>): (ws: seq<Write>)
    requires |generated| == |values|
    ensures |ws| == |values|
    ensures forall i | 0 <= i < |values| ::
              ws[i] == Insert(table, IdIn(Prepared(values[i], generated[i])), Stored(env, Prepared(values[i], generated[i])))
  {
    if values == [] then []
    else
      var row := Prepared(values[|values| - 1], generated[|values| - 1]);
      InsertWrites(env, table, values[..|values| - 1], generated[..|values| - 1]) + [Insert(table, IdIn(row), Stored(env, row))]
  }

  ghost function DeleteWrites(table: Name, ids: seq<Key>): (ws: seq<Write>)
    ensures |ws| == |ids| && forall i | 0 <= i < |ids| :: ws[i] == Write.Delete(table, ids[i])
  {
    if ids == [] then [] else DeleteWrites(table, ids[..|ids| - 1]) + [Write.Delete(table, ids[|ids| - 1])]
  }

  ghost function UpdateWrites(sem: Semantics, table: Name, sets: seq<(Name, Expr)>, rows: Rows, ids: seq<Key>): (ws: seq<Write>)
    requires AllIn(rows, ids)
    ensures |ws| == |ids|
    ensures forall i | 0 <= i < |ids| :: ws[i] == Update(table, ids[i], Stored(sem.env, Assigned(sem, sets, rows[ids[i]])))
  {
    if ids == [] then []
    else
      UpdateWrites(sem, table, sets, rows, ids[..|ids| - 1])
      + [Update(table, ids[|ids| - 1], Stored(sem.env, Assigned(sem, sets, rows[ids[|ids| - 1]])))]
  }

  lemma {:induction false} DoAllSnoc(env: Env, tables: Tables, db: Db, ws: seq<Write>, w: Write)
    ensures DoAll(env, tables, db, ws + [w]) == Do(env, tables, DoAll(env, tables, db, ws), w)
    decreases |ws|
  {
    if ws == [] {
      assert ws + [w] == [w];
    } else {
      assert (ws + [w])[1..] == ws[1..] + [w];
      DoAllSnoc(env, tables, Do(env, tables, db, ws[0]), ws[1..], w);
    }
  }

  /** The rows of a table that pass WHERE, in key order. */
  ghost function WhereIds(sem: Semantics, tables: Tables, db: Db, table: Name, where_: Option<Expr>): (ids: seq<Key>)
    requires table in tables
    ensures AllIn(RowsOf(db.data, tables[table]), ids)
  {
    var rows := RowsOf(db.data, tables[table]);
    if where_.Some? then Chosen(sem, where_.value, rows, [], ScanIds(rows)) else ScanIds(rows)
  }

  // ---- what the statements do to tables ----

  /** b is a with this column set to what the expression is on a. */
  ghost predicate SetsColumn(sem: Semantics, a: Row, b: Row, column: Name, e: Expr) {
    && b.Keys == a.Keys + {column}
    && b[column] == EvalExpr(sem, e, a)
    && forall c | c in a && c != column :: b[c] == a[c]
  }

  /** One intermediate row for each assignment of SET, in its order. */
  ghost predicate SetsInTurn(sem: Semantics, sets: seq<(Name, Expr)>, row: Row, steps: seq<Row>) {
    && |steps| == |sets| + 1 && steps[0] == row
    && forall i | 0 <= i < |sets| :: SetsColumn(sem, steps[i], steps[i + 1], sets[i].0, sets[i].1)
  }

  ghost predicate StoredAs(env: Env, row: Row, stored: Row) {
    && stored.Keys == row.Keys
    && forall c | c in row :: stored[c] == if row[c].Int? then Num(env.ofInt(row[c].n)) else row[c]
  }

  /** The stored row is that after the last assignment. */
  ghost predicate RowUpdated(sem: Semantics, sets: seq<(Name, Expr)>, row: Row, stored: Row) {
    exists steps :: SetsInTurn(sem, sets, row, steps) && StoredAs(sem.env, steps[|sets|], stored)
  }

  ghost predicate OtherTablesSame(tables: Tables, was: Db, now: Db, table: Name) {
    forall t | t in tables && t != table :: RowsOf(now.data, tables[t]) == RowsOf(was.data, tables[t])
  }

  /** These rows are updated, and every other row is as before. */
  ghost predicate RowsUpdated(sem: Semantics, sets: seq<(Name, Expr)>, rows: Rows, rows': Rows, ids: set<Key>) {
    && rows'.Keys == rows.Keys && ids <= rows.Keys
    && (forall id {:trigger RowUpdated(sem, sets, rows[id], rows'[id])} | id in ids :: RowUpdated(sem, sets, rows[id], rows'[id]))
    && (forall id | id in rows && id !in ids :: rows'[id] == rows[id])
  }

  /** An UPDATE of these rows of the table; other tables are as before. */
  ghost predicate TableUpdated(sem: Semantics, tables: Tables, was: Db, table: Name, sets: seq<(Name, Expr)>, ids: set<Key>, now: Db)
    requires table in tables
  {
    && RowsUpdated(sem, sets, RowsOf(was.data, tables[table]), RowsOf(now.data, tables[table]), ids)
    && OtherTablesSame(tables, was, now, table)
  }

  /** These rows of the table are gone; every other row is as before. */
  ghost predicate TableDeleted(tables: Tables, was: Db, table: Name, ids: set<Key>, now: Db)
    requires table in tables
  {
    RowsOf(now.data, tables[table]) == RowsOf(was.data, tables[table]) - ids && OtherTablesSame(tables, was, now, table)
  }

  /** A row of VALUES as it is stored, under its own id or, where it gives none, under the generated one. */
  ghost predicate RowInserted(env: Env, values: Row, generated: Key, id: Key, stored: Row) {
    var named := ID in values && values[ID] != Null && values[ID] != Str([]);
    && stored.Keys == values.Keys + {ID}
    && (forall c | c in values && (c != ID || named) :: stored[c] == if values[c].Int? then Num(env.ofInt(values[c].n)) else values[c])
    && (!named ==> stored[ID] == Str(generated))
    && stored[ID] == Str(id)
  }

  /** Row i of VALUES has joined under a new id. */
  ghost predicate Joins(env: Env, values: seq<Row>, generated: seq<Key>, ids: seq<Key>, rows: Rows, rows': Rows, i: nat)
    requires i < |ids| <= |values| == |generated|
  {
    ids[i] !in rows && ids[i] in rows' && RowInserted(env, values[i], generated[i], ids[i], rows'[ids[i]])
  }

  /** The first rows of VALUES have joined under these new ids, and every other row is as before. */
  ghost predicate RowsInserted(env: Env, values: seq<Row>, generated: seq<Key>, ids: seq<Key>, rows: Rows, rows': Rows)
    requires |generated| == |values|
  {
    && |ids| <= |values| && Once(ids)
    && rows'.Keys == rows.Keys + (set id | id in ids)
    && (forall i: nat {:trigger Joins(env, values, generated, ids, rows, rows', i)} | i < |ids| :: Joins(env, values, generated, ids, rows, rows', i))
    && (forall id | id in rows :: rows'[id] == rows[id])
  }

  /** An INSERT of these rows into the table; other tables are as before. */
  ghost predicate TableInserted(env: Env, tables: Tables, was: Db, table: Name, values: seq<Row>, generated: seq<Key>, ids: seq<Key>, now: Db)
    requires table in tables && |generated| == |values|
  {
    && RowsInserted(env, values, generated, ids, RowsOf(was.data, tables[table]), RowsOf(now.data, tables[table]))
    && OtherTablesSame(tables, was, now, table)
  }

  lemma {:induction false} AssignedInTurn(sem: Semantics, sets: seq<(Name, Expr)>, row: Row) returns (steps: seq<Row>)
    ensures SetsInTurn(sem, sets, row, steps) && steps[|sets|] == Assigned(sem, sets, row)
  {
    if sets == [] {
      steps := [row];
    } else {
      var front, last := sets[..|sets| - 1], |sets| - 1;
      var before := AssignedInTurn(sem, front, row);
      steps := before + [Assigned(sem, sets, row)];
      forall i | 0 <= i < |sets| ensures SetsColumn(sem, steps[i], steps[i + 1], sets[i].0, sets[i].1) {
        if i < last {
          assert SetsColumn(sem, before[i], before[i + 1], front[i].0, front[i].1);
        }
      }
    }
  }

  lemma AssignedUpdates(sem: Semantics, sets: seq<(Name, Expr)>, row: Row)
    ensures RowUpdated(sem, sets, row, Stored(sem.env, Assigned(sem, sets, row)))
  {
    var steps := AssignedInTurn(sem, sets, row);
    assert StoredAs(sem.env, steps[|sets|], Stored(sem.env, Assigned(sem, sets, row)));
  }

  /** The rows of all tables after a write of one row that is not refused. */
  lemma OneRowWritten(env: Env, tables: Tables, db: Db, table: Name, id: Key, was: Option<Row>, now: Option<Row>, after: Db)
    requires GoodTables(tables) && table in tables && after == After(env, tables, db, table, id, was, now)
    ensures OtherTablesSame(tables, db, after, table)
    ensures var rows := RowsOf(db.data, tables[table]);
            RowsOf(after.data, tables[table]) == if now.Some? then rows[id := now.value] else rows - {id}
  {
    AfterChanges(env, tables, db, table, id, was, now);
    RowsAfter(tables, db.data, after.data, table, id, now, table);
    forall t | t in tables && t != table ensures RowsOf(after.data, tables[t]) == RowsOf(db.data, tables[t]) {
      RowsAfter(tables, db.data, after.data, table, id, now, t);
    }
  }

  lemma OthersStaySame(tables: Tables, a: Db, b: Db, c: Db, table: Name)
    requires OtherTablesSame(tables, a, b, table) && OtherTablesSame(tables, b, c, table)
    ensures OtherTablesSame(tables, a, c, table)
  {
  }

  lemma RowsUpdatedMore(sem: Semantics, sets: seq<(Name, Expr)>, rows: Rows, mid: Rows, ids: set<Key>, id: Key, stored: Row)
    requires RowsUpdated(sem, sets, rows, mid, ids) && id in mid && id !in ids && RowUpdated(sem, sets, mid[id], stored)
    ensures RowsUpdated(sem, sets, rows, mid[id := stored], ids + {id})
  {
    forall x | x in ids + {id} ensures RowUpdated(sem, sets, rows[x], mid[id := stored][x]) {
      if x != id {
        assert RowUpdated(sem, sets, rows[x], mid[x]);
      }
    }
  }

  lemma UpdatedMore(sem: Semantics, tables: Tables, was: Db, table: Name, sets: seq<(Name, Expr)>, ids: set<Key>, id: Key, db: Db, row: Row, now: Db)
    requires GoodTables(tables) && table in tables && TableUpdated(sem, tables, was, table, sets, ids, db) && id !in ids
    requires RowAt(tables, db, table, id) == Some(row)
    requires now == After(sem.env, tables, db, table, id, Some(row), Some(Stored(sem.env, Assigned(sem, sets, row))))
    ensures TableUpdated(sem, tables, was, table, sets, ids + {id}, now)
  {
    var stored := Stored(sem.env, Assigned(sem, sets, row));
    OneRowWritten(sem.env, tables, db, table, id, Some(row), Some(stored), now);
    AssignedUpdates(sem, sets, row);
    RowsUpdatedMore(sem, sets, RowsOf(was.data, tables[table]), RowsOf(db.data, tables[table]), ids, id, stored);
    OthersStaySame(tables, was, db, now, table);
  }

  lemma DeletedMore(env: Env, tables: Tables, was: Db, table: Name, ids: set<Key>, id: Key, db: Db, row: Option<Row>, now: Db)
    requires GoodTables(tables) && table in tables && TableDeleted(tables, was, table, ids, db)
    requires now == After(env, tables, db, table, id, row, None)
    ensures TableDeleted(tables, was, table, ids + {id}, now)
  {
    OneRowWritten(env, tables, db, table, id, row, None, now);
    OthersStaySame(tables, was, db, now, table);
    LessOne(RowsOf(was.data, tables[table]), ids, id);
  }

  lemma LessOne(rows: Rows, ids: set<Key>, id: Key)
    ensures rows - ids - {id} == rows - (ids + {id})
  {
  }

  lemma RowsInsertedMore(env: Env, values: seq<Row>, generated: seq<Key>, ids: seq<Key>, rows: Rows, mid: Rows, id: Key, stored: Row)
    requires |generated| == |values| && RowsInserted(env, values, generated, ids, rows, mid) && |ids| < |values|
    requires id !in mid && RowInserted(env, values[|ids|], generated[|ids|], id, stored)
    ensures RowsInserted(env, values, generated, ids + [id], rows, mid[id := stored])
  {
    var more, rows' := ids + [id], mid[id := stored];
    assert (set x | x in more) == (set x | x in ids) + {id};
    assert forall i | 0 <= i < |ids| :: ids[i] in mid;
    forall i: nat | i < |more| ensures Joins(env, values, generated, more, rows, rows', i) {
      if i < |ids| {
        assert Joins(env, values, generated, ids, rows, mid, i);
      }
    }
  }

  lemma InsertedMore(env: Env, tables: Tables, was: Db, table: Name, values: seq<Row>, generated: seq<Key>, ids: seq<Key>, db: Db, row: Row, now: Db)
    requires GoodTables(tables) && table in tables && |generated| == |values|
    requires TableInserted(env, tables, was, table, values, generated, ids, db) && |ids| < |values|
    requires row == Prepared(values[|ids|], generated[|ids|]) && GoodRow(row, IdIn(row))
    requires RowAt(tables, db, table, IdIn(row)).None?
    requires now == After(env, tables, db, table, IdIn(row), None, Some(Stored(env, row)))
    ensures TableInserted(env, tables, was, table, values, generated, ids + [IdIn(row)], now)
  {
    OneRowWritten(env, tables, db, table, IdIn(row), None, Some(Stored(env, row)), now);
    PreparedIsInserted(env, values[|ids|], generated[|ids|]);
    RowsInsertedMore(env, values, generated, ids, RowsOf(was.data, tables[table]), RowsOf(db.data, tables[table]), IdIn(row), Stored(env, row));
    OthersStaySame(tables, was, db, now, table);
  }

  lemma PreparedIsInserted(env: Env, values: Row, generated: Key)
    requires GoodRow(Prepared(values, generated), IdIn(Prepared(values, generated)))
    ensures var row := Prepared(values, generated); RowInserted(env, values, generated, IdIn(row), Stored(env, row))
  {
  }

  ghost function IdSet(ids: seq<Key>): set<Key> {
    set id | id in ids
  }

  lemma OneMoreId(ids: seq<Key>, i: nat)
    requires i < |ids| && Once(ids)
    ensures IdSet(ids[..i + 1]) == IdSet(ids[..i]) + {ids[i]} && ids[i] !in IdSet(ids[..i])
  {
    assert ids[..i + 1] == ids[..i] + [ids[i]];
  }

  lemma NothingInserted(env: Env, tables: Tables, db: Db, table: Name, values: seq<Row>, generated: seq<Key>)
    requires table in tables && |generated| == |values|
    ensures TableInserted(env, tables, db, table, values, generated, [], db)
  {
  }

  lemma NothingDeleted(tables: Tables, db: Db, table: Name, ids: seq<Key>)
    requires table in tables
    ensures TableDeleted(tables, db, table, IdSet(ids[..0]), db)
  {
    assert RowsOf(db.data, tables[table]) - {} == RowsOf(db.data, tables[table]);
    assert IdSet(ids[..0]) == {};
  }

  lemma NothingUpdated(sem: Semantics, tables: Tables, db: Db, table: Name, sets: seq<(Name, Expr)>, ids: seq<Key>)
    requires table in tables
    ensures TableUpdated(sem, tables, db, table, sets, IdSet(ids[..0]), db)
  {
    assert IdSet(ids[..0]) == {};
  }

  lemma WhereOnce(sem: Semantics, tables: Tables, db: Db, table: Name, where_: Option<Expr>)
    requires table in tables
    ensures Once(WhereIds(sem, tables, db, table, where_))
  {
    var rows := RowsOf(db.data, tables[table]);
    if where_.Some? {
      ChosenOnce(sem, where_.value, rows, [], ScanIds(rows));
    }
  }

  /** The ids of the rows that pass WHERE. */
  lemma WhereIdsAre(sem: Semantics, tables: Tables, db: Db, table: Name, where_: Option<Expr>)
    requires table in tables
    ensures var ids, rows := WhereIds(sem, tables, db, table, where_), RowsOf(db.data, tables[table]);
            Once(ids) && forall id :: id in ids <==> id in rows && (where_.Some? ==> EvalBool(sem, where_.value, rows[id]))
  {
    WhereOnce(sem, tables, db, table, where_);
  }
}
