/**
 What a SELECT on one table returns, from the stored rows to the page: the rows that pass WHERE, projected
 or grouped, in the order asked for.
 */
module SelectMeaning {
  import opened Bytes
  import opened KeyEncode
  import opened Engine
  import opened Encoding
  import opened IndexKeys
  import opened IndexUpkeep
  import opened Ast
  import opened Eval
  import opened Planner
  import opened Execute
  import opened PlanRows
  import opened PlanMeaning
  import opened SortElimination
  import opened RowOrder

  // ---- what result rows hold ----

  /** A value for a column of a result row, or none. */
  datatype Cell = Cell(name: Name, value: Option<Value>)

  /** Of the cells of one name the last that has a value counts. */
  function LastValue(cells: seq<Cell>, name: Name): Option<Value> {
    if cells == [] then None
    else
      var last := cells[|cells| - 1];
      if last.name == name && last.value.Some? then last.value else LastValue(cells[..|cells| - 1], name)
  }

  /** The row has the name, with the value of its cells, or else with the value it had. */
  predicate Holds(old_: Row, cells: seq<Cell>, row: Row, name: Name) {
    match LastValue(cells, name)
    case Some(v) => name in row && row[name] == v
    case None => (name in row <==> name in old_) && (name in old_ ==> name in row && row[name] == old_[name])
  }

  ghost predicate Written(old_: Row, cells: seq<Cell>, row: Row) {
    forall name :: Holds(old_, cells, row, name)
  }

  lemma WrittenMore(old_: Row, cells: seq<Cell>, row: Row, cell: Cell, next: Row)
    requires Written(old_, cells, row) && next == if cell.value.Some? then row[cell.name := cell.value.value] else row
    ensures Written(old_, cells + [cell], next)
  {
    forall name ensures Holds(old_, cells + [cell], next, name) {
      assert Holds(old_, cells, row, name);
      assert (cells + [cell])[..|cells|] == cells;
    }
  }

  /** A projected row: the value of each column's expression, under the column's name. */
  function ColumnCells(sem: Semantics, text: Texts, columns: seq<Column>, row: Row): (cells: seq<Cell>) {
    seq(|columns|, i requires 0 <= i < |columns| => Cell(ColumnName(text, columns[i]), Some(EvalExpr(sem, columns[i].expr, row))))
  }

  lemma {:induction false} ProjectIsWritten(sem: Semantics, text: Texts, columns: seq<Column>, row: Row)
    ensures Written(map[], ColumnCells(sem, text, columns, row), ProjectRow(sem, text, columns, row))
  {
    if columns != [] {
      var front, c := columns[..|columns| - 1], columns[|columns| - 1];
      ProjectIsWritten(sem, text, front, row);
      var cells, cell := ColumnCells(sem, text, front, row), Cell(ColumnName(text, c), Some(EvalExpr(sem, c.expr, row)));
      WrittenMore(map[], cells, ProjectRow(sem, text, front, row), cell, ProjectRow(sem, text, columns, row));
      assert cells + [cell] == ColumnCells(sem, text, columns, row);
    }
  }

  /** What a column makes of a group: an aggregate of its rows, or the value on the first of them. */
  function GroupValue(sem: Semantics, text: Texts, c: Column, rows: seq<Row>): Option<Value> {
    if c.aggregate then text.aggregate(c, rows)
    else if rows != [] then Some(EvalExpr(sem, c.expr, rows[0]))
    else None
  }

  function GroupCells(sem: Semantics, text: Texts, columns: seq<Column>, rows: seq<Row>): seq<Cell> {
    seq(|columns|, i requires 0 <= i < |columns| => Cell(ColumnName(text, columns[i]), GroupValue(sem, text, columns[i], rows)))
  }

  lemma {:induction false} AggregateIsWritten(sem: Semantics, text: Texts, columns: seq<Column>, rows: seq<Row>)
    ensures Written(map[], GroupCells(sem, text, columns, rows), AggregateRow(sem, text, columns, rows))
  {
    if columns != [] {
      var front, c := columns[..|columns| - 1], columns[|columns| - 1];
      AggregateIsWritten(sem, text, front, rows);
      var cells, cell := GroupCells(sem, text, front, rows), Cell(ColumnName(text, c), GroupValue(sem, text, c, rows));
      WrittenMore(map[], cells, AggregateRow(sem, text, front, rows), cell, AggregateRow(sem, text, columns, rows));
      assert cells + [cell] == GroupCells(sem, text, columns, rows);
    }
  }

  /** The columns grouped by, under their own names. */
  function KeyCells(sem: Semantics, text: Texts, groupBy: seq<Expr>, first: Row): seq<Cell> {
    seq(|groupBy|, i requires 0 <= i < |groupBy| =>
      Cell(text.name(groupBy[i]), if groupBy[i].Ident? then Some(EvalExpr(sem, groupBy[i], first)) else None))
  }

  lemma {:induction false} GroupIsWritten(sem: Semantics, text: Texts, groupBy: seq<Expr>, first: Row, row: Row)
    ensures Written(row, KeyCells(sem, text, groupBy, first), WithGroup(sem, text, groupBy, first, row))
  {
    if groupBy != [] {
      var front, e := groupBy[..|groupBy| - 1], groupBy[|groupBy| - 1];
      GroupIsWritten(sem, text, front, first, row);
      var cells := KeyCells(sem, text, front, first);
      var cell := Cell(text.name(e), if e.Ident? then Some(EvalExpr(sem, e, first)) else None);
      WrittenMore(row, cells, WithGroup(sem, text, front, first, row), cell, WithGroup(sem, text, groupBy, first, row));
      assert cells + [cell] == KeyCells(sem, text, groupBy, first);
    }
  }

  // ---- groups ----

  type KeyOf = Row -> Key

  /** The rows with a group key, in order. */
  function WithKey(keyOf: KeyOf, rows: seq<Row>, key: Key): seq<Row> {
    if rows == [] then []
    else
      var front, row := WithKey(keyOf, rows[..|rows| - 1], key), rows[|rows| - 1];
      if keyOf(row) == key then front + [row] else front
  }

  ghost predicate HasKey(keyOf: KeyOf, rows: seq<Row>, key: Key) {
    exists q :: 0 <= q < |rows| && keyOf(rows[q]) == key
  }

  /** Position p is the first with its group key. */
  ghost predicate OpensGroup(keyOf: KeyOf, rows: seq<Row>, p: nat) {
    p < |rows| && !HasKey(keyOf, rows[..p], keyOf(rows[p]))
  }

  /** All positions that open a group, ascending. */
  ghost predicate AreOpeners(keyOf: KeyOf, rows: seq<Row>, ps: seq<nat>) {
    && (forall k | 0 <= k < |ps| :: OpensGroup(keyOf, rows, ps[k]))
    && (forall p: nat | OpensGroup(keyOf, rows, p) :: p in ps)
    && (forall i, j | 0 <= i < j < |ps| :: ps[i] < ps[j])
  }

  /** One group for each opener, in their order, with all rows of its key in order. */
  ghost predicate AreGroups(keyOf: KeyOf, rows: seq<Row>, ps: seq<nat>, g: Groups) {
    && |g.order| == |ps|
    && (forall k | 0 <= k < |ps| :: ps[k] < |rows| && g.order[k] == keyOf(rows[ps[k]]))
    && (forall key :: key in g.rows <==> HasKey(keyOf, rows, key))
    && (forall key | key in g.rows :: g.rows[key] == WithKey(keyOf, rows, key))
  }

  lemma HasKeyMore(keyOf: KeyOf, rows: seq<Row>, row: Row, key: Key)
    ensures HasKey(keyOf, rows + [row], key) <==> HasKey(keyOf, rows, key) || keyOf(row) == key
  {
    var more := rows + [row];
    if HasKey(keyOf, rows, key) {
      var q :| 0 <= q < |rows| && keyOf(rows[q]) == key;
      assert more[q] == rows[q];
    }
    if keyOf(row) == key {
      assert more[|rows|] == row;
    }
  }

  lemma OpensMore(keyOf: KeyOf, rows: seq<Row>, row: Row, p: nat)
    ensures OpensGroup(keyOf, rows + [row], p) <==> OpensGroup(keyOf, rows, p) || (p == |rows| && !HasKey(keyOf, rows, keyOf(row)))
  {
    var more := rows + [row];
    if p < |rows| {
      assert more[..p] == rows[..p];
    } else {
      assert more[..|rows|] == rows;
    }
  }

  lemma OpenersMore(keyOf: KeyOf, rows: seq<Row>, ps: seq<nat>, row: Row)
    requires AreOpeners(keyOf, rows, ps)
    ensures AreOpeners(keyOf, rows + [row], if HasKey(keyOf, rows, keyOf(row)) then ps else ps + [|rows|])
  {
    forall p: nat
      ensures OpensGroup(keyOf, rows + [row], p) <==> OpensGroup(keyOf, rows, p) || (p == |rows| && !HasKey(keyOf, rows, keyOf(row)))
    {
      OpensMore(keyOf, rows, row, p);
    }
    forall k | 0 <= k < |ps| ensures ps[k] < |rows| {
      assert OpensGroup(keyOf, rows, ps[k]);
    }
  }

  lemma WithKeyMore(keyOf: KeyOf, rows: seq<Row>, row: Row, key: Key)
    ensures WithKey(keyOf, rows + [row], key) == if keyOf(row) == key then WithKey(keyOf, rows, key) + [row] else WithKey(keyOf, rows, key)
  {
    assert (rows + [row])[..|rows|] == rows;
  }

  lemma {:induction false} NoneWithKey(keyOf: KeyOf, rows: seq<Row>, key: Key)
    requires !HasKey(keyOf, rows, key)
    ensures WithKey(keyOf, rows, key) == []
  {
    if rows != [] {
      var front := rows[..|rows| - 1];
      assert rows == front + [rows[|rows| - 1]];
      HasKeyMore(keyOf, front, rows[|rows| - 1], key);
      NoneWithKey(keyOf, front, key);
    }
  }

  lemma GroupsMore(keyOf: KeyOf, rows: seq<Row>, ps: seq<nat>, g: Groups, row: Row)
    requires AreGroups(keyOf, rows, ps, g)
    ensures AreGroups(keyOf, rows + [row], if HasKey(keyOf, rows, keyOf(row)) then ps else ps + [|rows|], Joined(g, keyOf(row), row))
  {
    var next, key := Joined(g, keyOf(row), row), keyOf(row);
    forall other ensures other in next.rows <==> HasKey(keyOf, rows + [row], other) {
      HasKeyMore(keyOf, rows, row, other);
    }
    forall other | other in next.rows ensures next.rows[other] == WithKey(keyOf, rows + [row], other) {
      WithKeyMore(keyOf, rows, row, other);
      if !HasKey(keyOf, rows, other) {
        HasKeyMore(keyOf, rows, row, other);
        NoneWithKey(keyOf, rows, other);
      }
    }
  }

  // GroupsOf as a value: proofs that pass it on do not unfold it.
  ghost predicate Collects(groupsOf: seq<Row> -> Groups, keyOf: KeyOf) {
    && groupsOf([]) == Groups([], map[])
    && (forall front: seq<Row>, row: Row {:trigger groupsOf(front + [row])} :: groupsOf(front + [row]) == Joined(groupsOf(front), keyOf(row), row))
  }

  lemma GroupsOfCollects(sem: Semantics, text: Texts, groupBy: seq<Expr>)
    ensures Collects(rows => GroupsOf(sem, text, groupBy, rows), row => GroupKey(sem, text, groupBy, row))
  {
    forall front: seq<Row>, row: Row
      ensures GroupsOf(sem, text, groupBy, front + [row]) == Joined(GroupsOf(sem, text, groupBy, front), GroupKey(sem, text, groupBy, row), row)
    {
      assert (front + [row])[..|front|] == front;
    }
  }

  lemma {:induction false} GroupsAre(groupsOf: seq<Row> -> Groups, keyOf: KeyOf, rows: seq<Row>) returns (ps: seq<nat>)
    requires Collects(groupsOf, keyOf)
    ensures AreOpeners(keyOf, rows, ps) && AreGroups(keyOf, rows, ps, groupsOf(rows))
  {
    if rows == [] {
      ps := [];
    } else {
      var front, row := rows[..|rows| - 1], rows[|rows| - 1];
      assert rows == front + [row];
      var before := GroupsAre(groupsOf, keyOf, front);
      OpenersMore(keyOf, front, before, row);
      GroupsMore(keyOf, front, before, groupsOf(front), row);
      ps := if HasKey(keyOf, front, keyOf(row)) then before else before + [|front|];
      assert groupsOf(front + [row]) == Joined(groupsOf(front), keyOf(row), row);
    }
  }

  /** The row of a group: its columns, and then the columns grouped by. */
  ghost predicate IsGroupRow(sem: Semantics, text: Texts, columns: seq<Column>, groupBy: seq<Expr>, rows: seq<Row>, row: Row) {
    rows != [] && exists cells: Row ::
      Written(map[], GroupCells(sem, text, columns, rows), cells) && Written(cells, KeyCells(sem, text, groupBy, rows[0]), row)
  }

  function Kept(sem: Semantics, having: Option<Expr>, rows: seq<Row>): seq<Row> {
    if having.None? then rows else FilterRows(sem, having.value, rows)
  }

  /** Without GROUP BY one row, whatever HAVING asks; else one for each group that passes HAVING, as the groups first turn up. */
  ghost predicate IsGrouped(sem: Semantics, text: Texts, s: Select, rows: seq<Row>, out: seq<Row>) {
    if s.groupBy == [] then
      |out| == 1 && Written(map[], GroupCells(sem, text, s.columns, rows), out[0])
    else
      exists keyOf: KeyOf, ps, rs ::
        && (forall row :: keyOf(row) == GroupKey(sem, text, s.groupBy, row))
        && AreOpeners(keyOf, rows, ps) && AreGroupRows(sem, text, s, keyOf, rows, ps, rs) && out == Kept(sem, s.having, rs)
  }

  ghost predicate AreGroupRows(sem: Semantics, text: Texts, s: Select, keyOf: KeyOf, rows: seq<Row>, ps: seq<nat>, rs: seq<Row>) {
    |rs| == |ps| && forall k | 0 <= k < |ps| ::
      ps[k] < |rows| && IsGroupRow(sem, text, s.columns, s.groupBy, WithKey(keyOf, rows, keyOf(rows[ps[k]])), rs[k])
  }

  lemma GroupResultIs(sem: Semantics, text: Texts, columns: seq<Column>, groupBy: seq<Expr>, rows: seq<Row>)
    requires rows != []
    ensures IsGroupRow(sem, text, columns, groupBy, rows, GroupResult(sem, text, columns, groupBy, rows))
  {
    AggregateIsWritten(sem, text, columns, rows);
    GroupIsWritten(sem, text, groupBy, rows[0], AggregateRow(sem, text, columns, rows));
  }

  /** The rows of the first n groups, before HAVING. */
  function AllResults(sem: Semantics, text: Texts, columns: seq<Column>, groupBy: seq<Expr>, g: Groups, n: nat): (rs: seq<Row>)
    requires n <= |g.order| && forall i | 0 <= i < n :: g.order[i] in g.rows && g.rows[g.order[i]] != []
    ensures |rs| == n
    ensures forall i | 0 <= i < n :: rs[i] == GroupResult(sem, text, columns, groupBy, g.rows[g.order[i]])
  {
    seq(n, i requires 0 <= i < n => GroupResult(sem, text, columns, groupBy, g.rows[g.order[i]]))
  }

  lemma {:induction false} ResultsAreKept(sem: Semantics, text: Texts, columns: seq<Column>, groupBy: seq<Expr>, having: Option<Expr>, g: Groups, n: nat)
    requires n <= |g.order| && forall i | 0 <= i < n :: g.order[i] in g.rows && g.rows[g.order[i]] != []
    ensures GroupResults(sem, text, columns, groupBy, having, g, n) == Kept(sem, having, AllResults(sem, text, columns, groupBy, g, n))
  {
    if n > 0 {
      ResultsAreKept(sem, text, columns, groupBy, having, g, n - 1);
      var rs := AllResults(sem, text, columns, groupBy, g, n);
      assert rs[..n - 1] == AllResults(sem, text, columns, groupBy, g, n - 1);
    }
  }

  lemma GroupRowsAre(sem: Semantics, text: Texts, s: Select, keyOf: KeyOf, rows: seq<Row>, ps: seq<nat>, g: Groups)
    requires AreGroups(keyOf, rows, ps, g) && GroupsOk(g)
    ensures AreGroupRows(sem, text, s, keyOf, rows, ps, AllResults(sem, text, s.columns, s.groupBy, g, |g.order|))
  {
    var rs := AllResults(sem, text, s.columns, s.groupBy, g, |g.order|);
    forall k | 0 <= k < |ps| ensures IsGroupRow(sem, text, s.columns, s.groupBy, WithKey(keyOf, rows, keyOf(rows[ps[k]])), rs[k]) {
      GroupResultIs(sem, text, s.columns, s.groupBy, g.rows[g.order[k]]);
    }
  }

  lemma AggregatedIsGrouped(sem: Semantics, text: Texts, s: Select, rows: seq<Row>)
    ensures IsGrouped(sem, text, s, rows, Aggregated(sem, text, s.columns, s.groupBy, s.having, rows))
  {
    if s.groupBy == [] {
      AggregateIsWritten(sem, text, s.columns, rows);
    } else {
      var keyOf: KeyOf := row => GroupKey(sem, text, s.groupBy, row);
      GroupsOfCollects(sem, text, s.groupBy);
      var ps := GroupsAre(x => GroupsOf(sem, text, s.groupBy, x), keyOf, rows);
      var g := GroupsOf(sem, text, s.groupBy, rows);
      GroupsAreOk(sem, text, s.groupBy, rows);
      var rs := AllResults(sem, text, s.columns, s.groupBy, g, |g.order|);
      ResultsAreKept(sem, text, s.columns, s.groupBy, s.having, g, |g.order|);
      GroupRowsAre(sem, text, s, keyOf, rows, ps, g);
      assert AreGroupRows(sem, text, s, keyOf, rows, ps, rs);
    }
  }

  // ---- pages ----

  /** The rows from the offset on, as many as the limit allows; a limit of 0 or less is none, an offset of 0 or less is 0. */
  predicate IsPage(rows: seq<Row>, limit: Option<int>, offset: Option<int>, out: seq<Row>) {
    var from := if offset.Some? && offset.value > 0 then offset.value else 0;
    var left := if from < |rows| then |rows| - from else 0;
    && |out| == (if limit.Some? && 0 < limit.value < left then limit.value else left)
    && forall i | 0 <= i < |out| :: out[i] == rows[from + i]
  }

  lemma PageIs(rows: seq<Row>, limit: Option<int>, offset: Option<int>)
    ensures var l, o := if limit.Some? then limit.value else 0, if offset.Some? then offset.value else 0;
            IsPage(rows, limit, offset, Page(rows, l, o))
  {
  }

  // ---- the whole statement ----

  /** The ids of the rows that pass WHERE, ascending. */
  ghost predicate Selects(sem: Semantics, tables: Tables, db: Db, s: Select, ids: seq<Key>)
    requires s.from.name in tables
  {
    var rows := RowsOf(db.data, tables[s.from.name]);
    && Sorted(ids)
    && forall id :: id in ids <==> id in rows && Passes(sem, s.where_, Aliased(rows[id], s.from.alias))
  }

  /** SELECT * returns the rows themselves. */
  ghost predicate IsProjected(sem: Semantics, text: Texts, s: Select, rows: seq<Row>, out: seq<Row>) {
    if IsStar(s.columns) then out == rows
    else |out| == |rows| && forall i | 0 <= i < |rows| :: Written(map[], ColumnCells(sem, text, s.columns, rows[i]), out[i])
  }

  predicate IsAggregation(s: Select) { s.groupBy != [] || HasAggregates(s.columns) }

  /** The result rows of these ids, before ORDER BY. */
  ghost predicate Makes(sem: Semantics, text: Texts, tables: Tables, db: Db, s: Select, ids: seq<Key>, out: seq<Row>)
    requires s.from.name in tables
  {
    var rows := RowsOf(db.data, tables[s.from.name]);
    && AllIn(rows, ids)
    && var shown := Shown(rows, s.from.alias, ids);
    if IsAggregation(s) then IsGrouped(sem, text, s, shown, out) else IsProjected(sem, text, s, shown, out)
  }

  /** Scan and filter, planned without indexes. */
  function PlainSource(s: Select): Plan {
    var scan := Scan(s.from.name, s.from.alias);
    if s.where_.Some? then Filter(scan, s.where_.value) else scan
  }

  lemma PlainPlan(s: Select)
    requires s.joins == []
    ensures BeforeOrder(None, s) == Projected(PlainSource(s), s)
  {
    assert Source(None, s) == (Scan(s.from.name, s.from.alias), None);
  }

  lemma SourceSelectsPlain(sem: Semantics, text: Texts, tables: Tables, db: Db, s: Select) returns (ids: seq<Key>)
    requires GoodTables(tables) && GoodData(tables, db.data) && s.from.name in tables
    ensures Selects(sem, tables, db, s, ids) && AllIn(RowsOf(db.data, tables[s.from.name]), ids)
    ensures Runnable(tables, db.metas, PlainSource(s))
    ensures Exec(sem, text, tables, db, PlainSource(s)) == Shown(RowsOf(db.data, tables[s.from.name]), s.from.alias, ids)
  {
    var rows := RowsOf(db.data, tables[s.from.name]);
    ScanIsShown(tables, db.data, s.from.name, s.from.alias);
    ids := ScanIds(rows);
    if s.where_.Some? {
      FilterIsChosen(sem, s.where_.value, rows, s.from.alias, ids);
      ChosenSorted(sem, s.where_.value, rows, s.from.alias, ids);
      ids := Chosen(sem, s.where_.value, rows, s.from.alias, ids);
    }
  }

  lemma ProjectedRuns(sem: Semantics, text: Texts, tables: Tables, db: Db, s: Select, p: Plan)
    requires Runnable(tables, db.metas, p)
    ensures Runnable(tables, db.metas, Projected(p, s))
    ensures var shown := Exec(sem, text, tables, db, p);
            Exec(sem, text, tables, db, Projected(p, s)) ==
              if IsAggregation(s) then Aggregated(sem, text, s.columns, s.groupBy, s.having, shown)
              else ProjectRows(sem, text, s.columns, shown)
  {
  }

  lemma StagesRun(sem: Semantics, text: Texts, tables: Tables, db: Db, s: Select) returns (ids: seq<Key>)
    requires GoodTables(tables) && GoodData(tables, db.data) && s.joins == [] && s.from.name in tables
    ensures Selects(sem, tables, db, s, ids) && Runnable(tables, db.metas, BeforeOrder(None, s))
    ensures Makes(sem, text, tables, db, s, ids, Exec(sem, text, tables, db, BeforeOrder(None, s)))
  {
    ids := SourceSelectsPlain(sem, text, tables, db, s);
    PlainPlan(s);
    ProjectedRuns(sem, text, tables, db, s, PlainSource(s));
    ShownIsMade(sem, text, s, Exec(sem, text, tables, db, PlainSource(s)));
  }

  lemma ShownIsMade(sem: Semantics, text: Texts, s: Select, shown: seq<Row>)
    ensures IsGrouped(sem, text, s, shown, Aggregated(sem, text, s.columns, s.groupBy, s.having, shown))
    ensures IsProjected(sem, text, s, shown, ProjectRows(sem, text, s.columns, shown))
  {
    AggregatedIsGrouped(sem, text, s, shown);
    forall i | 0 <= i < |shown| ensures Written(map[], ColumnCells(sem, text, s.columns, shown[i]), ProjectRow(sem, text, s.columns, shown[i])) {
      ProjectIsWritten(sem, text, s.columns, shown[i]);
    }
  }

  lemma RestOfPlan(s: Select)
    requires s.joins == []
    ensures Ordered(None, s, BeforeOrder(None, s)) == if s.orderBy == [] then BeforeOrder(None, s) else Sort(BeforeOrder(None, s), s.orderBy)
  {
    PlainPlan(s);
    assert UnwrapIndexScan(Scan(s.from.name, s.from.alias)) == None;
    assert UnwrapIndexScan(PlainSource(s)) == None;
    assert UnwrapIndexScan(Projected(PlainSource(s), s)) == None;
  }

  lemma PlanRuns(sem: Semantics, text: Texts, tables: Tables, db: Db, s: Select) returns (sorted: seq<Row>)
    requires s.joins == [] && Runnable(tables, db.metas, BeforeOrder(None, s))
    ensures Runnable(tables, db.metas, PlanOf(None, s))
    ensures var made := Exec(sem, text, tables, db, BeforeOrder(None, s)); sorted == if s.orderBy == [] then made else StableSort(sem, s.orderBy, made)
    ensures IsPage(sorted, s.limit, s.offset, Exec(sem, text, tables, db, PlanOf(None, s)))
  {
    RestOfPlan(s);
    var made := Exec(sem, text, tables, db, BeforeOrder(None, s));
    sorted := if s.orderBy == [] then made else StableSort(sem, s.orderBy, made);
    PageIs(sorted, s.limit, s.offset);
  }

  /** The result rows of the rows that pass WHERE, arranged as ORDER BY asks of them, and of those the page. */
  lemma SelectReturns(sem: Semantics, text: Texts, tables: Tables, db: Db, s: Select) returns (ids: seq<Key>, made: seq<Row>, sorted: seq<Row>)
    requires Inv(sem.env, tables, db) && s.joins == [] && s.from.name in tables
    ensures Selects(sem, tables, db, s, ids) && Makes(sem, text, tables, db, s, ids, made)
    ensures if s.orderBy == [] then sorted == made else Orders(sem, s.orderBy, made) ==> Arranges(sem, s.orderBy, made, sorted)
    ensures Runnable(tables, db.metas, PlanOf(None, s))
    ensures IsPage(sorted, s.limit, s.offset, Exec(sem, text, tables, db, PlanOf(None, s)))
  {
    ids := StagesRun(sem, text, tables, db, s);
    made := Exec(sem, text, tables, db, BeforeOrder(None, s));
    sorted := PlanRuns(sem, text, tables, db, s);
    if s.orderBy != [] && Orders(sem, s.orderBy, made) {
      SortsIff(sem, s.orderBy, made, sorted);
    }
  }

  // ---- a sort that has nothing to go by ----

  lemma TiesStay(sem: Semantics, order: seq<Order>, rows: seq<Row>)
    requires forall key, a, b | key in order && a in rows && b in rows :: KeyOrder(sem, key, a, b) == 0
    ensures StableSort(sem, order, rows) == rows
  {
    var p := seq(|rows|, i => i);
    forall i, j | 0 <= i < j < |p| ensures PositionOrder(sem, order, rows)(p[i], p[j]) {
      assert rows[i] in rows && rows[j] in rows;
    }
    forall i: nat | i < |rows| ensures i in p {
      assert p[i] == i;
    }
    assert RowOrder.InOrder(PositionOrder(sem, order, rows), p) && AllBelow(p, |rows|) && At(rows, p, rows);
    assert Arranges(sem, order, rows, rows);
    SortsIff(sem, order, rows, rows);
  }

  /** The key is a column that no result column is named after. */
  predicate IsUnprojected(text: Texts, columns: seq<Column>, e: Expr) {
    e.Ident? && forall i | 0 <= i < |columns| :: ColumnName(text, columns[i]) != e.name && ColumnName(text, columns[i]) != FullName(e.table, e.name)
  }

  lemma {:induction false} NotAmongCells(cells: seq<Cell>, name: Name)
    requires forall i | 0 <= i < |cells| :: cells[i].name != name
    ensures LastValue(cells, name) == None
  {
    if cells != [] {
      NotAmongCells(cells[..|cells| - 1], name);
    }
  }

  lemma UnprojectedIsNull(sem: Semantics, text: Texts, columns: seq<Column>, e: Expr, row: Row, out: Row)
    requires IsUnprojected(text, columns, e) && Written(map[], ColumnCells(sem, text, columns, row), out)
    ensures EvalExpr(sem, e, out) == Null
  {
    var cells := ColumnCells(sem, text, columns, row);
    NotAmongCells(cells, e.name);
    NotAmongCells(cells, FullName(e.table, e.name));
    assert Holds(map[], cells, out, e.name) && Holds(map[], cells, out, FullName(e.table, e.name));
  }

  lemma UnprojectedTies(sem: Semantics, text: Texts, s: Select, shown: seq<Row>, made: seq<Row>)
    requires !IsStar(s.columns) && IsProjected(sem, text, s, shown, made)
    requires forall key | key in s.orderBy :: IsUnprojected(text, s.columns, key.expr)
    ensures forall key, a, b | key in s.orderBy && a in made && b in made :: KeyOrder(sem, key, a, b) == 0
  {
    forall key, a | key in s.orderBy && a in made ensures EvalExpr(sem, key.expr, a) == Null {
      var i :| 0 <= i < |made| && made[i] == a;
      UnprojectedIsNull(sem, text, s.columns, key.expr, shown[i], a);
    }
  }

  /** Rows are sorted after projection: ORDER BY columns that are not selected leaves them in key order. */
  lemma UnprojectedOrderIsLost(sem: Semantics, text: Texts, tables: Tables, db: Db, s: Select)
    requires Inv(sem.env, tables, db) && s.joins == [] && s.from.name in tables && !IsAggregation(s) && !IsStar(s.columns)
    requires forall key | key in s.orderBy :: IsUnprojected(text, s.columns, key.expr)
    ensures Runnable(tables, db.metas, PlanOf(None, s)) && Runnable(tables, db.metas, PlanOf(None, s.(orderBy := [])))
    ensures Exec(sem, text, tables, db, PlanOf(None, s)) == Exec(sem, text, tables, db, PlanOf(None, s.(orderBy := [])))
  {
    var ids := StagesRun(sem, text, tables, db, s);
    var rows := RowsOf(db.data, tables[s.from.name]);
    var shown, made := Shown(rows, s.from.alias, ids), Exec(sem, text, tables, db, BeforeOrder(None, s));
    var bare := s.(orderBy := []);
    assert BeforeOrder(None, bare) == BeforeOrder(None, s);
    RestOfPlan(s);
    RestOfPlan(bare);
    UnprojectedTies(sem, text, s, shown, made);
    TiesStay(sem, s.orderBy, made);
  }

  /** One arrangement that is in the order of the keys both on the rows and on what they became. */
  ghost predicate OneArrangement(sem: Semantics, order: seq<Order>, shown: seq<Row>, made: seq<Row>) {
    exists p :: RowOrder.InOrder(PositionOrder(sem, order, shown), p) && RowOrder.InOrder(PositionOrder(sem, order, made), p) && AllBelow(p, |shown|)
  }

  /** Projection turns no pair of rows round. */
  ghost predicate SameVerdicts(sem: Semantics, order: seq<Order>, shown: seq<Row>, made: seq<Row>)
    requires |shown| == |made|
  {
    forall i, j | 0 <= i < j < |shown| :: Precedes(sem, order, made[j], made[i]) <==> Precedes(sem, order, shown[j], shown[i])
  }

  lemma PlaceTells(before: Relation, p: seq<nat>, n: nat, i: nat, j: nat)
    requires IsStrict(before, n) && RowOrder.InOrder(before, p) && AllBelow(p, n) && i < n && j < n && i != j
    ensures before(i, j) <==> exists k, l :: 0 <= k < l < |p| && p[k] == i && p[l] == j
  {
    assert i in p && j in p;
    var k :| 0 <= k < |p| && p[k] == i;
    var l :| 0 <= l < |p| && p[l] == j;
    if k < l {
      assert before(p[k], p[l]);
    } else {
      assert before(p[l], p[k]);
    }
  }

  /** Projected rows come in the order their stored rows are sorted in exactly when no pair is turned round. */
  lemma OrderSurvivesIff(sem: Semantics, order: seq<Order>, shown: seq<Row>, made: seq<Row>)
    requires |shown| == |made| && Orders(sem, order, shown) && Orders(sem, order, made)
    ensures OneArrangement(sem, order, shown, made) <==> SameVerdicts(sem, order, shown, made)
  {
    var a, b, n := PositionOrder(sem, order, shown), PositionOrder(sem, order, made), |shown|;
    PositionsAreStrict(sem, order, shown);
    PositionsAreStrict(sem, order, made);
    if OneArrangement(sem, order, shown, made) {
      var p :| RowOrder.InOrder(a, p) && RowOrder.InOrder(b, p) && AllBelow(p, n);
      forall i, j | 0 <= i < j < n ensures Precedes(sem, order, made[j], made[i]) <==> Precedes(sem, order, shown[j], shown[i]) {
        PlaceTells(a, p, n, j, i);
        PlaceTells(b, p, n, j, i);
      }
    }
    if SameVerdicts(sem, order, shown, made) {
      var p := FrontArranges(sem, order, shown, a, n);
      assert AllBelow(p, n);
      forall k, l | 0 <= k < l < |p| ensures b(p[k], p[l]) {
        assert a(p[k], p[l]);
        if p[k] < p[l] {
          SameAt(sem, order, shown, made, p[k], p[l]);
        } else {
          SameAt(sem, order, shown, made, p[l], p[k]);
        }
      }
    }
  }

  lemma SameAt(sem: Semantics, order: seq<Order>, shown: seq<Row>, made: seq<Row>, i: nat, j: nat)
    requires |shown| == |made| && Orders(sem, order, shown) && Orders(sem, order, made) && SameVerdicts(sem, order, shown, made)
    requires i <= j < |shown|
    ensures PositionOrder(sem, order, shown)(i, j) <==> PositionOrder(sem, order, made)(i, j)
    ensures PositionOrder(sem, order, shown)(j, i) <==> PositionOrder(sem, order, made)(j, i)
  {
    if i < j {
      BeforeIsTotal(sem, order, shown, i, j);
      BeforeIsTotal(sem, order, made, i, j);
    } else {
      BeforeSelf(sem, order, shown, i);
      BeforeSelf(sem, order, made, i);
    }
  }
}
