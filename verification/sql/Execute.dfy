/** What running a plan on the stored rows yields (internal/query/sql/executor.go). */
module Execute {
  import opened Bytes
  import opened KeyEncode
  import opened Engine
  import opened Encoding
  import opened IndexKeys
  import opened IndexLookup
  import opened IndexManager
  import opened IndexUpkeep
  import opened Ast
  import opened Eval
  import opened Planner

  // ---- rows as a scan shows them ----

  /** The column names of a row under an alias: each name, and the alias, a dot and the name. */
  function AliasedNames(row: Row, alias: Name): set<Name> {
    row.Keys + set c | c in row :: alias + [DOT] + c
  }

  function Aliased(row: Row, alias: Name): Row {
    if alias == [] then row
    else map c | c in AliasedNames(row, alias) :: if c in row then row[c] else Unaliased(row, alias, c)
  }

  function Unaliased(row: Row, alias: Name, c: Name): Value {
    if |c| > |alias| && c[|alias| + 1..] in row then row[c[|alias| + 1..]] else Null
  }

  function CellRows(data: Data, alias: Name, keys: seq<Key>): seq<Row> {
    if keys == [] then []
    else
      var front, key := CellRows(data, alias, keys[..|keys| - 1]), keys[|keys| - 1];
      if key in data && data[key].RowCell? then front + [Aliased(data[key].row, alias)] else front
  }

  ghost function ScanRows(data: Data, prefix: Byte, alias: Name): seq<Row> {
    CellRows(data, alias, Scanned(data, [prefix], PrefixEnd([prefix])))
  }

  /** The rows of the ids, each id once, skipping those without a row. */
  function Fetch(data: Data, prefix: Byte, alias: Name, ids: seq<Key>): seq<Row> {
    if ids == [] then []
    else
      var before, id := ids[..|ids| - 1], ids[|ids| - 1];
      var front, key := Fetch(data, prefix, alias, before), EncodeKey(prefix, id);
      if id !in before && key in data && data[key].RowCell? then front + [Aliased(data[key].row, alias)] else front
  }

  // ---- filtering and projecting ----

  function FilterRows(sem: Semantics, e: Expr, rows: seq<Row>): seq<Row> {
    if rows == [] then []
    else
      var front, row := FilterRows(sem, e, rows[..|rows| - 1]), rows[|rows| - 1];
      if EvalBool(sem, e, row) then front + [row] else front
  }

  // What results and groups call outside this model: the text of an expression, which names a column
  // without an alias; the text of group values; and the aggregate functions, where one may set nothing.
  datatype Texts = Texts(name: Expr -> Name, group: seq<Value> -> Key, aggregate: (Column, seq<Row>) -> Option<Value>)

  function ColumnName(text: Texts, c: Column): Name {
    if c.alias == [] then text.name(c.expr) else c.alias
  }

  function ProjectRow(sem: Semantics, text: Texts, columns: seq<Column>, row: Row): Row {
    if columns == [] then map[]
    else
      var c := columns[|columns| - 1];
      ProjectRow(sem, text, columns[..|columns| - 1], row)[ColumnName(text, c) := EvalExpr(sem, c.expr, row)]
  }

  predicate IsStar(columns: seq<Column>) {
    |columns| == 1 && columns[0].expr == Star
  }

  function ProjectRows(sem: Semantics, text: Texts, columns: seq<Column>, rows: seq<Row>): (out: seq<Row>)
    ensures |out| == |rows|
    ensures forall i | 0 <= i < |rows| :: out[i] == if IsStar(columns) then rows[i] else ProjectRow(sem, text, columns, rows[i])
  {
    if IsStar(columns) then rows
    else if rows == [] then []
    else ProjectRows(sem, text, columns, rows[..|rows| - 1]) + [ProjectRow(sem, text, columns, rows[|rows| - 1])]
  }

  // ---- grouping ----

  function Evaluated(sem: Semantics, es: seq<Expr>, row: Row): (vs: seq<Value>)
    ensures |vs| == |es|
  {
    if es == [] then [] else Evaluated(sem, es[..|es| - 1], row) + [EvalExpr(sem, es[|es| - 1], row)]
  }

  function GroupKey(sem: Semantics, text: Texts, groupBy: seq<Expr>, row: Row): Key {
    text.group(Evaluated(sem, groupBy, row))
  }

  /** computeAggregates: what is no aggregate is read from the first row. */
  function AggregateRow(sem: Semantics, text: Texts, columns: seq<Column>, rows: seq<Row>): Row {
    if columns == [] then map[]
    else
      var before, c := AggregateRow(sem, text, columns[..|columns| - 1], rows), columns[|columns| - 1];
      var v := if c.aggregate then text.aggregate(c, rows)
               else if rows != [] then Some(EvalExpr(sem, c.expr, rows[0]))
               else None;
      if v.Some? then before[ColumnName(text, c) := v.value] else before
  }

  /** The columns that are grouped by join the row. */
  function WithGroup(sem: Semantics, text: Texts, groupBy: seq<Expr>, first: Row, row: Row): Row {
    if groupBy == [] then row
    else
      var before, e := WithGroup(sem, text, groupBy[..|groupBy| - 1], first, row), groupBy[|groupBy| - 1];
      if e.Ident? then before[text.name(e) := EvalExpr(sem, e, first)] else before
  }

  // The groups, and their keys as they first turn up.
  datatype Groups = Groups(order: seq<Key>, rows: map<Key, seq<Row>>)

  function Joined(g: Groups, key: Key, row: Row): Groups {
    if key in g.rows then g.(rows := g.rows[key := g.rows[key] + [row]])
    else Groups(g.order + [key], g.rows[key := [row]])
  }

  function GroupsOf(sem: Semantics, text: Texts, groupBy: seq<Expr>, rows: seq<Row>): Groups {
    if rows == [] then Groups([], map[])
    else Joined(GroupsOf(sem, text, groupBy, rows[..|rows| - 1]), GroupKey(sem, text, groupBy, rows[|rows| - 1]), rows[|rows| - 1])
  }

  function GroupResult(sem: Semantics, text: Texts, columns: seq<Column>, groupBy: seq<Expr>, rows: seq<Row>): Row
    requires rows != []
  {
    WithGroup(sem, text, groupBy, rows[0], AggregateRow(sem, text, columns, rows))
  }

  /** One row for each of the first groups that passes HAVING. */
  function GroupResults(sem: Semantics, text: Texts, columns: seq<Column>, groupBy: seq<Expr>, having: Option<Expr>, g: Groups, n: nat): seq<Row>
    requires n <= |g.order| && forall i | 0 <= i < n :: g.order[i] in g.rows && g.rows[g.order[i]] != []
  {
    if n == 0 then []
    else
      var before := GroupResults(sem, text, columns, groupBy, having, g, n - 1);
      var row := GroupResult(sem, text, columns, groupBy, g.rows[g.order[n - 1]]);
      if having.Some? && !EvalBool(sem, having.value, row) then before else before + [row]
  }

  ghost predicate GroupsOk(g: Groups) {
    forall i | 0 <= i < |g.order| :: g.order[i] in g.rows && g.rows[g.order[i]] != []
  }

  lemma {:induction false} GroupsAreOk(sem: Semantics, text: Texts, groupBy: seq<Expr>, rows: seq<Row>)
    ensures GroupsOk(GroupsOf(sem, text, groupBy, rows))
  {
    if rows != [] {
      GroupsAreOk(sem, text, groupBy, rows[..|rows| - 1]);
    }
  }

  function Aggregated(sem: Semantics, text: Texts, columns: seq<Column>, groupBy: seq<Expr>, having: Option<Expr>, rows: seq<Row>): seq<Row> {
    if groupBy == [] then [AggregateRow(sem, text, columns, rows)]
    else
      var g := GroupsOf(sem, text, groupBy, rows);
      GroupsAreOk(sem, text, groupBy, rows);
      GroupResults(sem, text, columns, groupBy, having, g, |g.order|)
  }

  // ---- sorting, reversing, paging ----

  /** The comparison executeSort gives to sort.SliceStable. */
  predicate RowLess(sem: Semantics, order: seq<Order>, a: Row, b: Row) {
    if order == [] then false
    else
      var c := Compare(sem, EvalExpr(sem, order[0].expr, a), EvalExpr(sem, order[0].expr, b));
      if c == 0 then RowLess(sem, order[1..], a, b)
      else if order[0].ascending then c < 0 else c > 0
  }

  /** Behind every element it is not less than, counted from the end. */
  function InsertStable(sem: Semantics, order: seq<Order>, rows: seq<Row>, row: Row): seq<Row> {
    if rows == [] || !RowLess(sem, order, row, rows[|rows| - 1]) then rows + [row]
    else InsertStable(sem, order, rows[..|rows| - 1], row) + [rows[|rows| - 1]]
  }

  /** A stable sort. */
  function StableSort(sem: Semantics, order: seq<Order>, rows: seq<Row>): seq<Row> {
    if rows == [] then []
    else InsertStable(sem, order, StableSort(sem, order, rows[..|rows| - 1]), rows[|rows| - 1])
  }

  function Reversed<T>(s: seq<T>): (r: seq<T>)
    ensures |r| == |s|
    ensures forall i | 0 <= i < |s| :: r[i] == s[|s| - 1 - i]
  {
    if s == [] then [] else [s[|s| - 1]] + Reversed(s[..|s| - 1])
  }

  function Page<T>(s: seq<T>, limit: int, offset: int): seq<T> {
    var rest := if 0 < offset < |s| then s[offset..] else if offset >= |s| then [] else s;
    if 0 < limit < |rest| then rest[..limit] else rest
  }

  // ---- running a plan ----

  const ALL := Range(Null, Null, true, true)

  /** Plans over single tables whose indexes exist, without full-text search. */
  predicate Runnable(tables: Tables, metas: Metas, p: Plan) {
    match p
    case Scan(table, _) => table in tables
    case IndexScan(table, _, index, _, _) => table in tables && index in metas
    case OrderedScan(table, _, index, _, _) => table in tables && index in metas
    case Filter(input, _) => Runnable(tables, metas, input)
    case Project(input, _) => Runnable(tables, metas, input)
    case Sort(input, _) => Runnable(tables, metas, input)
    case Reverse(input) => Runnable(tables, metas, input)
    case Limit(input, _, _) => Runnable(tables, metas, input)
    case MatchScan(_, _, _, _, _) => false
    case Aggregate(input, _, _, _) => Runnable(tables, metas, input)
    case Join(_, _, _, _) => false
  }

  ghost function Exec(sem: Semantics, text: Texts, tables: Tables, db: Db, p: Plan): seq<Row>
    requires Runnable(tables, db.metas, p)
  {
    match p
    case Scan(table, alias) => ScanRows(db.data, tables[table], alias)
    case IndexScan(table, alias, index, _, span) =>
      Fetch(db.data, tables[table], alias, Lookup(db.data, db.metas[index], span, sem.env.ofInt))
    case OrderedScan(table, alias, index, _, ascending) =>
      var ids := Lookup(db.data, db.metas[index], ALL, sem.env.ofInt);
      Fetch(db.data, tables[table], alias, if ascending then ids else Reversed(ids))
    case Filter(input, e) => FilterRows(sem, e, Exec(sem, text, tables, db, input))
    case Project(input, columns) => ProjectRows(sem, text, columns, Exec(sem, text, tables, db, input))
    case Aggregate(input, columns, groupBy, having) =>
      Aggregated(sem, text, columns, groupBy, having, Exec(sem, text, tables, db, input))
    case Sort(input, order) => StableSort(sem, order, Exec(sem, text, tables, db, input))
    case Reverse(input) => Reversed(Exec(sem, text, tables, db, input))
    case Limit(input, limit, offset) => Page(Exec(sem, text, tables, db, input), limit, offset)
  }
}
