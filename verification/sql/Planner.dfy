/** The query planner (internal/query/sql/planner.go). */
module Planner {
  import opened Bytes
  import opened Engine
  import opened Encoding
  import opened IndexKeys
  import opened IndexLookup
  import opened IndexManager
  import opened Ast

  datatype TableRef = TableRef(name: Name, alias: Name)

  // `aggregate` marks a call of an aggregate function.
  datatype Column = Column(expr: Expr, alias: Name, aggregate: bool)

  datatype Order = Order(expr: Expr, ascending: bool)

  datatype JoinClause = JoinClause(table: TableRef, left: bool, on: Option<Expr>)

  // An absent GROUP BY or ORDER BY is the empty list.
  datatype Select = Select(
    columns: seq<Column>,
    from: TableRef,
    joins: seq<JoinClause>,
    where_: Option<Expr>,
    groupBy: seq<Expr>,
    having: Option<Expr>,
    orderBy: seq<Order>,
    limit: Option<int>,
    offset: Option<int>)

  datatype Plan =
    | Scan(table: Name, alias: Name)
    | IndexScan(table: Name, alias: Name, index: Name, column: Name, span: Span)
    | MatchScan(table: Name, alias: Name, index: Name, column: Name, query: Key)
    | OrderedScan(table: Name, alias: Name, index: Name, column: Name, ascending: bool)
    | Filter(input: Plan, filter: Expr)
    | Project(input: Plan, columns: seq<Column>)
    | Sort(input: Plan, order: seq<Order>)
    | Reverse(input: Plan)
    | Limit(input: Plan, limit: int, offset: int)
    | Aggregate(input: Plan, columns: seq<Column>, groupBy: seq<Expr>, having: Option<Expr>)
    | Join(left: Plan, right: Plan, leftJoin: bool, on: Option<Expr>)

  /** The indexes on a column of a table, in the order the catalog lists them; None without a catalog. */
  type Catalog = Option<(Name, Name) -> seq<Meta>>

  // ---- conjunctions ----

  function SplitAnd(e: Expr): (es: seq<Expr>)
    ensures es != []
  {
    if e.Binary? && e.op == And then SplitAnd(e.left) + SplitAnd(e.right) else [e]
  }

  function JoinAnd(es: seq<Expr>): Option<Expr> {
    if es == [] then None
    else if |es| == 1 then Some(es[0])
    else Some(Binary(And, JoinAnd(es[..|es| - 1]).value, es[|es| - 1]))
  }

  method JoinConjuncts(es: seq<Expr>) returns (e: Option<Expr>)
    ensures e == JoinAnd(es)
  {
    if es == [] {
      return None;
    }
    var acc := es[0];
    for i := 1 to |es|
      invariant Some(acc) == JoinAnd(es[..i])
    {
      assert es[..i + 1][..i] == es[..i];
      acc := Binary(And, acc, es[i]);
    }
    assert es[..|es|] == es;
    e := Some(acc);
  }

  // ---- predicates an index can serve ----

  function LiteralOf(e: Expr): Option<Value> {
    match e
    case StringLit(s) => Some(Str(s))
    case IntLit(n) => Some(Int(n))
    case FloatLit(b) => Some(Num(b))
    case BoolLit(b) => Some(Bool(b))
    case NullLit => Some(Null)
    case _ => None
  }

  /** The value BETWEEN takes for an end: NULL when it is not a literal. */
  function EvalLiteral(e: Expr): Value {
    match LiteralOf(e)
    case Some(v) => v
    case None => Null
  }

  datatype ColumnTest = ColumnTest(column: Name, literal: Value, op: Operator, swapped: bool)

  /** extractColLiteral: `column op literal`, or the other way round. */
  function ExtractColumnTest(op: Operator, left: Expr, right: Expr): Option<ColumnTest> {
    if left.Ident? && LiteralOf(right).Some? then Some(ColumnTest(left.name, LiteralOf(right).value, op, false))
    else if right.Ident? && LiteralOf(left).Some? then Some(ColumnTest(right.name, LiteralOf(left).value, op, true))
    else None
  }

  function FlipCompare(op: Operator): Operator {
    match op
    case Lt => Gt
    case Lte => Gte
    case Gt => Lt
    case Gte => Lte
    case _ => op
  }

  datatype Usage = ForEqual | ForRange | ForMatch

  function Preferred(usage: Usage): Kind {
    match usage
    case ForEqual => Hash
    case ForRange => BTree
    case ForMatch => Inverted
  }

  function FirstOfKind(metas: seq<Meta>, kinds: set<Kind>): Option<Meta> {
    if metas == [] then None
    else if metas[0].kind in kinds then Some(metas[0])
    else FirstOfKind(metas[1..], kinds)
  }

  /** pickIndex: the preferred kind, or else (but not for MATCH) any BTREE or HASH. */
  function PickIndex(catalog: Catalog, table: Name, column: Name, usage: Usage): Option<Meta> {
    if catalog == None then None
    else
      var metas := catalog.value(table, column);
      var best := FirstOfKind(metas, {Preferred(usage)});
      if best.Some? || usage == ForMatch then best else FirstOfKind(metas, {BTree, Hash})
  }

  method PickFirst(metas: seq<Meta>, kinds: set<Kind>) returns (meta: Option<Meta>)
    ensures meta == FirstOfKind(metas, kinds)
  {
    for i := 0 to |metas|
      invariant FirstOfKind(metas, kinds) == FirstOfKind(metas[i..], kinds)
    {
      if metas[i].kind in kinds {
        return Some(metas[i]);
      }
      assert metas[i..][1..] == metas[i + 1..];
    }
    meta := None;
  }

  function RangeFor(op: Operator, literal: Value): Span {
    match op
    case Lt => Range(Null, literal, false, false)
    case Lte => Range(Null, literal, false, true)
    case Gt => Range(literal, Null, false, false)
    case _ => Range(literal, Null, true, false)
  }

  predicate IsRangeOp(op: Operator) { op == Lt || op == Lte || op == Gt || op == Gte }

  /** The index scan of one conjunct, if an index serves it. */
  function MatchIndexPredicate(catalog: Catalog, from: TableRef, e: Expr): Option<Plan> {
    if e.MatchAgainst? && e.columns != [] then
      match PickIndex(catalog, from.name, e.columns[0], ForMatch)
      case Some(idx) => Some(MatchScan(from.name, from.alias, idx.name, e.columns[0], e.query))
      case None => None
    else if e.Binary? then
      match ExtractColumnTest(e.op, e.left, e.right)
      case None => None
      case Some(test) =>
        if test.column == [] then None
        else if test.op == Eq then
          match PickIndex(catalog, from.name, test.column, ForEqual)
          case Some(idx) => Some(IndexScan(from.name, from.alias, idx.name, test.column, Equal(test.literal)))
          case None => None
        else if IsRangeOp(test.op) then
          match PickIndex(catalog, from.name, test.column, ForRange)
          case Some(idx) =>
            if idx.kind == Hash then None
            else
              var op := if test.swapped then FlipCompare(test.op) else test.op;
              Some(IndexScan(from.name, from.alias, idx.name, test.column, RangeFor(op, test.literal)))
          case None => None
        else None
    else if e.Between? && !e.negated && e.operand.Ident? then
      match PickIndex(catalog, from.name, e.operand.name, ForRange)
      case Some(idx) =>
        if idx.kind == Hash then None
        else
          Some(IndexScan(from.name, from.alias, idx.name, e.operand.name,
                         Range(EvalLiteral(e.low), EvalLiteral(e.high), true, true)))
      case None => None
    else None
  }

  /** The first conjunct an index serves, at or after position i. */
  function FirstServed(catalog: Catalog, from: TableRef, es: seq<Expr>, i: nat): (k: nat)
    requires i <= |es|
    ensures i <= k <= |es|
    ensures k < |es| ==> MatchIndexPredicate(catalog, from, es[k]).Some?
    ensures forall j | i <= j < k :: MatchIndexPredicate(catalog, from, es[j]).None?
    decreases |es| - i
  {
    if i == |es| || MatchIndexPredicate(catalog, from, es[i]).Some? then i else FirstServed(catalog, from, es, i + 1)
  }

  /** tryIndexScan: the scan, and the conjunction of all other conjuncts. */
  function TryIndexScan(catalog: Catalog, from: TableRef, filter: Expr): Option<(Plan, Option<Expr>)> {
    var es := SplitAnd(filter);
    var k := FirstServed(catalog, from, es, 0);
    if k == |es| then None
    else Some((MatchIndexPredicate(catalog, from, es[k]).value, JoinAnd(es[..k] + es[k + 1..])))
  }

  method TryIndex(catalog: Catalog, from: TableRef, filter: Expr) returns (r: Option<(Plan, Option<Expr>)>)
    ensures r == TryIndexScan(catalog, from, filter)
  {
    var conjuncts := SplitAnd(filter);
    var i := 0;
    while i < |conjuncts|
      invariant i <= |conjuncts|
      invariant FirstServed(catalog, from, conjuncts, 0) == FirstServed(catalog, from, conjuncts, i)
    {
      var node := MatchIndexPredicate(catalog, from, conjuncts[i]);
      if node.Some? {
        var rest := JoinConjuncts(conjuncts[..i] + conjuncts[i + 1..]);
        return Some((node.value, rest));
      }
      i := i + 1;
    }
    r := None;
  }

  // ---- looking into a plan ----

  function UnwrapIndexScan(p: Plan): Option<Plan> {
    match p
    case IndexScan(_, _, _, _, _) => Some(p)
    case MatchScan(_, _, _, _, _) => Some(p)
    case Project(input, _) => UnwrapIndexScan(input)
    case Filter(input, _) => UnwrapIndexScan(input)
    case _ => None
  }

  predicate IsIndexNode(p: Plan) { p.IndexScan? || p.MatchScan? }

  /** injectReverse: a Reverse node right above the index scan, below the projection and filter. */
  function InjectReverse(p: Plan): Plan {
    match p
    case Project(input, columns) => Project(if IsIndexNode(input) then Reverse(input) else InjectReverse(input), columns)
    case Filter(input, filter) => Filter(if IsIndexNode(input) then Reverse(input) else InjectReverse(input), filter)
    case _ => p
  }

  predicate HasFilterOrIndexScan(p: Plan) {
    match p
    case Filter(_, _) => true
    case IndexScan(_, _, _, _, _) => true
    case MatchScan(_, _, _, _, _) => true
    case Project(input, _) => HasFilterOrIndexScan(input)
    case _ => false
  }

  function OrderColumn(e: Expr): Name {
    if e.Ident? then e.name else []
  }

  // ---- planSelect, stage by stage ----

  /** The scan, and what the filter above it still has to test. */
  function Source(catalog: Catalog, s: Select): (Plan, Option<Expr>) {
    var served := if s.joins == [] && catalog.Some? && s.where_.Some? then TryIndexScan(catalog, s.from, s.where_.value) else None;
    match served
    case Some((scan, rest)) => (scan, rest)
    case None => (Scan(s.from.name, s.from.alias), None)
  }

  function WithJoins(p: Plan, joins: seq<JoinClause>): Plan {
    if joins == [] then p
    else
      var j := joins[|joins| - 1];
      Join(WithJoins(p, joins[..|joins| - 1]), Scan(j.table.name, j.table.alias), j.left, j.on)
  }

  function Filtered(p: Plan, rest: Option<Expr>, where_: Option<Expr>): Plan {
    if rest.Some? then Filter(p, rest.value)
    else if where_.Some? && !IsIndexNode(p) then Filter(p, where_.value)
    else p
  }

  predicate HasAggregates(columns: seq<Column>) {
    exists i :: 0 <= i < |columns| && columns[i].aggregate
  }

  function Projected(p: Plan, s: Select): Plan {
    if s.groupBy != [] || HasAggregates(s.columns) then Aggregate(p, s.columns, s.groupBy, s.having)
    else Project(p, s.columns)
  }

  /** The index that replaces the whole plan by an ordered scan, if the planner takes that step. */
  function OrderedIndex(catalog: Catalog, s: Select, p: Plan): Option<Meta>
    requires s.orderBy != []
  {
    if HasFilterOrIndexScan(p) then None
    else
      match PickIndex(catalog, s.from.name, OrderColumn(s.orderBy[0].expr), ForRange)
      case Some(idx) => if idx.kind == BTree then Some(idx) else None
      case None => None
  }

  predicate ServesOrder(p: Plan, column: Name) {
    && UnwrapIndexScan(p).Some?
    && UnwrapIndexScan(p).value.IndexScan?
    && SameName(UnwrapIndexScan(p).value.column, column)
  }

  function Ordered(catalog: Catalog, s: Select, p: Plan): Plan {
    if s.orderBy == [] then p
    else if |s.orderBy| == 1 && OrderColumn(s.orderBy[0].expr) != [] then
      if ServesOrder(p, OrderColumn(s.orderBy[0].expr)) then
        if s.orderBy[0].ascending then p else InjectReverse(p)
      else
        match OrderedIndex(catalog, s, p)
        case Some(idx) =>
          OrderedScan(s.from.name, s.from.alias, idx.name, OrderColumn(s.orderBy[0].expr), s.orderBy[0].ascending)
        case None => Sort(p, s.orderBy)
    else Sort(p, s.orderBy)
  }

  function Limited(p: Plan, limit: Option<int>, offset: Option<int>): Plan {
    if limit.None? && offset.None? then p
    else
      Limit(p, if limit.Some? then limit.value else 0, if offset.Some? then offset.value else 0)
  }

  function BeforeOrder(catalog: Catalog, s: Select): Plan {
    var (scan, rest) := Source(catalog, s);
    Projected(Filtered(WithJoins(scan, s.joins), rest, s.where_), s)
  }

  function PlanOf(catalog: Catalog, s: Select): Plan {
    Limited(Ordered(catalog, s, BeforeOrder(catalog, s)), s.limit, s.offset)
  }

  method PlanSource(catalog: Catalog, s: Select) returns (node: Plan)
    ensures var (scan, rest) := Source(catalog, s); node == Filtered(WithJoins(scan, s.joins), rest, s.where_)
  {
    var consumed: Option<Expr> := None;
    node := Scan(s.from.name, s.from.alias);
    if s.joins == [] && catalog.Some? && s.where_.Some? {
      var served := TryIndex(catalog, s.from, s.where_.value);
      if served.Some? {
        node, consumed := served.value.0, served.value.1;
      }
    }
    ghost var scan := node;
    for i := 0 to |s.joins|
      invariant node == WithJoins(scan, s.joins[..i])
    {
      assert s.joins[..i + 1][..i] == s.joins[..i];
      node := Join(node, Scan(s.joins[i].table.name, s.joins[i].table.alias), s.joins[i].left, s.joins[i].on);
    }
    assert s.joins[..|s.joins|] == s.joins;
    if consumed.Some? {
      node := Filter(node, consumed.value);
    } else if s.where_.Some? && !IsIndexNode(node) {
      node := Filter(node, s.where_.value);
    }
  }

  method PlanOrder(catalog: Catalog, s: Select, p: Plan) returns (node: Plan)
    ensures node == Ordered(catalog, s, p)
  {
    node := p;
    var orderConsumed := false;
    if |s.orderBy| == 1 && OrderColumn(s.orderBy[0].expr) != [] {
      var column := OrderColumn(s.orderBy[0].expr);
      var scanned := UnwrapIndexScan(node);
      if scanned.Some? && scanned.value.IndexScan? && SameName(scanned.value.column, column) {
        if !s.orderBy[0].ascending {
          node := InjectReverse(node);
        }
        orderConsumed := true;
      }
      if !orderConsumed && !HasFilterOrIndexScan(node) {
        var idx := PickIndex(catalog, s.from.name, column, ForRange);
        if idx.Some? && idx.value.kind == BTree {
          node := OrderedScan(s.from.name, s.from.alias, idx.value.name, column, s.orderBy[0].ascending);
          orderConsumed := true;
        }
      }
    }
    if s.orderBy != [] && !orderConsumed {
      node := Sort(node, s.orderBy);
    }
  }

  /** planSelect, for a statement that has a FROM. */
  method PlanSelect(catalog: Catalog, s: Select) returns (node: Plan)
    ensures node == PlanOf(catalog, s)
  {
    node := PlanSource(catalog, s);
    if s.groupBy != [] || HasAggregates(s.columns) {
      node := Aggregate(node, s.columns, s.groupBy, s.having);
    } else {
      node := Project(node, s.columns);
    }
    node := PlanOrder(catalog, s, node);
    if s.limit.Some? || s.offset.Some? {
      node := Limit(node, if s.limit.Some? then s.limit.value else 0, if s.offset.Some? then s.offset.value else 0);
    }
  }
}
