/** Evaluation of expressions over a row (internal/query/sql/executor.go). */
module Eval {
  import opened Bytes
  import opened Floats
  import opened Engine
  import opened Encoding
  import opened IndexKeys
  import opened Ast

  // What evaluation calls in Go's libraries: reading numbers from strings (strictly, and with errors
  // ignored), binary64 arithmetic, conversion to int64, and vector distance.
  datatype Semantics = Semantics(
    env: Env,
    parse: Key -> Option<Bits>,
    number: Key -> Bits,
    add: (Bits, Bits) -> Bits,
    subtract: (Bits, Bits) -> Bits,
    multiply: (Bits, Bits) -> Bits,
    divide: (Bits, Bits) -> Bits,
    toInt: Bits -> int,
    negate: Bits -> Bits,
    distance: (Value, Value) -> Value)

  predicate IsNumeric(v: Value) { v.Int? || v.Num? }

  function ToFloat(sem: Semantics, v: Value): Bits {
    match v
    case Int(n) => sem.env.ofInt(n)
    case Num(b) => b
    case Str(s) => sem.number(s)
    case _ => 0
  }

  function CompareFloat(a: Bits, b: Bits): int {
    if FloatLess(a, b) then -1 else if FloatLess(b, a) then 1 else 0
  }

  function CompareBytes(a: Key, b: Key): int {
    if Less(a, b) then -1 else if a == b then 0 else 1
  }

  const TRUE_TEXT: Key := [0x74, 0x72, 0x75, 0x65]
  const FALSE_TEXT: Key := [0x66, 0x61, 0x6C, 0x73, 0x65]

  /** The text of a value that is neither a number nor NULL. */
  function Text(v: Value): Key {
    match v
    case Bool(b) => if b then TRUE_TEXT else FALSE_TEXT
    case Str(s) => s
    case _ => []
  }

  /** compareValues. */
  function Compare(sem: Semantics, a: Value, b: Value): int {
    if a == Null && b == Null then 0
    else if a == Null then -1
    else if b == Null then 1
    else if a.Bool? && b.Bool? then
      if a.b == b.b then 0 else if !a.b then -1 else 1
    else if IsNumeric(a) && IsNumeric(b) then
      CompareFloat(ToFloat(sem, a), ToFloat(sem, b))
    else if IsNumeric(a) then
      if b.Str? && sem.parse(b.s).Some? then CompareFloat(ToFloat(sem, a), sem.parse(b.s).value) else -1
    else if IsNumeric(b) then
      if a.Str? && sem.parse(a.s).Some? then CompareFloat(sem.parse(a.s).value, ToFloat(sem, b)) else 1
    else
      CompareBytes(Text(a), Text(b))
  }

  function ToBool(v: Value): bool {
    match v
    case Null => false
    case Bool(b) => b
    case Str(s) => s != []
    case Int(n) => n != 0
    case Num(b) => IsNaN(b) || Scaled(b) != 0
  }

  /** Go's remainder has the sign of the dividend. */
  function Remainder(a: int, b: int): int
    requires b != 0
  {
    if a < 0 then -((-a) % b) else a % b
  }

  function BinaryOp(sem: Semantics, op: Operator, l: Value, r: Value): Value {
    match op
    case Eq => Bool(Compare(sem, l, r) == 0)
    case Neq => Bool(Compare(sem, l, r) != 0)
    case Lt => Bool(Compare(sem, l, r) < 0)
    case Lte => Bool(Compare(sem, l, r) <= 0)
    case Gt => Bool(Compare(sem, l, r) > 0)
    case Gte => Bool(Compare(sem, l, r) >= 0)
    case And => Bool(ToBool(l) && ToBool(r))
    case Or => Bool(ToBool(l) || ToBool(r))
    case Plus => Num(sem.add(ToFloat(sem, l), ToFloat(sem, r)))
    case Minus => Num(sem.subtract(ToFloat(sem, l), ToFloat(sem, r)))
    case Multiply => Num(sem.multiply(ToFloat(sem, l), ToFloat(sem, r)))
    case Divide =>
      if Scaled(ToFloat(sem, r)) == 0 then Null else Num(sem.divide(ToFloat(sem, l), ToFloat(sem, r)))
    case Modulo =>
      var divisor := sem.toInt(ToFloat(sem, r));
      if divisor == 0 then Null else Num(sem.env.ofInt(Remainder(sem.toInt(ToFloat(sem, l)), divisor)))
    case VectorDist => sem.distance(l, r)
    case Not => Null
  }

  function UnaryOp(sem: Semantics, op: Operator, v: Value): Value {
    match op
    case Minus => Num(sem.negate(ToFloat(sem, v)))
    case Not => Bool(!ToBool(v))
    case _ => v
  }

  const DOT: Byte := 0x2E
  const STAR_TEXT: Key := [0x2A]

  function FullName(table: Key, name: Key): Key {
    if table == [] then name else table + [DOT] + name
  }

  /** evalExpr; the predicate forms it does not know evaluate to NULL. */
  function EvalExpr(sem: Semantics, e: Expr, row: Row): Value {
    match e
    case Ident(table, name) =>
      if FullName(table, name) in row then row[FullName(table, name)]
      else if name in row then row[name]
      else Null
    case StringLit(s) => Str(s)
    case IntLit(n) => Int(n)
    case FloatLit(b) => Num(b)
    case BoolLit(b) => Bool(b)
    case NullLit => Null
    case Star => Str(STAR_TEXT)
    case Binary(op, l, r) => BinaryOp(sem, op, EvalExpr(sem, l, row), EvalExpr(sem, r, row))
    case Unary(op, x) => UnaryOp(sem, op, EvalExpr(sem, x, row))
    case Between(_, _, _, _) => Null
    case Like(_, _, _) => Null
    case IsNull(_, _) => Null
    case MatchAgainst(_, _) => Null
  }

  function EvalBool(sem: Semantics, e: Expr, row: Row): bool {
    ToBool(EvalExpr(sem, e, row))
  }

  // ---- comparison and index order ----

  datatype ColumnType = BoolColumn | NumberColumn | StringColumn

  /** A value of the column's type whose order the index keeps, or NULL. */
  predicate Fits(sem: Semantics, t: ColumnType, v: Value) {
    match v
    case Null => true
    case Bool(_) => t == BoolColumn
    case Int(n) => t == NumberColumn && Plain(sem.env.ofInt(n))
    case Num(b) => t == NumberColumn && Plain(b)
    case Str(s) => t == StringColumn && Folded(s)
  }

  lemma NumbersCompare(sem: Semantics, v: Value, w: Value)
    requires IsNumeric(v) && IsNumeric(w) && Fits(sem, NumberColumn, v) && Fits(sem, NumberColumn, w)
    ensures Compare(sem, v, w) < 0 <==> ValueLess(v, w, sem.env.ofInt)
    ensures Compare(sem, v, w) == 0 <==> SameInIndex(v, w, sem.env.ofInt)
  {
    var a, b := ToFloat(sem, v), ToFloat(sem, w);
    NumberOrder(a, b, sem.env.ofInt);
    NumberOrder(b, a, sem.env.ofInt);
    EqualOrLess(a, b);
    assert Raw(v, sem.env.ofInt) == Raw(Num(a), sem.env.ofInt) && Raw(w, sem.env.ofInt) == Raw(Num(b), sem.env.ofInt);
    ValueTrichotomy(Num(a), Num(b), sem.env.ofInt);
  }

  /** On one column, comparison is index order. */
  lemma CompareIsIndexOrder(sem: Semantics, t: ColumnType, v: Value, w: Value)
    requires Fits(sem, t, v) && Fits(sem, t, w)
    ensures Compare(sem, v, w) < 0 <==> ValueLess(v, w, sem.env.ofInt)
    ensures Compare(sem, v, w) == 0 <==> SameInIndex(v, w, sem.env.ofInt)
    ensures Compare(sem, v, w) > 0 <==> ValueLess(w, v, sem.env.ofInt)
  {
    Irreflexive([]);
    if v == Null || w == Null || t == BoolColumn {
    } else if t == NumberColumn {
      NumbersCompare(sem, v, w);
    } else {
      StringOrder(v.s, w.s, sem.env.ofInt);
    }
    ValueTrichotomy(v, w, sem.env.ofInt);
    ValueTrichotomy(w, v, sem.env.ofInt);
  }
}
