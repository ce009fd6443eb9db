/**
 What the operators of a WHERE clause mean, told by the rows that whole statements choose: OR, AND, NOT
 and the comparisons as operations on sets of rows, which values count as true, and arithmetic on
 integers that binary64 holds exactly.  Every law holds with and without indexes.
 */
module WhereLaws {
  import opened Bytes
  import opened Engine
  import opened Floats
  import opened Encoding
  import opened IndexKeys
  import opened IndexUpkeep
  import opened Ast
  import opened Eval
  import opened Planner
  import opened Execute
  import opened PlanRows
  import opened PlanMeaning

  /** The statement with this WHERE. */
  function Where(s: Select, e: Expr): Select {
    s.(where_ := Some(e))
  }

  /** A statement on one stored table; if an index serves a conjunct, its column and literal fit. */
  ghost predicate Asks(sem: Semantics, tables: Tables, db: Db, catalog: Catalog, s: Select, e: Expr) {
    && s.from.name in tables
    && exists t :: Setting(sem, t, tables, db, catalog, Where(s, e))
  }

  ghost function Stored(tables: Tables, db: Db, s: Select): Rows
    requires s.from.name in tables
  {
    RowsOf(db.data, tables[s.from.name])
  }

  /** The ids of the rows the statement chooses under this WHERE, in the order of its plan. */
  ghost function Selected(sem: Semantics, tables: Tables, db: Db, catalog: Catalog, s: Select, e: Expr): seq<Key>
    requires s.from.name in tables
  {
    SourceIds(sem, tables, db, catalog, Where(s, e))
  }

  ghost function Chosen(sem: Semantics, tables: Tables, db: Db, catalog: Catalog, s: Select, e: Expr): set<Key>
    requires s.from.name in tables
  {
    set id | id in Selected(sem, tables, db, catalog, s, e)
  }

  /** The value of an expression on a stored row. */
  ghost function ValueOn(sem: Semantics, tables: Tables, db: Db, s: Select, e: Expr, id: Key): Value
    requires s.from.name in tables && id in Stored(tables, db, s)
  {
    EvalExpr(sem, e, Aliased(Stored(tables, db, s)[id], s.from.alias))
  }

  /** These are the ids of the rows on which the expression is true. */
  ghost predicate Picks(sem: Semantics, rows: Rows, alias: Name, e: Expr, ids: set<Key>) {
    forall id :: id in ids <==> id in rows && ToBool(EvalExpr(sem, e, Aliased(rows[id], alias)))
  }

  lemma ChosenIs(sem: Semantics, tables: Tables, db: Db, catalog: Catalog, s: Select, e: Expr)
    requires Asks(sem, tables, db, catalog, s, e)
    ensures Once(Selected(sem, tables, db, catalog, s, e))
    ensures Picks(sem, Stored(tables, db, s), s.from.alias, e, Chosen(sem, tables, db, catalog, s, e))
  {
    var t :| Setting(sem, t, tables, db, catalog, Where(s, e));
    SourceSelects(sem, t, tables, db, catalog, Where(s, e));
  }

  // ---- connectives ----

  lemma ConnectivesPick(sem: Semantics, rows: Rows, alias: Name, op: Operator, l: Expr, r: Expr, a: set<Key>, b: set<Key>, both: set<Key>)
    requires Picks(sem, rows, alias, l, a) && Picks(sem, rows, alias, r, b) && Picks(sem, rows, alias, Binary(op, l, r), both)
    ensures op == Or ==> both == a + b
    ensures op == And ==> both == a * b
  {
  }

  lemma NotPicks(sem: Semantics, rows: Rows, alias: Name, e: Expr, a: set<Key>, others: set<Key>)
    requires Picks(sem, rows, alias, e, a) && Picks(sem, rows, alias, Unary(Not, e), others)
    ensures others == rows.Keys - a
  {
  }

  lemma OrIsUnion(sem: Semantics, tables: Tables, db: Db, catalog: Catalog, s: Select, l: Expr, r: Expr)
    requires Asks(sem, tables, db, catalog, s, l) && Asks(sem, tables, db, catalog, s, r)
    requires Asks(sem, tables, db, catalog, s, Binary(Or, l, r))
    ensures Once(Selected(sem, tables, db, catalog, s, Binary(Or, l, r)))
    ensures Chosen(sem, tables, db, catalog, s, Binary(Or, l, r))
            == Chosen(sem, tables, db, catalog, s, l) + Chosen(sem, tables, db, catalog, s, r)
  {
    ChosenIs(sem, tables, db, catalog, s, l);
    ChosenIs(sem, tables, db, catalog, s, r);
    ChosenIs(sem, tables, db, catalog, s, Binary(Or, l, r));
    ConnectivesPick(sem, Stored(tables, db, s), s.from.alias, Or, l, r,
                    Chosen(sem, tables, db, catalog, s, l), Chosen(sem, tables, db, catalog, s, r), Chosen(sem, tables, db, catalog, s, Binary(Or, l, r)));
  }

  lemma AndIsIntersection(sem: Semantics, tables: Tables, db: Db, catalog: Catalog, s: Select, l: Expr, r: Expr)
    requires Asks(sem, tables, db, catalog, s, l) && Asks(sem, tables, db, catalog, s, r)
    requires Asks(sem, tables, db, catalog, s, Binary(And, l, r))
    ensures Once(Selected(sem, tables, db, catalog, s, Binary(And, l, r)))
    ensures Chosen(sem, tables, db, catalog, s, Binary(And, l, r))
            == Chosen(sem, tables, db, catalog, s, l) * Chosen(sem, tables, db, catalog, s, r)
  {
    ChosenIs(sem, tables, db, catalog, s, l);
    ChosenIs(sem, tables, db, catalog, s, r);
    ChosenIs(sem, tables, db, catalog, s, Binary(And, l, r));
    ConnectivesPick(sem, Stored(tables, db, s), s.from.alias, And, l, r,
                    Chosen(sem, tables, db, catalog, s, l), Chosen(sem, tables, db, catalog, s, r), Chosen(sem, tables, db, catalog, s, Binary(And, l, r)));
  }

  lemma NotIsComplement(sem: Semantics, tables: Tables, db: Db, catalog: Catalog, s: Select, e: Expr)
    requires Asks(sem, tables, db, catalog, s, e) && Asks(sem, tables, db, catalog, s, Unary(Not, e))
    ensures Once(Selected(sem, tables, db, catalog, s, Unary(Not, e)))
    ensures Chosen(sem, tables, db, catalog, s, Unary(Not, e)) == Stored(tables, db, s).Keys - Chosen(sem, tables, db, catalog, s, e)
  {
    ChosenIs(sem, tables, db, catalog, s, e);
    ChosenIs(sem, tables, db, catalog, s, Unary(Not, e));
    NotPicks(sem, Stored(tables, db, s), s.from.alias, e, Chosen(sem, tables, db, catalog, s, e), Chosen(sem, tables, db, catalog, s, Unary(Not, e)));
  }

  // ---- truth ----

  /** The values that fail a WHERE. */
  predicate IsFalse(v: Value) {
    v == Null || v == Bool(false) || v == Int(0) || v == Num(0) || v == Num(NEGATIVE_ZERO) || v == Str([])
  }

  lemma TruthOf(v: Value)
    ensures ToBool(v) <==> !IsFalse(v)
  {
    if v.Num? {
      OnlyZerosAreZero(v.bits);
      assert !IsNaN(0) && !IsNaN(NEGATIVE_ZERO);
    }
  }

  lemma TruthPicks(sem: Semantics, rows: Rows, alias: Name, e: Expr, ids: set<Key>)
    requires Picks(sem, rows, alias, e, ids)
    ensures ids == set id | id in rows && !IsFalse(EvalExpr(sem, e, Aliased(rows[id], alias)))
  {
    forall id | id in rows
      ensures ToBool(EvalExpr(sem, e, Aliased(rows[id], alias))) <==> !IsFalse(EvalExpr(sem, e, Aliased(rows[id], alias)))
    {
      TruthOf(EvalExpr(sem, e, Aliased(rows[id], alias)));
    }
  }

  /** A WHERE chooses the rows on which its value is none of NULL, false, the zeros and the empty string. */
  lemma TruthChooses(sem: Semantics, tables: Tables, db: Db, catalog: Catalog, s: Select, e: Expr)
    requires Asks(sem, tables, db, catalog, s, e)
    ensures Chosen(sem, tables, db, catalog, s, e)
            == set id | id in Stored(tables, db, s) && !IsFalse(ValueOn(sem, tables, db, s, e, id))
  {
    ChosenIs(sem, tables, db, catalog, s, e);
    TruthPicks(sem, Stored(tables, db, s), s.from.alias, e, Chosen(sem, tables, db, catalog, s, e));
  }

  lemma ConstantPicks(sem: Semantics, rows: Rows, alias: Name, a: set<Key>, b: set<Key>, c: set<Key>)
    requires Picks(sem, rows, alias, BoolLit(true), a) && Picks(sem, rows, alias, BoolLit(false), b) && Picks(sem, rows, alias, NullLit, c)
    ensures a == rows.Keys && b == {} && c == {}
  {
  }

  lemma ConstantChooses(sem: Semantics, tables: Tables, db: Db, catalog: Catalog, s: Select)
    requires Asks(sem, tables, db, catalog, s, BoolLit(true)) && Asks(sem, tables, db, catalog, s, BoolLit(false))
    requires Asks(sem, tables, db, catalog, s, NullLit)
    ensures Chosen(sem, tables, db, catalog, s, BoolLit(true)) == Stored(tables, db, s).Keys
    ensures Chosen(sem, tables, db, catalog, s, BoolLit(false)) == {}
    ensures Chosen(sem, tables, db, catalog, s, NullLit) == {}
  {
    ChosenIs(sem, tables, db, catalog, s, BoolLit(true));
    ChosenIs(sem, tables, db, catalog, s, BoolLit(false));
    ChosenIs(sem, tables, db, catalog, s, NullLit);
    ConstantPicks(sem, Stored(tables, db, s), s.from.alias, Chosen(sem, tables, db, catalog, s, BoolLit(true)),
                  Chosen(sem, tables, db, catalog, s, BoolLit(false)), Chosen(sem, tables, db, catalog, s, NullLit));
  }

  // ---- comparisons ----

  lemma CompareFlips(sem: Semantics, a: Value, b: Value)
    ensures Compare(sem, a, b) == -Compare(sem, b, a)
  {
    if a.Num? || a.Int? || b.Num? || b.Int? {
    } else if a != Null && b != Null && !(a.Bool? && b.Bool?) {
      Trichotomy(Text(a), Text(b));
      if Less(Text(a), Text(b)) {
        Asymmetric(Text(a), Text(b));
      } else if Less(Text(b), Text(a)) {
        Asymmetric(Text(b), Text(a));
      }
    }
  }

  datatype Compared = Compared(eq: set<Key>, neq: set<Key>, lt: set<Key>, lte: set<Key>, gt: set<Key>, gte: set<Key>)

  /** The rows each comparison of x and y chooses. */
  ghost function Comparisons(sem: Semantics, tables: Tables, db: Db, catalog: Catalog, s: Select, x: Expr, y: Expr): Compared
    requires s.from.name in tables
  {
    Compared(Chosen(sem, tables, db, catalog, s, Binary(Eq, x, y)), Chosen(sem, tables, db, catalog, s, Binary(Neq, x, y)),
             Chosen(sem, tables, db, catalog, s, Binary(Lt, x, y)), Chosen(sem, tables, db, catalog, s, Binary(Lte, x, y)),
             Chosen(sem, tables, db, catalog, s, Binary(Gt, x, y)), Chosen(sem, tables, db, catalog, s, Binary(Gte, x, y)))
  }

  ghost predicate AsksAll(sem: Semantics, tables: Tables, db: Db, catalog: Catalog, s: Select, x: Expr, y: Expr) {
    && Asks(sem, tables, db, catalog, s, Binary(Eq, x, y)) && Asks(sem, tables, db, catalog, s, Binary(Neq, x, y))
    && Asks(sem, tables, db, catalog, s, Binary(Lt, x, y)) && Asks(sem, tables, db, catalog, s, Binary(Lte, x, y))
    && Asks(sem, tables, db, catalog, s, Binary(Gt, x, y)) && Asks(sem, tables, db, catalog, s, Binary(Gte, x, y))
  }

  ghost predicate PicksAll(sem: Semantics, rows: Rows, alias: Name, x: Expr, y: Expr, c: Compared) {
    && Picks(sem, rows, alias, Binary(Eq, x, y), c.eq) && Picks(sem, rows, alias, Binary(Neq, x, y), c.neq)
    && Picks(sem, rows, alias, Binary(Lt, x, y), c.lt) && Picks(sem, rows, alias, Binary(Lte, x, y), c.lte)
    && Picks(sem, rows, alias, Binary(Gt, x, y), c.gt) && Picks(sem, rows, alias, Binary(Gte, x, y), c.gte)
  }

  lemma ComparisonsPick(sem: Semantics, tables: Tables, db: Db, catalog: Catalog, s: Select, x: Expr, y: Expr)
    requires AsksAll(sem, tables, db, catalog, s, x, y)
    ensures PicksAll(sem, Stored(tables, db, s), s.from.alias, x, y, Comparisons(sem, tables, db, catalog, s, x, y))
  {
    ChosenIs(sem, tables, db, catalog, s, Binary(Eq, x, y));
    ChosenIs(sem, tables, db, catalog, s, Binary(Neq, x, y));
    ChosenIs(sem, tables, db, catalog, s, Binary(Lt, x, y));
    ChosenIs(sem, tables, db, catalog, s, Binary(Lte, x, y));
    ChosenIs(sem, tables, db, catalog, s, Binary(Gt, x, y));
    ChosenIs(sem, tables, db, catalog, s, Binary(Gte, x, y));
  }

  /** The sets split all the rows, and the other three operators are the complements. */
  ghost predicate Partition(all: set<Key>, c: Compared) {
    && c.eq + c.lt + c.gt == all && c.eq !! c.lt && c.eq !! c.gt && c.lt !! c.gt
    && c.neq == all - c.eq && c.gte == all - c.lt && c.lte == all - c.gt
  }

  lemma PicksSplit(sem: Semantics, rows: Rows, alias: Name, x: Expr, y: Expr, eq: set<Key>, lt: set<Key>, gt: set<Key>)
    requires Picks(sem, rows, alias, Binary(Eq, x, y), eq) && Picks(sem, rows, alias, Binary(Lt, x, y), lt)
    requires Picks(sem, rows, alias, Binary(Gt, x, y), gt)
    ensures eq + lt + gt == rows.Keys && eq !! lt && eq !! gt && lt !! gt
  {
  }

  lemma PicksComplement(sem: Semantics, rows: Rows, alias: Name, op: Operator, x: Expr, y: Expr, ids: set<Key>, others: set<Key>)
    requires op in {Eq, Lt, Gt} && Picks(sem, rows, alias, Binary(op, x, y), ids)
    requires Picks(sem, rows, alias, Binary(if op == Eq then Neq else if op == Lt then Gte else Lte, x, y), others)
    ensures others == rows.Keys - ids
  {
  }

  lemma PicksPartition(sem: Semantics, rows: Rows, alias: Name, x: Expr, y: Expr, c: Compared)
    requires PicksAll(sem, rows, alias, x, y, c)
    ensures Partition(rows.Keys, c)
  {
    PicksSplit(sem, rows, alias, x, y, c.eq, c.lt, c.gt);
    PicksComplement(sem, rows, alias, Eq, x, y, c.eq, c.neq);
    PicksComplement(sem, rows, alias, Lt, x, y, c.lt, c.gte);
    PicksComplement(sem, rows, alias, Gt, x, y, c.gt, c.lte);
  }

  /** Every row is chosen by exactly one of <, = and >; the other three are the complements of these. */
  lemma ComparisonsPartition(sem: Semantics, tables: Tables, db: Db, catalog: Catalog, s: Select, x: Expr, y: Expr)
    requires AsksAll(sem, tables, db, catalog, s, x, y)
    ensures Partition(Stored(tables, db, s).Keys, Comparisons(sem, tables, db, catalog, s, x, y))
  {
    ComparisonsPick(sem, tables, db, catalog, s, x, y);
    PicksPartition(sem, Stored(tables, db, s), s.from.alias, x, y, Comparisons(sem, tables, db, catalog, s, x, y));
  }

  lemma PicksFlip(sem: Semantics, rows: Rows, alias: Name, x: Expr, y: Expr, c: Compared, d: Compared)
    requires PicksAll(sem, rows, alias, x, y, c) && PicksAll(sem, rows, alias, y, x, d)
    ensures c.gt == d.lt && c.eq == d.eq
  {
    forall id | id in rows ensures (id in c.gt <==> id in d.lt) && (id in c.eq <==> id in d.eq) {
      PicksFlipAt(sem, rows, alias, x, y, c, d, id);
    }
  }

  lemma PicksFlipAt(sem: Semantics, rows: Rows, alias: Name, x: Expr, y: Expr, c: Compared, d: Compared, id: Key)
    requires PicksAll(sem, rows, alias, x, y, c) && PicksAll(sem, rows, alias, y, x, d) && id in rows
    ensures (id in c.gt <==> id in d.lt) && (id in c.eq <==> id in d.eq)
  {
    CompareFlips(sem, EvalExpr(sem, x, Aliased(rows[id], alias)), EvalExpr(sem, y, Aliased(rows[id], alias)));
  }

  /** x > y chooses what y < x chooses, and x = y what y = x does. */
  lemma ComparisonsFlip(sem: Semantics, tables: Tables, db: Db, catalog: Catalog, s: Select, x: Expr, y: Expr)
    requires AsksAll(sem, tables, db, catalog, s, x, y) && AsksAll(sem, tables, db, catalog, s, y, x)
    ensures Comparisons(sem, tables, db, catalog, s, x, y).gt == Comparisons(sem, tables, db, catalog, s, y, x).lt
    ensures Comparisons(sem, tables, db, catalog, s, x, y).eq == Comparisons(sem, tables, db, catalog, s, y, x).eq
  {
    ComparisonsPick(sem, tables, db, catalog, s, x, y);
    ComparisonsPick(sem, tables, db, catalog, s, y, x);
    PicksFlip(sem, Stored(tables, db, s), s.from.alias, x, y, Comparisons(sem, tables, db, catalog, s, x, y),
              Comparisons(sem, tables, db, catalog, s, y, x));
  }

  // ---- arithmetic ----

  const TWO53: int := 0x20_0000_0000_0000

  /** The integers up to 2^53, all of which are binary64 numbers. */
  predicate Small(n: int) {
    -TWO53 <= n <= TWO53
  }

  /** Arithmetic whose exact result is one of these integers gives that result (section 5 of IEEE 754-2019). */
  ghost predicate ExactIntegers(sem: Semantics) {
    var of := sem.env.ofInt;
    && (forall m, n {:trigger Scaled(of(m)), Scaled(of(n))} | Small(m) && Small(n) :: Scaled(of(m)) < Scaled(of(n)) <==> m < n)
    && (forall n {:trigger of(n)} | Small(n) :: !IsNaN(of(n)) && sem.toInt(of(n)) == n && (Scaled(of(n)) == 0 <==> n == 0))
    && (forall m, n {:trigger sem.add(of(m), of(n))} | Small(m) && Small(n) && Small(m + n) :: sem.add(of(m), of(n)) == of(m + n))
    && (forall m, n {:trigger sem.subtract(of(m), of(n))} | Small(m) && Small(n) && Small(m - n) :: sem.subtract(of(m), of(n)) == of(m - n))
    && (forall m, n {:trigger sem.multiply(of(m), of(n))} | Small(m) && Small(n) && Small(m * n) :: sem.multiply(of(m), of(n)) == of(m * n))
    && (forall m, n, k {:trigger sem.divide(of(m), of(n)), of(k)} | Small(m) && Small(n) && Small(k) && n != 0 && m == k * n ::
          sem.divide(of(m), of(n)) == of(k))
    && (forall n {:trigger sem.negate(of(n))} | Small(n) :: sem.negate(of(n)) == of(-n))
  }

  /** What the operator makes of two integers; division only where it is exact, and the sign of a remainder is that of m. */
  ghost predicate Makes(op: Operator, m: int, n: int, k: int) {
    match op
    case Plus => k == m + n
    case Minus => k == m - n
    case Multiply => k == m * n
    case Divide => n != 0 && m == k * n
    case Modulo => n != 0 && (exists q: int :: m == q * n + k) && (if n < 0 then n < k < -n else -n < k < n) && (k == 0 || (k < 0 <==> m < 0))
    case _ => false
  }

  /** The exact result is an integer up to 2^53, or there is none because the divisor is zero. */
  ghost predicate HasResult(op: Operator, m: int, n: int) {
    Small(m) && Small(n) && ((op in {Divide, Modulo} && n == 0) || exists k :: Small(k) && Makes(op, m, n, k))
  }

  lemma RemainderIs(m: int, n: int)
    requires n != 0
    ensures Makes(Modulo, m, n, Remainder(m, n))
  {
    var a := if m < 0 then -m else m;
    var q, k := a / n, a % n;
    assert a == n * q + k;
    if m < 0 {
      assert m == (-q) * n + (-k);
    } else {
      assert m == q * n + k;
    }
  }

  lemma RemainderUnique(m: int, n: int, k: int, k': int)
    requires Makes(Modulo, m, n, k) && Makes(Modulo, m, n, k')
    ensures k == k'
  {
    var q: int :| m == q * n + k;
    var q': int :| m == q' * n + k';
    assert (q - q') * n == k' - k;
    var d, a := q - q', if n < 0 then -n else n;
    assert -a < k' - k < a;
    if d != 0 {
      FarApart(d, n);
    }
  }

  lemma FarApart(d: int, n: int)
    requires d != 0
    ensures d * n >= (if n < 0 then -n else n) || d * n <= -(if n < 0 then -n else n)
  {
    if d >= 1 {
      if n >= 0 {
        assert d * n >= n;
      } else {
        assert d * (-n) >= -n;
      }
    } else {
      if n >= 0 {
        assert (-d) * n >= n;
      } else {
        assert (-d) * (-n) >= -n;
      }
    }
  }

  lemma ResultUnique(op: Operator, m: int, n: int, k: int, k': int)
    requires Makes(op, m, n, k) && Makes(op, m, n, k')
    ensures k == k'
  {
    if op == Modulo {
      RemainderUnique(m, n, k, k');
    } else if op == Divide {
      assert (k - k') * n == 0;
      if k != k' {
        FarApart(k - k', n);
      }
    }
  }

  lemma OperatorMakes(sem: Semantics, op: Operator, m: int, n: int, k: int)
    requires ExactIntegers(sem) && Small(m) && Small(n) && Small(k) && Makes(op, m, n, k)
    ensures BinaryOp(sem, op, Int(m), Int(n)) == Num(sem.env.ofInt(k))
  {
    var of := sem.env.ofInt;
    assert of(m) == of(m) && of(n) == of(n) && of(k) == of(k);
    if op == Modulo {
      RemainderIs(m, n);
      RemainderUnique(m, n, k, Remainder(m, n));
    }
  }

  /** A comparison of an arithmetic result with an integer literal is that of the integers. */
  lemma ArithmeticIs(sem: Semantics, op: Operator, m: int, n: int, k: int)
    requires ExactIntegers(sem) && op in {Plus, Minus, Multiply, Divide, Modulo} && HasResult(op, m, n) && Small(k)
    ensures Compare(sem, BinaryOp(sem, op, Int(m), Int(n)), Int(k)) == 0 <==> Makes(op, m, n, k)
  {
    var of := sem.env.ofInt;
    if op in {Divide, Modulo} && n == 0 {
      assert Scaled(of(n)) == 0 && sem.toInt(of(n)) == 0;
    } else {
      var x :| Small(x) && Makes(op, m, n, x);
      OperatorMakes(sem, op, m, n, x);
      assert !IsNaN(of(x)) && !IsNaN(of(k));
      assert Scaled(of(x)) < Scaled(of(k)) <==> x < k;
      assert Scaled(of(k)) < Scaled(of(x)) <==> k < x;
      if Makes(op, m, n, k) {
        ResultUnique(op, m, n, x, k);
      }
    }
  }

  /** The value of an expression on a stored row is an integer. */
  ghost predicate IsIntOn(sem: Semantics, rows: Rows, alias: Name, e: Expr, id: Key) {
    id in rows && EvalExpr(sem, e, Aliased(rows[id], alias)).Int?
  }

  ghost function IntOn(sem: Semantics, rows: Rows, alias: Name, e: Expr, id: Key): int
    requires IsIntOn(sem, rows, alias, e, id)
  {
    EvalExpr(sem, e, Aliased(rows[id], alias)).n
  }

  ghost predicate Computes(sem: Semantics, rows: Rows, alias: Name, op: Operator, x: Expr, y: Expr) {
    forall id | id in rows ::
      IsIntOn(sem, rows, alias, x, id) && IsIntOn(sem, rows, alias, y, id)
      && HasResult(op, IntOn(sem, rows, alias, x, id), IntOn(sem, rows, alias, y, id))
  }

  lemma ArithmeticOn(sem: Semantics, row: Row, op: Operator, x: Expr, y: Expr, k: int)
    requires ExactIntegers(sem) && op in {Plus, Minus, Multiply, Divide, Modulo} && Small(k)
    requires var v, w := EvalExpr(sem, x, row), EvalExpr(sem, y, row); v.Int? && w.Int? && HasResult(op, v.n, w.n)
    ensures ToBool(EvalExpr(sem, Binary(Eq, Binary(op, x, y), IntLit(k)), row))
            <==> Makes(op, EvalExpr(sem, x, row).n, EvalExpr(sem, y, row).n, k)
  {
    ArithmeticIs(sem, op, EvalExpr(sem, x, row).n, EvalExpr(sem, y, row).n, k);
  }

  lemma MinusOn(sem: Semantics, row: Row, x: Expr, k: int)
    requires ExactIntegers(sem) && Small(k) && EvalExpr(sem, x, row).Int? && Small(EvalExpr(sem, x, row).n)
    ensures ToBool(EvalExpr(sem, Binary(Eq, Unary(Minus, x), IntLit(k)), row)) <==> EvalExpr(sem, x, row).n == -k
  {
    var of, n := sem.env.ofInt, EvalExpr(sem, x, row).n;
    assert EvalExpr(sem, Unary(Minus, x), row) == Num(of(-n));
    assert Small(-n) && !IsNaN(of(-n)) && !IsNaN(of(k));
    assert Scaled(of(-n)) < Scaled(of(k)) <==> -n < k;
    assert Scaled(of(k)) < Scaled(of(-n)) <==> k < -n;
  }

  lemma ArithmeticPicks(sem: Semantics, rows: Rows, alias: Name, op: Operator, x: Expr, y: Expr, k: int, ids: set<Key>)
    requires ExactIntegers(sem) && op in {Plus, Minus, Multiply, Divide, Modulo} && Small(k)
    requires Computes(sem, rows, alias, op, x, y) && Picks(sem, rows, alias, Binary(Eq, Binary(op, x, y), IntLit(k)), ids)
    ensures forall id :: id in ids <==> id in rows && Makes(op, IntOn(sem, rows, alias, x, id), IntOn(sem, rows, alias, y, id), k)
  {
    forall id | id in rows
      ensures id in ids <==> Makes(op, IntOn(sem, rows, alias, x, id), IntOn(sem, rows, alias, y, id), k)
    {
      assert IsIntOn(sem, rows, alias, x, id) && IsIntOn(sem, rows, alias, y, id);
      ArithmeticOn(sem, Aliased(rows[id], alias), op, x, y, k);
    }
  }

  /** `x op y = k` chooses exactly the rows on which the integers x and y make k; none where a divisor is zero. */
  lemma ArithmeticChooses(sem: Semantics, tables: Tables, db: Db, catalog: Catalog, s: Select, op: Operator, x: Expr, y: Expr, k: int)
    requires ExactIntegers(sem) && op in {Plus, Minus, Multiply, Divide, Modulo} && Small(k)
    requires Asks(sem, tables, db, catalog, s, Binary(Eq, Binary(op, x, y), IntLit(k)))
    requires Computes(sem, Stored(tables, db, s), s.from.alias, op, x, y)
    ensures var rows, alias := Stored(tables, db, s), s.from.alias;
            forall id :: id in Chosen(sem, tables, db, catalog, s, Binary(Eq, Binary(op, x, y), IntLit(k)))
                         <==> id in rows && Makes(op, IntOn(sem, rows, alias, x, id), IntOn(sem, rows, alias, y, id), k)
  {
    var e := Binary(Eq, Binary(op, x, y), IntLit(k));
    ChosenIs(sem, tables, db, catalog, s, e);
    ArithmeticPicks(sem, Stored(tables, db, s), s.from.alias, op, x, y, k, Chosen(sem, tables, db, catalog, s, e));
  }

  /** On each row the expression is one of these integers. */
  ghost predicate SmallOn(sem: Semantics, rows: Rows, alias: Name, x: Expr) {
    var small := forall id | id in rows :: IsIntOn(sem, rows, alias, x, id) && Small(IntOn(sem, rows, alias, x, id));
    small
  }

  lemma MinusPicks(sem: Semantics, rows: Rows, alias: Name, x: Expr, k: int, ids: set<Key>)
    requires ExactIntegers(sem) && Small(k) && Picks(sem, rows, alias, Binary(Eq, Unary(Minus, x), IntLit(k)), ids)
    requires SmallOn(sem, rows, alias, x)
    ensures forall id :: id in ids <==> id in rows && IntOn(sem, rows, alias, x, id) == -k
  {
    forall id | id in rows ensures id in ids <==> IntOn(sem, rows, alias, x, id) == -k {
      assert IsIntOn(sem, rows, alias, x, id);
      MinusOn(sem, Aliased(rows[id], alias), x, k);
    }
  }

  /** `-x = k` chooses the rows on which x is -k. */
  lemma MinusChooses(sem: Semantics, tables: Tables, db: Db, catalog: Catalog, s: Select, x: Expr, k: int)
    requires ExactIntegers(sem) && Small(k) && Asks(sem, tables, db, catalog, s, Binary(Eq, Unary(Minus, x), IntLit(k)))
    requires SmallOn(sem, Stored(tables, db, s), s.from.alias, x)
    ensures var rows, alias := Stored(tables, db, s), s.from.alias;
            forall id :: id in Chosen(sem, tables, db, catalog, s, Binary(Eq, Unary(Minus, x), IntLit(k)))
                         <==> id in rows && IntOn(sem, rows, alias, x, id) == -k
  {
    var e := Binary(Eq, Unary(Minus, x), IntLit(k));
    ChosenIs(sem, tables, db, catalog, s, e);
    MinusPicks(sem, Stored(tables, db, s), s.from.alias, x, k, Chosen(sem, tables, db, catalog, s, e));
  }
}
