/**
 ORDER BY: the sort arranges the rows in the lexicographic order of all keys, rows of equal keys as they
 came, and there is one such arrangement.
 */
module RowOrder {
  import opened Bytes
  import opened Floats
  import opened Engine
  import opened Encoding
  import opened IndexKeys
  import opened Ast
  import opened Eval
  import opened Planner
  import opened Execute
  import opened SortElimination
  import opened WhereLaws

  // ---- lexicographic order ----

  /** How two rows compare on a key: negative, zero or positive, turned round for a descending key. */
  function KeyOrder(sem: Semantics, key: Order, a: Row, b: Row): int {
    var c := Compare(sem, EvalExpr(sem, key.expr, a), EvalExpr(sem, key.expr, b));
    if key.ascending then c else -c
  }

  /** The rows tie on the first k keys. */
  ghost predicate TieBefore(sem: Semantics, order: seq<Order>, a: Row, b: Row, k: nat)
    requires k <= |order|
  {
    forall i | 0 <= i < k :: KeyOrder(sem, order[i], a, b) == 0
  }

  /** On the first key that tells the rows apart, the first row is before the second. */
  ghost predicate Precedes(sem: Semantics, order: seq<Order>, a: Row, b: Row) {
    exists k :: 0 <= k < |order| && TieBefore(sem, order, a, b, k) && KeyOrder(sem, order[k], a, b) < 0
  }

  /** The comparison the program sorts by is lexicographic order. */
  lemma {:induction false} RowLessIff(sem: Semantics, order: seq<Order>, a: Row, b: Row)
    ensures RowLess(sem, order, a, b) <==> Precedes(sem, order, a, b)
  {
    if order != [] {
      var rest := order[1..];
      RowLessIff(sem, rest, a, b);
      if KeyOrder(sem, order[0], a, b) == 0 {
        PrecedesBehind(sem, order, a, b);
      } else if KeyOrder(sem, order[0], a, b) < 0 {
        assert TieBefore(sem, order, a, b, 0);
      }
    }
  }

  /** Where the first key ties, the others decide. */
  lemma PrecedesBehind(sem: Semantics, order: seq<Order>, a: Row, b: Row)
    requires order != [] && KeyOrder(sem, order[0], a, b) == 0
    ensures Precedes(sem, order, a, b) <==> Precedes(sem, order[1..], a, b)
  {
    var rest := order[1..];
    if Precedes(sem, order, a, b) {
      var k :| 0 <= k < |order| && TieBefore(sem, order, a, b, k) && KeyOrder(sem, order[k], a, b) < 0;
      assert TieBefore(sem, rest, a, b, k - 1) && rest[k - 1] == order[k];
    }
    if Precedes(sem, rest, a, b) {
      var k :| 0 <= k < |rest| && TieBefore(sem, rest, a, b, k) && KeyOrder(sem, rest[k], a, b) < 0;
      assert order[k + 1] == rest[k];
      forall i | 0 <= i < k + 1 ensures KeyOrder(sem, order[i], a, b) == 0 {
        if i > 0 {
          assert rest[i - 1] == order[i];
        }
      }
      assert TieBefore(sem, order, a, b, k + 1);
    }
  }

  // ---- when it is an order ----

  /** Comparison of strings with numbers is no order on all values: it must be one on the values at hand. */
  ghost predicate KeyOrders(sem: Semantics, key: Order, rows: seq<Row>) {
    forall a, b, c | a in rows && b in rows && c in rows ::
      KeyOrder(sem, key, a, b) <= 0 && KeyOrder(sem, key, b, c) <= 0 ==> KeyOrder(sem, key, a, c) <= 0
  }

  ghost predicate Orders(sem: Semantics, order: seq<Order>, rows: seq<Row>) {
    forall key | key in order :: KeyOrders(sem, key, rows)
  }

  /** Values of one type of column are ordered. */
  lemma FittingKeyOrders(sem: Semantics, t: ColumnType, key: Order, rows: seq<Row>)
    requires forall a | a in rows :: Fits(sem, t, EvalExpr(sem, key.expr, a))
    ensures KeyOrders(sem, key, rows)
  {
    forall a, b, c | a in rows && b in rows && c in rows && KeyOrder(sem, key, a, b) <= 0 && KeyOrder(sem, key, b, c) <= 0
      ensures KeyOrder(sem, key, a, c) <= 0
    {
      var x, y, z := EvalExpr(sem, key.expr, a), EvalExpr(sem, key.expr, b), EvalExpr(sem, key.expr, c);
      if key.ascending {
        FittingTransitive(sem, t, x, y, z);
      } else {
        CompareFlips(sem, x, y);
        CompareFlips(sem, y, z);
        CompareFlips(sem, x, z);
        FittingTransitive(sem, t, z, y, x);
      }
    }
  }

  lemma FittingTransitive(sem: Semantics, t: ColumnType, x: Value, y: Value, z: Value)
    requires Fits(sem, t, x) && Fits(sem, t, y) && Fits(sem, t, z)
    requires Compare(sem, x, y) <= 0 && Compare(sem, y, z) <= 0
    ensures Compare(sem, x, z) <= 0
  {
    CompareIsIndexOrder(sem, t, x, y);
    CompareIsIndexOrder(sem, t, y, z);
    CompareIsIndexOrder(sem, t, x, z);
    if ValueLess(z, x, sem.env.ofInt) {
      ValueTrichotomy(x, y, sem.env.ofInt);
      ValueTrichotomy(y, z, sem.env.ofInt);
      if ValueLess(x, y, sem.env.ofInt) {
        ValueLessTrans(z, x, y, sem.env.ofInt);
      } else if ValueLess(y, z, sem.env.ofInt) {
        ValueLessTrans(y, z, x, sem.env.ofInt);
      }
    }
  }

  lemma KeyOrderFlips(sem: Semantics, key: Order, a: Row, b: Row)
    ensures KeyOrder(sem, key, a, b) == -KeyOrder(sem, key, b, a)
  {
    CompareFlips(sem, EvalExpr(sem, key.expr, a), EvalExpr(sem, key.expr, b));
  }

  lemma {:induction false} LessIsAsymmetric(sem: Semantics, order: seq<Order>, a: Row, b: Row)
    requires RowLess(sem, order, a, b)
    ensures !RowLess(sem, order, b, a)
  {
    KeyOrderFlips(sem, order[0], a, b);
    if KeyOrder(sem, order[0], a, b) == 0 {
      LessIsAsymmetric(sem, order[1..], a, b);
    }
  }

  /** What is not before another, which is not before a third, is not before the third. */
  lemma {:induction false} NotLessTransitive(sem: Semantics, order: seq<Order>, rows: seq<Row>, a: Row, b: Row, c: Row)
    requires Orders(sem, order, rows) && a in rows && b in rows && c in rows
    requires !RowLess(sem, order, b, a) && !RowLess(sem, order, c, b)
    ensures !RowLess(sem, order, c, a)
  {
    if order != [] {
      var key := order[0];
      assert key in order;
      KeyOrderFlips(sem, key, a, b);
      KeyOrderFlips(sem, key, b, c);
      KeyOrderFlips(sem, key, a, c);
      assert KeyOrders(sem, key, rows);
      if KeyOrder(sem, key, a, c) == 0 {
        assert KeyOrder(sem, key, c, a) <= 0 && KeyOrder(sem, key, b, a) <= 0 && KeyOrder(sem, key, c, b) <= 0;
        assert forall k | k in order[1..] :: k in order;
        NotLessTransitive(sem, order[1..], rows, a, b, c);
      }
    }
  }

  // ---- stable arrangements ----

  /** Position i belongs before position j: its row precedes, or neither does and it came first. */
  ghost predicate Before(sem: Semantics, order: seq<Order>, rows: seq<Row>, i: nat, j: nat)
    requires i < |rows| && j < |rows|
  {
    Precedes(sem, order, rows[i], rows[j]) || (!Precedes(sem, order, rows[j], rows[i]) && i < j)
  }

  type Relation = (nat, nat) -> bool

  ghost function PositionOrder(sem: Semantics, order: seq<Order>, rows: seq<Row>): Relation {
    (i: nat, j: nat) => i < |rows| && j < |rows| && Before(sem, order, rows, i, j)
  }

  /** Each position belongs before all that stand behind it. */
  ghost predicate InOrder(before: Relation, p: seq<nat>) {
    forall i, j | 0 <= i < j < |p| :: before(p[i], p[j])
  }

  predicate Below(p: seq<nat>, n: nat) {
    forall k | 0 <= k < |p| :: p[k] < n
  }

  function Front(p: seq<nat>): seq<nat>
    requires p != []
  {
    p[..|p| - 1]
  }

  /** The positions below n, each of them once when they are in order. */
  ghost predicate AllBelow(p: seq<nat>, n: nat) {
    Below(p, n) && forall i: nat | i < n :: i in p
  }

  /** The rows at these positions. */
  ghost predicate At(rows: seq<Row>, p: seq<nat>, out: seq<Row>) {
    |out| == |p| && forall i | 0 <= i < |p| :: p[i] < |rows| && out[i] == rows[p[i]]
  }

  /** The rows, each once, in the order of all keys, those that tie as they came. */
  ghost predicate Arranges(sem: Semantics, order: seq<Order>, rows: seq<Row>, out: seq<Row>) {
    exists p :: InOrder(PositionOrder(sem, order, rows), p) && AllBelow(p, |rows|) && At(rows, p, out)
  }

  lemma BeforeIsTotal(sem: Semantics, order: seq<Order>, rows: seq<Row>, i: nat, j: nat)
    requires i < |rows| && j < |rows| && i != j
    ensures Before(sem, order, rows, i, j) <==> !Before(sem, order, rows, j, i)
  {
    RowLessIff(sem, order, rows[i], rows[j]);
    RowLessIff(sem, order, rows[j], rows[i]);
    if RowLess(sem, order, rows[i], rows[j]) {
      LessIsAsymmetric(sem, order, rows[i], rows[j]);
    }
  }

  lemma BeforeSelf(sem: Semantics, order: seq<Order>, rows: seq<Row>, i: nat)
    requires i < |rows|
    ensures !Before(sem, order, rows, i, i)
  {
    RowLessIff(sem, order, rows[i], rows[i]);
    if RowLess(sem, order, rows[i], rows[i]) {
      LessIsAsymmetric(sem, order, rows[i], rows[i]);
    }
  }

  lemma BeforeTransitive(sem: Semantics, order: seq<Order>, rows: seq<Row>, i: nat, j: nat, k: nat)
    requires Orders(sem, order, rows) && i < |rows| && j < |rows| && k < |rows|
    requires Before(sem, order, rows, i, j) && Before(sem, order, rows, j, k)
    ensures Before(sem, order, rows, i, k)
  {
    var a, b, c := rows[i], rows[j], rows[k];
    EachLessIff(sem, order, a, b, c);
    if RowLess(sem, order, a, b) {
      LessIsAsymmetric(sem, order, a, b);
    }
    if RowLess(sem, order, b, c) {
      LessIsAsymmetric(sem, order, b, c);
    }
    NotLessTransitive(sem, order, rows, a, b, c);
    if !RowLess(sem, order, a, c) {
      // then all three tie, so the positions decide
      NotLessTransitive(sem, order, rows, c, a, b);
      NotLessTransitive(sem, order, rows, b, c, a);
    }
  }

  lemma EachLessIff(sem: Semantics, order: seq<Order>, a: Row, b: Row, c: Row)
    ensures RowLess(sem, order, a, b) <==> Precedes(sem, order, a, b)
    ensures RowLess(sem, order, b, a) <==> Precedes(sem, order, b, a)
    ensures RowLess(sem, order, b, c) <==> Precedes(sem, order, b, c)
    ensures RowLess(sem, order, c, b) <==> Precedes(sem, order, c, b)
    ensures RowLess(sem, order, a, c) <==> Precedes(sem, order, a, c)
    ensures RowLess(sem, order, c, a) <==> Precedes(sem, order, c, a)
  {
    RowLessIff(sem, order, a, b);
    RowLessIff(sem, order, b, a);
    RowLessIff(sem, order, b, c);
    RowLessIff(sem, order, c, b);
    RowLessIff(sem, order, a, c);
    RowLessIff(sem, order, c, a);
  }

  // ---- there is one way to put positions in order ----

  ghost predicate IsStrict(before: Relation, n: nat) {
    && (forall i: nat, j: nat | i < n && j < n && i != j :: before(i, j) <==> !before(j, i))
    && (forall i: nat | i < n :: !before(i, i))
    && (forall i: nat, j: nat, k: nat | i < n && j < n && k < n && before(i, j) && before(j, k) :: before(i, k))
  }

  lemma PositionsAreStrict(sem: Semantics, order: seq<Order>, rows: seq<Row>)
    requires Orders(sem, order, rows)
    ensures IsStrict(PositionOrder(sem, order, rows), |rows|)
  {
    var before := PositionOrder(sem, order, rows);
    forall i: nat, j: nat | i < |rows| && j < |rows| && i != j ensures before(i, j) <==> !before(j, i) {
      BeforeIsTotal(sem, order, rows, i, j);
    }
    forall i: nat | i < |rows| ensures !before(i, i) {
      BeforeSelf(sem, order, rows, i);
    }
    forall i: nat, j: nat, k: nat | i < |rows| && j < |rows| && k < |rows| && before(i, j) && before(j, k) ensures before(i, k) {
      BeforeTransitive(sem, order, rows, i, j, k);
    }
  }

  lemma LastOfAll(before: Relation, p: seq<nat>, i: nat)
    requires InOrder(before, p) && i in p
    ensures i == p[|p| - 1] || before(i, p[|p| - 1])
  {
    var k :| 0 <= k < |p| && p[k] == i;
  }

  lemma LastIsOnce(before: Relation, p: seq<nat>, n: nat)
    requires IsStrict(before, n) && InOrder(before, p) && p != [] && p[|p| - 1] < n
    ensures p[|p| - 1] !in Front(p)
  {
    var last := p[|p| - 1];
    assert !before(last, last);
    forall k | 0 <= k < |p| - 1 ensures p[k] != last {
      assert before(p[k], last);
    }
  }

  lemma SameLast(before: Relation, p: seq<nat>, q: seq<nat>, n: nat)
    requires IsStrict(before, n) && InOrder(before, p) && InOrder(before, q) && p != [] && q != []
    requires (forall i: nat :: i in p <==> i in q) && Below(p, n)
    ensures p[|p| - 1] == q[|q| - 1]
  {
    var x, y := p[|p| - 1], q[|q| - 1];
    assert x in p && y in q;
    LastOfAll(before, p, y);
    LastOfAll(before, q, x);
  }

  lemma {:induction false} OneOrder(before: Relation, p: seq<nat>, q: seq<nat>, n: nat)
    requires IsStrict(before, n) && InOrder(before, p) && InOrder(before, q)
    requires (forall i: nat :: i in p <==> i in q) && Below(p, n)
    ensures p == q
    decreases |p|
  {
    assert (p != [] ==> p[0] in p) && (q != [] ==> q[0] in q);
    if p != [] {
      var x := p[|p| - 1];
      assert x in p;
      SameLast(before, p, q, n);
      LastIsOnce(before, p, n);
      LastIsOnce(before, q, n);
      SameFronts(p, q, x);
      OneOrder(before, Front(p), Front(q), n);
      assert p == Front(p) + [x] && q == Front(q) + [x];
    }
  }

  lemma SameFronts(p: seq<nat>, q: seq<nat>, x: nat)
    requires p != [] && q != [] && p[|p| - 1] == q[|q| - 1] == x && forall i: nat :: i in p <==> i in q
    requires x !in Front(p) && x !in Front(q)
    ensures forall i: nat :: i in Front(p) <==> i in Front(q)
  {
    assert p == Front(p) + [x] && q == Front(q) + [x];
    forall i: nat ensures i in Front(p) <==> i in Front(q) {
      assert i in p <==> i in Front(p) || i == x;
      assert i in q <==> i in Front(q) || i == x;
    }
  }

  // ---- the insertion sort arranges ----

  lemma InOrderSnoc(before: Relation, p: seq<nat>, n: nat)
    requires InOrder(before, p) && forall i: nat | i in p :: before(i, n)
    ensures InOrder(before, p + [n])
  {
  }

  /** Behind the last, so behind all. */
  lemma BehindAll(before: Relation, p: seq<nat>, n: nat)
    requires IsStrict(before, n + 1) && InOrder(before, p) && Below(p, n)
    requires p != [] ==> !before(n, p[|p| - 1])
    ensures InOrder(before, p + [n])
  {
    forall i: nat | i in p ensures before(i, n) {
      var last := p[|p| - 1];
      assert before(last, n) <==> !before(n, last);
      LastOfAll(before, p, i);
    }
    InOrderSnoc(before, p, n);
  }

  // Inserting one row, as a value: proofs that pass it on do not unfold it.
  ghost predicate Inserts(insert: seq<Row> -> seq<Row>, sem: Semantics, order: seq<Order>, row: Row) {
    forall out: seq<Row> {:trigger InsertStable(sem, order, out, row)} :: insert(out) == InsertStable(sem, order, out, row)
  }

  /** One step of the insertion, in terms of positions. */
  lemma InsertUnfolds(sem: Semantics, order: seq<Order>, rows: seq<Row>, insert: seq<Row> -> seq<Row>, p: seq<nat>, out: seq<Row>, n: nat)
    requires n < |rows| && Inserts(insert, sem, order, rows[n]) && At(rows, p, out) && Below(p, n)
    ensures p == [] || !PositionOrder(sem, order, rows)(n, p[|p| - 1]) ==> insert(out) == out + [rows[n]]
    ensures p != [] && PositionOrder(sem, order, rows)(n, p[|p| - 1]) ==> insert(out) == insert(out[..|out| - 1]) + [rows[p[|p| - 1]]]
  {
    assert insert(out) == InsertStable(sem, order, out, rows[n]);
    if p != [] {
      RowLessIff(sem, order, rows[n], rows[p[|p| - 1]]);
      assert insert(out[..|out| - 1]) == InsertStable(sem, order, out[..|out| - 1], rows[n]);
    }
  }

  lemma {:induction false} InsertArranges(sem: Semantics, order: seq<Order>, rows: seq<Row>, insert: seq<Row> -> seq<Row>, before: Relation,
                                          p: seq<nat>, out: seq<Row>, n: nat)
    returns (q: seq<nat>)
    requires before == PositionOrder(sem, order, rows) && n < |rows| && IsStrict(before, n + 1) && Inserts(insert, sem, order, rows[n])
    requires InOrder(before, p) && At(rows, p, out) && Below(p, n)
    ensures InOrder(before, q) && Below(q, n + 1) && (forall i: nat :: i in q <==> i in p || i == n)
    ensures At(rows, q, insert(out))
    decreases |p|
  {
    InsertUnfolds(sem, order, rows, insert, p, out, n);
    if p == [] || !before(n, p[|p| - 1]) {
      BehindAll(before, p, n);
      q := p + [n];
    } else {
      q := InsertArranges(sem, order, rows, insert, before, Front(p), out[..|out| - 1], n);
      q := BehindRest(rows, before, p, q, insert(out[..|out| - 1]), n);
    }
  }

  lemma FrontIn(p: seq<nat>)
    requires p != []
    ensures forall i: nat :: i in p <==> i in Front(p) || i == p[|p| - 1]
  {
    assert p == Front(p) + [p[|p| - 1]];
  }

  lemma BehindRest(rows: seq<Row>, before: Relation, p: seq<nat>, q: seq<nat>, out: seq<Row>, n: nat) returns (r: seq<nat>)
    requires InOrder(before, p) && p != [] && InOrder(before, q) && (forall i: nat :: i in q <==> i in Front(p) || i == n)
    requires before(n, p[|p| - 1]) && At(rows, q, out) && n < |rows| && Below(p, n) && Below(q, n + 1)
    ensures At(rows, r, out + [rows[p[|p| - 1]]]) && Below(r, n + 1)
    ensures r == q + [p[|p| - 1]] && InOrder(before, r) && forall i: nat :: i in r <==> i in p || i == n
  {
    r := q + [p[|p| - 1]];
    FrontIn(p);
    FrontBefore(before, p);
    InOrderSnoc(before, q, p[|p| - 1]);
  }

  lemma FrontBefore(before: Relation, p: seq<nat>)
    requires InOrder(before, p) && p != []
    ensures forall i: nat | i in Front(p) :: before(i, p[|p| - 1])
  {
    forall i: nat | i in Front(p) ensures before(i, p[|p| - 1]) {
      var k :| 0 <= k < |p| - 1 && p[k] == i;
    }
  }

  lemma {:induction false} FrontArranges(sem: Semantics, order: seq<Order>, rows: seq<Row>, before: Relation, n: nat) returns (p: seq<nat>)
    requires before == PositionOrder(sem, order, rows) && IsStrict(before, |rows|) && n <= |rows|
    ensures InOrder(before, p) && AllBelow(p, n) && At(rows, p, StableSort(sem, order, rows[..n]))
  {
    if n == 0 {
      p := [];
    } else {
      p := FrontArranges(sem, order, rows, before, n - 1);
      assert rows[..n][..n - 1] == rows[..n - 1];
      var insert := out => InsertStable(sem, order, out, rows[n - 1]);
      p := InsertArranges(sem, order, rows, insert, before, p, StableSort(sem, order, rows[..n - 1]), n - 1);
    }
  }

  lemma SameRowsAt(rows: seq<Row>, p: seq<nat>, a: seq<Row>, b: seq<Row>)
    requires At(rows, p, a) && At(rows, p, b)
    ensures a == b
  {
  }

  /** The sort's result, and only that, is the rows in the order of all keys with ties as they came. */
  lemma SortsIff(sem: Semantics, order: seq<Order>, rows: seq<Row>, out: seq<Row>)
    requires Orders(sem, order, rows)
    ensures out == StableSort(sem, order, rows) <==> Arranges(sem, order, rows, out)
  {
    var before := PositionOrder(sem, order, rows);
    PositionsAreStrict(sem, order, rows);
    var p := FrontArranges(sem, order, rows, before, |rows|);
    assert rows[..|rows|] == rows;
    if Arranges(sem, order, rows, out) {
      var q :| InOrder(before, q) && AllBelow(q, |rows|) && At(rows, q, out);
      OneOrder(before, p, q, |rows|);
      SameRowsAt(rows, p, out, StableSort(sem, order, rows));
    }
  }

  // ---- values without an order ----

  const NINE: Key := [0x39]
  const ONE_A: Key := [0x31, 0x61]

  function Holding(v: Value): Row { map[[0x63] := v] }

  /** A number is below a text that is none, texts go by their bytes, and a numeric text is compared as a number: a circle. */
  lemma MixedKeysCycle(sem: Semantics)
    requires sem.parse(NINE).Some? && sem.parse(ONE_A).None? && FloatLess(sem.parse(NINE).value, sem.env.ofInt(10))
    ensures Compare(sem, Int(10), Str(ONE_A)) < 0 && Compare(sem, Str(ONE_A), Str(NINE)) < 0 && Compare(sem, Str(NINE), Int(10)) < 0
    ensures !Orders(sem, [Order(Ident([], [0x63]), true)], [Holding(Int(10)), Holding(Str(ONE_A)), Holding(Str(NINE))])
  {
    var key := Order(Ident([], [0x63]), true);
    var a, b, c := Holding(Int(10)), Holding(Str(ONE_A)), Holding(Str(NINE));
    var rows := [a, b, c];
    assert a == rows[0] && b == rows[1] && c == rows[2];
    assert KeyOrder(sem, key, b, c) < 0 && KeyOrder(sem, key, a, b) < 0;
    CompareFlips(sem, Int(10), Str(NINE));
    assert KeyOrder(sem, key, a, c) > 0;
    assert key in [key];
  }
}
