/**
 Strings in printed expressions, and so exactly which expressions survive printing and parsing.  Print
 does not double the quotes in a string, so a string with a lone one ends early when it is read back.
 */
module PrintStrings {
  import opened Bytes
  import opened Engine
  import opened Ast
  import opened Lexer
  import opened Keywords
  import opened Grammar
  import opened Printer
  import opened PrintLex
  import opened PrintParse
  import opened PrintLimits

  // ---- the strings of an expression and of tokens ----

  /** The string literals of an expression, from left to right. */
  function Leaves(e: Expr): seq<Key> {
    var leaves :=
      match e
      case StringLit(s) => [s]
      case Binary(_, left, right) => Leaves(left) + Leaves(right)
      case Unary(_, operand) => Leaves(operand)
      case Between(operand, low, high, _) => Leaves(operand) + Leaves(low) + Leaves(high)
      case Like(operand, pattern, _) => Leaves(operand) + Leaves(pattern)
      case IsNull(operand, _) => Leaves(operand)
      case _ => [];
    leaves
  }

  function StringOf(ts: Tokens, i: nat): seq<Key> {
    if i < |ts| && ts[i].kind == StringToken then [ts[i].literal] else []
  }

  /** The strings of some tokens, in order. */
  function Strings(ts: seq<Token>): seq<Key> {
    if ts == [] then [] else Strings(ts[..|ts| - 1]) + StringOf(ts, |ts| - 1)
  }

  lemma StringsSnoc(front: seq<Token>, t: Token)
    ensures Strings(front + [t]) == Strings(front) + StringOf([t], 0)
  {
    assert (front + [t])[..|front|] == front;
  }

  ghost predicate AddsEach(strings: seq<Token> -> seq<Key>) {
    strings([]) == [] && forall front, t {:trigger strings(front + [t])} :: strings(front + [t]) == strings(front) + StringOf([t], 0)
  }

  lemma {:induction false} EachJoins(strings: seq<Token> -> seq<Key>, a: seq<Token>, b: seq<Token>)
    requires AddsEach(strings)
    ensures strings(a + b) == strings(a) + strings(b)
    decreases |b|
  {
    if b == [] {
      assert a + b == a;
    } else {
      var front, t := b[..|b| - 1], b[|b| - 1];
      EachJoins(strings, a, front);
      assert b == front + [t] && a + b == (a + front) + [t];
    }
  }

  lemma StringsJoin(a: seq<Token>, b: seq<Token>)
    ensures Strings(a + b) == Strings(a) + Strings(b)
  {
    var strings := (ts: seq<Token>) => Strings(ts);
    forall front, t ensures strings(front + [t]) == strings(front) + StringOf([t], 0) {
      StringsSnoc(front, t);
    }
    EachJoins(strings, a, b);
  }

  lemma StringsOfOne(t: Token)
    ensures Strings([t]) == if t.kind == StringToken then [t.literal] else []
  {
    assert [t][..0] == [];
    assert Strings([t]) == Strings([]) + StringOf([t], 0);
  }

  // Both as function values, so that proofs that only pass them on do not unfold them.
  datatype Reading = Reading(strings: seq<Token> -> seq<Key>, leaves: Expr -> seq<Key>)

  ghost predicate IsReading(rd: Reading) {
    && (forall ts {:trigger Strings(ts)} :: rd.strings(ts) == Strings(ts))
    && (forall e {:trigger Leaves(e)} :: rd.leaves(e) == Leaves(e))
  }

  lemma StringsJoined(rd: Reading, a: seq<Token>, b: seq<Token>)
    requires IsReading(rd)
    ensures rd.strings(a + b) == rd.strings(a) + rd.strings(b)
  {
    StringsJoin(a, b);
    assert rd.strings(a + b) == Strings(a + b) && rd.strings(a) == Strings(a) && rd.strings(b) == Strings(b);
  }

  lemma OneString(rd: Reading, t: Token)
    requires IsReading(rd)
    ensures rd.strings([t]) == if t.kind == StringToken then [t.literal] else []
  {
    StringsOfOne(t);
    assert rd.strings([t]) == Strings([t]);
  }

  lemma NoStrings(rd: Reading)
    requires IsReading(rd)
    ensures rd.strings([]) == []
  {
    assert rd.strings([]) == Strings([]);
  }

  lemma LeafOf(rd: Reading, e: Expr)
    requires IsReading(rd) && !e.Binary? && !e.Unary? && !e.Between? && !e.Like? && !e.IsNull?
    ensures rd.leaves(e) == if e.StringLit? then [e.s] else []
  {
    assert rd.leaves(e) == Leaves(e);
  }

  lemma LeavesOfTwo(rd: Reading, op: Operator, left: Expr, right: Expr)
    requires IsReading(rd)
    ensures rd.leaves(Binary(op, left, right)) == rd.leaves(left) + rd.leaves(right)
  {
    assert rd.leaves(Binary(op, left, right)) == Leaves(Binary(op, left, right));
    assert rd.leaves(left) == Leaves(left) && rd.leaves(right) == Leaves(right);
  }

  lemma LeavesOfOne(rd: Reading, op: Operator, operand: Expr)
    requires IsReading(rd)
    ensures rd.leaves(Unary(op, operand)) == rd.leaves(operand)
  {
    assert rd.leaves(Unary(op, operand)) == Leaves(Unary(op, operand)) && rd.leaves(operand) == Leaves(operand);
  }

  lemma LeavesOfTest(rd: Reading, left: Expr, low: Expr, high: Expr, negated: bool)
    requires IsReading(rd)
    ensures rd.leaves(Between(left, low, high, negated)) == rd.leaves(left) + rd.leaves(low) + rd.leaves(high)
    ensures rd.leaves(Like(left, low, negated)) == rd.leaves(left) + rd.leaves(low)
    ensures rd.leaves(IsNull(left, negated)) == rd.leaves(left)
  {
    assert rd.leaves(Between(left, low, high, negated)) == Leaves(Between(left, low, high, negated));
    assert rd.leaves(Like(left, low, negated)) == Leaves(Like(left, low, negated));
    assert rd.leaves(IsNull(left, negated)) == Leaves(IsNull(left, negated));
    assert rd.leaves(left) == Leaves(left) && rd.leaves(low) == Leaves(low) && rd.leaves(high) == Leaves(high);
  }

  // The strings among the tokens before each position.
  type Count = nat -> seq<Key>

  ghost predicate Counts(count: Count, ts: Tokens) {
    forall i: nat {:trigger StringOf(ts, i)} :: count(i + 1) == count(i) + StringOf(ts, i)
  }

  lemma Passed(count: Count, ts: Tokens, i: nat)
    requires Counts(count, ts) && Peek(ts, i) != StringToken
    ensures count(i + 1) == count(i)
  {
    assert StringOf(ts, i) == [];
  }

  lemma Skipped(count: Count, ts: Tokens, i: nat, kind: Kind)
    requires Counts(count, ts) && kind != EndOfInput && kind != StringToken
    ensures count(Expect(ts, i, kind)) == count(i)
  {
    if Peek(ts, i) == kind {
      Passed(count, ts, i);
    }
  }

  // ---- parsing takes strings in order ----

  /** The strings of what was read from a position, and before it, are those before where reading ended. */
  predicate Takes(rd: Reading, count: Count, before: seq<Key>, r: Outcome) {
    r.Parsed? ==> count(r.pos) == before + rd.leaves(r.e)
  }

  lemma TakesOr(rd: Reading, count: Count, pf: ParseFloat, ts: Tokens, pos: nat)
    requires IsReading(rd)
    requires pos <= |ts| && Counts(count, ts)
    ensures Takes(rd, count, count(pos), ParseOr(pf, ts, pos))
    decreases |ts| - pos, 9
  {
    TakesAnd(rd, count, pf, ts, pos);
    var left := ParseAnd(pf, ts, pos);
    if left.Parsed? {
      TakesOrLoop(rd, count, count(pos), pf, ts, left.e, left.pos);
    }
  }

  lemma TakesOrLoop(rd: Reading, count: Count, before: seq<Key>, pf: ParseFloat, ts: Tokens, left: Expr, pos: nat)
    requires IsReading(rd)
    requires pos <= |ts| && Counts(count, ts) && count(pos) == before + rd.leaves(left)
    ensures Takes(rd, count, before, OrLoop(pf, ts, left, pos))
    decreases |ts| - pos, 0
  {
    if Peek(ts, pos) == WordOr {
      Passed(count, ts, pos);
      TakesAnd(rd, count, pf, ts, pos + 1);
      var right := ParseAnd(pf, ts, pos + 1);
      if right.Parsed? {
        Appended(rd, before, Or, left, right.e);
        TakesOrLoop(rd, count, before, pf, ts, Binary(Or, left, right.e), right.pos);
      }
    }
  }

  lemma Appended(rd: Reading, before: seq<Key>, op: Operator, left: Expr, right: Expr)
    requires IsReading(rd)
    ensures before + rd.leaves(Binary(op, left, right)) == before + rd.leaves(left) + rd.leaves(right)
  {
    LeavesOfTwo(rd, op, left, right);
  }

  lemma TakesAnd(rd: Reading, count: Count, pf: ParseFloat, ts: Tokens, pos: nat)
    requires IsReading(rd)
    requires pos <= |ts| && Counts(count, ts)
    ensures Takes(rd, count, count(pos), ParseAnd(pf, ts, pos))
    decreases |ts| - pos, 8
  {
    TakesNot(rd, count, pf, ts, pos);
    var left := ParseNot(pf, ts, pos);
    if left.Parsed? {
      TakesAndLoop(rd, count, count(pos), pf, ts, left.e, left.pos);
    }
  }

  lemma TakesAndLoop(rd: Reading, count: Count, before: seq<Key>, pf: ParseFloat, ts: Tokens, left: Expr, pos: nat)
    requires IsReading(rd)
    requires pos <= |ts| && Counts(count, ts) && count(pos) == before + rd.leaves(left)
    ensures Takes(rd, count, before, AndLoop(pf, ts, left, pos))
    decreases |ts| - pos, 0
  {
    if Peek(ts, pos) == WordAnd {
      Passed(count, ts, pos);
      TakesNot(rd, count, pf, ts, pos + 1);
      var right := ParseNot(pf, ts, pos + 1);
      if right.Parsed? {
        Appended(rd, before, And, left, right.e);
        TakesAndLoop(rd, count, before, pf, ts, Binary(And, left, right.e), right.pos);
      }
    }
  }

  lemma TakesNot(rd: Reading, count: Count, pf: ParseFloat, ts: Tokens, pos: nat)
    requires IsReading(rd)
    requires pos <= |ts| && Counts(count, ts)
    ensures Takes(rd, count, count(pos), ParseNot(pf, ts, pos))
    decreases |ts| - pos, 7
  {
    if Peek(ts, pos) == WordNot {
      Passed(count, ts, pos);
      TakesComparison(rd, count, pf, ts, pos + 1);
      var r := ParseComparison(pf, ts, pos + 1);
      if r.Parsed? {
        LeavesOfOne(rd, Not, r.e);
      }
    } else {
      TakesComparison(rd, count, pf, ts, pos);
    }
  }

  lemma TakesComparison(rd: Reading, count: Count, pf: ParseFloat, ts: Tokens, pos: nat)
    requires IsReading(rd)
    requires pos <= |ts| && Counts(count, ts)
    ensures Takes(rd, count, count(pos), ParseComparison(pf, ts, pos))
    decreases |ts| - pos, 6
  {
    TakesAddSub(rd, count, pf, ts, pos);
    var left := ParseAddSub(pf, ts, pos);
    if left.Parsed? {
      TakesAfter(rd, count, count(pos), pf, ts, left.e, left.pos);
    }
  }

  lemma TakesAfter(rd: Reading, count: Count, before: seq<Key>, pf: ParseFloat, ts: Tokens, left: Expr, pos: nat)
    requires IsReading(rd)
    requires pos <= |ts| && Counts(count, ts) && count(pos) == before + rd.leaves(left)
    ensures Takes(rd, count, before, AfterOperand(pf, ts, left, pos))
    decreases |ts| - pos, 5
  {
    var negated := Peek(ts, pos) == WordNot;
    if Peek(ts, pos) == WordIs {
      TakesIsNull(rd, count, before, pf, ts, left, pos);
    } else if Peek(ts, pos) == WordBetween || (negated && Peek(ts, pos + 1) == WordBetween) {
      TakesBetween(rd, count, before, pf, ts, left, pos);
    } else if Peek(ts, pos) == WordLike || (negated && Peek(ts, pos + 1) == WordLike) {
      TakesLike(rd, count, before, pf, ts, left, pos);
    } else {
      TakesCompared(rd, count, before, pf, ts, left, pos);
    }
  }

  lemma TakesIsNull(rd: Reading, count: Count, before: seq<Key>, pf: ParseFloat, ts: Tokens, left: Expr, pos: nat)
    requires IsReading(rd)
    requires pos <= |ts| && Counts(count, ts) && count(pos) == before + rd.leaves(left) && Peek(ts, pos) == WordIs
    ensures Takes(rd, count, before, AfterOperand(pf, ts, left, pos))
  {
    Passed(count, ts, pos);
    LeavesOfTest(rd, left, left, left, Peek(ts, pos + 1) == WordNot);
    if Peek(ts, pos + 1) == WordNot {
      Passed(count, ts, pos + 1);
      Skipped(count, ts, pos + 2, WordNull);
    } else {
      Skipped(count, ts, pos + 1, WordNull);
    }
  }

  lemma TakesCompared(rd: Reading, count: Count, before: seq<Key>, pf: ParseFloat, ts: Tokens, left: Expr, pos: nat)
    requires IsReading(rd)
    requires pos <= |ts| && Counts(count, ts) && count(pos) == before + rd.leaves(left) && Peek(ts, pos) != WordIs
    requires var negated := Peek(ts, pos) == WordNot;
             var kind := if negated then Peek(ts, pos + 1) else Peek(ts, pos); kind != WordBetween && kind != WordLike
    ensures Takes(rd, count, before, AfterOperand(pf, ts, left, pos))
    decreases |ts| - pos, 4
  {
    var op := ComparisonOp(Peek(ts, pos));
    if op.Some? {
      Passed(count, ts, pos);
      TakesAddSub(rd, count, pf, ts, pos + 1);
      var right := ParseAddSub(pf, ts, pos + 1);
      if right.Parsed? {
        Appended(rd, before, op.value, left, right.e);
      }
    }
  }

  /** Over the word behind an operand, with or without NOT in front of it. */
  lemma OverWord(count: Count, ts: Tokens, pos: nat, kind: Kind)
    requires pos <= |ts| && Counts(count, ts) && kind != StringToken && kind != EndOfInput && kind != WordNot
    requires Peek(ts, pos) == kind || (Peek(ts, pos) == WordNot && Peek(ts, pos + 1) == kind)
    ensures var p := if Peek(ts, pos) == WordNot then pos + 2 else pos + 1; p <= |ts| && count(p) == count(pos)
  {
    Passed(count, ts, pos);
    if Peek(ts, pos) == WordNot {
      Passed(count, ts, pos + 1);
    }
  }

  lemma TakesLike(rd: Reading, count: Count, before: seq<Key>, pf: ParseFloat, ts: Tokens, left: Expr, pos: nat)
    requires IsReading(rd)
    requires pos <= |ts| && Counts(count, ts) && count(pos) == before + rd.leaves(left)
    requires Peek(ts, pos) == WordLike || (Peek(ts, pos) == WordNot && Peek(ts, pos + 1) == WordLike)
    ensures Takes(rd, count, before, AfterOperand(pf, ts, left, pos))
    decreases |ts| - pos, 4
  {
    OverWord(count, ts, pos, WordLike);
    var negated := Peek(ts, pos) == WordNot;
    var from := if negated then pos + 2 else pos + 1;
    TakesAddSub(rd, count, pf, ts, from);
    var pattern := ParseAddSub(pf, ts, from);
    if pattern.Parsed? {
      assert AfterOperand(pf, ts, left, pos) == Parsed(Like(left, pattern.e, negated), pattern.pos);
      LikeLeaves(rd, before, left, pattern.e, negated);
    }
  }

  lemma LikeLeaves(rd: Reading, before: seq<Key>, left: Expr, pattern: Expr, negated: bool)
    requires IsReading(rd)
    ensures before + rd.leaves(Like(left, pattern, negated)) == before + rd.leaves(left) + rd.leaves(pattern)
  {
    LeavesOfTest(rd, left, pattern, left, negated);
  }

  lemma TakesBetween(rd: Reading, count: Count, before: seq<Key>, pf: ParseFloat, ts: Tokens, left: Expr, pos: nat)
    requires IsReading(rd)
    requires pos <= |ts| && Counts(count, ts) && count(pos) == before + rd.leaves(left)
    requires Peek(ts, pos) == WordBetween || (Peek(ts, pos) == WordNot && Peek(ts, pos + 1) == WordBetween)
    ensures Takes(rd, count, before, AfterOperand(pf, ts, left, pos))
    decreases |ts| - pos, 4
  {
    OverWord(count, ts, pos, WordBetween);
    var negated := Peek(ts, pos) == WordNot;
    var from := if negated then pos + 2 else pos + 1;
    TakesAddSub(rd, count, pf, ts, from);
    var low := ParseAddSub(pf, ts, from);
    if low.Parsed? {
      var next := Expect(ts, low.pos, WordAnd);
      Skipped(count, ts, low.pos, WordAnd);
      TakesAddSub(rd, count, pf, ts, next);
      var high := ParseAddSub(pf, ts, next);
      if high.Parsed? {
        assert AfterOperand(pf, ts, left, pos) == Parsed(Between(left, low.e, high.e, negated), high.pos);
        BetweenLeaves(rd, before, left, low.e, high.e, negated);
      }
    }
  }

  lemma BetweenLeaves(rd: Reading, before: seq<Key>, left: Expr, low: Expr, high: Expr, negated: bool)
    requires IsReading(rd)
    ensures before + rd.leaves(Between(left, low, high, negated)) == before + rd.leaves(left) + rd.leaves(low) + rd.leaves(high)
  {
    LeavesOfTest(rd, left, low, high, negated);
  }

  lemma TakesAddSub(rd: Reading, count: Count, pf: ParseFloat, ts: Tokens, pos: nat)
    requires IsReading(rd)
    requires pos <= |ts| && Counts(count, ts)
    ensures Takes(rd, count, count(pos), ParseAddSub(pf, ts, pos))
    decreases |ts| - pos, 4
  {
    TakesMulDiv(rd, count, pf, ts, pos);
    var left := ParseMulDiv(pf, ts, pos);
    if left.Parsed? {
      TakesAddLoop(rd, count, count(pos), pf, ts, left.e, left.pos);
    }
  }

  lemma TakesAddLoop(rd: Reading, count: Count, before: seq<Key>, pf: ParseFloat, ts: Tokens, left: Expr, pos: nat)
    requires IsReading(rd)
    requires pos <= |ts| && Counts(count, ts) && count(pos) == before + rd.leaves(left)
    ensures Takes(rd, count, before, AddLoop(pf, ts, left, pos))
    decreases |ts| - pos, 0
  {
    var op := AddOp(Peek(ts, pos));
    if op.Some? {
      Passed(count, ts, pos);
      TakesMulDiv(rd, count, pf, ts, pos + 1);
      var right := ParseMulDiv(pf, ts, pos + 1);
      if right.Parsed? {
        Appended(rd, before, op.value, left, right.e);
        TakesAddLoop(rd, count, before, pf, ts, Binary(op.value, left, right.e), right.pos);
      }
    }
  }

  lemma TakesMulDiv(rd: Reading, count: Count, pf: ParseFloat, ts: Tokens, pos: nat)
    requires IsReading(rd)
    requires pos <= |ts| && Counts(count, ts)
    ensures Takes(rd, count, count(pos), ParseMulDiv(pf, ts, pos))
    decreases |ts| - pos, 3
  {
    TakesUnary(rd, count, pf, ts, pos);
    var left := ParseUnary(pf, ts, pos);
    if left.Parsed? {
      TakesMulLoop(rd, count, count(pos), pf, ts, left.e, left.pos);
    }
  }

  lemma TakesMulLoop(rd: Reading, count: Count, before: seq<Key>, pf: ParseFloat, ts: Tokens, left: Expr, pos: nat)
    requires IsReading(rd)
    requires pos <= |ts| && Counts(count, ts) && count(pos) == before + rd.leaves(left)
    ensures Takes(rd, count, before, MulLoop(pf, ts, left, pos))
    decreases |ts| - pos, 0
  {
    var op := MulOp(Peek(ts, pos));
    if op.Some? {
      Passed(count, ts, pos);
      TakesUnary(rd, count, pf, ts, pos + 1);
      var right := ParseUnary(pf, ts, pos + 1);
      if right.Parsed? {
        Appended(rd, before, op.value, left, right.e);
        TakesMulLoop(rd, count, before, pf, ts, Binary(op.value, left, right.e), right.pos);
      }
    }
  }

  lemma TakesUnary(rd: Reading, count: Count, pf: ParseFloat, ts: Tokens, pos: nat)
    requires IsReading(rd)
    requires pos <= |ts| && Counts(count, ts)
    ensures Takes(rd, count, count(pos), ParseUnary(pf, ts, pos))
    decreases |ts| - pos, 2
  {
    if Peek(ts, pos) == MinusToken {
      Passed(count, ts, pos);
      TakesPrimary(rd, count, pf, ts, pos + 1);
      var r := ParsePrimary(pf, ts, pos + 1);
      if r.Parsed? {
        LeavesOfOne(rd, Minus, r.e);
      }
    } else {
      TakesPrimary(rd, count, pf, ts, pos);
    }
  }

  lemma TakesPrimary(rd: Reading, count: Count, pf: ParseFloat, ts: Tokens, pos: nat)
    requires IsReading(rd)
    requires pos <= |ts| && Counts(count, ts)
    ensures Takes(rd, count, count(pos), ParsePrimary(pf, ts, pos))
    decreases |ts| - pos, 1
  {
    match Peek(ts, pos)
    case StringToken =>
      assert StringOf(ts, pos) == [ts[pos].literal];
      LeafOf(rd, StringLit(ts[pos].literal));
    case LeftParen => TakesEnclosed(rd, count, pf, ts, pos);
    case Identifier => TakesName(rd, count, pf, ts, pos);
    case EndOfInput =>
    case _ => TakesConstant(rd, count, pf, ts, pos);
  }

  lemma TakesConstant(rd: Reading, count: Count, pf: ParseFloat, ts: Tokens, pos: nat)
    requires IsReading(rd) && pos <= |ts| && Counts(count, ts)
    requires var kind := Peek(ts, pos);
             kind != StringToken && kind != LeftParen && kind != Identifier && kind != EndOfInput
    ensures Takes(rd, count, count(pos), ParsePrimary(pf, ts, pos))
  {
    Passed(count, ts, pos);
    var r := ParsePrimary(pf, ts, pos);
    if r.Parsed? {
      LeafOf(rd, r.e);
    }
  }

  lemma TakesName(rd: Reading, count: Count, pf: ParseFloat, ts: Tokens, pos: nat)
    requires IsReading(rd)
    requires pos <= |ts| && Counts(count, ts) && Peek(ts, pos) == Identifier
    ensures Takes(rd, count, count(pos), ParsePrimary(pf, ts, pos))
  {
    Passed(count, ts, pos);
    var r := ParsePrimary(pf, ts, pos);
    if r.Parsed? {
      LeafOf(rd, r.e);
    }
    if Peek(ts, pos + 1) == DotToken && Peek(ts, pos + 2) == Identifier {
      Passed(count, ts, pos + 1);
      Passed(count, ts, pos + 2);
    }
  }

  lemma TakesEnclosed(rd: Reading, count: Count, pf: ParseFloat, ts: Tokens, pos: nat)
    requires IsReading(rd)
    requires pos <= |ts| && Counts(count, ts) && Peek(ts, pos) == LeftParen
    ensures Takes(rd, count, count(pos), ParsePrimary(pf, ts, pos))
    decreases |ts| - pos, 0
  {
    Passed(count, ts, pos);
    TakesOr(rd, count, pf, ts, pos + 1);
    var r := ParseOr(pf, ts, pos + 1);
    if r.Parsed? {
      Skipped(count, ts, r.pos, RightParen);
    }
  }

  // ---- where a string with a lone quote stands, its token is another ----

  /** What was lexed has no tokens, or its strings do not begin with these. */
  ghost predicate Lacks(rd: Reading, lexed: Option<seq<Token>>, strings: seq<Key>) {
    lexed.None? || !(strings <= rd.strings(lexed.value))
  }

  lemma LacksMore(rd: Reading, lexed: Option<seq<Token>>, a: seq<Key>, b: seq<Key>)
    requires Lacks(rd, lexed, a)
    ensures Lacks(rd, lexed, a + b)
  {
  }

  lemma LacksBefore(rd: Reading, lex: Lexed, from: nat, ts: seq<Token>, to: nat, a: seq<Key>, b: seq<Key>)
    requires IsReading(rd)
    requires Gives(lex, from, ts, to) && rd.strings(ts) == a && Lacks(rd, lex(to), b)
    ensures Lacks(rd, lex(from), a + b)
  {
    if lex(to).Some? {
      StringsJoined(rd, ts, lex(to).value);
      BehindSame(a, b, rd.strings(lex(to).value));
    }
  }

  lemma BehindSame(a: seq<Key>, b: seq<Key>, rest: seq<Key>)
    ensures a + b <= a + rest ==> b <= rest
  {
    if a + b <= a + rest {
      assert b == (a + b)[|a|..];
      assert rest == (a + rest)[|a|..];
    }
  }

  /** Printing keeps every part of the expression. */
  predicate Whole(e: Expr) {
    match e
    case Binary(_, left, right) => Whole(left) && Whole(right)
    case Unary(_, operand) => Whole(operand)
    case FloatLit(_) => false
    case Between(_, _, _, _) => false
    case Like(_, _, _) => false
    case IsNull(_, _) => false
    case MatchAgainst(_, _) => false
    case _ => true
  }

  /** Every string in it has its quotes doubled. */
  ghost predicate Quoted(e: Expr) {
    match e
    case StringLit(s) => WellQuoted(s)
    case Binary(_, left, right) => Quoted(left) && Quoted(right)
    case Unary(_, operand) => Quoted(operand)
    case _ => true
  }

  lemma {:induction false} PrintableIff(words: Words, e: Expr)
    requires Whole(e)
    ensures Printable(words, e) <==> Sound(words, e) && Quoted(e)
  {
    match e
    case Binary(_, left, right) =>
      PrintableIff(words, left);
      PrintableIff(words, right);
    case Unary(_, operand) => PrintableIff(words, operand);
    case _ =>
  }

  lemma {:induction false} TokensHaveLeaves(rd: Reading, words: Words, format: Format, e: Expr)
    requires IsReading(rd) && Printable(words, e)
    ensures rd.strings(Toks(format, e)) == rd.leaves(e)
  {
    match e
    case Binary(op, left, right) =>
      TokensHaveLeaves(rd, words, format, left);
      TokensHaveLeaves(rd, words, format, right);
      BinaryStrings(rd, Toks(format, left), op, Toks(format, right));
      LeavesOfTwo(rd, op, left, right);
    case Unary(op, operand) =>
      TokensHaveLeaves(rd, words, format, operand);
      UnaryStrings(rd, op, Toks(format, operand));
      LeavesOfOne(rd, op, operand);
    case _ => LeafTokens(rd, words, format, e);
  }

  lemma LeafTokens(rd: Reading, words: Words, format: Format, e: Expr)
    requires IsReading(rd) && Printable(words, e) && !e.Binary? && !e.Unary?
    ensures rd.strings(Toks(format, e)) == rd.leaves(e)
  {
    LeafOf(rd, e);
    match e
    case Ident(table, name) => IdentStrings(rd, table, name);
    case StringLit(v) => OneString(rd, Token(StringToken, v));
    case IntLit(n) => OneString(rd, Token(IntegerToken, format.decimal(n)));
    case BoolLit(b) => OneString(rd, if b then Token(WordTrue, TRUE_TEXT) else Token(WordFalse, FALSE_TEXT));
    case NullLit => OneString(rd, Token(WordNull, NULL_TEXT));
    case Star => OneString(rd, Token(MultiplyToken, [0x2A]));
  }

  lemma IdentStrings(rd: Reading, table: Key, name: Key)
    requires IsReading(rd)
    ensures rd.strings(IdentToks(table, name)) == []
  {
    var a, b, c := Token(Identifier, table), Token(DotToken, [POINT]), Token(Identifier, name);
    OneString(rd, a);
    OneString(rd, b);
    OneString(rd, c);
    StringsJoined(rd, [a], [b]);
    StringsJoined(rd, [a] + [b], [c]);
    assert [a, b, c] == [a] + [b] + [c];
  }

  lemma HeadStrings(rd: Reading, left: seq<Token>, op: Operator)
    requires IsReading(rd)
    ensures rd.strings([OpenToken] + left + [OpToken(op)]) == rd.strings(left)
  {
    OneString(rd, OpenToken);
    OneString(rd, OpToken(op));
    StringsJoined(rd, [OpenToken], left);
    StringsJoined(rd, [OpenToken] + left, [OpToken(op)]);
  }

  lemma BinaryStrings(rd: Reading, left: seq<Token>, op: Operator, right: seq<Token>)
    requires IsReading(rd)
    ensures rd.strings([OpenToken] + left + [OpToken(op)] + right + [CloseToken]) == rd.strings(left) + rd.strings(right)
  {
    var head := [OpenToken] + left + [OpToken(op)];
    HeadStrings(rd, left, op);
    OneString(rd, CloseToken);
    StringsJoined(rd, head, right);
    StringsJoined(rd, head + right, [CloseToken]);
  }

  lemma UnaryStrings(rd: Reading, op: Operator, operand: seq<Token>)
    requires IsReading(rd)
    ensures rd.strings([OpenToken, OpToken(op)] + operand + [CloseToken]) == rd.strings(operand)
  {
    var none: seq<Token> := [];
    HeadStrings(rd, none, op);
    assert [OpenToken] + none + [OpToken(op)] == [OpenToken, OpToken(op)];
    NoStrings(rd);
    OneString(rd, CloseToken);
    StringsJoined(rd, [OpenToken, OpToken(op)], operand);
    StringsJoined(rd, [OpenToken, OpToken(op)] + operand, [CloseToken]);
  }

  /** The token of a string with a lone quote is shorter or longer than the string, or missing. */
  lemma LoneQuote(rd: Reading, words: Words, lex: Lexed, s: Key, pos: nat, v: Key)
    requires IsReading(rd)
    requires IsLexed(words, lex, s) && !WellQuoted(v)
    requires At(s, pos, [QUOTE] + v + [QUOTE]) && Delimited(s, pos + |v| + 2)
    ensures Lacks(rd, lex(pos), [v])
  {
    AtItem(s, pos, [QUOTE] + v + [QUOTE], 0);
    var end := EndsElsewhere(s, pos, v);
    LexString(words, lex, s, pos);
    if end < |s| && lex(end + 1).Some? {
      OtherString(rd, s, pos, end, v, lex(end + 1).value);
    }
  }

  lemma EndsElsewhere(s: Key, pos: nat, v: Key) returns (end: nat)
    requires !WellQuoted(v) && At(s, pos, [QUOTE] + v + [QUOTE]) && Delimited(s, pos + |v| + 2)
    ensures pos + 1 <= |s| && end == StringEnd(s, pos + 1, QUOTE) && end != pos + 1 + |v|
  {
    QuotedAt(s, pos, v);
    assert !Doubled(v, 0);
    StringEndsIff(s, pos + 1, v, 0);
    end := StringEnd(s, pos + 1, QUOTE);
  }

  lemma LexString(words: Words, lex: Lexed, s: Key, pos: nat)
    requires IsLexed(words, lex, s) && pos < |s| && s[pos] == QUOTE
    ensures var end := StringEnd(s, pos + 1, QUOTE);
            lex(pos) == if end == |s| then None else Before([Token(StringToken, s[pos + 1..end])], lex(end + 1))
  {
    var end := StringEnd(s, pos + 1, QUOTE);
    assert lex(pos) == Lex(words, s, pos);
    if end < |s| {
      assert lex(end + 1) == Lex(words, s, end + 1);
    }
  }

  lemma OtherString(rd: Reading, s: Key, pos: nat, end: nat, v: Key, rest: seq<Token>)
    requires IsReading(rd) && pos + 1 <= end <= |s| && end != pos + 1 + |v|
    ensures Lacks(rd, Some([Token(StringToken, s[pos + 1..end])] + rest), [v])
  {
    var token := Token(StringToken, s[pos + 1..end]);
    OneString(rd, token);
    StringsJoined(rd, [token], rest);
    assert rd.strings([token] + rest)[0] == s[pos + 1..end];
    assert |s[pos + 1..end]| != |v|;
  }

  /** An expression with such a string in its first operand, */
  lemma IllLeft(rd: Reading, words: Words, lex: Lexed, s: Key, pos: nat, left: Expr, right: Expr, op: Operator)
    requires IsReading(rd)
    requires IsLexed(words, lex, s) && At(s, pos, [OPEN]) && Lacks(rd, lex(pos + 1), rd.leaves(left))
    ensures Lacks(rd, lex(pos), rd.leaves(Binary(op, left, right)))
  {
    SymbolAt(words, lex, s, pos, OPEN);
    OneString(rd, OpenToken);
    LacksMore(rd, lex(pos + 1), rd.leaves(left), rd.leaves(right));
    LacksBefore(rd, lex, pos, [OpenToken], pos + 1, [], rd.leaves(left) + rd.leaves(right));
    LeavesOfTwo(rd, op, left, right);
    assert [] + (rd.leaves(left) + rd.leaves(right)) == rd.leaves(left) + rd.leaves(right);
  }

  /** and one with it in its second. */
  lemma IllRight(rd: Reading, words: Words, lex: Lexed, s: Key, pos: nat, p: nat, l: seq<Token>, left: Expr, right: Expr, op: Operator)
    requires IsReading(rd) && rd.strings(l) == rd.leaves(left)
    requires IsLexed(words, lex, s) && ReadsWords(words) && At(s, pos, [OPEN])
    requires At(s, p, [SPACE]) && At(s, p + 1, OpText(op)) && At(s, p + 1 + |OpText(op)|, [SPACE])
    requires Gives(lex, pos + 1, l, p) && Lacks(rd, lex(p + 2 + |OpText(op)|), rd.leaves(right))
    ensures Lacks(rd, lex(pos), rd.leaves(Binary(op, left, right)))
  {
    HeadLexed(words, lex, s, pos, p, l, op);
    HeadStrings(rd, l, op);
    LeavesOfTwo(rd, op, left, right);
    LacksBefore(rd, lex, pos, [OpenToken] + l + [OpToken(op)], p + 2 + |OpText(op)|, rd.leaves(left), rd.leaves(right));
  }

  lemma HeadLexed(words: Words, lex: Lexed, s: Key, pos: nat, p: nat, left: seq<Token>, op: Operator)
    requires IsLexed(words, lex, s) && ReadsWords(words) && At(s, pos, [OPEN]) && Gives(lex, pos + 1, left, p)
    requires At(s, p, [SPACE]) && At(s, p + 1, OpText(op)) && At(s, p + 1 + |OpText(op)|, [SPACE])
    ensures Gives(lex, pos, [OpenToken] + left + [OpToken(op)], p + 2 + |OpText(op)|)
  {
    SymbolAt(words, lex, s, pos, OPEN);
    OverSpace(words, lex, s, p);
    OpAt(words, lex, s, p + 1, op);
    OverSpace(words, lex, s, p + 1 + |OpText(op)|);
    HeadGiven(lex, pos, p, p + 1, p + 1 + |OpText(op)|, left, op);
  }

  lemma IllBinary(rd: Reading, words: Words, lex: Lexed, format: Format, s: Key, pos: nat, op: Operator, left: Expr, right: Expr)
    requires IsReading(rd)
    requires IsLexed(words, lex, s) && ReadsWords(words) && PrintsDecimals(format)
    requires Whole(left) && Sound(words, left) && Whole(right) && Sound(words, right) && !(Quoted(left) && Quoted(right))
    requires At(s, pos, Print(format, Binary(op, left, right)))
    ensures Lacks(rd, lex(pos), rd.leaves(Binary(op, left, right)))
    decreases Binary(op, left, right), 0
  {
    var p, q := BinaryText(format, s, pos, op, left, right);
    if !Quoted(left) {
      IllFirst(rd, words, lex, format, s, pos, p, op, left, right);
    } else {
      IllSecond(rd, words, lex, format, s, pos, p, op, left, right);
    }
  }

  lemma IllSecond(rd: Reading, words: Words, lex: Lexed, format: Format, s: Key, pos: nat, p: nat, op: Operator, left: Expr, right: Expr)
    requires IsReading(rd)
    requires IsLexed(words, lex, s) && ReadsWords(words) && PrintsDecimals(format)
    requires Whole(left) && Sound(words, left) && Whole(right) && Sound(words, right) && Quoted(left) && !Quoted(right)
    requires p == pos + 1 + |Print(format, left)| && At(s, pos, [OPEN]) && At(s, pos + 1, Print(format, left))
    requires At(s, p, [SPACE]) && At(s, p + 1, OpText(op)) && At(s, p + 1 + |OpText(op)|, [SPACE])
    requires At(s, p + 1 + |OpText(op)|, [SPACE] + Print(format, right) + [CLOSE])
    ensures Lacks(rd, lex(pos), rd.leaves(Binary(op, left, right)))
    decreases right, 3
  {
    PrintableIff(words, left);
    LexFirst(words, lex, format, s, pos + 1, left);
    TokensHaveLeaves(rd, words, format, left);
    IllLast(rd, words, lex, format, s, p + 1 + |OpText(op)|, right);
    IllRight(rd, words, lex, s, pos, p, Toks(format, left), left, right, op);
  }

  lemma IllFirst(rd: Reading, words: Words, lex: Lexed, format: Format, s: Key, pos: nat, p: nat, op: Operator, left: Expr, right: Expr)
    requires IsReading(rd)
    requires IsLexed(words, lex, s) && ReadsWords(words) && PrintsDecimals(format)
    requires Whole(left) && Sound(words, left) && !Quoted(left)
    requires p == pos + 1 + |Print(format, left)| && At(s, pos, [OPEN]) && At(s, pos + 1, Print(format, left)) && At(s, p, [SPACE])
    ensures Lacks(rd, lex(pos), rd.leaves(Binary(op, left, right)))
    decreases left, 2
  {
    AtItem(s, p, [SPACE], 0);
    IllLex(rd, words, lex, format, s, pos + 1, left);
    IllLeft(rd, words, lex, s, pos, left, right, op);
  }

  /** The last operand, behind its space. */
  lemma IllLast(rd: Reading, words: Words, lex: Lexed, format: Format, s: Key, pos: nat, e: Expr)
    requires IsReading(rd) && IsLexed(words, lex, s) && ReadsWords(words) && PrintsDecimals(format)
    requires Whole(e) && Sound(words, e) && !Quoted(e) && At(s, pos, [SPACE] + Print(format, e) + [CLOSE])
    ensures Lacks(rd, lex(pos + 1), rd.leaves(e))
    decreases e, 2
  {
    LastText(format, s, pos, e);
    IllLex(rd, words, lex, format, s, pos + 1, e);
  }

  lemma LastText(format: Format, s: Key, pos: nat, e: Expr)
    requires At(s, pos, [SPACE] + Print(format, e) + [CLOSE])
    ensures At(s, pos + 1, Print(format, e)) && Delimited(s, pos + 1 + |Print(format, e)|)
  {
    AtJoin(s, pos, [SPACE] + Print(format, e), [CLOSE]);
    AtJoin(s, pos, [SPACE], Print(format, e));
    AtItem(s, pos + 1 + |Print(format, e)|, [CLOSE], 0);
  }

  lemma HeadGiven(lex: Lexed, a: nat, b: nat, c: nat, d: nat, left: seq<Token>, op: Operator)
    requires Gives(lex, a, [OpenToken], a + 1) && Gives(lex, a + 1, left, b) && Gives(lex, b, [], c)
    requires Gives(lex, c, [OpToken(op)], d) && Gives(lex, d, [], d + 1)
    ensures Gives(lex, a, [OpenToken] + left + [OpToken(op)], d + 1)
  {
    Joined(lex, [OpenToken], left, a, a + 1, b);
    Joined(lex, [OpenToken] + left, [], a, b, c);
    assert [OpenToken] + left + [] == [OpenToken] + left;
    Joined(lex, [OpenToken] + left, [OpToken(op)], a, c, d);
    Joined(lex, [OpenToken] + left + [OpToken(op)], [], a, d, d + 1);
    assert [OpenToken] + left + [OpToken(op)] + [] == [OpenToken] + left + [OpToken(op)];
  }

  lemma OpLexed(words: Words, lex: Lexed, s: Key, pos: nat, none: seq<Token>, op: Operator)
    requires IsLexed(words, lex, s) && ReadsWords(words) && At(s, pos, [OPEN]) && none == []
    requires At(s, pos + 1, OpText(op)) && At(s, pos + 1 + |OpText(op)|, [SPACE])
    ensures Gives(lex, pos, [OpenToken] + none + [OpToken(op)], pos + 2 + |OpText(op)|)
  {
    SymbolAt(words, lex, s, pos, OPEN);
    OpAt(words, lex, s, pos + 1, op);
    OverSpace(words, lex, s, pos + 1 + |OpText(op)|);
    NothingBefore(lex(pos + 1));
    HeadGiven(lex, pos, pos + 1, pos + 1, pos + 1 + |OpText(op)|, none, op);
  }

  /** One with it in its only operand. */
  lemma IllOnly(rd: Reading, words: Words, lex: Lexed, s: Key, pos: nat, op: Operator, operand: Expr)
    requires IsReading(rd)
    requires IsLexed(words, lex, s) && ReadsWords(words) && At(s, pos, [OPEN])
    requires At(s, pos + 1, OpText(op)) && At(s, pos + 1 + |OpText(op)|, [SPACE])
    requires Lacks(rd, lex(pos + 2 + |OpText(op)|), rd.leaves(operand))
    ensures Lacks(rd, lex(pos), rd.leaves(Unary(op, operand)))
  {
    var mid := pos + 1 + |OpText(op)|;
    var none: seq<Token> := [];
    OpLexed(words, lex, s, pos, none, op);
    HeadStrings(rd, none, op);
    NoStrings(rd);
    LacksBefore(rd, lex, pos, [OpenToken] + none + [OpToken(op)], mid + 1, [], rd.leaves(operand));
    LeavesOfOne(rd, op, operand);
    assert [] + rd.leaves(operand) == rd.leaves(operand);
  }

  lemma IllUnary(rd: Reading, words: Words, lex: Lexed, format: Format, s: Key, pos: nat, op: Operator, operand: Expr)
    requires IsReading(rd)
    requires IsLexed(words, lex, s) && ReadsWords(words) && PrintsDecimals(format)
    requires Whole(operand) && Sound(words, operand) && !Quoted(operand) && At(s, pos, Print(format, Unary(op, operand)))
    ensures Lacks(rd, lex(pos), rd.leaves(Unary(op, operand)))
    decreases Unary(op, operand), 0
  {
    UnaryText(format, s, pos, op, operand);
    IllLast(rd, words, lex, format, s, pos + 1 + |OpText(op)|, operand);
    IllOnly(rd, words, lex, s, pos, op, operand);
  }

  /** A printed expression with such a string is not read back as tokens with its strings. */
  lemma {:induction false} IllLex(rd: Reading, words: Words, lex: Lexed, format: Format, s: Key, pos: nat, e: Expr)
    requires IsReading(rd)
    requires IsLexed(words, lex, s) && ReadsWords(words) && PrintsDecimals(format)
    requires Whole(e) && Sound(words, e) && !Quoted(e)
    requires At(s, pos, Print(format, e)) && Delimited(s, pos + |Print(format, e)|)
    ensures Lacks(rd, lex(pos), rd.leaves(e))
    decreases e, 1
  {
    match e
    case Binary(op, left, right) => IllBinary(rd, words, lex, format, s, pos, op, left, right);
    case Unary(op, operand) => IllUnary(rd, words, lex, format, s, pos, op, operand);
    case StringLit(v) =>
      LeafOf(rd, e);
      LoneQuote(rd, words, lex, s, pos, v);
  }

  // ---- exactly which expressions come back ----

  lemma TheReading() returns (rd: Reading)
    ensures IsReading(rd) && rd == Reading(ts => Strings(ts), e => Leaves(e))
  {
    rd := Reading(ts => Strings(ts), e => Leaves(e));
  }

  lemma StringsNext(rd: Reading, ts: Tokens, i: nat)
    requires IsReading(rd) && i < |ts|
    ensures rd.strings(ts[..i + 1]) == rd.strings(ts[..i]) + StringOf(ts, i)
  {
    assert ts[..i + 1] == ts[..i] + [ts[i]];
    StringsJoined(rd, ts[..i], [ts[i]]);
    OneString(rd, ts[i]);
  }

  lemma StringsBegin(rd: Reading, ts: Tokens, i: nat)
    requires IsReading(rd) && i <= |ts|
    ensures rd.strings(ts[..i]) <= rd.strings(ts)
  {
    StringsJoined(rd, ts[..i], ts[i..]);
    assert ts[..i] + ts[i..] == ts;
  }

  lemma CountsPrefixes(rd: Reading, ts: Tokens) returns (count: Count)
    requires IsReading(rd)
    ensures Counts(count, ts) && count(0) == [] && forall i: nat | i <= |ts| :: count(i) <= rd.strings(ts)
  {
    count := (i: nat) => rd.strings(if i < |ts| then ts[..i] else ts);
    assert ts[..|ts|] == ts && ts[..0] == [];
    NoStrings(rd);
    forall i: nat {:trigger StringOf(ts, i)} ensures count(i + 1) == count(i) + StringOf(ts, i) {
      if i < |ts| {
        StringsNext(rd, ts, i);
      }
    }
    forall i: nat | i <= |ts| ensures count(i) <= rd.strings(ts) {
      StringsBegin(rd, ts, i);
    }
  }

  /** The strings of an expression read from tokens are the first strings of the tokens. */
  lemma ParsedLeaves(rd: Reading, pf: ParseFloat, ts: Tokens)
    requires IsReading(rd)
    ensures var r := ParseOr(pf, ts, 0); r.Parsed? ==> rd.leaves(r.e) <= rd.strings(ts)
  {
    var count := CountsPrefixes(rd, ts);
    TakesOr(rd, count, pf, ts, 0);
    var r := ParseOr(pf, ts, 0);
    if r.Parsed? {
      assert count(r.pos) == [] + rd.leaves(r.e) == rd.leaves(r.e);
    }
  }

  lemma IllQuotedIsLost(pf: ParseFloat, format: Format, e: Expr)
    requires PrintsDecimals(format) && Whole(e) && Sound(KeywordKind, e) && !Quoted(e)
    ensures !RoundTrips(pf, format, e)
  {
    var s := Print(format, e);
    PrintIsTrimmed(KeywordKind, format, e);
    assert TrimSpace(s) == s;
    KeywordsRead();
    var rd := TheReading();
    var lex: Lexed := (p: nat) => if p <= |s| then Lex(KeywordKind, s, p) else None;
    IllLex(rd, KeywordKind, lex, format, s, 0, e);
    assert lex(0) == Lex(KeywordKind, s, 0);
    if lex(0).Some? {
      ParsedLeaves(rd, pf, lex(0).value);
    }
  }

  /**
   Of the expressions whose parts printing keeps, exactly those come back whose names are words and no
   keywords, whose integers fit int64, whose operators are in their place, and whose strings have their
   quotes doubled.
   */
  lemma RoundTripsIff(pf: ParseFloat, format: Format, e: Expr)
    requires PrintsDecimals(format) && Whole(e)
    ensures RoundTrips(pf, format, e) <==> Printable(KeywordKind, e)
  {
    PrintableIff(KeywordKind, e);
    if Printable(KeywordKind, e) {
      PrintThenParse(pf, format, e);
    } else if Sound(KeywordKind, e) {
      IllQuotedIsLost(pf, format, e);
    } else {
      ParsedIsSound(pf, Print(format, e));
    }
  }

  /** A string on its own comes back exactly when the single quotes in it come in pairs. */
  lemma StringRoundTripsIff(pf: ParseFloat, format: Format, v: Key)
    requires PrintsDecimals(format)
    ensures RoundTrips(pf, format, StringLit(v)) <==> Doubled(v, 0)
  {
    assert WellQuoted(v) <==> Doubled(v, 0);
    RoundTripsIff(pf, format, StringLit(v));
  }

  const ITS: Key := [0x69, 0x74, 0x27, 0x73]
  const DOUBLE_QUOTED: Key := [0x22, 0x69, 0x74, 0x27, 0x73, 0x22]

  /** The text "it's", in double quotes, is read as a string that is printed as text which is not read as that string. */
  lemma DoubleQuotedIsLost(pf: ParseFloat, format: Format)
    requires PrintsDecimals(format)
    ensures ParseExpr(KeywordKind, pf, DOUBLE_QUOTED) == Parsed(StringLit(ITS), 1)
    ensures !RoundTrips(pf, format, StringLit(ITS))
  {
    StringRoundTripsIff(pf, format, ITS);
    assert !Doubled(ITS, 2) && !Doubled(ITS, 1) && !Doubled(ITS, 0);
    var s := DOUBLE_QUOTED;
    assert TrimSpace(s) == s;
    assert StringEnd(s, 5, DOUBLE_QUOTE) == 5;
    assert StringEnd(s, 4, DOUBLE_QUOTE) == 5;
    assert StringEnd(s, 3, DOUBLE_QUOTE) == 5;
    assert StringEnd(s, 2, DOUBLE_QUOTE) == 5;
    assert StringEnd(s, 1, DOUBLE_QUOTE) == 5;
    assert s[1..5] == ITS;
    var ts := [Token(StringToken, ITS), Token(EndOfInput, [])];
    assert Lex(KeywordKind, s, 6) == Some([Token(EndOfInput, [])]);
    assert Lex(KeywordKind, s, 0) == Some([Token(StringToken, ITS)] + [Token(EndOfInput, [])]);
    assert [Token(StringToken, ITS)] + [Token(EndOfInput, [])] == ts;
    ReadsAlone(pf, ts, ITS);
  }

  lemma ReadsAlone(pf: ParseFloat, ts: Tokens, v: Key)
    requires ts == [Token(StringToken, v), Token(EndOfInput, [])]
    ensures ParseOr(pf, ts, 0) == Parsed(StringLit(v), 1)
  {
    var e := StringLit(v);
    assert Peek(ts, 0) == StringToken && Peek(ts, 1) == EndOfInput;
    assert ParseUnary(pf, ts, 0) == Parsed(e, 1);
    assert MulLoop(pf, ts, e, 1) == Parsed(e, 1) && ParseMulDiv(pf, ts, 0) == Parsed(e, 1);
    assert AddLoop(pf, ts, e, 1) == Parsed(e, 1) && ParseAddSub(pf, ts, 0) == Parsed(e, 1);
    assert AfterOperand(pf, ts, e, 1) == Parsed(e, 1) && ParseNot(pf, ts, 0) == Parsed(e, 1);
    assert AndLoop(pf, ts, e, 1) == Parsed(e, 1) && ParseAnd(pf, ts, 0) == Parsed(e, 1);
    assert OrLoop(pf, ts, e, 1) == Parsed(e, 1);
  }
}
