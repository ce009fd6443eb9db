/**
 The expression parser (internal/query/sql/parser.go): recursive descent over the tokens.  Function
 calls, subqueries, IN lists and MATCH are outside this model.
 */
module Grammar {
  import opened Bytes
  import opened Floats
  import opened Engine
  import opened Ast
  import opened Lexer

  /** An expression and the position behind it, an error, or a construct outside this model. */
  datatype Outcome = Parsed(e: Expr, pos: nat) | Failed | Outside

  type Tokens = seq<Token>

  /** strconv.ParseFloat; None when it fails. */
  type ParseFloat = Key -> Option<Bits>

  function Peek(ts: Tokens, pos: nat): Kind {
    if pos < |ts| then ts[pos].kind else EndOfInput
  }

  /** expect, with its error ignored: the position moves only over the expected token. */
  function Expect(ts: Tokens, pos: nat, kind: Kind): (next: nat)
    requires kind != EndOfInput
    ensures pos <= next && (pos <= |ts| ==> next <= |ts|)
  {
    if Peek(ts, pos) == kind then pos + 1 else pos
  }

  // ---- integers ----

  const MAX_INT64: int := 0x7FFF_FFFF_FFFF_FFFF

  predicate IsInt64(n: int) { -MAX_INT64 - 1 <= n <= MAX_INT64 }

  predicate AllDigits(s: Key) {
    forall i | 0 <= i < |s| :: IsDigit(s[i])
  }

  function DigitsValue(s: Key): (n: int)
    requires AllDigits(s)
    ensures n >= 0
  {
    if s == [] then 0 else DigitsValue(s[..|s| - 1]) * 10 + (s[|s| - 1] - 0x30)
  }

  /** strconv.ParseInt(s, 10, 64), for an optional minus and digits. */
  function ParseInt(s: Key): Option<int> {
    var negative := s != [] && s[0] == MINUS;
    var digits := if negative then s[1..] else s;
    if digits == [] || !AllDigits(digits) then None
    else
      var n := if negative then -DigitsValue(digits) else DigitsValue(digits);
      if IsInt64(n) then Some(n) else None
  }

  // ---- the grammar, level by level ----

  function ParseOr(pf: ParseFloat, ts: Tokens, pos: nat): (r: Outcome)
    requires pos <= |ts|
    ensures r.Parsed? ==> pos < r.pos <= |ts|
    decreases |ts| - pos, 9
  {
    match ParseAnd(pf, ts, pos)
    case Parsed(left, p) => OrLoop(pf, ts, left, p)
    case other => other
  }

  function OrLoop(pf: ParseFloat, ts: Tokens, left: Expr, pos: nat): (r: Outcome)
    requires pos <= |ts|
    ensures r.Parsed? ==> pos <= r.pos <= |ts|
    decreases |ts| - pos, 0
  {
    if Peek(ts, pos) == WordOr then
      match ParseAnd(pf, ts, pos + 1)
      case Parsed(right, p) => OrLoop(pf, ts, Binary(Or, left, right), p)
      case other => other
    else Parsed(left, pos)
  }

  function ParseAnd(pf: ParseFloat, ts: Tokens, pos: nat): (r: Outcome)
    requires pos <= |ts|
    ensures r.Parsed? ==> pos < r.pos <= |ts|
    decreases |ts| - pos, 8
  {
    match ParseNot(pf, ts, pos)
    case Parsed(left, p) => AndLoop(pf, ts, left, p)
    case other => other
  }

  function AndLoop(pf: ParseFloat, ts: Tokens, left: Expr, pos: nat): (r: Outcome)
    requires pos <= |ts|
    ensures r.Parsed? ==> pos <= r.pos <= |ts|
    decreases |ts| - pos, 0
  {
    if Peek(ts, pos) == WordAnd then
      match ParseNot(pf, ts, pos + 1)
      case Parsed(right, p) => AndLoop(pf, ts, Binary(And, left, right), p)
      case other => other
    else Parsed(left, pos)
  }

  function ParseNot(pf: ParseFloat, ts: Tokens, pos: nat): (r: Outcome)
    requires pos <= |ts|
    ensures r.Parsed? ==> pos < r.pos <= |ts|
    decreases |ts| - pos, 7
  {
    if Peek(ts, pos) == WordNot then
      match ParseComparison(pf, ts, pos + 1)
      case Parsed(e, p) => Parsed(Unary(Not, e), p)
      case other => other
    else ParseComparison(pf, ts, pos)
  }

  function ComparisonOp(kind: Kind): Option<Operator> {
    match kind
    case EqToken => Some(Eq)
    case NeqToken => Some(Neq)
    case LtToken => Some(Lt)
    case LteToken => Some(Lte)
    case GtToken => Some(Gt)
    case GteToken => Some(Gte)
    case DistToken => Some(VectorDist)
    case _ => None
  }

  function ParseComparison(pf: ParseFloat, ts: Tokens, pos: nat): (r: Outcome)
    requires pos <= |ts|
    ensures r.Parsed? ==> pos < r.pos <= |ts|
    decreases |ts| - pos, 6
  {
    match ParseAddSub(pf, ts, pos)
    case Parsed(left, p) => AfterOperand(pf, ts, left, p)
    case other => other
  }

  /** What may follow the left operand of a comparison. */
  function AfterOperand(pf: ParseFloat, ts: Tokens, left: Expr, p: nat): (r: Outcome)
    requires p <= |ts|
    ensures r.Parsed? ==> p <= r.pos <= |ts|
    decreases |ts| - p, 5
  {
    var kind := Peek(ts, p);
    var negated := kind == WordNot;
    if kind == WordIs then
      var not_ := Peek(ts, p + 1) == WordNot;
      Parsed(IsNull(left, not_), Expect(ts, if not_ then p + 2 else p + 1, WordNull))
    else if kind == WordIn || (negated && Peek(ts, p + 1) == WordIn) then
      Outside
    else if kind == WordBetween || (negated && Peek(ts, p + 1) == WordBetween) then
      match ParseAddSub(pf, ts, if negated then p + 2 else p + 1)
      case Parsed(low, q) =>
        (match ParseAddSub(pf, ts, Expect(ts, q, WordAnd))
         case Parsed(high, q') => Parsed(Between(left, low, high, negated), q')
         case other => other)
      case other => other
    else if kind == WordLike || (negated && Peek(ts, p + 1) == WordLike) then
      match ParseAddSub(pf, ts, if negated then p + 2 else p + 1)
      case Parsed(pattern, q) => Parsed(Like(left, pattern, negated), q)
      case other => other
    else
      match ComparisonOp(kind)
      case Some(op) =>
        (match ParseAddSub(pf, ts, p + 1)
         case Parsed(right, q) => Parsed(Binary(op, left, right), q)
         case other => other)
      case None => Parsed(left, p)
  }

  function AddOp(kind: Kind): Option<Operator> {
    match kind
    case PlusToken => Some(Plus)
    case MinusToken => Some(Minus)
    case _ => None
  }

  function ParseAddSub(pf: ParseFloat, ts: Tokens, pos: nat): (r: Outcome)
    requires pos <= |ts|
    ensures r.Parsed? ==> pos < r.pos <= |ts|
    decreases |ts| - pos, 4
  {
    match ParseMulDiv(pf, ts, pos)
    case Parsed(left, p) => AddLoop(pf, ts, left, p)
    case other => other
  }

  function AddLoop(pf: ParseFloat, ts: Tokens, left: Expr, pos: nat): (r: Outcome)
    requires pos <= |ts|
    ensures r.Parsed? ==> pos <= r.pos <= |ts|
    decreases |ts| - pos, 0
  {
    match AddOp(Peek(ts, pos))
    case Some(op) =>
      (match ParseMulDiv(pf, ts, pos + 1)
       case Parsed(right, p) => AddLoop(pf, ts, Binary(op, left, right), p)
       case other => other)
    case None => Parsed(left, pos)
  }

  function MulOp(kind: Kind): Option<Operator> {
    match kind
    case MultiplyToken => Some(Multiply)
    case DivideToken => Some(Divide)
    case ModuloToken => Some(Modulo)
    case _ => None
  }

  function ParseMulDiv(pf: ParseFloat, ts: Tokens, pos: nat): (r: Outcome)
    requires pos <= |ts|
    ensures r.Parsed? ==> pos < r.pos <= |ts|
    decreases |ts| - pos, 3
  {
    match ParseUnary(pf, ts, pos)
    case Parsed(left, p) => MulLoop(pf, ts, left, p)
    case other => other
  }

  function MulLoop(pf: ParseFloat, ts: Tokens, left: Expr, pos: nat): (r: Outcome)
    requires pos <= |ts|
    ensures r.Parsed? ==> pos <= r.pos <= |ts|
    decreases |ts| - pos, 0
  {
    match MulOp(Peek(ts, pos))
    case Some(op) =>
      (match ParseUnary(pf, ts, pos + 1)
       case Parsed(right, p) => MulLoop(pf, ts, Binary(op, left, right), p)
       case other => other)
    case None => Parsed(left, pos)
  }

  function ParseUnary(pf: ParseFloat, ts: Tokens, pos: nat): (r: Outcome)
    requires pos <= |ts|
    ensures r.Parsed? ==> pos < r.pos <= |ts|
    decreases |ts| - pos, 2
  {
    if Peek(ts, pos) == MinusToken then
      match ParsePrimary(pf, ts, pos + 1)
      case Parsed(e, p) => Parsed(Unary(Minus, e), p)
      case other => other
    else ParsePrimary(pf, ts, pos)
  }

  function ParsePrimary(pf: ParseFloat, ts: Tokens, pos: nat): (r: Outcome)
    requires pos <= |ts|
    ensures r.Parsed? ==> pos < r.pos <= |ts|
    decreases |ts| - pos, 1
  {
    match Peek(ts, pos)
    case Identifier =>
      if Peek(ts, pos + 1) == LeftParen then Outside
      else if Peek(ts, pos + 1) == DotToken then
        if Peek(ts, pos + 2) == Identifier then Parsed(Ident(ts[pos].literal, ts[pos + 2].literal), pos + 3) else Failed
      else Parsed(Ident([], ts[pos].literal), pos + 1)
    case StringToken => Parsed(StringLit(ts[pos].literal), pos + 1)
    case IntegerToken =>
      (match ParseInt(ts[pos].literal)
       case Some(n) => Parsed(IntLit(n), pos + 1)
       case None => Failed)
    case FloatToken =>
      (match pf(ts[pos].literal)
       case Some(b) => Parsed(FloatLit(b), pos + 1)
       case None => Failed)
    case WordTrue => Parsed(BoolLit(true), pos + 1)
    case WordFalse => Parsed(BoolLit(false), pos + 1)
    case WordNull => Parsed(NullLit, pos + 1)
    case LeftParen =>
      if Peek(ts, pos + 1) == WordSelect then Outside
      else
        (match ParseOr(pf, ts, pos + 1)
         case Parsed(e, p) => Parsed(e, Expect(ts, p, RightParen))
         case other => other)
    case MultiplyToken => Parsed(Star, pos + 1)
    case WordMatch => Outside
    case WordAggregate => Outside
    case _ => Failed
  }

  /** ParseExpr: tokens left over after the expression are ignored. */
  function ParseExpr(words: Words, pf: ParseFloat, input: Key): Outcome {
    match Lex(words, TrimSpace(input), 0)
    case None => Failed
    case Some(ts) => ParseOr(pf, ts, 0)
  }
}
