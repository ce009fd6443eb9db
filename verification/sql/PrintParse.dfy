/** Parsing the tokens of a printed expression gives back the expression. */
module PrintParse {
  import opened Bytes
  import opened Engine
  import opened Ast
  import opened Lexer
  import opened Keywords
  import opened Grammar
  import opened Printer
  import opened PrintLex

  // ---- integers ----

  lemma {:induction false} DigitsReadBack(n: nat)
    ensures DigitsValue(Digits(n)) == n
  {
    var s := Digits(n);
    if n < 10 {
      assert s[..0] == [];
      assert DigitsValue(s) == DigitsValue([]) * 10 + n;
    } else {
      DigitsReadBack(n / 10);
      assert s[..|s| - 1] == Digits(n / 10);
    }
  }

  lemma SignedReads(digits: Key)
    requires digits != [] && AllDigits(digits)
    ensures var n := DigitsValue(digits);
            && ParseInt(digits) == (if IsInt64(n) then Some(n) else None)
            && ParseInt([MINUS] + digits) == (if IsInt64(-n) then Some(-n) else None)
  {
    assert ([MINUS] + digits)[1..] == digits;
    assert IsDigit(digits[0]);
  }

  lemma DecimalReadsBack(n: int)
    ensures ParseInt(Decimal(n)) == if IsInt64(n) then Some(n) else None
  {
    var m := if n < 0 then -n else n;
    DigitsReadBack(m);
    SignedReads(Digits(m));
  }

  // ---- up the levels of the grammar ----

  /** What may stand behind an operand that is complete. */
  predicate Closes(kind: Kind) { kind == RightParen || kind == EndOfInput }

  predicate StartsOperand(kind: Kind) { kind != MinusToken && kind != WordNot && kind != WordSelect }

  // What the parser makes of a primary expression at each position.
  type Primaries = nat -> Outcome

  ghost predicate ArePrimaries(primary: Primaries, pf: ParseFloat, ts: Tokens) {
    forall p: nat {:trigger ParsePrimary(pf, ts, p)} :: p <= |ts| ==> primary(p) == ParsePrimary(pf, ts, p)
  }

  ghost predicate ReadsOperand(primary: Primaries, ts: Tokens, pos: nat, e: Expr, end: nat) {
    pos < end <= |ts| && StartsOperand(Peek(ts, pos)) && primary(pos) == Parsed(e, end)
  }

  lemma AsUnary(primary: Primaries, pf: ParseFloat, ts: Tokens, pos: nat, e: Expr, end: nat)
    requires ArePrimaries(primary, pf, ts) && ReadsOperand(primary, ts, pos, e, end)
    ensures ParseUnary(pf, ts, pos) == Parsed(e, end)
  {
    assert ParsePrimary(pf, ts, pos) == Parsed(e, end);
  }

  lemma AsFactor(pf: ParseFloat, ts: Tokens, pos: nat, e: Expr, end: nat)
    requires pos < end <= |ts| && ParseUnary(pf, ts, pos) == Parsed(e, end) && MulOp(Peek(ts, end)) == None
    ensures ParseMulDiv(pf, ts, pos) == Parsed(e, end)
  {
    assert MulLoop(pf, ts, e, end) == Parsed(e, end);
  }

  lemma AsTerm(pf: ParseFloat, ts: Tokens, pos: nat, e: Expr, end: nat)
    requires pos < end <= |ts| && ParseMulDiv(pf, ts, pos) == Parsed(e, end) && AddOp(Peek(ts, end)) == None
    ensures ParseAddSub(pf, ts, pos) == Parsed(e, end)
  {
    assert AddLoop(pf, ts, e, end) == Parsed(e, end);
  }

  predicate EndsComparison(kind: Kind) { Closes(kind) || kind == WordAnd || kind == WordOr }

  lemma AsComparison(pf: ParseFloat, ts: Tokens, pos: nat, e: Expr, end: nat)
    requires pos < end <= |ts| && ParseAddSub(pf, ts, pos) == Parsed(e, end) && EndsComparison(Peek(ts, end))
    ensures ParseComparison(pf, ts, pos) == Parsed(e, end)
  {
    assert AfterOperand(pf, ts, e, end) == Parsed(e, end);
  }

  lemma AsNot(pf: ParseFloat, ts: Tokens, pos: nat, e: Expr, end: nat)
    requires pos < end <= |ts| && Peek(ts, pos) != WordNot && ParseComparison(pf, ts, pos) == Parsed(e, end)
    ensures ParseNot(pf, ts, pos) == Parsed(e, end)
  {
  }

  lemma AsConjunct(pf: ParseFloat, ts: Tokens, pos: nat, e: Expr, end: nat)
    requires pos < end <= |ts| && ParseNot(pf, ts, pos) == Parsed(e, end) && Peek(ts, end) != WordAnd
    ensures ParseAnd(pf, ts, pos) == Parsed(e, end)
  {
    assert AndLoop(pf, ts, e, end) == Parsed(e, end);
  }

  lemma AsWhole(pf: ParseFloat, ts: Tokens, pos: nat, e: Expr, end: nat)
    requires pos < end <= |ts| && ParseAnd(pf, ts, pos) == Parsed(e, end) && Peek(ts, end) != WordOr
    ensures ParseOr(pf, ts, pos) == Parsed(e, end)
  {
    assert OrLoop(pf, ts, e, end) == Parsed(e, end);
  }

  /** An operand up to a comparison, in front of a logical operator or the end. */
  lemma OperandAsNot(primary: Primaries, pf: ParseFloat, ts: Tokens, pos: nat, e: Expr, end: nat)
    requires ArePrimaries(primary, pf, ts) && ReadsOperand(primary, ts, pos, e, end) && EndsComparison(Peek(ts, end))
    ensures ParseNot(pf, ts, pos) == Parsed(e, end)
  {
    OperandAsTerm(primary, pf, ts, pos, e, end);
    AsComparison(pf, ts, pos, e, end);
    AsNot(pf, ts, pos, e, end);
  }

  lemma OperandAsTerm(primary: Primaries, pf: ParseFloat, ts: Tokens, pos: nat, e: Expr, end: nat)
    requires ArePrimaries(primary, pf, ts) && ReadsOperand(primary, ts, pos, e, end)
    requires MulOp(Peek(ts, end)) == None && AddOp(Peek(ts, end)) == None
    ensures ParseAddSub(pf, ts, pos) == Parsed(e, end)
  {
    AsUnary(primary, pf, ts, pos, e, end);
    AsFactor(pf, ts, pos, e, end);
    AsTerm(pf, ts, pos, e, end);
  }

  // ---- from one level to the whole expression, when it closes ----

  lemma NotCloses(pf: ParseFloat, ts: Tokens, pos: nat, e: Expr, end: nat)
    requires pos < end <= |ts| && ParseNot(pf, ts, pos) == Parsed(e, end) && Closes(Peek(ts, end))
    ensures ParseOr(pf, ts, pos) == Parsed(e, end)
  {
    AsConjunct(pf, ts, pos, e, end);
    AsWhole(pf, ts, pos, e, end);
  }

  lemma ComparisonCloses(pf: ParseFloat, ts: Tokens, pos: nat, e: Expr, end: nat)
    requires pos < end <= |ts| && Peek(ts, pos) != WordNot && ParseComparison(pf, ts, pos) == Parsed(e, end) && Closes(Peek(ts, end))
    ensures ParseOr(pf, ts, pos) == Parsed(e, end)
  {
    AsNot(pf, ts, pos, e, end);
    NotCloses(pf, ts, pos, e, end);
  }

  lemma TermCloses(pf: ParseFloat, ts: Tokens, pos: nat, e: Expr, end: nat)
    requires pos < end <= |ts| && Peek(ts, pos) != WordNot && ParseAddSub(pf, ts, pos) == Parsed(e, end) && Closes(Peek(ts, end))
    ensures ParseOr(pf, ts, pos) == Parsed(e, end)
  {
    AsComparison(pf, ts, pos, e, end);
    ComparisonCloses(pf, ts, pos, e, end);
  }

  lemma FactorCloses(pf: ParseFloat, ts: Tokens, pos: nat, e: Expr, end: nat)
    requires pos < end <= |ts| && Peek(ts, pos) != WordNot && ParseMulDiv(pf, ts, pos) == Parsed(e, end) && Closes(Peek(ts, end))
    ensures ParseOr(pf, ts, pos) == Parsed(e, end)
  {
    AsTerm(pf, ts, pos, e, end);
    TermCloses(pf, ts, pos, e, end);
  }

  // ---- two operands and the operator between them ----

  lemma JoinFactors(pf: ParseFloat, ts: Tokens, pos: nat, op: Operator, left: Expr, mid: nat, right: Expr, end: nat)
    requires pos < mid < end <= |ts| && MulOp(Peek(ts, mid)) == Some(op) && MulOp(Peek(ts, end)) == None
    requires ParseUnary(pf, ts, pos) == Parsed(left, mid) && ParseUnary(pf, ts, mid + 1) == Parsed(right, end)
    ensures ParseMulDiv(pf, ts, pos) == Parsed(Binary(op, left, right), end)
  {
    MulLoopStep(pf, ts, Binary(op, left, right), end);
    MulLoopStep(pf, ts, left, mid);
  }

  lemma MulLoopStep(pf: ParseFloat, ts: Tokens, left: Expr, pos: nat)
    requires pos <= |ts|
    ensures MulOp(Peek(ts, pos)) == None ==> MulLoop(pf, ts, left, pos) == Parsed(left, pos)
    ensures MulOp(Peek(ts, pos)).Some? ==>
              var right := ParseUnary(pf, ts, pos + 1);
              right.Parsed? ==>
                MulLoop(pf, ts, left, pos) == MulLoop(pf, ts, Binary(MulOp(Peek(ts, pos)).value, left, right.e), right.pos)
  {
  }

  lemma JoinTerms(pf: ParseFloat, ts: Tokens, pos: nat, op: Operator, left: Expr, mid: nat, right: Expr, end: nat)
    requires pos < mid < end <= |ts| && AddOp(Peek(ts, mid)) == Some(op) && AddOp(Peek(ts, end)) == None
    requires ParseMulDiv(pf, ts, pos) == Parsed(left, mid) && ParseMulDiv(pf, ts, mid + 1) == Parsed(right, end)
    ensures ParseAddSub(pf, ts, pos) == Parsed(Binary(op, left, right), end)
  {
    var e := Binary(op, left, right);
    assert AddLoop(pf, ts, e, end) == Parsed(e, end);
    assert AddLoop(pf, ts, left, mid) == AddLoop(pf, ts, e, end);
  }

  lemma JoinCompared(pf: ParseFloat, ts: Tokens, pos: nat, op: Operator, left: Expr, mid: nat, right: Expr, end: nat)
    requires pos < mid < end <= |ts| && ComparisonOp(Peek(ts, mid)) == Some(op)
    requires ParseAddSub(pf, ts, pos) == Parsed(left, mid) && ParseAddSub(pf, ts, mid + 1) == Parsed(right, end)
    ensures ParseComparison(pf, ts, pos) == Parsed(Binary(op, left, right), end)
  {
    Compared(pf, ts, op, left, mid, right, end);
  }

  lemma Compared(pf: ParseFloat, ts: Tokens, op: Operator, left: Expr, mid: nat, right: Expr, end: nat)
    requires mid < end <= |ts| && ComparisonOp(Peek(ts, mid)) == Some(op) && ParseAddSub(pf, ts, mid + 1) == Parsed(right, end)
    ensures AfterOperand(pf, ts, left, mid) == Parsed(Binary(op, left, right), end)
  {
  }

  lemma JoinConjuncts(pf: ParseFloat, ts: Tokens, pos: nat, left: Expr, mid: nat, right: Expr, end: nat)
    requires pos < mid < end <= |ts| && Peek(ts, mid) == WordAnd && Peek(ts, end) != WordAnd
    requires ParseNot(pf, ts, pos) == Parsed(left, mid) && ParseNot(pf, ts, mid + 1) == Parsed(right, end)
    ensures ParseAnd(pf, ts, pos) == Parsed(Binary(And, left, right), end)
  {
    var e := Binary(And, left, right);
    assert AndLoop(pf, ts, e, end) == Parsed(e, end);
    assert AndLoop(pf, ts, left, mid) == AndLoop(pf, ts, e, end);
  }

  lemma JoinDisjuncts(pf: ParseFloat, ts: Tokens, pos: nat, left: Expr, mid: nat, right: Expr, end: nat)
    requires pos < mid < end <= |ts| && Peek(ts, mid) == WordOr && Peek(ts, end) != WordOr
    requires ParseAnd(pf, ts, pos) == Parsed(left, mid) && ParseAnd(pf, ts, mid + 1) == Parsed(right, end)
    ensures ParseOr(pf, ts, pos) == Parsed(Binary(Or, left, right), end)
  {
    var e := Binary(Or, left, right);
    assert OrLoop(pf, ts, e, end) == Parsed(e, end);
    assert OrLoop(pf, ts, left, mid) == OrLoop(pf, ts, e, end);
  }

  ghost predicate ReadsBoth(primary: Primaries, ts: Tokens, pos: nat, op: Operator, left: Expr, mid: nat, right: Expr, end: nat) {
    && mid < |ts| && ts[mid].kind == OpToken(op).kind && Closes(Peek(ts, end))
    && ReadsOperand(primary, ts, pos, left, mid) && ReadsOperand(primary, ts, mid + 1, right, end)
  }

  lemma ReadsProduct(primary: Primaries, pf: ParseFloat, ts: Tokens, pos: nat, op: Operator, left: Expr, mid: nat, right: Expr, end: nat)
    requires ArePrimaries(primary, pf, ts) && ReadsBoth(primary, ts, pos, op, left, mid, right, end)
    requires MulOp(OpToken(op).kind) == Some(op)
    ensures ParseOr(pf, ts, pos) == Parsed(Binary(op, left, right), end)
  {
    AsUnary(primary, pf, ts, pos, left, mid);
    AsUnary(primary, pf, ts, mid + 1, right, end);
    JoinFactors(pf, ts, pos, op, left, mid, right, end);
    FactorCloses(pf, ts, pos, Binary(op, left, right), end);
  }

  lemma ReadsSum(primary: Primaries, pf: ParseFloat, ts: Tokens, pos: nat, op: Operator, left: Expr, mid: nat, right: Expr, end: nat)
    requires ArePrimaries(primary, pf, ts) && ReadsBoth(primary, ts, pos, op, left, mid, right, end)
    requires AddOp(OpToken(op).kind) == Some(op)
    ensures ParseOr(pf, ts, pos) == Parsed(Binary(op, left, right), end)
  {
    AsUnary(primary, pf, ts, pos, left, mid);
    AsUnary(primary, pf, ts, mid + 1, right, end);
    AsFactor(pf, ts, pos, left, mid);
    AsFactor(pf, ts, mid + 1, right, end);
    JoinTerms(pf, ts, pos, op, left, mid, right, end);
    TermCloses(pf, ts, pos, Binary(op, left, right), end);
  }

  lemma ReadsComparison(primary: Primaries, pf: ParseFloat, ts: Tokens, pos: nat, op: Operator, left: Expr, mid: nat, right: Expr, end: nat)
    requires ArePrimaries(primary, pf, ts) && ReadsBoth(primary, ts, pos, op, left, mid, right, end)
    requires ComparisonOp(OpToken(op).kind) == Some(op)
    ensures ParseOr(pf, ts, pos) == Parsed(Binary(op, left, right), end)
  {
    ComparedOperands(primary, pf, ts, pos, op, left, mid, right, end);
    ComparisonCloses(pf, ts, pos, Binary(op, left, right), end);
  }

  lemma ComparedOperands(primary: Primaries, pf: ParseFloat, ts: Tokens, pos: nat, op: Operator, left: Expr, mid: nat, right: Expr, end: nat)
    requires ArePrimaries(primary, pf, ts) && ReadsBoth(primary, ts, pos, op, left, mid, right, end)
    requires ComparisonOp(OpToken(op).kind) == Some(op)
    ensures ParseComparison(pf, ts, pos) == Parsed(Binary(op, left, right), end)
  {
    OperandAsTerm(primary, pf, ts, pos, left, mid);
    OperandAsTerm(primary, pf, ts, mid + 1, right, end);
    JoinCompared(pf, ts, pos, op, left, mid, right, end);
  }

  lemma ReadsLogic(primary: Primaries, pf: ParseFloat, ts: Tokens, pos: nat, op: Operator, left: Expr, mid: nat, right: Expr, end: nat)
    requires ArePrimaries(primary, pf, ts) && ReadsBoth(primary, ts, pos, op, left, mid, right, end)
    requires op == And || op == Or
    ensures ParseOr(pf, ts, pos) == Parsed(Binary(op, left, right), end)
  {
    OperandAsNot(primary, pf, ts, pos, left, mid);
    OperandAsNot(primary, pf, ts, mid + 1, right, end);
    if op == And {
      JoinConjuncts(pf, ts, pos, left, mid, right, end);
      AsWhole(pf, ts, pos, Binary(op, left, right), end);
    } else {
      AsConjunct(pf, ts, pos, left, mid);
      AsConjunct(pf, ts, mid + 1, right, end);
      JoinDisjuncts(pf, ts, pos, left, mid, right, end);
    }
  }

  lemma OpLevels(op: Operator)
    requires IsBinary(op)
    ensures var kind := OpToken(op).kind;
            op == And || op == Or || MulOp(kind) == Some(op) || AddOp(kind) == Some(op) || ComparisonOp(kind) == Some(op)
  {
  }

  lemma ReadsBinary(primary: Primaries, pf: ParseFloat, ts: Tokens, pos: nat, op: Operator, left: Expr, mid: nat, right: Expr, end: nat)
    requires ArePrimaries(primary, pf, ts) && ReadsBoth(primary, ts, pos, op, left, mid, right, end) && IsBinary(op)
    ensures ParseOr(pf, ts, pos) == Parsed(Binary(op, left, right), end)
  {
    OpLevels(op);
    var kind := OpToken(op).kind;
    if op == And || op == Or {
      ReadsLogic(primary, pf, ts, pos, op, left, mid, right, end);
    } else if MulOp(kind) == Some(op) {
      ReadsProduct(primary, pf, ts, pos, op, left, mid, right, end);
    } else if AddOp(kind) == Some(op) {
      ReadsSum(primary, pf, ts, pos, op, left, mid, right, end);
    } else {
      ReadsComparison(primary, pf, ts, pos, op, left, mid, right, end);
    }
  }

  lemma ReadsNot(primary: Primaries, pf: ParseFloat, ts: Tokens, pos: nat, operand: Expr, end: nat)
    requires ArePrimaries(primary, pf, ts) && pos < |ts| && ts[pos].kind == WordNot
    requires ReadsOperand(primary, ts, pos + 1, operand, end) && Closes(Peek(ts, end))
    ensures ParseOr(pf, ts, pos) == Parsed(Unary(Not, operand), end)
  {
    OperandAsTerm(primary, pf, ts, pos + 1, operand, end);
    AsComparison(pf, ts, pos + 1, operand, end);
    assert ParseNot(pf, ts, pos) == Parsed(Unary(Not, operand), end);
    NotCloses(pf, ts, pos, Unary(Not, operand), end);
  }

  lemma ReadsMinus(primary: Primaries, pf: ParseFloat, ts: Tokens, pos: nat, operand: Expr, end: nat)
    requires ArePrimaries(primary, pf, ts) && pos < |ts| && ts[pos].kind == MinusToken
    requires ReadsOperand(primary, ts, pos + 1, operand, end) && Closes(Peek(ts, end))
    ensures ParseOr(pf, ts, pos) == Parsed(Unary(Minus, operand), end)
  {
    assert ParsePrimary(pf, ts, pos + 1) == Parsed(operand, end);
    assert ParseUnary(pf, ts, pos) == Parsed(Unary(Minus, operand), end);
    AsFactor(pf, ts, pos, Unary(Minus, operand), end);
    FactorCloses(pf, ts, pos, Unary(Minus, operand), end);
  }

  // ---- the whole expression ----

  /** Not what would turn the name in front of it into a call or a qualifier. */
  predicate Follows(kind: Kind) { kind != LeftParen && kind != DotToken }

  lemma Enclosed(primary: Primaries, pf: ParseFloat, ts: Tokens, pos: nat, e: Expr, end: nat)
    requires ArePrimaries(primary, pf, ts)
    requires Peek(ts, pos) == LeftParen && Peek(ts, pos + 1) != WordSelect && pos + 1 <= |ts|
    requires ParseOr(pf, ts, pos + 1) == Parsed(e, end) && Peek(ts, end) == RightParen
    ensures ReadsOperand(primary, ts, pos, e, end + 1)
  {
    assert ParsePrimary(pf, ts, pos) == Parsed(e, end + 1);
  }

  lemma BothEnclosed(primary: Primaries, pf: ParseFloat, ts: Tokens, pos: nat, op: Operator, left: Expr, mid: nat, right: Expr, end: nat)
    requires ArePrimaries(primary, pf, ts) && end < |ts| && IsBinary(op)
    requires Peek(ts, pos) == LeftParen && Peek(ts, mid) == OpToken(op).kind && Peek(ts, end) == RightParen
    requires ReadsOperand(primary, ts, pos + 1, left, mid) && ReadsOperand(primary, ts, mid + 1, right, end)
    ensures ReadsOperand(primary, ts, pos, Binary(op, left, right), end + 1)
  {
    ReadsBinary(primary, pf, ts, pos + 1, op, left, mid, right, end);
    Enclosed(primary, pf, ts, pos, Binary(op, left, right), end);
  }

  lemma OneEnclosed(primary: Primaries, pf: ParseFloat, ts: Tokens, pos: nat, op: Operator, operand: Expr, end: nat)
    requires ArePrimaries(primary, pf, ts) && end < |ts| && IsUnary(op)
    requires Peek(ts, pos) == LeftParen && Peek(ts, pos + 1) == OpToken(op).kind && Peek(ts, end) == RightParen
    requires ReadsOperand(primary, ts, pos + 2, operand, end)
    ensures ReadsOperand(primary, ts, pos, Unary(op, operand), end + 1)
  {
    if op == Not {
      ReadsNot(primary, pf, ts, pos + 1, operand, end);
    } else {
      ReadsMinus(primary, pf, ts, pos + 1, operand, end);
    }
    Enclosed(primary, pf, ts, pos, Unary(op, operand), end);
  }

  lemma BinaryTokens(ts: Tokens, pos: nat, left: Tokens, op: Operator, right: Tokens)
    requires At(ts, pos, [OpenToken] + left + [OpToken(op)] + right + [CloseToken])
    ensures var mid := pos + 1 + |left|;
            var end := mid + 1 + |right|;
            && end < |ts| && Peek(ts, pos) == LeftParen && Peek(ts, mid) == OpToken(op).kind && Peek(ts, end) == RightParen
            && At(ts, pos + 1, left) && At(ts, mid + 1, right) && Follows(Peek(ts, mid)) && Follows(Peek(ts, end))
  {
    FiveParts(ts, pos, [OpenToken], left, [OpToken(op)], right, [CloseToken]);
    AtItem(ts, pos, [OpenToken], 0);
    AtItem(ts, pos + 1 + |left|, [OpToken(op)], 0);
    AtItem(ts, pos + 2 + |left| + |right|, [CloseToken], 0);
  }

  lemma UnaryTokens(ts: Tokens, pos: nat, op: Operator, operand: Tokens)
    requires At(ts, pos, [OpenToken, OpToken(op)] + operand + [CloseToken])
    ensures var end := pos + 2 + |operand|;
            && end < |ts| && Peek(ts, pos) == LeftParen && Peek(ts, pos + 1) == OpToken(op).kind && Peek(ts, end) == RightParen
            && At(ts, pos + 2, operand)
  {
    AtJoin(ts, pos, [OpenToken, OpToken(op)] + operand, [CloseToken]);
    AtJoin(ts, pos, [OpenToken, OpToken(op)], operand);
    AtItem(ts, pos, [OpenToken, OpToken(op)], 0);
    AtItem(ts, pos, [OpenToken, OpToken(op)], 1);
    AtItem(ts, pos + 2 + |operand|, [CloseToken], 0);
  }

  // What Toks and Printable say of each expression, as values: proofs that pass them on do not unfold them.
  datatype Spelling = Spelling(toks: Expr -> seq<Token>, printable: Expr -> bool)

  ghost predicate Spells(spelling: Spelling, words: Words, format: Format) {
    && (forall e: Expr {:trigger Toks(format, e)} :: spelling.toks(e) == Toks(format, e))
    && (forall e: Expr {:trigger Printable(words, e)} :: spelling.printable(e) == Printable(words, e))
  }

  lemma SpellsBinary(spelling: Spelling, words: Words, format: Format, op: Operator, left: Expr, right: Expr)
    requires Spells(spelling, words, format) && spelling.printable(Binary(op, left, right))
    ensures spelling.toks(Binary(op, left, right)) ==
            [OpenToken] + spelling.toks(left) + [OpToken(op)] + spelling.toks(right) + [CloseToken]
    ensures IsBinary(op) && spelling.printable(left) && spelling.printable(right)
  {
    var toks := spelling.toks;
    assert toks(left) == Toks(format, left) && toks(right) == Toks(format, right);
    assert toks(Binary(op, left, right)) == Toks(format, Binary(op, left, right));
    assert Printable(words, Binary(op, left, right)) && (Printable(words, left) ==> spelling.printable(left))
           && (Printable(words, right) ==> spelling.printable(right));
  }

  lemma SpellsUnary(spelling: Spelling, words: Words, format: Format, op: Operator, operand: Expr)
    requires Spells(spelling, words, format) && spelling.printable(Unary(op, operand))
    ensures spelling.toks(Unary(op, operand)) == [OpenToken, OpToken(op)] + spelling.toks(operand) + [CloseToken]
    ensures IsUnary(op) && spelling.printable(operand)
  {
    assert spelling.toks(operand) == Toks(format, operand);
    assert spelling.toks(Unary(op, operand)) == Toks(format, Unary(op, operand));
    assert Printable(words, Unary(op, operand)) && (Printable(words, operand) ==> spelling.printable(operand));
  }

  /** How tokens are read and expressions are spelt. */
  ghost predicate Reads(words: Words, primary: Primaries, pf: ParseFloat, spelling: Spelling, format: Format, ts: Tokens) {
    ArePrimaries(primary, pf, ts) && PrintsDecimals(format) && Spells(spelling, words, format)
  }

  lemma {:induction false} ReadsTokens(words: Words, primary: Primaries, pf: ParseFloat, spelling: Spelling, format: Format,
                                       ts: Tokens, pos: nat, e: Expr)
    requires Reads(words, primary, pf, spelling, format, ts) && spelling.printable(e)
    requires At(ts, pos, spelling.toks(e)) && Follows(Peek(ts, pos + |spelling.toks(e)|))
    ensures ReadsOperand(primary, ts, pos, e, pos + |spelling.toks(e)|)
    decreases e, 2
  {
    match e
    case Binary(op, left, right) => ReadsBinaryTokens(words, primary, pf, spelling, format, ts, pos, op, left, right);
    case Unary(op, operand) => ReadsUnaryTokens(words, primary, pf, spelling, format, ts, pos, op, operand);
    case _ =>
      assert spelling.toks(e) == Toks(format, e) && Printable(words, e);
      ReadsLeaf(words, primary, pf, format, ts, pos, e);
  }

  lemma ReadsBinaryTokens(words: Words, primary: Primaries, pf: ParseFloat, spelling: Spelling, format: Format,
                          ts: Tokens, pos: nat, op: Operator, left: Expr, right: Expr)
    requires Reads(words, primary, pf, spelling, format, ts)
    requires var e := Binary(op, left, right); spelling.printable(e) && At(ts, pos, spelling.toks(e))
    ensures ReadsOperand(primary, ts, pos, Binary(op, left, right), pos + |spelling.toks(Binary(op, left, right))|)
    decreases Binary(op, left, right), 1
  {
    SpellsBinary(spelling, words, format, op, left, right);
    BinaryParts(ts, pos, spelling.toks(left), op, spelling.toks(right));
    ReadsBothTokens(words, primary, pf, spelling, format, ts, pos, op, left, right, spelling.toks(left), spelling.toks(right));
    BothRead(primary, pf, ts, pos, op, left, right, spelling.toks(left), spelling.toks(right));
  }

  lemma BinaryParts(ts: Tokens, pos: nat, l: Tokens, op: Operator, r: Tokens)
    requires At(ts, pos, [OpenToken] + l + [OpToken(op)] + r + [CloseToken])
    ensures At(ts, pos + 1, l) && At(ts, pos + 2 + |l|, r)
    ensures Follows(Peek(ts, pos + 1 + |l|)) && Follows(Peek(ts, pos + 2 + |l| + |r|))
  {
    BinaryTokens(ts, pos, l, op, r);
  }

  lemma BinaryFrame(ts: Tokens, pos: nat, l: Tokens, op: Operator, r: Tokens)
    requires At(ts, pos, [OpenToken] + l + [OpToken(op)] + r + [CloseToken])
    ensures pos + 2 + |l| + |r| < |ts| && Peek(ts, pos) == LeftParen
    ensures Peek(ts, pos + 1 + |l|) == OpToken(op).kind && Peek(ts, pos + 2 + |l| + |r|) == RightParen
  {
    BinaryTokens(ts, pos, l, op, r);
  }

  lemma BothRead(primary: Primaries, pf: ParseFloat, ts: Tokens, pos: nat, op: Operator, left: Expr, right: Expr, l: Tokens, r: Tokens)
    requires ArePrimaries(primary, pf, ts) && IsBinary(op) && At(ts, pos, [OpenToken] + l + [OpToken(op)] + r + [CloseToken])
    requires ReadsOperand(primary, ts, pos + 1, left, pos + 1 + |l|) && ReadsOperand(primary, ts, pos + 2 + |l|, right, pos + 2 + |l| + |r|)
    ensures ReadsOperand(primary, ts, pos, Binary(op, left, right), pos + 3 + |l| + |r|)
  {
    BinaryFrame(ts, pos, l, op, r);
    BothEnclosed(primary, pf, ts, pos, op, left, pos + 1 + |l|, right, pos + 2 + |l| + |r|);
  }

  lemma ReadsBothTokens(words: Words, primary: Primaries, pf: ParseFloat, spelling: Spelling, format: Format,
                        ts: Tokens, pos: nat, op: Operator, left: Expr, right: Expr, l: Tokens, r: Tokens)
    requires Reads(words, primary, pf, spelling, format, ts)
    requires l == spelling.toks(left) && r == spelling.toks(right) && IsBinary(op) && spelling.printable(left) && spelling.printable(right)
    requires At(ts, pos + 1, l) && At(ts, pos + 2 + |l|, r)
    requires Follows(Peek(ts, pos + 1 + |l|)) && Follows(Peek(ts, pos + 2 + |l| + |r|))
    ensures ReadsOperand(primary, ts, pos + 1, left, pos + 1 + |l|)
    ensures ReadsOperand(primary, ts, pos + 2 + |l|, right, pos + 2 + |l| + |r|)
    decreases Binary(op, left, right), 0
  {
    ReadsTokens(words, primary, pf, spelling, format, ts, pos + 1, left);
    ReadsTokens(words, primary, pf, spelling, format, ts, pos + 2 + |l|, right);
  }

  lemma ReadsUnaryTokens(words: Words, primary: Primaries, pf: ParseFloat, spelling: Spelling, format: Format,
                         ts: Tokens, pos: nat, op: Operator, operand: Expr)
    requires Reads(words, primary, pf, spelling, format, ts)
    requires var e := Unary(op, operand); spelling.printable(e) && At(ts, pos, spelling.toks(e))
    ensures ReadsOperand(primary, ts, pos, Unary(op, operand), pos + |spelling.toks(Unary(op, operand))|)
    decreases Unary(op, operand), 0
  {
    SpellsUnary(spelling, words, format, op, operand);
    UnaryTokens(ts, pos, op, spelling.toks(operand));
    ReadsTokens(words, primary, pf, spelling, format, ts, pos + 2, operand);
    OneEnclosed(primary, pf, ts, pos, op, operand, pos + 2 + |spelling.toks(operand)|);
  }

  lemma ReadsLeaf(words: Words, primary: Primaries, pf: ParseFloat, format: Format, ts: Tokens, pos: nat, e: Expr)
    requires ArePrimaries(primary, pf, ts) && PrintsDecimals(format) && Printable(words, e) && !e.Binary? && !e.Unary?
    requires At(ts, pos, Toks(format, e)) && Follows(Peek(ts, pos + |Toks(format, e)|))
    ensures ReadsOperand(primary, ts, pos, e, pos + |Toks(format, e)|)
  {
    AtItem(ts, pos, Toks(format, e), 0);
    match e
    case IntLit(n) =>
      assert format.decimal(n) == Decimal(n);
      DecimalReadsBack(n);
      ReadsInteger(primary, pf, ts, pos, n);
    case Ident(table, name) => ReadsIdent(primary, pf, ts, pos, table, name);
    case _ => ReadsConstant(primary, pf, format, ts, pos, e);
  }

  lemma ReadsInteger(primary: Primaries, pf: ParseFloat, ts: Tokens, pos: nat, n: int)
    requires ArePrimaries(primary, pf, ts)
    requires pos < |ts| && ts[pos].kind == IntegerToken && ParseInt(ts[pos].literal) == Some(n)
    ensures ReadsOperand(primary, ts, pos, IntLit(n), pos + 1)
  {
    assert ParsePrimary(pf, ts, pos) == Parsed(IntLit(n), pos + 1);
  }

  lemma ReadsIdent(primary: Primaries, pf: ParseFloat, ts: Tokens, pos: nat, table: Key, name: Key)
    requires ArePrimaries(primary, pf, ts)
    requires At(ts, pos, IdentToks(table, name)) && Follows(Peek(ts, pos + |IdentToks(table, name)|))
    ensures ReadsOperand(primary, ts, pos, Ident(table, name), pos + |IdentToks(table, name)|)
  {
    var toks := IdentToks(table, name);
    AtItem(ts, pos, toks, 0);
    if table != [] {
      AtItem(ts, pos, toks, 1);
      AtItem(ts, pos, toks, 2);
    }
    assert ParsePrimary(pf, ts, pos) == Parsed(Ident(table, name), pos + |toks|);
  }

  lemma ReadsConstant(primary: Primaries, pf: ParseFloat, format: Format, ts: Tokens, pos: nat, e: Expr)
    requires ArePrimaries(primary, pf, ts) && (e.StringLit? || e.BoolLit? || e.NullLit? || e.Star?)
    requires pos < |ts| && ts[pos] == Toks(format, e)[0]
    ensures ReadsOperand(primary, ts, pos, e, pos + 1)
  {
    assert ParsePrimary(pf, ts, pos) == Parsed(e, pos + 1);
  }

  // ---- print, then parse ----

  lemma KeywordsRead()
    ensures ReadsWords(KeywordKind)
  {
    assert Ascii("AND") == OpText(And);
    assert Ascii("OR") == OpText(Or);
    NotIsRead();
    ConstantsAreRead();
  }

  lemma NotIsRead()
    ensures KeywordKind(OpText(Not)) == Some(WordNot)
  {
    assert Ascii("AND")[0] != OpText(Not)[0];
    assert Ascii("NOT") == OpText(Not);
  }

  lemma ConstantsAreRead()
    ensures KeywordKind(TRUE_TEXT) == Some(WordTrue) && KeywordKind(FALSE_TEXT) == Some(WordFalse)
    ensures KeywordKind(NULL_TEXT) == Some(WordNull)
  {
    assert Ascii("NULL") == NULL_TEXT;
    assert Ascii("NULL")[0] != TRUE_TEXT[0];
    assert Ascii("TRUE") == TRUE_TEXT;
    assert Ascii("FALSE") == FALSE_TEXT;
  }

  /** The text neither begins nor ends with white space. */
  predicate NotTrimmed(s: Key) { s != [] && !IsTrimmed(s[0]) && !IsTrimmed(s[|s| - 1]) }

  /** Printed text neither begins nor ends with white space. */
  lemma PrintIsTrimmed(words: Words, format: Format, e: Expr)
    requires PrintsDecimals(format) && (e.Ident? ==> (e.table == [] || IsName(words, e.table)) && IsName(words, e.name))
    requires !e.FloatLit? && !e.Between? && !e.Like? && !e.IsNull? && !e.MatchAgainst?
    ensures NotTrimmed(Print(format, e))
  {
    match e
    case IntLit(n) => DecimalIsTrimmed(format, n);
    case Ident(table, name) =>
      assert IsWordByte(name[0]) && IsWordByte(name[|name| - 1]);
    case Binary(op, left, right) => BinaryIsTrimmed(Print(format, left), OpText(op), Print(format, right));
    case Unary(op, operand) => UnaryIsTrimmed(OpText(op), Print(format, operand));
    case StringLit(v) => QuotedIsTrimmed(v);
    case _ =>
  }

  lemma DecimalIsTrimmed(format: Format, n: int)
    requires PrintsDecimals(format)
    ensures NotTrimmed(format.decimal(n))
  {
    assert format.decimal(n) == Decimal(n);
    var digits := Digits(if n < 0 then -n else n);
    assert IsDigit(digits[0]) && IsDigit(digits[|digits| - 1]);
  }

  lemma BinaryIsTrimmed(a: Key, op: Key, b: Key)
    ensures NotTrimmed([OPEN] + a + [SPACE] + op + [SPACE] + b + [CLOSE])
  {
    var inner := a + [SPACE] + op + [SPACE] + b;
    assert [OPEN] + a + [SPACE] + op + [SPACE] + b + [CLOSE] == [OPEN] + inner + [CLOSE];
  }

  lemma UnaryIsTrimmed(op: Key, a: Key)
    ensures NotTrimmed([OPEN] + op + [SPACE] + a + [CLOSE])
  {
    var inner := op + [SPACE] + a;
    assert [OPEN] + op + [SPACE] + a + [CLOSE] == [OPEN] + inner + [CLOSE];
  }

  lemma QuotedIsTrimmed(v: Key)
    ensures NotTrimmed([QUOTE] + v + [QUOTE])
  {
  }

  lemma TokensOfPrint(format: Format, e: Expr)
    requires Printable(KeywordKind, e) && PrintsDecimals(format)
    ensures Lex(KeywordKind, Print(format, e), 0) == Some(Toks(format, e) + [Token(EndOfInput, [])])
  {
    var s := Print(format, e);
    var lex: Lexed := (p: nat) => if p <= |s| then Lex(KeywordKind, s, p) else None;
    KeywordsRead();
    LexPrint(KeywordKind, lex, format, s, 0, e);
    assert lex(0) == Lex(KeywordKind, s, 0) && lex(|s|) == Lex(KeywordKind, s, |s|);
  }

  lemma ParseOfTokens(words: Words, pf: ParseFloat, format: Format, e: Expr)
    requires Printable(words, e) && PrintsDecimals(format)
    ensures var ts := Toks(format, e) + [Token(EndOfInput, [])]; ParseOr(pf, ts, 0) == Parsed(e, |ts| - 1)
  {
    var ts := Toks(format, e) + [Token(EndOfInput, [])];
    var primary: Primaries := (p: nat) => if p <= |ts| then ParsePrimary(pf, ts, p) else Failed;
    var spelling := Spelling(x => Toks(format, x), x => Printable(words, x));
    assert spelling.toks(e) == Toks(format, e) && spelling.printable(e);
    ReadsTokens(words, primary, pf, spelling, format, ts, 0, e);
    OperandAsNot(primary, pf, ts, 0, e, |ts| - 1);
    NotCloses(pf, ts, 0, e, |ts| - 1);
  }

  ghost predicate RoundTrips(pf: ParseFloat, format: Format, e: Expr) {
    var r := ParseExpr(KeywordKind, pf, Print(format, e));
    r.Parsed? && r.e == e
  }

  lemma PrintThenParse(pf: ParseFloat, format: Format, e: Expr)
    requires PrintsDecimals(format) && Printable(KeywordKind, e)
    ensures RoundTrips(pf, format, e)
  {
    PrintIsTrimmed(KeywordKind, format, e);
    TokensOfPrint(format, e);
    ParseOfTokens(KeywordKind, pf, format, e);
  }

  /** Different expressions are printed differently. */
  lemma PrintTellsApart(format: Format, a: Expr, b: Expr)
    requires PrintsDecimals(format) && Printable(KeywordKind, a) && Printable(KeywordKind, b)
    ensures Print(format, a) == Print(format, b) ==> a == b
  {
    var pf: ParseFloat := _ => None;
    PrintThenParse(pf, format, a);
    PrintThenParse(pf, format, b);
  }
}
