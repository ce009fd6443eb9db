/** The expression parser as it moves over its tokens (internal/query/sql/parser.go). */
module Parser {
  import opened Bytes
  import opened Ast
  import opened Lexer
  import opened Grammar

  // Aside is the answer where the program would go on into a construct outside this model.
  datatype Reply = Ok(e: Expr) | Error | Aside

  /** The reply and the position the grammar asks for. */
  ghost predicate Agrees(r: Reply, pos: nat, outcome: Outcome) {
    match outcome
    case Parsed(e, p) => r == Ok(e) && pos == p
    case Failed => r == Error
    case Outside => r == Aside
  }

  class ExprParser {
    const pf: ParseFloat
    const tokens: Tokens
    var pos: nat

    constructor (pf: ParseFloat, tokens: Tokens)
      ensures this.pf == pf && this.tokens == tokens && pos == 0
    {
      this.pf, this.tokens, pos := pf, tokens, 0;
    }

    function PeekAt(offset: nat): Kind
      reads this
    {
      Peek(tokens, pos + offset)
    }

    method Advance()
      modifies this
      ensures pos == old(pos) + 1
    {
      pos := pos + 1;
    }

    /** expect, whose error the callers here ignore. */
    method Skip(kind: Kind)
      requires kind != EndOfInput
      modifies this
      ensures pos == Expect(tokens, old(pos), kind)
    {
      if PeekAt(0) == kind {
        Advance();
      }
    }

    method ParseOrExpr() returns (r: Reply)
      requires pos <= |tokens|
      modifies this
      ensures Agrees(r, pos, ParseOr(pf, tokens, old(pos)))
      decreases |tokens| - pos, 9
    {
      r := ParseAndExpr();
      if !r.Ok? {
        return;
      }
      var left := r.e;
      while PeekAt(0) == WordOr
        invariant old(pos) < pos <= |tokens|
        invariant ParseOr(pf, tokens, old(pos)) == OrLoop(pf, tokens, left, pos)
        decreases |tokens| - pos
      {
        Advance();
        r := ParseAndExpr();
        if !r.Ok? {
          return;
        }
        left := Binary(Or, left, r.e);
      }
      r := Ok(left);
    }

    method ParseAndExpr() returns (r: Reply)
      requires pos <= |tokens|
      modifies this
      ensures Agrees(r, pos, ParseAnd(pf, tokens, old(pos)))
      decreases |tokens| - pos, 8
    {
      r := ParseNotExpr();
      if !r.Ok? {
        return;
      }
      var left := r.e;
      while PeekAt(0) == WordAnd
        invariant old(pos) < pos <= |tokens|
        invariant ParseAnd(pf, tokens, old(pos)) == AndLoop(pf, tokens, left, pos)
        decreases |tokens| - pos
      {
        Advance();
        r := ParseNotExpr();
        if !r.Ok? {
          return;
        }
        left := Binary(And, left, r.e);
      }
      r := Ok(left);
    }

    method ParseNotExpr() returns (r: Reply)
      requires pos <= |tokens|
      modifies this
      ensures Agrees(r, pos, ParseNot(pf, tokens, old(pos)))
      decreases |tokens| - pos, 7
    {
      if PeekAt(0) == WordNot {
        Advance();
        r := ParseComparisonExpr();
        if !r.Ok? {
          return;
        }
        return Ok(Unary(Not, r.e));
      }
      r := ParseComparisonExpr();
    }

    method ParseComparisonExpr() returns (r: Reply)
      requires pos <= |tokens|
      modifies this
      ensures Agrees(r, pos, ParseComparison(pf, tokens, old(pos)))
      decreases |tokens| - pos, 6
    {
      r := ParseAddSubExpr();
      if !r.Ok? {
        return;
      }
      r := ParseAfterOperand(r.e);
    }

    /** What ParseComparison does behind its first operand. */
    method ParseAfterOperand(left: Expr) returns (r: Reply)
      requires pos <= |tokens|
      modifies this
      ensures Agrees(r, pos, AfterOperand(pf, tokens, left, old(pos)))
      decreases |tokens| - pos, 5
    {
      var kind := PeekAt(0);
      if kind == WordIs {
        r := ParseIsNull(left);
        return;
      }
      var negated := kind == WordNot;
      if kind == WordIn || (negated && PeekAt(1) == WordIn) {
        return Aside;
      }
      if kind == WordBetween || (negated && PeekAt(1) == WordBetween) {
        r := ParseBetween(left, negated);
        return;
      }
      if kind == WordLike || (negated && PeekAt(1) == WordLike) {
        r := ParseLike(left, negated);
        return;
      }
      var op := ComparisonOp(kind);
      if op.Some? {
        Advance();
        r := ParseAddSubExpr();
        if !r.Ok? {
          return;
        }
        return Ok(Binary(op.value, left, r.e));
      }
      r := Ok(left);
    }

    method ParseIsNull(left: Expr) returns (r: Reply)
      requires pos <= |tokens| && PeekAt(0) == WordIs
      modifies this
      ensures Agrees(r, pos, AfterOperand(pf, tokens, left, old(pos)))
    {
      Advance();
      if PeekAt(0) == WordNot {
        Advance();
        Skip(WordNull);
        return Ok(IsNull(left, true));
      }
      Skip(WordNull);
      return Ok(IsNull(left, false));
    }

    method ParseBetween(left: Expr, negated: bool) returns (r: Reply)
      requires pos <= |tokens| && PeekAt(if negated then 1 else 0) == WordBetween && negated == (PeekAt(0) == WordNot)
      modifies this
      ensures Agrees(r, pos, AfterOperand(pf, tokens, left, old(pos)))
      decreases |tokens| - pos, 4
    {
      if negated {
        Advance();
      }
      Skip(WordBetween);
      r := ParseAddSubExpr();
      if !r.Ok? {
        return;
      }
      var low := r.e;
      Skip(WordAnd);
      r := ParseAddSubExpr();
      if !r.Ok? {
        return;
      }
      r := Ok(Between(left, low, r.e, negated));
    }

    method ParseLike(left: Expr, negated: bool) returns (r: Reply)
      requires pos <= |tokens| && PeekAt(if negated then 1 else 0) == WordLike && negated == (PeekAt(0) == WordNot)
      modifies this
      ensures Agrees(r, pos, AfterOperand(pf, tokens, left, old(pos)))
      decreases |tokens| - pos, 4
    {
      if negated {
        Advance();
      }
      Skip(WordLike);
      r := ParseAddSubExpr();
      if !r.Ok? {
        return;
      }
      r := Ok(Like(left, r.e, negated));
    }

    method ParseAddSubExpr() returns (r: Reply)
      requires pos <= |tokens|
      modifies this
      ensures Agrees(r, pos, ParseAddSub(pf, tokens, old(pos)))
      decreases |tokens| - pos, 4
    {
      r := ParseMulDivExpr();
      if !r.Ok? {
        return;
      }
      var left := r.e;
      while PeekAt(0) == PlusToken || PeekAt(0) == MinusToken
        invariant old(pos) < pos <= |tokens|
        invariant ParseAddSub(pf, tokens, old(pos)) == AddLoop(pf, tokens, left, pos)
        decreases |tokens| - pos
      {
        var op := AddOp(PeekAt(0)).value;
        Advance();
        r := ParseMulDivExpr();
        if !r.Ok? {
          return;
        }
        left := Binary(op, left, r.e);
      }
      r := Ok(left);
    }

    method ParseMulDivExpr() returns (r: Reply)
      requires pos <= |tokens|
      modifies this
      ensures Agrees(r, pos, ParseMulDiv(pf, tokens, old(pos)))
      decreases |tokens| - pos, 3
    {
      r := ParseUnaryExpr();
      if !r.Ok? {
        return;
      }
      var left := r.e;
      while PeekAt(0) == MultiplyToken || PeekAt(0) == DivideToken || PeekAt(0) == ModuloToken
        invariant old(pos) < pos <= |tokens|
        invariant ParseMulDiv(pf, tokens, old(pos)) == MulLoop(pf, tokens, left, pos)
        decreases |tokens| - pos
      {
        var op := MulOp(PeekAt(0)).value;
        Advance();
        r := ParseUnaryExpr();
        if !r.Ok? {
          return;
        }
        left := Binary(op, left, r.e);
      }
      r := Ok(left);
    }

    method ParseUnaryExpr() returns (r: Reply)
      requires pos <= |tokens|
      modifies this
      ensures Agrees(r, pos, ParseUnary(pf, tokens, old(pos)))
      decreases |tokens| - pos, 2
    {
      if PeekAt(0) == MinusToken {
        Advance();
        r := ParsePrimaryExpr();
        if !r.Ok? {
          return;
        }
        return Ok(Unary(Minus, r.e));
      }
      r := ParsePrimaryExpr();
    }

    method ParsePrimaryExpr() returns (r: Reply)
      requires pos <= |tokens|
      modifies this
      ensures Agrees(r, pos, ParsePrimary(pf, tokens, old(pos)))
      decreases |tokens| - pos, 1
    {
      var kind := PeekAt(0);
      match kind {
        case Identifier =>
          r := ParseIdentOrFunc();
        case LeftParen =>
          r := ParseParenthesised();
        case StringToken | IntegerToken | FloatToken | WordTrue | WordFalse | WordNull | MultiplyToken =>
          r := ParseLiteral();
        case WordMatch | WordAggregate =>
          r := Aside;
        case _ =>
          r := Error;
      }
    }

    method ParseLiteral() returns (r: Reply)
      requires pos < |tokens|
      requires tokens[pos].kind in {StringToken, IntegerToken, FloatToken, WordTrue, WordFalse, WordNull, MultiplyToken}
      modifies this
      ensures Agrees(r, pos, ParsePrimary(pf, tokens, old(pos)))
    {
      var token := tokens[pos];
      Advance();
      match token.kind {
        case StringToken => r := Ok(StringLit(token.literal));
        case IntegerToken =>
          var n := ParseInt(token.literal);
          r := if n.Some? then Ok(IntLit(n.value)) else Error;
        case FloatToken =>
          var f := pf(token.literal);
          r := if f.Some? then Ok(FloatLit(f.value)) else Error;
        case WordTrue => r := Ok(BoolLit(true));
        case WordFalse => r := Ok(BoolLit(false));
        case WordNull => r := Ok(NullLit);
        case _ => r := Ok(Star);
      }
    }

    method ParseIdentOrFunc() returns (r: Reply)
      requires pos < |tokens| && tokens[pos].kind == Identifier
      modifies this
      ensures Agrees(r, pos, ParsePrimary(pf, tokens, old(pos)))
    {
      var name := tokens[pos].literal;
      Advance();
      if PeekAt(0) == LeftParen {
        return Aside;
      }
      if PeekAt(0) == DotToken {
        Advance();
        if PeekAt(0) != Identifier {
          return Error;
        }
        var column := tokens[pos].literal;
        Advance();
        return Ok(Ident(name, column));
      }
      r := Ok(Ident([], name));
    }

    method ParseParenthesised() returns (r: Reply)
      requires pos < |tokens| && tokens[pos].kind == LeftParen
      modifies this
      ensures Agrees(r, pos, ParsePrimary(pf, tokens, old(pos)))
      decreases |tokens| - pos, 0
    {
      Advance();
      if PeekAt(0) == WordSelect {
        return Aside;
      }
      r := ParseOrExpr();
      if r.Ok? {
        Skip(RightParen);
      }
    }
  }

  /** ParseExpr: the lexer, then the parser; what the grammar says of the text. */
  method ParseText(words: Words, pf: ParseFloat, input: Key) returns (r: Reply, ghost pos: nat)
    ensures Agrees(r, pos, ParseExpr(words, pf, input))
  {
    var scanner := new Scanner(words, input);
    var tokens := scanner.Tokenize();
    pos := 0;
    if tokens.None? {
      return Error, 0;
    }
    var parser := new ExprParser(pf, tokens.value);
    r := parser.ParseOrExpr();
    pos := parser.pos;
  }
}
