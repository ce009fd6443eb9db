/** What the parser can return at all. */
module PrintLimits {
  import opened Bytes
  import opened Engine
  import opened Ast
  import opened Lexer
  import opened Keywords
  import opened Grammar
  import opened PrintLex

  /** What holds of every expression read from text. */
  predicate Sound(words: Words, e: Expr) {
    match e
    case Ident(table, name) => (table == [] || IsName(words, table)) && IsName(words, name)
    case IntLit(n) => IsInt64(n)
    case Binary(op, left, right) => IsBinary(op) && Sound(words, left) && Sound(words, right)
    case Unary(op, operand) => IsUnary(op) && Sound(words, operand)
    case Between(operand, low, high, _) => Sound(words, operand) && Sound(words, low) && Sound(words, high)
    case Like(operand, pattern, _) => Sound(words, operand) && Sound(words, pattern)
    case IsNull(operand, _) => Sound(words, operand)
    case _ => true
  }

  predicate SoundOutcome(words: Words, r: Outcome) { r.Parsed? ==> Sound(words, r.e) }

  // ---- the tokens ----

  predicate SoundToken(words: Words, token: Token) { token.kind == Identifier ==> IsName(words, token.literal) }

  predicate SoundTokens(words: Words, ts: Tokens) {
    forall t | t in ts :: SoundToken(words, t)
  }

  lemma {:induction false} WordBytes(s: Key, from: nat, i: nat)
    requires from <= |s| && from <= i < WordEnd(s, from)
    ensures IsWordByte(s[i])
    decreases i - from
  {
    if from < i {
      WordBytes(s, from + 1, i);
    }
  }

  lemma NextIsSound(words: Words, s: Key, from: nat)
    requires from < |s| && forall w :: words(w) != Some(Identifier)
    ensures var step := NextStep(words, s, from); step.Step? ==> SoundToken(words, step.token)
  {
    var end := WordEnd(s, from);
    var w := s[from..end];
    forall i | 0 <= i < |w| ensures IsWordByte(w[i]) {
      WordBytes(s, from, from + i);
    }
    assert w != [] ==> w[0] == s[from];
  }

  lemma {:induction false} LexIsSound(words: Words, s: Key, from: nat)
    requires from <= |s| && forall w :: words(w) != Some(Identifier)
    ensures var lexed := Lex(words, s, from); lexed.Some? ==> SoundTokens(words, lexed.value)
    decreases |s| - from
  {
    var start := SpaceEnd(s, from);
    if start < |s| {
      NextIsSound(words, s, start);
      var step := NextStep(words, s, start);
      if step.Step? {
        LexIsSound(words, s, step.end);
      }
    }
  }

  // ---- the expressions, level by level ----

  lemma SoundOr(words: Words, pf: ParseFloat, ts: Tokens, pos: nat)
    requires pos <= |ts| && SoundTokens(words, ts)
    ensures SoundOutcome(words, ParseOr(pf, ts, pos))
    decreases |ts| - pos, 9
  {
    SoundAnd(words, pf, ts, pos);
    var left := ParseAnd(pf, ts, pos);
    if left.Parsed? {
      SoundOrLoop(words, pf, ts, left.e, left.pos);
    }
  }

  lemma SoundOrLoop(words: Words, pf: ParseFloat, ts: Tokens, left: Expr, pos: nat)
    requires pos <= |ts| && SoundTokens(words, ts) && Sound(words, left)
    ensures SoundOutcome(words, OrLoop(pf, ts, left, pos))
    decreases |ts| - pos, 0
  {
    if Peek(ts, pos) == WordOr {
      SoundAnd(words, pf, ts, pos + 1);
      var right := ParseAnd(pf, ts, pos + 1);
      if right.Parsed? {
        SoundOrLoop(words, pf, ts, Binary(Or, left, right.e), right.pos);
      }
    }
  }

  lemma SoundAnd(words: Words, pf: ParseFloat, ts: Tokens, pos: nat)
    requires pos <= |ts| && SoundTokens(words, ts)
    ensures SoundOutcome(words, ParseAnd(pf, ts, pos))
    decreases |ts| - pos, 8
  {
    SoundNot(words, pf, ts, pos);
    var left := ParseNot(pf, ts, pos);
    if left.Parsed? {
      SoundAndLoop(words, pf, ts, left.e, left.pos);
    }
  }

  lemma SoundAndLoop(words: Words, pf: ParseFloat, ts: Tokens, left: Expr, pos: nat)
    requires pos <= |ts| && SoundTokens(words, ts) && Sound(words, left)
    ensures SoundOutcome(words, AndLoop(pf, ts, left, pos))
    decreases |ts| - pos, 0
  {
    if Peek(ts, pos) == WordAnd {
      SoundNot(words, pf, ts, pos + 1);
      var right := ParseNot(pf, ts, pos + 1);
      if right.Parsed? {
        SoundAndLoop(words, pf, ts, Binary(And, left, right.e), right.pos);
      }
    }
  }

  lemma SoundNot(words: Words, pf: ParseFloat, ts: Tokens, pos: nat)
    requires pos <= |ts| && SoundTokens(words, ts)
    ensures SoundOutcome(words, ParseNot(pf, ts, pos))
    decreases |ts| - pos, 7
  {
    SoundComparison(words, pf, ts, if Peek(ts, pos) == WordNot then pos + 1 else pos);
  }

  lemma SoundComparison(words: Words, pf: ParseFloat, ts: Tokens, pos: nat)
    requires pos <= |ts| && SoundTokens(words, ts)
    ensures SoundOutcome(words, ParseComparison(pf, ts, pos))
    decreases |ts| - pos, 6
  {
    SoundAddSub(words, pf, ts, pos);
    var left := ParseAddSub(pf, ts, pos);
    if left.Parsed? {
      SoundAfter(words, pf, ts, left.e, left.pos);
    }
  }

  lemma SoundAfter(words: Words, pf: ParseFloat, ts: Tokens, left: Expr, pos: nat)
    requires pos <= |ts| && SoundTokens(words, ts) && Sound(words, left)
    ensures SoundOutcome(words, AfterOperand(pf, ts, left, pos))
    decreases |ts| - pos, 5
  {
    var negated := Peek(ts, pos) == WordNot;
    if Peek(ts, pos) == WordBetween || (negated && Peek(ts, pos + 1) == WordBetween) {
      SoundBetween(words, pf, ts, left, pos);
    } else if Peek(ts, pos) == WordLike || (negated && Peek(ts, pos + 1) == WordLike) {
      SoundLike(words, pf, ts, left, pos);
    } else {
      SoundCompared(words, pf, ts, left, pos);
    }
  }

  lemma SoundCompared(words: Words, pf: ParseFloat, ts: Tokens, left: Expr, pos: nat)
    requires pos <= |ts| && SoundTokens(words, ts) && Sound(words, left)
    requires var negated := Peek(ts, pos) == WordNot;
             var kind := if negated then Peek(ts, pos + 1) else Peek(ts, pos); kind != WordBetween && kind != WordLike
    ensures SoundOutcome(words, AfterOperand(pf, ts, left, pos))
    decreases |ts| - pos, 4
  {
    if ComparisonOp(Peek(ts, pos)).Some? {
      SoundAddSub(words, pf, ts, pos + 1);
    }
  }

  lemma SoundLike(words: Words, pf: ParseFloat, ts: Tokens, left: Expr, pos: nat)
    requires pos <= |ts| && SoundTokens(words, ts) && Sound(words, left)
    requires Peek(ts, pos) == WordLike || (Peek(ts, pos) == WordNot && Peek(ts, pos + 1) == WordLike)
    ensures SoundOutcome(words, AfterOperand(pf, ts, left, pos))
    decreases |ts| - pos, 4
  {
    SoundAddSub(words, pf, ts, if Peek(ts, pos) == WordNot then pos + 2 else pos + 1);
  }

  lemma SoundBetween(words: Words, pf: ParseFloat, ts: Tokens, left: Expr, pos: nat)
    requires pos <= |ts| && SoundTokens(words, ts) && Sound(words, left)
    requires Peek(ts, pos) == WordBetween || (Peek(ts, pos) == WordNot && Peek(ts, pos + 1) == WordBetween)
    ensures SoundOutcome(words, AfterOperand(pf, ts, left, pos))
    decreases |ts| - pos, 4
  {
    var from := if Peek(ts, pos) == WordNot then pos + 2 else pos + 1;
    SoundAddSub(words, pf, ts, from);
    var low := ParseAddSub(pf, ts, from);
    if low.Parsed? {
      SoundAddSub(words, pf, ts, Expect(ts, low.pos, WordAnd));
    }
  }

  lemma SoundAddSub(words: Words, pf: ParseFloat, ts: Tokens, pos: nat)
    requires pos <= |ts| && SoundTokens(words, ts)
    ensures SoundOutcome(words, ParseAddSub(pf, ts, pos))
    decreases |ts| - pos, 4
  {
    SoundMulDiv(words, pf, ts, pos);
    var left := ParseMulDiv(pf, ts, pos);
    if left.Parsed? {
      SoundAddLoop(words, pf, ts, left.e, left.pos);
    }
  }

  lemma SoundAddLoop(words: Words, pf: ParseFloat, ts: Tokens, left: Expr, pos: nat)
    requires pos <= |ts| && SoundTokens(words, ts) && Sound(words, left)
    ensures SoundOutcome(words, AddLoop(pf, ts, left, pos))
    decreases |ts| - pos, 0
  {
    var op := AddOp(Peek(ts, pos));
    if op.Some? {
      SoundMulDiv(words, pf, ts, pos + 1);
      var right := ParseMulDiv(pf, ts, pos + 1);
      if right.Parsed? {
        SoundAddLoop(words, pf, ts, Binary(op.value, left, right.e), right.pos);
      }
    }
  }

  lemma SoundMulDiv(words: Words, pf: ParseFloat, ts: Tokens, pos: nat)
    requires pos <= |ts| && SoundTokens(words, ts)
    ensures SoundOutcome(words, ParseMulDiv(pf, ts, pos))
    decreases |ts| - pos, 3
  {
    SoundUnary(words, pf, ts, pos);
    var left := ParseUnary(pf, ts, pos);
    if left.Parsed? {
      SoundMulLoop(words, pf, ts, left.e, left.pos);
    }
  }

  lemma SoundMulLoop(words: Words, pf: ParseFloat, ts: Tokens, left: Expr, pos: nat)
    requires pos <= |ts| && SoundTokens(words, ts) && Sound(words, left)
    ensures SoundOutcome(words, MulLoop(pf, ts, left, pos))
    decreases |ts| - pos, 0
  {
    var op := MulOp(Peek(ts, pos));
    if op.Some? {
      SoundUnary(words, pf, ts, pos + 1);
      var right := ParseUnary(pf, ts, pos + 1);
      if right.Parsed? {
        SoundMulLoop(words, pf, ts, Binary(op.value, left, right.e), right.pos);
      }
    }
  }

  lemma SoundUnary(words: Words, pf: ParseFloat, ts: Tokens, pos: nat)
    requires pos <= |ts| && SoundTokens(words, ts)
    ensures SoundOutcome(words, ParseUnary(pf, ts, pos))
    decreases |ts| - pos, 2
  {
    SoundPrimary(words, pf, ts, if Peek(ts, pos) == MinusToken then pos + 1 else pos);
  }

  lemma SoundPrimary(words: Words, pf: ParseFloat, ts: Tokens, pos: nat)
    requires pos <= |ts| && SoundTokens(words, ts)
    ensures SoundOutcome(words, ParsePrimary(pf, ts, pos))
    decreases |ts| - pos, 1
  {
    match Peek(ts, pos)
    case Identifier =>
      assert SoundToken(words, ts[pos]);
      assert pos + 2 < |ts| ==> SoundToken(words, ts[pos + 2]);
    case LeftParen => SoundOr(words, pf, ts, pos + 1);
    case _ =>
  }

  /** Whatever the text: names are words that are no keywords, integers fit int64, operators are in their place. */
  lemma ParsedIsSound(pf: ParseFloat, text: Key)
    ensures SoundOutcome(KeywordKind, ParseExpr(KeywordKind, pf, text))
  {
    var s := TrimSpace(text);
    LexIsSound(KeywordKind, s, 0);
    var lexed := Lex(KeywordKind, s, 0);
    if lexed.Some? {
      SoundOr(KeywordKind, pf, lexed.value, 0);
    }
  }
}
