/**
 Operator precedence and associativity: text with no more parentheses than the table of ranks asks for
 is read back as the expression it was printed from.
 */
module PrintBrief {
  import opened Bytes
  import opened Floats
  import opened Engine
  import opened Ast
  import opened Lexer
  import opened Keywords
  import opened Grammar
  import opened Printer
  import opened PrintLex
  import opened PrintParse
  import opened BriefLex

  // ---- what each level of the grammar makes of the tokens ----

  /** What may stand behind an expression that is read at a level. */
  predicate MayFollow(level: Level, kind: Kind) {
    && Follows(kind)
    && (level <= 5 ==> MulOp(kind) == None)
    && (level <= 4 ==> EndsComparison(kind))
    && (level <= 1 ==> kind != WordAnd)
  }

  lemma FollowsHigher(level: Level, higher: Level, kind: Kind)
    requires MayFollow(level, kind) && level <= higher
    ensures MayFollow(higher, kind)
  {
  }

  lemma OperatorFollows(op: Operator)
    requires IsBinary(op)
    ensures MayFollow(LeftNeed(op), OpToken(op).kind)
    ensures BinaryRank(op) == 4 ==> ComparisonOp(OpToken(op).kind) == Some(op)
  {
  }

  /** The function of a level finds the expression, or its loop goes on behind it. */
  ghost predicate Read(pf: ParseFloat, ts: Tokens, level: Level, pos: nat, e: Expr, end: nat) {
    && pos < end <= |ts| && Peek(ts, pos) != WordSelect && (level >= 4 ==> Peek(ts, pos) != WordNot)
    && match level
       case 8 => Peek(ts, pos) != MinusToken && ParsePrimary(pf, ts, pos) == Parsed(e, end)
       case 7 => ParseUnary(pf, ts, pos) == Parsed(e, end)
       case 6 => ParseMulDiv(pf, ts, pos) == MulLoop(pf, ts, e, end)
       case 5 => ParseAddSub(pf, ts, pos) == AddLoop(pf, ts, e, end)
       case 4 => ParseComparison(pf, ts, pos) == Parsed(e, end)
       case 3 => ParseNot(pf, ts, pos) == Parsed(e, end)
       case 2 => ParseAnd(pf, ts, pos) == AndLoop(pf, ts, e, end)
       case _ => ParseOr(pf, ts, pos) == OrLoop(pf, ts, e, end)
  }

  /** One level up. */
  lemma Raised(pf: ParseFloat, ts: Tokens, level: Level, pos: nat, e: Expr, end: nat)
    requires level < 8 && Read(pf, ts, level + 1, pos, e, end) && MayFollow(level, Peek(ts, end))
    ensures Read(pf, ts, level, pos, e, end)
  {
    match level
    case 5 => MulEnds(pf, ts, e, end);
    case 4 =>
      AddEnds(pf, ts, e, end);
      AsComparison(pf, ts, pos, e, end);
    case 1 => AndEnds(pf, ts, e, end);
    case _ =>
  }

  lemma MulEnds(pf: ParseFloat, ts: Tokens, e: Expr, end: nat)
    requires end <= |ts| && MulOp(Peek(ts, end)) == None
    ensures MulLoop(pf, ts, e, end) == Parsed(e, end)
  {
  }

  lemma AddEnds(pf: ParseFloat, ts: Tokens, e: Expr, end: nat)
    requires end <= |ts| && AddOp(Peek(ts, end)) == None
    ensures AddLoop(pf, ts, e, end) == Parsed(e, end)
  {
  }

  lemma AndEnds(pf: ParseFloat, ts: Tokens, e: Expr, end: nat)
    requires end <= |ts| && Peek(ts, end) != WordAnd
    ensures AndLoop(pf, ts, e, end) == Parsed(e, end)
  {
  }

  lemma OrEnds(pf: ParseFloat, ts: Tokens, e: Expr, end: nat)
    requires end <= |ts| && Peek(ts, end) != WordOr
    ensures OrLoop(pf, ts, e, end) == Parsed(e, end)
  {
  }

  /** An operator behind a left operand, and a right operand that is complete. */
  lemma Combined(pf: ParseFloat, ts: Tokens, op: Operator, pos: nat, left: Expr, mid: nat, right: Expr, end: nat)
    requires IsBinary(op) && Read(pf, ts, LeftNeed(op), pos, left, mid) && Peek(ts, mid) == OpToken(op).kind
    requires Read(pf, ts, BinaryRank(op) + 1, mid + 1, right, end) && MayFollow(BinaryRank(op), Peek(ts, end))
    ensures Read(pf, ts, BinaryRank(op), pos, Binary(op, left, right), end)
  {
    match BinaryRank(op)
    case 6 => MulGoesOn(pf, ts, op, left, mid, right, end);
    case 5 => SumCombined(pf, ts, op, pos, left, mid, right, end);
    case 4 => ComparisonCombined(pf, ts, op, pos, left, mid, right, end);
    case 2 => AndGoesOn(pf, ts, left, mid, right, end);
    case 1 => OrCombined(pf, ts, pos, left, mid, right, end);
  }

  lemma SumCombined(pf: ParseFloat, ts: Tokens, op: Operator, pos: nat, left: Expr, mid: nat, right: Expr, end: nat)
    requires BinaryRank(op) == 5 && Read(pf, ts, 5, pos, left, mid) && Peek(ts, mid) == OpToken(op).kind
    requires Read(pf, ts, 6, mid + 1, right, end) && MayFollow(5, Peek(ts, end))
    ensures Read(pf, ts, 5, pos, Binary(op, left, right), end)
  {
    MulEnds(pf, ts, right, end);
    AddGoesOn(pf, ts, op, left, mid, right, end);
  }

  lemma ComparisonCombined(pf: ParseFloat, ts: Tokens, op: Operator, pos: nat, left: Expr, mid: nat, right: Expr, end: nat)
    requires BinaryRank(op) == 4 && IsBinary(op) && Read(pf, ts, 5, pos, left, mid) && Peek(ts, mid) == OpToken(op).kind
    requires Read(pf, ts, 5, mid + 1, right, end) && MayFollow(4, Peek(ts, end))
    ensures Read(pf, ts, 4, pos, Binary(op, left, right), end)
  {
    AddEnds(pf, ts, left, mid);
    AddEnds(pf, ts, right, end);
    JoinCompared(pf, ts, pos, op, left, mid, right, end);
  }

  lemma OrCombined(pf: ParseFloat, ts: Tokens, pos: nat, left: Expr, mid: nat, right: Expr, end: nat)
    requires Read(pf, ts, 1, pos, left, mid) && Peek(ts, mid) == WordOr
    requires Read(pf, ts, 2, mid + 1, right, end) && MayFollow(1, Peek(ts, end))
    ensures Read(pf, ts, 1, pos, Binary(Or, left, right), end)
  {
    AndEnds(pf, ts, right, end);
    OrGoesOn(pf, ts, left, mid, right, end);
  }

  lemma MulGoesOn(pf: ParseFloat, ts: Tokens, op: Operator, left: Expr, mid: nat, right: Expr, end: nat)
    requires mid < end <= |ts| && MulOp(Peek(ts, mid)) == Some(op) && ParseUnary(pf, ts, mid + 1) == Parsed(right, end)
    ensures MulLoop(pf, ts, left, mid) == MulLoop(pf, ts, Binary(op, left, right), end)
  {
  }

  lemma AddGoesOn(pf: ParseFloat, ts: Tokens, op: Operator, left: Expr, mid: nat, right: Expr, end: nat)
    requires mid < end <= |ts| && AddOp(Peek(ts, mid)) == Some(op) && ParseMulDiv(pf, ts, mid + 1) == Parsed(right, end)
    ensures AddLoop(pf, ts, left, mid) == AddLoop(pf, ts, Binary(op, left, right), end)
  {
  }

  lemma AndGoesOn(pf: ParseFloat, ts: Tokens, left: Expr, mid: nat, right: Expr, end: nat)
    requires mid < end <= |ts| && Peek(ts, mid) == WordAnd && ParseNot(pf, ts, mid + 1) == Parsed(right, end)
    ensures AndLoop(pf, ts, left, mid) == AndLoop(pf, ts, Binary(And, left, right), end)
  {
  }

  lemma OrGoesOn(pf: ParseFloat, ts: Tokens, left: Expr, mid: nat, right: Expr, end: nat)
    requires mid < end <= |ts| && Peek(ts, mid) == WordOr && ParseAnd(pf, ts, mid + 1) == Parsed(right, end)
    ensures OrLoop(pf, ts, left, mid) == OrLoop(pf, ts, Binary(Or, left, right), end)
  {
  }

  /** An operator in front of an operand. */
  lemma Negated(pf: ParseFloat, ts: Tokens, op: Operator, pos: nat, operand: Expr, end: nat)
    requires IsUnary(op) && Peek(ts, pos) == OpToken(op).kind && Read(pf, ts, UnaryRank(op) + 1, pos + 1, operand, end)
    ensures Read(pf, ts, UnaryRank(op), pos, Unary(op, operand), end)
  {
  }

  /** Parentheses make an atom of any expression. */
  lemma Parenthesised(pf: ParseFloat, ts: Tokens, pos: nat, e: Expr, end: nat)
    requires Peek(ts, pos) == LeftParen && Read(pf, ts, 1, pos + 1, e, end) && Peek(ts, end) == RightParen
    ensures Read(pf, ts, ATOM, pos, e, end + 1)
  {
    OrEnds(pf, ts, e, end);
  }

  /** A word of a form, with or without NOT in front of it, and the position behind it. */
  predicate HoldsWord(ts: Tokens, pos: nat, negated: bool, kind: Kind, from: nat) {
    if negated then Peek(ts, pos) == WordNot && Peek(ts, pos + 1) == kind && from == pos + 2 else Peek(ts, pos) == kind && from == pos + 1
  }

  lemma BetweenRead(pf: ParseFloat, ts: Tokens, pos: nat, x: Expr, mid: nat, negated: bool, from: nat, low: Expr, q: nat, high: Expr, end: nat)
    requires Read(pf, ts, 5, pos, x, mid) && HoldsWord(ts, mid, negated, WordBetween, from)
    requires Read(pf, ts, 5, from, low, q) && Peek(ts, q) == WordAnd && Read(pf, ts, 5, q + 1, high, end) && MayFollow(4, Peek(ts, end))
    ensures Read(pf, ts, 4, pos, Between(x, low, high, negated), end)
  {
    AddEnds(pf, ts, x, mid);
    AddEnds(pf, ts, low, q);
    AddEnds(pf, ts, high, end);
    BoundsFollow(pf, ts, x, mid, negated, from, low, q, high, end);
  }

  lemma BoundsFollow(pf: ParseFloat, ts: Tokens, x: Expr, mid: nat, negated: bool, from: nat, low: Expr, q: nat, high: Expr, end: nat)
    requires HoldsWord(ts, mid, negated, WordBetween, from) && from <= |ts| && q < end <= |ts| && Peek(ts, q) == WordAnd
    requires ParseAddSub(pf, ts, from) == Parsed(low, q) && ParseAddSub(pf, ts, q + 1) == Parsed(high, end)
    ensures AfterOperand(pf, ts, x, mid) == Parsed(Between(x, low, high, negated), end)
  {
    assert Expect(ts, q, WordAnd) == q + 1;
  }

  lemma LikeRead(pf: ParseFloat, ts: Tokens, pos: nat, x: Expr, mid: nat, negated: bool, from: nat, pattern: Expr, end: nat)
    requires Read(pf, ts, 5, pos, x, mid) && HoldsWord(ts, mid, negated, WordLike, from)
    requires Read(pf, ts, 5, from, pattern, end) && MayFollow(4, Peek(ts, end))
    ensures Read(pf, ts, 4, pos, Like(x, pattern, negated), end)
  {
    AddEnds(pf, ts, x, mid);
    AddEnds(pf, ts, pattern, end);
    PatternFollows(pf, ts, x, mid, negated, from, pattern, end);
  }

  lemma PatternFollows(pf: ParseFloat, ts: Tokens, x: Expr, mid: nat, negated: bool, from: nat, pattern: Expr, end: nat)
    requires HoldsWord(ts, mid, negated, WordLike, from) && from <= |ts| && end <= |ts| && ParseAddSub(pf, ts, from) == Parsed(pattern, end)
    ensures AfterOperand(pf, ts, x, mid) == Parsed(Like(x, pattern, negated), end)
  {
  }

  lemma IsNullRead(pf: ParseFloat, ts: Tokens, pos: nat, x: Expr, mid: nat, negated: bool, end: nat)
    requires Read(pf, ts, 5, pos, x, mid) && Peek(ts, mid) == WordIs && HoldsWord(ts, mid + 1, negated, WordNull, end)
    ensures Read(pf, ts, 4, pos, IsNull(x, negated), end)
  {
    AddEnds(pf, ts, x, mid);
    assert AfterOperand(pf, ts, x, mid) == Parsed(IsNull(x, negated), end);
  }

  // ---- the whole expression ----

  // Read as a value.
  type Reader = (Level, nat, Expr, nat) -> bool

  ghost predicate IsReader(read: Reader, pf: ParseFloat, ts: Tokens) {
    forall level: Level, pos: nat, e: Expr, end: nat {:trigger Read(pf, ts, level, pos, e, end)} ::
      read(level, pos, e, end) == Read(pf, ts, level, pos, e, end)
  }

  lemma RaisedOnce(read: Reader, pf: ParseFloat, ts: Tokens, level: Level, pos: nat, e: Expr, end: nat)
    requires IsReader(read, pf, ts) && level < 8 && read(level + 1, pos, e, end) && MayFollow(level, Peek(ts, end))
    ensures read(level, pos, e, end)
  {
    assert Read(pf, ts, level + 1, pos, e, end);
    Raised(pf, ts, level, pos, e, end);
    assert read(level, pos, e, end) == Read(pf, ts, level, pos, e, end);
  }

  lemma {:induction false} RaisedTo(read: Reader, pf: ParseFloat, ts: Tokens, from: Level, to: Level, pos: nat, e: Expr, end: nat)
    requires IsReader(read, pf, ts) && to <= from && read(from, pos, e, end) && MayFollow(to, Peek(ts, end))
    ensures read(to, pos, e, end)
    decreases from
  {
    if to < from {
      FollowsHigher(to, from - 1, Peek(ts, end));
      RaisedOnce(read, pf, ts, from - 1, pos, e, end);
      RaisedTo(read, pf, ts, from - 1, to, pos, e, end);
    }
  }

  /** The tokens of an expression, where they end, and behind them what may follow. */
  predicate Stands(ts: Tokens, pos: nat, toks: Tokens, need: Level, end: nat) {
    var all := At(ts, pos, toks) && end == pos + |toks| && MayFollow(need, Peek(ts, end));
    all
  }

  lemma {:induction false} ReadsBrief(words: Words, read: Reader, pf: ParseFloat, format: Format, ts: Tokens, view: View, pos: nat, e: Expr, end: nat)
    requires IsReader(read, pf, ts) && Shows(view, words, pf, format) && view.spellable(e) && Stands(ts, pos, view.toks(e), Rank(e), end)
    ensures read(Rank(e), pos, e, end)
    decreases e, 2
  {
    match e
    case Binary(op, left, right) => ReadsBinaryText(words, read, pf, format, ts, view, pos, e, op, left, right, end);
    case Unary(op, operand) => ReadsUnaryText(words, read, pf, format, ts, view, pos, e, op, operand, end);
    case Between(x, low, high, negated) => ReadsBetween(words, read, pf, format, ts, view, pos, e, x, low, high, negated, end);
    case Like(x, pattern, negated) => ReadsLike(words, read, pf, format, ts, view, pos, e, x, pattern, negated, end);
    case IsNull(x, negated) => ReadsIsNull(words, read, pf, format, ts, view, pos, e, x, negated, end);
    case _ => ReadsLeafText(words, read, pf, format, ts, view, pos, e, end);
  }

  lemma ReadsBinaryText(words: Words, read: Reader, pf: ParseFloat, format: Format, ts: Tokens, view: View, pos: nat,
                        e: Expr, op: Operator, left: Expr, right: Expr, end: nat)
    requires IsReader(read, pf, ts) && Shows(view, words, pf, format) && view.spellable(e) && e == Binary(op, left, right)
    requires Stands(ts, pos, view.toks(e), BinaryRank(op), end)
    ensures read(BinaryRank(op), pos, e, end)
    decreases e, 1
  {
    ViewBinary(view, words, pf, format, op, left, right);
    var mid := PairStands(ts, pos, op, Found(view, LeftNeed(op), left), Found(view, BinaryRank(op) + 1, right), end);
    ReadsOperandText(words, read, pf, format, ts, view, pos, LeftNeed(op), left, mid, e);
    ReadsOperandText(words, read, pf, format, ts, view, mid + 1, BinaryRank(op) + 1, right, end, e);
    ReadsCombined(read, pf, ts, op, pos, left, mid, right, end);
  }

  lemma PairStands(ts: Tokens, pos: nat, op: Operator, l: Tokens, r: Tokens, end: nat) returns (mid: nat)
    requires IsBinary(op) && Stands(ts, pos, l + [OpToken(op)] + r, BinaryRank(op), end)
    ensures Stands(ts, pos, l, LeftNeed(op), mid) && Peek(ts, mid) == OpToken(op).kind && Stands(ts, mid + 1, r, BinaryRank(op) + 1, end)
  {
    mid := pos + |l|;
    PairTokens(ts, pos, l, [OpToken(op)], r);
    AtItem(ts, mid, [OpToken(op)], 0);
    OperatorFollows(op);
    FollowsHigher(BinaryRank(op), BinaryRank(op) + 1, Peek(ts, end));
  }

  lemma ReadsUnaryText(words: Words, read: Reader, pf: ParseFloat, format: Format, ts: Tokens, view: View, pos: nat,
                       e: Expr, op: Operator, operand: Expr, end: nat)
    requires IsReader(read, pf, ts) && Shows(view, words, pf, format) && view.spellable(e) && e == Unary(op, operand)
    requires Stands(ts, pos, view.toks(e), UnaryRank(op), end)
    ensures read(UnaryRank(op), pos, e, end)
    decreases e, 1
  {
    ViewUnary(view, words, pf, format, op, operand);
    SingleStands(ts, pos, op, Found(view, UnaryRank(op) + 1, operand), end);
    ReadsOperandText(words, read, pf, format, ts, view, pos + 1, UnaryRank(op) + 1, operand, end, e);
    ReadsNegated(read, pf, ts, op, pos, operand, end);
  }

  lemma SingleStands(ts: Tokens, pos: nat, op: Operator, r: Tokens, end: nat)
    requires Stands(ts, pos, [OpToken(op)] + r, UnaryRank(op), end)
    ensures Peek(ts, pos) == OpToken(op).kind && Stands(ts, pos + 1, r, UnaryRank(op) + 1, end)
  {
    AtJoin(ts, pos, [OpToken(op)], r);
    AtItem(ts, pos, [OpToken(op)], 0);
    FollowsHigher(UnaryRank(op), UnaryRank(op) + 1, Peek(ts, end));
  }

  lemma ReadsBetween(words: Words, read: Reader, pf: ParseFloat, format: Format, ts: Tokens, view: View, pos: nat,
                     e: Expr, x: Expr, low: Expr, high: Expr, negated: bool, end: nat)
    requires IsReader(read, pf, ts) && Shows(view, words, pf, format) && view.spellable(e) && e == Between(x, low, high, negated)
    requires Stands(ts, pos, view.toks(e), 4, end)
    ensures read(4, pos, e, end)
    decreases e, 1
  {
    ViewBetween(view, words, pf, format, x, low, high, negated);
    var mid, from, q := BoundsStand(ts, pos, Found(view, 5, x), negated, Found(view, 5, low), Found(view, 5, high), end);
    ReadsOperandText(words, read, pf, format, ts, view, pos, 5, x, mid, e);
    ReadsOperandText(words, read, pf, format, ts, view, from, 5, low, q, e);
    ReadsOperandText(words, read, pf, format, ts, view, q + 1, 5, high, end, e);
    ReadsFormBetween(read, pf, ts, pos, x, mid, negated, from, low, q, high, end);
  }

  lemma BoundsStand(ts: Tokens, pos: nat, l: Tokens, negated: bool, m: Tokens, r: Tokens, end: nat) returns (mid: nat, from: nat, q: nat)
    requires Stands(ts, pos, l + BetweenGlue(negated).toks + m + [OpToken(And)] + r, 4, end)
    ensures Stands(ts, pos, l, 5, mid) && HoldsWord(ts, mid, negated, WordBetween, from) && Stands(ts, from, m, 5, q)
    ensures Peek(ts, q) == WordAnd && Stands(ts, q + 1, r, 5, end) && MayFollow(4, Peek(ts, end))
  {
    var front := l + BetweenGlue(negated).toks + m;
    q := pos + |front|;
    PairTokens(ts, pos, front, [OpToken(And)], r);
    AtItem(ts, q, [OpToken(And)], 0);
    mid, from := WordStands(ts, pos, l, negated, BETWEEN_TEXT, WordBetween, m, q);
  }

  /** Two operands and a word of a form between them. */
  lemma WordStands(ts: Tokens, pos: nat, l: Tokens, negated: bool, w: Key, kind: Kind, r: Tokens, end: nat) returns (mid: nat, from: nat)
    requires MayFollow(5, kind) && Stands(ts, pos, l + Negatable(negated, Glue(w, [Token(kind, w)])).toks + r, 5, end)
    ensures Stands(ts, pos, l, 5, mid) && HoldsWord(ts, mid, negated, kind, from) && Stands(ts, from, r, 5, end)
  {
    var toks := Negatable(negated, Glue(w, [Token(kind, w)])).toks;
    mid := pos + |l|;
    from := mid + |toks|;
    PairTokens(ts, pos, l, toks, r);
    WordHeld(ts, mid, negated, w, kind);
  }

  lemma ReadsLike(words: Words, read: Reader, pf: ParseFloat, format: Format, ts: Tokens, view: View, pos: nat,
                  e: Expr, x: Expr, pattern: Expr, negated: bool, end: nat)
    requires IsReader(read, pf, ts) && Shows(view, words, pf, format) && view.spellable(e) && e == Like(x, pattern, negated)
    requires Stands(ts, pos, view.toks(e), 4, end)
    ensures read(4, pos, e, end)
    decreases e, 1
  {
    ViewLike(view, words, pf, format, x, pattern, negated);
    var mid, from := WordStands(ts, pos, Found(view, 5, x), negated, LIKE_TEXT, WordLike, Found(view, 5, pattern), end);
    ReadsOperandText(words, read, pf, format, ts, view, pos, 5, x, mid, e);
    ReadsOperandText(words, read, pf, format, ts, view, from, 5, pattern, end, e);
    ReadsFormLike(read, pf, ts, pos, x, mid, negated, from, pattern, end);
  }

  lemma ReadsIsNull(words: Words, read: Reader, pf: ParseFloat, format: Format, ts: Tokens, view: View, pos: nat,
                    e: Expr, x: Expr, negated: bool, end: nat)
    requires IsReader(read, pf, ts) && Shows(view, words, pf, format) && view.spellable(e) && e == IsNull(x, negated)
    requires Stands(ts, pos, view.toks(e), 4, end)
    ensures read(4, pos, e, end)
    decreases e, 1
  {
    ViewIsNull(view, words, pf, format, x, negated);
    var mid := NullStands(ts, pos, Found(view, 5, x), negated, end);
    ReadsOperandText(words, read, pf, format, ts, view, pos, 5, x, mid, e);
    ReadsFormIsNull(read, pf, ts, pos, x, mid, negated, end);
  }

  lemma NullStands(ts: Tokens, pos: nat, l: Tokens, negated: bool, end: nat) returns (mid: nat)
    requires Stands(ts, pos, l + NullGlue(negated).toks, 4, end)
    ensures Stands(ts, pos, l, 5, mid) && Peek(ts, mid) == WordIs && HoldsWord(ts, mid + 1, negated, WordNull, end)
  {
    mid := pos + |l|;
    var last := Negatable(negated, Glue(NULL_TEXT, [Token(WordNull, NULL_TEXT)])).toks;
    AtJoin(ts, pos, l, NullGlue(negated).toks);
    AtJoin(ts, mid, [Token(WordIs, IS_TEXT)], last);
    AtItem(ts, mid, [Token(WordIs, IS_TEXT)], 0);
    WordHeld(ts, mid + 1, negated, NULL_TEXT, WordNull);
  }

  lemma ReadsOperandText(words: Words, read: Reader, pf: ParseFloat, format: Format, ts: Tokens, view: View, pos: nat,
                         need: Level, operand: Expr, end: nat, e: Expr)
    requires IsReader(read, pf, ts) && Shows(view, words, pf, format) && view.spellable(operand) && operand < e
    requires Stands(ts, pos, Found(view, need, operand), need, end)
    ensures read(need, pos, operand, end)
    decreases e, 0
  {
    if Rank(operand) < need {
      var inner := EnclosedStands(ts, pos, view.toks(operand), Rank(operand), need, end);
      ReadsBrief(words, read, pf, format, ts, view, pos + 1, operand, inner);
      RaisedTo(read, pf, ts, Rank(operand), 1, pos + 1, operand, inner);
      ReadsParenthesised(read, pf, ts, pos, operand, inner);
      RaisedTo(read, pf, ts, ATOM, need, pos, operand, end);
    } else {
      FollowsHigher(need, Rank(operand), Peek(ts, end));
      ReadsBrief(words, read, pf, format, ts, view, pos, operand, end);
      RaisedTo(read, pf, ts, Rank(operand), need, pos, operand, end);
    }
  }

  lemma EnclosedStands(ts: Tokens, pos: nat, toks: Tokens, rank: Level, need: Level, end: nat) returns (inner: nat)
    requires Stands(ts, pos, [OpenToken] + toks + [CloseToken], need, end)
    ensures Peek(ts, pos) == LeftParen && Stands(ts, pos + 1, toks, rank, inner) && Peek(ts, inner) == RightParen && end == inner + 1
    ensures MayFollow(1, Peek(ts, inner)) && MayFollow(need, Peek(ts, end))
  {
    inner := pos + 1 + |toks|;
    AtJoin(ts, pos, [OpenToken] + toks, [CloseToken]);
    AtJoin(ts, pos, [OpenToken], toks);
    AtItem(ts, pos, [OpenToken], 0);
    AtItem(ts, inner, [CloseToken], 0);
  }

  lemma PairTokens(ts: Tokens, pos: nat, l: Tokens, glue: Tokens, r: Tokens)
    requires At(ts, pos, l + glue + r)
    ensures At(ts, pos, l) && At(ts, pos + |l|, glue) && At(ts, pos + |l| + |glue|, r)
  {
    AtJoin(ts, pos, l + glue, r);
    AtJoin(ts, pos, l, glue);
  }

  lemma WordHeld(ts: Tokens, pos: nat, negated: bool, w: Key, kind: Kind)
    requires At(ts, pos, Negatable(negated, Glue(w, [Token(kind, w)])).toks)
    ensures HoldsWord(ts, pos, negated, kind, pos + |Negatable(negated, Glue(w, [Token(kind, w)])).toks|)
    ensures negated ==> Peek(ts, pos) == WordNot
  {
    var toks := Negatable(negated, Glue(w, [Token(kind, w)])).toks;
    AtItem(ts, pos, toks, 0);
    if negated {
      AtItem(ts, pos, toks, 1);
    }
  }

  lemma ReadsCombined(read: Reader, pf: ParseFloat, ts: Tokens, op: Operator, pos: nat, left: Expr, mid: nat, right: Expr, end: nat)
    requires IsReader(read, pf, ts) && IsBinary(op)
    requires read(LeftNeed(op), pos, left, mid) && Peek(ts, mid) == OpToken(op).kind
    requires read(BinaryRank(op) + 1, mid + 1, right, end) && MayFollow(BinaryRank(op), Peek(ts, end))
    ensures read(BinaryRank(op), pos, Binary(op, left, right), end)
  {
    assert Read(pf, ts, LeftNeed(op), pos, left, mid) && Read(pf, ts, BinaryRank(op) + 1, mid + 1, right, end);
    Combined(pf, ts, op, pos, left, mid, right, end);
  }

  lemma ReadsNegated(read: Reader, pf: ParseFloat, ts: Tokens, op: Operator, pos: nat, operand: Expr, end: nat)
    requires IsReader(read, pf, ts) && IsUnary(op)
    requires Peek(ts, pos) == OpToken(op).kind && read(UnaryRank(op) + 1, pos + 1, operand, end)
    ensures read(UnaryRank(op), pos, Unary(op, operand), end)
  {
    assert Read(pf, ts, UnaryRank(op) + 1, pos + 1, operand, end);
    Negated(pf, ts, op, pos, operand, end);
  }

  lemma ReadsParenthesised(read: Reader, pf: ParseFloat, ts: Tokens, pos: nat, e: Expr, end: nat)
    requires IsReader(read, pf, ts)
    requires Peek(ts, pos) == LeftParen && read(1, pos + 1, e, end) && Peek(ts, end) == RightParen
    ensures read(ATOM, pos, e, end + 1)
  {
    assert Read(pf, ts, 1, pos + 1, e, end);
    Parenthesised(pf, ts, pos, e, end);
  }

  lemma ReadsFormBetween(read: Reader, pf: ParseFloat, ts: Tokens, pos: nat, x: Expr, mid: nat, negated: bool, from: nat,
                         low: Expr, q: nat, high: Expr, end: nat)
    requires IsReader(read, pf, ts) && read(5, pos, x, mid) && HoldsWord(ts, mid, negated, WordBetween, from)
    requires read(5, from, low, q) && Peek(ts, q) == WordAnd && read(5, q + 1, high, end) && MayFollow(4, Peek(ts, end))
    ensures read(4, pos, Between(x, low, high, negated), end)
  {
    assert Read(pf, ts, 5, pos, x, mid) && Read(pf, ts, 5, from, low, q) && Read(pf, ts, 5, q + 1, high, end);
    BetweenRead(pf, ts, pos, x, mid, negated, from, low, q, high, end);
  }

  lemma ReadsFormLike(read: Reader, pf: ParseFloat, ts: Tokens, pos: nat, x: Expr, mid: nat, negated: bool, from: nat, pattern: Expr, end: nat)
    requires IsReader(read, pf, ts) && read(5, pos, x, mid) && HoldsWord(ts, mid, negated, WordLike, from)
    requires read(5, from, pattern, end) && MayFollow(4, Peek(ts, end))
    ensures read(4, pos, Like(x, pattern, negated), end)
  {
    assert Read(pf, ts, 5, pos, x, mid) && Read(pf, ts, 5, from, pattern, end);
    LikeRead(pf, ts, pos, x, mid, negated, from, pattern, end);
  }

  lemma ReadsFormIsNull(read: Reader, pf: ParseFloat, ts: Tokens, pos: nat, x: Expr, mid: nat, negated: bool, end: nat)
    requires IsReader(read, pf, ts) && read(5, pos, x, mid) && Peek(ts, mid) == WordIs && HoldsWord(ts, mid + 1, negated, WordNull, end)
    ensures read(4, pos, IsNull(x, negated), end)
  {
    assert Read(pf, ts, 5, pos, x, mid);
    IsNullRead(pf, ts, pos, x, mid, negated, end);
  }

  lemma FloatRead(pf: ParseFloat, format: Format, ts: Tokens, pos: nat, bits: Bits)
    requires ReadsBack(pf, format, bits) && pos < |ts| && ts[pos] == Token(FloatToken, format.float(bits))
    ensures ParsePrimary(pf, ts, pos) == Parsed(FloatLit(bits), pos + 1) && Peek(ts, pos) == FloatToken
  {
  }

  lemma ReadsLeafText(words: Words, read: Reader, pf: ParseFloat, format: Format, ts: Tokens, view: View, pos: nat, e: Expr, end: nat)
    requires IsReader(read, pf, ts) && Shows(view, words, pf, format) && view.spellable(e) && IsLeaf(e)
    requires Stands(ts, pos, view.toks(e), ATOM, end)
    ensures read(ATOM, pos, e, end)
  {
    ViewLeaf(view, words, pf, format, e);
    if e.FloatLit? {
      AtItem(ts, pos, view.toks(e), 0);
      FloatRead(pf, format, ts, pos, e.bits);
    } else {
      var primary: Primaries := (p: nat) => if p <= |ts| then ParsePrimary(pf, ts, p) else Failed;
      ReadsLeaf(words, primary, pf, format, ts, pos, e);
    }
    assert Read(pf, ts, ATOM, pos, e, end);
  }

  // ---- print, then parse ----

  lemma ReadsAll(words: Words, read: Reader, pf: ParseFloat, format: Format, ts: Tokens, view: View, e: Expr)
    requires IsReader(read, pf, ts) && Shows(view, words, pf, format) && view.spellable(e) && ts == view.toks(e) + [Token(EndOfInput, [])]
    ensures read(1, 0, e, |ts| - 1)
  {
    ReadsBrief(words, read, pf, format, ts, view, 0, e, |ts| - 1);
    RaisedTo(read, pf, ts, Rank(e), 1, 0, e, |ts| - 1);
  }

  lemma ReadsWhole(words: Words, pf: ParseFloat, format: Format, ts: Tokens, view: View, e: Expr)
    requires Shows(view, words, pf, format) && view.spellable(e) && ts == view.toks(e) + [Token(EndOfInput, [])]
    ensures ParseOr(pf, ts, 0) == Parsed(e, |ts| - 1)
  {
    var read: Reader := (level: Level, pos: nat, x: Expr, end: nat) => Read(pf, ts, level, pos, x, end);
    ReadsAll(words, read, pf, format, ts, view, e);
    assert Read(pf, ts, 1, 0, e, |ts| - 1);
    OrEnds(pf, ts, e, |ts| - 1);
  }

  lemma ParsesText(words: Words, pf: ParseFloat, s: Key, ts: Tokens, e: Expr, end: nat)
    requires NotTrimmed(s) && Lex(words, s, 0) == Some(ts) && ParseOr(pf, ts, 0) == Parsed(e, end)
    ensures ParseExpr(words, pf, s) == Parsed(e, end)
  {
  }

  lemma ViewThenParse(words: Words, pf: ParseFloat, format: Format, view: View, e: Expr)
    requires ReadsForms(words) && Shows(view, words, pf, format) && view.spellable(e)
    ensures ParseExpr(words, pf, view.text(e)) == Parsed(e, |view.toks(e)|)
  {
    var ts := view.toks(e) + [Token(EndOfInput, [])];
    BriefIsTrimmed(words, pf, format, view, e);
    LexesWhole(words, pf, format, view, view.text(e), e);
    ReadsWhole(words, pf, format, ts, view, e);
    ParsesText(words, pf, view.text(e), ts, e, |ts| - 1);
  }

  /** What is printed with no more parentheses than the ranks ask for is read back, and read to its end. */
  lemma BriefThenParse(pf: ParseFloat, format: Format, e: Expr)
    requires PrintsDecimals(format) && Spellable(KeywordKind, pf, format, e)
    ensures ParseExpr(KeywordKind, pf, Brief(format, e)) == Parsed(e, |BriefToks(format, e)|)
  {
    FormsRead();
    var view := Viewed(KeywordKind, pf, format);
    ViewOne(view, KeywordKind, pf, format, e);
    ViewThenParse(KeywordKind, pf, format, view, e);
  }

  // ---- what that says of a chain of two operators ----

  function Chain(a: Key, op: Operator, b: Key, next: Operator, c: Key): Key {
    Infix(Infix(a, OpGlue(op), b), OpGlue(next), c)
  }

  ghost predicate IsAtom(words: Words, pf: ParseFloat, format: Format, e: Expr) { Spellable(words, pf, format, e) && IsLeaf(e) }

  ghost predicate AreAtoms(view: View, words: Words, pf: ParseFloat, format: Format, a: Expr, b: Expr, c: Expr) {
    Shows(view, words, pf, format) && IsAtom(words, pf, format, a) && IsAtom(words, pf, format, b) && IsAtom(words, pf, format, c)
  }

  lemma AtomViewed(view: View, words: Words, pf: ParseFloat, format: Format, e: Expr)
    requires Shows(view, words, pf, format) && IsAtom(words, pf, format, e)
    ensures view.spellable(e) && view.text(e) == Print(format, e) && view.toks(e) == BriefToks(format, e)
  {
    ViewOne(view, words, pf, format, e);
    ViewLeaf(view, words, pf, format, e);
  }

  lemma BothSpellable(view: View, words: Words, pf: ParseFloat, format: Format, op: Operator, left: Expr, right: Expr)
    requires Shows(view, words, pf, format) && view.spellable(left) && view.spellable(right) && IsBinary(op)
    ensures view.spellable(Binary(op, left, right))
  {
    ViewOne(view, words, pf, format, left);
    ViewOne(view, words, pf, format, right);
    ViewOne(view, words, pf, format, Binary(op, left, right));
  }

  lemma ChainViewed(view: View, words: Words, pf: ParseFloat, format: Format, a: Expr, op: Operator, b: Expr, next: Operator, c: Expr)
    requires AreAtoms(view, words, pf, format, a, b, c) && IsBinary(op) && IsBinary(next)
    ensures view.spellable(Binary(op, a, Binary(next, b, c))) && view.spellable(Binary(next, Binary(op, a, b), c))
    ensures view.spellable(Binary(next, b, c)) && view.spellable(Binary(op, a, b))
    ensures view.spellable(a) && view.spellable(b) && view.spellable(c)
    ensures view.text(a) == Print(format, a) && view.text(b) == Print(format, b) && view.text(c) == Print(format, c)
    ensures view.toks(a) == BriefToks(format, a) && view.toks(b) == BriefToks(format, b)
  {
    AtomViewed(view, words, pf, format, a);
    AtomViewed(view, words, pf, format, b);
    AtomViewed(view, words, pf, format, c);
    BothSpellable(view, words, pf, format, op, a, b);
    BothSpellable(view, words, pf, format, next, b, c);
    BothSpellable(view, words, pf, format, op, a, Binary(next, b, c));
    BothSpellable(view, words, pf, format, next, Binary(op, a, b), c);
  }

  lemma Regrouped(a: Key, op: Operator, b: Key, next: Operator, c: Key)
    ensures Infix(a, OpGlue(op), Infix(b, OpGlue(next), c)) == Chain(a, op, b, next, c)
  {
    var front, back := a + [SPACE] + OpText(op) + [SPACE], [SPACE] + OpText(next) + [SPACE] + c;
    assert b + [SPACE] + OpText(next) + [SPACE] + c == b + back;
    assert front + (b + back) == front + b + back;
    assert front + b + [SPACE] + OpText(next) + [SPACE] + c == front + b + back;
  }

  lemma ChainToTheRight(view: View, words: Words, pf: ParseFloat, format: Format, a: Expr, op: Operator, b: Expr, next: Operator, c: Expr)
    requires AreAtoms(view, words, pf, format, a, b, c) && IsBinary(op) && IsBinary(next) && BinaryRank(next) > BinaryRank(op)
    ensures var e := Binary(op, a, Binary(next, b, c));
            view.spellable(e) && view.text(e) == Chain(Print(format, a), op, Print(format, b), next, Print(format, c))
  {
    ChainViewed(view, words, pf, format, a, op, b, next, c);
    ViewBinary(view, words, pf, format, op, a, Binary(next, b, c));
    ViewBinary(view, words, pf, format, next, b, c);
    Regrouped(view.text(a), op, view.text(b), next, view.text(c));
  }

  lemma ChainToTheLeft(view: View, words: Words, pf: ParseFloat, format: Format, a: Expr, op: Operator, b: Expr, next: Operator, c: Expr)
    requires AreAtoms(view, words, pf, format, a, b, c) && IsBinary(op) && IsBinary(next)
    requires BinaryRank(next) <= BinaryRank(op) && !(BinaryRank(op) == BinaryRank(next) == 4)
    ensures var e := Binary(next, Binary(op, a, b), c);
            view.spellable(e) && view.text(e) == Chain(Print(format, a), op, Print(format, b), next, Print(format, c))
  {
    ChainViewed(view, words, pf, format, a, op, b, next, c);
    ViewBinary(view, words, pf, format, next, Binary(op, a, b), c);
    ViewBinary(view, words, pf, format, op, a, b);
  }

  lemma PairLexed(words: Words, pf: ParseFloat, format: Format, view: View, s: Key, left: Expr, op: Operator, right: Expr)
    requires ReadsForms(words) && Shows(view, words, pf, format) && view.spellable(left) && view.spellable(right)
    requires s == Infix(view.text(left), OpGlue(op), view.text(right))
    ensures Lex(words, s, 0) == Some(view.toks(left) + [OpToken(op)] + view.toks(right) + [Token(EndOfInput, [])])
  {
    var lex: Lexed := (p: nat) => if p <= |s| then Lex(words, s, p) else None;
    WholeParts(s, view.text(left), OpGlue(op), view.text(right));
    OpIsGlue(words, lex, s, op);
    PairGiven(words, lex, pf, format, view, s, left, |view.text(left)|, OpGlue(op), right);
    assert lex(0) == Lex(words, s, 0) && lex(|s|) == Lex(words, s, |s|);
  }

  lemma WholeParts(s: Key, l: Key, glue: Glue, r: Key)
    requires s == Infix(l, glue, r)
    ensures At(s, 0, l) && Delimited(s, |l|) && At(s, |l|, [SPACE]) && At(s, |l| + 1, glue.text) && At(s, |l| + 1 + |glue.text|, [SPACE])
    ensures At(s, |l| + 2 + |glue.text|, r) && |s| == |l| + 2 + |glue.text| + |r|
  {
    InfixParts(s, 0, l, glue, r);
  }

  lemma PairGiven(words: Words, lex: Lexed, pf: ParseFloat, format: Format, view: View, s: Key, left: Expr, mid: nat, glue: Glue, right: Expr)
    requires Lexes(words, lex, s) && Shows(view, words, pf, format) && view.spellable(left) && view.spellable(right) && IsGlue(lex, s, glue)
    requires At(s, 0, view.text(left)) && mid == |view.text(left)| && Delimited(s, mid)
    requires At(s, mid, [SPACE]) && At(s, mid + 1, glue.text) && At(s, mid + 1 + |glue.text|, [SPACE])
    requires At(s, mid + 2 + |glue.text|, view.text(right)) && |s| == mid + 2 + |glue.text| + |view.text(right)|
    ensures Gives(lex, 0, view.toks(left) + glue.toks + view.toks(right), |s|)
  {
    LexBrief(words, lex, pf, format, s, view, 0, left);
    LexBrief(words, lex, pf, format, s, view, mid + 2 + |glue.text|, right);
    PairJoined(words, lex, s, 0, mid, glue, view.toks(left), view.toks(right), |s|);
  }

  lemma ChainParts(ts: Tokens, x: Tokens, op: Operator, y: Tokens, next: Operator, z: Tokens)
    requires ts == x + [OpToken(op)] + y + [OpToken(next)] + z
    ensures At(ts, 0, x) && Peek(ts, |x|) == OpToken(op).kind
    ensures At(ts, |x| + 1, y) && Peek(ts, |x| + 1 + |y|) == OpToken(next).kind
  {
    assert ts[|x|] == OpToken(op) && ts[|x| + 1 + |y|] == OpToken(next);
  }

  lemma AtomRead(words: Words, pf: ParseFloat, format: Format, ts: Tokens, view: View, pos: nat, e: Expr, end: nat)
    requires Shows(view, words, pf, format) && view.spellable(e) && IsLeaf(e)
    requires At(ts, pos, view.toks(e)) && end == pos + |view.toks(e)| && MayFollow(5, Peek(ts, end))
    ensures Read(pf, ts, 5, pos, e, end)
  {
    var read: Reader := (level: Level, p: nat, x: Expr, q: nat) => Read(pf, ts, level, p, x, q);
    ReadsLeafText(words, read, pf, format, ts, view, pos, e, end);
    RaisedTo(read, pf, ts, ATOM, 5, pos, e, end);
    assert read(5, pos, e, end) == Read(pf, ts, 5, pos, e, end);
  }

  lemma FirstRead(words: Words, pf: ParseFloat, format: Format, ts: Tokens, view: View, a: Expr, op: Operator, b: Expr, next: Operator, rest: Tokens)
    requires Shows(view, words, pf, format) && view.spellable(a) && view.spellable(b) && IsLeaf(a) && IsLeaf(b)
    requires IsBinary(op) && IsBinary(next) && BinaryRank(op) == 4 && BinaryRank(next) == 4
    requires ts == view.toks(a) + [OpToken(op)] + view.toks(b) + [OpToken(next)] + rest
    ensures ParseOr(pf, ts, 0) == Parsed(Binary(op, a, b), |view.toks(a)| + 1 + |view.toks(b)|)
  {
    var mid := |view.toks(a)|;
    var end := mid + 1 + |view.toks(b)|;
    ChainParts(ts, view.toks(a), op, view.toks(b), next, rest);
    OperatorFollows(op);
    OperatorFollows(next);
    AtomRead(words, pf, format, ts, view, 0, a, mid);
    AtomRead(words, pf, format, ts, view, mid + 1, b, end);
    ComparisonEnds(pf, ts, op, a, mid, b, end);
  }

  /** Once a comparison is read, no function looks for another. */
  lemma ComparisonEnds(pf: ParseFloat, ts: Tokens, op: Operator, a: Expr, mid: nat, b: Expr, end: nat)
    requires BinaryRank(op) == 4 && IsBinary(op) && Read(pf, ts, 5, 0, a, mid) && Peek(ts, mid) == OpToken(op).kind
    requires Read(pf, ts, 5, mid + 1, b, end) && ComparisonOp(Peek(ts, end)).Some?
    ensures ParseOr(pf, ts, 0) == Parsed(Binary(op, a, b), end)
  {
    var e := Binary(op, a, b);
    AddEnds(pf, ts, a, mid);
    AddEnds(pf, ts, b, end);
    JoinCompared(pf, ts, 0, op, a, mid, b, end);
    AsNot(pf, ts, 0, e, end);
    AsConjunct(pf, ts, 0, e, end);
    AsWhole(pf, ts, 0, e, end);
  }

  lemma TextsAreTrimmed(words: Words, pf: ParseFloat, format: Format, view: View, left: Expr, op: Operator, right: Expr)
    requires Shows(view, words, pf, format) && view.spellable(left) && view.spellable(right)
    ensures NotTrimmed(Infix(view.text(left), OpGlue(op), view.text(right)))
  {
    BriefIsTrimmed(words, pf, format, view, left);
    BriefIsTrimmed(words, pf, format, view, right);
    InfixIsTrimmed(view.text(left), OpGlue(op), view.text(right));
  }

  lemma FirstOfTwo(words: Words, pf: ParseFloat, format: Format, view: View, a: Expr, op: Operator, b: Expr, next: Operator, c: Expr)
    requires ReadsForms(words) && Shows(view, words, pf, format)
    requires view.spellable(a) && view.spellable(b) && IsLeaf(a) && IsLeaf(b)
    requires view.spellable(Binary(op, a, b)) && view.spellable(c)
    requires IsBinary(op) && IsBinary(next) && BinaryRank(op) == 4 && BinaryRank(next) == 4
    requires view.toks(Binary(op, a, b)) == view.toks(a) + [OpToken(op)] + view.toks(b)
    ensures ParseExpr(words, pf, Infix(view.text(Binary(op, a, b)), OpGlue(next), view.text(c))) ==
            Parsed(Binary(op, a, b), |view.toks(a)| + 1 + |view.toks(b)|)
  {
    var e := Binary(op, a, b);
    var text := Infix(view.text(e), OpGlue(next), view.text(c));
    var ts := view.toks(e) + [OpToken(next)] + view.toks(c) + [Token(EndOfInput, [])];
    TextsAreTrimmed(words, pf, format, view, e, next, c);
    PairLexed(words, pf, format, view, text, e, next, c);
    FirstRead(words, pf, format, ts, view, a, op, b, next, view.toks(c) + [Token(EndOfInput, [])]);
    ParsesText(words, pf, text, ts, e, |view.toks(a)| + 1 + |view.toks(b)|);
  }

  /** A second comparison: the first one is the whole result, and what stands behind it is not looked at. */
  lemma ComparisonsDoNotChain(pf: ParseFloat, format: Format, view: View, a: Expr, op: Operator, b: Expr, next: Operator, c: Expr)
    requires AreAtoms(view, KeywordKind, pf, format, a, b, c)
    requires IsBinary(op) && IsBinary(next) && BinaryRank(op) == 4 && BinaryRank(next) == 4
    ensures ParseExpr(KeywordKind, pf, Chain(Print(format, a), op, Print(format, b), next, Print(format, c))) ==
            Parsed(Binary(op, a, b), |BriefToks(format, a)| + 1 + |BriefToks(format, b)|)
  {
    FormsRead();
    ChainViewed(view, KeywordKind, pf, format, a, op, b, next, c);
    ViewBinary(view, KeywordKind, pf, format, op, a, b);
    FirstOfTwo(KeywordKind, pf, format, view, a, op, b, next, c);
  }

  /**
   A second operator takes the operand between the two exactly when it ranks higher than the first;
   otherwise the first one does.
   */
  lemma ChainReads(pf: ParseFloat, format: Format, a: Expr, op: Operator, b: Expr, next: Operator, c: Expr)
    requires PrintsDecimals(format) && IsAtom(KeywordKind, pf, format, a) && IsAtom(KeywordKind, pf, format, b) && IsAtom(KeywordKind, pf, format, c)
    requires IsBinary(op) && IsBinary(next)
    ensures var text := Chain(Print(format, a), op, Print(format, b), next, Print(format, c));
            var r := ParseExpr(KeywordKind, pf, text);
            && r.Parsed?
            && r.e == (if BinaryRank(op) == BinaryRank(next) == 4 then Binary(op, a, b)
                       else if BinaryRank(next) > BinaryRank(op) then Binary(op, a, Binary(next, b, c))
                       else Binary(next, Binary(op, a, b), c))
  {
    FormsRead();
    var view := Viewed(KeywordKind, pf, format);
    if BinaryRank(op) == BinaryRank(next) == 4 {
      ComparisonsDoNotChain(pf, format, view, a, op, b, next, c);
    } else if BinaryRank(next) > BinaryRank(op) {
      ChainToTheRight(view, KeywordKind, pf, format, a, op, b, next, c);
      ViewThenParse(KeywordKind, pf, format, view, Binary(op, a, Binary(next, b, c)));
    } else {
      ChainToTheLeft(view, KeywordKind, pf, format, a, op, b, next, c);
      ViewThenParse(KeywordKind, pf, format, view, Binary(next, Binary(op, a, b), c));
    }
  }
}
