/**
 Text with no more parentheses than a table of ranks asks for, BETWEEN, LIKE and IS NULL included, and
 the tokens the lexer finds in it.
 */
module BriefLex {
  import opened Bytes
  import opened Engine
  import opened Ast
  import opened Lexer
  import opened Keywords
  import opened Grammar
  import opened Printer
  import opened PrintLex
  import opened PrintParse
  import opened Floats
  import opened LexSpelled

  // ---- the table of ranks ----

  type Level = n: nat | 1 <= n <= 8 witness 1

  const ATOM: Level := 8

  /** How tightly an operator between two operands binds. */
  function BinaryRank(op: Operator): (r: Level)
    ensures r < 7
  {
    match op
    case Or => 1
    case And => 2
    case Plus => 5
    case Minus => 5
    case Multiply => 6
    case Divide => 6
    case Modulo => 6
    case _ => 4
  }

  /** How tightly an operator in front of its operand binds. */
  function UnaryRank(op: Operator): (r: Level)
    ensures r < 8
  {
    if op == Not then 3 else 7
  }

  function Rank(e: Expr): Level {
    match e
    case Binary(op, _, _) => BinaryRank(op)
    case Unary(op, _) => UnaryRank(op)
    case _ => if IsForm(e) then 4 else ATOM
  }

  /** BETWEEN, LIKE and IS NULL rank with the comparisons, and their operands are those of comparisons. */
  predicate IsForm(e: Expr) { e.Between? || e.Like? || e.IsNull? }

  predicate IsLeaf(e: Expr) { !e.Binary? && !e.Unary? && !IsForm(e) }

  /** The rank a left operand needs to stand bare: its operator's own, save that comparisons do not chain. */
  function LeftNeed(op: Operator): Level {
    if BinaryRank(op) == 4 then 5 else BinaryRank(op)
  }

  // ---- the words between operands ----

  datatype Glue = Glue(text: Key, toks: Tokens)

  function OpGlue(op: Operator): Glue { Glue(OpText(op), [OpToken(op)]) }

  const BETWEEN_TEXT: Key := Ascii("BETWEEN")
  const LIKE_TEXT: Key := Ascii("LIKE")
  const IS_TEXT: Key := Ascii("IS")

  function Negatable(negated: bool, word: Glue): Glue {
    if negated then Glue(OpText(Not) + [SPACE] + word.text, [OpToken(Not)] + word.toks) else word
  }

  function BetweenGlue(negated: bool): Glue { Negatable(negated, Glue(BETWEEN_TEXT, [Token(WordBetween, BETWEEN_TEXT)])) }

  function LikeGlue(negated: bool): Glue { Negatable(negated, Glue(LIKE_TEXT, [Token(WordLike, LIKE_TEXT)])) }

  /** IS NULL and IS NOT NULL. */
  function NullGlue(negated: bool): Glue {
    var last := Negatable(negated, Glue(NULL_TEXT, [Token(WordNull, NULL_TEXT)]));
    Glue(IS_TEXT + [SPACE] + last.text, [Token(WordIs, IS_TEXT)] + last.toks)
  }

  // ---- printing ----

  function Wrap(need: Level, e: Expr, text: Key): Key {
    if Rank(e) < need then [OPEN] + text + [CLOSE] else text
  }

  function Infix(l: Key, glue: Glue, r: Key): Key { l + [SPACE] + glue.text + [SPACE] + r }

  function Brief(format: Format, e: Expr): Key {
    match e
    case Binary(op, left, right) =>
      Infix(Wrap(LeftNeed(op), left, Brief(format, left)), OpGlue(op), Wrap(BinaryRank(op) + 1, right, Brief(format, right)))
    case Unary(op, operand) => OpText(op) + [SPACE] + Wrap(UnaryRank(op) + 1, operand, Brief(format, operand))
    case Between(x, low, high, negated) =>
      Infix(Infix(Wrap(5, x, Brief(format, x)), BetweenGlue(negated), Wrap(5, low, Brief(format, low))), OpGlue(And),
            Wrap(5, high, Brief(format, high)))
    case Like(x, pattern, negated) =>
      Infix(Wrap(5, x, Brief(format, x)), LikeGlue(negated), Wrap(5, pattern, Brief(format, pattern)))
    case IsNull(x, negated) => Wrap(5, x, Brief(format, x)) + [SPACE] + NullGlue(negated).text
    case _ => Print(format, e)
  }

  function WrapToks(need: Level, e: Expr, toks: Tokens): Tokens {
    if Rank(e) < need then [OpenToken] + toks + [CloseToken] else toks
  }

  function BriefToks(format: Format, e: Expr): Tokens {
    match e
    case Binary(op, left, right) =>
      WrapToks(LeftNeed(op), left, BriefToks(format, left)) + [OpToken(op)] + WrapToks(BinaryRank(op) + 1, right, BriefToks(format, right))
    case Unary(op, operand) => [OpToken(op)] + WrapToks(UnaryRank(op) + 1, operand, BriefToks(format, operand))
    case Between(x, low, high, negated) =>
      WrapToks(5, x, BriefToks(format, x)) + BetweenGlue(negated).toks + WrapToks(5, low, BriefToks(format, low)) + [OpToken(And)]
      + WrapToks(5, high, BriefToks(format, high))
    case Like(x, pattern, negated) =>
      WrapToks(5, x, BriefToks(format, x)) + LikeGlue(negated).toks + WrapToks(5, pattern, BriefToks(format, pattern))
    case IsNull(x, negated) => WrapToks(5, x, BriefToks(format, x)) + NullGlue(negated).toks
    case FloatLit(bits) => [Token(FloatToken, format.float(bits))]
    case _ => Toks(format, e)
  }

  /** The number is printed as digits with a point, which are read as that number. */
  ghost predicate ReadsBack(pf: ParseFloat, format: Format, bits: Bits) {
    (exists n :: PointAt(Unsigned(format.float(bits)), n)) && pf(format.float(bits)) == Some(bits)
  }

  /** What Printable allows, the forms, and float literals. */
  ghost predicate Spellable(words: Words, pf: ParseFloat, format: Format, e: Expr) {
    match e
    case Binary(op, left, right) => IsBinary(op) && Spellable(words, pf, format, left) && Spellable(words, pf, format, right)
    case Unary(op, operand) => IsUnary(op) && Spellable(words, pf, format, operand)
    case Between(x, low, high, _) => Spellable(words, pf, format, x) && Spellable(words, pf, format, low) && Spellable(words, pf, format, high)
    case Like(x, pattern, _) => Spellable(words, pf, format, x) && Spellable(words, pf, format, pattern)
    case IsNull(x, _) => Spellable(words, pf, format, x)
    case FloatLit(bits) => ReadsBack(pf, format, bits)
    case _ => Printable(words, e)
  }

  lemma {:induction false} PrintableIsSpellable(words: Words, pf: ParseFloat, format: Format, e: Expr)
    requires Printable(words, e)
    ensures Spellable(words, pf, format, e)
  {
    match e
    case Binary(_, left, right) =>
      PrintableIsSpellable(words, pf, format, left);
      PrintableIsSpellable(words, pf, format, right);
    case Unary(_, operand) => PrintableIsSpellable(words, pf, format, operand);
    case _ =>
  }

  // Brief, BriefToks and Spellable as values: proofs that pass them on do not unfold them.
  datatype View = View(text: Expr -> Key, toks: Expr -> Tokens, spellable: Expr -> bool)

  ghost predicate Shows(view: View, words: Words, pf: ParseFloat, format: Format) {
    && (forall e: Expr {:trigger Brief(format, e)} :: view.text(e) == Brief(format, e))
    && (forall e: Expr {:trigger BriefToks(format, e)} :: view.toks(e) == BriefToks(format, e))
    && (forall e: Expr {:trigger Spellable(words, pf, format, e)} :: view.spellable(e) == Spellable(words, pf, format, e))
    && PrintsDecimals(format)
  }

  ghost function Viewed(words: Words, pf: ParseFloat, format: Format): (view: View)
    ensures Shows(view, words, pf, format) <==> PrintsDecimals(format)
  {
    View(e => Brief(format, e), e => BriefToks(format, e), e => Spellable(words, pf, format, e))
  }

  function Text(view: View, need: Level, e: Expr): Key { Wrap(need, e, view.text(e)) }

  function Found(view: View, need: Level, e: Expr): Tokens { WrapToks(need, e, view.toks(e)) }

  lemma ViewOne(view: View, words: Words, pf: ParseFloat, format: Format, e: Expr)
    requires Shows(view, words, pf, format)
    ensures view.text(e) == Brief(format, e) && view.toks(e) == BriefToks(format, e) && view.spellable(e) == Spellable(words, pf, format, e)
  {
  }

  lemma ViewBinary(view: View, words: Words, pf: ParseFloat, format: Format, op: Operator, left: Expr, right: Expr)
    requires Shows(view, words, pf, format) && view.spellable(Binary(op, left, right))
    ensures view.text(Binary(op, left, right)) == Infix(Text(view, LeftNeed(op), left), OpGlue(op), Text(view, BinaryRank(op) + 1, right))
    ensures view.toks(Binary(op, left, right)) == Found(view, LeftNeed(op), left) + [OpToken(op)] + Found(view, BinaryRank(op) + 1, right)
    ensures IsBinary(op) && view.spellable(left) && view.spellable(right)
  {
    ViewOne(view, words, pf, format, Binary(op, left, right));
    ViewOne(view, words, pf, format, left);
    ViewOne(view, words, pf, format, right);
  }

  lemma ViewUnary(view: View, words: Words, pf: ParseFloat, format: Format, op: Operator, operand: Expr)
    requires Shows(view, words, pf, format) && view.spellable(Unary(op, operand))
    ensures view.text(Unary(op, operand)) == OpText(op) + [SPACE] + Text(view, UnaryRank(op) + 1, operand)
    ensures view.toks(Unary(op, operand)) == [OpToken(op)] + Found(view, UnaryRank(op) + 1, operand)
    ensures IsUnary(op) && view.spellable(operand)
  {
    ViewOne(view, words, pf, format, Unary(op, operand));
    ViewOne(view, words, pf, format, operand);
  }

  lemma ViewBetween(view: View, words: Words, pf: ParseFloat, format: Format, x: Expr, low: Expr, high: Expr, negated: bool)
    requires Shows(view, words, pf, format) && view.spellable(Between(x, low, high, negated))
    ensures view.text(Between(x, low, high, negated)) ==
            Infix(Infix(Text(view, 5, x), BetweenGlue(negated), Text(view, 5, low)), OpGlue(And), Text(view, 5, high))
    ensures view.toks(Between(x, low, high, negated)) ==
            Found(view, 5, x) + BetweenGlue(negated).toks + Found(view, 5, low) + [OpToken(And)] + Found(view, 5, high)
    ensures view.spellable(x) && view.spellable(low) && view.spellable(high)
  {
    ViewOne(view, words, pf, format, Between(x, low, high, negated));
    ViewOne(view, words, pf, format, x);
    ViewOne(view, words, pf, format, low);
    ViewOne(view, words, pf, format, high);
  }

  lemma ViewLike(view: View, words: Words, pf: ParseFloat, format: Format, x: Expr, pattern: Expr, negated: bool)
    requires Shows(view, words, pf, format) && view.spellable(Like(x, pattern, negated))
    ensures view.text(Like(x, pattern, negated)) == Infix(Text(view, 5, x), LikeGlue(negated), Text(view, 5, pattern))
    ensures view.toks(Like(x, pattern, negated)) == Found(view, 5, x) + LikeGlue(negated).toks + Found(view, 5, pattern)
    ensures view.spellable(x) && view.spellable(pattern)
  {
    ViewOne(view, words, pf, format, Like(x, pattern, negated));
    ViewOne(view, words, pf, format, x);
    ViewOne(view, words, pf, format, pattern);
  }

  lemma ViewIsNull(view: View, words: Words, pf: ParseFloat, format: Format, x: Expr, negated: bool)
    requires Shows(view, words, pf, format) && view.spellable(IsNull(x, negated))
    ensures view.text(IsNull(x, negated)) == Text(view, 5, x) + [SPACE] + NullGlue(negated).text
    ensures view.toks(IsNull(x, negated)) == Found(view, 5, x) + NullGlue(negated).toks
    ensures view.spellable(x)
  {
    ViewOne(view, words, pf, format, IsNull(x, negated));
    ViewOne(view, words, pf, format, x);
  }

  lemma ViewLeaf(view: View, words: Words, pf: ParseFloat, format: Format, e: Expr)
    requires Shows(view, words, pf, format) && view.spellable(e) && IsLeaf(e)
    ensures view.text(e) == Print(format, e)
    ensures if e.FloatLit? then view.toks(e) == [Token(FloatToken, format.float(e.bits))] && ReadsBack(pf, format, e.bits)
            else view.toks(e) == Toks(format, e) && Printable(words, e)
  {
    ViewOne(view, words, pf, format, e);
  }

  // ---- lexing what stands between operands ----

  /** The words of the forms are keywords, too. */
  predicate ReadsForms(words: Words) {
    && ReadsWords(words)
    && words(BETWEEN_TEXT) == Some(WordBetween) && words(LIKE_TEXT) == Some(WordLike) && words(IS_TEXT) == Some(WordIs)
  }

  lemma FormsRead()
    ensures ReadsForms(KeywordKind)
  {
    KeywordsRead();
    LongFormsRead();
    assert Ascii("IS")[1] != Ascii("OR")[1] && Ascii("IS")[1] != Ascii("IN")[1];
  }

  lemma LongFormsRead()
    ensures KeywordKind(BETWEEN_TEXT) == Some(WordBetween) && KeywordKind(LIKE_TEXT) == Some(WordLike)
  {
    assert Ascii("LIKE")[0] != Ascii("NULL")[0] && Ascii("LIKE")[0] != Ascii("TRUE")[0];
  }

  ghost predicate Lexes(words: Words, lex: Lexed, s: Key) {
    IsLexed(words, lex, s) && ReadsForms(words)
  }

  /** Wherever these words stand, they are found, if what is behind them ends a word. */
  ghost predicate IsGlue(lex: Lexed, s: Key, glue: Glue) {
    forall p: nat {:trigger At(s, p, glue.text)} ::
      At(s, p, glue.text) && At(s, p + |glue.text|, [SPACE]) ==> Gives(lex, p, glue.toks, p + |glue.text|)
  }

  lemma OpIsGlue(words: Words, lex: Lexed, s: Key, op: Operator)
    requires Lexes(words, lex, s)
    ensures IsGlue(lex, s, OpGlue(op))
  {
    forall p: nat | At(s, p, OpText(op)) && At(s, p + |OpText(op)|, [SPACE]) ensures Gives(lex, p, [OpToken(op)], p + |OpText(op)|) {
      OpAt(words, lex, s, p, op);
    }
  }

  /** A keyword in capitals, with or without NOT in front of it. */
  lemma NegatableAt(words: Words, lex: Lexed, s: Key, p: nat, negated: bool, w: Key, kind: Kind)
    requires Lexes(words, lex, s) && w != [] && (forall i | 0 <= i < |w| :: 0x41 <= w[i] <= 0x5A) && words(w) == Some(kind)
    requires var text := Negatable(negated, Glue(w, [Token(kind, w)])).text; At(s, p, text) && Delimited(s, p + |text|)
    ensures var glue := Negatable(negated, Glue(w, [Token(kind, w)])); Gives(lex, p, glue.toks, p + |glue.text|)
  {
    if negated {
      var q := p + |OpText(Not)|;
      AtJoin(s, p, OpText(Not) + [SPACE], w);
      AtJoin(s, p, OpText(Not), [SPACE]);
      CapitalAt(words, lex, s, q + 1, w, kind);
      Led(words, lex, s, p, Not, [Token(kind, w)], q + 1 + |w|);
    } else {
      CapitalAt(words, lex, s, p, w, kind);
    }
  }

  lemma WordIsGlue(words: Words, lex: Lexed, s: Key, negated: bool, w: Key, kind: Kind)
    requires Lexes(words, lex, s) && w != [] && (forall i | 0 <= i < |w| :: 0x41 <= w[i] <= 0x5A) && words(w) == Some(kind)
    ensures IsGlue(lex, s, Negatable(negated, Glue(w, [Token(kind, w)])))
  {
    var glue := Negatable(negated, Glue(w, [Token(kind, w)]));
    forall p: nat | At(s, p, glue.text) && At(s, p + |glue.text|, [SPACE]) ensures Gives(lex, p, glue.toks, p + |glue.text|) {
      AtItem(s, p + |glue.text|, [SPACE], 0);
      NegatableAt(words, lex, s, p, negated, w, kind);
    }
  }

  lemma NullAt(words: Words, lex: Lexed, s: Key, p: nat, negated: bool)
    requires Lexes(words, lex, s) && At(s, p, NullGlue(negated).text) && Delimited(s, p + |NullGlue(negated).text|)
    ensures Gives(lex, p, NullGlue(negated).toks, p + |NullGlue(negated).text|)
  {
    var last := Negatable(negated, Glue(NULL_TEXT, [Token(WordNull, NULL_TEXT)]));
    var q := p + |IS_TEXT|;
    AtJoin(s, p, IS_TEXT + [SPACE], last.text);
    AtJoin(s, p, IS_TEXT, [SPACE]);
    AtItem(s, q, [SPACE], 0);
    NegatableAt(words, lex, s, q + 1, negated, NULL_TEXT, WordNull);
    CapitalAt(words, lex, s, p, IS_TEXT, WordIs);
    Spaced(words, lex, s, p, [Token(WordIs, IS_TEXT)], q, last.toks, q + 1 + |last.text|);
  }

  /** Two pieces with a space between them. */
  lemma Spaced(words: Words, lex: Lexed, s: Key, pos: nat, a: Tokens, p: nat, b: Tokens, end: nat)
    requires Lexes(words, lex, s) && At(s, p, [SPACE]) && Gives(lex, pos, a, p) && Gives(lex, p + 1, b, end)
    ensures Gives(lex, pos, a + b, end)
  {
    OverSpace(words, lex, s, p);
    Joined(lex, a, [], pos, p, p + 1);
    assert a + [] == a;
    Joined(lex, a, b, pos, p + 1, end);
  }

  /** An operator, a space and the rest. */
  lemma Led(words: Words, lex: Lexed, s: Key, pos: nat, op: Operator, rest: Tokens, end: nat)
    requires Lexes(words, lex, s)
    requires At(s, pos, OpText(op)) && At(s, pos + |OpText(op)|, [SPACE]) && Gives(lex, pos + |OpText(op)| + 1, rest, end)
    ensures Gives(lex, pos, [OpToken(op)] + rest, end)
  {
    OpAt(words, lex, s, pos, op);
    Spaced(words, lex, s, pos, [OpToken(op)], pos + |OpText(op)|, rest, end);
  }

  /** Two operands with words between them. */
  lemma PairJoined(words: Words, lex: Lexed, s: Key, pos: nat, p: nat, glue: Glue, left: Tokens, right: Tokens, end: nat)
    requires Lexes(words, lex, s) && IsGlue(lex, s, glue)
    requires At(s, p, [SPACE]) && At(s, p + 1, glue.text) && At(s, p + 1 + |glue.text|, [SPACE])
    requires Gives(lex, pos, left, p) && Gives(lex, p + 2 + |glue.text|, right, end)
    ensures Gives(lex, pos, left + glue.toks + right, end)
  {
    Spaced(words, lex, s, p + 1, glue.toks, p + 1 + |glue.text|, right, end);
    Spaced(words, lex, s, pos, left, p, glue.toks + right, end);
    assert left + glue.toks + right == left + (glue.toks + right);
  }

  lemma InfixParts(s: Key, pos: nat, l: Key, glue: Glue, r: Key)
    requires At(s, pos, Infix(l, glue, r))
    ensures var p := pos + |l|;
            && At(s, pos, l) && Delimited(s, p) && At(s, p, [SPACE]) && At(s, p + 1, glue.text) && At(s, p + 1 + |glue.text|, [SPACE])
            && At(s, p + 2 + |glue.text|, r)
  {
    FiveParts(s, pos, l, [SPACE], glue.text, [SPACE], r);
    AtItem(s, pos + |l|, [SPACE], 0);
  }

  // ---- lexing the whole text ----

  lemma {:induction false} LexBrief(words: Words, lex: Lexed, pf: ParseFloat, format: Format, s: Key, view: View, pos: nat, e: Expr)
    requires Lexes(words, lex, s) && Shows(view, words, pf, format) && view.spellable(e)
    requires At(s, pos, view.text(e)) && Delimited(s, pos + |view.text(e)|)
    ensures Gives(lex, pos, view.toks(e), pos + |view.text(e)|)
    decreases e, 3
  {
    match e
    case Binary(op, left, right) => LexBinaryText(words, lex, pf, format, s, view, pos, e, op, left, right);
    case Unary(op, operand) => LexUnaryText(words, lex, pf, format, s, view, pos, e, op, operand);
    case Between(x, low, high, negated) => LexBetween(words, lex, pf, format, s, view, pos, e, x, low, high, negated);
    case Like(x, pattern, negated) => LexLike(words, lex, pf, format, s, view, pos, e, x, pattern, negated);
    case IsNull(x, negated) => LexIsNull(words, lex, pf, format, s, view, pos, e, x, negated);
    case FloatLit(bits) =>
      ViewLeaf(view, words, pf, format, e);
      FloatAt(words, lex, pf, format, s, pos, bits);
    case _ =>
      ViewLeaf(view, words, pf, format, e);
      LexLeaf(words, lex, format, s, pos, e);
  }

  lemma FloatAt(words: Words, lex: Lexed, pf: ParseFloat, format: Format, s: Key, pos: nat, bits: Bits)
    requires Lexes(words, lex, s) && ReadsBack(pf, format, bits) && At(s, pos, format.float(bits)) && Delimited(s, pos + |format.float(bits)|)
    ensures Gives(lex, pos, [Token(FloatToken, format.float(bits))], pos + |format.float(bits)|)
  {
    var text := format.float(bits);
    FloatStep(words, s, pos, text, Token(FloatToken, text));
    OneToken(words, lex, s, pos, Token(FloatToken, text), pos + |text|);
  }

  lemma LexBinaryText(words: Words, lex: Lexed, pf: ParseFloat, format: Format, s: Key, view: View, pos: nat, e: Expr, op: Operator, left: Expr, right: Expr)
    requires Lexes(words, lex, s) && Shows(view, words, pf, format) && view.spellable(e) && e == Binary(op, left, right)
    requires At(s, pos, view.text(e)) && Delimited(s, pos + |view.text(e)|)
    ensures Gives(lex, pos, view.toks(e), pos + |view.text(e)|)
    decreases e, 2
  {
    ViewBinary(view, words, pf, format, op, left, right);
    OpIsGlue(words, lex, s, op);
    LexPair(words, lex, pf, format, s, view, pos, e, LeftNeed(op), left, OpGlue(op), BinaryRank(op) + 1, right);
  }

  lemma LexLike(words: Words, lex: Lexed, pf: ParseFloat, format: Format, s: Key, view: View, pos: nat, e: Expr, x: Expr, pattern: Expr, negated: bool)
    requires Lexes(words, lex, s) && Shows(view, words, pf, format) && view.spellable(e) && e == Like(x, pattern, negated)
    requires At(s, pos, view.text(e)) && Delimited(s, pos + |view.text(e)|)
    ensures Gives(lex, pos, view.toks(e), pos + |view.text(e)|)
    decreases e, 2
  {
    ViewLike(view, words, pf, format, x, pattern, negated);
    WordIsGlue(words, lex, s, negated, LIKE_TEXT, WordLike);
    LexPair(words, lex, pf, format, s, view, pos, e, 5, x, LikeGlue(negated), 5, pattern);
  }

  lemma LexPair(words: Words, lex: Lexed, pf: ParseFloat, format: Format, s: Key, view: View, pos: nat, e: Expr, a: Level, left: Expr, glue: Glue, b: Level, right: Expr)
    requires Lexes(words, lex, s) && Shows(view, words, pf, format) && view.spellable(left) && view.spellable(right) && IsGlue(lex, s, glue)
    requires left < e && right < e
    requires var text := Infix(Text(view, a, left), glue, Text(view, b, right)); At(s, pos, text) && Delimited(s, pos + |text|)
    ensures Gives(lex, pos, Found(view, a, left) + glue.toks + Found(view, b, right),
                  pos + |Infix(Text(view, a, left), glue, Text(view, b, right))|)
    decreases e, 1, 0
  {
    var l, r := Text(view, a, left), Text(view, b, right);
    var p := pos + |l|;
    var q := p + 2 + |glue.text|;
    InfixParts(s, pos, l, glue, r);
    LexOperand(words, lex, pf, format, s, view, pos, a, left, l, e);
    LexOperand(words, lex, pf, format, s, view, q, b, right, r, e);
    PairJoined(words, lex, s, pos, p, glue, Found(view, a, left), Found(view, b, right), q + |r|);
  }

  lemma LexBetween(words: Words, lex: Lexed, pf: ParseFloat, format: Format, s: Key, view: View, pos: nat, e: Expr, x: Expr, low: Expr, high: Expr, negated: bool)
    requires Lexes(words, lex, s) && Shows(view, words, pf, format) && view.spellable(e) && e == Between(x, low, high, negated)
    requires At(s, pos, view.text(e)) && Delimited(s, pos + |view.text(e)|)
    ensures Gives(lex, pos, view.toks(e), pos + |view.text(e)|)
    decreases e, 2
  {
    ViewBetween(view, words, pf, format, x, low, high, negated);
    WordIsGlue(words, lex, s, negated, BETWEEN_TEXT, WordBetween);
    LexBounds(words, lex, pf, format, s, view, pos, e, x, BetweenGlue(negated), low, high, Infix(Text(view, 5, x), BetweenGlue(negated), Text(view, 5, low)));
  }

  lemma LexBounds(words: Words, lex: Lexed, pf: ParseFloat, format: Format, s: Key, view: View, pos: nat, e: Expr, x: Expr, glue: Glue, low: Expr, high: Expr,
                  first: Key)
    requires Lexes(words, lex, s) && Shows(view, words, pf, format) && IsGlue(lex, s, glue)
    requires view.spellable(x) && view.spellable(low) && view.spellable(high) && x < e && low < e && high < e
    requires first == Infix(Text(view, 5, x), glue, Text(view, 5, low))
    requires var text := Infix(first, OpGlue(And), Text(view, 5, high)); At(s, pos, text) && Delimited(s, pos + |text|)
    ensures Gives(lex, pos, Found(view, 5, x) + glue.toks + Found(view, 5, low) + [OpToken(And)] + Found(view, 5, high),
                  pos + |Infix(first, OpGlue(And), Text(view, 5, high))|)
    decreases e, 1, 1
  {
    var r := Text(view, 5, high);
    InfixParts(s, pos, first, OpGlue(And), r);
    LexPair(words, lex, pf, format, s, view, pos, e, 5, x, glue, 5, low);
    LexUpper(words, lex, pf, format, s, view, pos, Found(view, 5, x) + glue.toks + Found(view, 5, low), pos + |first|, high, r, e);
  }

  /** AND and the upper bound, behind the tokens of what is in front of them. */
  lemma LexUpper(words: Words, lex: Lexed, pf: ParseFloat, format: Format, s: Key, view: View, pos: nat, toks: Tokens, p: nat, high: Expr, r: Key, e: Expr)
    requires Lexes(words, lex, s) && Shows(view, words, pf, format) && view.spellable(high) && high < e && r == Text(view, 5, high)
    requires var q := p + 2 + |OpText(And)|;
             && At(s, p, [SPACE]) && At(s, p + 1, OpText(And)) && At(s, q - 1, [SPACE])
             && At(s, q, r) && Delimited(s, q + |r|)
    requires Gives(lex, pos, toks, p)
    ensures Gives(lex, pos, toks + [OpToken(And)] + Found(view, 5, high), p + 2 + |OpText(And)| + |r|)
    decreases e, 1, 0
  {
    var q := p + 2 + |OpText(And)|;
    LexOperand(words, lex, pf, format, s, view, q, 5, high, r, e);
    OpIsGlue(words, lex, s, And);
    PairJoined(words, lex, s, pos, p, OpGlue(And), toks, Found(view, 5, high), q + |r|);
  }

  lemma LexIsNull(words: Words, lex: Lexed, pf: ParseFloat, format: Format, s: Key, view: View, pos: nat, e: Expr, x: Expr, negated: bool)
    requires Lexes(words, lex, s) && Shows(view, words, pf, format) && view.spellable(e) && e == IsNull(x, negated)
    requires At(s, pos, view.text(e)) && Delimited(s, pos + |view.text(e)|)
    ensures Gives(lex, pos, view.toks(e), pos + |view.text(e)|)
    decreases e, 2
  {
    ViewIsNull(view, words, pf, format, x, negated);
    var l, last := Text(view, 5, x), NullGlue(negated);
    var p := pos + |l|;
    AtJoin(s, pos, l + [SPACE], last.text);
    AtJoin(s, pos, l, [SPACE]);
    AtItem(s, p, [SPACE], 0);
    LexOperand(words, lex, pf, format, s, view, pos, 5, x, l, e);
    NullAt(words, lex, s, p + 1, negated);
    Spaced(words, lex, s, pos, Found(view, 5, x), p, last.toks, p + 1 + |last.text|);
  }

  lemma LexUnaryText(words: Words, lex: Lexed, pf: ParseFloat, format: Format, s: Key, view: View, pos: nat, e: Expr, op: Operator, operand: Expr)
    requires Lexes(words, lex, s) && Shows(view, words, pf, format) && view.spellable(e) && e == Unary(op, operand)
    requires At(s, pos, view.text(e)) && Delimited(s, pos + |view.text(e)|)
    ensures Gives(lex, pos, view.toks(e), pos + |view.text(e)|)
    decreases e, 2
  {
    ViewUnary(view, words, pf, format, op, operand);
    var r := Text(view, UnaryRank(op) + 1, operand);
    var p := pos + |OpText(op)|;
    AtJoin(s, pos, OpText(op) + [SPACE], r);
    AtJoin(s, pos, OpText(op), [SPACE]);
    LexOperand(words, lex, pf, format, s, view, p + 1, UnaryRank(op) + 1, operand, r, e);
    Led(words, lex, s, pos, op, Found(view, UnaryRank(op) + 1, operand), p + 1 + |r|);
  }

  lemma LexOperand(words: Words, lex: Lexed, pf: ParseFloat, format: Format, s: Key, view: View, pos: nat, need: Level, operand: Expr, text: Key, e: Expr)
    requires Lexes(words, lex, s) && Shows(view, words, pf, format) && view.spellable(operand) && operand < e
    requires text == Text(view, need, operand) && At(s, pos, text) && Delimited(s, pos + |text|)
    ensures Gives(lex, pos, Found(view, need, operand), pos + |text|)
    decreases e, 0
  {
    if Rank(operand) < need {
      var inner := view.text(operand);
      var end := pos + 1 + |inner|;
      AtJoin(s, pos, [OPEN] + inner, [CLOSE]);
      AtJoin(s, pos, [OPEN], inner);
      AtItem(s, end, [CLOSE], 0);
      LexBrief(words, lex, pf, format, s, view, pos + 1, operand);
      Enclosing(words, lex, s, pos, view.toks(operand), end);
    } else {
      LexBrief(words, lex, pf, format, s, view, pos, operand);
    }
  }

  lemma Enclosing(words: Words, lex: Lexed, s: Key, pos: nat, toks: Tokens, end: nat)
    requires Lexes(words, lex, s) && At(s, pos, [OPEN]) && At(s, end, [CLOSE]) && Gives(lex, pos + 1, toks, end)
    ensures Gives(lex, pos, [OpenToken] + toks + [CloseToken], end + 1)
  {
    SymbolAt(words, lex, s, pos, OPEN);
    SymbolAt(words, lex, s, end, CLOSE);
    Joined(lex, [OpenToken], toks, pos, pos + 1, end);
    Joined(lex, [OpenToken] + toks, [CloseToken], pos, end, end + 1);
  }

  lemma LexesWhole(words: Words, pf: ParseFloat, format: Format, view: View, s: Key, e: Expr)
    requires ReadsForms(words) && Shows(view, words, pf, format) && view.spellable(e) && s == view.text(e)
    ensures Lex(words, s, 0) == Some(view.toks(e) + [Token(EndOfInput, [])])
  {
    var lex: Lexed := (p: nat) => if p <= |s| then Lex(words, s, p) else None;
    LexBrief(words, lex, pf, format, s, view, 0, e);
    assert lex(0) == Lex(words, s, 0) && lex(|s|) == Lex(words, s, |s|);
  }

  // ---- the text needs no trimming ----

  lemma {:induction false} BriefIsTrimmed(words: Words, pf: ParseFloat, format: Format, view: View, e: Expr)
    requires Shows(view, words, pf, format) && view.spellable(e)
    ensures NotTrimmed(view.text(e))
    decreases e, 1
  {
    match e
    case Binary(op, left, right) =>
      ViewBinary(view, words, pf, format, op, left, right);
      WrapIsTrimmed(words, pf, format, view, LeftNeed(op), left);
      WrapIsTrimmed(words, pf, format, view, BinaryRank(op) + 1, right);
      InfixIsTrimmed(Text(view, LeftNeed(op), left), OpGlue(op), Text(view, BinaryRank(op) + 1, right));
    case Unary(op, operand) =>
      ViewUnary(view, words, pf, format, op, operand);
      WrapIsTrimmed(words, pf, format, view, UnaryRank(op) + 1, operand);
      EndsTrimmed(OpText(op), [SPACE], Text(view, UnaryRank(op) + 1, operand));
    case Between(x, low, high, negated) =>
      ViewBetween(view, words, pf, format, x, low, high, negated);
      WrapIsTrimmed(words, pf, format, view, 5, x);
      WrapIsTrimmed(words, pf, format, view, 5, low);
      WrapIsTrimmed(words, pf, format, view, 5, high);
      InfixIsTrimmed(Text(view, 5, x), BetweenGlue(negated), Text(view, 5, low));
      InfixIsTrimmed(Infix(Text(view, 5, x), BetweenGlue(negated), Text(view, 5, low)), OpGlue(And), Text(view, 5, high));
    case Like(x, pattern, negated) =>
      ViewLike(view, words, pf, format, x, pattern, negated);
      WrapIsTrimmed(words, pf, format, view, 5, x);
      WrapIsTrimmed(words, pf, format, view, 5, pattern);
      InfixIsTrimmed(Text(view, 5, x), LikeGlue(negated), Text(view, 5, pattern));
    case IsNull(x, negated) =>
      ViewIsNull(view, words, pf, format, x, negated);
      WrapIsTrimmed(words, pf, format, view, 5, x);
      NullIsTrimmed(negated);
      EndsTrimmed(Text(view, 5, x), [SPACE], NullGlue(negated).text);
    case FloatLit(bits) =>
      ViewLeaf(view, words, pf, format, e);
      FloatIsTrimmed(format.float(bits));
    case _ =>
      ViewLeaf(view, words, pf, format, e);
      PrintIsTrimmed(words, format, e);
  }

  lemma FloatIsTrimmed(text: Key)
    requires exists n :: PointAt(Unsigned(text), n)
    ensures NotTrimmed(text)
  {
    var n :| PointAt(Unsigned(text), n);
    var last := |Unsigned(text)| - 1;
    assert text[|text| - 1] == Unsigned(text)[last];
    assert !IsTrimmed(Unsigned(text)[0]) && !IsTrimmed(Unsigned(text)[last]);
  }

  lemma WrapIsTrimmed(words: Words, pf: ParseFloat, format: Format, view: View, need: Level, e: Expr)
    requires Shows(view, words, pf, format) && view.spellable(e)
    ensures NotTrimmed(Text(view, need, e))
    decreases e, 2
  {
    BriefIsTrimmed(words, pf, format, view, e);
  }

  lemma NullIsTrimmed(negated: bool)
    ensures NotTrimmed(NullGlue(negated).text)
  {
    var last := Negatable(negated, Glue(NULL_TEXT, [Token(WordNull, NULL_TEXT)])).text;
    assert !IsTrimmed(IS_TEXT[0]) && !IsTrimmed(last[|last| - 1]);
    EndsTrimmed(IS_TEXT, [SPACE], last);
  }

  lemma InfixIsTrimmed(a: Key, glue: Glue, b: Key)
    requires NotTrimmed(a) && NotTrimmed(b)
    ensures NotTrimmed(Infix(a, glue, b))
  {
    assert Infix(a, glue, b) == a + ([SPACE] + glue.text + [SPACE]) + b;
  }

  lemma EndsTrimmed(a: Key, between: Key, b: Key)
    requires NotTrimmed(a) && NotTrimmed(b)
    ensures NotTrimmed(a + between + b)
  {
  }
}
