/** Lexing the text of a printed expression gives back its tokens. */
module PrintLex {
  import opened Bytes
  import opened Engine
  import opened Ast
  import opened Lexer
  import opened Grammar
  import opened Printer

  // ---- the expressions that printing keeps ----

  predicate IsWord(w: Key) {
    w != [] && !IsDigit(w[0]) && forall i | 0 <= i < |w| :: IsWordByte(w[i])
  }

  /** A name that is no keyword. */
  predicate IsName(words: Words, w: Key) { IsWord(w) && words(ToUpper(w)) == None }

  /** From a position on, single quotes come in pairs. */
  predicate Doubled(v: Key, from: nat)
    requires from <= |v|
    decreases |v| - from
  {
    if from == |v| then true
    else if v[from] != QUOTE then Doubled(v, from + 1)
    else from + 1 < |v| && v[from + 1] == QUOTE && Doubled(v, from + 2)
  }

  ghost predicate WellQuoted(v: Key) {
    Doubled(v, 0)
  }

  predicate IsBinary(op: Operator) { op != Not }

  predicate IsUnary(op: Operator) { op == Not || op == Minus }

  ghost predicate Printable(words: Words, e: Expr) {
    match e
    case Ident(table, name) => (table == [] || IsName(words, table)) && IsName(words, name)
    case StringLit(s) => WellQuoted(s)
    case IntLit(n) => IsInt64(n)
    case BoolLit(_) => true
    case NullLit => true
    case Star => true
    case Binary(op, left, right) => IsBinary(op) && Printable(words, left) && Printable(words, right)
    case Unary(op, operand) => IsUnary(op) && Printable(words, operand)
    case _ => false
  }

  // ---- the tokens of a printed expression ----

  function OpToken(op: Operator): Token {
    match op
    case Eq => Token(EqToken, OpText(op))
    case Neq => Token(NeqToken, OpText(op))
    case Lt => Token(LtToken, OpText(op))
    case Lte => Token(LteToken, OpText(op))
    case Gt => Token(GtToken, OpText(op))
    case Gte => Token(GteToken, OpText(op))
    case And => Token(WordAnd, OpText(op))
    case Or => Token(WordOr, OpText(op))
    case Not => Token(WordNot, OpText(op))
    case Plus => Token(PlusToken, OpText(op))
    case Minus => Token(MinusToken, OpText(op))
    case Multiply => Token(MultiplyToken, OpText(op))
    case Divide => Token(DivideToken, OpText(op))
    case Modulo => Token(ModuloToken, OpText(op))
    case VectorDist => Token(DistToken, OpText(op))
  }

  const OpenToken := Token(LeftParen, [OPEN])
  const CloseToken := Token(RightParen, [CLOSE])

  function IdentToks(table: Key, name: Key): seq<Token> {
    if table != [] then [Token(Identifier, table), Token(DotToken, [POINT]), Token(Identifier, name)]
    else [Token(Identifier, name)]
  }

  /** For a printable expression. */
  function Toks(format: Format, e: Expr): (ts: seq<Token>)
    ensures ts != []
  {
    match e
    case Ident(table, name) => IdentToks(table, name)
    case StringLit(s) => [Token(StringToken, s)]
    case IntLit(n) => [Token(IntegerToken, format.decimal(n))]
    case BoolLit(b) => if b then [Token(WordTrue, TRUE_TEXT)] else [Token(WordFalse, FALSE_TEXT)]
    case NullLit => [Token(WordNull, NULL_TEXT)]
    case Star => [Token(MultiplyToken, [0x2A])]
    case Binary(op, left, right) => [OpenToken] + Toks(format, left) + [OpToken(op)] + Toks(format, right) + [CloseToken]
    case Unary(op, operand) => [OpenToken, OpToken(op)] + Toks(format, operand) + [CloseToken]
    case _ => [Token(Illegal, [])]
  }

  // ---- a piece of a sequence ----

  predicate At<T(==)>(s: seq<T>, pos: nat, text: seq<T>) {
    pos + |text| <= |s| && forall i | 0 <= i < |text| :: s[pos + i] == text[i]
  }

  lemma AtJoin<T>(s: seq<T>, pos: nat, a: seq<T>, b: seq<T>)
    requires At(s, pos, a + b)
    ensures At(s, pos, a) && At(s, pos + |a|, b)
  {
    forall i | 0 <= i < |a| ensures s[pos + i] == a[i] {
      assert (a + b)[i] == a[i];
    }
    forall i | 0 <= i < |b| ensures s[pos + |a| + i] == b[i] {
      assert (a + b)[|a| + i] == b[i];
    }
  }

  lemma AtItem<T>(s: seq<T>, pos: nat, text: seq<T>, i: nat)
    requires At(s, pos, text) && i < |text|
    ensures s[pos + i] == text[i]
  {
  }

  lemma AtSlice<T>(s: seq<T>, pos: nat, text: seq<T>)
    requires At(s, pos, text)
    ensures s[pos..pos + |text|] == text
  {
  }

  /** A printed expression ends the input or is followed by a space or a closing parenthesis. */
  predicate Delimited(s: Key, end: nat) {
    end == |s| || (end < |s| && (s[end] == SPACE || s[end] == CLOSE))
  }

  // ---- one token ----

  // What the lexer makes of the input from each position on.
  type Lexed = nat -> Option<seq<Token>>

  ghost predicate IsLexed(words: Words, lex: Lexed, s: Key) {
    forall p: nat {:trigger Lex(words, s, p)} :: p <= |s| ==> lex(p) == Lex(words, s, p)
  }

  /** From one position to another the input holds these tokens. */
  ghost predicate Gives(lex: Lexed, from: nat, tokens: seq<Token>, to: nat) {
    lex(from) == Before(tokens, lex(to))
  }

  lemma Joined(lex: Lexed, a: seq<Token>, b: seq<Token>, from: nat, mid: nat, to: nat)
    requires Gives(lex, from, a, mid) && Gives(lex, mid, b, to)
    ensures Gives(lex, from, a + b, to)
  {
    BeforeBefore(a, b, lex(to));
  }

  lemma OneToken(words: Words, lex: Lexed, s: Key, pos: nat, token: Token, end: nat)
    requires IsLexed(words, lex, s) && pos < |s| && !IsSpace(s[pos]) && NextStep(words, s, pos) == Step(token, end)
    ensures Gives(lex, pos, [token], end)
  {
    assert Lex(words, s, pos) == Before([token], Lex(words, s, end));
  }

  lemma OverSpace(words: Words, lex: Lexed, s: Key, pos: nat)
    requires IsLexed(words, lex, s) && At(s, pos, [SPACE])
    ensures Gives(lex, pos, [], pos + 1)
  {
    AtItem(s, pos, [SPACE], 0);
    assert Lex(words, s, pos) == Lex(words, s, pos + 1);
    NothingBefore(lex(pos + 1));
  }

  lemma {:induction false} WordEndsAt(s: Key, from: nat, end: nat)
    requires from <= end <= |s| && (forall i | from <= i < end :: IsWordByte(s[i])) && (end < |s| ==> !IsWordByte(s[end]))
    ensures WordEnd(s, from) == end
    decreases end - from
  {
    if from < end {
      WordEndsAt(s, from + 1, end);
    }
  }

  lemma {:induction false} DigitsEndAt(s: Key, from: nat, end: nat)
    requires from <= end <= |s| && (forall i | from <= i < end :: IsDigit(s[i])) && (end < |s| ==> !IsDigit(s[end]))
    ensures DigitsEnd(s, from) == end
    decreases end - from
  {
    if from < end {
      DigitsEndAt(s, from + 1, end);
    }
  }

  /** The string ends at the quote printed behind it exactly when its own quotes are doubled. */
  lemma {:induction false} StringEndsIff(s: Key, pos: nat, v: Key, i: nat)
    requires i <= |v| && At(s, pos, v + [QUOTE]) && Ahead(s, pos + |v| + 1) != QUOTE
    ensures StringEnd(s, pos + i, QUOTE) == pos + |v| <==> Doubled(v, i)
    decreases |v| - i
  {
    AtItem(s, pos, v + [QUOTE], i);
    if i < |v| {
      AtItem(s, pos, v + [QUOTE], i + 1);
      if v[i] != QUOTE {
        StringEndsIff(s, pos, v, i + 1);
      } else if i + 1 < |v| && v[i + 1] == QUOTE {
        StringEndsIff(s, pos, v, i + 2);
      }
    }
  }

  lemma WordAt(words: Words, lex: Lexed, s: Key, pos: nat, w: Key)
    requires IsLexed(words, lex, s) && IsWord(w) && At(s, pos, w) && (pos + |w| < |s| ==> !IsWordByte(s[pos + |w|]))
    ensures Gives(lex, pos, [WordToken(words, w)], pos + |w|)
  {
    forall i | pos <= i < pos + |w| ensures IsWordByte(s[i]) {
      AtItem(s, pos, w, i - pos);
    }
    AtItem(s, pos, w, 0);
    AtSlice(s, pos, w);
    WordEndsAt(s, pos, pos + |w|);
    OneToken(words, lex, s, pos, WordToken(words, w), pos + |w|);
  }

  lemma SymbolAt(words: Words, lex: Lexed, s: Key, pos: nat, b: Byte)
    requires IsLexed(words, lex, s) && At(s, pos, [b]) && (b == OPEN || b == CLOSE || b == POINT || b == 0x2A)
    ensures Gives(lex, pos, [Token(OperatorKind(b), [b])], pos + 1)
  {
    AtItem(s, pos, [b], 0);
    AtSlice(s, pos, [b]);
    OneToken(words, lex, s, pos, Token(OperatorKind(b), [b]), pos + 1);
  }

  /** The words printing writes in capitals. */
  lemma CapitalWord(w: Key)
    requires forall i | 0 <= i < |w| :: 0x41 <= w[i] <= 0x5A
    ensures ToUpper(w) == w && (w != [] ==> IsWord(w))
  {
  }

  predicate IsLogic(op: Operator) { op == And || op == Or || op == Not }

  /** The words that printing uses are keywords. */
  predicate ReadsWords(words: Words) {
    && (forall op | IsLogic(op) :: words(OpText(op)) == Some(OpToken(op).kind))
    && words(TRUE_TEXT) == Some(WordTrue) && words(FALSE_TEXT) == Some(WordFalse) && words(NULL_TEXT) == Some(WordNull)
  }

  lemma LogicWord(words: Words, op: Operator)
    requires ReadsWords(words) && IsLogic(op)
    ensures IsWord(OpText(op)) && WordToken(words, OpText(op)) == OpToken(op)
  {
    CapitalWord(OpText(op));
  }

  lemma ShortOp(words: Words, s: Key, pos: nat, op: Operator)
    requires |OpText(op)| == 1
    requires At(s, pos, OpText(op)) && s[pos] == OpText(op)[0] && Ahead(s, pos + 1) == SPACE
    ensures NextStep(words, s, pos) == Step(OpToken(op), pos + 1)
  {
    AtSlice(s, pos, OpText(op));
  }

  lemma LongOp(words: Words, s: Key, pos: nat, op: Operator)
    requires |OpText(op)| == 2 && !op.Or? && At(s, pos, OpText(op)) && s[pos] == OpText(op)[0] && Ahead(s, pos + 1) == OpText(op)[1]
    ensures NextStep(words, s, pos) == Step(OpToken(op), pos + 2)
  {
    AtSlice(s, pos, OpText(op));
  }

  lemma DistOp(words: Words, s: Key, pos: nat)
    requires At(s, pos, OpText(VectorDist)) && s[pos] == 0x3C && s[pos + 1] == MINUS && s[pos + 2] == 0x3E
    ensures NextStep(words, s, pos) == Step(OpToken(VectorDist), pos + 3)
  {
    AtSlice(s, pos, OpText(VectorDist));
  }

  lemma OpAt(words: Words, lex: Lexed, s: Key, pos: nat, op: Operator)
    requires IsLexed(words, lex, s) && ReadsWords(words) && At(s, pos, OpText(op)) && At(s, pos + |OpText(op)|, [SPACE])
    ensures Gives(lex, pos, [OpToken(op)], pos + |OpText(op)|)
  {
    var text := OpText(op);
    AtItem(s, pos, text, 0);
    AtItem(s, pos + |text|, [SPACE], 0);
    if IsLogic(op) {
      LogicWord(words, op);
      WordAt(words, lex, s, pos, text);
    } else {
      if |text| == 1 {
        ShortOp(words, s, pos, op);
      } else if |text| == 2 {
        AtItem(s, pos, text, 1);
        LongOp(words, s, pos, op);
      } else {
        AtItem(s, pos, text, 1);
        AtItem(s, pos, text, 2);
        DistOp(words, s, pos);
      }
      OneToken(words, lex, s, pos, OpToken(op), pos + |text|);
    }
  }

  ghost predicate PrintsDecimals(format: Format) {
    forall n {:trigger Decimal(n)} :: format.decimal(n) == Decimal(n)
  }

  lemma DecimalAt(words: Words, lex: Lexed, format: Format, s: Key, pos: nat, n: int)
    requires IsLexed(words, lex, s) && PrintsDecimals(format)
    requires At(s, pos, format.decimal(n)) && Delimited(s, pos + |format.decimal(n)|)
    ensures Gives(lex, pos, [Token(IntegerToken, format.decimal(n))], pos + |format.decimal(n)|)
  {
    var text := Decimal(n);
    var end := pos + |text|;
    var first := pos + if n < 0 then 1 else 0;
    forall i | first <= i < end ensures IsDigit(s[i]) {
      AtItem(s, pos, text, i - pos);
    }
    AtItem(s, pos, text, 0);
    DigitsEndAt(s, first, end);
    AtSlice(s, pos, text);
    assert first < end;
    assert NumberStep(s, pos) == Step(Token(IntegerToken, text), end);
    OneToken(words, lex, s, pos, Token(IntegerToken, text), end);
  }

  lemma StringStep(words: Words, lex: Lexed, s: Key, pos: nat, v: Key)
    requires IsLexed(words, lex, s) && pos < |s| && s[pos] == QUOTE && At(s, pos + 1, v) && pos + 1 + |v| < |s|
    requires StringEnd(s, pos + 1, QUOTE) == pos + 1 + |v|
    ensures Gives(lex, pos, [Token(StringToken, v)], pos + |v| + 2)
  {
    AtSlice(s, pos + 1, v);
    OneToken(words, lex, s, pos, Token(StringToken, v), pos + |v| + 2);
  }

  lemma StringAt(words: Words, lex: Lexed, s: Key, pos: nat, v: Key)
    requires IsLexed(words, lex, s) && WellQuoted(v) && At(s, pos, [QUOTE]) && At(s, pos + 1, v + [QUOTE]) && Ahead(s, pos + |v| + 2) != QUOTE
    ensures Gives(lex, pos, [Token(StringToken, v)], pos + |v| + 2)
  {
    AtItem(s, pos, [QUOTE], 0);
    assert Doubled(v, 0);
    StringEndsIff(s, pos + 1, v, 0);
    AtJoin(s, pos + 1, v, [QUOTE]);
    StringStep(words, lex, s, pos, v);
  }

  lemma QuotedAt(s: Key, pos: nat, v: Key)
    requires At(s, pos, [QUOTE] + v + [QUOTE])
    ensures At(s, pos, [QUOTE]) && At(s, pos + 1, v + [QUOTE])
  {
    assert [QUOTE] + v + [QUOTE] == [QUOTE] + (v + [QUOTE]);
    AtJoin(s, pos, [QUOTE], v + [QUOTE]);
  }

  // ---- the whole text ----

  lemma {:induction false} LexPrint(words: Words, lex: Lexed, format: Format, s: Key, pos: nat, e: Expr)
    requires IsLexed(words, lex, s) && ReadsWords(words) && PrintsDecimals(format) && Printable(words, e) && At(s, pos, Print(format, e)) && Delimited(s, pos + |Print(format, e)|)
    ensures Gives(lex, pos, Toks(format, e), pos + |Print(format, e)|)
    decreases e, 1
  {
    match e
    case Binary(op, left, right) => LexBinary(words, lex, format, s, pos, op, left, right);
    case Unary(op, operand) => LexUnary(words, lex, format, s, pos, op, operand);
    case _ => LexLeaf(words, lex, format, s, pos, e);
  }

  lemma LexLeaf(words: Words, lex: Lexed, format: Format, s: Key, pos: nat, e: Expr)
    requires IsLexed(words, lex, s) && ReadsWords(words) && PrintsDecimals(format) && Printable(words, e) && !e.Binary? && !e.Unary?
    requires At(s, pos, Print(format, e)) && Delimited(s, pos + |Print(format, e)|)
    ensures Gives(lex, pos, Toks(format, e), pos + |Print(format, e)|)
  {
    match e
    case Ident(table, name) => LexIdent(words, lex, s, pos, table, name);
    case StringLit(v) =>
      QuotedAt(s, pos, v);
      StringAt(words, lex, s, pos, v);
    case IntLit(n) => DecimalAt(words, lex, format, s, pos, n);
    case BoolLit(b) => CapitalAt(words, lex, s, pos, if b then TRUE_TEXT else FALSE_TEXT, if b then WordTrue else WordFalse);
    case NullLit => CapitalAt(words, lex, s, pos, NULL_TEXT, WordNull);
    case Star => SymbolAt(words, lex, s, pos, 0x2A);
  }

  lemma CapitalAt(words: Words, lex: Lexed, s: Key, pos: nat, w: Key, kind: Kind)
    requires IsLexed(words, lex, s) && w != [] && (forall i | 0 <= i < |w| :: 0x41 <= w[i] <= 0x5A) && words(w) == Some(kind)
    requires At(s, pos, w) && Delimited(s, pos + |w|)
    ensures Gives(lex, pos, [Token(kind, w)], pos + |w|)
  {
    CapitalWord(w);
    WordAt(words, lex, s, pos, w);
  }

  function IdentText(table: Key, name: Key): Key { if table != [] then table + [POINT] + name else name }

  lemma LexIdent(words: Words, lex: Lexed, s: Key, pos: nat, table: Key, name: Key)
    requires IsLexed(words, lex, s) && (table == [] || IsName(words, table)) && IsName(words, name)
    requires At(s, pos, IdentText(table, name)) && Delimited(s, pos + |IdentText(table, name)|)
    ensures Gives(lex, pos, IdentToks(table, name), pos + |IdentText(table, name)|)
  {
    if table == [] {
      WordAt(words, lex, s, pos, name);
    } else {
      var dot := pos + |table|;
      AtJoin(s, pos, table + [POINT], name);
      AtJoin(s, pos, table, [POINT]);
      AtItem(s, dot, [POINT], 0);
      WordAt(words, lex, s, pos, table);
      SymbolAt(words, lex, s, dot, POINT);
      WordAt(words, lex, s, dot + 1, name);
      var a, b, c := Token(Identifier, table), Token(DotToken, [POINT]), Token(Identifier, name);
      Joined(lex, [a], [b], pos, dot, dot + 1);
      assert [a] + [b] == [a, b] && [a, b] + [c] == [a, b, c];
      Joined(lex, [a, b], [c], pos, dot + 1, dot + 1 + |name|);
    }
  }

  /** The last operand and the parenthesis behind it. */
  lemma LexLast(words: Words, lex: Lexed, format: Format, s: Key, pos: nat, e: Expr)
    requires IsLexed(words, lex, s) && ReadsWords(words) && PrintsDecimals(format) && Printable(words, e) && At(s, pos, [SPACE] + Print(format, e) + [CLOSE])
    ensures Gives(lex, pos, Toks(format, e) + [CloseToken], pos + |Print(format, e)| + 2)
    decreases e, 2
  {
    var text := Print(format, e);
    var end := pos + 1 + |text|;
    AtJoin(s, pos, [SPACE] + text, [CLOSE]);
    AtJoin(s, pos, [SPACE], text);
    AtItem(s, end, [CLOSE], 0);
    OverSpace(words, lex, s, pos);
    LexPrint(words, lex, format, s, pos + 1, e);
    SymbolAt(words, lex, s, end, CLOSE);
    Joined(lex, [], Toks(format, e), pos, pos + 1, end);
    assert [] + Toks(format, e) == Toks(format, e);
    Joined(lex, Toks(format, e), [CloseToken], pos, end, end + 1);
  }

  lemma UnaryText(format: Format, s: Key, pos: nat, op: Operator, operand: Expr)
    requires At(s, pos, Print(format, Unary(op, operand)))
    ensures |Print(format, Unary(op, operand))| == |OpText(op)| + |Print(format, operand)| + 3
    ensures At(s, pos, [OPEN]) && At(s, pos + 1, OpText(op)) && At(s, pos + 1 + |OpText(op)|, [SPACE])
    ensures At(s, pos + 1 + |OpText(op)|, [SPACE] + Print(format, operand) + [CLOSE])
  {
    FiveParts(s, pos, [OPEN], OpText(op), [SPACE], Print(format, operand), [CLOSE]);
  }

  lemma LexUnary(words: Words, lex: Lexed, format: Format, s: Key, pos: nat, op: Operator, operand: Expr)
    requires IsLexed(words, lex, s) && ReadsWords(words) && PrintsDecimals(format) && Printable(words, operand)
    requires At(s, pos, Print(format, Unary(op, operand)))
    ensures Gives(lex, pos, Toks(format, Unary(op, operand)), pos + |Print(format, Unary(op, operand))|)
    decreases operand, 3
  {
    UnaryText(format, s, pos, op, operand);
    var mid := pos + 1 + |OpText(op)|;
    LexLast(words, lex, format, s, mid, operand);
    Led(words, lex, s, pos, op, Toks(format, operand), mid + 2 + |Print(format, operand)|);
  }

  /** An opening parenthesis and an operator in front of the rest. */
  lemma Led(words: Words, lex: Lexed, s: Key, pos: nat, op: Operator, rest: seq<Token>, end: nat)
    requires IsLexed(words, lex, s) && ReadsWords(words)
    requires At(s, pos, [OPEN]) && At(s, pos + 1, OpText(op)) && At(s, pos + 1 + |OpText(op)|, [SPACE])
    requires Gives(lex, pos + 1 + |OpText(op)|, rest + [CloseToken], end)
    ensures Gives(lex, pos, [OpenToken, OpToken(op)] + rest + [CloseToken], end)
  {
    var mid := pos + 1 + |OpText(op)|;
    SymbolAt(words, lex, s, pos, OPEN);
    OpAt(words, lex, s, pos + 1, op);
    Joined(lex, [OpenToken], [OpToken(op)], pos, pos + 1, mid);
    assert [OpenToken] + [OpToken(op)] == [OpenToken, OpToken(op)];
    Joined(lex, [OpenToken, OpToken(op)], rest + [CloseToken], pos, mid, end);
    assert [OpenToken, OpToken(op)] + rest + [CloseToken] == [OpenToken, OpToken(op)] + (rest + [CloseToken]);
  }

  lemma LexBinary(words: Words, lex: Lexed, format: Format, s: Key, pos: nat, op: Operator, left: Expr, right: Expr)
    requires IsLexed(words, lex, s) && ReadsWords(words) && PrintsDecimals(format)
    requires Printable(words, left) && Printable(words, right) && At(s, pos, Print(format, Binary(op, left, right)))
    ensures Gives(lex, pos, Toks(format, Binary(op, left, right)), pos + |Print(format, Binary(op, left, right))|)
    decreases Binary(op, left, right), 0, 2
  {
    var p, q := LexOperands(words, lex, format, s, pos, op, left, right);
    Around(words, lex, s, pos, p, op, Toks(format, left), Toks(format, right), q);
  }

  /** Where the first operand ends and where the whole does. */
  lemma LexOperands(words: Words, lex: Lexed, format: Format, s: Key, pos: nat, op: Operator, left: Expr, right: Expr)
    returns (p: nat, q: nat)
    requires IsLexed(words, lex, s) && ReadsWords(words) && PrintsDecimals(format)
    requires Printable(words, left) && Printable(words, right) && At(s, pos, Print(format, Binary(op, left, right)))
    ensures q == pos + |Print(format, Binary(op, left, right))|
    ensures At(s, pos, [OPEN]) && At(s, p, [SPACE]) && At(s, p + 1, OpText(op)) && At(s, p + 1 + |OpText(op)|, [SPACE])
    ensures Gives(lex, pos + 1, Toks(format, left), p) && Gives(lex, p + 1 + |OpText(op)|, Toks(format, right) + [CloseToken], q)
    decreases Binary(op, left, right), 0, 1
  {
    p, q := BinaryText(format, s, pos, op, left, right);
    LexPair(words, lex, format, s, pos + 1, p + 1 + |OpText(op)|, op, left, right);
  }

  lemma LexPair(words: Words, lex: Lexed, format: Format, s: Key, a: nat, b: nat, op: Operator, left: Expr, right: Expr)
    requires IsLexed(words, lex, s) && ReadsWords(words) && PrintsDecimals(format)
    requires Printable(words, left) && Printable(words, right)
    requires At(s, a, Print(format, left)) && At(s, a + |Print(format, left)|, [SPACE])
    requires At(s, b, [SPACE] + Print(format, right) + [CLOSE])
    ensures Gives(lex, a, Toks(format, left), a + |Print(format, left)|)
    ensures Gives(lex, b, Toks(format, right) + [CloseToken], b + |Print(format, right)| + 2)
    decreases Binary(op, left, right), 0, 0
  {
    LexFirst(words, lex, format, s, a, left);
    LexLast(words, lex, format, s, b, right);
  }

  lemma BinaryText(format: Format, s: Key, pos: nat, op: Operator, left: Expr, right: Expr) returns (p: nat, q: nat)
    requires At(s, pos, Print(format, Binary(op, left, right)))
    ensures p == pos + 1 + |Print(format, left)| && q == p + 3 + |OpText(op)| + |Print(format, right)|
    ensures q == pos + |Print(format, Binary(op, left, right))|
    ensures At(s, pos, [OPEN]) && At(s, p, [SPACE]) && At(s, p + 1, OpText(op)) && At(s, p + 1 + |OpText(op)|, [SPACE])
    ensures At(s, pos + 1, Print(format, left)) && At(s, p + 1 + |OpText(op)|, [SPACE] + Print(format, right) + [CLOSE])
  {
    p := pos + 1 + |Print(format, left)|;
    q := p + 3 + |OpText(op)| + |Print(format, right)|;
    SevenParts(s, pos, [OPEN], Print(format, left), [SPACE], OpText(op), [SPACE], Print(format, right), [CLOSE]);
  }

  lemma LexFirst(words: Words, lex: Lexed, format: Format, s: Key, pos: nat, e: Expr)
    requires IsLexed(words, lex, s) && ReadsWords(words) && PrintsDecimals(format) && Printable(words, e)
    requires At(s, pos, Print(format, e)) && At(s, pos + |Print(format, e)|, [SPACE])
    ensures Gives(lex, pos, Toks(format, e), pos + |Print(format, e)|)
    decreases e, 2
  {
    AtItem(s, pos + |Print(format, e)|, [SPACE], 0);
    LexPrint(words, lex, format, s, pos, e);
  }

  lemma Around(words: Words, lex: Lexed, s: Key, pos: nat, a: nat, op: Operator, left: seq<Token>, right: seq<Token>, end: nat)
    requires IsLexed(words, lex, s) && ReadsWords(words)
    requires At(s, pos, [OPEN]) && At(s, a, [SPACE]) && At(s, a + 1, OpText(op)) && At(s, a + 1 + |OpText(op)|, [SPACE])
    requires Gives(lex, pos + 1, left, a) && Gives(lex, a + 1 + |OpText(op)|, right + [CloseToken], end)
    ensures Gives(lex, pos, [OpenToken] + left + [OpToken(op)] + right + [CloseToken], end)
  {
    SymbolAt(words, lex, s, pos, OPEN);
    OverSpace(words, lex, s, a);
    OpAt(words, lex, s, a + 1, op);
    FiveTokens(lex, OpenToken, left, OpToken(op), right + [CloseToken], pos, pos + 1, a, a + 1, a + 1 + |OpText(op)|, end);
    Rounded(OpenToken, left, OpToken(op), right, CloseToken);
  }

  lemma FiveTokens(lex: Lexed, a: Token, b: seq<Token>, c: Token, d: seq<Token>, p0: nat, p1: nat, p2: nat, p3: nat, p4: nat, p5: nat)
    requires Gives(lex, p0, [a], p1) && Gives(lex, p1, b, p2) && Gives(lex, p2, [], p3) && Gives(lex, p3, [c], p4)
    requires Gives(lex, p4, d, p5)
    ensures Gives(lex, p0, [a] + b + [c] + d, p5)
  {
    Joined(lex, [a], b, p0, p1, p2);
    Joined(lex, [a] + b, [], p0, p2, p3);
    assert [a] + b + [] == [a] + b;
    Joined(lex, [a] + b, [c], p0, p3, p4);
    Joined(lex, [a] + b + [c], d, p0, p4, p5);
  }

  lemma Rounded(a: Token, b: seq<Token>, c: Token, d: seq<Token>, e: Token)
    ensures [a] + b + [c] + d + [e] == [a] + b + [c] + (d + [e])
  {
  }

  lemma SevenParts<T>(s: seq<T>, pos: nat, a: seq<T>, b: seq<T>, c: seq<T>, d: seq<T>, e: seq<T>, f: seq<T>, g: seq<T>)
    requires At(s, pos, a + b + c + d + e + f + g)
    ensures At(s, pos, a) && At(s, pos + |a|, b) && At(s, pos + |a| + |b|, c) && At(s, pos + |a| + |b| + |c|, d)
    ensures At(s, pos + |a| + |b| + |c| + |d|, e + f + g) && At(s, pos + |a| + |b| + |c| + |d|, e)
  {
    Regroup(a + b + c + d, e, f, g);
    AtJoin(s, pos, a + b + c + d, e + f + g);
    AtJoin(s, pos, a + b + c, d);
    AtJoin(s, pos, a + b, c);
    AtJoin(s, pos, a, b);
    AtJoin(s, pos + |a + b + c + d|, e + f, g);
    AtJoin(s, pos + |a + b + c + d|, e, f);
  }

  lemma FiveParts<T>(s: seq<T>, pos: nat, a: seq<T>, b: seq<T>, c: seq<T>, d: seq<T>, e: seq<T>)
    requires At(s, pos, a + b + c + d + e)
    ensures At(s, pos, a) && At(s, pos + |a|, b) && At(s, pos + |a| + |b|, c) && At(s, pos + |a| + |b|, c + d + e)
    ensures At(s, pos + |a| + |b| + |c|, d) && At(s, pos + |a| + |b| + |c| + |d|, e)
  {
    Regroup(a + b, c, d, e);
    AtJoin(s, pos, a + b, c + d + e);
    AtJoin(s, pos, a, b);
    AtJoin(s, pos + |a + b|, c + d, e);
    AtJoin(s, pos + |a + b|, c, d);
  }

  lemma Regroup<T>(a: seq<T>, b: seq<T>, c: seq<T>, d: seq<T>)
    ensures a + b + c + d == a + (b + c + d)
  {
  }
}
