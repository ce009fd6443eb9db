/** Every spelling of a token is read as that token, whatever white space stands between the tokens. */
module LexSpelled {
  import opened Bytes
  import opened Engine
  import opened Lexer
  import opened PrintLex

  // ---- spellings ----

  /** Blank, tab, line feed, carriage return. */
  predicate IsBlank(b: Byte) { b == 0x20 || b == 0x09 || b == 0x0A || b == 0x0D }

  predicate AreBlanks(gap: Key) { forall i | 0 <= i < |gap| :: IsBlank(gap[i]) }

  /** The same letters, capital or not. */
  predicate SameLetters(text: Key, capitals: Key) {
    |text| == |capitals| && forall i | 0 <= i < |text| ::
      0x41 <= capitals[i] <= 0x5A && (text[i] == capitals[i] || text[i] == capitals[i] + 0x20)
  }

  predicate SpellsKeyword(words: Words, text: Key, token: Token) {
    text != [] && SameLetters(text, token.literal) && words(token.literal) == Some(token.kind)
  }

  predicate SpellsName(words: Words, text: Key, token: Token) {
    IsName(words, text) && token == Token(Identifier, text)
  }

  predicate AreDigits(s: Key) { forall i | 0 <= i < |s| :: 0x30 <= s[i] <= 0x39 }

  function Unsigned(s: Key): Key { if s != [] && s[0] == MINUS then s[1..] else s }

  predicate SpellsInteger(text: Key, token: Token) {
    Unsigned(text) != [] && AreDigits(Unsigned(text)) && token == Token(IntegerToken, text)
  }

  predicate PointAt(s: Key, n: nat) {
    0 < n < |s| && s[n] == POINT && forall i | 0 <= i < |s| && i != n :: 0x30 <= s[i] <= 0x39
  }

  /** Digits, a point, and digits or none. */
  ghost predicate SpellsFloat(text: Key, token: Token) {
    token == Token(FloatToken, text)
    && exists n :: PointAt(Unsigned(text), n)
  }

  /** In a string its quote stands twice. */
  predicate InPairs(v: Key, quote: Byte, from: nat)
    requires from <= |v|
    decreases |v| - from
  {
    if from == |v| then true
    else if v[from] != quote then InPairs(v, quote, from + 1)
    else from + 1 < |v| && v[from + 1] == quote && InPairs(v, quote, from + 2)
  }

  ghost predicate SpellsString(text: Key, token: Token) {
    exists quote: Byte :: (quote == QUOTE || quote == DOUBLE_QUOTE) && text == [quote] + token.literal + [quote]
                          && InPairs(token.literal, quote, 0) && token.kind == StringToken
  }

  /** The operators, != also as <>. */
  function OperatorsOf(kind: Kind): set<Key> {
    match kind
    case EqToken => {[0x3D]}
    case NeqToken => {[0x21, 0x3D], [0x3C, 0x3E]}
    case LtToken => {[0x3C]}
    case LteToken => {[0x3C, 0x3D]}
    case GtToken => {[0x3E]}
    case GteToken => {[0x3E, 0x3D]}
    case PlusToken => {[0x2B]}
    case MinusToken => {[0x2D]}
    case MultiplyToken => {[0x2A]}
    case DivideToken => {[0x2F]}
    case ModuloToken => {[0x25]}
    case CommaToken => {[0x2C]}
    case SemicolonToken => {[0x3B]}
    case LeftParen => {[0x28]}
    case RightParen => {[0x29]}
    case DotToken => {[0x2E]}
    case DistToken => {[0x3C, 0x2D, 0x3E]}
    case _ => {}
  }

  predicate SpellsOperator(text: Key, token: Token) {
    text in OperatorsOf(token.kind) && token.literal == text
  }

  ghost predicate Spells(words: Words, text: Key, token: Token) {
    || SpellsKeyword(words, text, token) || SpellsName(words, text, token) || SpellsInteger(text, token) || SpellsFloat(text, token)
    || SpellsString(text, token) || SpellsOperator(text, token)
  }

  // ---- one token ----

  /** The text stands there, and ends the input or is followed by white space. */
  predicate Stands(s: Key, pos: nat, text: Key) {
    At(s, pos, text) && (pos + |text| == |s| || IsBlank(s[pos + |text|]))
  }

  lemma KeywordStep(words: Words, s: Key, pos: nat, text: Key, token: Token)
    requires Stands(s, pos, text) && SpellsKeyword(words, text, token)
    ensures pos < |s| && !IsSpace(s[pos]) && NextStep(words, s, pos) == Step(token, pos + |text|)
  {
    var end := pos + |text|;
    forall i | pos <= i < end ensures IsWordByte(s[i]) && !IsDigit(s[i]) && s[i] != QUOTE && s[i] != DOUBLE_QUOTE {
      AtItem(s, pos, text, i - pos);
    }
    AtItem(s, pos, text, 0);
    AtSlice(s, pos, text);
    WordEndsAt(s, pos, end);
    assert ToUpper(text) == token.literal;
  }

  lemma NameStep(words: Words, s: Key, pos: nat, text: Key, token: Token)
    requires Stands(s, pos, text) && SpellsName(words, text, token)
    ensures pos < |s| && !IsSpace(s[pos]) && NextStep(words, s, pos) == Step(token, pos + |text|)
  {
    var end := pos + |text|;
    forall i | pos <= i < end ensures IsWordByte(s[i]) {
      AtItem(s, pos, text, i - pos);
    }
    AtItem(s, pos, text, 0);
    AtSlice(s, pos, text);
    WordEndsAt(s, pos, end);
  }

  /** Where the digits of a number begin. */
  function DigitsStart(pos: nat, text: Key): nat { if text != [] && text[0] == MINUS then pos + 1 else pos }

  lemma NumberIsNext(words: Words, s: Key, pos: nat, text: Key)
    requires At(s, pos, text) && Unsigned(text) != [] && IsDigit(Unsigned(text)[0])
    ensures pos < |s| && s[pos] == text[0] && !IsSpace(s[pos]) && NextStep(words, s, pos) == NumberStep(s, pos)
    ensures DigitsStart(pos, text) == if s[pos] == MINUS then pos + 1 else pos
  {
    AtItem(s, pos, text, 0);
    if text[0] == MINUS {
      AtItem(s, pos, text, 1);
    }
  }

  lemma UnsignedAt(s: Key, pos: nat, text: Key, i: nat)
    requires At(s, pos, text) && i < |Unsigned(text)|
    ensures s[DigitsStart(pos, text) + i] == Unsigned(text)[i] && DigitsStart(pos, text) + |Unsigned(text)| == pos + |text|
  {
    AtItem(s, pos, text, if text[0] == MINUS then i + 1 else i);
  }

  lemma IntegerStep(words: Words, s: Key, pos: nat, text: Key, token: Token)
    requires Stands(s, pos, text) && SpellsInteger(text, token)
    ensures pos < |s| && !IsSpace(s[pos]) && NextStep(words, s, pos) == Step(token, pos + |text|)
  {
    var first, end := DigitsStart(pos, text), pos + |text|;
    NumberIsNext(words, s, pos, text);
    UnsignedAt(s, pos, text, 0);
    forall i | first <= i < end ensures IsDigit(s[i]) {
      UnsignedAt(s, pos, text, i - first);
    }
    DigitsEndAt(s, first, end);
    AtSlice(s, pos, text);
  }

  lemma FloatEnds(s: Key, pos: nat, text: Key, n: nat)
    requires At(s, pos, text) && (pos + |text| < |s| ==> !IsDigit(s[pos + |text|])) && PointAt(Unsigned(text), n)
    ensures var first, end := DigitsStart(pos, text), pos + |text|;
            && first + n < end && DigitsEnd(s, first) == first + n && s[first + n] == POINT && DigitsEnd(s, first + n + 1) == end
  {
    var first, end := DigitsStart(pos, text), pos + |text|;
    UnsignedAt(s, pos, text, n);
    forall i | first <= i < end && i != first + n ensures IsDigit(s[i]) {
      UnsignedAt(s, pos, text, i - first);
    }
    DigitsEndAt(s, first, first + n);
    DigitsEndAt(s, first + n + 1, end);
  }

  lemma FloatStep(words: Words, s: Key, pos: nat, text: Key, token: Token)
    requires At(s, pos, text) && (pos + |text| < |s| ==> !IsDigit(s[pos + |text|])) && SpellsFloat(text, token)
    ensures pos < |s| && !IsSpace(s[pos]) && NextStep(words, s, pos) == Step(token, pos + |text|)
  {
    var n :| PointAt(Unsigned(text), n);
    NumberIsNext(words, s, pos, text);
    FloatEnds(s, pos, text, n);
    AtSlice(s, pos, text);
  }

  lemma {:induction false} QuoteEnds(s: Key, pos: nat, v: Key, quote: Byte, i: nat)
    requires i <= |v| && At(s, pos, v + [quote]) && Ahead(s, pos + |v| + 1) != quote && quote != 0 && InPairs(v, quote, i)
    ensures StringEnd(s, pos + i, quote) == pos + |v|
    decreases |v| - i
  {
    AtItem(s, pos, v + [quote], i);
    if i < |v| {
      AtItem(s, pos, v + [quote], i + 1);
      QuoteEnds(s, pos, v, quote, if v[i] != quote then i + 1 else i + 2);
    }
  }

  lemma StringIsStep(words: Words, s: Key, pos: nat, text: Key, token: Token)
    requires Stands(s, pos, text) && SpellsString(text, token)
    ensures pos < |s| && !IsSpace(s[pos]) && NextStep(words, s, pos) == Step(token, pos + |text|)
  {
    var v := token.literal;
    var quote: Byte :| (quote == QUOTE || quote == DOUBLE_QUOTE) && text == [quote] + v + [quote]
                       && InPairs(v, quote, 0) && token.kind == StringToken;
    assert text == [quote] + (v + [quote]);
    AtJoin(s, pos, [quote], v + [quote]);
    AtItem(s, pos, [quote], 0);
    QuoteEnds(s, pos + 1, v, quote, 0);
    AtJoin(s, pos + 1, v, [quote]);
    AtSlice(s, pos + 1, v);
  }

  lemma OperatorStep(words: Words, s: Key, pos: nat, text: Key, token: Token)
    requires Stands(s, pos, text) && SpellsOperator(text, token)
    ensures pos < |s| && !IsSpace(s[pos]) && NextStep(words, s, pos) == Step(token, pos + |text|)
  {
    AtItem(s, pos, text, 0);
    AtSlice(s, pos, text);
    if |text| > 1 {
      AtItem(s, pos, text, 1);
    }
    if |text| > 2 {
      AtItem(s, pos, text, 2);
    }
  }

  lemma SpellingIsStep(words: Words, s: Key, pos: nat, text: Key, token: Token)
    requires Stands(s, pos, text) && Spells(words, text, token)
    ensures pos < |s| && !IsSpace(s[pos]) && NextStep(words, s, pos) == Step(token, pos + |text|)
  {
    if SpellsKeyword(words, text, token) {
      KeywordStep(words, s, pos, text, token);
    } else if SpellsName(words, text, token) {
      NameStep(words, s, pos, text, token);
    } else if SpellsInteger(text, token) {
      IntegerStep(words, s, pos, text, token);
    } else if SpellsFloat(text, token) {
      FloatStep(words, s, pos, text, token);
    } else if SpellsString(text, token) {
      StringIsStep(words, s, pos, text, token);
    } else {
      OperatorStep(words, s, pos, text, token);
    }
  }

  // ---- a whole text ----

  /** A token, its spelling, and the white space in front of it. */
  datatype Item = Item(gap: Key, text: Key, token: Token)

  ghost predicate IsLaidOut(words: Words, items: seq<Item>) {
    forall i | 0 <= i < |items| :: AreBlanks(items[i].gap) && (i > 0 ==> items[i].gap != []) && Spells(words, items[i].text, items[i].token)
  }

  /** The text from item k on, with the white space at the end. */
  function Laid(items: seq<Item>, tail: Key, k: nat): Key
    requires k <= |items|
    decreases |items| - k
  {
    if k == |items| then tail else items[k].gap + items[k].text + Laid(items, tail, k + 1)
  }

  function TokensOf(items: seq<Item>): seq<Token> {
    seq(|items|, i requires 0 <= i < |items| => items[i].token) + [Token(EndOfInput, [])]
  }

  lemma {:induction false} BlanksSkipped(s: Key, pos: nat, end: nat)
    requires pos <= end <= |s| && (forall i | pos <= i < end :: IsBlank(s[i])) && (end < |s| ==> !IsBlank(s[end]))
    ensures SpaceEnd(s, pos) == end
    decreases end - pos
  {
    if pos < end {
      BlanksSkipped(s, pos + 1, end);
    }
  }

  /** What follows a token begins with white space, if it is not empty. */
  lemma NextIsBlank(words: Words, items: seq<Item>, tail: Key, k: nat)
    requires IsLaidOut(words, items) && 0 < k <= |items| && AreBlanks(tail)
    ensures var rest := Laid(items, tail, k); rest == [] || IsBlank(rest[0])
  {
  }

  lemma ItemParts(s: Key, pos: nat, gap: Key, text: Key, rest: Key)
    requires pos <= |s| && s[pos..] == gap + text + rest && (rest == [] || IsBlank(rest[0]))
    ensures At(s, pos, gap) && Stands(s, pos + |gap|, text) && s[pos + |gap| + |text|..] == rest
  {
    AtTail(s, pos, gap + text + rest);
    AtJoin(s, pos, gap + text, rest);
    AtJoin(s, pos, gap, text);
    AtRest(s, pos, gap + text, rest);
    if rest != [] {
      AtItem(s, pos + |gap| + |text|, rest, 0);
    }
  }

  /** White space, and one token behind it. */
  lemma OneItem(words: Words, lex: Lexed, s: Key, pos: nat, item: Item, rest: Key)
    requires IsLexed(words, lex, s) && pos <= |s| && s[pos..] == item.gap + item.text + rest && (rest == [] || IsBlank(rest[0]))
    requires AreBlanks(item.gap) && Spells(words, item.text, item.token)
    ensures var end := pos + |item.gap| + |item.text|; end <= |s| && s[end..] == rest && Gives(lex, pos, [item.token], end)
  {
    var p := pos + |item.gap|;
    ItemParts(s, pos, item.gap, item.text, rest);
    SpellingIsStep(words, s, p, item.text, item.token);
    GapSkipped(s, pos, item.gap);
    StepGives(words, lex, s, pos, p, item.token, p + |item.text|);
  }

  lemma GapSkipped(s: Key, pos: nat, gap: Key)
    requires At(s, pos, gap) && AreBlanks(gap) && (pos + |gap| < |s| ==> !IsSpace(s[pos + |gap|]))
    ensures SpaceEnd(s, pos) == pos + |gap|
  {
    forall i | pos <= i < pos + |gap| ensures IsBlank(s[i]) {
      AtItem(s, pos, gap, i - pos);
    }
    BlanksSkipped(s, pos, pos + |gap|);
  }

  lemma StepGives(words: Words, lex: Lexed, s: Key, pos: nat, p: nat, token: Token, end: nat)
    requires IsLexed(words, lex, s) && pos <= |s| && SpaceEnd(s, pos) == p < |s| && NextStep(words, s, p) == Step(token, end)
    ensures Gives(lex, pos, [token], end)
  {
    assert Lex(words, s, pos) == Before([token], Lex(words, s, end));
  }

  lemma OnlyBlanks(words: Words, lex: Lexed, s: Key, pos: nat)
    requires IsLexed(words, lex, s) && pos <= |s| && AreBlanks(s[pos..])
    ensures lex(pos) == Some([Token(EndOfInput, [])])
  {
    forall i | pos <= i < |s| ensures IsBlank(s[i]) {
      assert s[i] == s[pos..][i - pos];
    }
    BlanksSkipped(s, pos, |s|);
    assert Lex(words, s, pos) == Some([Token(EndOfInput, [])]);
  }

  lemma Prepended(lex: Lexed, pos: nat, end: nat, toks: seq<Token>, k: nat)
    requires k < |toks| && Gives(lex, pos, [toks[k]], end) && lex(end) == Some(toks[k + 1..])
    ensures lex(pos) == Some(toks[k..])
  {
    assert [toks[k]] + toks[k + 1..] == toks[k..];
  }

  lemma {:induction false} LexesFrom(words: Words, lex: Lexed, s: Key, pos: nat, items: seq<Item>, tail: Key, k: nat)
    requires IsLexed(words, lex, s) && IsLaidOut(words, items) && AreBlanks(tail) && pos <= |s| && k <= |items|
    requires s[pos..] == Laid(items, tail, k)
    ensures lex(pos) == Some(TokensOf(items)[k..])
    decreases |items| - k
  {
    var toks := TokensOf(items);
    if k == |items| {
      OnlyBlanks(words, lex, s, pos);
    } else {
      var end := pos + |items[k].gap| + |items[k].text|;
      NextIsBlank(words, items, tail, k + 1);
      OneItem(words, lex, s, pos, items[k], Laid(items, tail, k + 1));
      LexesFrom(words, lex, s, end, items, tail, k + 1);
      Prepended(lex, pos, end, toks, k);
    }
  }

  lemma AtTail(s: Key, pos: nat, text: Key)
    requires pos <= |s| && s[pos..] == text
    ensures At(s, pos, text)
  {
    forall i | 0 <= i < |text| ensures s[pos + i] == text[i] {
      assert s[pos..][i] == text[i];
    }
  }

  lemma AtRest(s: Key, pos: nat, front: Key, rest: Key)
    requires pos <= |s| && s[pos..] == front + rest
    ensures s[pos + |front|..] == rest
  {
    assert s[pos..][|front|..] == rest;
  }

  /** Whatever the layout and the letters of keywords, the lexer finds the tokens that are spelt. */
  lemma SpelledTextIsLexed(words: Words, items: seq<Item>, tail: Key)
    requires IsLaidOut(words, items) && AreBlanks(tail)
    ensures Lex(words, Laid(items, tail, 0), 0) == Some(TokensOf(items))
  {
    var s := Laid(items, tail, 0);
    var lex: Lexed := (p: nat) => if p <= |s| then Lex(words, s, p) else None;
    assert s[0..] == s;
    LexesFrom(words, lex, s, 0, items, tail, 0);
    assert lex(0) == Lex(words, s, 0) && TokensOf(items)[0..] == TokensOf(items);
  }
}
