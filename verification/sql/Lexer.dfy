/** The SQL lexer (internal/query/sql/lexer.go).  Token positions serve messages only and are left out. */
module Lexer {
  import opened Bytes
  import opened Engine

  // Word stands for every keyword that expressions do not use.
  datatype Kind =
    | EndOfInput | Illegal
    | Identifier | StringToken | IntegerToken | FloatToken
    | WordAnd | WordOr | WordNot | WordIn | WordIs | WordNull | WordTrue | WordFalse | WordLike | WordBetween
    | WordSelect | WordMatch | WordAggregate | Word
    | EqToken | NeqToken | LtToken | LteToken | GtToken | GteToken
    | PlusToken | MinusToken | MultiplyToken | DivideToken | ModuloToken
    | CommaToken | SemicolonToken | LeftParen | RightParen | DotToken
    | DistToken

  datatype Token = Token(kind: Kind, literal: Key)

  // ---- characters ----

  const QUOTE: Byte := 0x27
  const DOUBLE_QUOTE: Byte := 0x22
  const SPACE: Byte := 0x20
  const MINUS: Byte := 0x2D
  const POINT: Byte := 0x2E
  const UNDERSCORE: Byte := 0x5F

  predicate IsSpace(b: Byte) { b == 0x20 || b == 0x09 || b == 0x0A || b == 0x0D }

  predicate IsDigit(b: Byte) { 0x30 <= b <= 0x39 }

  predicate IsAlpha(b: Byte) { 0x61 <= b <= 0x7A || 0x41 <= b <= 0x5A }

  predicate IsWordByte(b: Byte) { IsAlpha(b) || IsDigit(b) || b == UNDERSCORE }

  function Upper(b: Byte): Byte { if 0x61 <= b <= 0x7A then b - 0x20 else b }

  function ToUpper(s: Key): (t: Key)
    ensures |t| == |s| && forall i | 0 <= i < |s| :: t[i] == Upper(s[i])
  {
    seq(|s|, i requires 0 <= i < |s| => Upper(s[i]))
  }

  // ---- words ----

  /** The kind of a word in upper case; None when it is not a keyword.  Keywords.dfy holds the program's table. */
  type Words = Key -> Option<Kind>

  function WordToken(words: Words, literal: Key): Token {
    match words(ToUpper(literal))
    case Some(kind) => Token(kind, ToUpper(literal))
    case None => Token(Identifier, literal)
  }

  // ---- the next token, from a position in the input ----

  function DigitsEnd(s: Key, from: nat): (end: nat)
    requires from <= |s|
    ensures from <= end <= |s|
    decreases |s| - from
  {
    if from < |s| && IsDigit(s[from]) then DigitsEnd(s, from + 1) else from
  }

  function WordEnd(s: Key, from: nat): (end: nat)
    requires from <= |s|
    ensures from <= end <= |s|
    decreases |s| - from
  {
    if from < |s| && IsWordByte(s[from]) then WordEnd(s, from + 1) else from
  }

  function SpaceEnd(s: Key, from: nat): (end: nat)
    requires from <= |s|
    ensures from <= end <= |s| && (end < |s| ==> !IsSpace(s[end]))
    decreases |s| - from
  {
    if from < |s| && IsSpace(s[from]) then SpaceEnd(s, from + 1) else from
  }

  /** The quote that closes a string: one that is not doubled.  |s| when there is none. */
  function StringEnd(s: Key, from: nat, quote: Byte): (end: nat)
    requires from <= |s| && quote != 0
    ensures from <= end <= |s| && (end < |s| ==> s[end] == quote)
    decreases |s| - from
  {
    if from == |s| then from
    else if s[from] != quote then StringEnd(s, from + 1, quote)
    else if Ahead(s, from + 1) == quote then StringEnd(s, from + 2, quote)
    else from
  }

  datatype Step = Unterminated | Step(token: Token, end: nat)

  function NumberStep(s: Key, from: nat): (step: Step)
    requires from < |s|
    ensures step.Step? && from <= step.end <= |s|
    ensures IsDigit(s[from]) || s[from] == MINUS ==> from < step.end
  {
    var whole := DigitsEnd(s, if s[from] == MINUS then from + 1 else from);
    if whole < |s| && s[whole] == POINT then
      var end := DigitsEnd(s, whole + 1);
      Step(Token(FloatToken, s[from..end]), end)
    else
      Step(Token(IntegerToken, s[from..whole]), whole)
  }

  function OperatorKind(b: Byte): Kind {
    if b == 0x3D then EqToken
    else if b == 0x3C then LtToken
    else if b == 0x3E then GtToken
    else if b == 0x2B then PlusToken
    else if b == 0x2D then MinusToken
    else if b == 0x2A then MultiplyToken
    else if b == 0x2F then DivideToken
    else if b == 0x25 then ModuloToken
    else if b == 0x2C then CommaToken
    else if b == 0x3B then SemicolonToken
    else if b == 0x28 then LeftParen
    else if b == 0x29 then RightParen
    else if b == 0x2E then DotToken
    else Illegal
  }

  /** The byte at a position, 0 past the end. */
  function Ahead(s: Key, at: nat): Byte {
    if at < |s| then s[at] else 0
  }

  function Symbol(kind: Kind, s: Key, from: nat, end: nat): (step: Step)
    requires from <= end <= |s|
  {
    Step(Token(kind, s[from..end]), end)
  }

  /** Operators and negative numbers. */
  function SymbolStep(s: Key, from: nat): (step: Step)
    requires from < |s|
    ensures step.Step? && from < step.end <= |s|
  {
    var ch := s[from];
    if ch == 0x3C && Ahead(s, from + 1) == MINUS && Ahead(s, from + 2) == 0x3E then Symbol(DistToken, s, from, from + 3)
    else if ch == 0x3C && Ahead(s, from + 1) == 0x3E then Symbol(NeqToken, s, from, from + 2)
    else if ch == 0x3C && Ahead(s, from + 1) == 0x3D then Symbol(LteToken, s, from, from + 2)
    else if ch == 0x3E && Ahead(s, from + 1) == 0x3D then Symbol(GteToken, s, from, from + 2)
    else if ch == 0x21 && Ahead(s, from + 1) == 0x3D then Symbol(NeqToken, s, from, from + 2)
    else if ch == MINUS && from + 1 < |s| && IsDigit(s[from + 1]) then NumberStep(s, from)
    else Symbol(OperatorKind(ch), s, from, from + 1)
  }

  function NextStep(words: Words, s: Key, from: nat): (step: Step)
    requires from < |s|
    ensures step.Step? ==> from < step.end <= |s|
  {
    var ch := s[from];
    if ch == QUOTE || ch == DOUBLE_QUOTE then
      var end := StringEnd(s, from + 1, ch);
      if end == |s| then Unterminated else Step(Token(StringToken, s[from + 1..end]), end + 1)
    else if IsDigit(ch) then NumberStep(s, from)
    else if IsAlpha(ch) || ch == UNDERSCORE then
      var end := WordEnd(s, from);
      Step(WordToken(words, s[from..end]), end)
    else SymbolStep(s, from)
  }

  function Before(tokens: seq<Token>, lexed: Option<seq<Token>>): Option<seq<Token>> {
    if lexed.None? then None else Some(tokens + lexed.value)
  }

  /** The tokens from a position on, None for an unterminated string.  Every step takes at least one byte. */
  function Lex(words: Words, s: Key, from: nat): Option<seq<Token>>
    requires from <= |s|
    decreases |s| - from
  {
    var start := SpaceEnd(s, from);
    if start == |s| then Some([Token(EndOfInput, [])])
    else
      match NextStep(words, s, start)
      case Unterminated => None
      case Step(token, end) => Before([token], Lex(words, s, end))
  }

  /** TrimSpace, for ASCII white space. */
  predicate IsTrimmed(b: Byte) { IsSpace(b) || b == 0x0B || b == 0x0C }

  function TrimRight(s: Key): Key {
    if s != [] && IsTrimmed(s[|s| - 1]) then TrimRight(s[..|s| - 1]) else s
  }

  function TrimLeft(s: Key): Key {
    if s != [] && IsTrimmed(s[0]) then TrimLeft(s[1..]) else s
  }

  function TrimSpace(s: Key): Key { TrimLeft(TrimRight(s)) }

  // ---- the lexer ----

  class Scanner {
    const words: Words
    const input: Key
    var pos: nat
    var start: nat
    var tokens: seq<Token>

    constructor (words: Words, text: Key)
      ensures this.words == words && input == TrimSpace(text) && pos == 0 && start == 0 && tokens == []
    {
      this.words, input := words, TrimSpace(text);
      pos, start, tokens := 0, 0, [];
    }

    /** The tokens so far, and what the rest of the input holds. */
    ghost function Whole(): Option<seq<Token>>
      requires pos <= |input|
      reads this
    {
      Before(tokens, Lex(words, input, pos))
    }

    method Tokenize() returns (result: Option<seq<Token>>)
      requires pos == 0 && tokens == []
      modifies this
      ensures result == Lex(words, input, 0)
    {
      NothingBefore(Lex(words, input, 0));
      while true
        invariant pos <= |input| && Whole() == Lex(words, input, 0)
        decreases |input| - pos
      {
        ghost var from := pos;
        SkipWhitespace();
        ghost var at, before := pos, tokens;
        Skipped(words, input, from, before);
        if pos >= |input| {
          Emit(EndOfInput);
          assert input[start..pos] == [];
          return Some(tokens);
        }
        var ok := ReadToken();
        Unfolded(words, input, at, before, tokens);
        if !ok {
          return None;
        }
      }
    }

    /** The switch of Tokenize. */
    method ReadToken() returns (ok: bool)
      requires start == pos < |input|
      modifies `pos, `start, `tokens
      ensures var step := NextStep(words, input, old(pos));
              && (ok <==> step.Step?)
              && (ok ==> pos == step.end && tokens == old(tokens) + [step.token])
    {
      ok := true;
      var ch := input[pos];
      if ch == QUOTE || ch == DOUBLE_QUOTE {
        ok := ReadString();
      } else if IsDigit(ch) {
        ReadNumber();
      } else if IsAlpha(ch) || ch == UNDERSCORE {
        ReadIdent();
      } else {
        ReadSymbol();
      }
    }

    method ReadSymbol()
      requires start == pos < |input|
      modifies `pos, `start, `tokens
      ensures pos == SymbolStep(input, old(pos)).end
      ensures tokens == old(tokens) + [SymbolStep(input, old(pos)).token]
    {
      var ch := input[pos];
      if ch == 0x3C && Peek(1) == MINUS && Peek(2) == 0x3E {
        pos := pos + 3;
        Emit(DistToken);
      } else if ch == 0x3C && Peek(1) == 0x3E {
        pos := pos + 2;
        Emit(NeqToken);
      } else if ch == 0x3C && Peek(1) == 0x3D {
        pos := pos + 2;
        Emit(LteToken);
      } else if ch == 0x3E && Peek(1) == 0x3D {
        pos := pos + 2;
        Emit(GteToken);
      } else if ch == 0x21 && Peek(1) == 0x3D {
        pos := pos + 2;
        Emit(NeqToken);
      } else if ch == MINUS && pos + 1 < |input| && IsDigit(input[pos + 1]) {
        ReadNumber();
      } else {
        pos := pos + 1;
        Emit(OperatorKind(ch));
      }
    }

    function Peek(offset: nat): Byte
      reads this
    {
      Ahead(input, pos + offset)
    }

    method SkipWhitespace()
      requires pos <= |input|
      modifies `pos, `start
      ensures pos == start == SpaceEnd(input, old(pos))
    {
      while pos < |input| && IsSpace(input[pos])
        invariant pos <= |input| && SpaceEnd(input, pos) == SpaceEnd(input, old(pos))
      {
        pos := pos + 1;
      }
      start := pos;
    }

    method Emit(kind: Kind)
      requires start <= pos <= |input|
      modifies `tokens
      ensures tokens == old(tokens) + [Token(kind, input[start..pos])]
    {
      tokens := tokens + [Token(kind, input[start..pos])];
    }

    method ReadString() returns (ok: bool)
      requires pos < |input| && (input[pos] == QUOTE || input[pos] == DOUBLE_QUOTE)
      modifies `pos, `tokens, `start
      ensures var end := StringEnd(input, old(pos) + 1, input[old(pos)]);
              if end == |input| then !ok
              else ok && pos == end + 1 && tokens == old(tokens) + [Token(StringToken, input[old(pos) + 1..end])]
    {
      var quote := input[pos];
      pos := pos + 1;
      var from := pos;
      while pos < |input|
        invariant from <= pos <= |input| && tokens == old(tokens)
        invariant StringEnd(input, pos, quote) == StringEnd(input, from, quote)
      {
        if input[pos] == quote {
          if pos + 1 < |input| && input[pos + 1] == quote {
            pos := pos + 2;
            continue;
          }
          tokens := tokens + [Token(StringToken, input[from..pos])];
          pos := pos + 1;
          start := pos;
          return true;
        }
        pos := pos + 1;
      }
      return false;
    }

    method ReadNumber()
      requires pos < |input|
      modifies `pos, `tokens, `start
      ensures pos == NumberStep(input, old(pos)).end
      ensures tokens == old(tokens) + [NumberStep(input, old(pos)).token]
    {
      var from := pos;
      var isFloat := false;
      if input[pos] == MINUS {
        pos := pos + 1;
      }
      ReadDigits();
      if pos < |input| && input[pos] == POINT {
        isFloat := true;
        pos := pos + 1;
        ReadDigits();
      }
      tokens := tokens + [Token(if isFloat then FloatToken else IntegerToken, input[from..pos])];
      start := pos;
    }

    method ReadDigits()
      requires pos <= |input|
      modifies `pos
      ensures pos == DigitsEnd(input, old(pos))
    {
      while pos < |input| && IsDigit(input[pos])
        invariant pos <= |input| && DigitsEnd(input, pos) == DigitsEnd(input, old(pos))
      {
        pos := pos + 1;
      }
    }

    method ReadIdent()
      requires pos < |input|
      modifies `pos, `tokens, `start
      ensures pos == WordEnd(input, old(pos))
      ensures tokens == old(tokens) + [WordToken(words, input[old(pos)..WordEnd(input, old(pos))])]
    {
      var from := pos;
      while pos < |input| && IsWordByte(input[pos])
        invariant from <= pos <= |input| && tokens == old(tokens)
        invariant WordEnd(input, pos) == WordEnd(input, from)
      {
        pos := pos + 1;
      }
      tokens := tokens + [WordToken(words, input[from..pos])];
      start := pos;
    }
  }

  lemma NothingBefore(lexed: Option<seq<Token>>)
    ensures Before([], lexed) == lexed
  {
    if lexed.Some? {
      assert [] + lexed.value == lexed.value;
    }
  }

  lemma Skipped(words: Words, s: Key, from: nat, tokens: seq<Token>)
    requires from <= |s|
    ensures var at := SpaceEnd(s, from);
            Before(tokens, Lex(words, s, from)) ==
              if at == |s| then Some(tokens + [Token(EndOfInput, [])]) else Before(tokens, Lex(words, s, at))
  {
  }

  /** One more token in hand, and the rest still to come. */
  lemma Unfolded(words: Words, s: Key, from: nat, before: seq<Token>, tokens: seq<Token>)
    requires from < |s| && !IsSpace(s[from])
    requires var step := NextStep(words, s, from); step.Step? ==> tokens == before + [step.token]
    ensures var step := NextStep(words, s, from);
            Before(before, Lex(words, s, from)) == if step.Unterminated? then None else Before(tokens, Lex(words, s, step.end))
  {
    var step := NextStep(words, s, from);
    if step.Step? {
      BeforeBefore(before, [step.token], Lex(words, s, step.end));
    }
  }

  lemma BeforeBefore(a: seq<Token>, b: seq<Token>, lexed: Option<seq<Token>>)
    ensures Before(a, Before(b, lexed)) == Before(a + b, lexed)
  {
    if lexed.Some? {
      assert a + (b + lexed.value) == a + b + lexed.value;
    }
  }
}
