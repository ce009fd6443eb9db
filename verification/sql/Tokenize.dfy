/** Cutting text into the terms of an inverted index (internal/query/sql/index/tokenize.go). */
module Tokenize {
  import opened Engine

  // A Unicode scalar value.
  type Rune = r: nat | r < 0xD800 || 0xE000 <= r < 0x11_0000

  type Word = seq<Rune>

  // Unicode above ASCII: what isCJKWord accepts, what is punctuation or a symbol, and lower case.
  datatype Unicode = Unicode(isWord: Rune -> bool, isMark: Rune -> bool, lower: Rune -> Rune)

  datatype Kind = AsciiWord | CjkWord | Other

  predicate IsAlphaNum(r: Rune) { 0x30 <= r <= 0x39 || 0x41 <= r <= 0x5A || 0x61 <= r <= 0x7A }

  function KindOf(u: Unicode, r: Rune): Kind {
    if r <= 127 then (if IsAlphaNum(r) || r == 0x5F then AsciiWord else Other)
    else if u.isWord(r) then CjkWord
    else Other
  }

  function Lower(r: Rune): Rune { if 0x41 <= r <= 0x5A then r + 0x20 else r }

  function LowerAll(w: Word): (l: Word)
    ensures |l| == |w| && forall i {:trigger l[i]} | 0 <= i < |w| :: l[i] == Lower(w[i])
  {
    seq(|w|, i requires 0 <= i < |w| => Lower(w[i]))
  }

  predicate IsMark(u: Unicode, r: Rune) {
    if r <= 127 then 0x20 <= r <= 0x7E && !IsAlphaNum(r) else u.isMark(r)
  }

  /** What emit makes of a word: nothing of pure punctuation.  Words hold no white space to trim. */
  function Normal(u: Unicode, w: Word): Option<Word> {
    if forall i | 0 <= i < |w| :: IsMark(u, w[i]) then None
    else if forall i | 0 <= i < |w| :: w[i] <= 127 then Some(LowerAll(w))
    else Some(w)
  }

  function Emitted(u: Unicode, tokens: seq<Word>, w: Word): seq<Word> {
    match Normal(u, w)
    case None => tokens
    case Some(t) => if t in tokens then tokens else tokens + [t]
  }

  function EmittedAll(u: Unicode, tokens: seq<Word>, words: seq<Word>): seq<Word> {
    if words == [] then tokens else Emitted(u, EmittedAll(u, tokens, words[..|words| - 1]), words[|words| - 1])
  }

  // ---- runs ----

  function Pairs(run: Word): (ws: seq<Word>)
    ensures |ws| == if run == [] then 0 else |run| - 1
    ensures forall i {:trigger ws[i]} | 0 <= i < |ws| :: ws[i] == [run[i], run[i + 1]]
  {
    if run == [] then [] else seq(|run| - 1, i requires 0 <= i < |run| - 1 => [run[i], run[i + 1]])
  }

  function Singles(run: Word): (ws: seq<Word>)
    ensures |ws| == |run| && forall i {:trigger ws[i]} | 0 <= i < |run| :: ws[i] == [run[i]]
  {
    seq(|run|, i requires 0 <= i < |run| => [run[i]])
  }

  function CjkWords(run: Word): seq<Word> { Pairs(run) + Singles(run) }

  function AsciiWords(run: Word): seq<Word> { if run == [] then [] else [run] }

  /** The words of one run of characters of the same kind. */
  function RunWords(u: Unicode, run: Word): seq<Word> {
    if run == [] then []
    else
      match KindOf(u, run[0])
      case AsciiWord => [LowerAll(run)]
      case CjkWord => CjkWords(run)
      case Other => []
  }

  /** The words of the text, when the run that has reached i began at from. */
  function Words(u: Unicode, text: Word, from: nat, i: nat): seq<Word>
    requires from <= i <= |text|
    decreases |text| - i, i - from
  {
    if i < |text| && (from == i || KindOf(u, text[i]) == KindOf(u, text[from])) then Words(u, text, from, i + 1)
    else if from == i then []
    else RunWords(u, text[from..i]) + Words(u, text, i, i)
  }

  function Tokens(u: Unicode, text: Word): seq<Word> { EmittedAll(u, [], Words(u, text, 0, 0)) }

  lemma {:induction false} EmittedJoin(u: Unicode, tokens: seq<Word>, a: seq<Word>, b: seq<Word>)
    ensures EmittedAll(u, tokens, a + b) == EmittedAll(u, EmittedAll(u, tokens, a), b)
    decreases |b|
  {
    if b == [] {
      assert a + b == a;
    } else {
      assert (a + b)[..|a + b| - 1] == a + b[..|b| - 1];
      EmittedJoin(u, tokens, a, b[..|b| - 1]);
    }
  }

  // ---- the tokenizer ----

  method Emit(u: Unicode, tokens: seq<Word>, w: Word) returns (more: seq<Word>)
    ensures more == Emitted(u, tokens, w)
  {
    if w == [] || forall i | 0 <= i < |w| :: IsMark(u, w[i]) {
      return tokens;
    }
    var word := w;
    if forall i | 0 <= i < |w| :: w[i] <= 127 {
      word := LowerAll(w);
    }
    more := if word in tokens then tokens else tokens + [word];
  }

  method EmitAll(u: Unicode, tokens: seq<Word>, words: seq<Word>) returns (more: seq<Word>)
    ensures more == EmittedAll(u, tokens, words)
  {
    more := tokens;
    for i := 0 to |words|
      invariant more == EmittedAll(u, tokens, words[..i])
    {
      assert words[..i + 1][..i] == words[..i];
      more := Emit(u, more, words[i]);
    }
    assert words[..|words|] == words;
  }

  /** First every two neighbours, then every character. */
  method TokenizeCJK(u: Unicode, tokens: seq<Word>, runes: Word) returns (more: seq<Word>)
    ensures more == EmittedAll(u, tokens, CjkWords(runes))
  {
    EmittedJoin(u, tokens, Pairs(runes), Singles(runes));
    more := EmitAll(u, tokens, Pairs(runes));
    more := EmitAll(u, more, Singles(runes));
  }

  /** The buffers hold the run that is still open. */
  ghost predicate Buffered(u: Unicode, run: Word, ascii: Word, cjk: Word) {
    && ascii == (if run != [] && KindOf(u, run[0]) == AsciiWord then LowerAll(run) else [])
    && cjk == (if run != [] && KindOf(u, run[0]) == CjkWord then run else [])
  }

  /** What flushing the buffers emits is what the open run amounts to. */
  lemma BufferWords(u: Unicode, run: Word, ascii: Word, cjk: Word)
    requires Buffered(u, run, ascii, cjk)
    ensures AsciiWords(ascii) + CjkWords(cjk) == RunWords(u, run)
    ensures ascii == [] || cjk == []
  {
  }

  lemma BufferGrows(u: Unicode, run: Word, ascii: Word, cjk: Word, r: Rune)
    requires Buffered(u, run, ascii, cjk) && (run == [] || KindOf(u, run[0]) == KindOf(u, r))
    ensures Buffered(u, run + [r], if KindOf(u, r) == AsciiWord then ascii + [Lower(r)] else [],
                     if KindOf(u, r) == CjkWord then cjk + [r] else [])
  {
    assert LowerAll(run + [r]) == LowerAll(run) + [Lower(r)];
    assert (run + [r])[0] == if run == [] then r else run[0];
    if run == [] {
      assert LowerAll(run) == [];
    }
  }

  lemma BufferStarts(u: Unicode, r: Rune)
    ensures Buffered(u, [r], if KindOf(u, r) == AsciiWord then [Lower(r)] else [], if KindOf(u, r) == CjkWord then [r] else [])
  {
    assert LowerAll([r]) == [Lower(r)];
  }

  lemma Turns(u: Unicode, text: Word, from: nat, i: nat, tokens: seq<Word>)
    requires from <= i < |text|
    ensures var goes := from == i || KindOf(u, text[from]) == KindOf(u, text[i]);
            EmittedAll(u, tokens, Words(u, text, from, i)) ==
              if goes then EmittedAll(u, tokens, Words(u, text, from, i + 1))
              else EmittedAll(u, EmittedAll(u, tokens, RunWords(u, text[from..i])), Words(u, text, i, i + 1))
  {
    if from < i && KindOf(u, text[from]) != KindOf(u, text[i]) {
      EmittedJoin(u, tokens, RunWords(u, text[from..i]), Words(u, text, i, i));
    }
  }

  lemma LastRun(u: Unicode, text: Word, from: nat, tokens: seq<Word>, ascii: Word, cjk: Word)
    requires from <= |text| && Buffered(u, text[from..|text|], ascii, cjk)
    ensures EmittedAll(u, tokens, Words(u, text, from, |text|)) ==
            EmittedAll(u, EmittedAll(u, tokens, AsciiWords(ascii)), CjkWords(cjk))
  {
    var run := text[from..|text|];
    BufferWords(u, run, ascii, cjk);
    EmittedJoin(u, tokens, AsciiWords(ascii), CjkWords(cjk));
    assert Words(u, text, |text|, |text|) == [];
    assert Words(u, text, from, |text|) == RunWords(u, run) by {
      if from < |text| {
        assert RunWords(u, run) + [] == RunWords(u, run);
      }
    }
  }

  method FlushASCII(u: Unicode, tokens: seq<Word>, ascii: Word) returns (more: seq<Word>)
    ensures more == EmittedAll(u, tokens, AsciiWords(ascii))
  {
    more := tokens;
    if ascii != [] {
      assert [ascii][..0] == [];
      more := Emit(u, tokens, ascii);
    }
  }

  method FlushCJK(u: Unicode, tokens: seq<Word>, cjk: Word) returns (more: seq<Word>)
    ensures more == EmittedAll(u, tokens, CjkWords(cjk))
  {
    more := tokens;
    if cjk != [] {
      more := TokenizeCJK(u, tokens, cjk);
    }
  }

  /** One character: the other kinds' buffers are flushed, its own grows. */
  method Take(u: Unicode, tokens: seq<Word>, ascii: Word, cjk: Word, r: Rune) returns (tokens': seq<Word>, ascii': Word, cjk': Word)
    ensures tokens' == TokensAfter(u, tokens, ascii, cjk, r)
    ensures ascii' == if KindOf(u, r) == AsciiWord then ascii + [Lower(r)] else []
    ensures cjk' == if KindOf(u, r) == CjkWord then cjk + [r] else []
  {
    tokens', ascii', cjk' := tokens, ascii, cjk;
    match KindOf(u, r) {
      case AsciiWord =>
        tokens' := FlushCJK(u, tokens, cjk);
        cjk' := [];
        ascii' := ascii + [Lower(r)];
      case CjkWord =>
        tokens' := FlushASCII(u, tokens, ascii);
        ascii' := [];
        cjk' := cjk + [r];
      case Other =>
        tokens' := FlushASCII(u, tokens, ascii);
        tokens' := FlushCJK(u, tokens', cjk);
        ascii', cjk' := [], [];
    }
  }

  function TokensAfter(u: Unicode, tokens: seq<Word>, ascii: Word, cjk: Word, r: Rune): seq<Word> {
    match KindOf(u, r)
    case AsciiWord => EmittedAll(u, tokens, CjkWords(cjk))
    case CjkWord => EmittedAll(u, tokens, AsciiWords(ascii))
    case Other => EmittedAll(u, EmittedAll(u, tokens, AsciiWords(ascii)), CjkWords(cjk))
  }

  /** A character of another kind closes the run, and nothing else is emitted. */
  lemma AfterMeans(u: Unicode, tokens: seq<Word>, ascii: Word, cjk: Word, r: Rune, run: Word)
    requires Buffered(u, run, ascii, cjk)
    ensures TokensAfter(u, tokens, ascii, cjk, r) ==
            if run == [] || KindOf(u, run[0]) == KindOf(u, r) then tokens else EmittedAll(u, tokens, RunWords(u, run))
  {
    assert CjkWords([]) == [];
    assert run != [] && KindOf(u, run[0]) == AsciiWord ==> RunWords(u, run) == AsciiWords(ascii);
    assert EmittedAll(u, tokens, []) == tokens;
  }

  /** The buffers hold the run from one position to another. */
  ghost predicate Holds(u: Unicode, text: Word, from: nat, i: nat, ascii: Word, cjk: Word) {
    from <= i <= |text| && (i > 0 ==> from < i) && Buffered(u, text[from..i], ascii, cjk)
  }

  /** The tokens so far and the words still to come make up all tokens. */
  ghost predicate Comes(u: Unicode, text: Word, from: nat, i: nat, tokens: seq<Word>) {
    from <= i <= |text| && EmittedAll(u, tokens, Words(u, text, from, i)) == Tokens(u, text)
  }

  function NextFrom(u: Unicode, text: Word, from: nat, i: nat): nat
    requires from <= i < |text|
  {
    if from < i && KindOf(u, text[from]) != KindOf(u, text[i]) then i else from
  }

  lemma HoldsNext(u: Unicode, text: Word, from: nat, i: nat, ascii: Word, cjk: Word, r: Rune)
    requires i < |text| && r == text[i] && Holds(u, text, from, i, ascii, cjk)
    ensures from <= i
    ensures Holds(u, text, NextFrom(u, text, from, i), i + 1, if KindOf(u, r) == AsciiWord then ascii + [Lower(r)] else [],
                  if KindOf(u, r) == CjkWord then cjk + [r] else [])
  {
    var run, next := text[from..i], NextFrom(u, text, from, i);
    RunNext(u, text, from, i);
    if next == from {
      BufferGrows(u, run, ascii, cjk, r);
    } else {
      BufferChanges(u, run, ascii, cjk, r);
    }
  }

  lemma RunNext(u: Unicode, text: Word, from: nat, i: nat)
    requires from <= i < |text|
    ensures var run := text[from..i];
            if NextFrom(u, text, from, i) == from then
              text[from..i + 1] == run + [text[i]] && (run == [] || KindOf(u, run[0]) == KindOf(u, text[i]))
            else text[i..i + 1] == [text[i]] && run != [] && KindOf(u, run[0]) != KindOf(u, text[i]) && NextFrom(u, text, from, i) == i
  {
  }

  lemma ComesNext(u: Unicode, text: Word, from: nat, i: nat, tokens: seq<Word>, ascii: Word, cjk: Word, r: Rune)
    requires i < |text| && r == text[i] && Holds(u, text, from, i, ascii, cjk) && Comes(u, text, from, i, tokens)
    ensures from <= i && Comes(u, text, NextFrom(u, text, from, i), i + 1, TokensAfter(u, tokens, ascii, cjk, r))
  {
    var run := text[from..i];
    AfterMeans(u, tokens, ascii, cjk, r, run);
    Turns(u, text, from, i, tokens);
    assert run != [] ==> run[0] == text[from];
  }

  lemma BufferChanges(u: Unicode, run: Word, ascii: Word, cjk: Word, r: Rune)
    requires Buffered(u, run, ascii, cjk) && run != [] && KindOf(u, run[0]) != KindOf(u, r)
    ensures Buffered(u, [r], if KindOf(u, r) == AsciiWord then ascii + [Lower(r)] else [],
                     if KindOf(u, r) == CjkWord then cjk + [r] else [])
  {
    BufferStarts(u, r);
    assert [] + [Lower(r)] == [Lower(r)] && [] + [r] == [r];
  }

  method TokenizeText(u: Unicode, text: Word) returns (tokens: seq<Word>)
    ensures tokens == Tokens(u, text)
  {
    tokens := [];
    var ascii, cjk: Word := [], [];
    ghost var from := 0;
    for i := 0 to |text|
      invariant Holds(u, text, from, i, ascii, cjk) && Comes(u, text, from, i, tokens)
    {
      HoldsNext(u, text, from, i, ascii, cjk, text[i]);
      ComesNext(u, text, from, i, tokens, ascii, cjk, text[i]);
      tokens, ascii, cjk := Take(u, tokens, ascii, cjk, text[i]);
      from := NextFrom(u, text, from, i);
    }
    LastRun(u, text, from, tokens, ascii, cjk);
    tokens := FlushASCII(u, tokens, ascii);
    tokens := FlushCJK(u, tokens, cjk);
  }

  // ---- which words a text has ----

  /** A longest run of characters of one kind. */
  ghost predicate IsRun(u: Unicode, text: Word, a: nat, b: nat) {
    && a < b <= |text| && (forall j | a <= j < b :: KindOf(u, text[j]) == KindOf(u, text[a]))
    && (b < |text| ==> KindOf(u, text[b]) != KindOf(u, text[a])) && (a > 0 ==> KindOf(u, text[a - 1]) != KindOf(u, text[a]))
  }

  lemma {:induction false} RunAhead(u: Unicode, text: Word, a: nat, i: nat, b: nat)
    requires IsRun(u, text, a, b) && a <= i <= b
    ensures Words(u, text, a, i) == RunWords(u, text[a..b]) + Words(u, text, b, b)
    decreases b - i
  {
    WordsStep(u, text, a, i);
    if i < b {
      RunAhead(u, text, a, i + 1, b);
    }
  }

  lemma WordsStep(u: Unicode, text: Word, from: nat, i: nat)
    requires from <= i <= |text|
    ensures Words(u, text, from, i) ==
            if i < |text| && (from == i || KindOf(u, text[i]) == KindOf(u, text[from])) then Words(u, text, from, i + 1)
            else if from == i then []
            else RunWords(u, text[from..i]) + Words(u, text, i, i)
  {
  }

  lemma {:induction false} RunFrom(u: Unicode, text: Word, a: nat, i: nat) returns (b: nat)
    requires a < i <= |text| && (forall j | a <= j < i :: KindOf(u, text[j]) == KindOf(u, text[a]))
    requires a > 0 ==> KindOf(u, text[a - 1]) != KindOf(u, text[a])
    ensures i <= b && IsRun(u, text, a, b)
    decreases |text| - i
  {
    if i == |text| || KindOf(u, text[i]) != KindOf(u, text[a]) {
      b := i;
    } else {
      b := RunFrom(u, text, a, i + 1);
    }
  }

  lemma RunBegins(u: Unicode, text: Word, a: nat) returns (b: nat)
    requires a < |text| && (a > 0 ==> KindOf(u, text[a - 1]) != KindOf(u, text[a]))
    ensures IsRun(u, text, a, b)
  {
    b := RunFrom(u, text, a, a + 1);
  }

  /** Every character lies in a run. */
  lemma {:induction false} RunAround(u: Unicode, text: Word, from: nat, p: nat) returns (a: nat, b: nat)
    requires from <= p < |text| && (forall j | from <= j <= p :: KindOf(u, text[j]) == KindOf(u, text[p]))
    ensures a <= from && p < b && IsRun(u, text, a, b)
    decreases from
  {
    if from > 0 && KindOf(u, text[from - 1]) == KindOf(u, text[p]) {
      a, b := RunAround(u, text, from - 1, p);
    } else {
      a := from;
      b := RunFrom(u, text, from, p + 1);
    }
  }

  // What Words says from the start of each run.
  type Rest = nat -> seq<Word>

  ghost predicate IsRest(rest: Rest, u: Unicode, text: Word) {
    forall s: nat {:trigger Words(u, text, s, s)} :: s <= |text| ==> rest(s) == Words(u, text, s, s)
  }

  lemma RestOfRun(rest: Rest, u: Unicode, text: Word, a: nat, b: nat)
    requires IsRest(rest, u, text) && IsRun(u, text, a, b)
    ensures rest(a) == RunWords(u, text[a..b]) + rest(b)
  {
    RunAhead(u, text, a, a, b);
    assert rest(a) == Words(u, text, a, a) && rest(b) == Words(u, text, b, b);
  }

  /** The words of a run are words of the text. */
  lemma {:induction false} RunsWords(rest: Rest, u: Unicode, text: Word, s: nat, a: nat, b: nat, w: Word)
    requires IsRest(rest, u, text) && s <= a && IsRun(u, text, a, b) && w in RunWords(u, text[a..b])
    requires s > 0 ==> KindOf(u, text[s - 1]) != KindOf(u, text[s])
    ensures w in rest(s)
    decreases a - s
  {
    if s == a {
      RestOfRun(rest, u, text, a, b);
    } else {
      var e := RunBegins(u, text, s);
      RestOfRun(rest, u, text, s, e);
      RunsEnd(u, text, s, e, a, b);
      RunsWords(rest, u, text, e, a, b, w);
    }
  }

  lemma RunsEnd(u: Unicode, text: Word, s: nat, e: nat, a: nat, b: nat)
    requires IsRun(u, text, s, e) && IsRun(u, text, a, b) && s < a
    ensures e <= a
  {
    assert forall j | s < j < e :: KindOf(u, text[j - 1]) == KindOf(u, text[j]);
  }

  // ---- which tokens a text has ----

  lemma {:induction false} EmittedIff(u: Unicode, tokens: seq<Word>, words: seq<Word>, t: Word)
    ensures t in EmittedAll(u, tokens, words) <==> t in tokens || exists w :: w in words && Normal(u, w) == Some(t)
  {
    if words != [] {
      var front, last := words[..|words| - 1], words[|words| - 1];
      assert words == front + [last];
      EmittedIff(u, tokens, front, t);
      assert forall w :: w in words <==> w in front || w == last;
    }
  }

  predicate Once(ts: seq<Word>) { forall i, j | 0 <= i < j < |ts| :: ts[i] != ts[j] }

  lemma {:induction false} EmittedOnce(u: Unicode, words: seq<Word>)
    ensures Once(EmittedAll(u, [], words))
  {
    if words != [] {
      var before, last := EmittedAll(u, [], words[..|words| - 1]), Normal(u, words[|words| - 1]);
      EmittedOnce(u, words[..|words| - 1]);
      if last.Some? && last.value !in before {
        assert Once(before + [last.value]);
      }
    }
  }

  /** The words of a text are those of its runs. */
  ghost predicate HasWord(u: Unicode, text: Word, w: Word) {
    exists a: nat, b: nat :: IsRun(u, text, a, b) && w in RunWords(u, text[a..b])
  }

  lemma WordsIff(u: Unicode, text: Word, w: Word)
    ensures w in Words(u, text, 0, 0) <==> HasWord(u, text, w)
  {
    var rest: Rest := (s: nat) => if s <= |text| then Words(u, text, s, s) else [];
    assert rest(0) == Words(u, text, 0, 0) && Words(u, text, |text|, |text|) == [];
    RestIff(rest, u, text, w);
  }

  lemma RestIff(rest: Rest, u: Unicode, text: Word, w: Word)
    requires IsRest(rest, u, text) && rest(|text|) == []
    ensures w in rest(0) <==> HasWord(u, text, w)
  {
    if w in rest(0) {
      var a, b := WordHasRun(rest, u, text, 0, w);
    }
    if a: nat, b: nat :| IsRun(u, text, a, b) && w in RunWords(u, text[a..b]) {
      RunsWords(rest, u, text, 0, a, b, w);
    }
  }

  lemma {:induction false} WordHasRun(rest: Rest, u: Unicode, text: Word, s: nat, w: Word) returns (a: nat, b: nat)
    requires IsRest(rest, u, text) && rest(|text|) == [] && s <= |text| && w in rest(s)
    requires s > 0 && s < |text| ==> KindOf(u, text[s - 1]) != KindOf(u, text[s])
    ensures IsRun(u, text, a, b) && w in RunWords(u, text[a..b])
    decreases |text| - s
  {
    var e := RunBegins(u, text, s);
    RestOfRun(rest, u, text, s, e);
    if w in RunWords(u, text[s..e]) {
      a, b := s, e;
    } else {
      a, b := WordHasRun(rest, u, text, e, w);
    }
  }

  ghost predicate Spells(u: Unicode, text: Word, w: Word, t: Word) {
    HasWord(u, text, w) && Normal(u, w) == Some(t)
  }

  /** The tokens are the normal forms of the words of the text's runs, each once. */
  lemma TokensIff(u: Unicode, text: Word, t: Word)
    ensures t in Tokens(u, text) <==> exists w :: Spells(u, text, w, t)
    ensures Once(Tokens(u, text))
  {
    var words := Words(u, text, 0, 0);
    EmittedOnce(u, words);
    EmittedIff(u, [], words, t);
    if t in Tokens(u, text) {
      var w :| w in words && Normal(u, w) == Some(t);
      WordsIff(u, text, w);
      assert Spells(u, text, w, t);
    }
    if w :| Spells(u, text, w, t) {
      WordsIff(u, text, w);
    }
  }

  /** In a text without spaces between words, every character and every two neighbours are words. */
  lemma PartIsWord(u: Unicode, text: Word, p: nat, n: nat)
    requires 1 <= n <= 2 && p + n <= |text| && forall j | p <= j < p + n :: KindOf(u, text[j]) == CjkWord
    ensures HasWord(u, text, text[p..p + n])
  {
    var a, b := RunAround(u, text, p, p + n - 1);
    assert KindOf(u, text[p]) == KindOf(u, text[a]);
    CjkPart(u, text, a, b, p, n);
  }

  lemma CjkPart(u: Unicode, text: Word, a: nat, b: nat, p: nat, n: nat)
    requires a <= p && 1 <= n <= 2 && p + n <= b <= |text| && KindOf(u, text[a]) == CjkWord
    ensures text[p..p + n] in RunWords(u, text[a..b])
  {
    var run := text[a..b];
    PartOfRun(run, p - a, n);
    SliceOfSlice(text, a, b, p, n);
  }

  lemma SliceOfSlice(text: Word, a: nat, b: nat, p: nat, n: nat)
    requires a <= p && p + n <= b <= |text|
    ensures text[a..b][p - a..p - a + n] == text[p..p + n]
  {
    var x, y := text[a..b][p - a..p - a + n], text[p..p + n];
    forall i | 0 <= i < n ensures x[i] == y[i] {
      assert x[i] == text[a..b][p - a + i] == text[p + i];
    }
  }

  lemma PartOfRun(run: Word, i: nat, n: nat)
    requires 1 <= n <= 2 && i + n <= |run|
    ensures run[i..i + n] in CjkWords(run)
  {
    if n == 1 {
      assert Singles(run)[i] == run[i..i + n];
    } else {
      assert Pairs(run)[i] == run[i..i + n];
    }
  }

  lemma PartOf(q: Word, w: Word) returns (i: nat, n: nat)
    requires w in CjkWords(q)
    ensures 1 <= n <= 2 && i + n <= |q| && w == q[i..i + n]
  {
    if w in Pairs(q) {
      i :| 0 <= i < |Pairs(q)| && Pairs(q)[i] == w;
      n := 2;
    } else {
      i :| 0 <= i < |Singles(q)| && Singles(q)[i] == w;
      n := 1;
    }
  }

  ghost predicate IsCjk(u: Unicode, q: Word) {
    q != [] && forall j | 0 <= j < |q| :: KindOf(u, q[j]) == CjkWord
  }

  /** Such a query is one run. */
  lemma QueryWord(u: Unicode, q: Word, w: Word)
    requires IsCjk(u, q) && HasWord(u, q, w)
    ensures w in CjkWords(q)
  {
    var a: nat, b: nat :| IsRun(u, q, a, b) && w in RunWords(u, q[a..b]);
    assert forall j | 0 < j < |q| :: KindOf(u, q[j - 1]) == KindOf(u, q[j]);
    assert q[a..b] == q;
  }

  lemma DocumentWord(u: Unicode, before: Word, q: Word, after: Word, w: Word)
    requires IsCjk(u, q) && w in CjkWords(q)
    ensures HasWord(u, before + q + after, w)
  {
    var text := before + q + after;
    var i, n := PartOf(q, w);
    var p := |before| + i;
    assert text[p..p + n] == w;
    assert forall j | p <= j < p + n :: text[j] == q[j - |before|];
    PartIsWord(u, text, p, n);
  }

  /** A query in one CJK run has no token that a document containing it lacks. */
  lemma SubstringTokens(u: Unicode, before: Word, q: Word, after: Word, t: Word)
    requires IsCjk(u, q) && t in Tokens(u, q)
    ensures t in Tokens(u, before + q + after)
  {
    TokensIff(u, q, t);
    var w :| Spells(u, q, w, t);
    QueryWord(u, q, w);
    DocumentWord(u, before, q, after, w);
    assert Spells(u, before + q + after, w, t);
    TokensIff(u, before + q + after, t);
  }
}
