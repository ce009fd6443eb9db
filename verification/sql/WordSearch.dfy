/**
 Full-text search with the real tokenizer: what Match (internal/query/sql/index/ops.go) finds, in terms
 of the tokens of the query and of the row.  LookupTerm lowers the case of every term, the tokenizer
 only that of ASCII words.
 */
module WordSearch {
  import opened Bytes
  import opened Engine
  import opened Encoding
  import opened IndexKeys
  import opened IndexLookup
  import opened FullText
  import opened Tokenize
  import opened Utf8

  // The characters of a string; reading bytes that are no UTF-8 is not part of this model.
  type Decode = Key -> Word

  // ---- lower case ----

  function LowerRune(u: Unicode, r: Rune): Rune { if r <= 127 then Lower(r) else u.lower(r) }

  function FoldWord(u: Unicode, w: Word): (l: Word)
    ensures |l| == |w| && forall i | 0 <= i < |w| :: l[i] == LowerRune(u, w[i])
  {
    seq(|w|, i requires 0 <= i < |w| => LowerRune(u, w[i]))
  }

  predicate IsWordRune(u: Unicode, r: Rune) { KindOf(u, r) != Other }

  /** Characters of words only. */
  predicate IsWord(u: Unicode, w: Word) { forall i | 0 <= i < |w| :: IsWordRune(u, w[i]) }

  /** The lower case of a letter is a letter and stays as it is; what has another lower case is no punctuation. */
  ghost predicate LowersLetters(u: Unicode) {
    forall r | KindOf(u, r) == CjkWord ::
      IsWordRune(u, u.lower(r)) && LowerRune(u, u.lower(r)) == u.lower(r) && (u.lower(r) != r ==> !u.isMark(r))
  }

  /** The index's terms are the tokens of the text, and folding a term lowers its characters. */
  ghost predicate SearchesWords(env: Env, u: Unicode, decode: Decode) {
    && (forall s, k :: k in env.terms(s) <==> exists t :: t in Tokens(u, decode(s)) && k == EncodeWord(t))
    && (forall w | IsWord(u, w) :: env.fold(EncodeWord(w)) == EncodeWord(FoldWord(u, w)))
    && LowersLetters(u)
  }

  // ---- tokens are words ----

  ghost predicate OneKind(u: Unicode, run: Word) {
    run != [] && forall j | 0 <= j < |run| :: KindOf(u, run[j]) == KindOf(u, run[0])
  }

  /** Every token comes from a run of the text. */
  lemma TokenHasRun(u: Unicode, text: Word, t: Word) returns (run: Word, w: Word)
    requires t in Tokens(u, text)
    ensures OneKind(u, run) && w in RunWords(u, run) && Normal(u, w) == Some(t) && forall r | r in run :: r in text
  {
    TokensIff(u, text, t);
    w :| Spells(u, text, w, t);
    run := RunOfWord(u, text, w);
  }

  lemma RunOfWord(u: Unicode, text: Word, w: Word) returns (run: Word)
    requires HasWord(u, text, w)
    ensures OneKind(u, run) && w in RunWords(u, run) && forall r | r in run :: r in text
  {
    var a: nat, b: nat :| IsRun(u, text, a, b) && w in RunWords(u, text[a..b]);
    run := text[a..b];
    RunIsOneKind(u, text, a, b);
  }

  lemma RunIsOneKind(u: Unicode, text: Word, a: nat, b: nat)
    requires IsRun(u, text, a, b)
    ensures OneKind(u, text[a..b]) && forall r | r in text[a..b] :: r in text
  {
    var run := text[a..b];
    forall j | 0 <= j < |run| ensures KindOf(u, run[j]) == KindOf(u, run[0]) && run[j] in text {
      assert run[j] == text[a + j];
    }
  }

  /** ASCII letters in lower case, digits and underscores. */
  predicate IsLower(u: Unicode, t: Word) {
    forall i | 0 <= i < |t| :: KindOf(u, t[i]) == AsciiWord && Lower(t[i]) == t[i]
  }

  predicate IsPart(u: Unicode, text: Word, t: Word) {
    forall i | 0 <= i < |t| :: KindOf(u, t[i]) == CjkWord && t[i] in text
  }

  lemma AsciiToken(u: Unicode, run: Word, w: Word, t: Word)
    requires OneKind(u, run) && KindOf(u, run[0]) == AsciiWord && w in RunWords(u, run) && Normal(u, w) == Some(t)
    ensures t != [] && IsLower(u, t)
  {
    assert w == LowerAll(run);
    forall i | 0 <= i < |w| ensures w[i] <= 127 && KindOf(u, w[i]) == AsciiWord && Lower(w[i]) == w[i] {
      assert w[i] == Lower(run[i]) && KindOf(u, run[i]) == AsciiWord;
    }
    assert t == LowerAll(w);
  }

  lemma CjkToken(u: Unicode, run: Word, w: Word, t: Word)
    requires OneKind(u, run) && KindOf(u, run[0]) == CjkWord && w in RunWords(u, run) && Normal(u, w) == Some(t)
    ensures t == w && t != [] && IsPart(u, run, t)
  {
    var i, n := PartOf(run, w);
    assert forall j | 0 <= j < n :: w[j] == run[i + j] && w[j] in run;
    assert w[0] > 127;
  }

  /** A token is an ASCII word in lower case, or made of the text's characters above ASCII. */
  lemma TokenIsWord(u: Unicode, text: Word, t: Word)
    requires t in Tokens(u, text)
    ensures t != [] && IsWord(u, t) && (IsLower(u, t) || IsPart(u, text, t))
  {
    var run, w := TokenHasRun(u, text, t);
    match KindOf(u, run[0])
    case AsciiWord => AsciiToken(u, run, w, t);
    case CjkWord => CjkToken(u, run, w, t);
    case Other =>
  }

  lemma FoldedIsWord(u: Unicode, w: Word)
    requires LowersLetters(u) && IsWord(u, w)
    ensures IsWord(u, FoldWord(u, w))
  {
    forall i | 0 <= i < |w| ensures IsWordRune(u, FoldWord(u, w)[i]) {
      assert IsWordRune(u, w[i]);
    }
  }

  lemma WordHasNoZero(u: Unicode, w: Word)
    requires IsWord(u, w)
    ensures NoZero(EncodeWord(w)) && (w != [] ==> EncodeWord(w) != [])
  {
    assert !IsWordRune(u, 0);
    NoZeroByte(w);
  }

  /** So terms may be keys, folded or not. */
  lemma TermsAreKeys(env: Env, u: Unicode, decode: Decode, query: Key)
    requires SearchesWords(env, u, decode)
    ensures TermsZeroFree(env) && Foldable(env, env.terms(query))
  {
    forall s, k | k in env.terms(s) ensures NoZero(k) && env.fold(k) != [] && NoZero(env.fold(k)) {
      var t :| t in Tokens(u, decode(s)) && k == EncodeWord(t);
      TokenIsWord(u, decode(s), t);
      FoldedIsWord(u, t);
      WordHasNoZero(u, t);
      WordHasNoZero(u, FoldWord(u, t));
    }
  }

  // ---- what Match finds ----

  /** The row has a text with these words among its tokens. */
  ghost predicate TextHas(u: Unicode, decode: Decode, meta: Meta, rows: Rows, id: Key, t: Word) {
    && id in rows && meta.column in rows[id] && rows[id][meta.column].Str?
    && t in Tokens(u, decode(rows[id][meta.column].s))
  }

  lemma TermIsToken(env: Env, u: Unicode, decode: Decode, meta: Meta, rows: Rows, id: Key, t: Word)
    requires SearchesWords(env, u, decode)
    ensures HasTerm(env, meta, rows, id, EncodeWord(t)) <==> TextHas(u, decode, meta, rows, id, t)
  {
    if HasTerm(env, meta, rows, id, EncodeWord(t)) {
      var x :| x in Tokens(u, decode(rows[id][meta.column].s)) && EncodeWord(t) == EncodeWord(x);
      WordTold(t, x);
    }
  }

  /** An inverted index that is the exact image of its table. */
  ghost predicate Searchable<V>(env: Env, u: Unicode, decode: Decode, data: map<Key, V>, meta: Meta, rows: Rows) {
    SearchesWords(env, u, decode) && meta.kind == Inverted && Image(env, data, meta, rows) && GoodRows(rows)
  }

  /** Match finds exactly the rows whose tokens include the lower case of each token of the query. */
  lemma MatchFinds<V>(env: Env, u: Unicode, decode: Decode, data: map<Key, V>, meta: Meta, rows: Rows, query: Key, id: Key)
    requires Searchable(env, u, decode, data, meta, rows)
    ensures var ts := Tokens(u, decode(query));
            id in Common(env, data, meta, env.terms(query)) <==>
              ts != [] && forall t | t in ts :: TextHas(u, decode, meta, rows, id, FoldWord(u, t))
  {
    var ts, terms := Tokens(u, decode(query)), env.terms(query);
    TermsAreKeys(env, u, decode, query);
    TermsOfNone(env, u, decode, query);
    if terms != [] {
      MatchAnswers(env, data, meta, rows, terms, id);
    }
    forall t | t in ts
      ensures EncodeWord(t) in terms
      ensures HasTerm(env, meta, rows, id, env.fold(EncodeWord(t))) <==> TextHas(u, decode, meta, rows, id, FoldWord(u, t))
    {
      TokenIsWord(u, decode(query), t);
      TermIsToken(env, u, decode, meta, rows, id, FoldWord(u, t));
    }
  }

  lemma TermsOfNone(env: Env, u: Unicode, decode: Decode, query: Key)
    requires SearchesWords(env, u, decode)
    ensures env.terms(query) == [] <==> Tokens(u, decode(query)) == []
  {
    var ts, terms := Tokens(u, decode(query)), env.terms(query);
    if terms != [] {
      assert terms[0] in terms;
      var t :| t in ts && terms[0] == EncodeWord(t);
    }
    if ts != [] {
      assert ts[0] in ts;
      assert EncodeWord(ts[0]) in terms;
    }
  }

  // ---- words whose case does not matter ----

  /** No character above ASCII has another lower case. */
  predicate Caseless(u: Unicode, w: Word) {
    forall i | 0 <= i < |w| && KindOf(u, w[i]) == CjkWord :: u.lower(w[i]) == w[i]
  }

  /** The tokens of such a text are in lower case as they are. */
  lemma CaselessTokens(u: Unicode, text: Word, t: Word)
    requires Caseless(u, text) && t in Tokens(u, text)
    ensures FoldWord(u, t) == t
  {
    TokenIsWord(u, text, t);
  }

  /** A query of ASCII words and of scripts without case finds exactly the rows whose tokens include the query's. */
  lemma MatchContains<V>(env: Env, u: Unicode, decode: Decode, data: map<Key, V>, meta: Meta, rows: Rows, query: Key, id: Key)
    requires Searchable(env, u, decode, data, meta, rows) && Caseless(u, decode(query))
    ensures var ts := Tokens(u, decode(query));
            id in Common(env, data, meta, env.terms(query)) <==>
              ts != [] && forall t | t in ts :: TextHas(u, decode, meta, rows, id, t)
  {
    MatchFinds(env, u, decode, data, meta, rows, query, id);
    forall t | t in Tokens(u, decode(query)) ensures FoldWord(u, t) == t {
      CaselessTokens(u, decode(query), t);
    }
  }

  /** A query in one run of a script without case finds every row whose text contains it. */
  lemma SubstringFound<V>(env: Env, u: Unicode, decode: Decode, data: map<Key, V>, meta: Meta, rows: Rows, query: Key, id: Key,
                          before: Word, after: Word)
    requires Searchable(env, u, decode, data, meta, rows) && Caseless(u, decode(query)) && IsCjk(u, decode(query))
    requires Tokens(u, decode(query)) != []
    requires id in rows && meta.column in rows[id] && rows[id][meta.column].Str?
    requires decode(rows[id][meta.column].s) == before + decode(query) + after
    ensures id in Common(env, data, meta, env.terms(query))
  {
    MatchContains(env, u, decode, data, meta, rows, query, id);
    forall t | t in Tokens(u, decode(query)) ensures TextHas(u, decode, meta, rows, id, t) {
      SubstringTokens(u, before, decode(query), after, t);
    }
  }

  // ---- words whose case matters ----

  const SPACE: Rune := 0x20

  /** The words, each with a space behind it. */
  function Spaced(ws: seq<Word>): Word {
    if ws == [] then [] else Spaced(ws[..|ws| - 1]) + ws[|ws| - 1] + [SPACE]
  }

  lemma {:induction false} SpacedAt(ws: seq<Word>, i: nat) returns (after: Word)
    requires i < |ws|
    ensures after != [] && after[0] == SPACE && Spaced(ws) == Spaced(ws[..i]) + ws[i] + after
  {
    var front, last := ws[..|ws| - 1], ws[|ws| - 1];
    if i == |ws| - 1 {
      after := [SPACE];
    } else {
      var middle := SpacedAt(front, i);
      assert front[..i] == ws[..i];
      after := middle + last + [SPACE];
      assert Spaced(ws) == Spaced(ws[..i]) + ws[i] + after;
    }
  }

  lemma SpacedEnds(ws: seq<Word>)
    ensures Spaced(ws) == [] || Spaced(ws)[|Spaced(ws)| - 1] == SPACE
  {
  }

  lemma {:induction false} SpacedRunes(ws: seq<Word>, r: Rune) returns (i: nat)
    requires r in Spaced(ws) && r != SPACE
    ensures i < |ws| && r in ws[i]
  {
    i := |ws| - 1;
    if r !in ws[i] {
      i := SpacedRunes(ws[..|ws| - 1], r);
    }
  }

  /** A word between spaces is a run. */
  lemma RunInside(u: Unicode, before: Word, w: Word, after: Word)
    requires OneKind(u, w) && KindOf(u, w[0]) != Other
    requires (before == [] || before[|before| - 1] == SPACE) && after != [] && after[0] == SPACE
    ensures IsRun(u, before + w + after, |before|, |before| + |w|)
    ensures (before + w + after)[|before|..|before| + |w|] == w
  {
    var text, a, b := before + w + after, |before|, |before| + |w|;
    assert text[a..b] == w;
    forall j | a <= j < b ensures KindOf(u, text[j]) == KindOf(u, text[a]) {
      assert text[j] == w[j - a];
    }
    assert text[b] == SPACE && (a > 0 ==> text[a - 1] == SPACE);
  }

  /** A word that is a token of itself. */
  ghost predicate IsOwnToken(u: Unicode, t: Word) {
    OneKind(u, t) && KindOf(u, t[0]) != Other && t in RunWords(u, t) && Normal(u, t) == Some(t)
  }

  lemma TokenIsOwn(u: Unicode, text: Word, t: Word)
    requires t in Tokens(u, text)
    ensures IsOwnToken(u, t)
  {
    var run, w := TokenHasRun(u, text, t);
    match KindOf(u, run[0])
    case AsciiWord =>
      AsciiToken(u, run, w, t);
      assert w == LowerAll(run) && t == LowerAll(w);
      assert LowerAll(t) == t && t == w;
    case CjkWord =>
      CjkToken(u, run, w, t);
      var i, n := PartOf(run, w);
      PartOfRun(t, 0, n);
      assert t[0..n] == t;
    case Other =>
  }

  lemma SpacedHasToken(u: Unicode, ws: seq<Word>, i: nat)
    requires i < |ws| && IsOwnToken(u, ws[i])
    ensures ws[i] in Tokens(u, Spaced(ws))
  {
    var before := Spaced(ws[..i]);
    var after := SpacedAt(ws, i);
    SpacedEnds(ws[..i]);
    RunInside(u, before, ws[i], after);
    assert HasWord(u, Spaced(ws), ws[i]);
    assert Spells(u, Spaced(ws), ws[i], ws[i]);
    TokensIff(u, Spaced(ws), ws[i]);
  }

  function FoldAll(u: Unicode, ws: seq<Word>): (out: seq<Word>)
    ensures |out| == |ws| && forall i | 0 <= i < |ws| :: out[i] == FoldWord(u, ws[i])
  {
    if ws == [] then [] else FoldAll(u, ws[..|ws| - 1]) + [FoldWord(u, ws[|ws| - 1])]
  }

  /** What Match asks of a text, and what it is meant to ask. */
  ghost predicate Finds(u: Unicode, query: Word, text: Word) {
    forall t | t in Tokens(u, query) :: FoldWord(u, t) in Tokens(u, text)
  }

  ghost predicate Contains(u: Unicode, query: Word, text: Word) {
    forall t | t in Tokens(u, query) :: t in Tokens(u, text)
  }

  lemma CharacterIsToken(u: Unicode, text: Word, p: nat)
    requires LowersLetters(u) && p < |text| && KindOf(u, text[p]) == CjkWord && u.lower(text[p]) != text[p]
    ensures [text[p]] in Tokens(u, text)
  {
    var w := [text[p]];
    PartIsWord(u, text, p, 1);
    assert text[p..p + 1] == w;
    LetterIsNormal(u, text[p]);
    WordIsToken(u, text, w);
  }

  lemma LetterIsNormal(u: Unicode, r: Rune)
    requires LowersLetters(u) && KindOf(u, r) == CjkWord && u.lower(r) != r
    ensures Normal(u, [r]) == Some([r])
  {
    var w := [r];
    assert w[0] == r && !IsMark(u, w[0]);
  }

  lemma WordIsToken(u: Unicode, text: Word, w: Word)
    requires HasWord(u, text, w) && Normal(u, w) == Some(w)
    ensures w in Tokens(u, text)
  {
    assert Spells(u, text, w, w);
    TokensIff(u, text, w);
  }

  lemma LoweredRune(u: Unicode, query: Word, r: Rune)
    requires LowersLetters(u) && r in Spaced(FoldAll(u, Tokens(u, query))) && r > 127
    ensures u.lower(r) == r
  {
    var ts := Tokens(u, query);
    var i := SpacedRunes(FoldAll(u, ts), r);
    assert ts[i] in ts;
    TokenIsWord(u, query, ts[i]);
    var j :| 0 <= j < |ts[i]| && FoldWord(u, ts[i])[j] == r;
    assert r == LowerRune(u, ts[i][j]);
  }

  /** The lower-cased tokens as a text: found, if they are tokens at all, though it lacks a capital of the query. */
  lemma LoweredTextFound(u: Unicode, query: Word)
    requires forall t | t in Tokens(u, query) :: FoldWord(u, t) in Tokens(u, query)
    ensures Finds(u, query, Spaced(FoldAll(u, Tokens(u, query))))
  {
    var ts := Tokens(u, query);
    forall t | t in ts ensures FoldWord(u, t) in Tokens(u, Spaced(FoldAll(u, ts))) {
      var i :| 0 <= i < |ts| && ts[i] == t;
      TokenIsOwn(u, query, FoldWord(u, t));
      SpacedHasToken(u, FoldAll(u, ts), i);
    }
  }

  lemma CapitalTells(u: Unicode, query: Word, p: nat) returns (text: Word)
    requires LowersLetters(u) && p < |query| && KindOf(u, query[p]) == CjkWord && u.lower(query[p]) != query[p]
    ensures !(Finds(u, query, text) <==> Contains(u, query, text))
  {
    if t :| t in Tokens(u, query) && FoldWord(u, t) !in Tokens(u, query) {
      text := query;
    } else {
      text := Spaced(FoldAll(u, Tokens(u, query)));
      LoweredTextFound(u, query);
      CharacterIsToken(u, query, p);
      CapitalMissing(u, query, query[p]);
    }
  }

  lemma CapitalMissing(u: Unicode, query: Word, r: Rune)
    requires LowersLetters(u) && KindOf(u, r) == CjkWord && u.lower(r) != r
    ensures [r] !in Tokens(u, Spaced(FoldAll(u, Tokens(u, query))))
  {
    var text := Spaced(FoldAll(u, Tokens(u, query)));
    if [r] in Tokens(u, text) {
      TokenIsWord(u, text, [r]);
      assert [r][0] == r;
      LoweredRune(u, query, r);
    }
  }

  /** For every text alike, Match means that the query's tokens are the text's exactly when the query has no capital above ASCII. */
  lemma ContainmentIff(u: Unicode, query: Word)
    requires LowersLetters(u)
    ensures (forall text :: Finds(u, query, text) <==> Contains(u, query, text)) <==> Caseless(u, query)
  {
    if Caseless(u, query) {
      forall t | t in Tokens(u, query) ensures FoldWord(u, t) == t {
        CaselessTokens(u, query, t);
      }
    } else {
      var p :| 0 <= p < |query| && KindOf(u, query[p]) == CjkWord && u.lower(query[p]) != query[p];
      var text := CapitalTells(u, query, p);
    }
  }

  const CAPITAL_E_ACUTE: Rune := 0xC9
  const SMALL_E_ACUTE: Rune := 0xE9

  /** A row that holds the one letter É is not found by É. */
  lemma CapitalMissesItself<V>(env: Env, u: Unicode, decode: Decode, data: map<Key, V>, meta: Meta, rows: Rows, query: Key, id: Key)
    requires Searchable(env, u, decode, data, meta, rows) && decode(query) == [CAPITAL_E_ACUTE]
    requires u.isWord(CAPITAL_E_ACUTE) && u.lower(CAPITAL_E_ACUTE) == SMALL_E_ACUTE
    requires id in rows && meta.column in rows[id] && rows[id][meta.column] == Str(query)
    ensures id !in Common(env, data, meta, env.terms(query)) && [CAPITAL_E_ACUTE] in Tokens(u, decode(query))
  {
    var q := decode(query);
    CharacterIsToken(u, q, 0);
    MatchFinds(env, u, decode, data, meta, rows, query, id);
    var small := FoldWord(u, q);
    assert small == [SMALL_E_ACUTE] && small[0] == SMALL_E_ACUTE;
    if small in Tokens(u, q) {
      TokenIsWord(u, q, small);
    }
  }
}
