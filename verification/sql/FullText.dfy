/** What a full-text lookup finds (LookupTerm and Match in internal/query/sql/index/ops.go). */
module FullText {
  import opened Bytes
  import opened KeyEncode
  import opened Engine
  import opened IndexKeys
  import opened IndexLookup

  /** The row ids behind a prefix. */
  function IdsBehind(prefix: Key, keys: seq<Key>): seq<Key> {
    if keys == [] then []
    else
      var front, key := IdsBehind(prefix, keys[..|keys| - 1]), keys[|keys| - 1];
      if prefix < key then front + [key[|prefix|..]] else front
  }

  ghost function TermIds<V>(env: Env, data: map<Key, V>, meta: Meta, term: Key): seq<Key> {
    var t := env.fold(term);
    if t == [] then []
    else IdsBehind(EntryKeyPrefix(meta, t), Scanned(data, EntryKeyPrefix(meta, t), PrefixEnd(EntryKeyPrefix(meta, t))))
  }

  ghost function TermSet<V>(env: Env, data: map<Key, V>, meta: Meta, term: Key): set<Key> {
    set id | id in TermIds(env, data, meta, term)
  }

  /** The rows under every one of the terms. */
  ghost function Common<V>(env: Env, data: map<Key, V>, meta: Meta, terms: seq<Key>): set<Key> {
    if terms == [] then {}
    else if |terms| == 1 then TermSet(env, data, meta, terms[0])
    else Common(env, data, meta, terms[..|terms| - 1]) * TermSet(env, data, meta, terms[|terms| - 1])
  }

  lemma CommonNext<V>(env: Env, data: map<Key, V>, meta: Meta, terms: seq<Key>, i: nat)
    requires i < |terms|
    ensures Common(env, data, meta, terms[..i + 1]) ==
            if i == 0 then TermSet(env, data, meta, terms[0])
            else Common(env, data, meta, terms[..i]) * TermSet(env, data, meta, terms[i])
  {
    assert terms[..i + 1][..i] == terms[..i];
  }

  lemma {:induction false} CommonShrinks<V>(env: Env, data: map<Key, V>, meta: Meta, terms: seq<Key>, n: nat)
    requires 0 < n <= |terms|
    ensures Common(env, data, meta, terms) <= Common(env, data, meta, terms[..n])
    decreases |terms|
  {
    if n == |terms| {
      assert terms[..n] == terms;
    } else {
      var front := terms[..|terms| - 1];
      CommonShrinks(env, data, meta, front, n);
      assert front[..n] == terms[..n];
    }
  }

  // ---- what an index that is the exact image of its table holds under a term ----

  ghost predicate HasTerm(env: Env, meta: Meta, rows: Rows, id: Key, t: Key) {
    && id in rows && meta.column in rows[id] && rows[id][meta.column].Str?
    && t in env.terms(rows[id][meta.column].s)
  }

  /** No term holds the separator of entry keys. */
  ghost predicate TermsZeroFree(env: Env) {
    forall s, t | t in env.terms(s) :: NoZero(t)
  }

  lemma TermEntry(env: Env, meta: Meta, rows: Rows, id: Key, t: Key)
    requires meta.kind == Inverted && HasTerm(env, meta, rows, id, t)
    ensures KeyOfRow(env, meta, rows, id, EntryKey(meta, t, id))
  {
    var terms := env.terms(rows[id][meta.column].s);
    var i :| 0 <= i < |terms| && terms[i] == t;
    assert EntryKeys(meta, terms, id)[i] == EntryKey(meta, t, id);
  }

  /** A key under a term's prefix is the entry of a row with that term. */
  lemma EntryHasTerm<V>(env: Env, data: map<Key, V>, meta: Meta, rows: Rows, t: Key, k: Key) returns (id: Key)
    requires meta.kind == Inverted && Image(env, data, meta, rows) && GoodRows(rows) && TermsZeroFree(env) && NoZero(t)
    requires k in data && EntryKeyPrefix(meta, t) <= k
    ensures HasTerm(env, meta, rows, id, t) && k == EntryKey(meta, t, id) && id == k[|EntryKeyPrefix(meta, t)|..]
  {
    assert DataPrefix(meta) <= EntryKeyPrefix(meta, t);
    assert KeyOfSome(env, meta, rows, k);
    id :| KeyOfRow(env, meta, rows, id, k);
    var x := TermOf(env, meta, rows[id][meta.column], id, k);
    TermTold(meta, x, id, t, k);
  }

  /** An entry key under a term's prefix is one of that term. */
  lemma TermTold(meta: Meta, x: Key, id: Key, t: Key, k: Key)
    requires k == EntryKey(meta, x, id) && EntryKeyPrefix(meta, t) <= k && NoZero(x) && NoZero(t)
    ensures x == t && id == k[|EntryKeyPrefix(meta, t)|..]
  {
    var tail := k[|EntryKeyPrefix(meta, t)|..];
    assert k == EntryKey(meta, t, tail);
    BehindPrefix(meta, x, id);
    BehindPrefix(meta, t, tail);
    NameEnds(x, id, t, tail);
  }

  lemma BehindPrefix(meta: Meta, x: Key, id: Key)
    ensures var k := EntryKey(meta, x, id); |DataPrefix(meta)| <= |k| && k[|DataPrefix(meta)|..] == x + [0] + id
  {
    assert EntryKey(meta, x, id) == DataPrefix(meta) + (x + [0] + id);
  }

  lemma {:induction false} IdsBehindIff(prefix: Key, keys: seq<Key>, id: Key)
    requires id != []
    ensures id in IdsBehind(prefix, keys) <==> prefix + id in keys
  {
    if keys != [] {
      var front, key := keys[..|keys| - 1], keys[|keys| - 1];
      assert keys == front + [key];
      IdsBehindIff(prefix, front, id);
      assert prefix < key ==> key == prefix + key[|prefix|..];
      assert key == prefix + id ==> key[|prefix|..] == id && prefix < key;
    }
  }

  lemma {:induction false} IdsAreNamed(prefix: Key, keys: seq<Key>)
    ensures forall id | id in IdsBehind(prefix, keys) :: id != []
  {
    if keys != [] {
      IdsAreNamed(prefix, keys[..|keys| - 1]);
    }
  }

  /** A term lookup finds exactly the rows that have the folded term. */
  lemma TermFinds<V>(env: Env, data: map<Key, V>, meta: Meta, rows: Rows, term: Key, id: Key)
    requires meta.kind == Inverted && Image(env, data, meta, rows) && GoodRows(rows) && TermsZeroFree(env)
    requires env.fold(term) != [] && NoZero(env.fold(term))
    ensures id in TermSet(env, data, meta, term) <==> HasTerm(env, meta, rows, id, env.fold(term))
  {
    var t := env.fold(term);
    var p := EntryKeyPrefix(meta, t);
    var keys := Scanned(data, p, PrefixEnd(p));
    LowPrefixIsExact(p);
    assert p + id in keys <==> p + id in KeysIn(data, p, PrefixEnd(p));
    IdsAreNamed(p, keys);
    if HasTerm(env, meta, rows, id, t) {
      TermEntry(env, meta, rows, id, t);
      assert KeyOfSome(env, meta, rows, p + id);
      assert GoodId(id);
      IdsBehindIff(p, keys, id);
    }
    if id in TermSet(env, data, meta, term) {
      IdsBehindIff(p, keys, id);
      var _ := EntryHasTerm(env, data, meta, rows, t, p + id);
    }
  }

  ghost predicate Foldable(env: Env, terms: seq<Key>) {
    forall t | t in terms :: env.fold(t) != [] && NoZero(env.fold(t))
  }

  /** Match finds exactly the rows whose tokens include every folded token of the query. */
  lemma {:induction false} MatchAnswers<V>(env: Env, data: map<Key, V>, meta: Meta, rows: Rows, terms: seq<Key>, id: Key)
    requires meta.kind == Inverted && Image(env, data, meta, rows) && GoodRows(rows) && TermsZeroFree(env)
    requires terms != [] && Foldable(env, terms)
    ensures id in Common(env, data, meta, terms) <==> forall t | t in terms :: HasTerm(env, meta, rows, id, env.fold(t))
  {
    var front, last := terms[..|terms| - 1], terms[|terms| - 1];
    assert terms == front + [last];
    TermFinds(env, data, meta, rows, last, id);
    if front != [] {
      MatchAnswers(env, data, meta, rows, front, id);
    }
  }
}
