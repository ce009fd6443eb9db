/**
 Equality and range lookups (internal/query/sql/index/ops.go).  On an index that is the exact image
 of its table they return exactly the rows in question, in the order of value, then row id.
 */
module IndexLookup {
  import opened Bytes
  import opened KeyEncode
  import opened Engine
  import opened Encoding
  import opened IndexKeys

  /** What a lookup asks for.  A NULL end of a range means no bound there. */
  datatype Span =
    | Equal(value: Value)
    | Range(low: Value, high: Value, includeLow: bool, includeHigh: bool)

  predicate InSpan(span: Span, v: Value, ofInt: OfInt) {
    match span
    case Equal(w) => SameInIndex(v, w, ofInt)
    case Range(low, high, includeLow, includeHigh) =>
      && (low == Null || ValueLess(low, v, ofInt) || (includeLow && SameInIndex(low, v, ofInt)))
      && (high == Null || ValueLess(v, high, ofInt) || (includeHigh && SameInIndex(v, high, ofInt)))
  }

  // ---- the scanned ranges ----

  function SpanStart(meta: Meta, span: Span, ofInt: OfInt): Key {
    match span
    case Equal(v) => EntryKeyPrefix(meta, EncodeValue(v, ofInt))
    case Range(low, _, includeLow, _) =>
      if low == Null then DataPrefix(meta)
      else if includeLow then EntryKeyPrefix(meta, EncodeValue(low, ofInt))
      else EntryKeyPrefix(meta, EncodeValue(low, ofInt)) + [0xFF]
  }

  function SpanEnd(meta: Meta, span: Span, ofInt: OfInt): Bound {
    match span
    case Equal(v) => PrefixEnd(EntryKeyPrefix(meta, EncodeValue(v, ofInt)))
    case Range(_, high, _, includeHigh) =>
      if high == Null then PrefixEnd(DataPrefix(meta))
      else if includeHigh then Before(EntryKeyPrefix(meta, EncodeValue(high, ofInt)) + [0xFF])
      else Before(EntryKeyPrefix(meta, EncodeValue(high, ofInt)))
  }

  /** The row id a scanned key yields: a lookup by value cuts the prefix, one by range decodes. */
  function IdOf(meta: Meta, span: Span, ofInt: OfInt, key: Key): Key {
    match span
    case Equal(_) =>
      var p := SpanStart(meta, span, ofInt);
      if p <= key then key[|p|..] else []
    case Range(_, _, _, _) => DecodeRowId(key, DataPrefix(meta))
  }

  function IdsOf(meta: Meta, span: Span, ofInt: OfInt, keys: seq<Key>): seq<Key> {
    if keys == [] then []
    else
      var front := IdsOf(meta, span, ofInt, keys[..|keys| - 1]);
      var id := IdOf(meta, span, ofInt, keys[|keys| - 1]);
      if id != [] then front + [id] else front
  }

  ghost function Lookup<V>(data: map<Key, V>, meta: Meta, span: Span, ofInt: OfInt): seq<Key> {
    IdsOf(meta, span, ofInt, Scanned(data, SpanStart(meta, span, ofInt), SpanEnd(meta, span, ofInt)))
  }

  // ---- an index that is the exact image of its table ----

  ghost predicate KeyOfRow(env: Env, meta: Meta, rows: Rows, id: Key, k: Key) {
    id in rows && k in RowKeys(env, meta, rows[id], id)
  }

  ghost predicate KeyOfSome(env: Env, meta: Meta, rows: Rows, k: Key) {
    exists id :: KeyOfRow(env, meta, rows, id, k)
  }

  ghost predicate Image<V>(env: Env, data: map<Key, V>, meta: Meta, rows: Rows) {
    forall k :: k in data && DataPrefix(meta) <= k <==> KeyOfSome(env, meta, rows, k)
  }

  ghost predicate GoodRows(rows: Rows) {
    forall id | id in rows :: GoodId(id)
  }

  /** The rows that have the column and whose value the span contains. */
  ghost predicate Hit(env: Env, meta: Meta, rows: Rows, span: Span, id: Key) {
    id in rows && meta.column in rows[id] && InSpan(span, rows[id][meta.column], env.ofInt)
  }

  ghost predicate IndexLess(env: Env, meta: Meta, rows: Rows, a: Key, b: Key)
    requires a in rows && b in rows && meta.column in rows[a] && meta.column in rows[b]
  {
    var v, w := rows[a][meta.column], rows[b][meta.column];
    ValueLess(v, w, env.ofInt) || (SameInIndex(v, w, env.ofInt) && Less(a, b))
  }

  /** The ids are those of the hits, each once, by value and then by row id. */
  ghost predicate Answers(env: Env, meta: Meta, rows: Rows, span: Span, ids: seq<Key>) {
    && (forall id :: id in ids <==> Hit(env, meta, rows, span, id))
    && (forall i, j | 0 <= i < j < |ids| ::
          Hit(env, meta, rows, span, ids[i]) && Hit(env, meta, rows, span, ids[j])
          && IndexLess(env, meta, rows, ids[i], ids[j]))
  }

  // ---- which keys a range holds ----

  /** Between two keys with a common prefix, every key has the prefix. */
  lemma {:induction false} Sandwich(p: Key, x: Key, k: Key, y: Key)
    requires !Less(k, p + x) && Less(k, p + y)
    ensures p <= k
  {
    if p != [] {
      assert (p + x)[1..] == p[1..] + x && (p + y)[1..] == p[1..] + y;
      Sandwich(p[1..], x, k[1..], y);
    }
  }

  lemma EntryInBounds(meta: Meta, v: Value, id: Key, w: Value, ofInt: OfInt)
    requires Terminated(id)
    ensures Less(EntryKey(meta, EncodeValue(v, ofInt), id), EntryKeyPrefix(meta, EncodeValue(w, ofInt)))
            <==> ValueLess(v, w, ofInt)
    ensures Less(EntryKey(meta, EncodeValue(v, ofInt), id), EntryKeyPrefix(meta, EncodeValue(w, ofInt)) + [0xFF])
            <==> ValueLess(v, w, ofInt) || SameInIndex(v, w, ofInt)
  {
    var p, e := DataPrefix(meta), EncodeValue(w, ofInt);
    EntryKeyShape(meta, EncodeValue(v, ofInt), id);
    assert EntryKeyPrefix(meta, e) == p + (e + [0]);
    assert EntryKeyPrefix(meta, e) + [0xFF] == p + (e + [0] + [0xFF]);
    CommonPrefix(p, EntryTail(v, ofInt, id), e + [0]);
    CommonPrefix(p, EntryTail(v, ofInt, id), e + [0] + [0xFF]);
    EntryAgainstBound(v, id, w, ofInt);
  }

  lemma EntryInData(meta: Meta, v: Value, id: Key, ofInt: OfInt)
    ensures InRange(EntryKey(meta, EncodeValue(v, ofInt), id), DataPrefix(meta), PrefixEnd(DataPrefix(meta)))
  {
    EntryKeyShape(meta, EncodeValue(v, ofInt), id);
    LowPrefixIsExact(DataPrefix(meta));
  }

  /** A range scan meets an entry exactly when its value is in the span. */
  lemma EntryInRange(meta: Meta, v: Value, id: Key, span: Span, ofInt: OfInt)
    requires Terminated(id) && span.Range?
    ensures InRange(EntryKey(meta, EncodeValue(v, ofInt), id), SpanStart(meta, span, ofInt), SpanEnd(meta, span, ofInt))
            <==> InSpan(span, v, ofInt)
  {
    EntryInData(meta, v, id, ofInt);
    if span.low != Null {
      EntryInBounds(meta, v, id, span.low, ofInt);
      ValueTrichotomy(span.low, v, ofInt);
      ValueTrichotomy(v, span.low, ofInt);
    }
    if span.high != Null {
      EntryInBounds(meta, v, id, span.high, ofInt);
    }
  }

  /** A range scan meets only keys of its index. */
  lemma RangeInIndex(meta: Meta, k: Key, span: Span, ofInt: OfInt)
    requires span.Range? && InRange(k, SpanStart(meta, span, ofInt), SpanEnd(meta, span, ofInt))
    ensures DataPrefix(meta) <= k
  {
    var p := DataPrefix(meta);
    var s := SpanStart(meta, span, ofInt);
    assert p <= s && s == p + s[|p|..];
    if span.high == Null {
      LowPrefixIsExact(p);
      if Less(k, p) {
        BelowPrefix(k, p, s[|p|..]);
      }
      assert InRange(k, p, PrefixEnd(p));
    } else {
      var e := SpanEnd(meta, span, ofInt).key;
      assert p <= e && e == p + e[|p|..];
      Sandwich(p, s[|p|..], k, e[|p|..]);
    }
  }

  lemma BelowPrefix(k: Key, p: Key, x: Key)
    requires Less(k, p)
    ensures Less(k, p + x)
  {
    if x == [] {
      assert p + x == p;
    } else {
      ProperPrefix(p, x);
      Transitive(k, p, p + x);
    }
  }

  // ---- range lookups ----

  ghost function RowOf(env: Env, meta: Meta, rows: Rows, k: Key): (id: Key)
    requires KeyOfSome(env, meta, rows, k)
    ensures KeyOfRow(env, meta, rows, id, k)
  {
    var id :| KeyOfRow(env, meta, rows, id, k);
    id
  }

  /** What a key of the image looks like. */
  lemma ImageKey(env: Env, meta: Meta, rows: Rows, id: Key, k: Key)
    requires meta.kind != Inverted && GoodRows(rows) && KeyOfRow(env, meta, rows, id, k)
    ensures GoodId(id) && meta.column in rows[id]
    ensures k == EntryKey(meta, EncodeValue(rows[id][meta.column], env.ofInt), id)
    ensures DecodeRowId(k, DataPrefix(meta)) == id
  {
    EntryKeyShape(meta, EncodeValue(rows[id][meta.column], env.ofInt), id);
  }

  lemma HitIsScanned<V>(env: Env, data: map<Key, V>, meta: Meta, rows: Rows, span: Span, id: Key)
    requires meta.kind != Inverted && GoodRows(rows) && Image(env, data, meta, rows) && span.Range?
    requires Hit(env, meta, rows, span, id)
    ensures EntryKey(meta, EncodeValue(rows[id][meta.column], env.ofInt), id)
            in KeysIn(data, SpanStart(meta, span, env.ofInt), SpanEnd(meta, span, env.ofInt))
  {
    var k := EntryKey(meta, EncodeValue(rows[id][meta.column], env.ofInt), id);
    assert KeyOfRow(env, meta, rows, id, k);
    EntryInRange(meta, rows[id][meta.column], id, span, env.ofInt);
  }

  lemma ScannedIsHit<V>(env: Env, data: map<Key, V>, meta: Meta, rows: Rows, span: Span, k: Key)
    requires meta.kind != Inverted && GoodRows(rows) && Image(env, data, meta, rows) && span.Range?
    requires k in KeysIn(data, SpanStart(meta, span, env.ofInt), SpanEnd(meta, span, env.ofInt))
    ensures KeyOfSome(env, meta, rows, k)
    ensures var id := RowOf(env, meta, rows, k);
            Hit(env, meta, rows, span, id) && IdOf(meta, span, env.ofInt, k) == id && id != []
  {
    RangeInIndex(meta, k, span, env.ofInt);
    var id := RowOf(env, meta, rows, k);
    ImageKey(env, meta, rows, id, k);
    EntryInRange(meta, rows[id][meta.column], id, span, env.ofInt);
  }

  lemma {:induction false} IdsOfEach(meta: Meta, span: Span, ofInt: OfInt, keys: seq<Key>)
    requires forall k | k in keys :: IdOf(meta, span, ofInt, k) != []
    ensures |IdsOf(meta, span, ofInt, keys)| == |keys|
    ensures forall i | 0 <= i < |keys| :: IdsOf(meta, span, ofInt, keys)[i] == IdOf(meta, span, ofInt, keys[i])
  {
    if keys != [] {
      var front, last := keys[..|keys| - 1], keys[|keys| - 1];
      assert keys == front + [last];
      IdsOfEach(meta, span, ofInt, front);
      assert last in keys && IdsOf(meta, span, ofInt, keys) == IdsOf(meta, span, ofInt, front) + [IdOf(meta, span, ofInt, last)];
    }
  }

  lemma RangeKeysRead<V>(env: Env, data: map<Key, V>, meta: Meta, rows: Rows, span: Span, keys: seq<Key>)
    requires meta.kind != Inverted && GoodRows(rows) && Image(env, data, meta, rows) && span.Range?
    requires Lists(keys, KeysIn(data, SpanStart(meta, span, env.ofInt), SpanEnd(meta, span, env.ofInt)))
    ensures Reads(env, meta, rows, span, keys)
  {
    forall k | k in keys ensures Read(env, meta, rows, span, k) {
      ScannedIsHit(env, data, meta, rows, span, k);
    }
  }

  /** The key belongs to a hit, and its row id is read back. */
  ghost predicate Read(env: Env, meta: Meta, rows: Rows, span: Span, k: Key) {
    && KeyOfSome(env, meta, rows, k)
    && var id := RowOf(env, meta, rows, k);
    Hit(env, meta, rows, span, id) && IdOf(meta, span, env.ofInt, k) == id && id != []
  }

  ghost predicate Reads(env: Env, meta: Meta, rows: Rows, span: Span, keys: seq<Key>) {
    Sorted(keys) && forall k | k in keys :: Read(env, meta, rows, span, k)
  }

  /** Keys of hits in key order give their ids in index order. */
  lemma ReadsInOrder(env: Env, meta: Meta, rows: Rows, span: Span, keys: seq<Key>)
    requires meta.kind != Inverted && GoodRows(rows) && Reads(env, meta, rows, span, keys)
    ensures var ids := IdsOf(meta, span, env.ofInt, keys);
            && |ids| == |keys|
            && (forall i | 0 <= i < |ids| :: KeyOfSome(env, meta, rows, keys[i]) && ids[i] == RowOf(env, meta, rows, keys[i]))
            && (forall i, j | 0 <= i < j < |ids| ::
                  Hit(env, meta, rows, span, ids[i]) && Hit(env, meta, rows, span, ids[j])
                  && IndexLess(env, meta, rows, ids[i], ids[j]))
  {
    assert forall k | k in keys :: Read(env, meta, rows, span, k) && IdOf(meta, span, env.ofInt, k) != [];
    IdsOfEach(meta, span, env.ofInt, keys);
    var ids := IdsOf(meta, span, env.ofInt, keys);
    forall i | 0 <= i < |ids| ensures ids[i] == RowOf(env, meta, rows, keys[i]) && Hit(env, meta, rows, span, ids[i]) {
      assert keys[i] in keys && Read(env, meta, rows, span, keys[i]);
    }
    forall i, j | 0 <= i < j < |ids| ensures IndexLess(env, meta, rows, ids[i], ids[j]) {
      KeysInOrder(env, meta, rows, ids[i], keys[i], ids[j], keys[j]);
    }
  }

  /** A range lookup returns exactly the rows in the range, in index order. */
  lemma RangeAnswers<V>(env: Env, data: map<Key, V>, meta: Meta, rows: Rows, span: Span)
    requires meta.kind != Inverted && GoodRows(rows) && Image(env, data, meta, rows) && span.Range?
    ensures Answers(env, meta, rows, span, Lookup(data, meta, span, env.ofInt))
  {
    var keys := Scanned(data, SpanStart(meta, span, env.ofInt), SpanEnd(meta, span, env.ofInt));
    RangeKeysRead(env, data, meta, rows, span, keys);
    ReadsInOrder(env, meta, rows, span, keys);
    var ids := Lookup(data, meta, span, env.ofInt);
    forall id | Hit(env, meta, rows, span, id) ensures id in ids {
      HitIsScanned(env, data, meta, rows, span, id);
      var k := EntryKey(meta, EncodeValue(rows[id][meta.column], env.ofInt), id);
      var i :| 0 <= i < |keys| && keys[i] == k;
      SameRow(env, meta, rows, id, k);
      assert ids[i] == id;
    }
  }

  lemma SameRow(env: Env, meta: Meta, rows: Rows, id: Key, k: Key)
    requires meta.kind != Inverted && GoodRows(rows) && KeyOfRow(env, meta, rows, id, k)
    ensures RowOf(env, meta, rows, k) == id
  {
    ImageKey(env, meta, rows, id, k);
    ImageKey(env, meta, rows, RowOf(env, meta, rows, k), k);
  }

  lemma KeysInOrder(env: Env, meta: Meta, rows: Rows, a: Key, j: Key, b: Key, k: Key)
    requires meta.kind != Inverted && GoodRows(rows) && Less(j, k)
    requires KeyOfRow(env, meta, rows, a, j) && KeyOfRow(env, meta, rows, b, k)
    ensures meta.column in rows[a] && meta.column in rows[b] && IndexLess(env, meta, rows, a, b)
  {
    ImageKey(env, meta, rows, a, j);
    ImageKey(env, meta, rows, b, k);
    var v, w := rows[a][meta.column], rows[b][meta.column];
    EntryKeyShape(meta, EncodeValue(v, env.ofInt), a);
    EntryKeyShape(meta, EncodeValue(w, env.ofInt), b);
    CommonPrefix(DataPrefix(meta), EntryTail(v, env.ofInt, a), EntryTail(w, env.ofInt, b));
    EntryOrder(v, a, w, b, env.ofInt);
  }

  // ---- lookups by value ----

  lemma SameFirst(x: Key, u: Key)
    requires x != [] && u != [] && x[0] == u[0]
    ensures x <= u <==> x[1..] <= u[1..]
    ensures x == u <==> x[1..] == u[1..]
    ensures x[1..] <= u[1..] && x != u ==> |x| < |u| && u[1..][|x[1..]|] == u[|x|]
  {
    assert x == [x[0]] + x[1..] && u == [u[0]] + u[1..];
  }

  /** One encoded value and its terminator is a prefix of an entry only if the bytes before escaping are. */
  lemma {:induction false} EscapedPrefix(x: Key, u: Key, r: Key)
    requires Terminated(r)
    ensures Escape(x) + [0] <= Escape(u) + [0] + r <==> x <= u && (x == u || u[|x|] == 0)
    ensures x == u ==> (Escape(u) + [0] + r)[|Escape(x) + [0]|..] == r
    ensures x <= u && x != u && u[|x|] == 0 ==>
              |Escape(x) + [0]| < |Escape(u) + [0] + r| && (Escape(u) + [0] + r)[|Escape(x) + [0]|] == 0xFF
    decreases |x|
  {
    var a := [0] + r;
    assert Escape(u) + [0] + r == Escape(u) + a;
    if x == [] {
      assert Escape(x) + [0] == [0];
      if u != [] {
        EscapeStep(u, a);
        var t := EscapeByte(u[0]) + (Escape(u[1..]) + a);
        assert t[0] == u[0] && (u[0] == 0 ==> t[1] == 0xFF);
      } else {
        assert Escape(u) + a == a;
      }
    } else if u == [] {
      assert Escape(u) + a == a;
      EndsFirst(r, x, [0]);
      if Escape(x) + [0] <= a {
        PrefixNotGreater(Escape(x) + [0], a);
      }
    } else {
      EscapeStep(x, [0]);
      EscapeStep(u, a);
      EscapedPrefix(x[1..], u[1..], r);
      assert Escape(u[1..]) + [0] + r == Escape(u[1..]) + a;
      if x[0] == u[0] {
        SharedHead(EscapeByte(x[0]), Escape(x[1..]) + [0], Escape(u[1..]) + a);
        SameFirst(x, u);
      } else {
        assert (Escape(x) + [0])[0] == x[0] && (Escape(u) + a)[0] == u[0];
      }
    }
  }

  lemma SharedHead(h: Key, p: Key, k: Key)
    ensures h + p <= h + k <==> p <= k
    ensures p <= k ==> (h + k)[|h + p|..] == k[|p|..]
  {
    if p <= k {
      assert (h + k)[..|h + p|] == h + p;
    }
    if h + p <= h + k {
      assert k[..|p|] == (h + k)[|h|..|h + p|] == p;
    }
  }

  /** Which entries a lookup by value meets, and what it reads as their row id. */
  lemma EntryHasPrefix(meta: Meta, v: Value, id: Key, w: Value, ofInt: OfInt)
    requires Terminated(id)
    ensures var k := EntryKey(meta, EncodeValue(v, ofInt), id);
            var read := IdOf(meta, Equal(w), ofInt, k);
            && (SameInIndex(v, w, ofInt) ==> EntryKeyPrefix(meta, EncodeValue(w, ofInt)) <= k && read == id)
            && (EntryKeyPrefix(meta, EncodeValue(w, ofInt)) <= k && !SameInIndex(v, w, ofInt) ==>
                  Raw(v, ofInt) != Raw(w, ofInt) && Raw(w, ofInt) <= Raw(v, ofInt)
                  && 0 in Raw(v, ofInt)[|Raw(w, ofInt)|..] && read != [] && read[0] == 0xFF)
  {
    var x, u := Raw(w, ofInt), Raw(v, ofInt);
    var k, p := EntryKey(meta, EncodeValue(v, ofInt), id), EntryKeyPrefix(meta, EncodeValue(w, ofInt));
    var a, b := Escape(x) + [0], Escape(u) + [0] + id;
    KeyParts(meta, v, id, w, ofInt);
    if Tag(v) == Tag(w) {
      EscapedPrefix(x, u, id);
      SharedHead(DataPrefix(meta) + [Tag(v)], a, b);
      if p <= k && x != u {
        assert u[|x|..][0] == 0;
      }
    } else {
      assert p[|DataPrefix(meta)|] == Tag(w) && k[|DataPrefix(meta)|] == Tag(v);
    }
  }

  lemma KeyParts(meta: Meta, v: Value, id: Key, w: Value, ofInt: OfInt)
    ensures EntryKeyPrefix(meta, EncodeValue(w, ofInt)) == (DataPrefix(meta) + [Tag(w)]) + (Escape(Raw(w, ofInt)) + [0])
    ensures EntryKey(meta, EncodeValue(v, ofInt), id) == (DataPrefix(meta) + [Tag(v)]) + (Escape(Raw(v, ofInt)) + [0] + id)
  {
  }

  /** No string with 0x00 among the values of the column. */
  ghost predicate NoZeroStrings(meta: Meta, rows: Rows) {
    forall id | id in rows && meta.column in rows[id] && rows[id][meta.column].Str? :: NoZero(rows[id][meta.column].s)
  }

  lemma NumbersSameLength(v: Value, w: Value, ofInt: OfInt)
    requires Tag(v) == Tag(w) && (v.Str? ==> NoZero(v.s))
    ensures Raw(w, ofInt) <= Raw(v, ofInt) && 0 in Raw(v, ofInt)[|Raw(w, ofInt)|..] ==> Raw(v, ofInt) == Raw(w, ofInt)
  {
    if v.Str? {
      NoZeroSuffix(Fold(v.s), |Raw(w, ofInt)|);
    }
  }

  lemma NoZeroSuffix(k: Key, n: nat)
    requires NoZero(k)
    ensures n <= |k| ==> 0 !in k[n..]
  {
  }

  /** What a scanned key of a lookup by value stands for. */
  lemma ScannedByValue<V>(env: Env, data: map<Key, V>, meta: Meta, rows: Rows, w: Value, k: Key)
    requires meta.kind != Inverted && GoodRows(rows) && Image(env, data, meta, rows)
    requires k in KeysIn(data, SpanStart(meta, Equal(w), env.ofInt), SpanEnd(meta, Equal(w), env.ofInt))
    ensures SpanStart(meta, Equal(w), env.ofInt) <= k && KeyOfSome(env, meta, rows, k)
    ensures var id, read := RowOf(env, meta, rows, k), IdOf(meta, Equal(w), env.ofInt, k);
            && read != []
            && (read[0] == 0xFF || (read == id && Hit(env, meta, rows, Equal(w), id)))
            && (NoZeroStrings(meta, rows) ==> read == id)
  {
    var p := SpanStart(meta, Equal(w), env.ofInt);
    LowPrefixIsExact(p);
    assert DataPrefix(meta) <= p <= k;
    var id := RowOf(env, meta, rows, k);
    ImageKey(env, meta, rows, id, k);
    var v := rows[id][meta.column];
    EntryHasPrefix(meta, v, id, w, env.ofInt);
    if !SameInIndex(v, w, env.ofInt) && NoZeroStrings(meta, rows) {
      SameTag(meta, v, id, w, env.ofInt);
      NumbersSameLength(v, w, env.ofInt);
    }
  }

  lemma SameTag(meta: Meta, v: Value, id: Key, w: Value, ofInt: OfInt)
    requires EntryKeyPrefix(meta, EncodeValue(w, ofInt)) <= EntryKey(meta, EncodeValue(v, ofInt), id)
    ensures Tag(v) == Tag(w)
  {
    var p, k := EntryKeyPrefix(meta, EncodeValue(w, ofInt)), EntryKey(meta, EncodeValue(v, ofInt), id);
    assert p[|DataPrefix(meta)|] == Tag(w) && k[|DataPrefix(meta)|] == Tag(v);
  }

  lemma HitByValue<V>(env: Env, data: map<Key, V>, meta: Meta, rows: Rows, w: Value, id: Key)
    requires meta.kind != Inverted && GoodRows(rows) && Image(env, data, meta, rows)
    requires Hit(env, meta, rows, Equal(w), id)
    ensures var k := EntryKey(meta, EncodeValue(rows[id][meta.column], env.ofInt), id);
            && k in KeysIn(data, SpanStart(meta, Equal(w), env.ofInt), SpanEnd(meta, Equal(w), env.ofInt))
            && IdOf(meta, Equal(w), env.ofInt, k) == id
  {
    var k := EntryKey(meta, EncodeValue(rows[id][meta.column], env.ofInt), id);
    assert KeyOfRow(env, meta, rows, id, k);
    EntryHasPrefix(meta, rows[id][meta.column], id, w, env.ofInt);
    LowPrefixIsExact(SpanStart(meta, Equal(w), env.ofInt));
    EntryKeyShape(meta, EncodeValue(rows[id][meta.column], env.ofInt), id);
  }

  /**
   A lookup by value returns every row with that value.  Anything else it returns starts with 0xFF:
   it is a piece of the value of a longer string with 0x00, never the id of a row.
   */
  lemma EqualFinds<V>(env: Env, data: map<Key, V>, meta: Meta, rows: Rows, w: Value, id: Key)
    requires meta.kind != Inverted && GoodRows(rows) && Image(env, data, meta, rows)
    ensures Hit(env, meta, rows, Equal(w), id) ==> id in Lookup(data, meta, Equal(w), env.ofInt)
    ensures id in Lookup(data, meta, Equal(w), env.ofInt) ==>
              Hit(env, meta, rows, Equal(w), id) || (id != [] && id[0] == 0xFF)
  {
    var span := Equal(w);
    var keys := Scanned(data, SpanStart(meta, span, env.ofInt), SpanEnd(meta, span, env.ofInt));
    forall k | k in keys ensures IdOf(meta, span, env.ofInt, k) != [] {
      ScannedByValue(env, data, meta, rows, w, k);
    }
    IdsOfEach(meta, span, env.ofInt, keys);
    var ids := Lookup(data, meta, span, env.ofInt);
    if Hit(env, meta, rows, span, id) {
      HitByValue(env, data, meta, rows, w, id);
      var i :| 0 <= i < |keys| && keys[i] == EntryKey(meta, EncodeValue(rows[id][meta.column], env.ofInt), id);
      assert ids[i] == id;
    }
    if id in ids {
      var i :| 0 <= i < |ids| && ids[i] == id;
      ScannedByValue(env, data, meta, rows, w, keys[i]);
    }
  }

  /** Of the ids a lookup by value returns, those of rows come in index order. */
  lemma EqualInOrder<V>(env: Env, data: map<Key, V>, meta: Meta, rows: Rows, w: Value)
    requires meta.kind != Inverted && GoodRows(rows) && Image(env, data, meta, rows)
    ensures var ids := Lookup(data, meta, Equal(w), env.ofInt);
            && (forall i | 0 <= i < |ids| && ids[i] in rows :: meta.column in rows[ids[i]])
            && forall i, j | 0 <= i < j < |ids| && ids[i] in rows && ids[j] in rows :: IndexLess(env, meta, rows, ids[i], ids[j])
  {
    var span := Equal(w);
    var keys := Scanned(data, SpanStart(meta, span, env.ofInt), SpanEnd(meta, span, env.ofInt));
    forall k | k in keys ensures IdOf(meta, span, env.ofInt, k) != [] {
      ScannedByValue(env, data, meta, rows, w, k);
    }
    IdsOfEach(meta, span, env.ofInt, keys);
    var ids := Lookup(data, meta, span, env.ofInt);
    forall i | 0 <= i < |ids| && ids[i] in rows
      ensures KeyOfRow(env, meta, rows, ids[i], keys[i]) && meta.column in rows[ids[i]]
    {
      ScannedIsRow(env, data, meta, rows, w, keys[i]);
    }
    forall i, j | 0 <= i < j < |ids| && ids[i] in rows && ids[j] in rows ensures IndexLess(env, meta, rows, ids[i], ids[j]) {
      KeysInOrder(env, meta, rows, ids[i], keys[i], ids[j], keys[j]);
    }
  }

  /** A scanned key whose id has a row is the key of that row. */
  lemma ScannedIsRow<V>(env: Env, data: map<Key, V>, meta: Meta, rows: Rows, w: Value, k: Key)
    requires meta.kind != Inverted && GoodRows(rows) && Image(env, data, meta, rows)
    requires k in KeysIn(data, SpanStart(meta, Equal(w), env.ofInt), SpanEnd(meta, Equal(w), env.ofInt))
    requires IdOf(meta, Equal(w), env.ofInt, k) in rows
    ensures var id := IdOf(meta, Equal(w), env.ofInt, k); KeyOfRow(env, meta, rows, id, k) && meta.column in rows[id]
  {
    var id := IdOf(meta, Equal(w), env.ofInt, k);
    ScannedByValue(env, data, meta, rows, w, k);
    assert GoodId(id) && id[0] != 0xFF;
    assert id == RowOf(env, meta, rows, k);
  }

  /** Without 0x00 in the column's strings, a lookup by value is exact. */
  lemma EqualAnswers<V>(env: Env, data: map<Key, V>, meta: Meta, rows: Rows, w: Value)
    requires meta.kind != Inverted && GoodRows(rows) && Image(env, data, meta, rows) && NoZeroStrings(meta, rows)
    ensures Answers(env, meta, rows, Equal(w), Lookup(data, meta, Equal(w), env.ofInt))
  {
    var span := Equal(w);
    var keys := Scanned(data, SpanStart(meta, span, env.ofInt), SpanEnd(meta, span, env.ofInt));
    forall k | k in keys ensures Read(env, meta, rows, span, k) {
      ScannedByValue(env, data, meta, rows, w, k);
      assert GoodId(RowOf(env, meta, rows, k));
    }
    ReadsInOrder(env, meta, rows, span, keys);
    forall id ensures id in Lookup(data, meta, span, env.ofInt) <==> Hit(env, meta, rows, span, id) {
      EqualFinds(env, data, meta, rows, w, id);
    }
  }
}
