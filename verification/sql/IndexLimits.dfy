/**
 Where index and scan part ways: values and statements for which they do, and what unique indexes
 and ordered scans make of them.  The exact conditions on values are in ValueAgreement, on rows in
 PlanAgreement, on projection and grouping in OrderedScanLimits.
 */
module IndexLimits {
  import opened Bytes
  import opened KeyEncode
  import opened Floats
  import opened Engine
  import opened Encoding
  import opened IndexKeys
  import opened IndexLookup
  import opened IndexManager
  import opened Ast
  import opened Eval
  import opened Planner
  import opened PlanMeaning
  import opened ValueAgreement

  // ---- unique indexes and 0x00 ----

  /** The bytes of v go on after those of w with a 0x00. */
  ghost predicate Continues(v: Value, w: Value, ofInt: OfInt) {
    && Tag(v) == Tag(w) && Raw(w, ofInt) < Raw(v, ofInt)
    && Raw(v, ofInt)[|Raw(w, ofInt)|] == 0
  }

  ghost predicate HoldsContinuation(env: Env, meta: Meta, rows: Rows, w: Value) {
    exists x :: x in rows && meta.column in rows[x] && Continues(rows[x][meta.column], w, env.ofInt)
  }

  lemma ContinuationHasPrefix(meta: Meta, v: Value, id: Key, w: Value, ofInt: OfInt)
    requires Terminated(id) && Continues(v, w, ofInt)
    ensures var k := EntryKey(meta, EncodeValue(v, ofInt), id);
            && EntryKeyPrefix(meta, EncodeValue(w, ofInt)) <= k
            && IdOf(meta, Equal(w), ofInt, k) != [] && IdOf(meta, Equal(w), ofInt, k)[0] == 0xFF
  {
    ContinuationPrefix(meta, v, id, w, ofInt);
    EntryHasPrefix(meta, v, id, w, ofInt);
  }

  lemma KeyParts(meta: Meta, v: Value, id: Key, ofInt: OfInt)
    ensures EntryKeyPrefix(meta, EncodeValue(v, ofInt)) == (DataPrefix(meta) + [Tag(v)]) + (Escape(Raw(v, ofInt)) + [0])
    ensures EntryKey(meta, EncodeValue(v, ofInt), id) == (DataPrefix(meta) + [Tag(v)]) + (Escape(Raw(v, ofInt)) + [0] + id)
  {
    Parted(DataPrefix(meta), Tag(v), Escape(Raw(v, ofInt)), id);
  }

  lemma Parted(p: Key, tag: Byte, text: Key, id: Key)
    ensures p + ([tag] + text) + [0] == (p + [tag]) + (text + [0])
    ensures p + ([tag] + text) + [0] + id == (p + [tag]) + (text + [0] + id)
  {
  }

  lemma ContinuationPrefix(meta: Meta, v: Value, id: Key, w: Value, ofInt: OfInt)
    requires Terminated(id) && Continues(v, w, ofInt)
    ensures EntryKeyPrefix(meta, EncodeValue(w, ofInt)) <= EntryKey(meta, EncodeValue(v, ofInt), id) && !SameInIndex(v, w, ofInt)
  {
    var x, u := Raw(w, ofInt), Raw(v, ofInt);
    KeyParts(meta, w, [], ofInt);
    KeyParts(meta, v, id, ofInt);
    EscapedPrefix(x, u, id);
    SharedHead(DataPrefix(meta) + [Tag(v)], Escape(x) + [0], Escape(u) + [0] + id);
  }

  /** A lookup of w meets every value that continues it, and reads a piece of that value as a row id. */
  lemma ContinuationIsFound<V>(env: Env, data: map<Key, V>, meta: Meta, rows: Rows, w: Value)
    requires meta.kind != Inverted && GoodRows(rows) && Image(env, data, meta, rows)
    requires HoldsContinuation(env, meta, rows, w)
    ensures exists read :: read in Lookup(data, meta, Equal(w), env.ofInt) && read != [] && read[0] == 0xFF
  {
    var x :| x in rows && meta.column in rows[x] && Continues(rows[x][meta.column], w, env.ofInt);
    var k := EntryKey(meta, EncodeValue(rows[x][meta.column], env.ofInt), x);
    ContinuationHasPrefix(meta, rows[x][meta.column], x, w, env.ofInt);
    EntryIsMet(env, data, meta, rows, w, x);
    KeyIsRead(env, data, meta, rows, w, k);
  }

  lemma EntryIsMet<V>(env: Env, data: map<Key, V>, meta: Meta, rows: Rows, w: Value, x: Key)
    requires meta.kind != Inverted && Image(env, data, meta, rows) && x in rows && meta.column in rows[x]
    requires SpanStart(meta, Equal(w), env.ofInt) <= EntryKey(meta, EncodeValue(rows[x][meta.column], env.ofInt), x)
    ensures EntryKey(meta, EncodeValue(rows[x][meta.column], env.ofInt), x)
            in KeysIn(data, SpanStart(meta, Equal(w), env.ofInt), SpanEnd(meta, Equal(w), env.ofInt))
  {
    var k := EntryKey(meta, EncodeValue(rows[x][meta.column], env.ofInt), x);
    assert KeyOfRow(env, meta, rows, x, k);
    EntryKeyShape(meta, EncodeValue(rows[x][meta.column], env.ofInt), x);
    assert KeyOfSome(env, meta, rows, k);
    LowPrefixIsExact(SpanStart(meta, Equal(w), env.ofInt));
  }

  lemma KeyIsRead<V>(env: Env, data: map<Key, V>, meta: Meta, rows: Rows, w: Value, k: Key)
    requires meta.kind != Inverted && GoodRows(rows) && Image(env, data, meta, rows)
    requires k in KeysIn(data, SpanStart(meta, Equal(w), env.ofInt), SpanEnd(meta, Equal(w), env.ofInt))
    ensures IdOf(meta, Equal(w), env.ofInt, k) in Lookup(data, meta, Equal(w), env.ofInt)
  {
    var span := Equal(w);
    var keys := Scanned(data, SpanStart(meta, span, env.ofInt), SpanEnd(meta, span, env.ofInt));
    forall j | j in keys ensures IdOf(meta, span, env.ofInt, j) != [] {
      ScannedByValue(env, data, meta, rows, w, j);
    }
    IdsOfEach(meta, span, env.ofInt, keys);
    assert k in keys;
    var i :| 0 <= i < |keys| && keys[i] == k;
    assert IdsOf(meta, span, env.ofInt, keys)[i] == IdOf(meta, span, env.ofInt, k);
  }

  lemma NotFound<V>(env: Env, data: map<Key, V>, meta: Meta, rows: Rows, w: Value, read: Key)
    requires meta.kind != Inverted && GoodRows(rows) && Image(env, data, meta, rows)
    requires read in Lookup(data, meta, Equal(w), env.ofInt) && !HoldsContinuation(env, meta, rows, w)
    ensures Hit(env, meta, rows, Equal(w), read)
  {
    var span := Equal(w);
    var keys := Scanned(data, SpanStart(meta, span, env.ofInt), SpanEnd(meta, span, env.ofInt));
    forall j | j in keys ensures IdOf(meta, span, env.ofInt, j) != [] {
      ScannedByValue(env, data, meta, rows, w, j);
    }
    IdsOfEach(meta, span, env.ofInt, keys);
    var i :| 0 <= i < |keys| && IdsOf(meta, span, env.ofInt, keys)[i] == read;
    var k := keys[i];
    assert k in keys;
    ScannedByValue(env, data, meta, rows, w, k);
    var id := RowOf(env, meta, rows, k);
    ImageKey(env, meta, rows, id, k);
    OnlyContinuations(meta, rows[id][meta.column], id, w, env.ofInt);
    EntryHasPrefix(meta, rows[id][meta.column], id, w, env.ofInt);
  }

  lemma OnlyContinuations(meta: Meta, v: Value, id: Key, w: Value, ofInt: OfInt)
    requires Terminated(id) && EntryKeyPrefix(meta, EncodeValue(w, ofInt)) <= EntryKey(meta, EncodeValue(v, ofInt), id)
    ensures SameInIndex(v, w, ofInt) || Continues(v, w, ofInt)
  {
    SameTag(meta, v, id, w, ofInt);
    TextsMeet(meta, v, id, w, ofInt);
    EscapedPrefix(Raw(w, ofInt), Raw(v, ofInt), id);
  }

  lemma TextsMeet(meta: Meta, v: Value, id: Key, w: Value, ofInt: OfInt)
    requires EntryKeyPrefix(meta, EncodeValue(w, ofInt)) <= EntryKey(meta, EncodeValue(v, ofInt), id) && Tag(v) == Tag(w)
    ensures Escape(Raw(w, ofInt)) + [0] <= Escape(Raw(v, ofInt)) + [0] + id
  {
    var x, u := Raw(w, ofInt), Raw(v, ofInt);
    KeyParts(meta, w, [], ofInt);
    KeyParts(meta, v, id, ofInt);
    SharedHead(DataPrefix(meta) + [Tag(v)], Escape(x) + [0], Escape(u) + [0] + id);
  }

  /**
   A unique index refuses a value exactly when another row has an equal one, or some row's string
   continues it with 0x00: the second is a refusal without a duplicate.
   */
  lemma RefusedIff(env: Env, data: Data, meta: Meta, rows: Rows, row: Row, id: Key)
    requires meta.unique && meta.kind != Inverted && GoodRows(rows) && Image(env, data, meta, rows)
    requires meta.column in row && GoodId(id)
    ensures Clash(env, data, meta, row, id) <==>
            || (exists x :: x != id && Hit(env, meta, rows, Equal(row[meta.column]), x))
            || HoldsContinuation(env, meta, rows, row[meta.column])
  {
    var w := row[meta.column];
    if HoldsContinuation(env, meta, rows, w) {
      ContinuationIsFound(env, data, meta, rows, w);
      var read :| read in Lookup(data, meta, Equal(w), env.ofInt) && read != [] && read[0] == 0xFF;
      assert read != id;
    } else {
      if Clash(env, data, meta, row, id) {
        var x :| x in Lookup(data, meta, Equal(w), env.ofInt) && x != id;
        NotFound(env, data, meta, rows, w, x);
      }
      if x :| x != id && Hit(env, meta, rows, Equal(w), x) {
        EqualFinds(env, data, meta, rows, w, x);
      }
    }
  }

  // ---- strings that differ in case ----

  const UPPER_A: Key := [0x41]
  const LOWER_A: Key := [0x61]

  lemma UpperFindsLower(sem: Semantics)
    ensures InSpan(Equal(Str(UPPER_A)), Str(LOWER_A), sem.env.ofInt)
    ensures Compare(sem, Str(UPPER_A), Str(LOWER_A)) != 0
  {
    assert Fold(UPPER_A) == LOWER_A == Fold(LOWER_A);
  }

  const UPPER_B: Key := [0x42]

  /** "a" < "B" is false of the scan, true of the index; ORDER BY puts "B" first, the index "a". */
  lemma LowerSortsFirst(sem: Semantics)
    ensures InSpan(RangeFor(Lt, Str(UPPER_B)), Str(LOWER_A), sem.env.ofInt)
    ensures !ToBool(BinaryOp(sem, Lt, Str(LOWER_A), Str(UPPER_B)))
    ensures ValueLess(Str(LOWER_A), Str(UPPER_B), sem.env.ofInt) && Compare(sem, Str(UPPER_B), Str(LOWER_A)) < 0
    ensures !KeepsOrder(sem, Str(LOWER_A), Str(UPPER_B))
  {
    assert Fold(LOWER_A) == [0x61] && Fold(UPPER_B) == [0x62];
    AlikeIff(sem, Str(LOWER_A), Str(UPPER_B));
  }

  // ---- negative zero ----

  /** A stored −0.0 equals 0 for the scan; the index does not find it under 0, and finds it below 0. */
  lemma NegativeZeroIsBelowZero(sem: Semantics)
    ensures ToBool(BinaryOp(sem, Eq, Num(NEGATIVE_ZERO), Num(0))) && !ToBool(BinaryOp(sem, Lt, Num(NEGATIVE_ZERO), Num(0)))
    ensures !InSpan(Equal(Num(0)), Num(NEGATIVE_ZERO), sem.env.ofInt)
    ensures InSpan(RangeFor(Lt, Num(0)), Num(NEGATIVE_ZERO), sem.env.ofInt)
  {
    NegativeZeroSortsFirst(0);
    assert Exponent(0) == 0 && Exponent(NEGATIVE_ZERO) == 0;
    NumbersInIndex(NEGATIVE_ZERO, 0, sem.env.ofInt);
  }

  // ---- values of two types ----

  const TWELVE_TEXT: Key := [0x31, 0x32]

  /** A column that holds the text "12": a number above 12 is above it for the scan, below it in the index. */
  lemma TextOfNumber(sem: Semantics, twelve: Bits, n: Bits)
    requires sem.parse(TWELVE_TEXT) == Some(twelve) && FloatLess(twelve, n)
    ensures ToBool(BinaryOp(sem, Lt, Str(TWELVE_TEXT), Num(n)))
    ensures !InSpan(RangeFor(Lt, Num(n)), Str(TWELVE_TEXT), sem.env.ofInt)
  {
  }

  // ---- an ordered scan instead of the whole plan ----

  /**
   With one ORDER BY column, no WHERE and a BTREE index on that column, everything below the sort
   is replaced: joins, grouping and projection no longer matter to the plan.
   */
  lemma OrderedScanReplaces(catalog: Catalog, s: Select, meta: Meta)
    requires s.where_ == None && |s.orderBy| == 1 && OrderColumn(s.orderBy[0].expr) != []
    requires PickIndex(catalog, s.from.name, OrderColumn(s.orderBy[0].expr), ForRange) == Some(meta) && meta.kind == BTree
    ensures Ordered(catalog, s, BeforeOrder(catalog, s)) ==
            OrderedScan(s.from.name, s.from.alias, meta.name, OrderColumn(s.orderBy[0].expr), s.orderBy[0].ascending)
  {
    JoinsHide(Scan(s.from.name, s.from.alias), s.joins);
    var p := Filtered(WithJoins(Scan(s.from.name, s.from.alias), s.joins), None, s.where_);
    assert BeforeOrder(catalog, s) == Projected(p, s);
    assert UnwrapIndexScan(p) == None && !HasFilterOrIndexScan(p);
  }

  lemma JoinsHide(scan: Plan, joins: seq<JoinClause>)
    requires scan.Scan?
    ensures var p := WithJoins(scan, joins); p.Scan? || p.Join?
  {
  }

  function AllColumns(s: Select): Select {
    s.(columns := [Column(Star, [], false)], joins := [], groupBy := [], having := None)
  }

  /**
   Such a statement is planned as SELECT * from its first table.  Without indexes it would be planned
   as a projection of that table's scan just when it names one table and does not group.
   */
  lemma ReplacedPlanIsSelectAll(catalog: Catalog, s: Select, meta: Meta)
    requires s.where_ == None && |s.orderBy| == 1 && OrderColumn(s.orderBy[0].expr) != []
    requires PickIndex(catalog, s.from.name, OrderColumn(s.orderBy[0].expr), ForRange) == Some(meta) && meta.kind == BTree
    ensures PlanOf(catalog, s) == PlanOf(catalog, AllColumns(s))
    ensures BeforeOrder(None, s) == Project(Scan(s.from.name, s.from.alias), s.columns) <==> OneTable(s)
  {
    OrderedScanReplaces(catalog, s, meta);
    OrderedScanReplaces(catalog, AllColumns(s), meta);
    JoinsHide(Scan(s.from.name, s.from.alias), s.joins);
  }
}
