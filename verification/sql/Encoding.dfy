/**
 Order-preserving encodings of column values (internal/query/sql/index/encoding.go) and of whole
 index entries: data prefix, encoded value, 0x00, row id (internal/query/sql/index/manager.go).
 */
module Encoding {
  import opened Bytes
  import opened Floats

  // Numbers read back from a row are binary64; a literal may also be an int64, which is converted
  // by the given `ofInt` (the rounding of that conversion is not part of this model).
  datatype Value = Null | Bool(b: bool) | Int(n: int) | Num(bits: Bits) | Str(s: Key)

  type OfInt = int -> Bits

  const TAG_NULL: Byte := 0x00
  const TAG_FALSE: Byte := 0x10
  const TAG_TRUE: Byte := 0x11
  const TAG_NUMBER: Byte := 0x20
  const TAG_STRING: Byte := 0x30

  // ---- what is encoded ----

  function BigEndian(n: int, width: nat): (k: Key)
    requires n >= 0
    ensures |k| == width
  {
    if width == 0 then [] else BigEndian(n / 256, width - 1) + [n % 256]
  }

  function FoldByte(b: Byte): Byte {
    if 0x41 <= b <= 0x5A then b + 0x20 else b
  }

  function Fold(s: Key): (t: Key)
    ensures |t| == |s|
    ensures forall i | 0 <= i < |s| :: t[i] == FoldByte(s[i])
  {
    if s == [] then [] else [FoldByte(s[0])] + Fold(s[1..])
  }

  function Tag(v: Value): Byte {
    match v
    case Null => TAG_NULL
    case Bool(b) => if b then TAG_TRUE else TAG_FALSE
    case Int(_) => TAG_NUMBER
    case Num(_) => TAG_NUMBER
    case Str(_) => TAG_STRING
  }

  /** The bytes after the tag, before escaping. */
  function Raw(v: Value, ofInt: OfInt): Key {
    match v
    case Null => []
    case Bool(_) => []
    case Int(n) => BigEndian(OrderBits(ofInt(n)), 8)
    case Num(b) => BigEndian(OrderBits(b), 8)
    case Str(s) => Fold(s)
  }

  function EscapeByte(b: Byte): Key {
    if b == 0 then [0, 0xFF] else [b]
  }

  function Escape(raw: Key): Key {
    if raw == [] then [] else EscapeByte(raw[0]) + Escape(raw[1..])
  }

  function EncodeValue(v: Value, ofInt: OfInt): Key {
    [Tag(v)] + Escape(Raw(v, ofInt))
  }

  // ---- the encoders ----

  lemma {:induction false} EscapeSnoc(raw: Key, b: Byte)
    ensures Escape(raw + [b]) == Escape(raw) + EscapeByte(b)
  {
    if raw == [] {
      assert raw + [b] == [b];
      assert Escape([b]) == EscapeByte(b) + Escape([]);
    } else {
      assert (raw + [b])[1..] == raw[1..] + [b];
      EscapeSnoc(raw[1..], b);
    }
  }

  lemma EscapeNext(raw: Key, i: nat)
    requires i < |raw|
    ensures Escape(raw[..i + 1]) == Escape(raw[..i]) + if raw[i] == 0 then [0, 0xFF] else [raw[i]]
  {
    EscapeSnoc(raw[..i], raw[i]);
    assert raw[..i + 1] == raw[..i] + [raw[i]];
  }

  method EncodeNumber(f: Bits) returns (out: Key)
    ensures out == [TAG_NUMBER] + Escape(BigEndian(OrderBits(f), 8))
  {
    var bits := f;
    if AtLeastZero(f) {
      bits := FlipSign(bits);
    } else {
      bits := TWO64 - 1 - bits;
    }
    var raw := BigEndian(bits, 8);
    out := [TAG_NUMBER];
    for i := 0 to |raw|
      invariant out == [TAG_NUMBER] + Escape(raw[..i])
    {
      EscapeNext(raw, i);
      if raw[i] == 0 {
        out := out + [0, 0xFF];
      } else {
        out := out + [raw[i]];
      }
    }
    assert raw[..|raw|] == raw;
  }

  method EncodeString(s: Key) returns (buf: Key)
    ensures buf == [TAG_STRING] + Escape(Fold(s))
  {
    ghost var folded := Fold(s);
    buf := [TAG_STRING];
    for i := 0 to |s|
      invariant buf == [TAG_STRING] + Escape(folded[..i])
    {
      var b := s[i];
      if 0x41 <= b <= 0x5A {
        b := b + 0x20;
      }
      EscapeNext(folded, i);
      if b == 0 {
        buf := buf + [0, 0xFF];
      } else {
        buf := buf + [b];
      }
    }
    assert folded[..|s|] == folded;
  }

  method Encode(v: Value, ofInt: OfInt) returns (key: Key)
    ensures key == EncodeValue(v, ofInt)
  {
    match v {
      case Null => key := [TAG_NULL];
      case Bool(b) => key := if b then [TAG_TRUE] else [TAG_FALSE];
      case Int(n) => key := EncodeNumber(ofInt(n));
      case Num(b) => key := EncodeNumber(b);
      case Str(s) => key := EncodeString(s);
    }
  }

  // ---- big-endian order ----

  lemma {:induction false} LessSnoc(p: Key, x: Byte, q: Key, y: Byte)
    requires |p| == |q|
    ensures Less(p + [x], q + [y]) <==> Less(p, q) || (p == q && x < y)
  {
    if p == [] {
      assert p + [x] == [x] && q + [y] == [y];
      assert [x][1..] == [] && [y][1..] == [];
    } else {
      assert (p + [x])[1..] == p[1..] + [x] && (q + [y])[1..] == q[1..] + [y];
      LessSnoc(p[1..], x, q[1..], y);
      assert p == [p[0]] + p[1..] && q == [q[0]] + q[1..];
    }
  }

  function Capacity(width: nat): (c: int)
    ensures c >= 1
  {
    if width == 0 then 1 else 256 * Capacity(width - 1)
  }

  lemma {:induction false} BigEndianOrder(a: int, b: int, width: nat)
    requires 0 <= a < Capacity(width) && 0 <= b < Capacity(width)
    ensures Less(BigEndian(a, width), BigEndian(b, width)) <==> a < b
    ensures BigEndian(a, width) == BigEndian(b, width) <==> a == b
  {
    if width > 0 {
      BigEndianOrder(a / 256, b / 256, width - 1);
      var p, q := BigEndian(a / 256, width - 1), BigEndian(b / 256, width - 1);
      LessSnoc(p, a % 256, q, b % 256);
      assert BigEndian(a, width)[..width - 1] == p && BigEndian(b, width)[..width - 1] == q;
      assert BigEndian(a, width)[width - 1] == a % 256 && BigEndian(b, width)[width - 1] == b % 256;
    } else {
      Irreflexive([]);
    }
  }

  lemma EightBytes()
    ensures Capacity(8) == TWO64
  {
    assert Capacity(2) == 0x1_0000;
    assert Capacity(4) == 0x1_0000_0000;
    assert Capacity(6) == 0x1_0000_0000_0000;
  }

  // ---- escaping keeps the order, also against the terminator ----

  lemma EscapeStep(raw: Key, rest: Key)
    requires raw != []
    ensures Escape(raw) + rest == EscapeByte(raw[0]) + (Escape(raw[1..]) + rest)
  {
  }

  /** How an escaped string and its terminator compare when the first bytes differ. */
  lemma EscapedHeadsDiffer(x: Byte, a: Key, y: Byte, b: Key)
    requires x < y
    ensures Less(EscapeByte(x) + a, EscapeByte(y) + b)
  {
  }

  /** The terminator 0x00 and what may follow it sort before any further escaped byte. */
  lemma EndsFirst(r: Key, v: Key, s: Key)
    requires v != [] && r != [] && r[0] < 0xFF
    ensures Less([0] + r, Escape(v) + s)
  {
    EscapeStep(v, s);
    var t := EscapeByte(v[0]) + (Escape(v[1..]) + s);
    assert ([0] + r)[1..] == r;
    if v[0] == 0 {
      assert t[1..][0] == 0xFF;
    }
  }

  /** What may follow the terminator of an entry: a row id, which is not empty and starts below 0xFF. */
  predicate Terminated(r: Key) {
    r != [] && r[0] < 0xFF
  }

  lemma {:induction false} TailOrder(u: Key, r: Key, v: Key, s: Key)
    requires Terminated(r) && Terminated(s)
    ensures Less(Escape(u) + [0] + r, Escape(v) + [0] + s) <==> Less(u, v) || (u == v && Less(r, s))
    decreases |u|
  {
    assert Escape(u) + [0] + r == Escape(u) + ([0] + r) && Escape(v) + [0] + s == Escape(v) + ([0] + s);
    if u == [] && v == [] {
      CommonPrefix([0], r, s);
    } else if u == [] {
      EndsFirst(r, v, [0] + s);
    } else if v == [] {
      EndsFirst(s, u, [0] + r);
      Asymmetric([0] + s, Escape(u) + ([0] + r));
    } else {
      EscapeStep(u, [0] + r);
      EscapeStep(v, [0] + s);
      if u[0] < v[0] {
        EscapedHeadsDiffer(u[0], Escape(u[1..]) + ([0] + r), v[0], Escape(v[1..]) + ([0] + s));
      } else if v[0] < u[0] {
        EscapedHeadsDiffer(v[0], Escape(v[1..]) + ([0] + s), u[0], Escape(u[1..]) + ([0] + r));
        Asymmetric(Escape(v) + ([0] + s), Escape(u) + ([0] + r));
      } else {
        CommonPrefix(EscapeByte(u[0]), Escape(u[1..]) + ([0] + r), Escape(v[1..]) + ([0] + s));
        TailOrder(u[1..], r, v[1..], s);
        assert Escape(u[1..]) + [0] + r == Escape(u[1..]) + ([0] + r);
        assert Escape(v[1..]) + [0] + s == Escape(v[1..]) + ([0] + s);
        assert u == [u[0]] + u[1..] && v == [v[0]] + v[1..];
      }
    }
  }

  /**
   An entry against the end of a value's entries: the terminator alone stands before all of them,
   the terminator and 0xFF after all of them, and both before every greater value.
   */
  lemma {:induction false} TailAgainstBound(u: Key, r: Key, v: Key)
    requires Terminated(r)
    ensures Less(Escape(u) + [0] + r, Escape(v) + [0]) <==> Less(u, v)
    ensures Less(Escape(u) + [0] + r, Escape(v) + [0] + [0xFF]) <==> Less(u, v) || u == v
    decreases |u|
  {
    var a := [0] + r;
    assert Escape(u) + [0] + r == Escape(u) + a && Escape(v) + [0] + [0xFF] == Escape(v) + [0, 0xFF];
    if u == [] && v == [] {
      assert a[1..] == r;
      assert Escape(u) + a == a && Escape(v) + [0] == [0] && Escape(v) + [0, 0xFF] == [0, 0xFF];
      assert [0, 0xFF][1..] == [0xFF] && [0][1..] == [];
    } else if u == [] {
      EndsFirst(r, v, [0]);
      EndsFirst(r, v, [0, 0xFF]);
      assert Escape(u) + a == a;
    } else if v == [] {
      EscapeStep(u, a);
      EscapedAboveBound(u, a);
    } else {
      EscapeStep(u, a);
      EscapeStep(v, [0]);
      EscapeStep(v, [0, 0xFF]);
      var x, y := Escape(u[1..]) + a, Escape(v[1..]);
      if u[0] < v[0] {
        EscapedHeadsDiffer(u[0], x, v[0], y + [0]);
        EscapedHeadsDiffer(u[0], x, v[0], y + [0, 0xFF]);
      } else if v[0] < u[0] {
        EscapedHeadsDiffer(v[0], y + [0], u[0], x);
        EscapedHeadsDiffer(v[0], y + [0, 0xFF], u[0], x);
        Asymmetric(Escape(v) + [0], Escape(u) + a);
        Asymmetric(Escape(v) + [0, 0xFF], Escape(u) + a);
      } else {
        CommonPrefix(EscapeByte(u[0]), x, y + [0]);
        CommonPrefix(EscapeByte(u[0]), x, y + [0, 0xFF]);
        TailAgainstBound(u[1..], r, v[1..]);
        assert Escape(u[1..]) + [0] + r == x && y + [0] + [0xFF] == y + [0, 0xFF];
        assert u == [u[0]] + u[1..] && v == [v[0]] + v[1..];
      }
    }
  }

  lemma EscapedAboveBound(u: Key, a: Key)
    requires u != []
    ensures !Less(Escape(u) + a, [0]) && !Less(Escape(u) + a, [0, 0xFF])
  {
    EscapeStep(u, a);
    var t := EscapeByte(u[0]) + (Escape(u[1..]) + a);
    if u[0] == 0 {
      assert [0, 0xFF] <= t && [0] <= t;
      PrefixNotGreater([0, 0xFF], t);
      PrefixNotGreater([0], t);
    }
  }

  // ---- values in index order ----

  /** The order of values in an index: by kind, then numbers by value, strings by folded bytes. */
  predicate ValueLess(v: Value, w: Value, ofInt: OfInt) {
    Tag(v) < Tag(w) || (Tag(v) == Tag(w) && Less(Raw(v, ofInt), Raw(w, ofInt)))
  }

  predicate SameInIndex(v: Value, w: Value, ofInt: OfInt) {
    Tag(v) == Tag(w) && Raw(v, ofInt) == Raw(w, ofInt)
  }

  /** What follows the data prefix in an entry's key. */
  function EntryTail(v: Value, ofInt: OfInt, id: Key): Key {
    EncodeValue(v, ofInt) + [0] + id
  }

  lemma TagOrder(x: Byte, a: Key, y: Byte, b: Key)
    ensures Less([x] + a, [y] + b) <==> x < y || (x == y && Less(a, b))
  {
    assert ([x] + a)[1..] == a && ([y] + b)[1..] == b;
  }

  /** Entry keys compare as value, then row id, although one encoded string may be a prefix of another. */
  lemma EntryOrder(v: Value, r: Key, w: Value, s: Key, ofInt: OfInt)
    requires Terminated(r) && Terminated(s)
    ensures Less(EntryTail(v, ofInt, r), EntryTail(w, ofInt, s))
            <==> ValueLess(v, w, ofInt) || (SameInIndex(v, w, ofInt) && Less(r, s))
  {
    var u, x := Raw(v, ofInt), Raw(w, ofInt);
    assert EntryTail(v, ofInt, r) == [Tag(v)] + (Escape(u) + [0] + r);
    assert EntryTail(w, ofInt, s) == [Tag(w)] + (Escape(x) + [0] + s);
    TagOrder(Tag(v), Escape(u) + [0] + r, Tag(w), Escape(x) + [0] + s);
    TailOrder(u, r, x, s);
  }

  /** An entry against the two bounds LookupRange builds from a value. */
  lemma EntryAgainstBound(v: Value, r: Key, w: Value, ofInt: OfInt)
    requires Terminated(r)
    ensures Less(EntryTail(v, ofInt, r), EncodeValue(w, ofInt) + [0]) <==> ValueLess(v, w, ofInt)
    ensures Less(EntryTail(v, ofInt, r), EncodeValue(w, ofInt) + [0] + [0xFF])
            <==> ValueLess(v, w, ofInt) || SameInIndex(v, w, ofInt)
  {
    var u, x := Raw(v, ofInt), Raw(w, ofInt);
    assert EntryTail(v, ofInt, r) == [Tag(v)] + (Escape(u) + [0] + r);
    assert EncodeValue(w, ofInt) + [0] == [Tag(w)] + (Escape(x) + [0]);
    assert EncodeValue(w, ofInt) + [0] + [0xFF] == [Tag(w)] + (Escape(x) + [0] + [0xFF]);
    TagOrder(Tag(v), Escape(u) + [0] + r, Tag(w), Escape(x) + [0]);
    TagOrder(Tag(v), Escape(u) + [0] + r, Tag(w), Escape(x) + [0] + [0xFF]);
    TailAgainstBound(u, r, x);
  }

  /** Between numbers, index order is numeric order. */
  lemma NumberOrder(a: Bits, b: Bits, ofInt: OfInt)
    requires Plain(a) && Plain(b)
    ensures ValueLess(Num(a), Num(b), ofInt) <==> FloatLess(a, b)
    ensures SameInIndex(Num(a), Num(b), ofInt) <==> a == b
  {
    EightBytes();
    BigEndianOrder(OrderBits(a), OrderBits(b), 8);
    OrderBitsOrder(a, b);
  }

  /** No ASCII upper case letter, so folding changes nothing. */
  predicate Folded(s: Key) {
    forall i | 0 <= i < |s| :: !(0x41 <= s[i] <= 0x5A)
  }

  /** Between strings without upper case, index order is byte order. */
  lemma StringOrder(s: Key, t: Key, ofInt: OfInt)
    requires Folded(s) && Folded(t)
    ensures ValueLess(Str(s), Str(t), ofInt) <==> Less(s, t)
    ensures SameInIndex(Str(s), Str(t), ofInt) <==> s == t
  {
    assert Fold(s) == s && Fold(t) == t;
  }

  lemma ValueTrichotomy(v: Value, w: Value, ofInt: OfInt)
    ensures ValueLess(v, w, ofInt) || SameInIndex(v, w, ofInt) || ValueLess(w, v, ofInt)
    ensures !(ValueLess(v, w, ofInt) && SameInIndex(v, w, ofInt))
    ensures !(ValueLess(v, w, ofInt) && ValueLess(w, v, ofInt))
  {
    var a, b := Raw(v, ofInt), Raw(w, ofInt);
    Trichotomy(a, b);
    Irreflexive(a);
    if Less(a, b) && Less(b, a) {
      Asymmetric(a, b);
    }
  }
}
