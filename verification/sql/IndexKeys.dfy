/** Index metadata and the keys of index entries (internal/query/sql/index/manager.go, ops.go). */
module IndexKeys {
  import opened Bytes
  import opened KeyEncode
  import opened Encoding

  type Name = Key

  datatype Kind = Hash | BTree | Inverted

  datatype Meta = Meta(name: Name, table: Name, column: Name, kind: Kind, unique: bool)

  /** A row as the program holds it: values by column name. */
  type Row = map<Name, Value>

  /** The rows of one table, by row id. */
  type Rows = map<Key, Row>

  // What the index code calls outside itself: integer conversion, the tokenizer, and folding a query's
  // term (strings.ToLower after strings.TrimSpace).
  datatype Env = Env(ofInt: OfInt, terms: Key -> seq<Key>, fold: Key -> Key)

  predicate NoZero(k: Key) {
    forall i | 0 <= i < |k| :: k[i] != 0
  }

  /** A row id the encoding can carry: not empty, no 0x00, first byte below 0xFF. */
  predicate GoodId(id: Key) {
    Terminated(id) && NoZero(id)
  }

  function Head(kind: Kind): Byte {
    match kind
    case Hash => 0x68
    case BTree => 0x62
    case Inverted => 0x69
  }

  function DataPrefix(meta: Meta): Key {
    [PREFIX_INDEX, Head(meta.kind), 0x3A] + meta.name + [0]
  }

  function EntryKeyPrefix(meta: Meta, valueOrTerm: Key): Key {
    DataPrefix(meta) + valueOrTerm + [0]
  }

  function EntryKey(meta: Meta, valueOrTerm: Key, id: Key): Key {
    EntryKeyPrefix(meta, valueOrTerm) + id
  }

  /** The keys to store for one value of a row. */
  function KeysForValue(env: Env, meta: Meta, v: Value, id: Key): seq<Key> {
    if meta.kind == Inverted then
      if v.Str? then EntryKeys(meta, env.terms(v.s), id) else []
    else
      [EntryKey(meta, EncodeValue(v, env.ofInt), id)]
  }

  function EntryKeys(meta: Meta, terms: seq<Key>, id: Key): (keys: seq<Key>)
    ensures |keys| == |terms| && forall i | 0 <= i < |terms| :: keys[i] == EntryKey(meta, terms[i], id)
  {
    if terms == [] then [] else [EntryKey(meta, terms[0], id)] + EntryKeys(meta, terms[1..], id)
  }

  /** The keys an index holds for a row; none when the row lacks the column. */
  function RowKeys(env: Env, meta: Meta, row: Row, id: Key): seq<Key> {
    if meta.column in row then KeysForValue(env, meta, row[meta.column], id) else []
  }

  // ---- reading a row id back ----

  /** Where the last 0x00 among the first n bytes stands; -1 when there is none. */
  function LastZero(k: Key, n: nat): (z: int)
    requires n <= |k|
    ensures -1 <= z < n && (z >= 0 ==> k[z] == 0)
  {
    if n == 0 then -1 else if k[n - 1] == 0 then n - 1 else LastZero(k, n - 1)
  }

  /** What follows the last 0x00; empty when there is none. */
  function AfterLastZero(k: Key): Key {
    var z := LastZero(k, |k|);
    if z < 0 then [] else k[z + 1..]
  }

  lemma {:induction false} LastZeroIs(k: Key, z: nat, n: nat)
    requires z < n <= |k| && k[z] == 0 && forall j | z < j < n :: k[j] != 0
    ensures LastZero(k, n) == z
    decreases n
  {
    if z < n - 1 {
      LastZeroIs(k, z, n - 1);
    }
  }

  lemma AfterLastZeroIs(front: Key, id: Key)
    requires NoZero(id)
    ensures AfterLastZero(front + [0] + id) == id
  {
    var k, z := front + [0] + id, |front|;
    assert k[z] == 0 && k[z + 1..] == id;
    assert forall j | z < j < |k| :: k[j] == id[j - z - 1];
    LastZeroIs(k, z, |k|);
  }

  function DecodeRowId(key: Key, prefix: Key): Key {
    if prefix <= key then AfterLastZero(key[|prefix|..]) else []
  }

  method DecodeRowID(key: Key, prefix: Key) returns (id: Key)
    ensures id == DecodeRowId(key, prefix)
  {
    if !(prefix <= key) {
      return [];
    }
    var rest := key[|prefix|..];
    var idx := |rest| - 1;
    while idx >= 0 && rest[idx] != 0
      invariant -1 <= idx < |rest| && LastZero(rest, |rest|) == LastZero(rest, idx + 1)
    {
      idx := idx - 1;
    }
    id := if idx < 0 then [] else rest[idx + 1..];
  }

  lemma EntryKeyShape(meta: Meta, valueOrTerm: Key, id: Key)
    ensures EntryKey(meta, valueOrTerm, id) == DataPrefix(meta) + (valueOrTerm + [0] + id)
    ensures DataPrefix(meta) <= EntryKey(meta, valueOrTerm, id)
    ensures NoZero(id) ==> DecodeRowId(EntryKey(meta, valueOrTerm, id), DataPrefix(meta)) == id
  {
    var k := EntryKey(meta, valueOrTerm, id);
    assert k == DataPrefix(meta) + (valueOrTerm + [0] + id);
    assert k[|DataPrefix(meta)|..] == valueOrTerm + [0] + id;
    if NoZero(id) {
      AfterLastZeroIs(valueOrTerm, id);
    }
  }

  // ---- entries of different indexes and rows have different keys ----

  lemma ZeroFirst(a: Key, x: Key)
    requires NoZero(a)
    ensures (a + [0] + x)[0] == 0 <==> a == []
  {
    if a != [] {
      assert (a + [0] + x)[0] == a[0];
    }
  }

  lemma {:induction false} NameEnds(a: Key, x: Key, b: Key, y: Key)
    requires NoZero(a) && NoZero(b) && a + [0] + x == b + [0] + y
    ensures a == b && x == y
    decreases |a|
  {
    var l, r := a + [0] + x, b + [0] + y;
    ZeroFirst(a, x);
    ZeroFirst(b, y);
    if a == [] || b == [] {
      assert a == b;
      assert l[1..] == x && r[1..] == y;
    } else {
      assert l[0] == a[0] && r[0] == b[0];
      assert l[1..] == a[1..] + [0] + x && r[1..] == b[1..] + [0] + y;
      NameEnds(a[1..], x, b[1..], y);
      assert a == [a[0]] + a[1..] && b == [b[0]] + b[1..];
    }
  }

  lemma PrefixTells(m: Meta, n: Meta, k: Key)
    requires NoZero(m.name) && NoZero(n.name) && DataPrefix(m) <= k && DataPrefix(n) <= k
    ensures m.name == n.name && m.kind == n.kind
  {
    var x, y := k[|DataPrefix(m)|..], k[|DataPrefix(n)|..];
    assert k == DataPrefix(m) + x && k == DataPrefix(n) + y;
    assert k[1] == Head(m.kind) && k[1] == Head(n.kind);
    assert k[3..] == m.name + [0] + x && k[3..] == n.name + [0] + y;
    NameEnds(m.name, x, n.name, y);
  }

  /** The key of an entry determines the index and the row. */
  lemma EntryTells(env: Env, m: Meta, v: Value, id: Key, n: Meta, w: Value, id': Key, k: Key)
    requires NoZero(m.name) && NoZero(n.name) && GoodId(id) && GoodId(id')
    requires k in KeysForValue(env, m, v, id) && k in KeysForValue(env, n, w, id')
    ensures m.name == n.name && m.kind == n.kind && id == id'
  {
    var x := TermOf(env, m, v, id, k);
    var y := TermOf(env, n, w, id', k);
    EntryKeyShape(m, x, id);
    EntryKeyShape(n, y, id');
    PrefixTells(m, n, k);
  }

  ghost function TermOf(env: Env, meta: Meta, v: Value, id: Key, k: Key): (x: Key)
    requires k in KeysForValue(env, meta, v, id)
    ensures k == EntryKey(meta, x, id)
    ensures meta.kind != Inverted ==> x == EncodeValue(v, env.ofInt)
    ensures meta.kind == Inverted ==> v.Str? && x in env.terms(v.s)
  {
    if meta.kind == Inverted then
      var i :| 0 <= i < |env.terms(v.s)| && k == EntryKeys(meta, env.terms(v.s), id)[i];
      env.terms(v.s)[i]
    else
      EncodeValue(v, env.ofInt)
  }
}
