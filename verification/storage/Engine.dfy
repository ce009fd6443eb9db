/** The key-value engine behind the interface of internal/storage/engine.go: a sorted map of byte strings. */
module Engine {
  import opened Bytes
  import opened KeyEncode

  datatype Option<T> = None | Some(value: T)

  datatype WriteOp<V> = Put(key: Key, value: V) | Delete(key: Key)

  function ApplyOne<V>(data: map<Key, V>, op: WriteOp<V>): map<Key, V> {
    match op
    case Put(k, v) => data[k := v]
    case Delete(k) => data - {k}
  }

  /** BatchWrite: the operations in their order. */
  function Apply<V>(data: map<Key, V>, ops: seq<WriteOp<V>>): map<Key, V> {
    if ops == [] then data else ApplyOne(Apply(data, ops[..|ops| - 1]), ops[|ops| - 1])
  }

  ghost function KeysIn<V>(data: map<Key, V>, start: Key, end: Bound): set<Key> {
    set k | k in data && InRange(k, start, end)
  }

  /** The keys an iterator over [start, end) visits, in order. */
  ghost function Scanned<V>(data: map<Key, V>, start: Key, end: Bound): seq<Key> {
    InOrder(KeysIn(data, start, end))
  }

  lemma {:induction false} ApplyAppend<V>(data: map<Key, V>, a: seq<WriteOp<V>>, b: seq<WriteOp<V>>)
    ensures Apply(data, a + b) == Apply(Apply(data, a), b)
    decreases |b|
  {
    if b == [] {
      assert a + b == a;
    } else {
      assert (a + b)[..|a + b| - 1] == a + b[..|b| - 1];
      ApplyAppend(data, a, b[..|b| - 1]);
    }
  }

  // ---- batches of one kind ----

  ghost predicate AllPuts<V>(ops: seq<WriteOp<V>>, keys: set<Key>, value: V) {
    && (forall op | op in ops :: op.Put? && op.value == value && op.key in keys)
    && (forall k | k in keys :: Put(k, value) in ops)
  }

  ghost predicate AllDeletes<V>(ops: seq<WriteOp<V>>, keys: set<Key>) {
    && (forall op | op in ops :: op.Delete? && op.key in keys)
    && (forall k | k in keys :: Delete(k) in ops)
  }

  function WithAll<V>(data: map<Key, V>, keys: set<Key>, value: V): map<Key, V> {
    map k | k in data.Keys + keys :: if k in keys then value else data[k]
  }

  ghost function PutKeys<V>(ops: seq<WriteOp<V>>): set<Key> {
    set op | op in ops :: op.key
  }

  lemma {:induction false} PutsApplied<V>(data: map<Key, V>, ops: seq<WriteOp<V>>, value: V)
    requires forall op | op in ops :: op.Put? && op.value == value
    ensures Apply(data, ops) == WithAll(data, PutKeys(ops), value)
  {
    if ops != [] {
      var front, last := ops[..|ops| - 1], ops[|ops| - 1];
      assert ops == front + [last];
      PutsApplied(data, front, value);
      assert PutKeys(ops) == PutKeys(front) + {last.key};
    }
  }

  lemma {:induction false} DeletesApplied<V>(data: map<Key, V>, ops: seq<WriteOp<V>>)
    requires forall op | op in ops :: op.Delete?
    ensures Apply(data, ops) == data - PutKeys(ops)
  {
    if ops != [] {
      var front, last := ops[..|ops| - 1], ops[|ops| - 1];
      assert ops == front + [last];
      DeletesApplied(data, front);
      assert last in ops && last.Delete?;
      assert PutKeys(ops) == PutKeys(front) + {last.key};
      assert data - PutKeys(front) - {last.key} == data - PutKeys(ops);
    }
  }

  lemma AllPutsApplied<V>(data: map<Key, V>, ops: seq<WriteOp<V>>, keys: set<Key>, value: V)
    requires AllPuts(ops, keys, value)
    ensures Apply(data, ops) == WithAll(data, keys, value)
  {
    PutsApplied(data, ops, value);
    forall k | k in keys ensures k in PutKeys(ops) {
      assert Put(k, value) in ops && Put(k, value).key == k;
    }
    assert PutKeys(ops) == keys;
  }

  lemma AllDeletesApplied<V>(data: map<Key, V>, ops: seq<WriteOp<V>>, keys: set<Key>)
    requires AllDeletes(ops, keys)
    ensures Apply(data, ops) == data - keys
  {
    DeletesApplied(data, ops);
    forall k | k in keys ensures k in PutKeys(ops) {
      assert WriteOp<V>.Delete(k) in ops && WriteOp<V>.Delete(k).key == k;
    }
    assert PutKeys(ops) == keys;
  }

  // ---- the engine ----

  class Store<V> {
    var data: map<Key, V>

    constructor ()
      ensures data == map[]
    {
      data := map[];
    }

    method Get(key: Key) returns (value: Option<V>)
      ensures value == if key in data then Some(data[key]) else None
    {
      value := if key in data then Some(data[key]) else None;
    }

    method Set(key: Key, value: V)
      modifies this
      ensures data == old(data)[key := value]
    {
      data := data[key := value];
    }

    method Remove(key: Key)
      modifies this
      ensures data == old(data) - {key}
    {
      data := data - {key};
    }

    method BatchWrite(ops: seq<WriteOp<V>>)
      modifies this
      ensures data == Apply(old(data), ops)
    {
      for i := 0 to |ops|
        invariant data == Apply(old(data), ops[..i])
      {
        assert ops[..i + 1][..i] == ops[..i];
        match ops[i] {
          case Put(k, v) => Set(k, v);
          case Delete(k) => Remove(k);
        }
      }
      assert ops[..|ops|] == ops;
    }

    /** Visits the keys of [start, end) from the least one up. */
    method Scan(start: Key, end: Bound) returns (keys: seq<Key>)
      ensures keys == Scanned(data, start, end)
      ensures Lists(keys, KeysIn(data, start, end))
    {
      keys := [];
      var rest := set k | k in data && InRange(k, start, end);
      while rest != {}
        invariant rest <= KeysIn(data, start, end)
        invariant Lists(keys, KeysIn(data, start, end) - rest)
        invariant forall i, k | 0 <= i < |keys| && k in rest :: Less(keys[i], k)
        decreases |rest|
      {
        HasLeast(rest);
        var k :| k in rest && IsLeast(k, rest);
        ListsMore(keys, KeysIn(data, start, end), rest, k);
        keys := keys + [k];
        rest := rest - {k};
      }
      assert KeysIn(data, start, end) - rest == KeysIn(data, start, end);
      ListIsUnique(keys, Scanned(data, start, end), KeysIn(data, start, end));
    }

    method PrefixScan(prefix: Key) returns (keys: seq<Key>)
      ensures keys == Scanned(data, prefix, PrefixEnd(prefix))
      ensures Lists(keys, KeysIn(data, prefix, PrefixEnd(prefix)))
    {
      var start, end := PrefixRange(prefix);
      keys := Scan(start, end);
    }
  }

  lemma ListsMore(keys: seq<Key>, all: set<Key>, rest: set<Key>, k: Key)
    requires rest <= all && Lists(keys, all - rest) && IsLeast(k, rest)
    requires forall i, j | 0 <= i < |keys| && j in rest :: Less(keys[i], j)
    ensures Lists(keys + [k], all - (rest - {k}))
    ensures forall i, j | 0 <= i < |keys + [k]| && j in rest - {k} :: Less((keys + [k])[i], j)
  {
    var more := keys + [k];
    forall j ensures j in more <==> j in all - (rest - {k}) {
      assert j in more <==> j in keys || j == k;
    }
  }
}
