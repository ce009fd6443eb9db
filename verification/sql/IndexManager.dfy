/**
 The index manager (internal/query/sql/index/manager.go, ops.go): index metadata by name, the write
 operations that keep entries in step with rows, and the lookups.
 */
module IndexManager {
  import opened Bytes
  import opened KeyEncode
  import opened Engine
  import opened Encoding
  import opened IndexKeys
  import opened IndexLookup
  import opened FullText

  /** What the engine stores: rows (their JSON is not part of this model) and index entries. */
  datatype Cell = RowCell(row: Row) | Mark

  type Data = map<Key, Cell>
  type Metas = map<Name, Meta>
  type Op = WriteOp<Cell>

  /** Table and column names are compared without ASCII case. */
  predicate SameName(a: Name, b: Name) {
    Fold(a) == Fold(b)
  }

  // ---- what the write operations touch ----

  ghost function AsSet(keys: seq<Key>): set<Key> {
    set k | k in keys
  }

  /** The keys of a row in all indexes of its table. */
  ghost function TableKeys(env: Env, metas: Metas, table: Name, row: Row, id: Key): set<Key> {
    set n, k | n in metas && SameName(metas[n].table, table) && k in RowKeys(env, metas[n], row, id) :: k
  }

  /** The keys of a row in the indexes of the list. */
  ghost function ListKeys(env: Env, list: seq<Meta>, row: Row, id: Key): set<Key> {
    set m, k | m in list && k in RowKeys(env, m, row, id) :: k
  }

  /** A unique index holds the row's value already, for another row (or what reads like one). */
  ghost predicate Clash(env: Env, data: Data, meta: Meta, row: Row, id: Key) {
    && meta.unique
    && meta.column in row
    && (meta.kind == Inverted || exists x :: x in Lookup(data, meta, Equal(row[meta.column]), env.ofInt) && x != id)
  }

  ghost predicate Rejected(env: Env, data: Data, metas: Metas, table: Name, row: Row, id: Key) {
    exists n :: n in metas && SameName(metas[n].table, table) && Clash(env, data, metas[n], row, id)
  }

  // ---- backfill ----

  ghost function BackfillKeys(env: Env, meta: Meta, rows: seq<Row>, ids: seq<Key>): set<Key>
    requires |rows| == |ids|
  {
    set i, k | 0 <= i < |rows| && k in RowKeys(env, meta, rows[i], ids[i]) :: k
  }

  function EncodedOf(env: Env, meta: Meta, row: Row): Option<Key> {
    if meta.column in row then Some(EncodeValue(row[meta.column], env.ofInt)) else None
  }

  ghost predicate SameEncoded(env: Env, meta: Meta, a: Row, b: Row) {
    EncodedOf(env, meta, a).Some? && EncodedOf(env, meta, a) == EncodedOf(env, meta, b)
  }

  /** Two different rows with the same encoded value in a unique index. */
  ghost predicate BatchClash(env: Env, meta: Meta, rows: seq<Row>, ids: seq<Key>)
    requires |rows| == |ids|
  {
    && meta.unique
    && ((meta.kind == Inverted && exists i :: 0 <= i < |rows| && meta.column in rows[i])
        || exists i, j :: 0 <= i < j < |rows| && ids[i] != ids[j] && SameEncoded(env, meta, rows[i], rows[j]))
  }

  ghost predicate SeenAs(env: Env, meta: Meta, row: Row, id: Key, seen: map<Key, Key>)
    requires EncodedOf(env, meta, row).Some?
  {
    EncodedOf(env, meta, row).value in seen && seen[EncodedOf(env, meta, row).value] == id
  }

  ghost predicate SomeRowHas(env: Env, meta: Meta, rows: seq<Row>, key: Key) {
    exists i :: 0 <= i < |rows| && EncodedOf(env, meta, rows[i]) == Some(key)
  }

  lemma StillHas(env: Env, meta: Meta, rows: seq<Row>, row: Row, key: Key)
    requires SomeRowHas(env, meta, rows, key)
    ensures SomeRowHas(env, meta, rows + [row], key)
  {
    var i :| 0 <= i < |rows| && EncodedOf(env, meta, rows[i]) == Some(key);
    assert (rows + [row])[i] == rows[i];
  }

  /** `seen` maps each encoded value so far to the row that has it. */
  ghost predicate Seen(env: Env, meta: Meta, rows: seq<Row>, ids: seq<Key>, seen: map<Key, Key>)
    requires |rows| == |ids|
  {
    && (forall i | 0 <= i < |rows| && EncodedOf(env, meta, rows[i]).Some? :: SeenAs(env, meta, rows[i], ids[i], seen))
    && (forall key | key in seen :: SomeRowHas(env, meta, rows, key))
  }

  lemma BatchStep(env: Env, meta: Meta, rows: seq<Row>, ids: seq<Key>, row: Row, id: Key, seen: map<Key, Key>)
    requires |rows| == |ids| && meta.column in row && !BatchClash(env, meta, rows, ids)
    requires meta.unique && meta.kind != Inverted ==> Seen(env, meta, rows, ids, seen)
    ensures var key := EncodeValue(row[meta.column], env.ofInt);
            && (BatchClash(env, meta, rows + [row], ids + [id])
                <==> meta.unique && (meta.kind == Inverted || (key in seen && seen[key] != id)))
            && (meta.unique && meta.kind != Inverted && !(key in seen && seen[key] != id) ==>
                  Seen(env, meta, rows + [row], ids + [id], seen[key := id]))
  {
    var key := EncodeValue(row[meta.column], env.ofInt);
    var rows', ids' := rows + [row], ids + [id];
    var n := |rows|;
    assert rows'[n] == row && ids'[n] == id;
    if meta.unique && meta.kind != Inverted {
      if key in seen && seen[key] != id {
        var i :| 0 <= i < n && EncodedOf(env, meta, rows[i]) == Some(key);
        assert SeenAs(env, meta, rows[i], ids[i], seen);
        assert ids'[i] != ids'[n] && SameEncoded(env, meta, rows'[i], rows'[n]);
      } else {
        forall i, j | 0 <= i < j < |rows'| && SameEncoded(env, meta, rows'[i], rows'[j]) ensures ids'[i] == ids'[j] {
          if j < n {
            NoClash(env, meta, rows, ids, i, j);
          }
        }
        SeenMore(env, meta, rows, ids, row, id, seen);
      }
    }
  }

  lemma NoClash(env: Env, meta: Meta, rows: seq<Row>, ids: seq<Key>, i: nat, j: nat)
    requires |rows| == |ids| && meta.unique && !BatchClash(env, meta, rows, ids)
    requires i < j < |rows| && SameEncoded(env, meta, rows[i], rows[j])
    ensures ids[i] == ids[j]
  {
  }

  lemma SeenMore(env: Env, meta: Meta, rows: seq<Row>, ids: seq<Key>, row: Row, id: Key, seen: map<Key, Key>)
    requires |rows| == |ids| && meta.column in row && Seen(env, meta, rows, ids, seen)
    requires var key := EncodeValue(row[meta.column], env.ofInt); key in seen ==> seen[key] == id
    ensures Seen(env, meta, rows + [row], ids + [id], seen[EncodeValue(row[meta.column], env.ofInt) := id])
  {
    var rows', ids' := rows + [row], ids + [id];
    var key := EncodeValue(row[meta.column], env.ofInt);
    assert rows'[|rows|] == row;
    forall k | k in seen[key := id] ensures SomeRowHas(env, meta, rows', k) {
      if k != key {
        StillHas(env, meta, rows, row, k);
      }
    }
    forall i | 0 <= i < |rows'| && EncodedOf(env, meta, rows'[i]).Some?
      ensures SeenAs(env, meta, rows'[i], ids'[i], seen[key := id])
    {
      if i < |rows| {
        assert SeenAs(env, meta, rows[i], ids[i], seen);
      }
    }
  }

  lemma ClashStays(env: Env, meta: Meta, rows: seq<Row>, ids: seq<Key>, n: nat)
    requires |rows| == |ids| && n <= |rows| && BatchClash(env, meta, rows[..n], ids[..n])
    ensures BatchClash(env, meta, rows, ids)
  {
    if meta.kind == Inverted && exists i :: 0 <= i < n && meta.column in rows[..n][i] {
      var i :| 0 <= i < n && meta.column in rows[..n][i];
      assert meta.column in rows[i];
    } else {
      var i, j :| 0 <= i < j < n && ids[..n][i] != ids[..n][j] && SameEncoded(env, meta, rows[..n][i], rows[..n][j]);
      assert ids[i] != ids[j] && SameEncoded(env, meta, rows[i], rows[j]);
    }
  }

  lemma NoColumn(env: Env, meta: Meta, rows: seq<Row>, ids: seq<Key>, row: Row, id: Key, seen: map<Key, Key>)
    requires |rows| == |ids| && meta.column !in row && !BatchClash(env, meta, rows, ids)
    requires meta.unique && meta.kind != Inverted ==> Seen(env, meta, rows, ids, seen)
    ensures !BatchClash(env, meta, rows + [row], ids + [id])
    ensures meta.unique && meta.kind != Inverted ==> Seen(env, meta, rows + [row], ids + [id], seen)
    ensures BackfillKeys(env, meta, rows + [row], ids + [id]) == BackfillKeys(env, meta, rows, ids)
  {
    var rows', ids' := rows + [row], ids + [id];
    if meta.unique {
      forall i, j | 0 <= i < j < |rows'| && SameEncoded(env, meta, rows'[i], rows'[j]) ensures ids'[i] == ids'[j] {
        NoClash(env, meta, rows, ids, i, j);
      }
    }
    if meta.unique && meta.kind != Inverted {
      forall k | k in seen ensures SomeRowHas(env, meta, rows', k) {
        StillHas(env, meta, rows, row, k);
      }
    }
    SnocBackfill(env, meta, rows, ids, row, id);
  }

  lemma SnocBackfill(env: Env, meta: Meta, rows: seq<Row>, ids: seq<Key>, row: Row, id: Key)
    requires |rows| == |ids|
    ensures BackfillKeys(env, meta, rows + [row], ids + [id]) ==
            BackfillKeys(env, meta, rows, ids) + AsSet(RowKeys(env, meta, row, id))
  {
    var rows', ids' := rows + [row], ids + [id];
    forall k | k in BackfillKeys(env, meta, rows, ids) ensures k in BackfillKeys(env, meta, rows', ids') {
      var i :| 0 <= i < |rows| && k in RowKeys(env, meta, rows[i], ids[i]);
      assert rows'[i] == rows[i] && ids'[i] == ids[i];
    }
    forall k | k in RowKeys(env, meta, row, id) ensures k in BackfillKeys(env, meta, rows', ids') {
      assert rows'[|rows|] == row && ids'[|rows|] == id;
    }
  }

  lemma SnocList(env: Env, list: seq<Meta>, meta: Meta, row: Row, id: Key)
    ensures ListKeys(env, list + [meta], row, id) == ListKeys(env, list, row, id) + AsSet(RowKeys(env, meta, row, id))
  {
    forall m ensures m in list + [meta] <==> m in list || m == meta {
    }
  }

  lemma JoinPuts(ops: seq<Op>, keys: set<Key>, more: seq<Op>, rowKeys: seq<Key>)
    requires AllPuts(ops, keys, Mark)
    requires forall op :: op in more <==> exists k :: k in rowKeys && op == Put(k, Mark)
    ensures AllPuts(ops + more, keys + AsSet(rowKeys), Mark)
  {
    forall k | k in rowKeys ensures Put(k, Mark) in ops + more {
      assert Put(k, Mark) in more;
    }
    forall op | op in ops + more ensures op.Put? && op.value == Mark && op.key in keys + AsSet(rowKeys) {
      assert op in ops || op in more;
    }
  }

  lemma PutsStep(env: Env, ops: seq<Op>, metas: seq<Meta>, i: nat, more: seq<Op>, row: Row, id: Key)
    requires i < |metas| && AllPuts(ops, ListKeys(env, metas[..i], row, id), Mark)
    requires forall op :: op in more <==> exists k :: k in RowKeys(env, metas[i], row, id) && op == Put(k, Mark)
    ensures AllPuts(ops + more, ListKeys(env, metas[..i + 1], row, id), Mark)
  {
    assert metas[..i + 1] == metas[..i] + [metas[i]];
    JoinPuts(ops, ListKeys(env, metas[..i], row, id), more, RowKeys(env, metas[i], row, id));
    SnocList(env, metas[..i], metas[i], row, id);
  }

  lemma JoinDeletes(ops: seq<Op>, keys: set<Key>, k: Key)
    requires AllDeletes(ops, keys)
    ensures AllDeletes(ops + [Delete(k)], keys + {k})
  {
    forall x | x in keys + {k} ensures WriteOp<Cell>.Delete(x) in ops + [Delete(k)] {
      if x in keys {
        assert WriteOp<Cell>.Delete(x) in ops;
      }
    }
  }

  lemma JoinAllDeletes(ops: seq<Op>, a: set<Key>, more: seq<Op>, b: set<Key>)
    requires AllDeletes(ops, a) && AllDeletes(more, b)
    ensures AllDeletes(ops + more, a + b)
  {
    forall x | x in a + b ensures WriteOp<Cell>.Delete(x) in ops + more {
      assert WriteOp<Cell>.Delete(x) in ops || WriteOp<Cell>.Delete(x) in more;
    }
    forall op | op in ops + more ensures op.Delete? && op.key in a + b {
      assert op in ops || op in more;
    }
  }

  lemma ListIsTable(env: Env, metas: Metas, list: seq<Meta>, table: Name, row: Row, id: Key)
    requires forall m :: m in list <==> exists n :: n in metas && metas[n] == m && SameName(m.table, table)
    ensures ListKeys(env, list, row, id) == TableKeys(env, metas, table, row, id)
  {
    forall k ensures k in ListKeys(env, list, row, id) <==> k in TableKeys(env, metas, table, row, id) {
      if k in ListKeys(env, list, row, id) {
        var m :| m in list && k in RowKeys(env, m, row, id);
        var n :| n in metas && metas[n] == m && SameName(m.table, table);
        assert k in RowKeys(env, metas[n], row, id);
      }
      if k in TableKeys(env, metas, table, row, id) {
        var n :| n in metas && SameName(metas[n].table, table) && k in RowKeys(env, metas[n], row, id);
        assert metas[n] in list;
      }
    }
  }

  /** Without any key of the index. */
  function Cleared(data: Data, meta: Meta): Data {
    map k | k in data && !(DataPrefix(meta) <= k) :: data[k]
  }

  /** The operations take the first keys out, then put the second ones in. */
  ghost predicate Replaces(ops: seq<Op>, removed: set<Key>, added: set<Key>) {
    forall data: Data {:trigger Apply(data, ops)} :: Apply(data, ops) == WithAll(data - removed, added, Mark)
  }

  class Manager {
    const engine: Store<Cell>
    const env: Env
    var byName: Metas

    constructor (engine: Store<Cell>, env: Env)
      ensures this.engine == engine && this.env == env && byName == map[]
    {
      this.engine, this.env := engine, env;
      byName := map[];
    }

    method ListByTable(table: Name) returns (out: seq<Meta>)
      ensures forall m :: m in out <==> exists n :: n in byName && byName[n] == m && SameName(m.table, table)
    {
      out := [];
      var rest := byName.Keys;
      while rest != {}
        invariant rest <= byName.Keys
        invariant forall m :: m in out <==> exists n :: n in byName.Keys - rest && byName[n] == m && SameName(m.table, table)
        decreases |rest|
      {
        var n :| n in rest;
        ghost var before := out;
        if SameName(byName[n].table, table) {
          out := out + [byName[n]];
        }
        forall m
          ensures m in out <==> exists x :: x in byName.Keys - (rest - {n}) && byName[x] == m && SameName(m.table, table)
        {
          assert m in out <==> m in before || (m == byName[n] && SameName(m.table, table));
        }
        rest := rest - {n};
      }
      assert byName.Keys - rest == byName.Keys;
    }

    method FindByColumn(table: Name, column: Name) returns (out: seq<Meta>)
      ensures forall m :: m in out <==>
                exists n :: n in byName && byName[n] == m && SameName(m.table, table) && SameName(m.column, column)
    {
      var metas := ListByTable(table);
      out := [];
      for i := 0 to |metas|
        invariant forall m :: m in out <==> m in metas[..i] && SameName(m.column, column)
      {
        ghost var before := out;
        if SameName(metas[i].column, column) {
          out := out + [metas[i]];
        }
        assert metas[..i + 1] == metas[..i] + [metas[i]];
        forall m ensures m in out <==> m in metas[..i + 1] && SameName(m.column, column) {
          assert m in out <==> m in before || (m == metas[i] && SameName(m.column, column));
        }
      }
      assert metas[..|metas|] == metas;
    }

    // ---- index metadata ----

    method Create(meta: Meta, ifNotExists: bool) returns (ok: bool)
      modifies this
      ensures ok <==> meta.name != [] && meta.table != [] && meta.column != [] && (meta.name in old(byName) ==> ifNotExists)
      ensures byName == if ok && meta.name !in old(byName) then old(byName)[meta.name := meta] else old(byName)
    {
      if meta.name == [] || meta.table == [] || meta.column == [] {
        return false;
      }
      if meta.name in byName {
        return ifNotExists;
      }
      byName := byName[meta.name := meta];
      ok := true;
    }

    /** Forgets the index and deletes every key under its data prefix. */
    method Drop(name: Name, ifExists: bool) returns (ok: bool)
      modifies this, engine
      ensures ok <==> name in old(byName) || ifExists
      ensures byName == old(byName) - {name}
      ensures engine.data == if name in old(byName) then Cleared(old(engine.data), old(byName)[name]) else old(engine.data)
    {
      if name !in byName {
        assert byName - {name} == byName;
        return ifExists;
      }
      var meta := byName[name];
      byName := byName - {name};
      var prefix := DataPrefix(meta);
      var keys := engine.PrefixScan(prefix);
      var ops := KeyDeletes(keys);
      LowPrefixIsExact(prefix);
      AllDeletesApplied(engine.data, ops, AsSet(keys));
      assert engine.data - AsSet(keys) == Cleared(engine.data, meta);
      engine.BatchWrite(ops);
      ok := true;
    }

    // ---- lookups ----

    method ReadIds(meta: Meta, span: Span, keys: seq<Key>) returns (ids: seq<Key>)
      ensures ids == IdsOf(meta, span, env.ofInt, keys)
    {
      ids := [];
      for i := 0 to |keys|
        invariant ids == IdsOf(meta, span, env.ofInt, keys[..i])
      {
        assert keys[..i + 1][..i] == keys[..i];
        var id := IdOf(meta, span, env.ofInt, keys[i]);
        if id != [] {
          ids := ids + [id];
        }
      }
      assert keys[..|keys|] == keys;
    }

    method LookupEqual(meta: Meta, v: Value) returns (ids: seq<Key>)
      ensures ids == Lookup(engine.data, meta, Equal(v), env.ofInt)
    {
      var prefix := EntryKeyPrefix(meta, EncodeValue(v, env.ofInt));
      var keys := engine.PrefixScan(prefix);
      ids := ReadIds(meta, Equal(v), keys);
    }

    method LookupRange(meta: Meta, low: Value, high: Value, includeLow: bool, includeHigh: bool) returns (ids: seq<Key>)
      ensures ids == Lookup(engine.data, meta, Range(low, high, includeLow, includeHigh), env.ofInt)
    {
      var dataPrefix := DataPrefix(meta);
      var start := dataPrefix;
      if low != Null {
        start := EntryKeyPrefix(meta, EncodeValue(low, env.ofInt));
        if !includeLow {
          start := start + [0xFF];
        }
      }
      var end: Bound;
      if high == Null {
        var _, e := PrefixRange(dataPrefix);
        end := e;
      } else {
        var key := EntryKeyPrefix(meta, EncodeValue(high, env.ofInt));
        if includeHigh {
          key := key + [0xFF];
        }
        end := Before(key);
      }
      var keys := engine.Scan(start, end);
      ids := ReadIds(meta, Range(low, high, includeLow, includeHigh), keys);
    }

    // ---- full text ----

    method ScanRowIDs(prefix: Key) returns (ids: seq<Key>)
      ensures ids == IdsBehind(prefix, Scanned(engine.data, prefix, PrefixEnd(prefix)))
    {
      var keys := engine.PrefixScan(prefix);
      ids := [];
      for i := 0 to |keys|
        invariant ids == IdsBehind(prefix, keys[..i])
      {
        assert keys[..i + 1][..i] == keys[..i];
        if prefix < keys[i] {
          ids := ids + [keys[i][|prefix|..]];
        }
      }
      assert keys[..|keys|] == keys;
    }

    method LookupTerm(meta: Meta, term: Key) returns (ids: seq<Key>)
      ensures ids == TermIds(env, engine.data, meta, term)
    {
      var folded := env.fold(term);
      if folded == [] {
        return [];
      }
      ids := ScanRowIDs(EntryKeyPrefix(meta, folded));
    }

    /** The rows under all terms of the query, each once, in no particular order. */
    method Match(meta: Meta, query: Key) returns (out: seq<Key>)
      ensures AsSet(out) == Common(env, engine.data, meta, env.terms(query)) && |out| == |AsSet(out)|
    {
      var terms := env.terms(query);
      if terms == [] {
        return [];
      }
      var acc: set<Key> := {};
      for i := 0 to |terms|
        invariant acc == Common(env, engine.data, meta, terms[..i])
      {
        CommonNext(env, engine.data, meta, terms, i);
        var found := FindTerm(meta, terms[i]);
        if i == 0 {
          acc := found;
          continue;
        }
        acc := acc * found;
        if acc == {} {
          CommonShrinks(env, engine.data, meta, terms, i + 1);
          return [];
        }
      }
      assert terms[..|terms|] == terms;
      out := ListSet(acc);
    }

    method FindTerm(meta: Meta, term: Key) returns (found: set<Key>)
      ensures found == TermSet(env, engine.data, meta, term)
    {
      var ids := LookupTerm(meta, term);
      found := set id | id in ids;
    }

    method ListSet(s: set<Key>) returns (out: seq<Key>)
      ensures AsSet(out) == s && |out| == |s|
    {
      out := [];
      var rest := s;
      while rest != {}
        invariant rest <= s && AsSet(out) == s - rest && |out| == |s| - |rest|
        decreases rest
      {
        var k :| k in rest;
        assert AsSet(out + [k]) == AsSet(out) + {k};
        out := out + [k];
        rest := rest - {k};
      }
    }

    // ---- keeping entries in step with rows ----

    method ValidateUnique(meta: Meta, row: Row, id: Key) returns (ok: bool)
      requires meta.column in row
      ensures ok <==> !Clash(env, engine.data, meta, row, id)
    {
      if !meta.unique {
        return true;
      }
      if meta.kind == Inverted {
        return false;
      }
      var ids := LookupEqual(meta, row[meta.column]);
      for i := 0 to |ids|
        invariant forall j | 0 <= j < i :: ids[j] == id
      {
        if ids[i] != id {
          assert ids[i] in ids;
          return false;
        }
      }
      return true;
    }

    method RowPuts(meta: Meta, row: Row, id: Key) returns (ops: seq<Op>)
      requires meta.column in row
      ensures forall op :: op in ops <==> exists k :: k in RowKeys(env, meta, row, id) && op == Put(k, Mark)
    {
      var keys := KeysForValue(env, meta, row[meta.column], id);
      ops := [];
      for i := 0 to |keys|
        invariant forall op :: op in ops <==> exists k :: k in keys[..i] && op == Put(k, Mark)
      {
        ghost var before := ops;
        ops := ops + [Put(keys[i], Mark)];
        assert keys[..i + 1] == keys[..i] + [keys[i]];
        forall op ensures op in ops <==> exists k :: k in keys[..i + 1] && op == Put(k, Mark) {
          assert op in ops <==> op in before || op == Put(keys[i], Mark);
        }
      }
      assert keys[..|keys|] == keys;
    }

    /** One turn of the loop in InsertRowOps. */
    method InsertEntryOps(meta: Meta, row: Row, id: Key) returns (ok: bool, ops: seq<Op>)
      ensures ok <==> !Clash(env, engine.data, meta, row, id)
      ensures ok ==> forall op :: op in ops <==> exists k :: k in RowKeys(env, meta, row, id) && op == Put(k, Mark)
    {
      if meta.column !in row {
        return true, [];
      }
      ops := [];
      ok := ValidateUnique(meta, row, id);
      if ok {
        ops := RowPuts(meta, row, id);
      }
    }

    method InsertRowOps(table: Name, row: Row, id: Key) returns (ok: bool, ops: seq<Op>)
      ensures ok <==> !Rejected(env, engine.data, byName, table, row, id)
      ensures ok ==> AllPuts(ops, TableKeys(env, byName, table, row, id), Mark)
      ensures !ok ==> ops == []
    {
      var metas := ListByTable(table);
      ops := [];
      for i := 0 to |metas|
        invariant AllPuts(ops, ListKeys(env, metas[..i], row, id), Mark)
        invariant forall j | 0 <= j < i :: !Clash(env, engine.data, metas[j], row, id)
      {
        var meta := metas[i];
        assert meta in metas;
        var valid, more := InsertEntryOps(meta, row, id);
        if !valid {
          return false, [];
        }
        PutsStep(env, ops, metas, i, more, row, id);
        ops := ops + more;
      }
      assert metas[..|metas|] == metas;
      ListIsTable(env, byName, metas, table, row, id);
      ok := true;
    }

    method KeyDeletes(keys: seq<Key>) returns (ops: seq<Op>)
      ensures AllDeletes(ops, AsSet(keys))
    {
      ops := [];
      for i := 0 to |keys|
        invariant AllDeletes(ops, AsSet(keys[..i]))
      {
        JoinDeletes(ops, AsSet(keys[..i]), keys[i]);
        ops := ops + [Delete(keys[i])];
        assert keys[..i + 1] == keys[..i] + [keys[i]];
        assert AsSet(keys[..i]) + {keys[i]} == AsSet(keys[..i + 1]);
      }
      assert keys[..|keys|] == keys;
    }

    method DeleteRowOps(table: Name, row: Row, id: Key) returns (ops: seq<Op>)
      ensures AllDeletes(ops, TableKeys(env, byName, table, row, id))
    {
      var metas := ListByTable(table);
      ops := [];
      for i := 0 to |metas|
        invariant AllDeletes(ops, ListKeys(env, metas[..i], row, id))
      {
        var meta := metas[i];
        assert metas[..i + 1] == metas[..i] + [meta];
        if meta.column in row {
          var keys := KeysForValue(env, meta, row[meta.column], id);
          var more := KeyDeletes(keys);
          JoinAllDeletes(ops, ListKeys(env, metas[..i], row, id), more, AsSet(keys));
          ops := ops + more;
          SnocList(env, metas[..i], meta, row, id);
        } else {
          SnocList(env, metas[..i], meta, row, id);
        }
      }
      assert metas[..|metas|] == metas;
      ListIsTable(env, byName, metas, table, row, id);
    }

    /** The old entries are deleted before the new ones are put. */
    method UpdateRowOps(table: Name, oldRow: Row, newRow: Row, id: Key) returns (ok: bool, ops: seq<Op>)
      ensures ok <==> !Rejected(env, engine.data, byName, table, newRow, id)
      ensures ok ==> Replaces(ops, TableKeys(env, byName, table, oldRow, id), TableKeys(env, byName, table, newRow, id))
    {
      var inserts: seq<Op>;
      ok, inserts := InsertRowOps(table, newRow, id);
      if !ok {
        return false, [];
      }
      var deletes := DeleteRowOps(table, oldRow, id);
      ops := deletes + inserts;
      forall data: Data
        ensures Apply(data, deletes + inserts) ==
                WithAll(data - TableKeys(env, byName, table, oldRow, id), TableKeys(env, byName, table, newRow, id), Mark)
      {
        ApplyAppend(data, deletes, inserts);
        AllDeletesApplied(data, deletes, TableKeys(env, byName, table, oldRow, id));
        AllPutsApplied(Apply(data, deletes), inserts, TableKeys(env, byName, table, newRow, id), Mark);
      }
    }

    /** Writes the entries of rows that were there before the index; on a clash it writes nothing. */
    method RebuildFromRows(meta: Meta, rows: seq<Row>, ids: seq<Key>) returns (ok: bool)
      requires |rows| == |ids|
      modifies engine
      ensures ok <==> !BatchClash(env, meta, rows, ids)
      ensures engine.data == if ok then WithAll(old(engine.data), BackfillKeys(env, meta, rows, ids), Mark) else old(engine.data)
    {
      var ops: seq<Op>, seen: map<Key, Key> := [], map[];
      for i := 0 to |rows|
        invariant engine.data == old(engine.data)
        invariant AllPuts(ops, BackfillKeys(env, meta, rows[..i], ids[..i]), Mark)
        invariant !BatchClash(env, meta, rows[..i], ids[..i])
        invariant meta.unique && meta.kind != Inverted ==> Seen(env, meta, rows[..i], ids[..i], seen)
      {
        assert rows[..i + 1] == rows[..i] + [rows[i]] && ids[..i + 1] == ids[..i] + [ids[i]];
        if meta.column in rows[i] {
          BatchStep(env, meta, rows[..i], ids[..i], rows[i], ids[i], seen);
          var valid;
          valid, seen := ValidateUniqueInBatch(meta, rows[i][meta.column], ids[i], seen);
          if !valid {
            ClashStays(env, meta, rows, ids, i + 1);
            return false;
          }
          var more := RowPuts(meta, rows[i], ids[i]);
          JoinPuts(ops, BackfillKeys(env, meta, rows[..i], ids[..i]), more, RowKeys(env, meta, rows[i], ids[i]));
          SnocBackfill(env, meta, rows[..i], ids[..i], rows[i], ids[i]);
          ops := ops + more;
        } else {
          NoColumn(env, meta, rows[..i], ids[..i], rows[i], ids[i], seen);
        }
      }
      assert rows[..|rows|] == rows && ids[..|ids|] == ids;
      AllPutsApplied(engine.data, ops, BackfillKeys(env, meta, rows, ids), Mark);
      engine.BatchWrite(ops);
      ok := true;
    }

    method ValidateUniqueInBatch(meta: Meta, v: Value, id: Key, seen: map<Key, Key>) returns (ok: bool, seen': map<Key, Key>)
      ensures !meta.unique ==> ok && seen' == seen
      ensures meta.unique && meta.kind == Inverted ==> !ok
      ensures meta.unique && meta.kind != Inverted ==>
                var key := EncodeValue(v, env.ofInt);
                (ok <==> !(key in seen && seen[key] != id)) && (ok ==> seen' == seen[key := id])
    {
      ok, seen' := true, seen;
      if !meta.unique {
        return;
      }
      if meta.kind == Inverted {
        ok := false;
        return;
      }
      var key := EncodeValue(v, env.ofInt);
      if key in seen && seen[key] != id {
        ok := false;
        return;
      }
      seen' := seen[key := id];
    }
  }
}
