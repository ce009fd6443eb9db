/**
 The table and its indexes under every write the executor makes (internal/query/sql/executor.go):
 each live index is the exact image of its table, no key of a dropped index is left, and unique
 indexes stay unique.
 */
module IndexUpkeep {
  import opened Bytes
  import opened KeyEncode
  import opened Engine
  import opened Encoding
  import opened IndexKeys
  import opened IndexLookup
  import opened IndexManager

  /** User tables and the first byte of their keys. */
  type Tables = map<Name, Byte>

  datatype Db = Db(data: Data, metas: Metas)

  const ID: Name := [0x69, 0x64]

  ghost function RowIds(data: Data, prefix: Byte): set<Key> {
    set k | k in data && k != [] && k[0] == prefix && data[k].RowCell? :: k[1..]
  }

  lemma RowIdIs(data: Data, prefix: Byte, id: Key)
    ensures id in RowIds(data, prefix) <==> EncodeKey(prefix, id) in data && data[EncodeKey(prefix, id)].RowCell?
  {
    var k := EncodeKey(prefix, id);
    assert k[1..] == id && k[0] == prefix;
    if id in RowIds(data, prefix) {
      var j :| j in data && j != [] && j[0] == prefix && data[j].RowCell? && j[1..] == id;
      assert j == [j[0]] + j[1..];
    }
  }

  ghost function RowsOf(data: Data, prefix: Byte): (rows: Rows)
    ensures forall id :: id in rows <==> EncodeKey(prefix, id) in data && data[EncodeKey(prefix, id)].RowCell?
    ensures forall id | id in rows :: rows[id] == data[EncodeKey(prefix, id)].row
  {
    assert forall id {:trigger EncodeKey(prefix, id)} ::
        id in RowIds(data, prefix) <==> EncodeKey(prefix, id) in data && data[EncodeKey(prefix, id)].RowCell? by {
      forall id ensures id in RowIds(data, prefix) <==> EncodeKey(prefix, id) in data && data[EncodeKey(prefix, id)].RowCell? {
        RowIdIs(data, prefix, id);
      }
    }
    map id | id in RowIds(data, prefix) :: data[EncodeKey(prefix, id)].row
  }

  // ---- the invariant ----

  ghost predicate GoodTables(tables: Tables) {
    && (forall t | t in tables :: 0x30 <= tables[t] <= 0xFE)
    && (forall t, u | t in tables && u in tables && t != u :: tables[t] != tables[u] && !SameName(t, u))
  }

  ghost predicate GoodMetas(tables: Tables, metas: Metas) {
    forall n | n in metas :: metas[n].name == n && NoZero(n) && metas[n].table in tables
  }

  /** The key of a row is its table's byte and its id, which the row repeats. */
  ghost predicate GoodRow(row: Row, id: Key) {
    GoodId(id) && ID in row && row[ID] == Str(id)
  }

  ghost predicate GoodData(tables: Tables, data: Data) {
    forall k, t | k in data && t in tables && k != [] && k[0] == tables[t] :: data[k].RowCell? && GoodRow(data[k].row, k[1..])
  }

  /** Every key in the index space belongs to a live index. */
  ghost predicate NoStray(db: Db) {
    forall k | k in db.data && k != [] && k[0] == PREFIX_INDEX :: exists n :: n in db.metas && DataPrefix(db.metas[n]) <= k
  }

  ghost predicate Exact(env: Env, tables: Tables, db: Db, n: Name)
    requires n in db.metas && db.metas[n].table in tables
  {
    Image(env, db.data, db.metas[n], RowsOf(db.data, tables[db.metas[n].table]))
  }

  ghost predicate Inv(env: Env, tables: Tables, db: Db) {
    && GoodTables(tables)
    && GoodMetas(tables, db.metas)
    && GoodData(tables, db.data)
    && NoStray(db)
    && forall n {:trigger Exact(env, tables, db, n)} | n in db.metas :: Exact(env, tables, db, n)
  }

  /** No two rows have the same encoded value in the index. */
  ghost predicate Distinct(env: Env, meta: Meta, rows: Rows) {
    forall a, b | a in rows && b in rows && a != b && meta.column in rows[a] && meta.column in rows[b] ::
      !SameInIndex(rows[a][meta.column], rows[b][meta.column], env.ofInt)
  }

  ghost predicate UniqueHolds(env: Env, tables: Tables, db: Db)
    requires GoodMetas(tables, db.metas)
  {
    forall n {:trigger db.metas[n]} | n in db.metas && db.metas[n].unique ::
      && db.metas[n].kind != Inverted
      && Distinct(env, db.metas[n], RowsOf(db.data, tables[db.metas[n].table]))
  }

  // ---- the writes ----

  /** One batch: the row, then the entries of the old row out, then those of the new row in. */
  ghost function Replaced(env: Env, metas: Metas, data: Data, prefix: Byte, table: Name, id: Key,
                          old_: Option<Row>, new_: Option<Row>): Data
  {
    var key := EncodeKey(prefix, id);
    var base := if new_.Some? then data[key := RowCell(new_.value)] else data - {key};
    var removed := if old_.Some? then TableKeys(env, metas, table, old_.value, id) else {};
    var added := if new_.Some? then TableKeys(env, metas, table, new_.value, id) else {};
    WithAll(base - removed, added, Mark)
  }

  /** The entries of all rows in one index. */
  ghost function AllEntries(env: Env, meta: Meta, rows: Rows): set<Key> {
    set id, k | id in rows && k in RowKeys(env, meta, rows[id], id) :: k
  }

  /** Two rows whose values encode alike in a unique index. */
  ghost predicate RowsClash(env: Env, meta: Meta, rows: Rows) {
    && meta.unique
    && ((meta.kind == Inverted && exists a :: a in rows && meta.column in rows[a])
        || exists a, b :: a in rows && b in rows && a != b && SameEncoded(env, meta, rows[a], rows[b]))
  }

  datatype Write =
    | Insert(table: Name, id: Key, row: Row)
    | Update(table: Name, id: Key, row: Row)
    | Delete(table: Name, id: Key)
    | CreateIndex(meta: Meta, ifNotExists: bool)
    | DropIndex(name: Name)

  ghost function RowAt(tables: Tables, db: Db, table: Name, id: Key): Option<Row> {
    if table in tables && id in RowsOf(db.data, tables[table]) then Some(RowsOf(db.data, tables[table])[id]) else None
  }

  /** Creating an index backfills it; a clash drops it again, even if it was there before. */
  ghost function Created(env: Env, tables: Tables, db: Db, meta: Meta, ifNotExists: bool): Db
    requires meta.table in tables
  {
    if meta.unique && meta.kind == Inverted then db
    else if meta.name == [] || meta.table == [] || meta.column == [] then db
    else if meta.name in db.metas && !ifNotExists then db
    else
      var live := if meta.name in db.metas then db.metas[meta.name] else meta;
      var rows := RowsOf(db.data, tables[meta.table]);
      if RowsClash(env, live, rows) then
        Db(Cleared(db.data, live), db.metas - {meta.name})
      else
        Db(WithAll(db.data, AllEntries(env, live, rows), Mark), db.metas[meta.name := live])
  }

  ghost function Do(env: Env, tables: Tables, db: Db, w: Write): Db {
    match w
    case Insert(table, id, row) =>
      if table !in tables || RowAt(tables, db, table, id).Some? || Rejected(env, db.data, db.metas, table, row, id) then db
      else db.(data := Replaced(env, db.metas, db.data, tables[table], table, id, None, Some(row)))
    case Update(table, id, row) =>
      var was := RowAt(tables, db, table, id);
      if table !in tables || was.None? || Rejected(env, db.data, db.metas, table, row, id) then db
      else db.(data := Replaced(env, db.metas, db.data, tables[table], table, id, was, Some(row)))
    case Delete(table, id) =>
      var was := RowAt(tables, db, table, id);
      if table !in tables || was.None? then db
      else db.(data := Replaced(env, db.metas, db.data, tables[table], table, id, was, None))
    case CreateIndex(meta, ifNotExists) =>
      if meta.table !in tables then db else Created(env, tables, db, meta, ifNotExists)
    case DropIndex(name) =>
      if name in db.metas then Db(Cleared(db.data, db.metas[name]), db.metas - {name}) else db
  }

  /** Rows carry a usable id, and a repeated CREATE INDEX IF NOT EXISTS names the table the index is on. */
  ghost predicate Proper(db: Db, w: Write) {
    match w
    case Insert(_, id, row) => GoodRow(row, id)
    case Update(_, id, row) => GoodRow(row, id)
    case Delete(_, _) => true
    case CreateIndex(meta, _) => NoZero(meta.name) && (meta.name in db.metas ==> db.metas[meta.name].table == meta.table)
    case DropIndex(_) => true
  }

  // ---- one row changes ----

  /** Among keys of one index, the table's keys of a row are that index's. */
  lemma OwnKeys(env: Env, tables: Tables, metas: Metas, table: Name, row: Row, id: Key, n: Name, k: Key)
    requires GoodMetas(tables, metas) && n in metas && DataPrefix(metas[n]) <= k
    ensures k in TableKeys(env, metas, table, row, id) <==> SameName(metas[n].table, table) && k in RowKeys(env, metas[n], row, id)
  {
    if k in TableKeys(env, metas, table, row, id) {
      var m :| m in metas && SameName(metas[m].table, table) && k in RowKeys(env, metas[m], row, id);
      RowKeyPrefix(env, metas[m], row, id, k);
      PrefixTells(metas[n], metas[m], k);
      assert m == n;
    }
  }

  lemma RowKeyPrefix(env: Env, meta: Meta, row: Row, id: Key, k: Key)
    requires k in RowKeys(env, meta, row, id)
    ensures DataPrefix(meta) <= k && k != [] && k[0] == PREFIX_INDEX
  {
    var x := TermOf(env, meta, row[meta.column], id, k);
    EntryKeyShape(meta, x, id);
  }

  lemma TableKeyPrefix(env: Env, metas: Metas, table: Name, row: Row, id: Key, k: Key)
    requires k in TableKeys(env, metas, table, row, id)
    ensures k != [] && k[0] == PREFIX_INDEX
    ensures exists n :: n in metas && DataPrefix(metas[n]) <= k
  {
    var m :| m in metas && SameName(metas[m].table, table) && k in RowKeys(env, metas[m], row, id);
    RowKeyPrefix(env, metas[m], row, id, k);
  }

  /** Two rows of a table have no index key in common. */
  lemma KeysDiffer(env: Env, meta: Meta, a: Row, id: Key, b: Row, id': Key, k: Key)
    requires NoZero(meta.name) && GoodId(id) && GoodId(id')
    requires k in RowKeys(env, meta, a, id) && k in RowKeys(env, meta, b, id')
    ensures id == id'
  {
    EntryTells(env, meta, a[meta.column], id, meta, b[meta.column], id', k);
  }

  /** What stands at a key after one row was replaced. */
  lemma ReplacedAt(env: Env, metas: Metas, data: Data, prefix: Byte, table: Name, id: Key,
                   was: Option<Row>, now: Option<Row>, k: Key)
    requires prefix != PREFIX_INDEX
    ensures var data' := Replaced(env, metas, data, prefix, table, id, was, now);
            && (k == EncodeKey(prefix, id) ==> (k in data' <==> now.Some?) && (now.Some? ==> data'[k] == RowCell(now.value)))
            && ((k == [] || k[0] != PREFIX_INDEX) && k != EncodeKey(prefix, id) ==>
                  (k in data' <==> k in data) && (k in data ==> data'[k] == data[k]))
            && (k != [] && k[0] == PREFIX_INDEX ==>
                  (k in data' <==>
                    || (now.Some? && k in TableKeys(env, metas, table, now.value, id))
                    || (k in data && !(was.Some? && k in TableKeys(env, metas, table, was.value, id)))))
  {
    if now.Some? && k in TableKeys(env, metas, table, now.value, id) {
      TableKeyPrefix(env, metas, table, now.value, id, k);
    }
    if was.Some? && k in TableKeys(env, metas, table, was.value, id) {
      TableKeyPrefix(env, metas, table, was.value, id, k);
    }
  }

  ghost predicate Replacing(env: Env, tables: Tables, db: Db, table: Name, id: Key, was: Option<Row>, now: Option<Row>) {
    && table in tables
    && was == RowAt(tables, db, table, id)
    && (now.Some? ==> GoodRow(now.value, id))
    && (was.Some? || now.Some?)
  }

  ghost function After(env: Env, tables: Tables, db: Db, table: Name, id: Key, was: Option<Row>, now: Option<Row>): Db
    requires table in tables
  {
    db.(data := Replaced(env, db.metas, db.data, tables[table], table, id, was, now))
  }

  /** Of all tables only one row changes. */
  ghost predicate OneRowChanges(tables: Tables, data: Data, data': Data, table: Name, id: Key, now: Option<Row>) {
    forall t, x {:trigger RowChanges(tables, data, data', table, id, now, t, x)} | t in tables ::
      RowChanges(tables, data, data', table, id, now, t, x)
  }

  ghost predicate RowChanges(tables: Tables, data: Data, data': Data, table: Name, id: Key, now: Option<Row>, t: Name, x: Key)
    requires t in tables
  {
    var k := EncodeKey(tables[t], x);
    if t == table && x == id then (k in data' <==> now.Some?) && (now.Some? ==> data'[k] == RowCell(now.value))
    else (k in data' <==> k in data) && (k in data ==> data'[k] == data[k])
  }

  /** The rows of every table afterwards. */
  lemma RowsAfter(tables: Tables, data: Data, data': Data, table: Name, id: Key, now: Option<Row>, t: Name)
    requires t in tables && OneRowChanges(tables, data, data', table, id, now)
    ensures RowsOf(data', tables[t]) ==
            if t != table then RowsOf(data, tables[t])
            else if now.Some? then RowsOf(data, tables[t])[id := now.value] else RowsOf(data, tables[t]) - {id}
  {
    var rows, rows' := RowsOf(data, tables[t]), RowsOf(data', tables[t]);
    forall x
      ensures x in rows' <==> if t == table && x == id then now.Some? else x in rows
      ensures x in rows' ==> rows'[x] == if t == table && x == id then now.value else rows[x]
    {
      assert RowChanges(tables, data, data', table, id, now, t, x);
      assert EncodeKey(tables[t], x) in data' ==> x in rows' || !data'[EncodeKey(tables[t], x)].RowCell?;
    }
  }

  lemma AfterChanges(env: Env, tables: Tables, db: Db, table: Name, id: Key, was: Option<Row>, now: Option<Row>)
    requires GoodTables(tables) && table in tables
    ensures OneRowChanges(tables, db.data, After(env, tables, db, table, id, was, now).data, table, id, now)
  {
    forall t, x | t in tables
      ensures RowChanges(tables, db.data, After(env, tables, db, table, id, was, now).data, table, id, now, t, x)
    {
      KeysOfRows(tables, table, id, t, x);
      ReplacedAt(env, db.metas, db.data, tables[table], table, id, was, now, EncodeKey(tables[t], x));
    }
  }

  lemma KeysOfRows(tables: Tables, t: Name, a: Key, u: Name, b: Key)
    requires GoodTables(tables) && t in tables && u in tables
    ensures EncodeKey(tables[t], a) == EncodeKey(tables[u], b) <==> t == u && a == b
    ensures EncodeKey(tables[t], a)[0] == tables[t] != PREFIX_INDEX
  {
    assert EncodeKey(tables[t], a)[1..] == a && EncodeKey(tables[u], b)[1..] == b;
    assert EncodeKey(tables[t], a)[0] == tables[t] && EncodeKey(tables[u], b)[0] == tables[u];
  }

  lemma DataAfter(tables: Tables, data: Data, data': Data, table: Name, id: Key, now: Option<Row>)
    requires GoodData(tables, data) && OneRowChanges(tables, data, data', table, id, now)
    requires now.Some? ==> GoodRow(now.value, id)
    ensures GoodData(tables, data')
  {
    forall k, t | k in data' && t in tables && k != [] && k[0] == tables[t]
      ensures data'[k].RowCell? && GoodRow(data'[k].row, k[1..])
    {
      assert k == EncodeKey(tables[t], k[1..]);
      assert RowChanges(tables, data, data', table, id, now, t, k[1..]);
    }
  }

  lemma StrayAfter(env: Env, tables: Tables, db: Db, table: Name, id: Key, was: Option<Row>, now: Option<Row>)
    requires GoodTables(tables) && NoStray(db) && table in tables
    ensures NoStray(After(env, tables, db, table, id, was, now))
  {
    var data' := After(env, tables, db, table, id, was, now).data;
    forall k | k in data' && k != [] && k[0] == PREFIX_INDEX
      ensures exists n :: n in db.metas && DataPrefix(db.metas[n]) <= k
    {
      ReplacedAt(env, db.metas, db.data, tables[table], table, id, was, now, k);
      if now.Some? && k in TableKeys(env, db.metas, table, now.value, id) {
        TableKeyPrefix(env, db.metas, table, now.value, id, k);
      }
    }
  }

  lemma GoodIds(tables: Tables, data: Data, t: Name)
    requires GoodData(tables, data) && t in tables
    ensures GoodRows(RowsOf(data, tables[t]))
  {
    var rows := RowsOf(data, tables[t]);
    forall id | id in rows ensures GoodId(id) {
      var k := EncodeKey(tables[t], id);
      assert k in data && k[0] == tables[t] && k[1..] == id;
    }
  }

  /** An index of another table is not touched. */
  lemma OtherImage(env: Env, tables: Tables, db: Db, table: Name, id: Key, was: Option<Row>, now: Option<Row>, n: Name)
    requires Inv(env, tables, db) && Replacing(env, tables, db, table, id, was, now)
    requires n in db.metas && db.metas[n].table != table
    ensures Exact(env, tables, After(env, tables, db, table, id, was, now), n)
  {
    var meta, data' := db.metas[n], After(env, tables, db, table, id, was, now).data;
    assert Exact(env, tables, db, n);
    AfterChanges(env, tables, db, table, id, was, now);
    RowsAfter(tables, db.data, data', table, id, now, meta.table);
    forall k ensures k in data' && DataPrefix(meta) <= k <==> k in db.data && DataPrefix(meta) <= k {
      if DataPrefix(meta) <= k {
        ReplacedAt(env, db.metas, db.data, tables[table], table, id, was, now, k);
        if now.Some? {
          OwnKeys(env, tables, db.metas, table, now.value, id, n, k);
        }
        if was.Some? {
          OwnKeys(env, tables, db.metas, table, was.value, id, n, k);
        }
      }
    }
  }

  /** An index of the table follows the row: at every key, its image changes as the table does. */
  lemma ImageAt(env: Env, meta: Meta, rows: Rows, id: Key, was: Option<Row>, now: Option<Row>, k: Key)
    requires NoZero(meta.name) && GoodRows(rows) && GoodId(id)
    requires was == if id in rows then Some(rows[id]) else None
    ensures var rows' := if now.Some? then rows[id := now.value] else rows - {id};
            KeyOfSome(env, meta, rows', k) <==>
              || (now.Some? && k in RowKeys(env, meta, now.value, id))
              || (KeyOfSome(env, meta, rows, k) && !(was.Some? && k in RowKeys(env, meta, was.value, id)))
  {
    var rows' := if now.Some? then rows[id := now.value] else rows - {id};
    if KeyOfSome(env, meta, rows', k) {
      var x :| KeyOfRow(env, meta, rows', x, k);
      if x != id {
        assert KeyOfRow(env, meta, rows, x, k);
        if was.Some? && k in RowKeys(env, meta, was.value, id) {
          KeysDiffer(env, meta, was.value, id, rows[x], x, k);
        }
      }
    }
    if now.Some? && k in RowKeys(env, meta, now.value, id) {
      assert KeyOfRow(env, meta, rows', id, k);
    }
    if KeyOfSome(env, meta, rows, k) && !(was.Some? && k in RowKeys(env, meta, was.value, id)) {
      var x :| KeyOfRow(env, meta, rows, x, k);
      StaysIn(env, meta, rows, id, now, x, k);
    }
  }

  /** A key of another row, or one the replaced row did not have. */
  lemma StaysIn(env: Env, meta: Meta, rows: Rows, id: Key, now: Option<Row>, x: Key, k: Key)
    requires KeyOfRow(env, meta, rows, x, k)
    requires id in rows ==> k !in RowKeys(env, meta, rows[id], id)
    ensures KeyOfSome(env, meta, if now.Some? then rows[id := now.value] else rows - {id}, k)
  {
    assert KeyOfRow(env, meta, if now.Some? then rows[id := now.value] else rows - {id}, x, k);
  }

  lemma OwnImage(env: Env, tables: Tables, db: Db, table: Name, id: Key, was: Option<Row>, now: Option<Row>, n: Name)
    requires Inv(env, tables, db) && Replacing(env, tables, db, table, id, was, now)
    requires n in db.metas && db.metas[n].table == table
    ensures Exact(env, tables, After(env, tables, db, table, id, was, now), n)
  {
    var meta, data' := db.metas[n], After(env, tables, db, table, id, was, now).data;
    var rows := RowsOf(db.data, tables[table]);
    assert Exact(env, tables, db, n);
    AfterChanges(env, tables, db, table, id, was, now);
    RowsAfter(tables, db.data, data', table, id, now, table);
    GoodIds(tables, db.data, table);
    assert GoodId(id);
    forall k ensures k in data' && DataPrefix(meta) <= k <==> KeyOfSome(env, meta, RowsOf(data', tables[table]), k) {
      ImageAt(env, meta, rows, id, was, now, k);
      if DataPrefix(meta) <= k {
        ReplacedAt(env, db.metas, db.data, tables[table], table, id, was, now, k);
        if now.Some? {
          OwnKeys(env, tables, db.metas, table, now.value, id, n, k);
        }
        if was.Some? {
          OwnKeys(env, tables, db.metas, table, was.value, id, n, k);
        }
      } else if now.Some? && k in RowKeys(env, meta, now.value, id) {
        RowKeyPrefix(env, meta, now.value, id, k);
      }
    }
  }

  /** Replacing one row keeps every index exact. */
  lemma ReplaceInv(env: Env, tables: Tables, db: Db, table: Name, id: Key, was: Option<Row>, now: Option<Row>)
    requires Inv(env, tables, db) && Replacing(env, tables, db, table, id, was, now)
    ensures Inv(env, tables, After(env, tables, db, table, id, was, now))
  {
    var db' := After(env, tables, db, table, id, was, now);
    AfterChanges(env, tables, db, table, id, was, now);
    DataAfter(tables, db.data, db'.data, table, id, now);
    StrayAfter(env, tables, db, table, id, was, now);
    forall n | n in db'.metas ensures Exact(env, tables, db', n) {
      if db.metas[n].table == table {
        OwnImage(env, tables, db, table, id, was, now, n);
      } else {
        OtherImage(env, tables, db, table, id, was, now, n);
      }
    }
  }

  // ---- indexes come and go ----

  /** Nothing changes outside the index space. */
  ghost predicate SameOutside(data: Data, data': Data) {
    forall k | k == [] || k[0] != PREFIX_INDEX :: (k in data' <==> k in data) && (k in data ==> data'[k] == data[k])
  }

  lemma RowsStay(tables: Tables, data: Data, data': Data, t: Name)
    requires GoodTables(tables) && t in tables && SameOutside(data, data')
    ensures RowsOf(data', tables[t]) == RowsOf(data, tables[t])
  {
    forall id
      ensures id in RowsOf(data', tables[t]) <==> id in RowsOf(data, tables[t])
      ensures id in RowsOf(data, tables[t]) ==> RowsOf(data', tables[t])[id] == RowsOf(data, tables[t])[id]
    {
      var k := EncodeKey(tables[t], id);
      assert k[0] == tables[t];
    }
  }

  lemma DataStays(tables: Tables, data: Data, data': Data)
    requires GoodTables(tables) && GoodData(tables, data) && SameOutside(data, data')
    ensures GoodData(tables, data')
  {
  }

  lemma EntriesOutside(env: Env, meta: Meta, rows: Rows, data: Data)
    ensures SameOutside(data, WithAll(data, AllEntries(env, meta, rows), Mark))
  {
    forall k | k in AllEntries(env, meta, rows) ensures k != [] && k[0] == PREFIX_INDEX && DataPrefix(meta) <= k {
      var id :| id in rows && k in RowKeys(env, meta, rows[id], id);
      RowKeyPrefix(env, meta, rows[id], id, k);
    }
  }

  lemma EntryOf(env: Env, meta: Meta, rows: Rows, k: Key)
    ensures k in AllEntries(env, meta, rows) <==> KeyOfSome(env, meta, rows, k)
    ensures KeyOfSome(env, meta, rows, k) ==> DataPrefix(meta) <= k
  {
    if KeyOfSome(env, meta, rows, k) {
      var id :| KeyOfRow(env, meta, rows, id, k);
      RowKeyPrefix(env, meta, rows[id], id, k);
    }
    if k in AllEntries(env, meta, rows) {
      var id :| id in rows && k in RowKeys(env, meta, rows[id], id);
      assert KeyOfRow(env, meta, rows, id, k);
    }
  }

  /** The index the backfill writes to: the one that is there, or the new one. */
  function LiveMeta(db: Db, meta: Meta): Meta {
    if meta.name in db.metas then db.metas[meta.name] else meta
  }

  ghost function Backfilled(env: Env, tables: Tables, db: Db, meta: Meta): Db
    requires meta.table in tables
  {
    var live := LiveMeta(db, meta);
    Db(WithAll(db.data, AllEntries(env, live, RowsOf(db.data, tables[meta.table])), Mark), db.metas[meta.name := live])
  }

  /** No key stands yet under a name that is not live. */
  lemma FreshName(tables: Tables, db: Db, meta: Meta, k: Key)
    requires GoodMetas(tables, db.metas) && NoStray(db) && NoZero(meta.name) && meta.name !in db.metas
    ensures !(k in db.data && DataPrefix(meta) <= k)
  {
    if k in db.data && DataPrefix(meta) <= k {
      var n :| n in db.metas && DataPrefix(db.metas[n]) <= k;
      PrefixTells(meta, db.metas[n], k);
    }
  }

  lemma BackfilledExact(env: Env, tables: Tables, db: Db, meta: Meta)
    requires Inv(env, tables, db) && meta.table in tables && NoZero(meta.name)
    requires meta.name in db.metas ==> db.metas[meta.name].table == meta.table
    ensures Image(env, Backfilled(env, tables, db, meta).data, LiveMeta(db, meta), RowsOf(db.data, tables[meta.table]))
  {
    var live, rows := LiveMeta(db, meta), RowsOf(db.data, tables[meta.table]);
    var data' := Backfilled(env, tables, db, meta).data;
    if meta.name in db.metas {
      assert Exact(env, tables, db, meta.name);
    }
    forall k ensures k in data' && DataPrefix(live) <= k <==> KeyOfSome(env, live, rows, k) {
      EntryOf(env, live, rows, k);
      if meta.name !in db.metas {
        FreshName(tables, db, meta, k);
      }
    }
  }

  lemma OtherStaysExact(env: Env, tables: Tables, db: Db, meta: Meta, n: Name)
    requires Inv(env, tables, db) && meta.table in tables && NoZero(meta.name) && n in db.metas && n != meta.name
    ensures Image(env, Backfilled(env, tables, db, meta).data, db.metas[n], RowsOf(db.data, tables[db.metas[n].table]))
  {
    var live, rows := LiveMeta(db, meta), RowsOf(db.data, tables[meta.table]);
    var data' := Backfilled(env, tables, db, meta).data;
    assert Exact(env, tables, db, n);
    forall k ensures k in data' && DataPrefix(db.metas[n]) <= k <==> k in db.data && DataPrefix(db.metas[n]) <= k {
      EntryOf(env, live, rows, k);
      if k in AllEntries(env, live, rows) && DataPrefix(db.metas[n]) <= k {
        PrefixTells(live, db.metas[n], k);
      }
    }
  }

  lemma BackfillNoStray(env: Env, tables: Tables, db: Db, meta: Meta)
    requires NoStray(db) && meta.table in tables
    ensures NoStray(Backfilled(env, tables, db, meta))
  {
    var db', live, rows := Backfilled(env, tables, db, meta), LiveMeta(db, meta), RowsOf(db.data, tables[meta.table]);
    forall k | k in db'.data && k != [] && k[0] == PREFIX_INDEX ensures exists n :: n in db'.metas && DataPrefix(db'.metas[n]) <= k {
      EntryOf(env, live, rows, k);
      if k in AllEntries(env, live, rows) {
        assert meta.name in db'.metas && DataPrefix(db'.metas[meta.name]) <= k;
      } else {
        var n :| n in db.metas && DataPrefix(db.metas[n]) <= k;
        assert DataPrefix(db'.metas[n]) <= k;
      }
    }
  }

  lemma BackfilledAllExact(env: Env, tables: Tables, db: Db, meta: Meta, n: Name)
    requires Inv(env, tables, db) && meta.table in tables && NoZero(meta.name)
    requires meta.name in db.metas ==> db.metas[meta.name].table == meta.table
    requires n in Backfilled(env, tables, db, meta).metas
    ensures Backfilled(env, tables, db, meta).metas[n].table in tables && Exact(env, tables, Backfilled(env, tables, db, meta), n)
  {
    var db' := Backfilled(env, tables, db, meta);
    EntriesOutside(env, LiveMeta(db, meta), RowsOf(db.data, tables[meta.table]), db.data);
    RowsStay(tables, db.data, db'.data, db'.metas[n].table);
    if n == meta.name {
      BackfilledExact(env, tables, db, meta);
    } else {
      OtherStaysExact(env, tables, db, meta, n);
    }
  }

  lemma BackfillInv(env: Env, tables: Tables, db: Db, meta: Meta)
    requires Inv(env, tables, db) && meta.table in tables && NoZero(meta.name)
    requires meta.name in db.metas ==> db.metas[meta.name].table == meta.table
    ensures Inv(env, tables, Backfilled(env, tables, db, meta))
  {
    var db' := Backfilled(env, tables, db, meta);
    EntriesOutside(env, LiveMeta(db, meta), RowsOf(db.data, tables[meta.table]), db.data);
    DataStays(tables, db.data, db'.data);
    BackfillNoStray(env, tables, db, meta);
    assert GoodMetas(tables, db'.metas);
    forall n | n in db'.metas ensures Exact(env, tables, db', n) {
      BackfilledAllExact(env, tables, db, meta, n);
    }
  }

  /** Forgetting an index and clearing its keys; also when the index was never recorded. */
  lemma ClearInv(env: Env, tables: Tables, db: Db, meta: Meta)
    requires Inv(env, tables, db) && NoZero(meta.name)
    requires meta.name in db.metas ==> db.metas[meta.name] == meta
    ensures Inv(env, tables, Db(Cleared(db.data, meta), db.metas - {meta.name}))
  {
    var db' := Db(Cleared(db.data, meta), db.metas - {meta.name});
    DataStays(tables, db.data, db'.data);
    forall n | n in db'.metas ensures Exact(env, tables, db', n) {
      RowsStay(tables, db.data, db'.data, db.metas[n].table);
      assert Exact(env, tables, db, n);
      forall k ensures k in db'.data && DataPrefix(db.metas[n]) <= k <==> k in db.data && DataPrefix(db.metas[n]) <= k {
        if DataPrefix(db.metas[n]) <= k && DataPrefix(meta) <= k {
          PrefixTells(meta, db.metas[n], k);
        }
      }
    }
    forall k | k in db'.data && k != [] && k[0] == PREFIX_INDEX ensures exists n :: n in db'.metas && DataPrefix(db'.metas[n]) <= k {
      var n :| n in db.metas && DataPrefix(db.metas[n]) <= k;
      assert n != meta.name;
      assert DataPrefix(db'.metas[n]) <= k;
    }
  }

  // ---- unique indexes ----

  lemma EncodedSame(v: Value, w: Value, ofInt: OfInt)
    ensures EncodeValue(v, ofInt) == EncodeValue(w, ofInt) <==> SameInIndex(v, w, ofInt)
  {
    var a, b := Raw(v, ofInt), Raw(w, ofInt);
    if EncodeValue(v, ofInt) == EncodeValue(w, ofInt) {
      assert EncodeValue(v, ofInt)[1..] == Escape(a) && EncodeValue(w, ofInt)[1..] == Escape(b);
      assert EncodeValue(v, ofInt)[0] == Tag(v) && EncodeValue(w, ofInt)[0] == Tag(w);
      TailOrder(a, [1], b, [1]);
      TailOrder(b, [1], a, [1]);
      Irreflexive(Escape(a) + [0] + [1]);
      Trichotomy(a, b);
    }
  }

  lemma NoClashDistinct(env: Env, meta: Meta, rows: Rows)
    requires meta.unique && meta.kind != Inverted && !RowsClash(env, meta, rows)
    ensures Distinct(env, meta, rows)
  {
    forall a, b | a in rows && b in rows && a != b && meta.column in rows[a] && meta.column in rows[b]
      ensures !SameInIndex(rows[a][meta.column], rows[b][meta.column], env.ofInt)
    {
      EncodedSame(rows[a][meta.column], rows[b][meta.column], env.ofInt);
      assert !SameEncoded(env, meta, rows[a], rows[b]);
    }
  }

  /** A row that is not rejected has no equal in a unique index, except the row it replaces. */
  lemma AcceptedIsDistinct(env: Env, data: Data, meta: Meta, rows: Rows, id: Key, row: Row)
    requires meta.unique && meta.kind != Inverted && GoodRows(rows) && Image(env, data, meta, rows)
    requires Distinct(env, meta, rows) && !Clash(env, data, meta, row, id)
    ensures Distinct(env, meta, rows[id := row])
  {
    var rows' := rows[id := row];
    forall a, b | a in rows' && b in rows' && a != b && meta.column in rows'[a] && meta.column in rows'[b]
      ensures !SameInIndex(rows'[a][meta.column], rows'[b][meta.column], env.ofInt)
    {
      if a == id || b == id {
        var other := if a == id then b else a;
        EqualFinds(env, data, meta, rows, row[meta.column], other);
        assert other in Lookup(data, meta, Equal(row[meta.column]), env.ofInt) ==> other == id;
        assert !Hit(env, meta, rows, Equal(row[meta.column]), other);
      }
    }
  }

  lemma ReplaceUnique(env: Env, tables: Tables, db: Db, table: Name, id: Key, was: Option<Row>, now: Option<Row>)
    requires Inv(env, tables, db) && UniqueHolds(env, tables, db) && Replacing(env, tables, db, table, id, was, now)
    requires now.Some? ==> !Rejected(env, db.data, db.metas, table, now.value, id)
    ensures UniqueHolds(env, tables, After(env, tables, db, table, id, was, now))
  {
    var db' := After(env, tables, db, table, id, was, now);
    AfterChanges(env, tables, db, table, id, was, now);
    forall n | n in db'.metas && db'.metas[n].unique
      ensures db'.metas[n].kind != Inverted && Distinct(env, db'.metas[n], RowsOf(db'.data, tables[db'.metas[n].table]))
    {
      var meta := db.metas[n];
      assert meta.kind != Inverted && Distinct(env, meta, RowsOf(db.data, tables[meta.table]));
      RowsAfter(tables, db.data, db'.data, table, id, now, meta.table);
      if meta.table == table && now.Some? {
        GoodIds(tables, db.data, table);
        assert Exact(env, tables, db, n);
        assert !Clash(env, db.data, meta, now.value, id);
        AcceptedIsDistinct(env, db.data, meta, RowsOf(db.data, tables[table]), id, now.value);
      }
    }
  }

  lemma BackfillUnique(env: Env, tables: Tables, db: Db, meta: Meta)
    requires Inv(env, tables, db) && UniqueHolds(env, tables, db) && meta.table in tables
    requires !(meta.unique && meta.kind == Inverted)
    requires meta.name in db.metas ==> db.metas[meta.name].table == meta.table
    requires !RowsClash(env, LiveMeta(db, meta), RowsOf(db.data, tables[meta.table]))
    requires GoodMetas(tables, Backfilled(env, tables, db, meta).metas)
    ensures UniqueHolds(env, tables, Backfilled(env, tables, db, meta))
  {
    var db', live, rows := Backfilled(env, tables, db, meta), LiveMeta(db, meta), RowsOf(db.data, tables[meta.table]);
    EntriesOutside(env, live, rows, db.data);
    forall n | n in db'.metas && db'.metas[n].unique
      ensures db'.metas[n].kind != Inverted && Distinct(env, db'.metas[n], RowsOf(db'.data, tables[db'.metas[n].table]))
    {
      RowsStay(tables, db.data, db'.data, db'.metas[n].table);
      if n == meta.name {
        NoClashDistinct(env, live, rows);
      } else {
        assert db.metas[n].unique && Distinct(env, db.metas[n], RowsOf(db.data, tables[db.metas[n].table]));
      }
    }
  }

  lemma ClearUnique(env: Env, tables: Tables, db: Db, meta: Meta)
    requires Inv(env, tables, db) && UniqueHolds(env, tables, db)
    requires GoodMetas(tables, db.metas - {meta.name})
    ensures UniqueHolds(env, tables, Db(Cleared(db.data, meta), db.metas - {meta.name}))
  {
    var db' := Db(Cleared(db.data, meta), db.metas - {meta.name});
    forall n | n in db'.metas && db'.metas[n].unique
      ensures db'.metas[n].kind != Inverted && Distinct(env, db'.metas[n], RowsOf(db'.data, tables[db'.metas[n].table]))
    {
      RowsStay(tables, db.data, db'.data, db.metas[n].table);
      assert db.metas[n].unique && Distinct(env, db.metas[n], RowsOf(db.data, tables[db.metas[n].table]));
    }
  }

  // ---- the theorems ----

  ghost predicate Consistent(env: Env, tables: Tables, db: Db) {
    Inv(env, tables, db) && UniqueHolds(env, tables, db)
  }

  lemma RowAtIsGood(env: Env, tables: Tables, db: Db, table: Name, id: Key)
    requires Inv(env, tables, db)
    ensures RowAt(tables, db, table, id).Some? ==> table in tables && GoodId(id)
  {
    if RowAt(tables, db, table, id).Some? {
      GoodIds(tables, db.data, table);
    }
  }

  lemma CreateKeeps(env: Env, tables: Tables, db: Db, meta: Meta, ifNotExists: bool)
    requires Consistent(env, tables, db) && Proper(db, CreateIndex(meta, ifNotExists)) && meta.table in tables
    ensures Consistent(env, tables, Created(env, tables, db, meta, ifNotExists))
  {
    var live := LiveMeta(db, meta);
    if !(meta.unique && meta.kind == Inverted) && meta.name != [] && meta.table != [] && meta.column != []
       && !(meta.name in db.metas && !ifNotExists) {
      assert live.name == meta.name;
      if RowsClash(env, live, RowsOf(db.data, tables[meta.table])) {
        ClearInv(env, tables, db, live);
        ClearUnique(env, tables, db, live);
      } else {
        BackfillInv(env, tables, db, meta);
        BackfillUnique(env, tables, db, meta);
      }
    }
  }

  /** Every write keeps each live index the exact image of its table, and unique indexes unique. */
  lemma WriteKeeps(env: Env, tables: Tables, db: Db, w: Write)
    requires Consistent(env, tables, db) && Proper(db, w)
    ensures Consistent(env, tables, Do(env, tables, db, w))
  {
    match w
    case Insert(table, id, row) =>
      if Do(env, tables, db, w) != db {
        ReplaceInv(env, tables, db, table, id, None, Some(row));
        ReplaceUnique(env, tables, db, table, id, None, Some(row));
      }
    case Update(table, id, row) =>
      if Do(env, tables, db, w) != db {
        ReplaceInv(env, tables, db, table, id, RowAt(tables, db, table, id), Some(row));
        ReplaceUnique(env, tables, db, table, id, RowAt(tables, db, table, id), Some(row));
      }
    case Delete(table, id) =>
      RowAtIsGood(env, tables, db, table, id);
      if Do(env, tables, db, w) != db {
        ReplaceInv(env, tables, db, table, id, RowAt(tables, db, table, id), None);
        ReplaceUnique(env, tables, db, table, id, RowAt(tables, db, table, id), None);
      }
    case CreateIndex(meta, ifNotExists) =>
      if meta.table in tables {
        CreateKeeps(env, tables, db, meta, ifNotExists);
      }
    case DropIndex(name) =>
      if name in db.metas {
        ClearInv(env, tables, db, db.metas[name]);
        ClearUnique(env, tables, db, db.metas[name]);
      }
  }

  ghost function DoAll(env: Env, tables: Tables, db: Db, ws: seq<Write>): Db
    decreases |ws|
  {
    if ws == [] then db else DoAll(env, tables, Do(env, tables, db, ws[0]), ws[1..])
  }

  ghost predicate AllProper(env: Env, tables: Tables, db: Db, ws: seq<Write>)
    decreases |ws|
  {
    ws == [] || (Proper(db, ws[0]) && AllProper(env, tables, Do(env, tables, db, ws[0]), ws[1..]))
  }

  /** Starting with nothing stored, after any sequence of writes every index is exact and every unique index unique. */
  lemma {:induction false} WritesKeep(env: Env, tables: Tables, db: Db, ws: seq<Write>)
    requires Consistent(env, tables, db) && AllProper(env, tables, db, ws)
    ensures Consistent(env, tables, DoAll(env, tables, db, ws))
    decreases |ws|
  {
    if ws != [] {
      WriteKeeps(env, tables, db, ws[0]);
      WritesKeep(env, tables, Do(env, tables, db, ws[0]), ws[1..]);
    }
  }

  lemma AlwaysConsistent(env: Env, tables: Tables, ws: seq<Write>)
    requires GoodTables(tables) && AllProper(env, tables, Db(map[], map[]), ws)
    ensures Consistent(env, tables, DoAll(env, tables, Db(map[], map[]), ws))
  {
    WritesKeep(env, tables, Db(map[], map[]), ws);
  }

  /** Under a name that is not live, of whatever kind, no key is left. */
  lemma DroppedIsEmpty(env: Env, tables: Tables, db: Db, meta: Meta, k: Key)
    requires Inv(env, tables, db) && NoZero(meta.name) && meta.name !in db.metas && DataPrefix(meta) <= k
    ensures k !in db.data
  {
    FreshName(tables, db, meta, k);
  }

  // ---- where care is needed ----

  /** Putting first and deleting second would lose the entry of every value that did not change. */
  lemma PutThenDeleteLosesEntry(env: Env, data: Data, meta: Meta, was: Row, now: Row, id: Key,
                                puts: seq<Op>, deletes: seq<Op>)
    requires meta.kind != Inverted && meta.column in was && meta.column in now
    requires SameInIndex(was[meta.column], now[meta.column], env.ofInt)
    requires AllPuts(puts, AsSet(RowKeys(env, meta, now, id)), Mark) && AllDeletes(deletes, AsSet(RowKeys(env, meta, was, id)))
    ensures var k := EntryKey(meta, EncodeValue(now[meta.column], env.ofInt), id);
            k !in Apply(data, puts + deletes) && k in Apply(data, deletes + puts)
  {
    var k := EntryKey(meta, EncodeValue(now[meta.column], env.ofInt), id);
    EncodedSame(was[meta.column], now[meta.column], env.ofInt);
    ApplyAppend(data, puts, deletes);
    ApplyAppend(data, deletes, puts);
    AllPutsApplied(data, puts, AsSet(RowKeys(env, meta, now, id)), Mark);
    AllDeletesApplied(Apply(data, puts), deletes, AsSet(RowKeys(env, meta, was, id)));
    AllDeletesApplied(data, deletes, AsSet(RowKeys(env, meta, was, id)));
    AllPutsApplied(Apply(data, deletes), puts, AsSet(RowKeys(env, meta, now, id)), Mark);
    assert k in RowKeys(env, meta, was, id) && k in RowKeys(env, meta, now, id);
  }

  /** A statement that CREATE INDEX refuses before it looks at the indexes. */
  predicate CreatesNothing(meta: Meta) {
    (meta.unique && meta.kind == Inverted) || meta.name == [] || meta.table == [] || meta.column == []
  }

  /**
   CREATE INDEX IF NOT EXISTS on a name in use backfills the old index from the table named now.  The
   indexes stay exact just when the statement is refused, or the rows clash and the old index is
   dropped, or the tables are the same, or every entry so written is one of the index's own.
   */
  lemma ReCreateKeepsIff(env: Env, tables: Tables, db: Db, meta: Meta)
    requires Consistent(env, tables, db) && meta.table in tables && NoZero(meta.name) && meta.name in db.metas
    ensures Inv(env, tables, Do(env, tables, db, CreateIndex(meta, true))) <==>
            || CreatesNothing(meta)
            || RowsClash(env, db.metas[meta.name], RowsOf(db.data, tables[meta.table]))
            || db.metas[meta.name].table == meta.table
            || OwnEntriesOnly(env, tables, db, meta)
  {
    var live := db.metas[meta.name];
    if CreatesNothing(meta) {
    } else if RowsClash(env, live, RowsOf(db.data, tables[meta.table])) {
      ReCreateDrops(env, tables, db, meta);
      ClearInv(env, tables, db, live);
    } else {
      ReCreateBackfills(env, tables, db, meta);
      BackfillKeepsIff(env, tables, db, meta);
    }
  }

  lemma ReCreateDrops(env: Env, tables: Tables, db: Db, meta: Meta)
    requires meta.table in tables && meta.name in db.metas && !CreatesNothing(meta)
    requires RowsClash(env, db.metas[meta.name], RowsOf(db.data, tables[meta.table]))
    ensures Do(env, tables, db, CreateIndex(meta, true)) == Db(Cleared(db.data, db.metas[meta.name]), db.metas - {meta.name})
  {
  }

  lemma ReCreateBackfills(env: Env, tables: Tables, db: Db, meta: Meta)
    requires meta.table in tables && meta.name in db.metas && !CreatesNothing(meta)
    requires !RowsClash(env, db.metas[meta.name], RowsOf(db.data, tables[meta.table]))
    ensures Do(env, tables, db, CreateIndex(meta, true)) == Backfilled(env, tables, db, meta)
  {
  }

  /** So it fails: an index on an empty table, and IF NOT EXISTS names a table with a row that has the column. */
  lemma OtherTableBreaks(env: Env, tables: Tables, db: Db, meta: Meta, id: Key)
    requires Consistent(env, tables, db) && meta.table in tables && NoZero(meta.name) && meta.name in db.metas && !CreatesNothing(meta)
    requires var live := db.metas[meta.name];
             && !live.unique && live.kind != Inverted && live.table != meta.table && RowsOf(db.data, tables[live.table]) == map[]
             && id in RowsOf(db.data, tables[meta.table]) && live.column in RowsOf(db.data, tables[meta.table])[id]
    ensures !Inv(env, tables, Do(env, tables, db, CreateIndex(meta, true)))
  {
    var live, rows := db.metas[meta.name], RowsOf(db.data, tables[meta.table]);
    var k := EntryKey(live, EncodeValue(rows[id][live.column], env.ofInt), id);
    assert KeyOfRow(env, live, rows, id, k);
    ReCreateKeepsIff(env, tables, db, meta);
    assert KeyOfSome(env, live, rows, k);
    assert !OwnEntriesOnly(env, tables, db, meta);
  }

  lemma BackfillKeepsIff(env: Env, tables: Tables, db: Db, meta: Meta)
    requires Inv(env, tables, db) && meta.table in tables && NoZero(meta.name) && meta.name in db.metas
    ensures Inv(env, tables, Backfilled(env, tables, db, meta)) <==>
            db.metas[meta.name].table == meta.table || OwnEntriesOnly(env, tables, db, meta)
  {
    if db.metas[meta.name].table == meta.table {
      BackfillInv(env, tables, db, meta);
    } else if OwnEntriesOnly(env, tables, db, meta) {
      SameKeysInv(env, tables, db, meta);
    } else {
      ForeignEntry(env, tables, db, meta);
    }
  }

  /** The rows of the table named now have no entries that the index does not have anyway. */
  ghost predicate OwnEntriesOnly(env: Env, tables: Tables, db: Db, meta: Meta)
    requires GoodMetas(tables, db.metas) && meta.table in tables && meta.name in db.metas
  {
    var live := db.metas[meta.name];
    forall k | KeyOfSome(env, live, RowsOf(db.data, tables[meta.table]), k) ::
      KeyOfSome(env, live, RowsOf(db.data, tables[live.table]), k)
  }

  lemma ForeignEntry(env: Env, tables: Tables, db: Db, meta: Meta)
    requires Inv(env, tables, db) && meta.table in tables && meta.name in db.metas
    requires !OwnEntriesOnly(env, tables, db, meta)
    ensures !Inv(env, tables, Backfilled(env, tables, db, meta))
  {
    var live, db' := db.metas[meta.name], Backfilled(env, tables, db, meta);
    var rows, own := RowsOf(db.data, tables[meta.table]), RowsOf(db.data, tables[live.table]);
    EntriesOutside(env, live, rows, db.data);
    RowsStay(tables, db.data, db'.data, live.table);
    var k :| KeyOfSome(env, live, rows, k) && !KeyOfSome(env, live, own, k);
    EntryOf(env, live, rows, k);
    assert k in db'.data && DataPrefix(live) <= k;
    assert Inv(env, tables, db') ==> Exact(env, tables, db', meta.name);
  }

  lemma SameKeysInv(env: Env, tables: Tables, db: Db, meta: Meta)
    requires Inv(env, tables, db) && meta.table in tables && meta.name in db.metas && OwnEntriesOnly(env, tables, db, meta)
    ensures Inv(env, tables, Backfilled(env, tables, db, meta))
  {
    var live := db.metas[meta.name];
    assert Exact(env, tables, db, meta.name);
    SameKeys(env, db, live, RowsOf(db.data, tables[meta.table]), RowsOf(db.data, tables[live.table]));
    InvByKeys(env, tables, db, Backfilled(env, tables, db, meta));
  }

  /** The invariant does not look at what stands at index keys. */
  lemma InvByKeys(env: Env, tables: Tables, db: Db, db': Db)
    requires Inv(env, tables, db) && db'.metas == db.metas
    requires SameOutside(db.data, db'.data) && db'.data.Keys == db.data.Keys
    ensures Inv(env, tables, db')
  {
    DataStays(tables, db.data, db'.data);
    forall n | n in db'.metas ensures Exact(env, tables, db', n) {
      assert Exact(env, tables, db, n);
      RowsStay(tables, db.data, db'.data, db.metas[n].table);
      SameKeysExact(env, tables, db, db', n);
    }
    forall k | k in db'.data && k != [] && k[0] == PREFIX_INDEX ensures exists n :: n in db'.metas && DataPrefix(db'.metas[n]) <= k {
      assert k in db.data;
    }
  }

  lemma SameKeys(env: Env, db: Db, live: Meta, rows: Rows, own: Rows)
    requires live.name in db.metas && db.metas[live.name] == live
    requires Image(env, db.data, live, own)
    requires forall k | KeyOfSome(env, live, rows, k) :: KeyOfSome(env, live, own, k)
    ensures var data' := WithAll(db.data, AllEntries(env, live, rows), Mark);
            data'.Keys == db.data.Keys && SameOutside(db.data, data') && db.metas[live.name := live] == db.metas
  {
    EntriesOutside(env, live, rows, db.data);
    EntriesThere(env, live, rows, own, db.data);
  }

  lemma EntriesThere(env: Env, meta: Meta, rows: Rows, own: Rows, data: Data)
    requires Image(env, data, meta, own)
    requires forall k | KeyOfSome(env, meta, rows, k) :: KeyOfSome(env, meta, own, k)
    ensures AllEntries(env, meta, rows) <= data.Keys
    ensures WithAll(data, AllEntries(env, meta, rows), Mark).Keys == data.Keys
  {
    forall k | k in AllEntries(env, meta, rows) ensures k in data {
      EntryOf(env, meta, rows, k);
    }
  }

  lemma SameKeysExact(env: Env, tables: Tables, db: Db, db': Db, n: Name)
    requires n in db.metas && db'.metas == db.metas && db.metas[n].table in tables && Exact(env, tables, db, n)
    requires RowsOf(db'.data, tables[db.metas[n].table]) == RowsOf(db.data, tables[db.metas[n].table])
    requires db'.data.Keys == db.data.Keys
    ensures Exact(env, tables, db', n)
  {
  }
}
