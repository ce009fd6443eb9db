/** Tables, the prefix byte of each, and their metadata (internal/storage/table_manager.go). */
module TableManager {
  import opened Bytes
  import opened KeyEncode
  import opened Engine

  const FIRST_PREFIX: Byte := 0x30
  const LAST_PREFIX: Byte := 0xFE

  // "table:"
  const TABLE: Key := [0x74, 0x61, 0x62, 0x6C, 0x65, 0x3A]

  // Columns are opaque.
  datatype Table = Table(name: Key, columns: Key, prefix: Byte)

  // A stored value: table metadata, or anything else.
  datatype Rec = TableRec(table: Table) | Row(bytes: Key)

  type Data = map<Key, Rec>

  function MetaKey(name: Key): Key { EncodeKey(PREFIX_SYSTEM, TABLE + name) }

  /** Keys in the part of the key space that user tables share. */
  predicate IsUserKey(k: Key) { k != [] && FIRST_PREFIX <= k[0] <= LAST_PREFIX }

  predicate IsUserTable(t: Table) { t.name != [] && FIRST_PREFIX <= t.prefix <= LAST_PREFIX }

  /** The keys of one table. */
  ghost function RangeOf(data: Data, prefix: Byte): set<Key> {
    set k | k in data && k != [] && k[0] == prefix
  }

  /** The tables the stored metadata describes. */
  ghost function StoredTables(data: Data): set<Table> {
    set k | k in data && data[k].TableRec? && k == MetaKey(data[k].table.name) :: data[k].table
  }

  ghost predicate MetadataStored(data: Data) {
    forall k | k in data && MetaKey([]) <= k ::
      data[k].TableRec? && k == MetaKey(data[k].table.name) && IsUserTable(data[k].table)
  }

  ghost predicate DistinctPrefixes(tables: set<Table>) {
    forall s, t | s in tables && t in tables && s.prefix == t.prefix :: s == t
  }

  /** Every user key belongs to a live table. */
  ghost predicate RowsOwned(data: Data) {
    forall k | k in data && IsUserKey(k) :: exists t :: t in StoredTables(data) && t.prefix == k[0]
  }

  ghost predicate StoreOk(data: Data) {
    MetadataStored(data) && DistinctPrefixes(StoredTables(data)) && RowsOwned(data)
  }

  lemma MetaKeyTells(a: Key, b: Key)
    ensures MetaKey(a) == MetaKey(b) ==> a == b
    ensures MetaKey([]) <= MetaKey(a) && !IsUserKey(MetaKey(a))
  {
    assert MetaKey(a)[7..] == a && MetaKey(b)[7..] == b;
    assert MetaKey([]) == MetaKey(a)[..7];
  }

  lemma TableIsAt(data: Data, t: Table)
    ensures t in StoredTables(data) <==> MetaKey(t.name) in data && data[MetaKey(t.name)] == TableRec(t)
  {
  }

  // ---- creating ----

  function WithTable(data: Data, t: Table): Data { data[MetaKey(t.name) := TableRec(t)] }

  lemma CreateKeeps(data: Data, t: Table)
    requires StoreOk(data) && IsUserTable(t) && MetaKey(t.name) !in data
    requires forall s | s in StoredTables(data) :: s.prefix != t.prefix
    ensures StoreOk(WithTable(data, t)) && StoredTables(WithTable(data, t)) == StoredTables(data) + {t}
    ensures RangeOf(WithTable(data, t), t.prefix) == {}
  {
    var d := WithTable(data, t);
    MetaKeyTells(t.name, t.name);
    forall s ensures s in StoredTables(d) <==> s in StoredTables(data) || s == t {
      TableIsAt(data, s);
      TableIsAt(d, s);
      MetaKeyTells(s.name, t.name);
    }
    forall k | k in d && IsUserKey(k) ensures k[0] != t.prefix && exists s :: s in StoredTables(d) && s.prefix == k[0] {
      var s :| s in StoredTables(data) && s.prefix == k[0];
    }
  }

  lemma NewRangeIsEmpty(data: Data, t: Table)
    requires StoreOk(data) && FIRST_PREFIX <= t.prefix <= LAST_PREFIX
    requires forall s | s in StoredTables(data) :: s.prefix != t.prefix
    ensures RangeOf(WithTable(data, t), t.prefix) == {}
  {
    MetaKeyTells(t.name, t.name);
    forall k | k in data && IsUserKey(k) ensures k[0] != t.prefix {
      var s :| s in StoredTables(data) && s.prefix == k[0];
    }
  }

  /** A new table with a prefix of its own leaves the store in order exactly when it has a name. */
  lemma CreateKeepsIff(data: Data, t: Table)
    requires StoreOk(data) && FIRST_PREFIX <= t.prefix <= LAST_PREFIX && MetaKey(t.name) !in data
    requires forall s | s in StoredTables(data) :: s.prefix != t.prefix
    ensures StoreOk(WithTable(data, t)) <==> t.name != []
  {
    if t.name != [] {
      CreateKeeps(data, t);
    } else {
      var d := WithTable(data, t);
      assert MetaKey([]) in d && d[MetaKey([])] == TableRec(t) && !IsUserTable(t);
    }
  }

  // ---- dropping ----

  ghost function WithoutTable(data: Data, t: Table): Data { data - RangeOf(data, t.prefix) - {MetaKey(t.name)} }

  lemma DropKeeps(data: Data, t: Table)
    requires StoreOk(data) && t in StoredTables(data)
    ensures StoreOk(WithoutTable(data, t)) && StoredTables(WithoutTable(data, t)) == StoredTables(data) - {t}
    ensures RangeOf(WithoutTable(data, t), t.prefix) == {}
    ensures forall p: Byte | p != t.prefix && p != PREFIX_SYSTEM :: RangeOf(WithoutTable(data, t), p) == RangeOf(data, p)
  {
    var d := WithoutTable(data, t);
    MetaKeyTells(t.name, t.name);
    TableIsAt(data, t);
    assert MetaKey(t.name) in data && IsUserTable(t);
    forall s ensures s in StoredTables(d) <==> s in StoredTables(data) && s != t {
      TableIsAt(data, s);
      TableIsAt(d, s);
      MetaKeyTells(s.name, t.name);
    }
    forall k | k in d && IsUserKey(k) ensures exists s :: s in StoredTables(d) && s.prefix == k[0] {
      var s :| s in StoredTables(data) && s.prefix == k[0];
    }
    forall p: Byte | p != t.prefix && p != PREFIX_SYSTEM ensures RangeOf(d, p) == RangeOf(data, p) {
      assert MetaKey(t.name)[0] == PREFIX_SYSTEM;
    }
  }

  // ---- rows ----

  /** A write to a table's rows leaves the store in order and every other table alone. */
  lemma WriteKeeps(data: Data, t: Table, id: Key, row: Key)
    requires StoreOk(data) && t in StoredTables(data)
    ensures var d := data[EncodeKey(t.prefix, id) := Row(row)];
            && StoreOk(d) && StoredTables(d) == StoredTables(data)
            && forall p: Byte | p != t.prefix :: RangeOf(d, p) == RangeOf(data, p)
  {
    var k := EncodeKey(t.prefix, id);
    var d := data[k := Row(row)];
    TableIsAt(data, t);
    MetaKeyTells(t.name, t.name);
    assert IsUserTable(t);
    forall s ensures s in StoredTables(d) <==> s in StoredTables(data) {
      TableIsAt(data, s);
      TableIsAt(d, s);
    }
    forall j | j in d && IsUserKey(j) ensures exists s :: s in StoredTables(d) && s.prefix == j[0] {
      if j == k {
        assert t in StoredTables(d) && t.prefix == j[0];
      } else {
        var s :| s in StoredTables(data) && s.prefix == j[0];
      }
    }
  }

  lemma EraseKeeps(data: Data, t: Table, id: Key)
    requires StoreOk(data) && t in StoredTables(data)
    ensures var d := data - {EncodeKey(t.prefix, id)};
            && StoreOk(d) && StoredTables(d) == StoredTables(data)
            && forall p: Byte | p != t.prefix :: RangeOf(d, p) == RangeOf(data, p)
  {
    var d := data - {EncodeKey(t.prefix, id)};
    TableIsAt(data, t);
    MetaKeyTells(t.name, t.name);
    assert IsUserTable(t);
    forall s ensures s in StoredTables(d) <==> s in StoredTables(data) {
      TableIsAt(data, s);
      TableIsAt(d, s);
    }
    forall j | j in d && IsUserKey(j) ensures exists s :: s in StoredTables(d) && s.prefix == j[0] {
      var s :| s in StoredTables(data) && s.prefix == j[0];
    }
  }

  // ---- every history, restarts included ----

  /** The counter lies above every prefix in use and never reaches past 0xFF. */
  ghost predicate CounterOk(tables: set<Table>, next: Byte) {
    FIRST_PREFIX <= next && forall t | t in tables :: t.prefix < next
  }

  /** What a restart computes: the first prefix above all live ones. */
  ghost predicate IsNextFree(tables: set<Table>, next: Byte) {
    CounterOk(tables, next) && (next == FIRST_PREFIX || exists t :: t in tables && t.prefix + 1 == next)
  }

  datatype Event =
    | Create(name: Key, columns: Key)
    | Drop(table: Table)
    | WriteRow(table: Table, id: Key, row: Key)
    | EraseRow(table: Table, id: Key)
    | Restart

  datatype State = State(data: Data, next: Byte)

  ghost predicate StateOk(s: State) { StoreOk(s.data) && CounterOk(StoredTables(s.data), s.next) }

  ghost predicate Happens(s: State, event: Event, t: State) {
    match event
    case Create(name, columns) =>
      && name != [] && MetaKey(name) !in s.data && s.next <= LAST_PREFIX
      && t == State(WithTable(s.data, Table(name, columns, s.next)), s.next + 1)
    case Drop(table) => table in StoredTables(s.data) && t == State(WithoutTable(s.data, table), s.next)
    case WriteRow(table, id, row) =>
      table in StoredTables(s.data) && t == State(s.data[EncodeKey(table.prefix, id) := Row(row)], s.next)
    case EraseRow(table, id) => table in StoredTables(s.data) && t == State(s.data - {EncodeKey(table.prefix, id)}, s.next)
    case Restart => t.data == s.data && IsNextFree(StoredTables(s.data), t.next)
  }

  /** One event keeps the store in order, and touches the keys of no other live table. */
  lemma EventKeeps(s: State, event: Event, t: State)
    requires StateOk(s) && Happens(s, event, t)
    ensures StateOk(t)
    ensures forall u | u in StoredTables(s.data) && u in StoredTables(t.data) ::
              (event.WriteRow? || event.EraseRow? ==> u != event.table) ==> RangeOf(t.data, u.prefix) == RangeOf(s.data, u.prefix)
    ensures event.Create? ==> RangeOf(t.data, s.next) == {}
  {
    match event
    case Create(name, columns) =>
      CreateKeeps(s.data, Table(name, columns, s.next));
      MetaKeyTells(name, name);
    case Drop(table) =>
      DropKeeps(s.data, table);
      forall u | u in StoredTables(t.data) ensures u.prefix != table.prefix && u.prefix != PREFIX_SYSTEM {
        TableIsAt(t.data, u);
        MetaKeyTells(u.name, u.name);
      }
    case WriteRow(table, id, row) => WriteKeeps(s.data, table, id, row);
    case EraseRow(table, id) => EraseKeeps(s.data, table, id);
    case Restart =>
  }

  /** The tables a restart loads. */
  ghost function NamedTables(data: Data): set<Table> {
    set t | t in StoredTables(data) && IsUserTable(t)
  }

  /** A table without a name is passed over by a restart, which then gives its prefix to the next table. */
  lemma NamelessIsLost(s: State, columns: Key)
    requires StateOk(s) && s.next <= LAST_PREFIX && IsNextFree(StoredTables(s.data), s.next) && MetaKey([]) !in s.data
    ensures var t := Table([], columns, s.next);
            var d := WithTable(s.data, t);
            t in StoredTables(d) && IsNextFree(NamedTables(d), t.prefix)
  {
    var t := Table([], columns, s.next);
    var d := WithTable(s.data, t);
    TableIsAt(d, t);
    forall u ensures u in StoredTables(d) && IsUserTable(u) <==> u in StoredTables(s.data) {
      TableIsAt(s.data, u);
      TableIsAt(d, u);
      MetaKeyTells(u.name, []);
      MetaKeyTells(u.name, u.name);
    }
    assert NamedTables(d) == StoredTables(s.data);
  }

  ghost predicate IsRun(states: seq<State>, events: seq<Event>) {
    && |states| == |events| + 1 && states[0] == State(map[], FIRST_PREFIX)
    && forall i | 0 <= i < |events| :: Happens(states[i], events[i], states[i + 1])
  }

  /** In every state of every run live tables have distinct prefixes and own all user keys. */
  lemma {:induction false} RunOk(states: seq<State>, events: seq<Event>, n: nat)
    requires IsRun(states, events) && n < |states|
    ensures StateOk(states[n])
    decreases n
  {
    if n > 0 {
      RunOk(states, events, n - 1);
      EventKeeps(states[n - 1], events[n - 1], states[n]);
    }
  }

  // ---- the manager ----

  datatype Outcome = Changed | NothingToDo | Refused

  // isBuiltinTable lists these names, in lower case; the first six tables are registered with prefixes 1 to 6.
  const REGISTERED: seq<string> := [
    "agent_sessions", "agent_memories", "agent_decisions", "knowledge_entities", "knowledge_relations", "data_lineage"]
  const ALIASES: seq<string> := ["sessions", "memories", "decisions", "entities", "relations", "lineage"]

  function Lower(name: Key): Key {
    seq(|name|, i requires 0 <= i < |name| => if 0x41 <= name[i] <= 0x5A then name[i] + 0x20 else name[i])
  }

  predicate IsBuiltin(name: Key) {
    exists w :: w in REGISTERED + ALIASES && Ascii(w) == Lower(name)
  }

  class Manager {
    const engine: Store<Rec>
    var tables: map<Key, Table>
    var nextPrefix: Byte

    ghost predicate Valid()
      reads this, engine
    {
      && StateOk(State(engine.data, nextPrefix))
      && (forall t | t in StoredTables(engine.data) :: t.name in tables && tables[t.name] == t)
      && (forall n | n in tables :: tables[n].name == n && (tables[n] in StoredTables(engine.data) || IsBuiltin(n)))
    }

    constructor (engine: Store<Rec>)
      ensures this.engine == engine && tables == map[] && nextPrefix == FIRST_PREFIX
    {
      this.engine, tables, nextPrefix := engine, map[], FIRST_PREFIX;
    }

    /** Loads the stored tables, then registers the built-in ones. */
    method Init()
      requires StoreOk(engine.data) && tables == map[] && nextPrefix == FIRST_PREFIX
      modifies this
      ensures Valid() && IsNextFree(StoredTables(engine.data), nextPrefix)
    {
      LoadTables();
      for i := 0 to |REGISTERED|
        invariant Valid() && IsNextFree(StoredTables(engine.data), nextPrefix)
      {
        RegisteredIsBuiltin(i);
        Register(Ascii(REGISTERED[i]), 1 + i);
      }
    }

    method Register(name: Key, prefix: Byte)
      requires Valid() && IsBuiltin(name)
      modifies `tables
      ensures Valid()
    {
      if name !in tables {
        tables := tables[name := Table(name, [], prefix)];
      }
    }

    method LoadTables()
      requires StoreOk(engine.data) && tables == map[] && nextPrefix == FIRST_PREFIX
      modifies `tables, `nextPrefix
      ensures HasLoaded(engine.data, StoredTables(engine.data), tables, nextPrefix)
    {
      ghost var data := engine.data;
      var keys := engine.PrefixScan(MetaKey([]));
      for i := 0 to |keys|
        invariant HasLoaded(data, Loaded(data, keys[..i]), tables, nextPrefix)
      {
        LoadNext(data, keys, i, tables, nextPrefix);
        Load(engine.data[keys[i]]);
      }
      AllLoaded(data, keys, tables, nextPrefix);
    }

    /** One record of the scan; what is no user table is passed over. */
    method Load(rec: Rec)
      modifies `tables, `nextPrefix
      ensures if rec.TableRec? && rec.table.name != [] && rec.table.prefix >= FIRST_PREFIX then
                && tables == old(tables)[rec.table.name := rec.table]
                && nextPrefix == if old(nextPrefix) <= rec.table.prefix <= LAST_PREFIX then rec.table.prefix + 1 else old(nextPrefix)
              else tables == old(tables) && nextPrefix == old(nextPrefix)
    {
      if rec.Row? || rec.table.name == [] || rec.table.prefix < FIRST_PREFIX {
        return;
      }
      var meta := rec.table;
      tables := tables[meta.name := meta];
      if meta.prefix >= nextPrefix && meta.prefix <= LAST_PREFIX {
        nextPrefix := meta.prefix + 1;
      }
    }

    method CreateTable(name: Key, columns: Key, ifNotExists: bool) returns (r: Outcome)
      requires Valid()
      modifies this, engine
      ensures name != [] || r != Changed ==> Valid()
      ensures r == if name in old(tables) then (if ifNotExists then NothingToDo else Refused)
                   else if old(nextPrefix) > LAST_PREFIX then Refused else Changed
      ensures if r == Changed then
                var t := Table(name, columns, old(nextPrefix));
                && tables == old(tables)[name := t] && Now() == State(WithTable(old(engine.data), t), old(nextPrefix) + 1)
                && (name != [] ==> Happens(old(Now()), Create(name, columns), Now()))
                && RangeOf(engine.data, t.prefix) == {} && forall u | u in old(StoredTables(engine.data)) :: u.prefix != t.prefix
              else tables == old(tables) && Now() == old(Now())
    {
      if name in tables {
        return if ifNotExists then NothingToDo else Refused;
      }
      if nextPrefix > LAST_PREFIX {
        return Refused;
      }
      var prefix := nextPrefix;
      NotStored(engine.data, tables, name);
      if name != [] {
        EventKeeps(Now(), Create(name, columns), State(WithTable(engine.data, Table(name, columns, prefix)), prefix + 1));
        CreateKeeps(engine.data, Table(name, columns, prefix));
      }
      NewRangeIsEmpty(engine.data, Table(name, columns, prefix));
      nextPrefix := nextPrefix + 1;
      var meta := Table(name, columns, prefix);
      engine.Set(MetaKey(name), TableRec(meta));
      tables := tables[name := meta];
      r := Changed;
    }

    ghost function Now(): State
      reads this, engine
    {
      State(engine.data, nextPrefix)
    }

    method DropTable(name: Key, ifExists: bool) returns (r: Outcome)
      requires Valid()
      modifies this, engine
      ensures Valid()
      ensures r == if name !in old(tables) then (if ifExists then NothingToDo else Refused)
                   else if IsBuiltin(name) then Refused else Changed
      ensures if r == Changed then
                && tables == old(tables) - {name} && Happens(old(Now()), Drop(old(tables)[name]), Now())
                && RangeOf(engine.data, old(tables)[name].prefix) == {}
              else tables == old(tables) && Now() == old(Now())
    {
      if name !in tables {
        return if ifExists then NothingToDo else Refused;
      }
      if IsBuiltin(name) {
        return Refused;
      }
      var meta := tables[name];
      DropKeeps(engine.data, meta);
      DeleteStored(meta);
      tables := tables - {name};
      r := Changed;
    }

    /** The rows of a table, and then the record that describes it. */
    method DeleteStored(meta: Table)
      requires StoreOk(engine.data) && IsUserTable(meta)
      modifies engine
      ensures engine.data == WithoutTable(old(engine.data), meta)
    {
      var keys := engine.PrefixScan([meta.prefix]);
      var ops := DeleteOps(keys);
      RangeDeleted(engine.data, meta, keys, ops);
      engine.BatchWrite(ops);
      engine.Remove(MetaKey(meta.name));
    }

    method DeleteOps(keys: seq<Key>) returns (ops: seq<WriteOp<Rec>>)
      ensures |ops| == |keys| && forall i | 0 <= i < |keys| :: ops[i] == WriteOp.Delete(keys[i])
    {
      ops := [];
      for i := 0 to |keys|
        invariant |ops| == i && forall j | 0 <= j < i :: ops[j] == WriteOp.Delete(keys[j])
      {
        ops := ops + [WriteOp.Delete(keys[i])];
      }
    }
  }

  ghost function Loaded(data: Data, keys: seq<Key>): set<Table> {
    set k | k in keys && k in data && data[k].TableRec? :: data[k].table
  }

  lemma RegisteredIsBuiltin(i: nat)
    requires i < |REGISTERED|
    ensures IsBuiltin(Ascii(REGISTERED[i]))
  {
    var w := REGISTERED[i];
    assert w in REGISTERED + ALIASES;
    assert Ascii(w) == Lower(Ascii(w));
  }

  lemma ScannedMeta(data: Data, keys: seq<Key>, k: Key)
    requires Lists(keys, KeysIn(data, MetaKey([]), PrefixEnd(MetaKey([]))))
    ensures k in keys <==> k in data && MetaKey([]) <= k
  {
    LowPrefixIsExact(MetaKey([]));
    assert k in keys <==> k in KeysIn(data, MetaKey([]), PrefixEnd(MetaKey([])));
  }

  lemma LoadedSnoc(data: Data, keys: seq<Key>, i: nat)
    requires i < |keys| && keys[i] in data && data[keys[i]].TableRec?
    ensures Loaded(data, keys[..i + 1]) == Loaded(data, keys[..i]) + {data[keys[i]].table}
  {
    assert keys[..i + 1] == keys[..i] + [keys[i]];
  }

  lemma LoadNext(data: Data, keys: seq<Key>, i: nat, tables: map<Key, Table>, next: Byte)
    requires StoreOk(data) && Lists(keys, KeysIn(data, MetaKey([]), PrefixEnd(MetaKey([])))) && i < |keys|
    requires HasLoaded(data, Loaded(data, keys[..i]), tables, next)
    ensures keys[i] in data && data[keys[i]].TableRec?
    ensures var t := data[keys[i]].table;
            && IsUserTable(t)
            && HasLoaded(data, Loaded(data, keys[..i + 1]), tables[t.name := t], if t.prefix >= next then t.prefix + 1 else next)
  {
    assert keys[i] in keys;
    ScannedMeta(data, keys, keys[i]);
    var t := data[keys[i]].table;
    TableIsAt(data, t);
    LoadedSnoc(data, keys, i);
    LoadStep(data, Loaded(data, keys[..i]), tables, next, t);
  }

  lemma AllLoaded(data: Data, keys: seq<Key>, tables: map<Key, Table>, next: Byte)
    requires StoreOk(data) && Lists(keys, KeysIn(data, MetaKey([]), PrefixEnd(MetaKey([]))))
    requires HasLoaded(data, Loaded(data, keys[..|keys|]), tables, next)
    ensures HasLoaded(data, StoredTables(data), tables, next)
  {
    assert keys[..|keys|] == keys;
    forall t | t in StoredTables(data) ensures t in Loaded(data, keys) {
      TableIsAt(data, t);
      MetaKeyTells(t.name, t.name);
      ScannedMeta(data, keys, MetaKey(t.name));
    }
    assert Loaded(data, keys) == StoredTables(data);
  }

  /** These stored tables are in the map, and the counter is the first prefix above theirs. */
  ghost predicate HasLoaded(data: Data, done: set<Table>, tables: map<Key, Table>, next: Byte) {
    && done <= StoredTables(data) && IsNextFree(done, next)
    && (forall t | t in done :: t.name in tables && tables[t.name] == t)
    && (forall n | n in tables :: tables[n].name == n && tables[n] in StoredTables(data))
  }

  lemma LoadStep(data: Data, done: set<Table>, tables: map<Key, Table>, next: Byte, t: Table)
    requires HasLoaded(data, done, tables, next) && t in StoredTables(data) && IsUserTable(t)
    ensures HasLoaded(data, done + {t}, tables[t.name := t], if t.prefix >= next then t.prefix + 1 else next)
  {
    forall s | s in done && s.name == t.name ensures s == t {
      TableIsAt(data, s);
      TableIsAt(data, t);
    }
    var higher := if t.prefix >= next then t.prefix + 1 else next;
    if t.prefix >= next {
      assert t in done + {t} && t.prefix + 1 == higher;
    } else if next != FIRST_PREFIX {
      var s :| s in done && s.prefix + 1 == next;
      assert s in done + {t};
    }
  }

  lemma NotStored(data: Data, tables: map<Key, Table>, name: Key)
    requires StoreOk(data) && name !in tables
    requires forall t | t in StoredTables(data) :: t.name in tables
    ensures MetaKey(name) !in data
  {
    MetaKeyTells(name, name);
    if MetaKey(name) in data {
      var t := data[MetaKey(name)].table;
      MetaKeyTells(t.name, name);
      TableIsAt(data, t);
    }
  }

  /** Deleting the scanned keys empties the table's range. */
  lemma RangeDeleted(data: Data, t: Table, keys: seq<Key>, ops: seq<WriteOp<Rec>>)
    requires IsUserTable(t) && Lists(keys, KeysIn(data, [t.prefix], PrefixEnd([t.prefix])))
    requires |ops| == |keys| && forall i | 0 <= i < |keys| :: ops[i] == WriteOp.Delete(keys[i])
    ensures Apply(data, ops) - {MetaKey(t.name)} == WithoutTable(data, t)
  {
    LowPrefixIsExact([t.prefix]);
    forall k | k in data ensures k in keys <==> k != [] && k[0] == t.prefix {
      assert k in keys <==> k in KeysIn(data, [t.prefix], PrefixEnd([t.prefix]));
    }
    forall k | k in RangeOf(data, t.prefix) ensures WriteOp<Rec>.Delete(k) in ops {
      var i :| 0 <= i < |keys| && keys[i] == k;
      assert ops[i] == WriteOp.Delete(k);
    }
    forall op | op in ops ensures op.Delete? && op.key in RangeOf(data, t.prefix) {
      var i :| 0 <= i < |ops| && ops[i] == op;
      assert keys[i] in keys && keys[i] in KeysIn(data, [t.prefix], PrefixEnd([t.prefix]));
    }
    AllDeletesApplied(data, ops, RangeOf(data, t.prefix));
  }
}
