/** Scans, fetches and filters seen as lists of row ids. */
module PlanRows {
  import opened Bytes
  import opened KeyEncode
  import opened Engine
  import opened IndexKeys
  import opened IndexManager
  import opened IndexUpkeep
  import opened Ast
  import opened Eval
  import opened Execute

  ghost predicate AllIn(rows: Rows, ids: seq<Key>) {
    forall i | 0 <= i < |ids| :: ids[i] in rows
  }

  /** The rows of the ids, under the alias. */
  function Shown(rows: Rows, alias: Name, ids: seq<Key>): (out: seq<Row>)
    requires AllIn(rows, ids)
    ensures |out| == |ids| && forall i | 0 <= i < |ids| :: out[i] == Aliased(rows[ids[i]], alias)
  {
    if ids == [] then []
    else Shown(rows, alias, ids[..|ids| - 1]) + [Aliased(rows[ids[|ids| - 1]], alias)]
  }

  /** The ids that have a row, each once. */
  function Known(rows: Rows, ids: seq<Key>): (out: seq<Key>)
    ensures forall id :: id in out <==> id in ids && id in rows
    ensures AllIn(rows, out)
  {
    if ids == [] then []
    else
      var before, id := ids[..|ids| - 1], ids[|ids| - 1];
      assert ids == before + [id];
      if id !in before && id in rows then Known(rows, before) + [id] else Known(rows, before)
  }

  /** The ids whose shown row passes the filter. */
  function Chosen(sem: Semantics, e: Expr, rows: Rows, alias: Name, ids: seq<Key>): (out: seq<Key>)
    requires AllIn(rows, ids)
    ensures AllIn(rows, out)
    ensures forall id :: id in out <==> id in ids && EvalBool(sem, e, Aliased(rows[id], alias))
  {
    if ids == [] then []
    else
      var before, id := ids[..|ids| - 1], ids[|ids| - 1];
      assert ids == before + [id];
      var front := Chosen(sem, e, rows, alias, before);
      if EvalBool(sem, e, Aliased(rows[id], alias)) then front + [id] else front
  }

  ghost predicate Once(ids: seq<Key>) {
    forall i, j | 0 <= i < j < |ids| :: ids[i] != ids[j]
  }

  lemma {:induction false} KnownOnce(rows: Rows, ids: seq<Key>)
    ensures Once(Known(rows, ids))
  {
    if ids != [] {
      var before := ids[..|ids| - 1];
      KnownOnce(rows, before);
    }
  }

  lemma {:induction false} KnownAll(rows: Rows, ids: seq<Key>)
    requires AllIn(rows, ids) && Once(ids)
    ensures Known(rows, ids) == ids
  {
    if ids != [] {
      var before := ids[..|ids| - 1];
      KnownAll(rows, before);
      assert ids == before + [ids[|ids| - 1]];
    }
  }

  lemma {:induction false} ChosenOnce(sem: Semantics, e: Expr, rows: Rows, alias: Name, ids: seq<Key>)
    requires AllIn(rows, ids) && Once(ids)
    ensures Once(Chosen(sem, e, rows, alias, ids))
  {
    if ids != [] {
      var before := ids[..|ids| - 1];
      ChosenOnce(sem, e, rows, alias, before);
      assert ids == before + [ids[|ids| - 1]];
    }
  }

  lemma {:induction false} OnceCounts(s: seq<Key>)
    requires Once(s)
    ensures |set x | x in s| == |s|
  {
    if s != [] {
      var front, last := s[..|s| - 1], s[|s| - 1];
      OnceCounts(front);
      assert last !in front;
      assert (set x | x in s) == (set x | x in front) + {last};
    }
  }

  // ---- the executor's scans in these terms ----

  lemma {:induction false} FetchIsShown(data: Data, prefix: Byte, alias: Name, ids: seq<Key>)
    ensures Fetch(data, prefix, alias, ids) == Shown(RowsOf(data, prefix), alias, Known(RowsOf(data, prefix), ids))
  {
    if ids != [] {
      var rows := RowsOf(data, prefix);
      var before, id := ids[..|ids| - 1], ids[|ids| - 1];
      FetchIsShown(data, prefix, alias, before);
      if id !in before && id in rows {
        ShownSnoc(rows, alias, Known(rows, before), id);
      }
    }
  }

  lemma ShownSnoc(rows: Rows, alias: Name, ids: seq<Key>, id: Key)
    requires AllIn(rows, ids) && id in rows
    ensures Shown(rows, alias, ids + [id]) == Shown(rows, alias, ids) + [Aliased(rows[id], alias)]
  {
    assert (ids + [id])[..|ids|] == ids;
  }

  lemma {:induction false} FilterIsChosen(sem: Semantics, e: Expr, rows: Rows, alias: Name, ids: seq<Key>)
    requires AllIn(rows, ids)
    ensures FilterRows(sem, e, Shown(rows, alias, ids)) == Shown(rows, alias, Chosen(sem, e, rows, alias, ids))
  {
    if ids != [] {
      var before, id := ids[..|ids| - 1], ids[|ids| - 1];
      FilterIsChosen(sem, e, rows, alias, before);
      var shown := Shown(rows, alias, ids);
      assert shown[..|shown| - 1] == Shown(rows, alias, before);
      if EvalBool(sem, e, Aliased(rows[id], alias)) {
        ShownSnoc(rows, alias, Chosen(sem, e, rows, alias, before), id);
      }
    }
  }

  /** The ids of a table in key order. */
  ghost function ScanIds(rows: Rows): (ids: seq<Key>)
    ensures Lists(ids, rows.Keys) && AllIn(rows, ids) && Once(ids)
  {
    var ids := InOrder(rows.Keys);
    assert forall i | 0 <= i < |ids| :: ids[i] in ids;
    assert forall i, j | 0 <= i < j < |ids| :: Less(ids[i], ids[j]) && ids[i] != ids[j] by {
      forall i, j | 0 <= i < j < |ids| ensures Less(ids[i], ids[j]) && ids[i] != ids[j] {
        Asymmetric(ids[i], ids[j]);
      }
    }
    ids
  }

  function Tails(keys: seq<Key>): (ids: seq<Key>)
    requires forall i | 0 <= i < |keys| :: keys[i] != []
    ensures |ids| == |keys| && forall i | 0 <= i < |keys| :: ids[i] == keys[i][1..]
  {
    if keys == [] then [] else Tails(keys[..|keys| - 1]) + [keys[|keys| - 1][1..]]
  }

  lemma {:induction false} CellsAreShown(data: Data, prefix: Byte, alias: Name, keys: seq<Key>)
    requires forall i | 0 <= i < |keys| :: keys[i] != [] && keys[i][0] == prefix && keys[i] in data && data[keys[i]].RowCell?
    ensures AllIn(RowsOf(data, prefix), Tails(keys))
    ensures CellRows(data, alias, keys) == Shown(RowsOf(data, prefix), alias, Tails(keys))
  {
    var rows := RowsOf(data, prefix);
    forall i | 0 <= i < |keys| ensures Tails(keys)[i] in rows && rows[Tails(keys)[i]] == data[keys[i]].row {
      assert EncodeKey(prefix, keys[i][1..]) == keys[i];
    }
    if keys != [] {
      var before := keys[..|keys| - 1];
      CellsAreShown(data, prefix, alias, before);
      ShownSnoc(rows, alias, Tails(before), keys[|keys| - 1][1..]);
    }
  }

  ghost predicate RowKeysOf(data: Data, prefix: Byte, keys: seq<Key>) {
    && Lists(keys, KeysIn(data, [prefix], PrefixEnd([prefix])))
    && forall i | 0 <= i < |keys| :: keys[i] != [] && keys[i][0] == prefix && keys[i] in data && data[keys[i]].RowCell?
  }

  lemma TailsSorted(data: Data, prefix: Byte, keys: seq<Key>)
    requires RowKeysOf(data, prefix, keys)
    ensures Sorted(Tails(keys))
  {
    var ids := Tails(keys);
    forall i, j | 0 <= i < j < |ids| ensures Less(ids[i], ids[j]) {
      assert keys[i] == [prefix] + ids[i] && keys[j] == [prefix] + ids[j];
      CommonPrefix([prefix], ids[i], ids[j]);
    }
  }

  lemma TailIsRow(data: Data, prefix: Byte, keys: seq<Key>, id: Key)
    requires RowKeysOf(data, prefix, keys) && prefix < 0xFF
    ensures id in Tails(keys) <==> id in RowsOf(data, prefix)
  {
    var ids, k := Tails(keys), EncodeKey(prefix, id);
    LowPrefixIsExact([prefix]);
    assert k[1..] == id && [prefix] <= k;
    if id in ids {
      var i :| 0 <= i < |ids| && ids[i] == id;
      assert keys[i] == k;
    }
    if id in RowsOf(data, prefix) {
      assert InRange(k, [prefix], PrefixEnd([prefix]));
      assert k in KeysIn(data, [prefix], PrefixEnd([prefix]));
      var i :| 0 <= i < |keys| && keys[i] == k;
      assert ids[i] == id;
    }
  }

  lemma TailsInOrder(data: Data, prefix: Byte, keys: seq<Key>)
    requires RowKeysOf(data, prefix, keys) && prefix < 0xFF
    ensures Tails(keys) == ScanIds(RowsOf(data, prefix))
  {
    TailsSorted(data, prefix, keys);
    forall id ensures id in Tails(keys) <==> id in RowsOf(data, prefix).Keys {
      TailIsRow(data, prefix, keys, id);
    }
    ListIsUnique(Tails(keys), ScanIds(RowsOf(data, prefix)), RowsOf(data, prefix).Keys);
  }

  lemma ScanIsShown(tables: Tables, data: Data, table: Name, alias: Name)
    requires GoodTables(tables) && GoodData(tables, data) && table in tables
    ensures var rows := RowsOf(data, tables[table]);
            ScanRows(data, tables[table], alias) == Shown(rows, alias, ScanIds(rows))
  {
    var prefix := tables[table];
    var keys := Scanned(data, [prefix], PrefixEnd([prefix]));
    LowPrefixIsExact([prefix]);
    forall i | 0 <= i < |keys|
      ensures keys[i] != [] && keys[i][0] == prefix && keys[i] in data && data[keys[i]].RowCell?
    {
      assert keys[i] in keys && [prefix] <= keys[i];
    }
    CellsAreShown(data, prefix, alias, keys);
    TailsInOrder(data, prefix, keys);
  }

  // ---- the same ids give the same rows ----

  lemma {:induction false} OnceMultiset(a: seq<Key>, b: seq<Key>)
    requires Once(a) && Once(b) && forall id :: id in a <==> id in b
    ensures multiset(a) == multiset(b)
  {
    forall id ensures multiset(a)[id] == multiset(b)[id] {
      OnceCount(a, id);
      OnceCount(b, id);
    }
  }

  lemma {:induction false} OnceCount(a: seq<Key>, id: Key)
    requires Once(a)
    ensures multiset(a)[id] == if id in a then 1 else 0
  {
    if a != [] {
      var front := a[..|a| - 1];
      assert a == front + [a[|a| - 1]];
      OnceCount(front, id);
    }
  }

  /** Any row-wise view of two orderings of the same ids has the same rows. */
  lemma {:induction false} SameIdsSameRows(f: Key -> Row, a: seq<Key>, b: seq<Key>)
    requires multiset(a) == multiset(b)
    ensures multiset(Mapped(f, a)) == multiset(Mapped(f, b))
    decreases |a|
  {
    if a == [] {
      assert |b| == |multiset(b)| == |multiset(a)| == 0;
    } else {
      var n := |a| - 1;
      assert a[n] in multiset(a);
      assert a[n] in multiset(b);
      var i :| 0 <= i < |b| && b[i] == a[n];
      MappedWithout(f, a, n);
      MappedWithout(f, b, i);
      SameIdsSameRows(f, a[..n] + a[n + 1..], b[..i] + b[i + 1..]);
    }
  }

  lemma MappedWithout(f: Key -> Row, b: seq<Key>, i: nat)
    requires i < |b|
    ensures var rest := b[..i] + b[i + 1..];
            && multiset(rest) == multiset(b) - multiset{b[i]}
            && multiset(Mapped(f, b)) == multiset(Mapped(f, rest)) + multiset{f(b[i])}
  {
    assert b == b[..i] + [b[i]] + b[i + 1..];
    MappedJoin(f, b[..i], b[i + 1..]);
    assert Mapped(f, b) == Mapped(f, b[..i]) + [f(b[i])] + Mapped(f, b[i + 1..]);
  }

  function Mapped(f: Key -> Row, ids: seq<Key>): (out: seq<Row>)
    ensures |out| == |ids| && forall i | 0 <= i < |ids| :: out[i] == f(ids[i])
  {
    if ids == [] then [] else Mapped(f, ids[..|ids| - 1]) + [f(ids[|ids| - 1])]
  }

  lemma MappedJoin(f: Key -> Row, a: seq<Key>, b: seq<Key>)
    ensures Mapped(f, a + b) == Mapped(f, a) + Mapped(f, b)
  {
  }
}
