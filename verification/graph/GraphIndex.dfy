/** Reading edges through the index (getEdgesByIndex in internal/graph/store.go). */
module GraphIndex {
  import opened Bytes
  import opened KeyEncode
  import opened Engine
  import opened GraphKeys
  import opened Adjacency

  function IndexPrefix(field: Key): Key { EncodeIndexKey(PREFIX_GRAPH, field, []) }

  /** The edges whose ids the index keys name, as far as they can be read. */
  function Collected(data: Data, keys: seq<Key>): seq<Edge> {
    if keys == [] then []
    else
      var front := Collected(data, keys[..|keys| - 1]);
      match EdgeAt(data, DecodeIndexId(keys[|keys| - 1]))
      case Some(e) => front + [e]
      case None => front
  }

  ghost function Found(data: Data, field: Key): seq<Edge> {
    Collected(data, Scanned(data, IndexPrefix(field), PrefixEnd(IndexPrefix(field))))
  }

  /** The nodes whose ids the index keys name, as far as they can be read. */
  function CollectedNodes(data: Data, keys: seq<Key>): seq<Node> {
    if keys == [] then []
    else
      var front := CollectedNodes(data, keys[..|keys| - 1]);
      match NodeAt(data, DecodeIndexId(keys[|keys| - 1]))
      case Some(n) => front + [n]
      case None => front
  }

  function FirstOf<T>(s: seq<T>, limit: int): seq<T> {
    if 0 < limit < |s| then s[..limit] else s
  }

  ghost function FoundNodes(data: Data, field: Key, limit: int): seq<Node> {
    CollectedNodes(data, FirstOf(Scanned(data, IndexPrefix(field), PrefixEnd(IndexPrefix(field))), limit))
  }

  /** The edges of a set, each once, by rising ids. */
  ghost predicate ListsEdges(es: seq<Edge>, all: set<Edge>) {
    && (forall e :: e in es <==> e in all)
    && (forall i, j | 0 <= i < j < |es| :: Less(es[i].id, es[j].id))
  }

  ghost function OutOf(edges: set<Edge>, id: Key): set<Edge> { set e | e in edges && e.from == id }

  ghost function Into(edges: set<Edge>, id: Key): set<Edge> { set e | e in edges && e.to == id }

  lemma {:induction false} CollectedOne(data: Data, field: Key, keys: seq<Key>, ids: seq<Key>)
    requires ZeroFree(field) && field != [] && |ids| == |keys|
    requires forall i | 0 <= i < |keys| :: keys[i] == EncodeIndexKey(PREFIX_GRAPH, field, ids[i]) && EdgeAt(data, ids[i]).Some?
    ensures var es := Collected(data, keys);
            |es| == |keys| && forall i | 0 <= i < |keys| :: Some(es[i]) == EdgeAt(data, ids[i])
  {
    if keys != [] {
      var n := |keys| - 1;
      CollectedOne(data, field, keys[..n], ids[..n]);
      IndexIdReadBack(PREFIX_GRAPH, field, ids[n]);
    }
  }

  lemma IndexKeysIn(data: Data, field: Key, k: Key)
    ensures k in KeysIn(data, IndexPrefix(field), PrefixEnd(IndexPrefix(field))) <==> k in data && IndexPrefix(field) <= k
  {
    LowPrefixIsExact(IndexPrefix(field));
  }

  lemma SuffixOf(field: Key, id: Key)
    ensures var k := EncodeIndexKey(PREFIX_GRAPH, field, id);
            IndexPrefix(field) <= k && k[|IndexPrefix(field)|..] == id
  {
  }

  lemma SuffixIs(field: Key, k: Key)
    ensures IndexPrefix(field) <= k ==> k == EncodeIndexKey(PREFIX_GRAPH, field, k[|IndexPrefix(field)|..])
  {
  }

  lemma NoneCollected(data: Data, field: Key)
    requires forall id :: EncodeIndexKey(PREFIX_GRAPH, field, id) !in data
    ensures Found(data, field) == []
  {
    var all := KeysIn(data, IndexPrefix(field), PrefixEnd(IndexPrefix(field)));
    forall k ensures k !in all {
      IndexKeysIn(data, field, k);
      SuffixIs(field, k);
    }
    EmptyList(InOrder(all));
  }

  /** The keys an index scan visits, and the edge ids in them. */
  lemma ScannedIds(data: Data, field: Key) returns (keys: seq<Key>, ids: seq<Key>)
    ensures keys == Scanned(data, IndexPrefix(field), PrefixEnd(IndexPrefix(field))) && |ids| == |keys|
    ensures forall i | 0 <= i < |keys| :: keys[i] in data && keys[i] == EncodeIndexKey(PREFIX_GRAPH, field, ids[i])
    ensures forall id | EncodeIndexKey(PREFIX_GRAPH, field, id) in data :: id in ids
    ensures forall i, j | 0 <= i < j < |ids| :: Less(ids[i], ids[j])
  {
    var p := IndexPrefix(field);
    keys := Scanned(data, p, PrefixEnd(p));
    forall i | 0 <= i < |keys| ensures p <= keys[i] && keys[i] in data {
      assert keys[i] in keys;
      IndexKeysIn(data, field, keys[i]);
    }
    ids := seq(|keys|, i requires 0 <= i < |keys| => keys[i][|p|..]);
    forall i | 0 <= i < |keys| ensures keys[i] == EncodeIndexKey(PREFIX_GRAPH, field, ids[i]) && keys[i] == p + ids[i] {
      SuffixIs(field, keys[i]);
    }
    forall id | EncodeIndexKey(PREFIX_GRAPH, field, id) in data ensures id in ids {
      var k := EncodeIndexKey(PREFIX_GRAPH, field, id);
      SuffixOf(field, id);
      IndexKeysIn(data, field, k);
      var i :| 0 <= i < |keys| && keys[i] == k;
      assert ids[i] == id;
    }
    forall i, j | 0 <= i < j < |ids| ensures Less(ids[i], ids[j]) {
      CommonPrefix(p, ids[i], ids[j]);
    }
  }

  /** Where the index holds exactly the ids of some edges, the scan lists those edges. */
  lemma FoundLists(data: Data, field: Key, all: set<Edge>)
    requires EdgesStored(data) && ZeroFree(field) && field != [] && all <= Edges(data)
    requires forall id :: EncodeIndexKey(PREFIX_GRAPH, field, id) in data <==> exists e :: e in all && e.id == id
    ensures ListsEdges(Found(data, field), all)
  {
    var keys, ids := ScannedIds(data, field);
    forall i | 0 <= i < |keys| ensures EdgeAt(data, ids[i]).Some? && EdgeAt(data, ids[i]).value in all
      ensures EdgeAt(data, ids[i]).value.id == ids[i]
    {
      var e :| e in all && e.id == ids[i];
      EdgesAreGood(data, e);
    }
    CollectedOne(data, field, keys, ids);
    var es := Found(data, field);
    forall e | e in all ensures e in es {
      EdgesAreGood(data, e);
      assert EncodeIndexKey(PREFIX_GRAPH, field, e.id) in data;
      var i :| 0 <= i < |ids| && ids[i] == e.id;
      assert es[i] == e;
    }
  }

  lemma FieldIsZeroFree(kind: Key, id: Key)
    requires ZeroFree(kind) && ZeroFree(id)
    ensures ZeroFree(kind + id)
  {
  }

  /** The out index of any id lists the stored edges that leave it. */
  lemma OutFound(data: Data, id: Key)
    requires Stored(data)
    ensures ListsEdges(Found(data, OUT + id), OutOf(Edges(data), id))
  {
    var all := OutOf(Edges(data), id);
    forall x ensures OutKey(id, x) in data <==> exists e :: e in all && e.id == x {
      assert OutKey(id, x) in data <==> Leaves(data, id, x);
      if Leaves(data, id, x) {
        var e := data[EdgeKey(x)].edge;
        EdgeIsAt(data, e);
        assert e in all && e.id == x;
      }
      if e :| e in all && e.id == x {
        EdgeIsAt(data, e);
      }
    }
    if ZeroFree(id) {
      forall x ensures EncodeIndexKey(PREFIX_GRAPH, OUT + id, x) in data <==> exists e :: e in all && e.id == x {
        assert OutKey(id, x) in data <==> exists e :: e in all && e.id == x;
      }
      FieldIsZeroFree(OUT, id);
      FoundLists(data, OUT + id, all);
    } else {
      forall e ensures e !in all {
        if e in all {
          EdgesAreGood(data, e);
        }
      }
      forall x ensures EncodeIndexKey(PREFIX_GRAPH, OUT + id, x) !in data {
        assert OutKey(id, x) in data <==> exists e :: e in all && e.id == x;
      }
      NoneCollected(data, OUT + id);
    }
  }

  lemma InFound(data: Data, id: Key)
    requires Stored(data)
    ensures ListsEdges(Found(data, IN + id), Into(Edges(data), id))
  {
    var all := Into(Edges(data), id);
    forall x ensures InKey(id, x) in data <==> exists e :: e in all && e.id == x {
      assert InKey(id, x) in data <==> Enters(data, id, x);
      if Enters(data, id, x) {
        var e := data[EdgeKey(x)].edge;
        EdgeIsAt(data, e);
        assert e in all && e.id == x;
      }
      if e :| e in all && e.id == x {
        EdgeIsAt(data, e);
      }
    }
    if ZeroFree(id) {
      forall x ensures EncodeIndexKey(PREFIX_GRAPH, IN + id, x) in data <==> exists e :: e in all && e.id == x {
        assert InKey(id, x) in data <==> exists e :: e in all && e.id == x;
      }
      FieldIsZeroFree(IN, id);
      FoundLists(data, IN + id, all);
    } else {
      forall e ensures e !in all {
        if e in all {
          EdgesAreGood(data, e);
        }
      }
      forall x ensures EncodeIndexKey(PREFIX_GRAPH, IN + id, x) !in data {
        assert InKey(id, x) in data <==> exists e :: e in all && e.id == x;
      }
      NoneCollected(data, IN + id);
    }
  }
}
