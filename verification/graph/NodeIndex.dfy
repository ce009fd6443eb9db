/**
 The indexes of nodes by type and by name and of edges by type (internal/graph/store.go).  While they are in
 step with the stored nodes and edges, finding by type or name finds exactly these.  Deleting keeps them in
 step; adding does, unless something else was stored under the id.
 */
module NodeIndex {
  import opened Bytes
  import opened KeyEncode
  import opened Engine
  import opened GraphKeys
  import opened Adjacency
  import opened GraphIndex
  import opened GraphPaths
  import opened GraphStore

  /** Types and names hold no zero, like ids. */
  predicate GoodNode(n: Node) { IsNodeId(n.id) && ZeroFree(n.kind) && ZeroFree(n.name) }

  ghost predicate HasType(data: Data, t: Key, id: Key) {
    IsNodeId(id) && NodeKey(id) in data && data[NodeKey(id)].NodeRec? && data[NodeKey(id)].node.kind == t
  }

  ghost predicate HasName(data: Data, name: Key, id: Key) {
    IsNodeId(id) && NodeKey(id) in data && data[NodeKey(id)].NodeRec? && data[NodeKey(id)].node.name == name
  }

  ghost predicate HasEdgeType(data: Data, t: Key, id: Key) {
    EdgeKey(id) in data && data[EdgeKey(id)].EdgeRec? && data[EdgeKey(id)].edge.kind == t
  }

  ghost predicate TypesStored(data: Data) {
    forall t, id {:trigger TypeKey(t, id)} :: TypeKey(t, id) in data <==> HasType(data, t, id)
  }

  ghost predicate NamesStored(data: Data) {
    forall name, id {:trigger NameKey(name, id)} :: NameKey(name, id) in data <==> HasName(data, name, id)
  }

  ghost predicate EdgeTypesStored(data: Data) {
    forall t, id {:trigger EdgeTypeKey(t, id)} :: EdgeTypeKey(t, id) in data <==> HasEdgeType(data, t, id)
  }

  ghost predicate WordsGood(data: Data) {
    && (forall id {:trigger NodeKey(id)} | IsNodeId(id) && NodeKey(id) in data && data[NodeKey(id)].NodeRec? :: GoodNode(data[NodeKey(id)].node))
    && (forall id {:trigger EdgeKey(id)} | EdgeKey(id) in data && data[EdgeKey(id)].EdgeRec? :: ZeroFree(data[EdgeKey(id)].edge.kind))
  }

  ghost predicate Indexed(data: Data) {
    Stored(data) && TypesStored(data) && NamesStored(data) && EdgeTypesStored(data) && WordsGood(data)
  }

  // ---- keys ----

  lemma TypeKeyTells(a: Key, x: Key, b: Key, y: Key)
    requires TypeKey(a, x) == TypeKey(b, y) && ZeroFree(b) && ZeroFree(y)
    ensures a == b && x == y
  {
    assert TypeKey(a, x)[6..] == a + [0] + x && TypeKey(b, y)[6..] == b + [0] + y;
    ZeroSplits(a, x, b, y);
  }

  lemma NameKeyTells(a: Key, x: Key, b: Key, y: Key)
    requires NameKey(a, x) == NameKey(b, y) && ZeroFree(b) && ZeroFree(y)
    ensures a == b && x == y
  {
    assert NameKey(a, x)[6..] == a + [0] + x && NameKey(b, y)[6..] == b + [0] + y;
    ZeroSplits(a, x, b, y);
  }

  lemma EdgeTypeKeyTells(a: Key, x: Key, b: Key, y: Key)
    requires EdgeTypeKey(a, x) == EdgeTypeKey(b, y) && ZeroFree(b) && ZeroFree(y)
    ensures a == b && x == y
  {
    assert EdgeTypeKey(a, x)[7..] == a + [0] + x && EdgeTypeKey(b, y)[7..] == b + [0] + y;
    ZeroSplits(a, x, b, y);
  }

  /** Which keys of each kind a node occupies. */
  lemma NodeKeysOnly(n: Node, a: Key, id: Key)
    requires GoodNode(n)
    ensures var own := {NodeKey(n.id), TypeKey(n.kind, n.id), NameKey(n.name, n.id)};
            && (TypeKey(a, id) in own <==> a == n.kind && id == n.id)
            && (NameKey(a, id) in own <==> a == n.name && id == n.id)
            && EdgeTypeKey(a, id) !in own && EdgeKey(id) !in own
            && (IsNodeId(id) ==> (NodeKey(id) in own <==> id == n.id))
    ensures NodeKey(n.id) != TypeKey(n.kind, n.id) && NodeKey(n.id) != NameKey(n.name, n.id)
  {
    Tags(a, id);
    Tags(n.kind, n.id);
    Tags(n.name, n.id);
    NodeKeyIsApart(n.id, a, id);
    NodeKeyIsApart(n.id, n.kind, n.id);
    NodeKeyIsApart(n.id, n.name, n.id);
    NodeKeysApart(n, a, id);
    if TypeKey(a, id) == TypeKey(n.kind, n.id) {
      TypeKeyTells(a, id, n.kind, n.id);
    }
    if NameKey(a, id) == NameKey(n.name, n.id) {
      NameKeyTells(a, id, n.name, n.id);
    }
  }

  /** Which index keys of these kinds an edge occupies. */
  lemma EdgeTypeKeysOnly(e: Edge, a: Key, id: Key)
    requires GoodEdge(e) && ZeroFree(e.kind)
    ensures var own := {EdgeKey(e.id), OutKey(e.from, e.id), InKey(e.to, e.id), EdgeTypeKey(e.kind, e.id)};
            && (EdgeTypeKey(a, id) in own <==> a == e.kind && id == e.id)
            && TypeKey(a, id) !in own && NameKey(a, id) !in own
            && (EdgeKey(id) in own <==> id == e.id) && (IsNodeId(id) ==> NodeKey(id) !in own)
    ensures EdgeKey(e.id) != EdgeTypeKey(e.kind, e.id)
  {
    Tags(a, id);
    Tags(e.from, e.id);
    Tags(e.to, e.id);
    Tags(e.kind, e.id);
    EdgeKeysOnly(e, id, id);
    if EdgeTypeKey(a, id) == EdgeTypeKey(e.kind, e.id) {
      EdgeTypeKeyTells(a, id, e.kind, e.id);
    }
  }

  // ---- nodes ----

  /** Stores that differ in one node's keys only. */
  ghost predicate SameButNode(data: Data, d: Data, n: Node) {
    forall k | k !in {NodeKey(n.id), TypeKey(n.kind, n.id), NameKey(n.name, n.id)} :: SameAt(data, d, k)
  }

  lemma OtherNodesSame(data: Data, d: Data, n: Node, a: Key, id: Key)
    requires GoodNode(n) && SameButNode(data, d, n)
    ensures SameAt(data, d, EdgeTypeKey(a, id)) && SameAt(data, d, EdgeKey(id))
    ensures !(a == n.kind && id == n.id) ==> SameAt(data, d, TypeKey(a, id))
    ensures !(a == n.name && id == n.id) ==> SameAt(data, d, NameKey(a, id))
    ensures IsNodeId(id) && id != n.id ==> SameAt(data, d, NodeKey(id))
  {
    NodeKeysOnly(n, a, id);
  }

  /** No other node is stored under the id, or one of the same type and name. */
  ghost predicate KeepsWords(data: Data, n: Node) {
    NodeKey(n.id) in data ==> HasType(data, n.kind, n.id) && HasName(data, n.name, n.id)
  }

  lemma AddNodeIndexes(data: Data, n: Node)
    requires Indexed(data) && GoodNode(n) && KeepsWords(data, n)
    ensures Indexed(WithNode(data, n))
  {
    var d := WithNode(data, n);
    AddNodeKeeps(data, n);
    NodeKeysOnly(n, [], n.id);
    forall a, id
      ensures SameAt(data, d, EdgeTypeKey(a, id)) && SameAt(data, d, EdgeKey(id))
      ensures !(a == n.kind && id == n.id) ==> SameAt(data, d, TypeKey(a, id))
      ensures !(a == n.name && id == n.id) ==> SameAt(data, d, NameKey(a, id))
      ensures IsNodeId(id) && id != n.id ==> SameAt(data, d, NodeKey(id))
    {
      OtherNodesSame(data, d, n, a, id);
    }
    assert d[NodeKey(n.id)] == NodeRec(n);
    forall t, id ensures TypeKey(t, id) in d <==> HasType(d, t, id) {
      assert TypeKey(t, id) in data <==> HasType(data, t, id);
    }
    forall name, id ensures NameKey(name, id) in d <==> HasName(d, name, id) {
      assert NameKey(name, id) in data <==> HasName(data, name, id);
    }
    forall t, id ensures EdgeTypeKey(t, id) in d <==> HasEdgeType(d, t, id) {
      assert EdgeTypeKey(t, id) in data <==> HasEdgeType(data, t, id);
    }
  }

  lemma DropNodeIndexes(data: Data, n: Node)
    requires Indexed(data) && IsNodeId(n.id) && NodeKey(n.id) in data && data[NodeKey(n.id)] == NodeRec(n)
    ensures Indexed(WithoutNode(data, n.id, n))
  {
    var d := WithoutNode(data, n.id, n);
    assert GoodNode(n);
    DropNodeKeeps(data, n);
    NodeKeysOnly(n, [], n.id);
    forall a, id
      ensures SameAt(data, d, EdgeTypeKey(a, id)) && SameAt(data, d, EdgeKey(id))
      ensures !(a == n.kind && id == n.id) ==> SameAt(data, d, TypeKey(a, id))
      ensures !(a == n.name && id == n.id) ==> SameAt(data, d, NameKey(a, id))
      ensures IsNodeId(id) && id != n.id ==> SameAt(data, d, NodeKey(id))
    {
      OtherNodesSame(data, d, n, a, id);
    }
    forall t, id ensures TypeKey(t, id) in d <==> HasType(d, t, id) {
      assert TypeKey(t, id) in data <==> HasType(data, t, id);
    }
    forall name, id ensures NameKey(name, id) in d <==> HasName(d, name, id) {
      assert NameKey(name, id) in data <==> HasName(data, name, id);
    }
    forall t, id ensures EdgeTypeKey(t, id) in d <==> HasEdgeType(d, t, id) {
      assert EdgeTypeKey(t, id) in data <==> HasEdgeType(data, t, id);
    }
  }

  /** The entry of the old type or name stays behind. */
  lemma StaleWord(data: Data, n: Node)
    requires Indexed(data) && GoodNode(n) && !KeepsWords(data, n)
    ensures !Indexed(WithNode(data, n))
  {
    var d := WithNode(data, n);
    NodeKeysOnly(n, [], n.id);
    var was := data[NodeKey(n.id)].node;
    assert d[NodeKey(n.id)] == NodeRec(n);
    if was.kind != n.kind {
      assert TypeKey(was.kind, n.id) in data <==> HasType(data, was.kind, n.id);
      OtherNodesSame(data, d, n, was.kind, n.id);
      assert !HasType(d, was.kind, n.id) && TypeKey(was.kind, n.id) in d;
    } else {
      assert NameKey(was.name, n.id) in data <==> HasName(data, was.name, n.id);
      OtherNodesSame(data, d, n, was.name, n.id);
      assert !HasName(d, was.name, n.id) && NameKey(was.name, n.id) in d;
    }
  }

  /** AddNode keeps the indexes in step exactly when the id is new or its node keeps type and name. */
  lemma AddNodeIndexesIff(data: Data, n: Node)
    requires Indexed(data) && GoodNode(n)
    ensures Indexed(WithNode(data, n)) <==> KeepsWords(data, n)
  {
    if KeepsWords(data, n) {
      AddNodeIndexes(data, n);
    } else {
      StaleWord(data, n);
    }
  }

  // ---- edges ----

  ghost predicate SameButEdge(data: Data, d: Data, e: Edge) {
    forall k | k !in {EdgeKey(e.id), OutKey(e.from, e.id), InKey(e.to, e.id), EdgeTypeKey(e.kind, e.id)} :: SameAt(data, d, k)
  }

  lemma OtherEdgesSame(data: Data, d: Data, e: Edge, a: Key, id: Key)
    requires GoodEdge(e) && ZeroFree(e.kind) && SameButEdge(data, d, e)
    ensures SameAt(data, d, TypeKey(a, id)) && SameAt(data, d, NameKey(a, id))
    ensures !(a == e.kind && id == e.id) ==> SameAt(data, d, EdgeTypeKey(a, id))
    ensures id != e.id ==> SameAt(data, d, EdgeKey(id))
    ensures IsNodeId(id) ==> SameAt(data, d, NodeKey(id))
  {
    EdgeTypeKeysOnly(e, a, id);
  }

  lemma SameOtherIndexes(data: Data, d: Data, e: Edge)
    requires Indexed(data) && GoodEdge(e) && ZeroFree(e.kind) && SameButEdge(data, d, e)
    ensures TypesStored(d) && NamesStored(d)
    ensures forall id {:trigger NodeKey(id)} | IsNodeId(id) :: SameAt(data, d, NodeKey(id))
    ensures forall id {:trigger EdgeKey(id)} | id != e.id :: SameAt(data, d, EdgeKey(id))
    ensures forall t, id {:trigger EdgeTypeKey(t, id)} | !(t == e.kind && id == e.id) :: SameAt(data, d, EdgeTypeKey(t, id))
  {
    forall a, id
      ensures SameAt(data, d, TypeKey(a, id)) && SameAt(data, d, NameKey(a, id))
      ensures !(a == e.kind && id == e.id) ==> SameAt(data, d, EdgeTypeKey(a, id))
    {
      OtherEdgesSame(data, d, e, a, id);
    }
    forall id {:trigger NodeKey(id)} | IsNodeId(id) ensures SameAt(data, d, NodeKey(id)) {
      OtherEdgesSame(data, d, e, [], id);
    }
    forall id {:trigger EdgeKey(id)} | id != e.id ensures SameAt(data, d, EdgeKey(id)) {
      OtherEdgesSame(data, d, e, [], id);
    }
    forall t, id ensures TypeKey(t, id) in d <==> HasType(d, t, id) {
      assert TypeKey(t, id) in data <==> HasType(data, t, id);
    }
    forall name, id ensures NameKey(name, id) in d <==> HasName(d, name, id) {
      assert NameKey(name, id) in data <==> HasName(data, name, id);
    }
  }

  lemma AddEdgeIndexes(data: Data, e: Edge)
    requires Indexed(data) && GoodEdge(e) && ZeroFree(e.kind)
    requires EdgeKey(e.id) in data ==> SameEnds(data, e) && HasEdgeType(data, e.kind, e.id)
    ensures Indexed(WithEdge(data, e))
  {
    var d := WithEdge(data, e);
    AddEdgeKeeps(data, e);
    SameOtherIndexes(data, d, e);
    OwnEdgeKeys(data, e);
    EdgeTypeKeysOnly(e, [], e.id);
    forall t, id ensures EdgeTypeKey(t, id) in d <==> HasEdgeType(d, t, id) {
      assert EdgeTypeKey(t, id) in data <==> HasEdgeType(data, t, id);
    }
  }

  lemma DropEdgeIndexes(data: Data, e: Edge)
    requires Indexed(data) && e in Edges(data)
    ensures Indexed(WithoutEdge(data, e.id, e))
  {
    var d := WithoutEdge(data, e.id, e);
    EdgesAreGood(data, e);
    DropEdgeKeeps(data, e);
    SameOtherIndexes(data, d, e);
    OwnEdgeKeys(data, e);
    EdgeTypeKeysOnly(e, [], e.id);
    forall t, id ensures EdgeTypeKey(t, id) in d <==> HasEdgeType(d, t, id) {
      assert EdgeTypeKey(t, id) in data <==> HasEdgeType(data, t, id);
    }
  }

  lemma StaleEdgeType(data: Data, e: Edge)
    requires Indexed(data) && GoodEdge(e) && ZeroFree(e.kind) && EdgeKey(e.id) in data && !HasEdgeType(data, e.kind, e.id)
    ensures !Indexed(WithEdge(data, e))
  {
    var d := WithEdge(data, e);
    var was := data[EdgeKey(e.id)].edge;
    OwnEdgeKeys(data, e);
    assert EdgeTypeKey(was.kind, e.id) in data <==> HasEdgeType(data, was.kind, e.id);
    OtherEdgesSame(data, d, e, was.kind, e.id);
    assert !HasEdgeType(d, was.kind, e.id);
  }

  /** AddEdge does exactly when the id is new or its edge keeps its ends and type. */
  lemma AddEdgeIndexesIff(data: Data, e: Edge)
    requires Indexed(data) && GoodEdge(e) && ZeroFree(e.kind)
    ensures Indexed(WithEdge(data, e)) <==> (EdgeKey(e.id) in data ==> SameEnds(data, e) && HasEdgeType(data, e.kind, e.id))
  {
    AddEdgeKeepsIff(data, e);
    if EdgeKey(e.id) in data && !HasEdgeType(data, e.kind, e.id) {
      StaleEdgeType(data, e);
    } else if EdgeKey(e.id) in data ==> SameEnds(data, e) {
      AddEdgeIndexes(data, e);
    }
  }

  // ---- every history ----

  lemma DropIdIndexes(data: Data, id: Key)
    requires Indexed(data)
    ensures Indexed(EdgeDropped(data, id))
  {
    if EdgeKey(id) in data {
      var e := data[EdgeKey(id)].edge;
      EdgeIsAt(data, e);
      DropEdgeIndexes(data, e);
    }
  }

  lemma {:induction false} DropEachIndexes(data: Data, es: seq<Edge>)
    requires Indexed(data)
    ensures Indexed(EdgesDropped(data, es))
  {
    if es != [] {
      DropEachIndexes(data, es[..|es| - 1]);
      DropIdIndexes(EdgesDropped(data, es[..|es| - 1]), es[|es| - 1].id);
    }
  }

  lemma DropNodeIdIndexes(data: Data, id: Key)
    requires Indexed(data) && IsNodeId(id)
    ensures Indexed(NodeDropped(data, id))
  {
    if NodeKey(id) in data {
      var es := Incident(data, id);
      IncidentTouch(data, id);
      DropEachKeeps(data, es);
      DropEachIndexes(data, es);
      var bare := EdgesDropped(data, es);
      assert SameAt(data, bare, NodeKey(id));
      DropNodeIndexes(bare, data[NodeKey(id)].node);
    }
  }

  /** Words without zeros, and what is added again keeps its type, its name and its ends. */
  ghost predicate ProperToo(data: Data, call: Call) {
    match call
    case CallAddNode(n) => n.id == [] || (GoodNode(n) && KeepsWords(data, n))
    case CallAddEdge(e) =>
      GoodEdge(e) && ZeroFree(e.kind) && (EdgeKey(e.id) in data ==> SameEnds(data, e) && HasEdgeType(data, e.kind, e.id))
    case CallDeleteEdge(_) => true
    case CallDeleteNode(id) => IsNodeId(id)
  }

  lemma EmptyIsIndexed()
    ensures Indexed(map[])
  {
    EmptyIsStored();
  }

  lemma {:induction false} AlwaysIndexed(calls: seq<Call>)
    requires forall i | 0 <= i < |calls| :: ProperToo(Ran(calls[..i]), calls[i])
    ensures Indexed(Ran(calls))
  {
    if calls == [] {
      EmptyIsIndexed();
    } else {
      var front, last := calls[..|calls| - 1], calls[|calls| - 1];
      forall i | 0 <= i < |front| ensures ProperToo(Ran(front[..i]), front[i]) {
        assert front[..i] == calls[..i];
      }
      AlwaysIndexed(front);
      var data := Ran(front);
      assert ProperToo(data, last);
      match last
      case CallAddNode(n) =>
        if n.id != [] {
          AddNodeIndexes(data, n);
        }
      case CallAddEdge(e) => AddEdgeIndexes(data, e);
      case CallDeleteEdge(id) => DropIdIndexes(data, id);
      case CallDeleteNode(id) => DropNodeIdIndexes(data, id);
    }
  }

  // ---- finding ----

  lemma {:induction false} CollectedNodesOne(data: Data, field: Key, keys: seq<Key>, ids: seq<Key>)
    requires ZeroFree(field) && |ids| == |keys|
    requires forall i | 0 <= i < |keys| :: keys[i] == EncodeIndexKey(PREFIX_GRAPH, field, ids[i]) && NodeAt(data, ids[i]).Some?
    ensures var ns := CollectedNodes(data, keys);
            |ns| == |keys| && forall i | 0 <= i < |keys| :: Some(ns[i]) == NodeAt(data, ids[i])
  {
    if keys != [] {
      var n := |keys| - 1;
      CollectedNodesOne(data, field, keys[..n], ids[..n]);
      IndexIdReadBack(PREFIX_GRAPH, field, ids[n]);
    }
  }

  /** The nodes under these ids, one by one. */
  ghost predicate NodesUnder(data: Data, ids: seq<Key>, nodes: seq<Node>) {
    |nodes| == |ids| && forall i | 0 <= i < |ids| :: NodeAt(data, ids[i]) == Some(nodes[i]) && nodes[i].id == ids[i]
  }

  lemma NodesListed(data: Data, ids: seq<Key>, nodes: seq<Node>, all: iset<Key>)
    requires NodesUnder(data, ids, nodes) && (forall id :: id in ids <==> id in all)
    requires forall i, j | 0 <= i < j < |ids| :: Less(ids[i], ids[j])
    ensures ListsNodes(data, nodes, all)
  {
    forall n: Node | n.id in all && NodeAt(data, n.id) == Some(n) ensures n in nodes {
      var i :| 0 <= i < |ids| && ids[i] == n.id;
      assert nodes[i] == n;
    }
    forall n: Node | n in nodes ensures n.id in all && NodeAt(data, n.id) == Some(n) {
      var i :| 0 <= i < |nodes| && nodes[i] == n;
      assert ids[i] in ids;
    }
  }

  lemma FirstNodes(data: Data, field: Key, keys: seq<Key>, ids: seq<Key>, limit: int)
    requires ZeroFree(field) && |ids| == |keys|
    requires forall i | 0 <= i < |keys| :: keys[i] == EncodeIndexKey(PREFIX_GRAPH, field, ids[i]) && NodeAt(data, ids[i]).Some?
    ensures CollectedNodes(data, FirstOf(keys, limit)) == FirstOf(CollectedNodes(data, keys), limit)
  {
    CollectedNodesOne(data, field, keys, ids);
    if 0 < limit < |keys| {
      CollectedNodesOne(data, field, keys[..limit], ids[..limit]);
      assert CollectedNodes(data, keys[..limit]) == CollectedNodes(data, keys)[..limit];
    }
  }

  /** Where the index field holds exactly these ids of stored nodes, the listing is these nodes by rising ids. */
  lemma FoundNodesList(data: Data, field: Key, all: iset<Key>, limit: int)
    requires Stored(data) && ZeroFree(field)
    requires forall id :: EncodeIndexKey(PREFIX_GRAPH, field, id) in data <==> id in all
    requires forall id | id in all :: IsNodeId(id) && NodeKey(id) in data
    ensures ListsNodes(data, FoundNodes(data, field, 0), all)
    ensures FoundNodes(data, field, limit) == FirstOf(FoundNodes(data, field, 0), limit)
  {
    var keys, ids := ScannedIds(data, field);
    forall id ensures id in ids <==> id in all {
      assert EncodeIndexKey(PREFIX_GRAPH, field, id) in data <==> id in all;
    }
    forall i | 0 <= i < |ids| ensures NodeAt(data, ids[i]).Some? && NodeAt(data, ids[i]).value.id == ids[i] {
      assert ids[i] in ids;
    }
    CollectedNodesOne(data, field, keys, ids);
    NodesListed(data, ids, CollectedNodes(data, keys), all);
    FirstNodes(data, field, keys, ids, limit);
  }

  lemma {:induction false} NoNodesCollected(data: Data, field: Key, limit: int)
    requires forall id :: EncodeIndexKey(PREFIX_GRAPH, field, id) !in data
    ensures FoundNodes(data, field, limit) == []
  {
    var all := KeysIn(data, IndexPrefix(field), PrefixEnd(IndexPrefix(field)));
    forall k ensures k !in all {
      IndexKeysIn(data, field, k);
      SuffixIs(field, k);
    }
    EmptyList(InOrder(all));
  }

  /** Finding by type returns exactly the stored nodes of the type, by rising ids, and with a limit the first of them. */
  lemma TypeFound(data: Data, t: Key, limit: int)
    requires Indexed(data)
    ensures ListsNodes(data, FoundNodes(data, TYPE + t, 0), iset id | HasType(data, t, id))
    ensures FoundNodes(data, TYPE + t, limit) == FirstOf(FoundNodes(data, TYPE + t, 0), limit)
  {
    var all := iset id | HasType(data, t, id);
    forall id ensures EncodeIndexKey(PREFIX_GRAPH, TYPE + t, id) in data <==> id in all {
      assert TypeKey(t, id) in data <==> HasType(data, t, id);
    }
    if ZeroFree(t) {
      FieldIsZeroFree(TYPE, t);
      FoundNodesList(data, TYPE + t, all, limit);
    } else {
      forall id ensures id !in all {
      }
      NoNodesCollected(data, TYPE + t, 0);
      NoNodesCollected(data, TYPE + t, limit);
    }
  }

  lemma NameFound(data: Data, name: Key, limit: int)
    requires Indexed(data)
    ensures ListsNodes(data, FoundNodes(data, NAME + name, 0), iset id | HasName(data, name, id))
    ensures FoundNodes(data, NAME + name, limit) == FirstOf(FoundNodes(data, NAME + name, 0), limit)
  {
    var all := iset id | HasName(data, name, id);
    forall id ensures EncodeIndexKey(PREFIX_GRAPH, NAME + name, id) in data <==> id in all {
      assert NameKey(name, id) in data <==> HasName(data, name, id);
    }
    if ZeroFree(name) {
      FieldIsZeroFree(NAME, name);
      FoundNodesList(data, NAME + name, all, limit);
    } else {
      forall id ensures id !in all {
      }
      NoNodesCollected(data, NAME + name, 0);
      NoNodesCollected(data, NAME + name, limit);
    }
  }

  /** Finding edges by type returns exactly the stored edges of the type, whatever the limit. */
  lemma EdgeTypeFound(data: Data, t: Key)
    requires Indexed(data)
    ensures ListsEdges(Found(data, EDGE_TYPE + t), set e | e in Edges(data) && e.kind == t)
  {
    var all := set e | e in Edges(data) && e.kind == t;
    forall x ensures EncodeIndexKey(PREFIX_GRAPH, EDGE_TYPE + t, x) in data <==> exists e :: e in all && e.id == x {
      assert EdgeTypeKey(t, x) in data <==> HasEdgeType(data, t, x);
      if HasEdgeType(data, t, x) {
        var e := data[EdgeKey(x)].edge;
        EdgeIsAt(data, e);
        assert e in all && e.id == x;
      }
      if e :| e in all && e.id == x {
        EdgeIsAt(data, e);
      }
    }
    if ZeroFree(t) {
      FieldIsZeroFree(EDGE_TYPE, t);
      FoundLists(data, EDGE_TYPE + t, all);
    } else {
      forall e ensures e !in all {
        if e in all {
          EdgesAreGood(data, e);
        }
      }
      NoneCollected(data, EDGE_TYPE + t);
    }
  }
}
