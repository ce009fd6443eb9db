/** What the store of a graph holds, and how adding and deleting change it. */
module Adjacency {
  import opened Bytes
  import opened Engine
  import opened GraphKeys

  // Properties and weights are not part of this model.
  datatype Node = Node(id: Key, kind: Key, name: Key)
  datatype Edge = Edge(id: Key, kind: Key, from: Key, to: Key)

  // A stored value; Mark is the single byte under an index key.
  datatype Rec = NodeRec(node: Node) | EdgeRec(edge: Edge) | Mark

  type Data = map<Key, Rec>

  /** json.Unmarshal into a Node: an edge's fields are read as far as they are a node's. */
  function AsNode(rec: Rec): Option<Node> {
    match rec
    case NodeRec(n) => Some(n)
    case EdgeRec(e) => Some(Node(e.id, e.kind, []))
    case Mark => None
  }

  function AsEdge(rec: Rec): Option<Edge> {
    match rec
    case NodeRec(n) => Some(Edge(n.id, n.kind, [], []))
    case EdgeRec(e) => Some(e)
    case Mark => None
  }

  function NodeAt(data: Data, id: Key): Option<Node> {
    if NodeKey(id) in data then AsNode(data[NodeKey(id)]) else None
  }

  function EdgeAt(data: Data, id: Key): Option<Edge> {
    if EdgeKey(id) in data then AsEdge(data[EdgeKey(id)]) else None
  }

  // ---- the graph in the store ----

  ghost function Edges(data: Data): set<Edge> {
    set k | k in data && data[k].EdgeRec? && k == EdgeKey(data[k].edge.id) :: data[k].edge
  }

  predicate GoodEdge(e: Edge) { IsEdgeId(e.id) && IsNodeId(e.from) && IsNodeId(e.to) }

  ghost predicate EdgesStored(data: Data) {
    forall id {:trigger EdgeKey(id)} :: EdgeKey(id) in data ==>
      data[EdgeKey(id)].EdgeRec? && data[EdgeKey(id)].edge.id == id && GoodEdge(data[EdgeKey(id)].edge)
  }

  ghost predicate OutsStored(data: Data) {
    forall f, id {:trigger OutKey(f, id)} :: OutKey(f, id) in data <==> Leaves(data, f, id)
  }

  ghost predicate InsStored(data: Data) {
    forall t, id {:trigger InKey(t, id)} :: InKey(t, id) in data <==> Enters(data, t, id)
  }

  ghost predicate NodesStored(data: Data) {
    forall id {:trigger NodeKey(id)} :: IsNodeId(id) && NodeKey(id) in data ==>
      data[NodeKey(id)].NodeRec? && data[NodeKey(id)].node.id == id
  }

  ghost predicate Leaves(data: Data, f: Key, id: Key) {
    EdgeKey(id) in data && data[EdgeKey(id)].EdgeRec? && data[EdgeKey(id)].edge.from == f
  }

  ghost predicate Enters(data: Data, t: Key, id: Key) {
    EdgeKey(id) in data && data[EdgeKey(id)].EdgeRec? && data[EdgeKey(id)].edge.to == t
  }

  /** The index entries are exactly those of the stored edges. */
  ghost predicate Stored(data: Data) {
    EdgesStored(data) && OutsStored(data) && InsStored(data) && NodesStored(data)
  }

  lemma EdgeIsAt(data: Data, e: Edge)
    requires EdgesStored(data)
    ensures e in Edges(data) <==> EdgeKey(e.id) in data && data[EdgeKey(e.id)] == EdgeRec(e)
  {
  }

  lemma EdgesAreGood(data: Data, e: Edge)
    requires EdgesStored(data) && e in Edges(data)
    ensures GoodEdge(e) && EdgeKey(e.id) in data && data[EdgeKey(e.id)] == EdgeRec(e)
  {
    EdgeIsAt(data, e);
  }

  // ---- stores that agree on adjacency ----

  predicate SameAt(a: Data, b: Data, k: Key) {
    (k in a <==> k in b) && (k in a ==> a[k] == b[k])
  }

  ghost predicate SameAdjacency(a: Data, b: Data) {
    && (forall id {:trigger EdgeKey(id)} :: SameAt(a, b, EdgeKey(id)))
    && (forall f, id {:trigger OutKey(f, id)} :: SameAt(a, b, OutKey(f, id)))
    && (forall t, id {:trigger InKey(t, id)} :: SameAt(a, b, InKey(t, id)))
  }

  lemma SameEdges(a: Data, b: Data)
    requires SameAdjacency(a, b) && EdgesStored(a) && OutsStored(a) && InsStored(a)
    ensures EdgesStored(b) && OutsStored(b) && InsStored(b) && Edges(a) == Edges(b)
  {
    forall e ensures e in Edges(a) <==> e in Edges(b) {
      EdgeIsAt(a, e);
      EdgeIsAt(b, e);
    }
  }

  /** Index keys of nodes and of edge types concern neither edges nor adjacency. */
  lemma OtherKeys(t: Key, x: Key, a: Key, id: Key)
    ensures EdgeKey(id) !in {TypeKey(t, x), NameKey(t, x), EdgeTypeKey(t, x)}
    ensures OutKey(a, id) !in {TypeKey(t, x), NameKey(t, x), EdgeTypeKey(t, x)}
    ensures InKey(a, id) !in {TypeKey(t, x), NameKey(t, x), EdgeTypeKey(t, x)}
  {
    Tags(t, x);
    Tags(a, id);
  }

  // ---- nodes ----

  function WithNode(data: Data, n: Node): Data {
    data[NodeKey(n.id) := NodeRec(n)][TypeKey(n.kind, n.id) := Mark][NameKey(n.name, n.id) := Mark]
  }

  function WithoutNode(data: Data, id: Key, n: Node): Data {
    data - {NodeKey(id)} - {TypeKey(n.kind, n.id)} - {NameKey(n.name, n.id)}
  }

  /** The keys a node occupies are no one else's. */
  lemma NodeKeysApart(n: Node, a: Key, id: Key)
    requires IsNodeId(n.id)
    ensures var own := {NodeKey(n.id), TypeKey(n.kind, n.id), NameKey(n.name, n.id)};
            EdgeKey(id) !in own && OutKey(a, id) !in own && InKey(a, id) !in own
    ensures IsNodeId(id) && id != n.id ==> NodeKey(id) !in {NodeKey(n.id), TypeKey(n.kind, n.id), NameKey(n.name, n.id)}
  {
    OtherKeys(n.kind, n.id, a, id);
    OtherKeys(n.name, n.id, a, id);
    NodeKeyIsApart(n.id, a, id);
    NodeKeyTells(id, n.id);
    if IsNodeId(id) {
      NodeKeyIsApart(id, n.kind, n.id);
      NodeKeyIsApart(id, n.name, n.id);
    }
  }

  lemma OthersSame(data: Data, d: Data, n: Node)
    requires IsNodeId(n.id)
    requires forall k | k !in {NodeKey(n.id), TypeKey(n.kind, n.id), NameKey(n.name, n.id)} :: SameAt(data, d, k)
    ensures SameAdjacency(data, d)
    ensures forall id {:trigger NodeKey(id)} | IsNodeId(id) && id != n.id :: SameAt(data, d, NodeKey(id))
  {
    forall id ensures SameAt(data, d, EdgeKey(id)) {
      NodeKeysApart(n, [], id);
    }
    forall f, id ensures SameAt(data, d, OutKey(f, id)) {
      NodeKeysApart(n, f, id);
    }
    forall t, id ensures SameAt(data, d, InKey(t, id)) {
      NodeKeysApart(n, t, id);
    }
    forall id {:trigger NodeKey(id)} | IsNodeId(id) && id != n.id ensures SameAt(data, d, NodeKey(id)) {
      NodeKeysApart(n, [], id);
    }
  }

  lemma AddNodeKeeps(data: Data, n: Node)
    requires Stored(data) && IsNodeId(n.id)
    ensures var d := WithNode(data, n);
            && Stored(d) && Edges(d) == Edges(data) && NodeAt(d, n.id) == Some(n)
            && forall id {:trigger NodeKey(id)} | IsNodeId(id) && id != n.id :: SameAt(data, d, NodeKey(id))
  {
    var d := WithNode(data, n);
    OthersSame(data, d, n);
    NodeKeyIsApart(n.id, n.kind, n.id);
    NodeKeyIsApart(n.id, n.name, n.id);
    SameEdges(data, d);
  }

  lemma DropNodeKeeps(data: Data, n: Node)
    requires Stored(data) && IsNodeId(n.id)
    ensures var d := WithoutNode(data, n.id, n);
            && Stored(d) && Edges(d) == Edges(data) && NodeAt(d, n.id) == None
            && forall id {:trigger NodeKey(id)} | IsNodeId(id) && id != n.id :: SameAt(data, d, NodeKey(id))
  {
    var d := WithoutNode(data, n.id, n);
    OthersSame(data, d, n);
    SameEdges(data, d);
  }

  /** A node whose id starts with "edge:" takes the place of an edge. */
  lemma EdgeNamedNodeBreaks(data: Data, n: Node, x: Key)
    requires n.id == EDGE + x
    ensures !Stored(WithNode(data, n))
  {
    Tags(n.kind, n.id);
    Tags(n.name, n.id);
    Tags(n.kind, x);
    assert NodeKey(n.id) == EdgeKey(x);
  }

  // ---- edges ----

  function WithEdge(data: Data, e: Edge): Data {
    data[EdgeKey(e.id) := EdgeRec(e)][OutKey(e.from, e.id) := Mark][InKey(e.to, e.id) := Mark][EdgeTypeKey(e.kind, e.id) := Mark]
  }

  function WithoutEdge(data: Data, id: Key, e: Edge): Data {
    data - {EdgeKey(id)} - {OutKey(e.from, e.id)} - {InKey(e.to, e.id)} - {EdgeTypeKey(e.kind, e.id)}
  }

  /** Which keys of each kind an edge occupies. */
  lemma EdgeKeysOnly(e: Edge, a: Key, id: Key)
    requires GoodEdge(e)
    ensures var own := {EdgeKey(e.id), OutKey(e.from, e.id), InKey(e.to, e.id), EdgeTypeKey(e.kind, e.id)};
            && (EdgeKey(id) in own <==> id == e.id)
            && (OutKey(a, id) in own <==> a == e.from && id == e.id)
            && (InKey(a, id) in own <==> a == e.to && id == e.id)
            && (IsNodeId(a) ==> NodeKey(a) !in own)
            && OutKey(a, id) != EdgeKey(e.id) && InKey(a, id) != EdgeKey(e.id)
  {
    Tags(a, id);
    Tags(e.from, e.id);
    Tags(e.to, e.id);
    Tags(e.kind, e.id);
    EdgeKeyTells(id, e.id);
    if OutKey(a, id) == OutKey(e.from, e.id) {
      OutKeyTells(a, id, e.from, e.id);
    }
    if InKey(a, id) == InKey(e.to, e.id) {
      InKeyTells(a, id, e.to, e.id);
    }
    if IsNodeId(a) {
      NodeKeyIsApart(a, e.from, e.id);
      NodeKeyIsApart(a, e.to, e.id);
      NodeKeyIsApart(a, e.kind, e.id);
    }
  }

  /** WithEdge and WithoutEdge change nothing but the edge's own keys. */
  lemma EdgeKeysSame(data: Data, d: Data, e: Edge)
    requires GoodEdge(e)
    requires forall k | k !in {EdgeKey(e.id), OutKey(e.from, e.id), InKey(e.to, e.id), EdgeTypeKey(e.kind, e.id)} :: SameAt(data, d, k)
    ensures forall id {:trigger EdgeKey(id)} | id != e.id :: SameAt(data, d, EdgeKey(id))
    ensures forall f, id {:trigger OutKey(f, id)} | !(f == e.from && id == e.id) :: SameAt(data, d, OutKey(f, id))
    ensures forall t, id {:trigger InKey(t, id)} | !(t == e.to && id == e.id) :: SameAt(data, d, InKey(t, id))
    ensures forall id {:trigger NodeKey(id)} | IsNodeId(id) :: SameAt(data, d, NodeKey(id))
  {
    forall id {:trigger EdgeKey(id)} | id != e.id ensures SameAt(data, d, EdgeKey(id)) {
      EdgeKeysOnly(e, [], id);
    }
    forall f, id {:trigger OutKey(f, id)} | !(f == e.from && id == e.id) ensures SameAt(data, d, OutKey(f, id)) {
      EdgeKeysOnly(e, f, id);
    }
    forall t, id {:trigger InKey(t, id)} | !(t == e.to && id == e.id) ensures SameAt(data, d, InKey(t, id)) {
      EdgeKeysOnly(e, t, id);
    }
    forall id {:trigger NodeKey(id)} | IsNodeId(id) ensures SameAt(data, d, NodeKey(id)) {
      EdgeKeysOnly(e, id, []);
    }
  }

  lemma OwnEdgeKeys(data: Data, e: Edge)
    requires GoodEdge(e)
    ensures var d := WithEdge(data, e);
            EdgeKey(e.id) in d && d[EdgeKey(e.id)] == EdgeRec(e) && OutKey(e.from, e.id) in d && InKey(e.to, e.id) in d
    ensures var d := WithoutEdge(data, e.id, e);
            EdgeKey(e.id) !in d && OutKey(e.from, e.id) !in d && InKey(e.to, e.id) !in d
  {
    EdgeKeysOnly(e, e.from, e.id);
    EdgeKeysOnly(e, e.to, e.id);
    OtherKeys(e.kind, e.id, e.from, e.id);
  }

  lemma AddEdgeKeeps(data: Data, e: Edge)
    requires Stored(data) && GoodEdge(e) && (EdgeKey(e.id) in data ==> SameEnds(data, e))
    ensures var d := WithEdge(data, e);
            && Stored(d) && forall id {:trigger NodeKey(id)} | IsNodeId(id) :: SameAt(data, d, NodeKey(id))
  {
    var d := WithEdge(data, e);
    EdgeKeysSame(data, d, e);
    OwnEdgeKeys(data, e);
    assert EdgesStored(d);
    assert NodesStored(d);
    forall f, id {:trigger OutKey(f, id)} ensures OutKey(f, id) in d <==> Leaves(d, f, id) {
      assert id != e.id ==> SameAt(data, d, EdgeKey(id));
      assert OutKey(f, id) in data <==> Leaves(data, f, id);
    }
    forall t, id {:trigger InKey(t, id)} ensures InKey(t, id) in d <==> Enters(d, t, id) {
      assert id != e.id ==> SameAt(data, d, EdgeKey(id));
      assert InKey(t, id) in data <==> Enters(data, t, id);
    }
  }

  /** The edge stored under this id joins the same nodes. */
  ghost predicate SameEnds(data: Data, e: Edge) {
    Leaves(data, e.from, e.id) && Enters(data, e.to, e.id)
  }

  /** AddEdge keeps the index in step exactly when the id is new or its edge keeps its ends. */
  lemma AddEdgeKeepsIff(data: Data, e: Edge)
    requires Stored(data) && GoodEdge(e)
    ensures Stored(WithEdge(data, e)) <==> (EdgeKey(e.id) in data ==> SameEnds(data, e))
  {
    if EdgeKey(e.id) in data && !SameEnds(data, e) {
      StaleEntry(data, e);
    } else {
      AddEdgeKeeps(data, e);
    }
  }

  lemma StaleEntry(data: Data, e: Edge)
    requires Stored(data) && GoodEdge(e) && EdgeKey(e.id) in data && !SameEnds(data, e)
    ensures !Stored(WithEdge(data, e))
  {
    var d := WithEdge(data, e);
    var was := data[EdgeKey(e.id)].edge;
    EdgeKeysSame(data, d, e);
    OwnEdgeKeys(data, e);
    if was.from != e.from {
      assert OutKey(was.from, e.id) in data <==> Leaves(data, was.from, e.id);
      assert SameAt(data, d, OutKey(was.from, e.id));
      assert !Leaves(d, was.from, e.id);
    } else {
      assert InKey(was.to, e.id) in data <==> Enters(data, was.to, e.id);
      assert SameAt(data, d, InKey(was.to, e.id));
      assert !Enters(d, was.to, e.id);
    }
  }

  lemma AddEdgeAdds(data: Data, e: Edge)
    requires Stored(data) && GoodEdge(e) && EdgeKey(e.id) !in data
    ensures Edges(WithEdge(data, e)) == Edges(data) + {e} && e !in Edges(data)
  {
    var d := WithEdge(data, e);
    AddEdgeKeeps(data, e);
    EdgeKeysSame(data, d, e);
    OwnEdgeKeys(data, e);
    forall x ensures x in Edges(d) <==> x in Edges(data) || x == e {
      EdgeIsAt(data, x);
      EdgeIsAt(d, x);
      assert x.id != e.id ==> SameAt(data, d, EdgeKey(x.id));
    }
    EdgeIsAt(data, e);
  }

  lemma DropEdgeKeeps(data: Data, e: Edge)
    requires Stored(data) && e in Edges(data)
    ensures var d := WithoutEdge(data, e.id, e);
            && Stored(d) && Edges(d) == Edges(data) - {e} && EdgeKey(e.id) !in d
            && forall id {:trigger NodeKey(id)} | IsNodeId(id) :: SameAt(data, d, NodeKey(id))
  {
    var d := WithoutEdge(data, e.id, e);
    EdgesAreGood(data, e);
    EdgeKeysSame(data, d, e);
    OwnEdgeKeys(data, e);
    assert EdgesStored(d);
    assert NodesStored(d);
    forall f, id {:trigger OutKey(f, id)} ensures OutKey(f, id) in d <==> Leaves(d, f, id) {
      assert id != e.id ==> SameAt(data, d, EdgeKey(id));
      assert OutKey(f, id) in data <==> Leaves(data, f, id);
    }
    forall t, id {:trigger InKey(t, id)} ensures InKey(t, id) in d <==> Enters(d, t, id) {
      assert id != e.id ==> SameAt(data, d, EdgeKey(id));
      assert InKey(t, id) in data <==> Enters(data, t, id);
    }
    forall x ensures x in Edges(d) <==> x in Edges(data) && x != e {
      EdgeIsAt(data, x);
      EdgeIsAt(d, x);
      assert x.id != e.id ==> SameAt(data, d, EdgeKey(x.id));
    }
  }

  lemma EmptyIsStored()
    ensures Stored(map[]) && Edges(map[]) == {}
  {
  }
}
