/** The graph store (internal/graph/store.go). */
module GraphStore {
  import opened Bytes
  import opened KeyEncode
  import opened Engine
  import opened GraphKeys
  import opened Adjacency
  import opened GraphIndex
  import opened GraphPaths

  /** The edges GetEdges returns: those that leave, then those that enter. */
  ghost function Incident(data: Data, id: Key): seq<Edge> { Found(data, OUT + id) + Found(data, IN + id) }

  lemma IncidentTouch(data: Data, id: Key)
    requires Stored(data)
    ensures forall e :: e in Incident(data, id) <==> e in Edges(data) && (e.from == id || e.to == id)
  {
    OutFound(data, id);
    InFound(data, id);
    forall e ensures e in Incident(data, id) <==> e in Edges(data) && (e.from == id || e.to == id) {
      assert e in Incident(data, id) <==> e in Found(data, OUT + id) || e in Found(data, IN + id);
    }
  }

  /** The first edges have been followed: their other ends are visited. */
  ghost predicate Followed(es: seq<Edge>, n: nat, id: Key, dir: Direction, visited: set<Key>)
    requires n <= |es|
  {
    forall i | 0 <= i < n :: Neighbour(es[i], id, dir).Some? ==> Neighbour(es[i], id, dir).value in visited
  }

  /** After all incident edges, every step from the node leads to a visited one. */
  lemma AllFollowed(data: Data, id: Key, dir: Direction, visited: set<Key>)
    requires Stored(data) && Followed(Incident(data, id), |Incident(data, id)|, id, dir, visited)
    ensures forall w | Step(Edges(data), dir, id, w) :: w in visited
  {
    IncidentTouch(data, id);
    var es := Incident(data, id);
    forall w | Step(Edges(data), dir, id, w) ensures w in visited {
      var e :| e in Edges(data) && Joins(e, dir, id, w);
      JoinsTouches(e, dir, id, w);
      NeighbourJoins(e, dir, id, w);
      var i :| 0 <= i < |es| && es[i] == e;
    }
  }

  lemma FollowsStep(data: Data, id: Key, dir: Direction, e: Edge)
    requires Stored(data) && e in Incident(data, id) && Neighbour(e, id, dir).Some?
    ensures Step(Edges(data), dir, id, Neighbour(e, id, dir).value) && IsNodeId(Neighbour(e, id, dir).value)
  {
    IncidentTouch(data, id);
    NeighbourJoins(e, dir, id, Neighbour(e, id, dir).value);
    EdgesAreGood(data, e);
  }

  /** The edges that do not touch a node. */
  ghost function Apart(edges: set<Edge>, id: Key): set<Edge> {
    set e | e in edges && e.from != id && e.to != id
  }

  function EdgeDropped(data: Data, id: Key): Data {
    match EdgeAt(data, id)
    case Some(e) => WithoutEdge(data, id, e)
    case None => data
  }

  function EdgesDropped(data: Data, es: seq<Edge>): Data {
    if es == [] then data else EdgeDropped(EdgesDropped(data, es[..|es| - 1]), es[|es| - 1].id)
  }

  /** DeleteNode: the edges at the node one by one, then the node. */
  ghost function NodeDropped(data: Data, id: Key): Data {
    match NodeAt(data, id)
    case Some(n) => WithoutNode(EdgesDropped(data, Incident(data, id)), id, n)
    case None => data
  }

  lemma DropIdKeeps(data: Data, id: Key)
    requires Stored(data)
    ensures var d := EdgeDropped(data, id);
            && Stored(d) && Edges(d) == (set e | e in Edges(data) && e.id != id)
            && forall n {:trigger NodeKey(n)} | IsNodeId(n) :: SameAt(data, d, NodeKey(n))
  {
    if EdgeKey(id) in data {
      var x := data[EdgeKey(id)].edge;
      EdgeIsAt(data, x);
      DropEdgeKeeps(data, x);
      forall e | e in Edges(data) ensures e.id == id <==> e == x {
        EdgeIsAt(data, e);
      }
    } else {
      forall e | e in Edges(data) ensures e.id != id {
        EdgesAreGood(data, e);
      }
    }
  }

  lemma {:induction false} DropEachKeeps(data: Data, es: seq<Edge>)
    requires Stored(data) && forall e | e in es :: e in Edges(data)
    ensures var d := EdgesDropped(data, es);
            && Stored(d) && Edges(d) == (set e | e in Edges(data) && e !in es)
            && forall n {:trigger NodeKey(n)} | IsNodeId(n) :: SameAt(data, d, NodeKey(n))
  {
    if es != [] {
      var front, last := es[..|es| - 1], es[|es| - 1];
      assert es == front + [last];
      DropEachKeeps(data, front);
      DropIdKeeps(EdgesDropped(data, front), last.id);
      forall e | e in Edges(data) ensures e.id == last.id <==> e == last {
        EdgeIsAt(data, e);
        EdgeIsAt(data, last);
      }
    }
  }

  /** DeleteNode takes away the node and every edge that touches it, and nothing else. */
  lemma DropNodeDrops(data: Data, id: Key)
    requires Stored(data) && IsNodeId(id)
    ensures var d := NodeDropped(data, id);
            && Stored(d) && NodeAt(d, id) == None
            && Edges(d) == (if NodeAt(data, id).Some? then Apart(Edges(data), id) else Edges(data))
            && forall n {:trigger NodeKey(n)} | IsNodeId(n) && n != id :: SameAt(data, d, NodeKey(n))
  {
    if NodeKey(id) in data {
      var es := Incident(data, id);
      IncidentTouch(data, id);
      DropEachKeeps(data, es);
      var bare, n := EdgesDropped(data, es), data[NodeKey(id)].node;
      DropNodeKeeps(bare, n);
      assert Edges(bare) == Apart(Edges(data), id);
      forall m {:trigger NodeKey(m)} | IsNodeId(m) && m != id ensures SameAt(data, NodeDropped(data, id), NodeKey(m)) {
        assert SameAt(data, bare, NodeKey(m));
      }
    }
  }

  // ---- every history ----

  datatype Call = CallAddNode(node: Node) | CallAddEdge(edge: Edge) | CallDeleteEdge(id: Key) | CallDeleteNode(id: Key)

  ghost function Done(data: Data, call: Call): Data {
    match call
    case CallAddNode(n) => if n.id == [] then data else WithNode(data, n)
    case CallAddEdge(e) => if e.id == [] || e.from == [] || e.to == [] then data else WithEdge(data, e)
    case CallDeleteEdge(id) => EdgeDropped(data, id)
    case CallDeleteNode(id) => NodeDropped(data, id)
  }

  ghost function Ran(calls: seq<Call>): Data {
    if calls == [] then map[] else Done(Ran(calls[..|calls| - 1]), calls[|calls| - 1])
  }

  /** Ids without zeros, node ids apart from edges, and edge ids that are new or keep their ends. */
  ghost predicate Proper(data: Data, call: Call) {
    match call
    case CallAddNode(n) => n.id == [] || IsNodeId(n.id)
    case CallAddEdge(e) => GoodEdge(e) && (EdgeKey(e.id) in data ==> SameEnds(data, e))
    case CallDeleteEdge(_) => true
    case CallDeleteNode(id) => IsNodeId(id)
  }

  ghost predicate AllProper(calls: seq<Call>) {
    forall i | 0 <= i < |calls| :: Proper(Ran(calls[..i]), calls[i])
  }

  lemma {:induction false} AlwaysStored(calls: seq<Call>)
    requires AllProper(calls)
    ensures Stored(Ran(calls))
  {
    if calls == [] {
      EmptyIsStored();
    } else {
      var front, last := calls[..|calls| - 1], calls[|calls| - 1];
      forall i | 0 <= i < |front| ensures Proper(Ran(front[..i]), front[i]) {
        assert front[..i] == calls[..i];
      }
      AlwaysStored(front);
      var data := Ran(front);
      assert Proper(data, last);
      match last
      case CallAddNode(n) =>
        if n.id != [] {
          AddNodeKeeps(data, n);
        }
      case CallAddEdge(e) => AddEdgeKeeps(data, e);
      case CallDeleteEdge(id) => DropIdKeeps(data, id);
      case CallDeleteNode(id) => DropNodeDrops(data, id);
    }
  }

  ghost function Ends(edges: set<Edge>): set<Key> { (set e | e in edges :: e.from) + (set e | e in edges :: e.to) }

  lemma StepEnds(edges: set<Edge>, dir: Direction, a: Key, b: Key)
    requires Step(edges, dir, a, b)
    ensures b in Ends(edges)
  {
    var e :| e in edges && Joins(e, dir, a, b);
    JoinsTouches(e, dir, a, b);
  }

  lemma ParentIsNamed(data: Data, dir: Direction, from: Key, parent: map<Key, Key>, depth: map<Key, nat>, v: Key)
    requires Stored(data) && Tree(Edges(data), dir, from, parent, depth)
    ensures v in parent ==> parent[v] != []
  {
    if v in parent {
      var e :| e in Edges(data) && Joins(e, dir, parent[v], v);
      JoinsTouches(e, dir, parent[v], v);
      EdgesAreGood(data, e);
    }
  }

  /** The state of the loop over the edges at the current node, after n of them. */
  ghost predicate Following(data: Data, dir: Direction, from: Key, to: Key, current: Key, d: nat, visited0: set<Key>, queue0: seq<Key>,
                            n: nat, visited: set<Key>, parent: map<Key, Key>, queue: seq<Key>, depth: map<Key, nat>) {
    && visited == depth.Keys && current in depth && depth[current] == d
    && Searching(Edges(data), dir, from, to, parent, depth, queue, Elements(queue) + {current}, d)
    && n <= |Incident(data, current)| && Followed(Incident(data, current), n, current, dir, visited)
    && visited0 <= visited <= visited0 + Ends(Edges(data)) && (visited == visited0 ==> queue == queue0)
  }

  lemma FollowSkips(data: Data, dir: Direction, from: Key, to: Key, current: Key, d: nat, visited0: set<Key>, queue0: seq<Key>,
                    n: nat, visited: set<Key>, parent: map<Key, Key>, queue: seq<Key>, depth: map<Key, nat>)
    requires Following(data, dir, from, to, current, d, visited0, queue0, n, visited, parent, queue, depth)
    requires n < |Incident(data, current)|
    requires var w := Neighbour(Incident(data, current)[n], current, dir); w.None? || w.value in visited
    ensures Following(data, dir, from, to, current, d, visited0, queue0, n + 1, visited, parent, queue, depth)
  {
  }

  lemma FollowFinds(data: Data, dir: Direction, from: Key, to: Key, current: Key, d: nat, visited0: set<Key>, queue0: seq<Key>,
                    n: nat, visited: set<Key>, parent: map<Key, Key>, queue: seq<Key>, depth: map<Key, nat>)
    requires Stored(data) && Following(data, dir, from, to, current, d, visited0, queue0, n, visited, parent, queue, depth)
    requires n < |Incident(data, current)|
    requires var w := Neighbour(Incident(data, current)[n], current, dir); w.Some? && w.value !in visited
    ensures var w := Neighbour(Incident(data, current)[n], current, dir).value;
            if w == to then
              && Tree(Edges(data), dir, from, parent[w := current], depth[w := d + 1])
              && forall q | IsPath(Edges(data), dir, q, from, to) :: d + 2 <= |q|
            else Following(data, dir, from, to, current, d, visited0, queue0, n + 1, visited + {w}, parent[w := current], queue + [w],
                           depth[w := d + 1])
  {
    var es, open := Incident(data, current), Elements(queue) + {current};
    var w := Neighbour(es[n], current, dir).value;
    assert es[n] in es;
    FollowsStep(data, current, dir, es[n]);
    StepEnds(Edges(data), dir, current, w);
    Discovered(Edges(data), dir, from, to, parent, depth, queue, open, d, current, w);
    Reached(Edges(data), dir, from, to, parent, depth, queue, open, d);
    assert Elements(queue + [w]) + {current} == open + {w};
  }

  /** Every pass of the search visits a new end of an edge or none. */
  lemma Shrinks(ends: set<Key>, from: Key, before: set<Key>, visited: set<Key>)
    requires before <= visited <= before + ends
    ensures visited == before || ends + {from} - visited < ends + {from} - before
  {
    if visited != before {
      var v :| v in visited && v !in before;
      assert v in ends + {from} - before;
    }
  }

  // ---- levels ----

  ghost predicate Distinct(s: seq<Key>) { forall i, j | 0 <= i < j < |s| :: s[i] != s[j] }

  /** next lists, each once, what steps from these nodes reach outside what was visited before. */
  ghost predicate Spread(edges: set<Edge>, dir: Direction, nodes: set<Key>, visited0: set<Key>, visited: set<Key>, next: seq<Key>) {
    && visited == visited0 + Elements(next) && Distinct(next)
    && (forall v | v in next :: v !in visited0 && exists u :: u in nodes && Step(edges, dir, u, v))
    && (forall u, w | u in nodes && Step(edges, dir, u, w) :: w in visited)
  }

  /** The same in the middle of the edges of one more node. */
  ghost predicate Spreading(data: Data, dir: Direction, nodes: set<Key>, visited0: set<Key>, id: Key, n: nat,
                            visited: set<Key>, next: seq<Key>) {
    && visited == visited0 + Elements(next) && Distinct(next)
    && (forall v | v in next :: v !in visited0 && exists u :: u in nodes + {id} && Step(Edges(data), dir, u, v))
    && (forall u, w | u in nodes && Step(Edges(data), dir, u, w) :: w in visited)
    && n <= |Incident(data, id)| && Followed(Incident(data, id), n, id, dir, visited)
  }

  lemma SpreadFinds(data: Data, dir: Direction, nodes: set<Key>, visited0: set<Key>, id: Key, n: nat,
                    visited: set<Key>, next: seq<Key>)
    requires Stored(data) && Spreading(data, dir, nodes, visited0, id, n, visited, next) && n < |Incident(data, id)|
    ensures var w := Neighbour(Incident(data, id)[n], id, dir);
            if w.None? || w.value in visited then Spreading(data, dir, nodes, visited0, id, n + 1, visited, next)
            else Spreading(data, dir, nodes, visited0, id, n + 1, visited + {w.value}, next + [w.value])
  {
    var es := Incident(data, id);
    var w := Neighbour(es[n], id, dir);
    if w.Some? && w.value !in visited {
      assert es[n] in es;
      FollowsStep(data, id, dir, es[n]);
      SpreadAdds(data, dir, nodes, visited0, id, n, visited, next, w.value);
    }
  }

  lemma SpreadAdds(data: Data, dir: Direction, nodes: set<Key>, visited0: set<Key>, id: Key, n: nat,
                   visited: set<Key>, next: seq<Key>, w: Key)
    requires Spreading(data, dir, nodes, visited0, id, n, visited, next) && n < |Incident(data, id)|
    requires Neighbour(Incident(data, id)[n], id, dir) == Some(w) && w !in visited && Step(Edges(data), dir, id, w)
    ensures Spreading(data, dir, nodes, visited0, id, n + 1, visited + {w}, next + [w])
  {
    assert forall v | v in next + [w] :: v in next || v == w;
    assert Elements(next + [w]) == Elements(next) + {w};
  }

  lemma SpreadDone(data: Data, dir: Direction, nodes: set<Key>, visited0: set<Key>, id: Key, visited: set<Key>, next: seq<Key>)
    requires Stored(data) && Spreading(data, dir, nodes, visited0, id, |Incident(data, id)|, visited, next)
    ensures Spread(Edges(data), dir, nodes + {id}, visited0, visited, next)
  {
    AllFollowed(data, id, dir, visited);
  }

  lemma LevelSpreads(edges: set<Edge>, dir: Direction, from: Key, visited0: set<Key>, level: seq<Key>, n: nat,
                     visited: set<Key>, next: seq<Key>)
    requires Levels(edges, dir, from, visited0, Elements(level), n)
    requires Spread(edges, dir, Elements(level), visited0, visited, next)
    ensures Levels(edges, dir, from, visited, Elements(next), n + 1)
  {
    NextLevel(edges, dir, from, visited0, Elements(level), n, Elements(next));
  }

  /** Some steps away there are only ends of edges. */
  lemma FarIsNamed(data: Data, dir: Direction, from: Key, v: Key, k: nat)
    requires Stored(data) && k > 0 && AtDistance(Edges(data), dir, from, v, k)
    ensures IsNodeId(v)
  {
    var u :| Within(Edges(data), dir, from, u, k - 1) && Step(Edges(data), dir, u, v);
    var e :| e in Edges(data) && Joins(e, dir, u, v);
    JoinsTouches(e, dir, u, v);
    EdgesAreGood(data, e);
  }

  /** The stored nodes among these ids, each once, by rising ids. */
  ghost predicate ListsNodes(data: Data, nodes: seq<Node>, ids: iset<Key>) {
    && (forall n :: n in nodes <==> n.id in ids && NodeAt(data, n.id) == Some(n))
    && (forall i, j | 0 <= i < j < |nodes| :: Less(nodes[i].id, nodes[j].id))
  }

  /** Of the first n edges: the ids at their other ends, and the nodes stored under them. */
  ghost predicate Gathered(data: Data, es: seq<Edge>, id: Key, dir: Direction, n: nat, seen: set<Key>, nodes: seq<Node>) {
    && n <= |es| && es == Incident(data, id)
    && (forall w :: w in seen <==> exists k :: 0 <= k < n && Neighbour(es[k], id, dir) == Some(w))
    && (forall x :: x in nodes <==> x.id in seen && NodeAt(data, x.id) == Some(x))
    && (forall i, j | 0 <= i < j < |nodes| :: nodes[i].id != nodes[j].id)
  }

  lemma GatheredMore(data: Data, id: Key, dir: Direction, n: nat, seen: set<Key>, nodes: seq<Node>)
    requires Stored(data) && Gathered(data, Incident(data, id), id, dir, n, seen, nodes) && n < |Incident(data, id)|
    ensures var es := Incident(data, id);
            var w := Neighbour(es[n], id, dir);
            if w.None? || w.value in seen then Gathered(data, es, id, dir, n + 1, seen, nodes)
            else
              var node := NodeAt(data, w.value);
              Gathered(data, es, id, dir, n + 1, seen + {w.value}, if node.Some? then nodes + [node.value] else nodes)
  {
    var es := Incident(data, id);
    var w := Neighbour(es[n], id, dir);
    if w.Some? {
      assert es[n] in es;
      FollowsStep(data, id, dir, es[n]);
      if w.value !in seen {
        GatheredNew(data, es, id, dir, n, seen, nodes, w.value);
      }
    }
  }

  lemma GatheredNew(data: Data, es: seq<Edge>, id: Key, dir: Direction, n: nat, seen: set<Key>, nodes: seq<Node>, w: Key)
    requires Gathered(data, es, id, dir, n, seen, nodes) && n < |es| && Neighbour(es[n], id, dir) == Some(w) && w !in seen
    requires NodesStored(data) && IsNodeId(w)
    ensures var node := NodeAt(data, w);
            Gathered(data, es, id, dir, n + 1, seen + {w}, if node.Some? then nodes + [node.value] else nodes)
  {
    assert NodeAt(data, w).Some? ==> NodeAt(data, w).value.id == w;
    var more := if NodeAt(data, w).Some? then nodes + [NodeAt(data, w).value] else nodes;
    forall x ensures x in more <==> x.id in seen + {w} && NodeAt(data, x.id) == Some(x) {
      assert x in more <==> x in nodes || NodeAt(data, w) == Some(x);
    }
    forall i | 0 <= i < |nodes| ensures nodes[i].id != w {
      assert nodes[i] in nodes;
    }
  }

  lemma AllGathered(data: Data, id: Key, dir: Direction, seen: set<Key>, nodes: seq<Node>)
    requires Stored(data) && Gathered(data, Incident(data, id), id, dir, |Incident(data, id)|, seen, nodes)
    ensures forall w :: w in seen <==> Step(Edges(data), dir, id, w)
  {
    var es := Incident(data, id);
    forall i | 0 <= i < |es| && Neighbour(es[i], id, dir).Some? ensures Neighbour(es[i], id, dir).value in seen {
      assert Neighbour(es[i], id, dir) == Some(Neighbour(es[i], id, dir).value);
    }
    AllFollowed(data, id, dir, seen);
    forall w | w in seen ensures Step(Edges(data), dir, id, w) {
      var k :| 0 <= k < |es| && Neighbour(es[k], id, dir) == Some(w);
      assert es[k] in es;
      FollowsStep(data, id, dir, es[k]);
    }
  }

  class Graph {
    const engine: Store<Rec>

    constructor (engine: Store<Rec>)
      ensures this.engine == engine
    {
      this.engine := engine;
    }

    // ---- nodes and edges ----

    method AddNode(node: Node) returns (ok: bool)
      modifies engine
      ensures ok <==> node.id != []
      ensures engine.data == if ok then WithNode(old(engine.data), node) else old(engine.data)
    {
      if node.id == [] {
        return false;
      }
      engine.Set(NodeKey(node.id), NodeRec(node));
      engine.Set(TypeKey(node.kind, node.id), Mark);
      engine.Set(NameKey(node.name, node.id), Mark);
      ok := true;
    }

    method GetNode(id: Key) returns (node: Option<Node>)
      ensures node == NodeAt(engine.data, id)
    {
      var rec := engine.Get(NodeKey(id));
      node := if rec.Some? then AsNode(rec.value) else None;
    }

    method AddEdge(edge: Edge) returns (ok: bool)
      modifies engine
      ensures ok <==> edge.id != [] && edge.from != [] && edge.to != []
      ensures engine.data == if ok then WithEdge(old(engine.data), edge) else old(engine.data)
    {
      if edge.id == [] {
        return false;
      }
      if edge.from == [] || edge.to == [] {
        return false;
      }
      engine.Set(EdgeKey(edge.id), EdgeRec(edge));
      engine.Set(OutKey(edge.from, edge.id), Mark);
      engine.Set(InKey(edge.to, edge.id), Mark);
      engine.Set(EdgeTypeKey(edge.kind, edge.id), Mark);
      ok := true;
    }

    method GetEdge(id: Key) returns (edge: Option<Edge>)
      ensures edge == EdgeAt(engine.data, id)
    {
      var rec := engine.Get(EdgeKey(id));
      edge := if rec.Some? then AsEdge(rec.value) else None;
    }

    method DeleteEdge(id: Key) returns (ok: bool)
      modifies engine
      ensures ok <==> old(EdgeAt(engine.data, id)).Some?
      ensures engine.data == EdgeDropped(old(engine.data), id)
    {
      var found := GetEdge(id);
      if found.None? {
        return false;
      }
      var edge := found.value;
      engine.Remove(EdgeKey(id));
      engine.Remove(OutKey(edge.from, edge.id));
      engine.Remove(InKey(edge.to, edge.id));
      engine.Remove(EdgeTypeKey(edge.kind, edge.id));
      ok := true;
    }

    method DeleteNode(id: Key) returns (ok: bool)
      modifies engine
      ensures ok <==> old(NodeAt(engine.data, id)).Some?
      ensures engine.data == NodeDropped(old(engine.data), id)
    {
      var found := GetNode(id);
      if found.None? {
        return false;
      }
      var node := found.value;
      DeleteEdgesAt(id);
      engine.Remove(NodeKey(id));
      engine.Remove(TypeKey(node.kind, node.id));
      engine.Remove(NameKey(node.name, node.id));
      ok := true;
    }

    method DeleteEdgesAt(id: Key)
      modifies engine
      ensures engine.data == EdgesDropped(old(engine.data), Incident(old(engine.data), id))
    {
      var edges := GetEdges(id);
      for i := 0 to |edges|
        invariant engine.data == EdgesDropped(old(engine.data), edges[..i])
      {
        assert edges[..i + 1][..i] == edges[..i];
        var ok := DeleteEdge(edges[i].id);
      }
      assert edges[..|edges|] == edges;
    }

    /** The edges found through one index field. */
    method EdgesByIndex(field: Key) returns (edges: seq<Edge>)
      ensures edges == Found(engine.data, field)
    {
      var keys := engine.PrefixScan(IndexPrefix(field));
      edges := [];
      for i := 0 to |keys|
        invariant edges == Collected(engine.data, keys[..i])
      {
        assert keys[..i + 1][..i] == keys[..i];
        var id := DecodeIndexID(keys[i]);
        var edge := GetEdge(id);
        if edge.Some? {
          edges := edges + [edge.value];
        }
      }
      assert keys[..|keys|] == keys;
    }

    method GetEdges(id: Key) returns (edges: seq<Edge>)
      ensures edges == Incident(engine.data, id)
    {
      var outs := EdgesByIndex(OUT + id);
      var ins := EdgesByIndex(IN + id);
      edges := outs + ins;
    }

    // ---- finding by type and name ----

    /** The nodes found through one index field; a limit of 0 is none. */
    method NodesByIndex(field: Key, limit: int) returns (nodes: seq<Node>)
      ensures nodes == FoundNodes(engine.data, field, limit)
    {
      var scanned := engine.PrefixScan(IndexPrefix(field));
      var keys := FirstOf(scanned, limit);
      nodes := [];
      for i := 0 to |keys|
        invariant nodes == CollectedNodes(engine.data, keys[..i])
      {
        assert keys[..i + 1][..i] == keys[..i];
        var id := DecodeIndexID(keys[i]);
        var node := GetNode(id);
        if node.Some? {
          nodes := nodes + [node.value];
        }
      }
      assert keys[..|keys|] == keys;
    }

    method FindNodesByType(kind: Key, limit: int) returns (nodes: seq<Node>)
      ensures nodes == FoundNodes(engine.data, TYPE + kind, limit)
    {
      nodes := NodesByIndex(TYPE + kind, limit);
    }

    method FindNodesByName(name: Key, limit: int) returns (nodes: seq<Node>)
      ensures nodes == FoundNodes(engine.data, NAME + name, limit)
    {
      nodes := NodesByIndex(NAME + name, limit);
    }

    /** The limit is not looked at. */
    method FindEdgesByType(kind: Key, limit: int) returns (edges: seq<Edge>)
      ensures edges == Found(engine.data, EDGE_TYPE + kind)
    {
      edges := EdgesByIndex(EDGE_TYPE + kind);
    }

    /** The stored nodes one step away, each once. */
    method GetNeighbors(id: Key, dir: Direction) returns (nodes: seq<Node>)
      requires Stored(engine.data)
      ensures forall n :: n in nodes <==> Step(Edges(engine.data), dir, id, n.id) && NodeAt(engine.data, n.id) == Some(n)
      ensures forall i, j | 0 <= i < j < |nodes| :: nodes[i].id != nodes[j].id
    {
      var es := GetEdges(id);
      var seen: set<Key> := {};
      nodes := [];
      for i := 0 to |es|
        invariant Gathered(engine.data, es, id, dir, i, seen, nodes)
      {
        GatheredMore(engine.data, id, dir, i, seen, nodes);
        var neighbour := Neighbour(es[i], id, dir);
        if neighbour.None? || neighbour.value in seen {
          continue;
        }
        seen := seen + {neighbour.value};
        var node := GetNode(neighbour.value);
        if node.Some? {
          nodes := nodes + [node.value];
        }
      }
      AllGathered(engine.data, id, dir, seen, nodes);
    }

    // ---- shortest paths ----

    /** A shortest path in the direction, or None exactly when there is no path. */
    method ShortestPath(from: Key, to: Key, dir: Direction) returns (path: Option<seq<Key>>)
      requires Stored(engine.data)
      ensures path.Some? ==> IsShortest(Edges(engine.data), dir, path.value, from, to)
      ensures path.None? ==> forall q :: !IsPath(Edges(engine.data), dir, q, from, to)
    {
      if from == to {
        return Some([from]);
      }
      ghost var edges, depth, d := Edges(engine.data), map[from := 0], 0;
      var visited, parent, queue := {from}, map[], [from];
      Started(edges, dir, from, to);
      assert Elements(queue) == {from};
      while queue != []
        invariant Searching(edges, dir, from, to, parent, depth, queue, Elements(queue), d) && visited == depth.Keys
        decreases Ends(edges) + {from} - visited, |queue|
      {
        var current := queue[0];
        HeadTaken(edges, dir, from, to, parent, depth, queue, d);
        queue := queue[1..];
        d := depth[current];
        ghost var before := visited;
        var found;
        found, visited, parent, queue, depth := Follow(current, from, to, dir, visited, parent, queue, depth);
        if found {
          path := Backtrack(from, to, dir, parent, depth);
          return;
        }
        Shrinks(Ends(edges), from, before, visited);
        AllFollowed(engine.data, current, dir, visited);
        Finished(edges, dir, from, to, parent, depth, queue, d, current);
      }
      Exhausted(edges, dir, from, to, parent, depth, d);
      path := None;
    }

    /** The loop over the edges at the current node. */
    method Follow(current: Key, ghost from: Key, to: Key, dir: Direction, visited0: set<Key>, parent0: map<Key, Key>, queue0: seq<Key>,
                  ghost depth0: map<Key, nat>)
      returns (found: bool, visited: set<Key>, parent: map<Key, Key>, queue: seq<Key>, ghost depth: map<Key, nat>)
      requires Stored(engine.data) && current in depth0 && visited0 == depth0.Keys
      requires Searching(Edges(engine.data), dir, from, to, parent0, depth0, queue0, Elements(queue0) + {current}, depth0[current])
      ensures found ==> Tree(Edges(engine.data), dir, from, parent, depth) && to in depth
      ensures found ==> forall q | IsPath(Edges(engine.data), dir, q, from, to) :: depth[to] + 1 <= |q|
      ensures !found ==> Following(engine.data, dir, from, to, current, depth0[current], visited0, queue0,
                                   |Incident(engine.data, current)|, visited, parent, queue, depth)
    {
      ghost var data, d := engine.data, depth0[current];
      visited, parent, queue, depth, found := visited0, parent0, queue0, depth0, false;
      var es := GetEdges(current);
      for i := 0 to |es|
        invariant Following(data, dir, from, to, current, d, visited0, queue0, i, visited, parent, queue, depth)
      {
        var neighbour := Neighbour(es[i], current, dir);
        if neighbour.None? || neighbour.value in visited {
          FollowSkips(data, dir, from, to, current, d, visited0, queue0, i, visited, parent, queue, depth);
          continue;
        }
        var w := neighbour.value;
        FollowFinds(data, dir, from, to, current, d, visited0, queue0, i, visited, parent, queue, depth);
        visited := visited + {w};
        parent := parent[w := current];
        depth := depth[w := d + 1];
        if w == to {
          found := true;
          return;
        }
        queue := queue + [w];
      }
    }

    // ---- neighbours ----

    /** The stored nodes exactly k steps away. */
    method KHopNeighbors(id: Key, k: int, dir: Direction) returns (nodes: seq<Node>)
      requires Stored(engine.data)
      ensures k <= 0 ==> nodes == []
      ensures k > 0 ==> ListsNodes(engine.data, nodes, iset v | AtDistance(Edges(engine.data), dir, id, v, k))
    {
      if k <= 0 {
        return [];
      }
      ghost var edges := Edges(engine.data);
      var visited, level := {id}, [id];
      FirstLevel(edges, dir, id);
      assert Elements(level) == {id};
      for hop := 0 to k
        invariant Levels(edges, dir, id, visited, Elements(level), hop) && Distinct(level)
      {
        ghost var before, from := visited, level;
        visited, level := SpreadLevel(level, dir, visited);
        LevelSpreads(edges, dir, id, before, from, hop, visited, level);
      }
      forall v | v in level ensures IsNodeId(v) {
        assert v in Elements(level);
        FarIsNamed(engine.data, dir, id, v, k);
      }
      nodes := Collect(level);
      assert forall v :: v in Elements(level) <==> AtDistance(edges, dir, id, v, k);
    }

    method SpreadLevel(level: seq<Key>, dir: Direction, visited0: set<Key>) returns (visited: set<Key>, next: seq<Key>)
      requires Stored(engine.data)
      ensures Spread(Edges(engine.data), dir, Elements(level), visited0, visited, next) && Distinct(next)
    {
      visited, next := visited0, [];
      assert Elements(level[..0]) == {};
      for i := 0 to |level|
        invariant Spread(Edges(engine.data), dir, Elements(level[..i]), visited0, visited, next)
      {
        ghost var data, done := engine.data, Elements(level[..i]);
        var es := GetEdges(level[i]);
        for n := 0 to |es|
          invariant Spreading(data, dir, done, visited0, level[i], n, visited, next)
        {
          SpreadFinds(data, dir, done, visited0, level[i], n, visited, next);
          var neighbour := Neighbour(es[n], level[i], dir);
          if neighbour.Some? && neighbour.value !in visited {
            visited := visited + {neighbour.value};
            next := next + [neighbour.value];
          }
        }
        SpreadDone(data, dir, done, visited0, level[i], visited, next);
        assert Elements(level[..i + 1]) == done + {level[i]};
      }
      assert level[..|level|] == level;
    }

    /** sort.Strings, then the nodes that are there. */
    method Collect(level: seq<Key>) returns (nodes: seq<Node>)
      requires Stored(engine.data) && Distinct(level) && forall v | v in level :: IsNodeId(v)
      ensures ListsNodes(engine.data, nodes, iset v | v in level)
    {
      var ids := SortStrings(level);
      nodes := [];
      for i := 0 to |ids|
        invariant forall n :: n in nodes <==> n.id in ids[..i] && NodeAt(engine.data, n.id) == Some(n)
        invariant forall a, b | 0 <= a < b < |nodes| :: Less(nodes[a].id, nodes[b].id)
      {
        var node := GetNode(ids[i]);
        assert ids[i] in ids && NodeKey(ids[i]) in engine.data ==> node.value.id == ids[i];
        assert ids[..i + 1] == ids[..i] + [ids[i]];
        if node.Some? {
          forall n | n in nodes ensures Less(n.id, ids[i]) {
            var j :| 0 <= j < i && ids[j] == n.id;
          }
          nodes := nodes + [node.value];
        }
      }
      assert ids[..|ids|] == ids;
    }

    method SortStrings(s: seq<Key>) returns (sorted: seq<Key>)
      requires Distinct(s)
      ensures Lists(sorted, Elements(s))
    {
      sorted := [];
      var rest := set q | q in s;
      while rest != {}
        invariant rest <= Elements(s) && Lists(sorted, Elements(s) - rest)
        invariant forall i, k | 0 <= i < |sorted| && k in rest :: Less(sorted[i], k)
        decreases |rest|
      {
        HasLeast(rest);
        var k :| k in rest && IsLeast(k, rest);
        ListsMore(sorted, Elements(s), rest, k);
        sorted := sorted + [k];
        rest := rest - {k};
      }
      assert Elements(s) - rest == Elements(s);
    }

    /** Back along the parents; the start has none. */
    method Backtrack(ghost from: Key, to: Key, ghost dir: Direction, parent: map<Key, Key>, ghost depth: map<Key, nat>)
      returns (path: Option<seq<Key>>)
      requires Stored(engine.data) && Tree(Edges(engine.data), dir, from, parent, depth) && to in depth
      ensures path.Some? && IsPath(Edges(engine.data), dir, path.value, from, to) && |path.value| == depth[to] + 1
    {
      ghost var edges := Edges(engine.data);
      var p := [to];
      var next := if to in parent then parent[to] else [];
      ParentIsNamed(engine.data, dir, from, parent, depth, to);
      while next != []
        invariant p != [] && p[0] in depth && IsPath(edges, dir, p, p[0], to) && depth[p[0]] + |p| == depth[to] + 1
        invariant next == (if p[0] in parent then parent[p[0]] else []) && (p[0] in parent ==> next != [])
        decreases depth[p[0]]
      {
        PathGrows(edges, dir, p, p[0], to, next);
        p := [next] + p;
        ParentIsNamed(engine.data, dir, from, parent, depth, next);
        next := if next in parent then parent[next] else [];
      }
      path := Some(p);
    }
  }
}
