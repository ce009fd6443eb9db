/**
 The HNSW index (internal/vector/hnsw.go): insertion, deletion and search, and the structure they
 keep.  Levels are chosen by the caller, distances come from a given function, and a deleted id is
 not inserted again.
 */
module HnswIndex {
  import opened HnswGraph
  import opened HnswSearch

  const NO_ID: Id := ""

  // ---- the structure ----

  /** One set of edges per layer up to the node's level. */
  ghost predicate LayersOk(nodes: Nodes) {
    forall id | id in nodes :: |nodes[id].connections| == nodes[id].level + 1
  }

  /** An edge on layer l leads to a node that is gone or of level at least l, and never to its own node. */
  ghost predicate EdgeOk(nodes: Nodes, id: Id, layer: nat, x: Id) {
    x != id && (x in nodes ==> nodes[x].level >= layer)
  }

  ghost predicate EdgesOk(nodes: Nodes) {
    forall id, l: nat, x | x in Edges(nodes, id, l) :: EdgeOk(nodes, id, l, x)
  }

  ghost predicate DegreesOk(nodes: Nodes, max: nat) {
    forall id, l: nat {:trigger Edges(nodes, id, l)} :: |Edges(nodes, id, l)| <= max
  }

  /** Only ids that were inserted at some time have edges to them. */
  ghost predicate EdgesKnown(nodes: Nodes, used: set<Id>) {
    forall id, l: nat, x | x in Edges(nodes, id, l) :: x in used
  }

  /** The entry is a live node of the highest level; an empty index has none. */
  ghost predicate EntryOk(nodes: Nodes, entry: Id, level: nat) {
    if nodes.Keys == {} then entry == NO_ID && level == 0
    else entry in nodes && nodes[entry].level == level && forall id | id in nodes :: nodes[id].level <= level
  }

  ghost predicate Structure(nodes: Nodes, max: nat, used: set<Id>) {
    && LayersOk(nodes) && EdgesOk(nodes) && DegreesOk(nodes, max) && EdgesKnown(nodes, used)
    && nodes.Keys <= used
  }

  // ---- changing one set of edges ----

  /** nodes with the edges of `id` on `layer` set to `to`. */
  function WithEdges(nodes: Nodes, id: Id, layer: nat, to: set<Id>): Nodes
    requires id in nodes && layer < |nodes[id].connections|
  {
    nodes[id := nodes[id].(connections := nodes[id].connections[layer := to])]
  }

  lemma EdgesAfter(nodes: Nodes, id: Id, layer: nat, to: set<Id>, x: Id, l: nat)
    requires id in nodes && layer < |nodes[id].connections|
    ensures Edges(WithEdges(nodes, id, layer, to), x, l) == if x == id && l == layer then to else Edges(nodes, x, l)
  {
  }

  /** Same nodes with the same vectors and levels. */
  ghost predicate SameNodes(nodes: Nodes, nodes': Nodes) {
    && nodes'.Keys == nodes.Keys
    && forall id | id in nodes :: nodes'[id].vector == nodes[id].vector && nodes'[id].level == nodes[id].level
  }

  lemma WithEdgesKeeps(nodes: Nodes, id: Id, layer: nat, to: set<Id>, max: nat, used: set<Id>)
    requires Structure(nodes, max, used) && id in nodes && layer < |nodes[id].connections|
    requires |to| <= max && to <= used && forall x | x in to :: EdgeOk(nodes, id, layer, x)
    ensures Structure(WithEdges(nodes, id, layer, to), max, used) && SameNodes(nodes, WithEdges(nodes, id, layer, to))
  {
    var nodes' := WithEdges(nodes, id, layer, to);
    forall x, l: nat, y | y in Edges(nodes', x, l) ensures EdgeOk(nodes', x, l, y) && y in used {
      EdgesAfter(nodes, id, layer, to, x, l);
      assert EdgeOk(nodes, x, l, y);
    }
    forall x, l: nat ensures |Edges(nodes', x, l)| <= max {
      EdgesAfter(nodes, id, layer, to, x, l);
    }
  }

  // ---- pruning ----

  /** The live ids of a set, nearest first; of equal distances in any order. */
  method Nearest(nodes: Nodes, f: Distance, query: Vector, ids: set<Id>) returns (r: seq<Candidate>)
    ensures TrueDistances(nodes, f, query, r) && Ascending(r) && DistinctIds(r)
    ensures forall id :: HasId(r, id) <==> id in ids && id in nodes
  {
    r := [];
    var rest := ids;
    while rest != {}
      invariant rest <= ids
      invariant TrueDistances(nodes, f, query, r) && Ascending(r) && DistinctIds(r)
      invariant forall id :: HasId(r, id) <==> id in ids - rest && id in nodes
      decreases |rest|
    {
      var id :| id in rest;
      if id in nodes {
        var item := Candidate(id, f(query, nodes[id].vector));
        var out, pos := InsertSorted(r, item);
        InsertedDistinct(r, item, out, pos);
        forall x ensures HasId(out, x) <==> HasId(r, x) || x == id {
          InsertedIds(r, item, out, pos, x);
        }
        TrueStays(nodes, f, query, r, item, out, pos);
        r := out;
      }
      rest := rest - {id};
    }
  }

  lemma TrueStays(nodes: Nodes, f: Distance, query: Vector, r: seq<Candidate>, item: Candidate, out: seq<Candidate>, pos: nat)
    requires InsertedAt(r, item, out, pos) && TrueDistances(nodes, f, query, r)
    requires item.id in nodes && item.dist == f(query, nodes[item.id].vector)
    ensures TrueDistances(nodes, f, query, out)
  {
    forall i | 0 <= i < |out| ensures out[i].id in nodes && out[i].dist == f(query, nodes[out[i].id].vector) {
      if i < pos {
        assert out[i] == r[i];
      } else if i > pos {
        assert out[i] == r[i - 1];
      }
    }
  }

  /** The kept ids are live and among the old ones, and no dropped live one is nearer. */
  ghost predicate Pruned(nodes: Nodes, f: Distance, query: Vector, old_: set<Id>, kept: set<Id>, max: nat) {
    && kept <= old_ * nodes.Keys && |kept| <= max
    && (|kept| == max || kept == old_ * nodes.Keys)
    && forall a, b | a in kept && b in old_ && b in nodes && b !in kept ::
         f(query, nodes[a].vector) <= f(query, nodes[b].vector)
  }

  method PruneSet(nodes: Nodes, f: Distance, query: Vector, ids: set<Id>, max: nat) returns (kept: set<Id>)
    ensures Pruned(nodes, f, query, ids, kept, max)
  {
    var candidates := Nearest(nodes, f, query, ids);
    var n := if max < |candidates| then max else |candidates|;
    kept := {};
    for i := 0 to n
      invariant kept == Ids(candidates[..i])
    {
      assert candidates[..i + 1][..i] == candidates[..i];
      kept := kept + {candidates[i].id};
    }
    PrunedIs(nodes, f, query, ids, candidates, n, max);
  }

  lemma PrunedIs(nodes: Nodes, f: Distance, query: Vector, ids: set<Id>, r: seq<Candidate>, n: nat, max: nat)
    requires TrueDistances(nodes, f, query, r) && Ascending(r) && DistinctIds(r)
    requires forall id :: HasId(r, id) <==> id in ids && id in nodes
    requires n == if max < |r| then max else |r|
    ensures Pruned(nodes, f, query, ids, Ids(r[..n]), max)
  {
    var front := r[..n];
    IdsCount(front);
    forall id ensures id in Ids(front) <==> HasId(front, id) {
      IdsAre(front, id);
    }
    forall id | HasId(front, id) ensures HasId(r, id) {
      var i :| 0 <= i < |front| && front[i].id == id;
      assert r[i].id == id;
    }
    forall a, b | a in Ids(front) && b in ids && b in nodes && b !in Ids(front)
      ensures f(query, nodes[a].vector) <= f(query, nodes[b].vector)
    {
      var i :| 0 <= i < |front| && front[i].id == a;
      assert HasId(r, b);
      var j :| 0 <= j < |r| && r[j].id == b;
      BeyondFront(r, n, j);
      assert r[i].dist <= r[j].dist;
    }
    if n == |r| {
      assert front == r;
    }
  }

  lemma BeyondFront(r: seq<Candidate>, n: nat, j: nat)
    requires n <= |r| && j < |r| && !HasId(r[..n], r[j].id)
    ensures j >= n
  {
    forall k | 0 <= k < n ensures HasId(r[..n], r[k].id) {
      assert r[..n][k] == r[k];
    }
  }

  // ---- insertion ----

  /** No edge on layers up to `layer` leads to the id. */
  ghost predicate Unlinked(nodes: Nodes, id: Id, layer: int) {
    forall x, l: nat | l <= layer :: id !in Edges(nodes, x, l)
  }

  /** The node of a layer search's result can take an edge on the layer, and is not the new node. */
  lemma ResultFits(nodes: Nodes, max: nat, used: set<Id>, f: Distance, entry: Id, query: Vector, ef: nat, layer: nat,
                   r: seq<Candidate>, i: nat, id: Id)
    requires Structure(nodes, max, used) && LayerAnswer(nodes, f, entry, query, ef, layer, r) && i < |r|
    requires entry != id && nodes[entry].level >= layer && Unlinked(nodes, id, layer)
    ensures r[i].id in nodes && r[i].id != id && nodes[r[i].id].level >= layer
  {
    ReachedByEdge(nodes, layer, entry, r[i].id);
    if r[i].id != entry {
      var x :| x in nodes && r[i].id in Edges(nodes, x, layer);
      assert EdgeOk(nodes, x, layer, r[i].id);
    }
  }

  /** A new node without edges. */
  function NewNode(vector: Vector, level: nat): Node {
    Node(vector, level, seq(level + 1, _ => {}))
  }

  lemma AddedNode(nodes: Nodes, max: nat, used: set<Id>, id: Id, vector: Vector, level: nat)
    requires Structure(nodes, max, used) && id !in used
    ensures var nodes' := nodes[id := NewNode(vector, level)];
            && Structure(nodes', max, used + {id})
            && (forall x, l: nat {:trigger Edges(nodes', x, l)} :: id !in Edges(nodes', x, l))
            && (forall l: nat {:trigger Edges(nodes', id, l)} :: Edges(nodes', id, l) == {})
  {
    var nodes' := nodes[id := NewNode(vector, level)];
    forall x, l: nat ensures Edges(nodes', x, l) == if x == id then {} else Edges(nodes, x, l) {
    }
    forall x, l: nat, y | y in Edges(nodes', x, l) ensures EdgeOk(nodes', x, l, y) && y in used + {id} && y != id {
      assert EdgeOk(nodes, x, l, y) && y in used;
    }
  }

  /** Entry candidates the descent carries: live, not the new node, high enough, at their true distance. */
  ghost predicate GoodEntry(nodes: Nodes, f: Distance, vector: Vector, id: Id, layer: int, entry: Candidate) {
    && entry.id in nodes && entry.id != id && nodes[entry.id].level >= layer
    && entry.dist == f(vector, nodes[entry.id].vector)
  }

  /** No neighbour of the node on the layer is nearer to the query. */
  ghost predicate NoneNearer(nodes: Nodes, f: Distance, query: Vector, id: Id, layer: nat) {
    id in nodes && forall n | n in nodes && n in Edges(nodes, id, layer) :: f(query, nodes[id].vector) <= f(query, nodes[n].vector)
  }

  /** A beam of width one stops at a node that none of its neighbours improves on. */
  lemma BeamOfOne(nodes: Nodes, f: Distance, entry: Id, query: Vector, layer: nat, r: seq<Candidate>)
    requires LayerAnswer(nodes, f, entry, query, 1, layer, r)
    ensures NoneNearer(nodes, f, query, r[0].id, layer)
  {
    forall n | n in nodes && n in Edges(nodes, r[0].id, layer) ensures r[0].dist <= f(query, nodes[n].vector) {
      assert Covered(r, 1, n, f(query, nodes[n].vector));
    }
  }

  /** From layer l the descent goes on at the node that a beam of width one finds there. */
  ghost predicate DescentStep(nodes: Nodes, f: Distance, query: Vector, from: nat, l: nat, chain: seq<Id>) {
    l <= from && from - l + 1 < |chain| && exists r: seq<Candidate> ::
      LayerAnswer(nodes, f, chain[from - l], query, 1, l, r) && r[0].id == chain[from - l + 1]
  }

  /** From `entry` on layer `from` down to, but not on, layer `to`: chain holds the node the descent stands at above each layer. */
  ghost predicate Descent(nodes: Nodes, f: Distance, query: Vector, entry: Id, from: nat, to: nat, chain: seq<Id>) {
    && to <= from && |chain| == from - to + 1 && chain[0] == entry
    && forall l: nat {:trigger DescentStep(nodes, f, query, from, l, chain)} | to < l <= from :: DescentStep(nodes, f, query, from, l, chain)
  }

  lemma DescentMore(nodes: Nodes, f: Distance, query: Vector, entry: Id, from: nat, l: nat, chain: seq<Id>, r: seq<Candidate>)
    requires 0 < l <= from && Descent(nodes, f, query, entry, from, l, chain)
    requires LayerAnswer(nodes, f, chain[from - l], query, 1, l, r)
    ensures Descent(nodes, f, query, entry, from, l - 1, chain + [r[0].id])
  {
    var longer := chain + [r[0].id];
    forall k: nat | l - 1 < k <= from ensures DescentStep(nodes, f, query, from, k, longer) {
      if k > l {
        assert DescentStep(nodes, f, query, from, k, chain);
        assert longer[from - k] == chain[from - k] && longer[from - k + 1] == chain[from - k + 1];
      } else {
        assert longer[from - k] == chain[from - k] && longer[from - k + 1] == r[0].id;
      }
    }
  }

  /** The descent never moves away from the query, and ends at a node none of whose neighbours above improves on. */
  lemma {:induction false} DescentEnds(nodes: Nodes, f: Distance, query: Vector, entry: Id, from: nat, to: nat, chain: seq<Id>)
    requires Descent(nodes, f, query, entry, from, to, chain) && entry in nodes
    ensures chain[from - to] in nodes && f(query, nodes[chain[from - to]].vector) <= f(query, nodes[entry].vector)
    ensures from > to ==> NoneNearer(nodes, f, query, chain[from - to], to + 1)
    decreases from - to
  {
    if from > to {
      var shorter := chain[..from - to];
      forall k: nat | to + 1 < k <= from ensures DescentStep(nodes, f, query, from, k, shorter) {
        assert DescentStep(nodes, f, query, from, k, chain);
        assert shorter[from - k] == chain[from - k] && shorter[from - k + 1] == chain[from - k + 1];
      }
      DescentEnds(nodes, f, query, entry, from, to + 1, shorter);
      assert DescentStep(nodes, f, query, from, to + 1, chain);
      var r: seq<Candidate> :| LayerAnswer(nodes, f, chain[from - to - 1], query, 1, to + 1, r) && r[0].id == chain[from - to];
      BeamOfOne(nodes, f, chain[from - to - 1], query, to + 1, r);
    }
  }

  /** Between two states of an insertion only edges on layer l changed. */
  ghost predicate OnlyLayer(nodes: Nodes, nodes': Nodes, layer: nat) {
    SameNodes(nodes, nodes') && forall x, l: nat {:trigger Edges(nodes', x, l)} | l != layer :: Edges(nodes', x, l) == Edges(nodes, x, l)
  }

  lemma OnlyLayerTrans(a: Nodes, b: Nodes, c: Nodes, layer: nat)
    requires OnlyLayer(a, b, layer) && OnlyLayer(b, c, layer)
    ensures OnlyLayer(a, c, layer)
  {
    forall x, l: nat | l != layer ensures Edges(c, x, l) == Edges(a, x, l) {
      assert Edges(b, x, l) == Edges(a, x, l);
    }
  }

  // ---- what linking a new node leaves behind ----

  /** The new node joins the neighbours of x, which keeps the nearest max of them. */
  ghost predicate LinkedBack(before: Nodes, after: Nodes, f: Distance, max: nat, id: Id, x: Id, layer: nat) {
    var wide := Edges(before, x, layer) + {id};
    if |wide| <= max then Edges(after, x, layer) == wide
    else x in before && Pruned(before, f, before[x].vector, wide, Edges(after, x, layer), max)
  }

  /** The new node and these nodes are linked both ways; nobody else's edges on the layer changed. */
  ghost predicate Linked(before: Nodes, after: Nodes, f: Distance, max: nat, id: Id, chosen: set<Id>, layer: nat) {
    && Edges(after, id, layer) == chosen
    && forall x {:trigger Edges(after, x, layer)} | x != id ::
         if x in chosen then LinkedBack(before, after, f, max, id, x, layer) else Edges(after, x, layer) == Edges(before, x, layer)
  }

  /** The new node is linked with the first `most` results of a search of the layer from e, of which `next` is the first. */
  ghost predicate LayerLinked(before: Nodes, after: Nodes, f: Distance, ef: nat, most: nat, max: nat, id: Id, layer: nat, e: Id, next: Id) {
    id in before && e != id && exists r: seq<Candidate> ::
      && LayerAnswer(before, f, e, before[id].vector, ef, layer, r) && next == r[0].id
      && Linked(before, after, f, max, id, Ids(r[..if |r| <= most then |r| else most]), layer)
  }

  lemma PrunedSame(a: Nodes, b: Nodes, f: Distance, query: Vector, ids: set<Id>, kept: set<Id>, max: nat)
    requires SameNodes(a, b) && Pruned(a, f, query, ids, kept, max)
    ensures Pruned(b, f, query, ids, kept, max)
  {
  }

  /** One more neighbour. */
  lemma LinkedMore(before: Nodes, mid: Nodes, after: Nodes, f: Distance, max: nat, id: Id, chosen: set<Id>, nb: Id, layer: nat)
    requires Linked(before, mid, f, max, id, chosen, layer) && nb !in chosen + {id} && id !in chosen && SameNodes(before, mid)
    requires Edges(after, id, layer) == Edges(mid, id, layer) + {nb} && LinkedBack(mid, after, f, max, id, nb, layer)
    requires forall x {:trigger Edges(after, x, layer)} | x != id && x != nb :: Edges(after, x, layer) == Edges(mid, x, layer)
    ensures Linked(before, after, f, max, id, chosen + {nb}, layer)
  {
    assert Edges(mid, nb, layer) == Edges(before, nb, layer);
    var wide := Edges(before, nb, layer) + {id};
    if |wide| > max {
      assert SameNodes(mid, before);
      PrunedSame(mid, before, f, mid[nb].vector, wide, Edges(after, nb, layer), max);
    }
    forall x | x in chosen ensures LinkedBack(before, after, f, max, id, x, layer) {
      assert Edges(after, x, layer) == Edges(mid, x, layer);
      assert LinkedBack(before, mid, f, max, id, x, layer);
    }
  }

  /** The edges of two nodes were set on a layer, the second one's after it took the first. */
  lemma BothLinked(before: Nodes, f: Distance, max: nat, id: Id, nb: Id, layer: nat, own: set<Id>, final: set<Id>)
    requires id in before && nb in before && id != nb
    requires layer < |before[id].connections| && layer < |before[nb].connections|
    requires var wide := Edges(before, nb, layer) + {id};
             if |wide| <= max then final == wide else Pruned(before, f, before[nb].vector, wide, final, max)
    ensures var after := WithEdges(WithEdges(before, id, layer, own), nb, layer, final);
            && Edges(after, id, layer) == own && LinkedBack(before, after, f, max, id, nb, layer)
            && forall x {:trigger Edges(after, x, layer)} | x != id && x != nb :: Edges(after, x, layer) == Edges(before, x, layer)
  {
    var linked := WithEdges(before, id, layer, own);
    forall x ensures Edges(WithEdges(linked, nb, layer, final), x, layer) ==
                     if x == nb then final else if x == id then own else Edges(before, x, layer)
    {
      EdgesAfter(linked, nb, layer, final, x, layer);
      EdgesAfter(before, id, layer, own, x, layer);
    }
  }

  /** The new node is linked on layer l, with up to m nodes or on the lowest layer up to max. */
  ghost predicate LayerDone(base: Nodes, after: Nodes, f: Distance, ef: nat, m: nat, max: nat, id: Id, l: nat, e: Id, next: Id) {
    LayerLinked(base, after, f, ef, if l == 0 then max else m, max, id, l, e, next)
  }

  /** No edge changed but on the layers from low + 1 to top. */
  ghost predicate OnlyBetween(base: Nodes, after: Nodes, top: nat, low: int) {
    forall x, l: nat {:trigger Edges(after, x, l)} | l <= low || l > top :: Edges(after, x, l) == Edges(base, x, l)
  }

  /** The new node is linked on layer l; starts holds where the search of each layer began, from top downwards. */
  ghost predicate LayerStep(base: Nodes, after: Nodes, f: Distance, ef: nat, m: nat, max: nat, id: Id, top: nat, l: nat, starts: seq<Id>) {
    l <= top && top - l + 1 < |starts| && LayerDone(base, after, f, ef, m, max, id, l, starts[top - l], starts[top - l + 1])
  }

  /**
   From layer top down to low + 1 the new node is linked, the search of each layer starting at the
   nearest node that the search of the layer above found; on all other layers no edge changed.
   */
  ghost predicate LayersLinked(base: Nodes, after: Nodes, f: Distance, ef: nat, m: nat, max: nat, id: Id, top: nat, low: int, starts: seq<Id>) {
    && -1 <= low <= top && |starts| == top - low + 1
    && (forall l: nat | low < l <= top :: LayerStep(base, after, f, ef, m, max, id, top, l, starts))
    && OnlyBetween(base, after, top, low)
  }

  /** Where the linking of a new node starts: at the entry, or where the descent from it ends. */
  ghost predicate StartsFrom(base: Nodes, f: Distance, id: Id, entry: Id, entryLevel: nat, start: Id) {
    id in base &&
    if base[id].level < entryLevel then
      exists chain :: Descent(base, f, base[id].vector, entry, entryLevel, base[id].level, chain) && chain[entryLevel - base[id].level] == start
    else
      start == entry
  }

  /** A new node is linked on all its layers up to the entry's. */
  ghost predicate LinkedFromTop(base: Nodes, after: Nodes, f: Distance, ef: nat, m: nat, max: nat, id: Id, entry: Id, entryLevel: nat) {
    id in base && exists starts: seq<Id> ::
      && starts != [] && StartsFrom(base, f, id, entry, entryLevel, starts[0])
      && LayersLinked(base, after, f, ef, m, max, id, if base[id].level < entryLevel then base[id].level else entryLevel, -1, starts)
  }

  /** The edges on one layer are the same. */
  ghost predicate SameLayer(a: Nodes, b: Nodes, layer: nat) {
    forall x {:trigger Edges(a, x, layer)} {:trigger Edges(b, x, layer)} :: Edges(b, x, layer) == Edges(a, x, layer)
  }

  /** Same nodes, same edges on a layer: the same searches of it. */
  lemma AnswerSame(a: Nodes, b: Nodes, f: Distance, e: Id, query: Vector, ef: nat, layer: nat, r: seq<Candidate>)
    requires SameNodes(a, b) && SameLayer(a, b, layer)
    requires LayerAnswer(a, f, e, query, ef, layer, r)
    ensures LayerAnswer(b, f, e, query, ef, layer, r)
  {
    forall i | 0 <= i < |r| ensures Reachable(b, layer, e, r[i].id) {
      var path :| IsPath(a, layer, path) && path[0] == e && path[|path| - 1] == r[i].id;
      forall j | 0 <= j < |path| - 1 ensures path[j + 1] in Edges(b, path[j], layer) {
        assert Edges(b, path[j], layer) == Edges(a, path[j], layer);
      }
      assert IsPath(b, layer, path);
    }
    forall i, n | 0 <= i < |r| && n in b && n in Edges(b, r[i].id, layer) ensures Covered(r, ef, n, f(query, b[n].vector)) {
      assert n in Edges(a, r[i].id, layer);
    }
  }

  lemma LinkedSame(a: Nodes, b: Nodes, after: Nodes, after': Nodes, f: Distance, ef: nat, most: nat, max: nat, id: Id, layer: nat,
                   e: Id, next: Id)
    requires SameNodes(a, b) && SameLayer(a, b, layer)
    requires SameLayer(after, after', layer)
    requires LayerLinked(a, after, f, ef, most, max, id, layer, e, next)
    ensures LayerLinked(b, after', f, ef, most, max, id, layer, e, next)
  {
    var r: seq<Candidate> :| LayerAnswer(a, f, e, a[id].vector, ef, layer, r) && next == r[0].id
             && Linked(a, after, f, max, id, Ids(r[..if |r| <= most then |r| else most]), layer);
    AnswerSame(a, b, f, e, a[id].vector, ef, layer, r);
    var chosen := Ids(r[..if |r| <= most then |r| else most]);
    forall x {:trigger Edges(after', x, layer)} | x != id
      ensures if x in chosen then LinkedBack(b, after', f, max, id, x, layer) else Edges(after', x, layer) == Edges(b, x, layer)
    {
      assert Edges(after', x, layer) == Edges(after, x, layer);
      assert Edges(b, x, layer) == Edges(a, x, layer);
      if x in chosen && |Edges(a, x, layer) + {id}| > max {
        PrunedSame(a, b, f, a[x].vector, Edges(a, x, layer) + {id}, Edges(after, x, layer), max);
      }
    }
    assert Edges(after', id, layer) == Edges(after, id, layer);
    assert Linked(b, after', f, max, id, chosen, layer);
  }

  /** The state before a layer's turn may be read as the base, on that layer. */
  lemma DoneFromBase(base: Nodes, before: Nodes, after: Nodes, f: Distance, ef: nat, m: nat, max: nat, id: Id, l: nat,
                     e: Id, next: Id)
    requires SameNodes(base, before) && SameLayer(before, base, l)
    requires LayerDone(before, after, f, ef, m, max, id, l, e, next)
    ensures LayerDone(base, after, f, ef, m, max, id, l, e, next)
  {
    assert SameLayer(after, after, l);
    LinkedSame(before, base, after, after, f, ef, if l == 0 then max else m, max, id, l, e, next);
  }

  /** A layer that is done stays done while another one is changed. */
  lemma DoneStays(base: Nodes, before: Nodes, after: Nodes, f: Distance, ef: nat, m: nat, max: nat, id: Id, l: nat, k: nat,
                  e: Id, next: Id)
    requires OnlyLayer(before, after, l) && k != l && LayerDone(base, before, f, ef, m, max, id, k, e, next)
    ensures LayerDone(base, after, f, ef, m, max, id, k, e, next)
  {
    assert SameLayer(before, after, k) && SameLayer(base, base, k);
    LinkedSame(base, base, before, after, f, ef, if k == 0 then max else m, max, id, k, e, next);
  }

  lemma StepStays(base: Nodes, before: Nodes, after: Nodes, f: Distance, ef: nat, m: nat, max: nat, id: Id, top: nat, l: nat, k: nat,
                  starts: seq<Id>, next: Id)
    requires OnlyLayer(before, after, l) && k != l && LayerStep(base, before, f, ef, m, max, id, top, k, starts)
    ensures LayerStep(base, after, f, ef, m, max, id, top, k, starts + [next])
  {
    DoneStays(base, before, after, f, ef, m, max, id, l, k, starts[top - k], starts[top - k + 1]);
  }

  lemma StepNow(base: Nodes, before: Nodes, after: Nodes, f: Distance, ef: nat, m: nat, max: nat, id: Id, top: nat, l: nat,
                starts: seq<Id>, next: Id)
    requires l <= top && |starts| == top - l + 1 && SameNodes(base, before) && SameLayer(before, base, l)
    requires LayerDone(before, after, f, ef, m, max, id, l, starts[top - l], next)
    ensures LayerStep(base, after, f, ef, m, max, id, top, l, starts + [next])
  {
    DoneFromBase(base, before, after, f, ef, m, max, id, l, starts[top - l], next);
  }

  lemma DoneSoFar(base: Nodes, before: Nodes, after: Nodes, f: Distance, ef: nat, m: nat, max: nat, id: Id, top: nat, l: nat,
                  starts: seq<Id>, next: Id)
    requires OnlyLayer(before, after, l) && LayerStep(base, after, f, ef, m, max, id, top, l, starts + [next])
    requires forall k: nat | l < k <= top :: LayerStep(base, before, f, ef, m, max, id, top, k, starts)
    ensures forall k: nat | l - 1 < k <= top :: LayerStep(base, after, f, ef, m, max, id, top, k, starts + [next])
  {
    forall k: nat | l - 1 < k <= top ensures LayerStep(base, after, f, ef, m, max, id, top, k, starts + [next]) {
      if k != l {
        StepStays(base, before, after, f, ef, m, max, id, top, l, k, starts, next);
      }
    }
  }

  lemma BelowUntouched(base: Nodes, before: Nodes, after: Nodes, top: nat, l: nat)
    requires l <= top && OnlyBetween(base, before, top, l) && OnlyLayer(before, after, l)
    ensures OnlyBetween(base, after, top, l - 1) && SameLayer(before, base, l)
  {
    forall x, k: nat {:trigger Edges(after, x, k)} | k <= l - 1 || k > top ensures Edges(after, x, k) == Edges(base, x, k) {
      assert Edges(after, x, k) == Edges(before, x, k) == Edges(base, x, k);
    }
    forall x ensures Edges(before, x, l) == Edges(base, x, l) {
    }
  }

  /** One more layer. */
  lemma LayersMore(base: Nodes, before: Nodes, after: Nodes, f: Distance, ef: nat, m: nat, max: nat, id: Id, top: nat, l: nat,
                   starts: seq<Id>, next: Id)
    requires SameNodes(base, before) && l <= top && LayersLinked(base, before, f, ef, m, max, id, top, l, starts)
    requires OnlyLayer(before, after, l) && LayerDone(before, after, f, ef, m, max, id, l, starts[top - l], next)
    ensures LayersLinked(base, after, f, ef, m, max, id, top, l - 1, starts + [next])
  {
    BelowUntouched(base, before, after, top, l);
    StepNow(base, before, after, f, ef, m, max, id, top, l, starts, next);
    DoneSoFar(base, before, after, f, ef, m, max, id, top, l, starts, next);
  }

  lemma NextChosen(r: seq<Candidate>, i: nat, id: Id)
    requires i < |r| && DistinctIds(r) && forall j | 0 <= j < |r| :: r[j].id != id
    ensures Ids(r[..i + 1]) == Ids(r[..i]) + {r[i].id} && r[i].id !in Ids(r[..i]) && id !in Ids(r[..i]) && |Ids(r[..i])| == i
  {
    var front := r[..i];
    assert r[..i + 1][..i] == front;
    IdsCount(front);
    IdsAre(front, r[i].id);
    IdsAre(front, id);
  }

  class Index {
    const dim: nat
    const m: nat
    const mMax: nat
    const efSearch: nat
    const efConst: nat
    const f: Distance

    var nodes: Nodes
    var entryID: Id
    var entryLevel: nat
    // every id ever inserted
    ghost var used: set<Id>

    ghost predicate Valid()
      reads this
    {
      && m >= 1 && mMax == 2 * m && efSearch >= 1 && efConst >= 1
      && Structure(nodes, mMax, used) && NO_ID !in used && EntryOk(nodes, entryID, entryLevel)
    }

    constructor (dim: nat, m: int, efConst: int, efSearch: int, f: Distance)
      ensures Valid() && nodes == map[] && used == {} && this.dim == dim && this.f == f
      ensures this.m == (if m <= 0 then 16 else m) && this.efConst == (if efConst <= 0 then 200 else efConst)
      ensures this.efSearch == if efSearch <= 0 then 64 else efSearch
    {
      this.dim, this.f := dim, f;
      this.m := if m <= 0 then 16 else m;
      this.mMax := (if m <= 0 then 16 else m) * 2;
      this.efConst := if efConst <= 0 then 200 else efConst;
      this.efSearch := if efSearch <= 0 then 64 else efSearch;
      nodes, entryID, entryLevel, used := map[], NO_ID, 0, {};
    }

    method AddConnection(from: Id, to: Id, layer: nat)
      modifies `nodes
      ensures nodes == if from in old(nodes) && layer < |old(nodes)[from].connections|
                       then WithEdges(old(nodes), from, layer, old(nodes)[from].connections[layer] + {to})
                       else old(nodes)
    {
      if from in nodes && layer < |nodes[from].connections| {
        nodes := WithEdges(nodes, from, layer, nodes[from].connections[layer] + {to});
      }
    }

    /** Keeps the nearest mMax live neighbours of a node that has more. */
    method PruneConnections(id: Id, layer: nat)
      modifies `nodes
      ensures if |Edges(old(nodes), id, layer)| <= mMax then nodes == old(nodes)
              else
                var kept := Edges(nodes, id, layer);
                && nodes == WithEdges(old(nodes), id, layer, kept)
                && Pruned(old(nodes), f, old(nodes)[id].vector, Edges(old(nodes), id, layer), kept, mMax)
    {
      if id !in nodes || layer >= |nodes[id].connections| {
        return;
      }
      if |nodes[id].connections[layer]| <= mMax {
        return;
      }
      var kept := PruneSet(nodes, f, nodes[id].vector, nodes[id].connections[layer], mMax);
      EdgesAfter(nodes, id, layer, kept, id, layer);
      nodes := WithEdges(nodes, id, layer, kept);
    }

    /** Links the new node and a neighbour on a layer, both ways; the neighbour may prune again. */
    method Connect(id: Id, nb: Id, layer: nat)
      requires mMax >= 1 && Structure(nodes, mMax, used) && id in nodes && nb in nodes && id != nb
      requires nodes[id].level >= layer && nodes[nb].level >= layer && |Edges(nodes, id, layer)| < mMax
      modifies `nodes
      ensures Structure(nodes, mMax, used) && OnlyLayer(old(nodes), nodes, layer)
      ensures Edges(nodes, id, layer) == Edges(old(nodes), id, layer) + {nb}
      ensures LinkedBack(old(nodes), nodes, f, mMax, id, nb, layer)
      ensures forall x {:trigger Edges(nodes, x, layer)} | x != id && x != nb :: Edges(nodes, x, layer) == Edges(old(nodes), x, layer)
    {
      ghost var before := nodes;
      ghost var own := Edges(nodes, id, layer) + {nb};
      AddConnection(id, nb, layer);
      WithEdgesKeeps(before, id, layer, own, mMax, used);
      ghost var linked := nodes;
      LayerOnly(before, id, layer, own);
      LinkBack(id, nb, layer);
      ghost var final := Edges(nodes, nb, layer);
      SameEdgesAfter(before, linked, id, nb, layer, own);
      if |Edges(before, nb, layer) + {id}| > mMax {
        PrunedSame(linked, before, f, before[nb].vector, Edges(before, nb, layer) + {id}, final, mMax);
      }
      BothLinked(before, f, mMax, id, nb, layer, own, final);
      LayerOnly(linked, nb, layer, final);
      OnlyLayerTrans(before, linked, nodes, layer);
    }

    /** The neighbour's side of a link. */
    method LinkBack(id: Id, nb: Id, layer: nat)
      requires mMax >= 1 && Structure(nodes, mMax, used) && id in nodes && nb in nodes && id != nb
      requires nodes[id].level >= layer && nodes[nb].level >= layer
      modifies `nodes
      ensures Structure(nodes, mMax, used)
      ensures nodes == WithEdges(old(nodes), nb, layer, Edges(nodes, nb, layer))
      ensures var wide := Edges(old(nodes), nb, layer) + {id};
              if |wide| <= mMax then Edges(nodes, nb, layer) == wide
              else Pruned(old(nodes), f, old(nodes)[nb].vector, wide, Edges(nodes, nb, layer), mMax)
    {
      ghost var linked := nodes;
      AddConnection(nb, id, layer);
      ghost var theirs := Edges(linked, nb, layer) + {id};
      LayerOnly(linked, nb, layer, theirs);
      ghost var wide := nodes;
      PruneConnections(nb, layer);
      ghost var final := Edges(nodes, nb, layer);
      Repruned(linked, nb, layer, theirs, final);
      assert nodes == WithEdges(linked, nb, layer, final);
      if |theirs| > mMax {
        PrunedSame(wide, linked, f, linked[nb].vector, theirs, final, mMax);
      }
      TheirsOk(linked, mMax, used, id, nb, layer, final);
      WithEdgesKeeps(linked, nb, layer, final, mMax, used);
    }

    /** From the top layer down to the new node's: always on from the nearest node found. */
    method Descend(query: Vector, start: Candidate, from: nat, to: nat, ghost avoid: Id)
      returns (entry: Candidate, ghost chain: seq<Id>)
      requires Structure(nodes, mMax, used) && from >= to
      requires GoodEntry(nodes, f, query, avoid, from, start) && Unlinked(nodes, avoid, from)
      ensures GoodEntry(nodes, f, query, avoid, to, entry)
      ensures Descent(nodes, f, query, start.id, from, to, chain) && chain[from - to] == entry.id
    {
      entry, chain := start, [start.id];
      var l := from;
      while l > to
        invariant to <= l <= from && GoodEntry(nodes, f, query, avoid, l, entry)
        invariant Descent(nodes, f, query, start.id, from, l, chain) && chain[from - l] == entry.id
      {
        var nearest := SearchLayer(nodes, f, entry, query, 1, l);
        ResultFits(nodes, mMax, used, f, entry.id, query, 1, l, nearest, 0, avoid);
        DescentMore(nodes, f, query, start.id, from, l, chain, nearest);
        entry, chain := nearest[0], chain + [nearest[0].id];
        l := l - 1;
      }
    }

    /** Links the new node with the nearest nodes found on one layer. */
    method LinkLayer(id: Id, entry: Candidate, layer: nat) returns (next: Candidate)
      requires m >= 1 && mMax == 2 * m && efConst >= 1 && Structure(nodes, mMax, used) && id in nodes && nodes[id].level >= layer
      requires GoodEntry(nodes, f, nodes[id].vector, id, layer, entry)
      requires Unlinked(nodes, id, layer) && Edges(nodes, id, layer) == {}
      modifies `nodes
      ensures Structure(nodes, mMax, used) && OnlyLayer(old(nodes), nodes, layer)
      ensures GoodEntry(nodes, f, nodes[id].vector, id, layer, next)
      ensures LayerDone(old(nodes), nodes, f, efConst, m, mMax, id, layer, entry.id, next.id)
    {
      ghost var before := nodes;
      var vector := nodes[id].vector;
      var candidates := SearchLayer(nodes, f, entry, vector, efConst, layer);
      var most := if layer == 0 then mMax else m;
      forall i | 0 <= i < |candidates|
        ensures candidates[i].id in nodes && candidates[i].id != id && nodes[candidates[i].id].level >= layer
      {
        ResultFits(nodes, mMax, used, f, entry.id, vector, efConst, layer, candidates, i, id);
      }
      LinkEach(id, candidates, if |candidates| <= most then |candidates| else most, layer);
      assert LayerAnswer(before, f, entry.id, before[id].vector, efConst, layer, candidates);
      next := candidates[0];
    }

    /** Links the new node with the first n of these nodes. */
    method LinkEach(id: Id, candidates: seq<Candidate>, n: nat, layer: nat)
      requires mMax >= 1 && Structure(nodes, mMax, used) && id in nodes && nodes[id].level >= layer
      requires n <= |candidates| && n <= mMax && DistinctIds(candidates) && Edges(nodes, id, layer) == {}
      requires forall i | 0 <= i < |candidates| ::
                 candidates[i].id in nodes && candidates[i].id != id && nodes[candidates[i].id].level >= layer
      modifies `nodes
      ensures Structure(nodes, mMax, used) && OnlyLayer(old(nodes), nodes, layer)
      ensures Linked(old(nodes), nodes, f, mMax, id, Ids(candidates[..n]), layer)
    {
      ghost var before := nodes;
      assert OnlyLayer(before, nodes, layer) && Ids(candidates[..0]) == {};
      for i := 0 to n
        invariant Structure(nodes, mMax, used) && OnlyLayer(before, nodes, layer)
        invariant Linked(before, nodes, f, mMax, id, Ids(candidates[..i]), layer)
      {
        ghost var mid := nodes;
        NextChosen(candidates, i, id);
        Connect(id, candidates[i].id, layer);
        LinkedMore(before, mid, nodes, f, mMax, id, Ids(candidates[..i]), candidates[i].id, layer);
        OnlyLayerTrans(before, mid, nodes, layer);
      }
    }

    /** Layer by layer down to the lowest. */
    method LinkAll(id: Id, start: Candidate, top: nat) returns (ghost starts: seq<Id>)
      requires m >= 1 && mMax == 2 * m && efConst >= 1 && Structure(nodes, mMax, used) && id in nodes && nodes[id].level >= top
      requires GoodEntry(nodes, f, nodes[id].vector, id, top, start)
      requires Unlinked(nodes, id, top) && Bare(nodes, id, top)
      modifies `nodes
      ensures Structure(nodes, mMax, used) && SameNodes(old(nodes), nodes)
      ensures LayersLinked(old(nodes), nodes, f, efConst, m, mMax, id, top, -1, starts) && starts[0] == start.id
    {
      ghost var base := nodes;
      var entry, l: int := start, top;
      starts := [start.id];
      while l >= 0
        invariant -1 <= l <= top && Structure(nodes, mMax, used) && SameNodes(base, nodes)
        invariant GoodEntry(nodes, f, nodes[id].vector, id, l, entry)
        invariant Unlinked(nodes, id, l) && Bare(nodes, id, l)
        invariant LayersLinked(base, nodes, f, efConst, m, mMax, id, top, l, starts)
        invariant starts[0] == start.id && starts[top - l] == entry.id
      {
        ghost var before := nodes;
        var next := LinkLayer(id, entry, l);
        StaysUnlinked(before, nodes, id, l);
        StaysBare(before, nodes, id, l);
        LayersMore(base, before, nodes, f, efConst, m, mMax, id, top, l, starts, next.id);
        starts := starts + [next.id];
        entry := next;
        l := l - 1;
      }
    }

    /** Insert, for an id that was never used; `level` is the random level.  The empty id stands for no entry. */
    method Insert(id: Id, vector: Vector, level: nat)
      requires Valid() && id !in used
      modifies this
      ensures |vector| != dim || id != NO_ID <==> Valid()
      ensures |vector| != dim ==> nodes == old(nodes) && used == old(used)
      ensures |vector| == dim ==>
                && used == old(used) + {id} && nodes.Keys == old(nodes).Keys + {id}
                && nodes[id].vector == vector && nodes[id].level == level
                && (forall x | x in old(nodes) :: nodes[x].vector == old(nodes)[x].vector && nodes[x].level == old(nodes)[x].level)
      ensures |vector| == dim ==>
                var base := old(nodes)[id := NewNode(vector, level)];
                if old(entryID) == NO_ID then nodes == base && entryID == id && entryLevel == level
                else
                  && LinkedFromTop(base, nodes, f, efConst, m, mMax, id, old(entryID), old(entryLevel))
                  && (if level > old(entryLevel) then entryID == id && entryLevel == level
                      else entryID == old(entryID) && entryLevel == old(entryLevel))
    {
      if |vector| != dim {
        return;
      }
      ghost var before := nodes;
      AddedNode(nodes, mMax, used, id, vector, level);
      nodes := nodes[id := NewNode(vector, level)];
      used := used + {id};
      if entryID == NO_ID {
        entryID, entryLevel := id, level;
        return;
      }
      LinkNew(id, level);
      if level > entryLevel {
        entryID, entryLevel := id, level;
      }
    }

    /** From the entry down to the new node's highest layer, then layer by layer. */
    method LinkNew(id: Id, level: nat)
      requires m >= 1 && mMax == 2 * m && efConst >= 1 && Structure(nodes, mMax, used) && id in nodes && nodes[id].level == level
      requires entryID in nodes && entryID != id && nodes[entryID].level == entryLevel
      requires (forall x, l: nat {:trigger Edges(nodes, x, l)} :: id !in Edges(nodes, x, l))
      requires (forall l: nat {:trigger Edges(nodes, id, l)} :: Edges(nodes, id, l) == {})
      modifies `nodes
      ensures Structure(nodes, mMax, used) && SameNodes(old(nodes), nodes)
      ensures LinkedFromTop(old(nodes), nodes, f, efConst, m, mMax, id, entryID, entryLevel)
    {
      ghost var base := nodes;
      var vector := nodes[id].vector;
      var entry := Candidate(entryID, f(vector, nodes[entryID].vector));
      if entryLevel > level {
        ghost var chain;
        entry, chain := Descend(vector, entry, entryLevel, level, id);
      }
      ghost var starts := LinkAll(id, entry, if level < entryLevel then level else entryLevel);
      assert StartsFrom(base, f, id, entryID, entryLevel, starts[0]);
    }

    // ---- search ----

    /** The first k of a beam search of the lowest layer, which starts where the descent ends. */
    method Search(query: Vector, k: int) returns (r: seq<Candidate>)
      requires Valid()
      ensures |query| != dim || k <= 0 || nodes == map[] ==> r == []
      ensures |query| == dim && k > 0 && nodes != map[] ==>
                && 1 <= |r| <= k
                && TrueDistances(nodes, f, query, r) && DistinctIds(r) && Ascending(r)
                && FirstOfSearch(nodes, f, query, entryID, entryLevel, if efSearch < k then k else efSearch, k, r)
    {
      if |query| != dim || k <= 0 || nodes == map[] {
        return [];
      }
      assert nodes.Keys != {};
      var entry := Candidate(entryID, f(query, nodes[entryID].vector));
      NoEdgeToNoId(nodes, mMax, used, entryLevel);
      ghost var chain;
      entry, chain := Descend(query, entry, entryLevel, 0, NO_ID);
      r := SearchLowest(query, entry, if efSearch < k then k else efSearch, k, chain);
    }

    method SearchLowest(query: Vector, entry: Candidate, ef: nat, k: nat, ghost chain: seq<Id>) returns (r: seq<Candidate>)
      requires ef >= 1 && k >= 1 && entry.id in nodes && entry.dist == f(query, nodes[entry.id].vector)
      requires Descent(nodes, f, query, entryID, entryLevel, 0, chain) && chain[entryLevel] == entry.id
      ensures 1 <= |r| <= k && TrueDistances(nodes, f, query, r) && DistinctIds(r) && Ascending(r)
      ensures FirstOfSearch(nodes, f, query, entryID, entryLevel, ef, k, r)
    {
      var candidates := SearchLayer(nodes, f, entry, query, ef, 0);
      r := if |candidates| > k then candidates[..k] else candidates;
      IsFirst(nodes, f, query, entryID, entryLevel, chain, ef, k, candidates, r);
    }

    // ---- deletion ----

    method RemoveEdge(from: Id, to: Id, layer: nat)
      requires Structure(nodes, mMax, used)
      modifies `nodes
      ensures Structure(nodes, mMax, used) && Thinned(old(nodes), nodes, to, {(from, layer)})
    {
      if from in nodes && layer < |nodes[from].connections| {
        ghost var before := nodes;
        var less := nodes[from].connections[layer] - {to};
        nodes := WithEdges(nodes, from, layer, less);
        FewerEdges(before, mMax, used, from, layer, to);
      }
    }

    method RemoveEdges(node: Node, id: Id, layer: nat)
      requires layer < |node.connections| && Structure(nodes, mMax, used)
      modifies `nodes
      ensures Structure(nodes, mMax, used) && Thinned(old(nodes), nodes, id, On(node.connections[layer], layer))
    {
      var rest := node.connections[layer];
      while rest != {}
        invariant rest <= node.connections[layer]
        invariant Structure(nodes, mMax, used) && Thinned(old(nodes), nodes, id, On(node.connections[layer] - rest, layer))
        decreases |rest|
      {
        var nb :| nb in rest;
        ghost var before, done := nodes, node.connections[layer] - rest;
        rest := rest - {nb};
        RemoveEdge(nb, id, layer);
        ThinnedTrans(old(nodes), before, nodes, id, On(done, layer), {(nb, layer)});
        assert On(node.connections[layer] - rest, layer) == On(done, layer) + {(nb, layer)};
      }
      assert node.connections[layer] - rest == node.connections[layer];
    }

    /** Takes the node out, and out of the lists of its own neighbours; other edges to it may dangle. */
    method Delete(id: Id)
      requires Valid()
      modifies this
      ensures Valid() && used == old(used)
      ensures id !in old(nodes) ==> nodes == old(nodes) && entryID == old(entryID)
      ensures id != old(entryID) ==> entryID == old(entryID) && entryLevel == old(entryLevel)
      ensures id in old(nodes) ==>
                && nodes.Keys == old(nodes).Keys - {id}
                && (forall x | x in nodes :: nodes[x].vector == old(nodes)[x].vector && nodes[x].level == old(nodes)[x].level)
                && (forall x, l: nat | x in nodes ::
                      Edges(nodes, x, l) == if x in Edges(old(nodes), id, l) then Edges(old(nodes), x, l) - {id} else Edges(old(nodes), x, l))
    {
      if id !in nodes {
        return;
      }
      ghost var before := nodes;
      var node := nodes[id];
      ghost var gone: set<(Id, nat)> := {};
      for l := 0 to node.level + 1
        invariant unchanged(`entryID) && unchanged(`entryLevel) && unchanged(`used)
        invariant Structure(nodes, mMax, used) && Thinned(before, nodes, id, gone) && |node.connections| == node.level + 1
        invariant forall x, k: nat :: (x, k) in gone <==> k < l && x in node.connections[k]
      {
        ghost var mid, more := nodes, On(node.connections[l], l);
        RemoveEdges(node, id, l);
        ThinnedTrans(before, mid, nodes, id, gone, more);
        gone := gone + more;
      }
      ghost var thin := nodes;
      nodes := nodes - {id};
      WithoutNode(thin, mMax, used, id);
      GoneIsOwn(before, id, gone);
      if entryID == id {
        PickEntry();
      } else {
        assert entryID in nodes;
      }
    }

    method PickEntry()
      requires NO_ID !in nodes
      modifies `entryID, `entryLevel
      ensures EntryOk(nodes, entryID, entryLevel)
    {
      entryID, entryLevel := NO_ID, 0;
      var rest := nodes.Keys;
      while rest != {}
        invariant rest <= nodes.Keys
        invariant if rest == nodes.Keys then entryID == NO_ID && entryLevel == 0
                  else entryID in nodes && nodes[entryID].level == entryLevel
                       && forall x | x in nodes.Keys - rest :: nodes[x].level <= entryLevel
        decreases |rest|
      {
        var x :| x in rest;
        if entryID == NO_ID || nodes[x].level > entryLevel {
          entryID, entryLevel := x, nodes[x].level;
        }
        rest := rest - {x};
      }
    }
  }

  // ---- what a search promises ----

  /** The first k results of a beam search of the lowest layer, from the node at which the descent from the entry ends. */
  ghost predicate FirstOfSearch(nodes: Nodes, f: Distance, query: Vector, entry: Id, top: nat, ef: nat, k: nat, r: seq<Candidate>) {
    exists chain, full ::
      && Descent(nodes, f, query, entry, top, 0, chain)
      && LayerAnswer(nodes, f, chain[top], query, ef, 0, full) && r == full[..if |full| > k then k else |full|]
  }

  /** Every node can be reached from every other on the lowest layer. */
  ghost predicate Connected(nodes: Nodes) {
    forall a, b | a in nodes && b in nodes :: Reachable(nodes, 0, a, b)
  }

  /** On a connected lowest layer, with a beam as wide as the index, search is exact. */
  lemma ExactWhenConnected(nodes: Nodes, f: Distance, query: Vector, entry: Id, top: nat, ef: nat, k: nat, r: seq<Candidate>, id: Id)
    requires Connected(nodes) && |nodes| <= ef && k >= 1 && FirstOfSearch(nodes, f, query, entry, top, ef, k, r)
    requires id in nodes && !HasId(r, id)
    ensures |r| == k && f(query, nodes[id].vector) >= r[k - 1].dist
  {
    var chain, full :|
      && Descent(nodes, f, query, entry, top, 0, chain)
      && LayerAnswer(nodes, f, chain[top], query, ef, 0, full) && r == full[..if |full| > k then k else |full|];
    ExactFrom(nodes, f, query, chain[top], ef, k, full, r, id);
  }

  lemma ExactFrom(nodes: Nodes, f: Distance, query: Vector, e: Id, ef: nat, k: nat, full: seq<Candidate>, r: seq<Candidate>, id: Id)
    requires Connected(nodes) && |nodes| <= ef && k >= 1 && id in nodes && !HasId(r, id)
    requires LayerAnswer(nodes, f, e, query, ef, 0, full) && r == full[..if |full| > k then k else |full|]
    ensures |r| == k && f(query, nodes[id].vector) >= r[k - 1].dist
  {
    assert ReachableSet(nodes, 0, e) == nodes.Keys;
    FindsAllReachable(nodes, f, e, query, ef, 0, full);
    assert HasId(full, id) && full[..|full|] == full;
    FirstAreNearest(nodes, f, e, query, ef, 0, full, k, id);
  }

  lemma IsFirst(nodes: Nodes, f: Distance, query: Vector, entry: Id, top: nat, chain: seq<Id>, ef: nat, k: nat,
                full: seq<Candidate>, r: seq<Candidate>)
    requires k >= 1 && Descent(nodes, f, query, entry, top, 0, chain) && LayerAnswer(nodes, f, chain[top], query, ef, 0, full)
    requires r == if |full| > k then full[..k] else full
    ensures FirstOfSearch(nodes, f, query, entry, top, ef, k, r)
    ensures 1 <= |r| <= k && TrueDistances(nodes, f, query, r) && DistinctIds(r) && Ascending(r)
  {
    assert full[..|full|] == full;
  }

  lemma NoEdgeToNoId(nodes: Nodes, max: nat, used: set<Id>, layer: int)
    requires Structure(nodes, max, used) && NO_ID !in used
    ensures Unlinked(nodes, NO_ID, layer)
  {
  }

  // ---- what a deletion relies on ----

  /** Nothing changed but that the edges to the id from these nodes on these layers are gone. */
  ghost predicate Thinned(nodes: Nodes, nodes': Nodes, id: Id, gone: set<(Id, nat)>) {
    && SameNodes(nodes, nodes')
    && forall x, l: nat {:trigger Edges(nodes', x, l)} ::
         Edges(nodes', x, l) == if (x, l) in gone then Edges(nodes, x, l) - {id} else Edges(nodes, x, l)
  }

  function On(ids: set<Id>, layer: nat): set<(Id, nat)> {
    set x | x in ids :: (x, layer)
  }

  lemma ThinnedTrans(a: Nodes, b: Nodes, c: Nodes, id: Id, gone: set<(Id, nat)>, more: set<(Id, nat)>)
    requires Thinned(a, b, id, gone) && Thinned(b, c, id, more)
    ensures Thinned(a, c, id, gone + more)
  {
    forall x, l: nat
      ensures Edges(c, x, l) == if (x, l) in gone + more then Edges(a, x, l) - {id} else Edges(a, x, l)
    {
      assert Edges(b, x, l) == if (x, l) in gone then Edges(a, x, l) - {id} else Edges(a, x, l);
    }
  }

  /** The nodes on the lists of a node. */
  lemma GoneIsOwn(nodes: Nodes, id: Id, gone: set<(Id, nat)>)
    requires id in nodes && |nodes[id].connections| == nodes[id].level + 1
    requires forall x, k: nat :: (x, k) in gone <==> k < nodes[id].level + 1 && x in nodes[id].connections[k]
    ensures forall x, k: nat :: (x, k) in gone <==> x in Edges(nodes, id, k)
  {
  }

  lemma FewerEdges(nodes: Nodes, max: nat, used: set<Id>, from: Id, layer: nat, to: Id)
    requires Structure(nodes, max, used) && from in nodes && layer < |nodes[from].connections|
    ensures var nodes' := WithEdges(nodes, from, layer, nodes[from].connections[layer] - {to});
            Structure(nodes', max, used) && Thinned(nodes, nodes', to, {(from, layer)})
  {
    var own := Edges(nodes, from, layer);
    var less := own - {to};
    assert |own| == |less| + |own * {to}| by {
      assert own == less + own * {to};
    }
    forall x | x in less ensures EdgeOk(nodes, from, layer, x) {
      assert x in Edges(nodes, from, layer);
    }
    assert |own| <= max;
    WithEdgesKeeps(nodes, from, layer, less, max, used);
    forall x, l: nat
      ensures Edges(WithEdges(nodes, from, layer, less), x, l) == if (x, l) in {(from, layer)} then own - {to} else Edges(nodes, x, l)
    {
      EdgesAfter(nodes, from, layer, less, x, l);
    }
  }

  lemma WithoutNode(nodes: Nodes, max: nat, used: set<Id>, id: Id)
    requires Structure(nodes, max, used)
    ensures Structure(nodes - {id}, max, used)
    ensures forall x, l: nat {:trigger Edges(nodes - {id}, x, l)} :: Edges(nodes - {id}, x, l) == if x == id then {} else Edges(nodes, x, l)
  {
    var nodes' := nodes - {id};
    forall x, l: nat ensures Edges(nodes', x, l) == if x == id then {} else Edges(nodes, x, l) {
    }
    forall x, l: nat, y | y in Edges(nodes', x, l) ensures EdgeOk(nodes', x, l, y) && y in used {
      assert EdgeOk(nodes, x, l, y);
    }
    forall x, l: nat ensures |Edges(nodes', x, l)| <= max {
      assert |Edges(nodes, x, l)| <= max;
    }
  }

  // ---- what an insertion relies on ----

  /** Linking the new node on one layer leaves it unlinked below. */
  lemma StaysUnlinked(nodes: Nodes, nodes': Nodes, id: Id, layer: nat)
    requires OnlyLayer(nodes, nodes', layer) && Unlinked(nodes, id, layer)
    ensures Unlinked(nodes', id, layer - 1)
  {
    forall x, l: nat | l <= layer - 1 ensures id !in Edges(nodes', x, l) {
      assert Edges(nodes', x, l) == Edges(nodes, x, l);
    }
  }

  /** The node has no edges on layers up to `layer`. */
  ghost predicate Bare(nodes: Nodes, id: Id, layer: int) {
    forall k: nat | k <= layer :: Edges(nodes, id, k) == {}
  }

  lemma StaysBare(nodes: Nodes, nodes': Nodes, id: Id, layer: nat)
    requires OnlyLayer(nodes, nodes', layer) && Bare(nodes, id, layer)
    ensures Bare(nodes', id, layer - 1)
  {
    forall k: nat | k <= layer - 1 ensures Edges(nodes', id, k) == {} {
      assert Edges(nodes', id, k) == Edges(nodes, id, k);
    }
  }

  lemma LayerOnly(nodes: Nodes, id: Id, layer: nat, to: set<Id>)
    requires id in nodes && layer < |nodes[id].connections|
    ensures OnlyLayer(nodes, WithEdges(nodes, id, layer, to), layer)
    ensures Edges(WithEdges(nodes, id, layer, to), id, layer) == to
  {
    forall x, l: nat | l != layer ensures Edges(WithEdges(nodes, id, layer, to), x, l) == Edges(nodes, x, l) {
      EdgesAfter(nodes, id, layer, to, x, l);
    }
  }

  lemma SameEdgesAfter(before: Nodes, linked: Nodes, id: Id, nb: Id, layer: nat, own: set<Id>)
    requires id in before && nb in before && id != nb && layer < |before[id].connections| && linked == WithEdges(before, id, layer, own)
    ensures Edges(linked, nb, layer) == Edges(before, nb, layer) && SameNodes(linked, before)
  {
    EdgesAfter(before, id, layer, own, nb, layer);
  }

  lemma Repruned(nodes: Nodes, id: Id, layer: nat, a: set<Id>, b: set<Id>)
    requires id in nodes && layer < |nodes[id].connections|
    ensures WithEdges(WithEdges(nodes, id, layer, a), id, layer, b) == WithEdges(nodes, id, layer, b)
    ensures WithEdges(nodes, id, layer, a).Keys == nodes.Keys
  {
    var c := nodes[id].connections;
    assert c[layer := a][layer := b] == c[layer := b];
  }

  lemma TheirsOk(nodes: Nodes, max: nat, used: set<Id>, id: Id, nb: Id, layer: nat, final: set<Id>)
    requires Structure(nodes, max, used) && id in nodes && nb in nodes && id != nb && nodes[id].level >= layer
    requires final <= Edges(nodes, nb, layer) + {id}
    ensures final <= used && forall x | x in final :: EdgeOk(nodes, nb, layer, x)
  {
    forall x | x in final ensures x in used && EdgeOk(nodes, nb, layer, x) {
      if x != id {
        assert x in Edges(nodes, nb, layer);
      }
    }
  }
}
