/**
 The layered proximity graph (internal/vector/hnsw.go) as a value: nodes, layers, candidate lists,
 and what one layer search must return.  Distances are real numbers from a given function.
 */
module HnswGraph {
  type Id = string

  type Vector = seq<real>

  type Distance = (Vector, Vector) -> real

  // connections[l] holds the ids of the neighbours on layer l.
  datatype Node = Node(vector: Vector, level: nat, connections: seq<set<Id>>)

  type Nodes = map<Id, Node>

  datatype Candidate = Candidate(id: Id, dist: real)

  /** The edges out of a node on a layer; a node that is gone or too low has none. */
  function Edges(nodes: Nodes, id: Id, layer: nat): set<Id> {
    if id in nodes && layer < |nodes[id].connections| then nodes[id].connections[layer] else {}
  }

  // ---- candidate lists ----

  ghost predicate Ascending(r: seq<Candidate>) {
    forall i, j | 0 <= i < j < |r| :: r[i].dist <= r[j].dist
  }

  ghost predicate DistinctIds(r: seq<Candidate>) {
    forall i, j | 0 <= i < j < |r| :: r[i].id != r[j].id
  }

  ghost predicate HasId(r: seq<Candidate>, id: Id) {
    exists i :: 0 <= i < |r| && r[i].id == id
  }

  /** Live ids with their true distances from the query. */
  ghost predicate TrueDistances(nodes: Nodes, f: Distance, query: Vector, r: seq<Candidate>) {
    forall i | 0 <= i < |r| :: r[i].id in nodes && r[i].dist == f(query, nodes[r[i].id].vector)
  }

  ghost predicate InsertedAt(r: seq<Candidate>, item: Candidate, out: seq<Candidate>, pos: nat) {
    && pos <= |r| && |out| == |r| + 1 && out[pos] == item
    && (forall i | 0 <= i < pos :: out[i] == r[i])
    && (forall i | pos < i < |out| :: out[i] == r[i - 1])
    && (forall i | 0 <= i < pos :: r[i].dist <= item.dist)
    && (forall i | pos <= i < |r| :: r[i].dist > item.dist)
  }

  /** insertSorted: behind every element that is not farther, found by binary search. */
  method InsertSorted(r: seq<Candidate>, item: Candidate) returns (out: seq<Candidate>, ghost pos: nat)
    requires Ascending(r)
    ensures InsertedAt(r, item, out, pos)
    ensures Ascending(out)
  {
    var i, j := 0, |r|;
    while i < j
      invariant 0 <= i <= j <= |r|
      invariant forall k | 0 <= k < i :: r[k].dist <= item.dist
      invariant forall k | j <= k < |r| :: r[k].dist > item.dist
    {
      var h := (i + j) / 2;
      if r[h].dist > item.dist {
        j := h;
      } else {
        i := h + 1;
      }
    }
    pos := i;
    out := r[..i] + [item] + r[i..];
  }

  lemma InsertedIds(r: seq<Candidate>, item: Candidate, out: seq<Candidate>, pos: nat, id: Id)
    requires InsertedAt(r, item, out, pos)
    ensures HasId(out, id) <==> HasId(r, id) || id == item.id
  {
    if HasId(r, id) {
      var i :| 0 <= i < |r| && r[i].id == id;
      var j := if i < pos then i else i + 1;
      assert out[j] == r[i];
    }
    if id == item.id {
      assert out[pos].id == id;
    }
    if HasId(out, id) && id != item.id {
      var i :| 0 <= i < |out| && out[i].id == id;
      var j := if i < pos then i else i - 1;
      assert out[i] == r[j];
    }
  }

  lemma InsertedDistinct(r: seq<Candidate>, item: Candidate, out: seq<Candidate>, pos: nat)
    requires InsertedAt(r, item, out, pos) && DistinctIds(r) && !HasId(r, item.id)
    ensures DistinctIds(out)
  {
    forall i, j | 0 <= i < j < |out| ensures out[i].id != out[j].id {
      var k, l := if i < pos then i else i - 1, if j < pos then j else j - 1;
      assert i != pos ==> out[i] == r[k];
      assert j != pos ==> out[j] == r[l];
    }
  }

  // ---- what a layer search returns ----

  /** The node is among the results, or no nearer than the last of a full list. */
  ghost predicate Covered(r: seq<Candidate>, ef: nat, id: Id, dist: real) {
    HasId(r, id) || (|r| == ef && ef > 0 && dist >= r[|r| - 1].dist)
  }

  ghost predicate IsPath(nodes: Nodes, layer: nat, path: seq<Id>) {
    && path != []
    && (forall i | 0 <= i < |path| :: path[i] in nodes)
    && (forall i | 0 <= i < |path| - 1 :: path[i + 1] in Edges(nodes, path[i], layer))
  }

  /** Some path over live nodes on the layer leads from a to b. */
  ghost predicate Reachable(nodes: Nodes, layer: nat, a: Id, b: Id) {
    exists path :: IsPath(nodes, layer, path) && path[0] == a && path[|path| - 1] == b
  }

  ghost predicate AllReachable(nodes: Nodes, layer: nat, a: Id, r: seq<Candidate>) {
    forall i | 0 <= i < |r| :: Reachable(nodes, layer, a, r[i].id)
  }

  /** Every live neighbour of a result is covered. */
  ghost predicate Closed(nodes: Nodes, f: Distance, query: Vector, ef: nat, layer: nat, r: seq<Candidate>) {
    forall i, n | 0 <= i < |r| && n in nodes && n in Edges(nodes, r[i].id, layer) :: Covered(r, ef, n, f(query, nodes[n].vector))
  }

  ghost predicate LayerAnswer(nodes: Nodes, f: Distance, entry: Id, query: Vector, ef: nat, layer: nat, r: seq<Candidate>) {
    && 1 <= |r| <= ef
    && TrueDistances(nodes, f, query, r) && DistinctIds(r) && Ascending(r)
    && entry in nodes && Covered(r, ef, entry, f(query, nodes[entry].vector))
    && Closed(nodes, f, query, ef, layer, r)
    && AllReachable(nodes, layer, entry, r)
  }

  lemma SelfReachable(nodes: Nodes, layer: nat, a: Id)
    requires a in nodes
    ensures Reachable(nodes, layer, a, a)
  {
    assert IsPath(nodes, layer, [a]);
  }

  lemma ReachFurther(nodes: Nodes, layer: nat, a: Id, b: Id, c: Id)
    requires Reachable(nodes, layer, a, b) && c in nodes && c in Edges(nodes, b, layer)
    ensures Reachable(nodes, layer, a, c)
  {
    var path :| IsPath(nodes, layer, path) && path[0] == a && path[|path| - 1] == b;
    var longer := path + [c];
    assert IsPath(nodes, layer, longer) && longer[|longer| - 1] == c;
  }

  /** A reachable node other than the start is somebody's neighbour on the layer. */
  lemma ReachedByEdge(nodes: Nodes, layer: nat, a: Id, b: Id)
    requires Reachable(nodes, layer, a, b)
    ensures a in nodes && b in nodes
    ensures a == b || exists x :: x in nodes && b in Edges(nodes, x, layer)
  {
    var path :| IsPath(nodes, layer, path) && path[0] == a && path[|path| - 1] == b;
    if |path| > 1 {
      assert path[|path| - 2 + 1] in Edges(nodes, path[|path| - 2], layer);
    }
  }

  // ---- exactness when the list is long enough ----

  ghost function ReachableSet(nodes: Nodes, layer: nat, entry: Id): set<Id> {
    set id | id in nodes && Reachable(nodes, layer, entry, id)
  }

  function Ids(r: seq<Candidate>): set<Id> {
    if r == [] then {} else Ids(r[..|r| - 1]) + {r[|r| - 1].id}
  }

  lemma {:induction false} IdsAre(r: seq<Candidate>, id: Id)
    ensures id in Ids(r) <==> HasId(r, id)
  {
    if r != [] {
      var front, last := r[..|r| - 1], r[|r| - 1];
      IdsAre(front, id);
      if HasId(front, id) {
        var i :| 0 <= i < |front| && front[i].id == id;
        assert r[i].id == id;
      }
      if HasId(r, id) && id != last.id {
        var i :| 0 <= i < |r| && r[i].id == id;
        assert front[i].id == id;
      }
      if id == last.id {
        assert r[|r| - 1].id == id;
      }
    }
  }

  lemma {:induction false} IdsCount(r: seq<Candidate>)
    requires DistinctIds(r)
    ensures |Ids(r)| == |r|
  {
    if r != [] {
      var front, last := r[..|r| - 1], r[|r| - 1];
      IdsCount(front);
      IdsAre(front, last.id);
    }
  }

  lemma SubsetSize(a: set<Id>, b: set<Id>)
    requires a <= b
    ensures |a| <= |b|
  {
    assert b == a + (b - a);
  }

  /** A list as long as the reachable part leaves no covered node out. */
  lemma CoveredIsIn(nodes: Nodes, f: Distance, entry: Id, query: Vector, ef: nat, layer: nat, r: seq<Candidate>, id: Id)
    requires LayerAnswer(nodes, f, entry, query, ef, layer, r) && |ReachableSet(nodes, layer, entry)| <= ef
    requires Reachable(nodes, layer, entry, id) && id in nodes && Covered(r, ef, id, f(query, nodes[id].vector))
    ensures HasId(r, id)
  {
    if !HasId(r, id) {
      IdsAre(r, id);
      IdsCount(r);
      forall x | x in Ids(r) + {id} ensures x in ReachableSet(nodes, layer, entry) {
        if x != id {
          IdsAre(r, x);
          var i :| 0 <= i < |r| && r[i].id == x;
        }
      }
      SubsetSize(Ids(r) + {id}, ReachableSet(nodes, layer, entry));
    }
  }

  lemma {:induction false} PathIsIn(nodes: Nodes, f: Distance, entry: Id, query: Vector, ef: nat, layer: nat, r: seq<Candidate>, path: seq<Id>)
    requires LayerAnswer(nodes, f, entry, query, ef, layer, r) && |ReachableSet(nodes, layer, entry)| <= ef
    requires IsPath(nodes, layer, path) && path[0] == entry
    ensures HasId(r, path[|path| - 1])
  {
    var last := path[|path| - 1];
    assert Reachable(nodes, layer, entry, last);
    if |path| > 1 {
      var front := path[..|path| - 1];
      PathIsIn(nodes, f, entry, query, ef, layer, r, front);
      var i :| 0 <= i < |r| && r[i].id == front[|front| - 1];
      assert path[|path| - 2 + 1] in Edges(nodes, path[|path| - 2], layer);
    }
    CoveredIsIn(nodes, f, entry, query, ef, layer, r, last);
  }

  /** With room for every node reachable from the entry, the results are exactly these nodes. */
  lemma FindsAllReachable(nodes: Nodes, f: Distance, entry: Id, query: Vector, ef: nat, layer: nat, r: seq<Candidate>)
    requires LayerAnswer(nodes, f, entry, query, ef, layer, r) && |ReachableSet(nodes, layer, entry)| <= ef
    ensures forall id :: HasId(r, id) <==> id in ReachableSet(nodes, layer, entry)
  {
    forall id ensures HasId(r, id) <==> id in ReachableSet(nodes, layer, entry) {
      if id in ReachableSet(nodes, layer, entry) {
        var path :| IsPath(nodes, layer, path) && path[0] == entry && path[|path| - 1] == id;
        PathIsIn(nodes, f, entry, query, ef, layer, r, path);
      }
      if HasId(r, id) {
        var i :| 0 <= i < |r| && r[i].id == id;
      }
    }
  }

  /** So the first k of them are the k nearest reachable nodes. */
  lemma FirstAreNearest(nodes: Nodes, f: Distance, entry: Id, query: Vector, ef: nat, layer: nat, r: seq<Candidate>, k: nat, id: Id)
    requires LayerAnswer(nodes, f, entry, query, ef, layer, r) && |ReachableSet(nodes, layer, entry)| <= ef
    requires 1 <= k <= |r| && id in ReachableSet(nodes, layer, entry) && !HasId(r[..k], id)
    ensures f(query, nodes[id].vector) >= r[k - 1].dist
  {
    FindsAllReachable(nodes, f, entry, query, ef, layer, r);
    var i :| 0 <= i < |r| && r[i].id == id;
    forall j | 0 <= j < k ensures HasId(r[..k], r[j].id) {
      assert r[..k][j] == r[j];
    }
  }
}
