/** The beam search of one layer: what its loop keeps. */
module HnswSearch {
  import opened HnswGraph

  /** What the loop of searchLayer keeps of its visited set, frontier and result list. */
  ghost predicate Beam(nodes: Nodes, f: Distance, entry: Id, query: Vector, ef: nat, layer: nat,
                       visited: set<Id>, frontier: seq<Candidate>, dynamic: seq<Candidate>)
  {
    && entry in nodes && entry in visited && 1 <= |dynamic| <= ef
    && Ascending(frontier) && Ascending(dynamic) && DistinctIds(dynamic)
    && TrueDistances(nodes, f, query, frontier) && TrueDistances(nodes, f, query, dynamic)
    && AllReachable(nodes, layer, entry, frontier) && AllReachable(nodes, layer, entry, dynamic)
    && AllVisited(visited, frontier) && AllVisited(visited, dynamic)
    && VisitedCovered(nodes, f, query, ef, visited, dynamic)
  }

  ghost predicate AllVisited(visited: set<Id>, r: seq<Candidate>) {
    forall i | 0 <= i < |r| :: r[i].id in visited
  }

  ghost predicate VisitedCovered(nodes: Nodes, f: Distance, query: Vector, ef: nat, visited: set<Id>, dynamic: seq<Candidate>) {
    forall v | v in visited && v in nodes :: Covered(dynamic, ef, v, f(query, nodes[v].vector))
  }

  ghost predicate Expanded(nodes: Nodes, layer: nat, visited: set<Id>, id: Id) {
    forall n | n in nodes && n in Edges(nodes, id, layer) :: n in visited
  }

  /** Every result is still in the frontier, or being expanded, or has all its neighbours visited. */
  ghost predicate Pending(nodes: Nodes, layer: nat, visited: set<Id>, frontier: seq<Candidate>, dynamic: seq<Candidate>, now: set<Id>) {
    forall i | 0 <= i < |dynamic| ::
      HasId(frontier, dynamic[i].id) || dynamic[i].id in now || Expanded(nodes, layer, visited, dynamic[i].id)
  }

  // ---- start ----

  lemma Started(nodes: Nodes, f: Distance, entry: Candidate, query: Vector, ef: nat, layer: nat)
    requires ef >= 1 && entry.id in nodes && entry.dist == f(query, nodes[entry.id].vector)
    ensures Beam(nodes, f, entry.id, query, ef, layer, {entry.id}, [entry], [entry])
    ensures Pending(nodes, layer, {entry.id}, [entry], [entry], {})
  {
    SelfReachable(nodes, layer, entry.id);
    assert [entry][0].id == entry.id;
  }

  // ---- taking the nearest candidate ----

  lemma Popped(nodes: Nodes, f: Distance, entry: Id, query: Vector, ef: nat, layer: nat,
               visited: set<Id>, frontier: seq<Candidate>, dynamic: seq<Candidate>)
    requires Beam(nodes, f, entry, query, ef, layer, visited, frontier, dynamic) && frontier != []
    requires Pending(nodes, layer, visited, frontier, dynamic, {})
    ensures Beam(nodes, f, entry, query, ef, layer, visited, frontier[1..], dynamic)
    ensures Pending(nodes, layer, visited, frontier[1..], dynamic, {frontier[0].id})
  {
    var rest := frontier[1..];
    assert forall i | 0 <= i < |rest| :: rest[i] == frontier[i + 1];
    forall i | 0 <= i < |dynamic| && HasId(frontier, dynamic[i].id)
      ensures HasId(rest, dynamic[i].id) || dynamic[i].id == frontier[0].id
    {
      var j :| 0 <= j < |frontier| && frontier[j].id == dynamic[i].id;
      assert j > 0 ==> rest[j - 1].id == dynamic[i].id;
    }
  }

  /** When the nearest candidate is farther than a full list reaches, every result has been expanded. */
  lemma CutOff(nodes: Nodes, f: Distance, entry: Id, query: Vector, ef: nat, layer: nat,
               visited: set<Id>, frontier: seq<Candidate>, dynamic: seq<Candidate>)
    requires Beam(nodes, f, entry, query, ef, layer, visited, frontier, dynamic) && frontier != []
    requires Pending(nodes, layer, visited, frontier, dynamic, {})
    requires frontier[0].dist > dynamic[|dynamic| - 1].dist
    ensures Pending(nodes, layer, visited, [], dynamic, {})
  {
    forall i | 0 <= i < |dynamic| ensures Expanded(nodes, layer, visited, dynamic[i].id) {
      NotInFrontier(nodes, f, query, frontier, dynamic, i);
    }
  }

  lemma NotInFrontier(nodes: Nodes, f: Distance, query: Vector, frontier: seq<Candidate>, dynamic: seq<Candidate>, i: nat)
    requires TrueDistances(nodes, f, query, frontier) && TrueDistances(nodes, f, query, dynamic)
    requires Ascending(frontier) && Ascending(dynamic) && frontier != [] && i < |dynamic|
    requires frontier[0].dist > dynamic[|dynamic| - 1].dist
    ensures !HasId(frontier, dynamic[i].id)
  {
    forall j | 0 <= j < |frontier| ensures frontier[j].id != dynamic[i].id {
      assert frontier[j].dist >= frontier[0].dist && dynamic[i].dist <= dynamic[|dynamic| - 1].dist;
    }
  }

  // ---- visiting a neighbour ----

  /** A neighbour that is gone, or too far for a full list. */
  lemma Skipped(nodes: Nodes, f: Distance, entry: Id, query: Vector, ef: nat, layer: nat,
                visited: set<Id>, frontier: seq<Candidate>, dynamic: seq<Candidate>, now: set<Id>, n: Id)
    requires Beam(nodes, f, entry, query, ef, layer, visited, frontier, dynamic)
    requires Pending(nodes, layer, visited, frontier, dynamic, now)
    requires n in nodes ==> |dynamic| >= ef && f(query, nodes[n].vector) >= dynamic[|dynamic| - 1].dist
    ensures Beam(nodes, f, entry, query, ef, layer, visited + {n}, frontier, dynamic)
    ensures Pending(nodes, layer, visited + {n}, frontier, dynamic, now)
  {
    forall i | 0 <= i < |dynamic| && Expanded(nodes, layer, visited, dynamic[i].id)
      ensures Expanded(nodes, layer, visited + {n}, dynamic[i].id)
    {
    }
  }

  function Cut(r: seq<Candidate>, ef: nat): seq<Candidate> {
    if |r| > ef then r[..ef] else r
  }

  /** A covered node stays covered when the list takes a new element and drops its last. */
  lemma StaysCovered(nodes: Nodes, f: Distance, query: Vector, ef: nat, dynamic: seq<Candidate>, item: Candidate,
                     out: seq<Candidate>, pos: nat, id: Id)
    requires TrueDistances(nodes, f, query, dynamic) && Ascending(dynamic) && 1 <= |dynamic| <= ef
    requires InsertedAt(dynamic, item, out, pos) && Ascending(out)
    requires id in nodes && Covered(dynamic, ef, id, f(query, nodes[id].vector))
    ensures Covered(Cut(out, ef), ef, id, f(query, nodes[id].vector))
  {
    var d := f(query, nodes[id].vector);
    if HasId(dynamic, id) {
      InsertedIds(dynamic, item, out, pos, id);
      var i :| 0 <= i < |dynamic| && dynamic[i].id == id;
      var j := if i < pos then i else i + 1;
      assert out[j] == dynamic[i];
      InCut(out, ef, j);
    } else {
      assert |out| > ef;
      assert out[|out| - 1].dist == if pos == |dynamic| then item.dist else dynamic[|dynamic| - 1].dist;
    }
  }

  /** An element of a list that grew by one is kept by the cut, or was its last. */
  lemma InCut(out: seq<Candidate>, ef: nat, j: nat)
    requires Ascending(out) && j < |out| <= ef + 1 && ef >= 1
    ensures Covered(Cut(out, ef), ef, out[j].id, out[j].dist)
  {
    var r := Cut(out, ef);
    if j < |r| {
      assert r[j].id == out[j].id;
    }
  }

  lemma CutShape(nodes: Nodes, f: Distance, entry: Id, query: Vector, layer: nat, visited: set<Id>, ef: nat, r: seq<Candidate>)
    requires Ascending(r) && DistinctIds(r) && TrueDistances(nodes, f, query, r) && AllReachable(nodes, layer, entry, r)
    requires AllVisited(visited, r)
    ensures var c := Cut(r, ef);
            && Ascending(c) && DistinctIds(c) && TrueDistances(nodes, f, query, c) && AllReachable(nodes, layer, entry, c)
            && AllVisited(visited, c)
  {
  }

  lemma InsertedShape(nodes: Nodes, f: Distance, entry: Id, query: Vector, layer: nat, visited: set<Id>,
                      r: seq<Candidate>, item: Candidate, out: seq<Candidate>, pos: nat)
    requires InsertedAt(r, item, out, pos)
    requires TrueDistances(nodes, f, query, r) && AllReachable(nodes, layer, entry, r) && AllVisited(visited, r)
    requires item.id in nodes && item.dist == f(query, nodes[item.id].vector) && Reachable(nodes, layer, entry, item.id)
    ensures TrueDistances(nodes, f, query, out) && AllReachable(nodes, layer, entry, out) && AllVisited(visited + {item.id}, out)
  {
    forall i | 0 <= i < |out|
      ensures out[i].id in nodes && out[i].dist == f(query, nodes[out[i].id].vector)
              && Reachable(nodes, layer, entry, out[i].id) && out[i].id in visited + {item.id}
    {
      if i < pos {
        assert out[i] == r[i];
      } else if i > pos {
        assert out[i] == r[i - 1];
      }
    }
  }

  /** The new frontier and the new results after taking in an unvisited neighbour. */
  lemma Taken(nodes: Nodes, f: Distance, entry: Id, query: Vector, ef: nat, layer: nat,
              visited: set<Id>, frontier: seq<Candidate>, dynamic: seq<Candidate>, item: Candidate,
              frontier': seq<Candidate>, p: nat, out: seq<Candidate>, q: nat)
    requires Beam(nodes, f, entry, query, ef, layer, visited, frontier, dynamic) && item.id !in visited
    requires item.id in nodes && item.dist == f(query, nodes[item.id].vector) && Reachable(nodes, layer, entry, item.id)
    requires InsertedAt(frontier, item, frontier', p) && Ascending(frontier')
    requires InsertedAt(dynamic, item, out, q) && Ascending(out)
    ensures Beam(nodes, f, entry, query, ef, layer, visited + {item.id}, frontier', Cut(out, ef))
  {
    InsertedShape(nodes, f, entry, query, layer, visited, frontier, item, frontier', p);
    InsertedShape(nodes, f, entry, query, layer, visited, dynamic, item, out, q);
    NotVisitedNotIn(visited, dynamic, item.id);
    InsertedDistinct(dynamic, item, out, q);
    CutShape(nodes, f, entry, query, layer, visited + {item.id}, ef, out);
    forall v | v in visited + {item.id} && v in nodes ensures Covered(Cut(out, ef), ef, v, f(query, nodes[v].vector)) {
      if v == item.id {
        InCut(out, ef, q);
      } else {
        StaysCovered(nodes, f, query, ef, dynamic, item, out, q, v);
      }
    }
  }

  lemma NotVisitedNotIn(visited: set<Id>, r: seq<Candidate>, id: Id)
    requires AllVisited(visited, r) && id !in visited
    ensures !HasId(r, id)
  {
  }

  lemma TakenPending(nodes: Nodes, ef: nat, layer: nat, visited: set<Id>, frontier: seq<Candidate>, dynamic: seq<Candidate>,
                     now: set<Id>, item: Candidate, frontier': seq<Candidate>, p: nat, out: seq<Candidate>, q: nat)
    requires Pending(nodes, layer, visited, frontier, dynamic, now)
    requires InsertedAt(frontier, item, frontier', p) && InsertedAt(dynamic, item, out, q)
    ensures Pending(nodes, layer, visited + {item.id}, frontier', Cut(out, ef), now)
  {
    var cut := Cut(out, ef);
    forall i | 0 <= i < |cut|
      ensures HasId(frontier', cut[i].id) || cut[i].id in now || Expanded(nodes, layer, visited + {item.id}, cut[i].id)
    {
      InsertedIds(frontier, item, frontier', p, cut[i].id);
      if i != q {
        var j := if i < q then i else i - 1;
        assert cut[i] == dynamic[j];
      }
    }
  }

  // ---- end ----

  lemma Finished(nodes: Nodes, f: Distance, entry: Id, query: Vector, ef: nat, layer: nat,
                 visited: set<Id>, frontier: seq<Candidate>, dynamic: seq<Candidate>)
    requires Beam(nodes, f, entry, query, ef, layer, visited, frontier, dynamic)
    requires Pending(nodes, layer, visited, [], dynamic, {})
    ensures LayerAnswer(nodes, f, entry, query, ef, layer, dynamic)
  {
    forall i, n | 0 <= i < |dynamic| && n in nodes && n in Edges(nodes, dynamic[i].id, layer)
      ensures Covered(dynamic, ef, n, f(query, nodes[n].vector))
    {
      assert !HasId([], dynamic[i].id);
      assert Expanded(nodes, layer, visited, dynamic[i].id);
    }
  }

  /** searchLayer.  The order in which a node's neighbours are visited is left open. */
  method SearchLayer(nodes: Nodes, f: Distance, entry: Candidate, query: Vector, ef: nat, layer: nat)
    returns (dynamic: seq<Candidate>)
    requires ef >= 1 && entry.id in nodes && entry.dist == f(query, nodes[entry.id].vector)
    ensures LayerAnswer(nodes, f, entry.id, query, ef, layer, dynamic)
  {
    var visited, frontier := {entry.id}, [entry];
    dynamic := [entry];
    Started(nodes, f, entry, query, ef, layer);
    while frontier != []
      invariant Beam(nodes, f, entry.id, query, ef, layer, visited, frontier, dynamic)
      invariant Pending(nodes, layer, visited, frontier, dynamic, {})
      decreases nodes.Keys - visited, |frontier|
    {
      var c := frontier[0];
      if c.dist > dynamic[|dynamic| - 1].dist && |dynamic| >= ef {
        CutOff(nodes, f, entry.id, query, ef, layer, visited, frontier, dynamic);
        break;
      }
      Popped(nodes, f, entry.id, query, ef, layer, visited, frontier, dynamic);
      visited, frontier, dynamic := Expand(nodes, f, entry.id, query, ef, layer, visited, frontier[1..], dynamic, c.id);
    }
    Finished(nodes, f, entry.id, query, ef, layer, visited, frontier, dynamic);
  }

  /** The loop over the neighbours of one node. */
  method Expand(nodes: Nodes, f: Distance, ghost entry: Id, query: Vector, ef: nat, layer: nat,
                visited0: set<Id>, frontier0: seq<Candidate>, dynamic0: seq<Candidate>, id: Id)
    returns (visited: set<Id>, frontier: seq<Candidate>, dynamic: seq<Candidate>)
    requires Beam(nodes, f, entry, query, ef, layer, visited0, frontier0, dynamic0)
    requires Pending(nodes, layer, visited0, frontier0, dynamic0, {id}) && Reachable(nodes, layer, entry, id)
    ensures Beam(nodes, f, entry, query, ef, layer, visited, frontier, dynamic)
    ensures Pending(nodes, layer, visited, frontier, dynamic, {})
    ensures visited0 <= visited
    ensures |frontier| <= |frontier0| || nodes.Keys - visited < nodes.Keys - visited0
  {
    visited, frontier, dynamic := visited0, frontier0, dynamic0;
    var rest := Edges(nodes, id, layer);
    while rest != {}
      invariant rest <= Edges(nodes, id, layer) && Edges(nodes, id, layer) - rest <= visited
      invariant Beam(nodes, f, entry, query, ef, layer, visited, frontier, dynamic)
      invariant Pending(nodes, layer, visited, frontier, dynamic, {id})
      invariant visited0 <= visited
      invariant |frontier| <= |frontier0| || nodes.Keys - visited < nodes.Keys - visited0
      decreases |rest|
    {
      var n :| n in rest;
      rest := rest - {n};
      if n !in visited {
        if n in nodes && (|dynamic| < ef || f(query, nodes[n].vector) < dynamic[|dynamic| - 1].dist) {
          var item := Candidate(n, f(query, nodes[n].vector));
          ReachFurther(nodes, layer, entry, id, n);
          var more, p := InsertSorted(frontier, item);
          var out, q := InsertSorted(dynamic, item);
          Taken(nodes, f, entry, query, ef, layer, visited, frontier, dynamic, item, more, p, out, q);
          TakenPending(nodes, ef, layer, visited, frontier, dynamic, {id}, item, more, p, out, q);
          frontier, dynamic := more, Cut(out, ef);
        } else {
          Skipped(nodes, f, entry, query, ef, layer, visited, frontier, dynamic, {id}, n);
        }
        visited := visited + {n};
      }
    }
    assert Expanded(nodes, layer, visited, id);
  }
}
