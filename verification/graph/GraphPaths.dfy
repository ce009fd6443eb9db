/** Paths in a graph, and what a breadth-first search knows on the way. */
module GraphPaths {
  import opened Bytes
  import opened Engine
  import opened Adjacency

  datatype Direction = DirOut | DirIn | DirBoth

  /** The node a traversal reaches over an edge found at the node id. */
  function Neighbour(e: Edge, id: Key, dir: Direction): Option<Key> {
    match dir
    case DirOut => if e.from != id then None else Some(e.to)
    case DirIn => if e.to != id then None else Some(e.from)
    case DirBoth => Some(if e.from == id then e.to else e.from)
  }

  predicate Joins(e: Edge, dir: Direction, a: Key, b: Key) {
    match dir
    case DirOut => e.from == a && e.to == b
    case DirIn => e.to == a && e.from == b
    case DirBoth => (e.from == a && e.to == b) || (e.to == a && e.from == b)
  }

  ghost predicate Step(edges: set<Edge>, dir: Direction, a: Key, b: Key) {
    exists e :: e in edges && Joins(e, dir, a, b)
  }

  lemma NeighbourJoins(e: Edge, dir: Direction, a: Key, b: Key)
    requires e.from == a || e.to == a
    ensures Neighbour(e, a, dir) == Some(b) <==> Joins(e, dir, a, b)
  {
  }

  lemma JoinsTouches(e: Edge, dir: Direction, a: Key, b: Key)
    requires Joins(e, dir, a, b)
    ensures (e.from == a || e.to == a) && (e.from == b || e.to == b)
  {
  }

  ghost predicate IsPath(edges: set<Edge>, dir: Direction, p: seq<Key>, a: Key, b: Key) {
    && p != [] && p[0] == a && p[|p| - 1] == b
    && forall i | 0 <= i < |p| - 1 :: StepAt(edges, dir, p, i)
  }

  ghost predicate StepAt(edges: set<Edge>, dir: Direction, p: seq<Key>, i: nat)
    requires i < |p| - 1
  {
    Step(edges, dir, p[i], p[i + 1])
  }

  /** b can be reached from a in at most n steps. */
  ghost predicate Within(edges: set<Edge>, dir: Direction, a: Key, b: Key, n: nat)
    decreases n
  {
    if n == 0 then a == b
    else Within(edges, dir, a, b, n - 1) || exists u :: Within(edges, dir, a, u, n - 1) && Step(edges, dir, u, b)
  }

  lemma {:induction false} PathIsWithin(edges: set<Edge>, dir: Direction, p: seq<Key>, a: Key, b: Key)
    requires IsPath(edges, dir, p, a, b)
    ensures Within(edges, dir, a, b, |p| - 1)
    decreases |p|
  {
    if |p| > 1 {
      var q := p[..|p| - 1];
      assert forall i | 0 <= i < |q| - 1 :: StepAt(edges, dir, p, i) ==> StepAt(edges, dir, q, i);
      PathIsWithin(edges, dir, q, a, q[|q| - 1]);
      assert StepAt(edges, dir, p, |p| - 2);
    }
  }

  lemma {:induction false} WithinIsMonotone(edges: set<Edge>, dir: Direction, a: Key, b: Key, m: nat, n: nat)
    requires Within(edges, dir, a, b, m) && m <= n
    ensures Within(edges, dir, a, b, n)
    decreases n
  {
    if m < n {
      WithinIsMonotone(edges, dir, a, b, m, n - 1);
    }
  }

  lemma {:induction false} WithinHasPath(edges: set<Edge>, dir: Direction, a: Key, b: Key, n: nat) returns (p: seq<Key>)
    requires Within(edges, dir, a, b, n)
    ensures IsPath(edges, dir, p, a, b) && |p| <= n + 1
    decreases n
  {
    if n == 0 {
      p := [a];
    } else if Within(edges, dir, a, b, n - 1) {
      p := WithinHasPath(edges, dir, a, b, n - 1);
    } else {
      var u :| Within(edges, dir, a, u, n - 1) && Step(edges, dir, u, b);
      var q := WithinHasPath(edges, dir, a, u, n - 1);
      p := q + [b];
      forall i | 0 <= i < |p| - 1 ensures StepAt(edges, dir, p, i) {
        if i < |q| - 1 {
          assert StepAt(edges, dir, q, i);
        }
      }
    }
  }

  /** Within n steps, in terms of paths. */
  lemma WithinIff(edges: set<Edge>, dir: Direction, a: Key, b: Key, n: nat)
    ensures Within(edges, dir, a, b, n) <==> exists p :: IsPath(edges, dir, p, a, b) && |p| <= n + 1
  {
    if Within(edges, dir, a, b, n) {
      var p := WithinHasPath(edges, dir, a, b, n);
    }
    if p :| IsPath(edges, dir, p, a, b) && |p| <= n + 1 {
      PathIsWithin(edges, dir, p, a, b);
      WithinIsMonotone(edges, dir, a, b, |p| - 1, n);
    }
  }

  ghost predicate IsShortest(edges: set<Edge>, dir: Direction, p: seq<Key>, a: Key, b: Key) {
    IsPath(edges, dir, p, a, b) && forall q | IsPath(edges, dir, q, a, b) :: |p| <= |q|
  }

  /** k steps lead there and no fewer do. */
  ghost predicate AtDistance(edges: set<Edge>, dir: Direction, a: Key, b: Key, k: nat) {
    Within(edges, dir, a, b, k) && (k > 0 ==> !Within(edges, dir, a, b, k - 1))
  }

  /** A distance is the length of a shortest path. */
  lemma DistanceIff(edges: set<Edge>, dir: Direction, a: Key, b: Key, k: nat)
    ensures AtDistance(edges, dir, a, b, k) <==> exists p :: IsShortest(edges, dir, p, a, b) && |p| == k + 1
  {
    if AtDistance(edges, dir, a, b, k) {
      var p := WithinHasPath(edges, dir, a, b, k);
      forall q | IsPath(edges, dir, q, a, b) ensures k + 1 <= |q| {
        PathIsWithin(edges, dir, q, a, b);
        if |q| <= k {
          WithinIsMonotone(edges, dir, a, b, |q| - 1, k - 1);
        }
      }
      assert IsShortest(edges, dir, p, a, b) && |p| == k + 1;
    }
    if p :| IsShortest(edges, dir, p, a, b) && |p| == k + 1 {
      PathIsWithin(edges, dir, p, a, b);
      if k > 0 && Within(edges, dir, a, b, k - 1) {
        var q := WithinHasPath(edges, dir, a, b, k - 1);
      }
    }
  }

  // ---- breadth-first search ----

  /** Every visited node hangs on one that is one step nearer. */
  ghost predicate Tree(edges: set<Edge>, dir: Direction, from: Key, parent: map<Key, Key>, depth: map<Key, nat>) {
    && from in depth && depth[from] == 0 && parent.Keys == depth.Keys - {from}
    && forall v | v in parent :: parent[v] in depth && depth[v] == depth[parent[v]] + 1 && Step(edges, dir, parent[v], v)
  }

  /** The queue is in the order of depths, all of them d or d + 1; nothing is deeper. */
  ghost predicate Layered(depth: map<Key, nat>, queue: seq<Key>, d: nat) {
    && (forall q | q in queue :: q in depth && d <= depth[q])
    && (forall v | v in depth :: depth[v] <= d + 1)
    && (forall i, j | 0 <= i < j < |queue| :: depth[queue[i]] <= depth[queue[j]])
  }

  /** Outside the open nodes every step leads to a visited node, at most one deeper. */
  ghost predicate Explored(edges: set<Edge>, dir: Direction, depth: map<Key, nat>, open: set<Key>) {
    forall v, w | v in depth && v !in open && Step(edges, dir, v, w) :: w in depth && depth[w] <= depth[v] + 1
  }

  ghost function Elements(queue: seq<Key>): set<Key> { set q | q in queue }

  /** Along a path out of the start, nodes stay visited and near as long as they are not open. */
  lemma {:induction false} PathVisited(edges: set<Edge>, dir: Direction, depth: map<Key, nat>, open: set<Key>, d: nat,
                                       p: seq<Key>, from: Key, to: Key, i: nat)
    requires IsPath(edges, dir, p, from, to) && from in depth && depth[from] == 0
    requires Explored(edges, dir, depth, open) && forall v | v in open && v in depth :: d <= depth[v]
    requires i < |p| && i <= d
    ensures p[i] in depth && depth[p[i]] <= i
    decreases i
  {
    if i > 0 {
      PathVisited(edges, dir, depth, open, d, p, from, to, i - 1);
      assert StepAt(edges, dir, p, i - 1);
    }
  }

  /** When the target turns up at depth d + 1, no path to it has fewer steps. */
  lemma NoShorter(edges: set<Edge>, dir: Direction, depth: map<Key, nat>, open: set<Key>, d: nat, q: seq<Key>, from: Key, to: Key)
    requires from in depth && depth[from] == 0 && to !in depth
    requires Explored(edges, dir, depth, open) && forall v | v in open && v in depth :: d <= depth[v]
    requires IsPath(edges, dir, q, from, to)
    ensures d + 2 <= |q|
  {
    if |q| - 1 <= d {
      PathVisited(edges, dir, depth, open, d, q, from, to, |q| - 1);
    }
  }

  /** When nothing is open, there is no path to an unvisited node. */
  lemma NoPath(edges: set<Edge>, dir: Direction, depth: map<Key, nat>, q: seq<Key>, from: Key, to: Key)
    requires from in depth && depth[from] == 0 && to !in depth && Explored(edges, dir, depth, {})
    ensures !IsPath(edges, dir, q, from, to)
  {
    if IsPath(edges, dir, q, from, to) {
      PathVisited(edges, dir, depth, {}, |q|, q, from, to, |q| - 1);
    }
  }

  // ---- one step of the search ----

  /** The search for a target, while the nodes in open are not finished. */
  ghost predicate Searching(edges: set<Edge>, dir: Direction, from: Key, to: Key, parent: map<Key, Key>, depth: map<Key, nat>,
                            queue: seq<Key>, open: set<Key>, d: nat) {
    && Tree(edges, dir, from, parent, depth) && Layered(depth, queue, d) && Explored(edges, dir, depth, open)
    && to !in depth && Elements(queue) <= open && forall v | v in open :: v in depth && d <= depth[v]
  }

  lemma Started(edges: set<Edge>, dir: Direction, from: Key, to: Key)
    requires from != to
    ensures Searching(edges, dir, from, to, map[], map[from := 0], [from], {from}, 0)
  {
  }

  /** The head of the queue becomes the node whose edges are followed. */
  lemma HeadTaken(edges: set<Edge>, dir: Direction, from: Key, to: Key, parent: map<Key, Key>, depth: map<Key, nat>,
                  queue: seq<Key>, d: nat)
    requires queue != [] && Searching(edges, dir, from, to, parent, depth, queue, Elements(queue), d)
    ensures queue[0] in depth
    ensures Searching(edges, dir, from, to, parent, depth, queue[1..], Elements(queue[1..]) + {queue[0]}, depth[queue[0]])
  {
    assert queue == [queue[0]] + queue[1..];
    assert Elements(queue) == Elements(queue[1..]) + {queue[0]};
    forall v | v in Elements(queue) ensures depth[queue[0]] <= depth[v] {
      var i :| 0 <= i < |queue| && queue[i] == v;
    }
  }

  /** A new node found from the current one. */
  lemma Discovered(edges: set<Edge>, dir: Direction, from: Key, to: Key, parent: map<Key, Key>, depth: map<Key, nat>,
                   queue: seq<Key>, open: set<Key>, d: nat, current: Key, w: Key)
    requires Searching(edges, dir, from, to, parent, depth, queue, open, d)
    requires current in depth && depth[current] == d && Step(edges, dir, current, w) && w !in depth
    ensures Tree(edges, dir, from, parent[w := current], depth[w := d + 1])
    ensures w != to ==>
              Searching(edges, dir, from, to, parent[w := current], depth[w := d + 1], queue + [w], open + {w}, d)
  {
    TreeGrows(edges, dir, from, parent, depth, current, w);
    QueueGrows(depth, queue, d, w);
    ExploredStays(edges, dir, depth, open, d, w);
    assert Elements(queue + [w]) == Elements(queue) + {w};
  }

  lemma TreeGrows(edges: set<Edge>, dir: Direction, from: Key, parent: map<Key, Key>, depth: map<Key, nat>, current: Key, w: Key)
    requires Tree(edges, dir, from, parent, depth) && current in depth && Step(edges, dir, current, w) && w !in depth
    ensures Tree(edges, dir, from, parent[w := current], depth[w := depth[current] + 1])
  {
  }

  lemma QueueGrows(depth: map<Key, nat>, queue: seq<Key>, d: nat, w: Key)
    requires Layered(depth, queue, d) && w !in depth
    ensures Layered(depth[w := d + 1], queue + [w], d)
  {
    forall q | q in queue + [w] ensures q in depth[w := d + 1] && d <= depth[w := d + 1][q] {
      assert q in queue || q == w;
    }
    forall i | 0 <= i < |queue| ensures queue[i] in depth && queue[i] != w {
      assert queue[i] in queue;
    }
  }

  lemma ExploredStays(edges: set<Edge>, dir: Direction, depth: map<Key, nat>, open: set<Key>, d: nat, w: Key)
    requires Explored(edges, dir, depth, open) && w !in depth
    ensures Explored(edges, dir, depth[w := d + 1], open + {w})
  {
  }

  /** The current node is finished once all its steps lead to visited nodes. */
  lemma Finished(edges: set<Edge>, dir: Direction, from: Key, to: Key, parent: map<Key, Key>, depth: map<Key, nat>,
                 queue: seq<Key>, d: nat, current: Key)
    requires Searching(edges, dir, from, to, parent, depth, queue, Elements(queue) + {current}, d)
    requires current in depth && depth[current] == d && forall w | Step(edges, dir, current, w) :: w in depth
    ensures Searching(edges, dir, from, to, parent, depth, queue, Elements(queue), d)
  {
  }

  /** The target has been reached: its depth bounds every path. */
  lemma Reached(edges: set<Edge>, dir: Direction, from: Key, to: Key, parent: map<Key, Key>, depth: map<Key, nat>,
                queue: seq<Key>, open: set<Key>, d: nat)
    requires Searching(edges, dir, from, to, parent, depth, queue, open, d)
    ensures forall q | IsPath(edges, dir, q, from, to) :: d + 2 <= |q|
  {
    forall q | IsPath(edges, dir, q, from, to) ensures d + 2 <= |q| {
      NoShorter(edges, dir, depth, open, d, q, from, to);
    }
  }

  lemma Exhausted(edges: set<Edge>, dir: Direction, from: Key, to: Key, parent: map<Key, Key>, depth: map<Key, nat>, d: nat)
    requires Searching(edges, dir, from, to, parent, depth, [], {}, d)
    ensures forall q :: !IsPath(edges, dir, q, from, to)
  {
    forall q ensures !IsPath(edges, dir, q, from, to) {
      NoPath(edges, dir, depth, q, from, to);
    }
  }

  /** A path grows at its front by the parent of its first node. */
  lemma PathGrows(edges: set<Edge>, dir: Direction, p: seq<Key>, a: Key, b: Key, u: Key)
    requires IsPath(edges, dir, p, a, b) && Step(edges, dir, u, a)
    ensures IsPath(edges, dir, [u] + p, u, b)
  {
    var q := [u] + p;
    forall i | 0 <= i < |q| - 1 ensures StepAt(edges, dir, q, i) {
      if i > 0 {
        assert StepAt(edges, dir, p, i - 1);
      }
    }
  }

  // ---- levels ----

  /** visited holds what is within n steps, level what is exactly that far. */
  ghost predicate Levels(edges: set<Edge>, dir: Direction, from: Key, visited: set<Key>, level: set<Key>, n: nat) {
    forall v ::
      && (v in visited <==> Within(edges, dir, from, v, n))
      && (v in level <==> AtDistance(edges, dir, from, v, n))
  }

  lemma FirstLevel(edges: set<Edge>, dir: Direction, from: Key)
    ensures Levels(edges, dir, from, {from}, {from}, 0)
  {
  }

  /** The next level is what one step from this one reaches anew. */
  lemma NextLevel(edges: set<Edge>, dir: Direction, from: Key, visited: set<Key>, level: set<Key>, n: nat, next: set<Key>)
    requires Levels(edges, dir, from, visited, level, n)
    requires forall v :: v in next <==> v !in visited && exists u :: u in level && Step(edges, dir, u, v)
    ensures Levels(edges, dir, from, visited + next, next, n + 1)
  {
    forall v
      ensures v in visited + next <==> Within(edges, dir, from, v, n + 1)
      ensures v in next <==> AtDistance(edges, dir, from, v, n + 1)
    {
      if u :| Within(edges, dir, from, u, n) && Step(edges, dir, u, v) {
        if u !in level {
          assert n > 0 && Within(edges, dir, from, u, n - 1);
          assert Within(edges, dir, from, v, n);
        }
      }
    }
  }
}
