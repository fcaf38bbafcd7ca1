/** query/path.go: breadth-first search with predecessor reconstruction. */
module ShortestPaths {
  import opened Common
  import opened GraphTables
  import opened GraphWalks

  datatype GraphPath = GraphPath(nodes: seq<NodeId>, edges: seq<Edge>)
  datatype Predecessor = Predecessor(nodeId: NodeId, edge: Edge)

  /** Edges alternate with nodes: edges[i] leads from nodes[i] to nodes[i + 1]. */
  ghost predicate IsPath(g: Graph, q: Query, p: GraphPath, s: NodeId, t: NodeId) {
    && |p.nodes| == |p.edges| + 1
    && p.nodes[0] == s && p.nodes[|p.nodes| - 1] == t
    && (forall v :: v in p.nodes ==> v in g.nodes)
    && (forall i :: 0 <= i < |p.edges| ==> p.edges[i] in g.edges && Leads(q, p.edges[i], p.nodes[i], p.nodes[i + 1]))
  }

  function Undirected(undirected: bool): Query {
    Query(if undirected then Both else Outgoing, {}, {})
  }

  /** reverseNodes and reverseEdges. */
  method ReverseInPlace<T>(a: array<T>)
    modifies a
    ensures forall i :: 0 <= i < a.Length ==> a[i] == old(a[a.Length - 1 - i])
  {
    var left, right := 0, a.Length - 1;
    while left < right
      invariant 0 <= left && right == a.Length - 1 - left && left <= right + 1
      invariant forall i :: 0 <= i < left || right < i < a.Length ==> a[i] == old(a[a.Length - 1 - i])
      invariant forall i :: left <= i <= right ==> a[i] == old(a[i])
    {
      a[left], a[right] := a[right], a[left];
      left, right := left + 1, right - 1;
    }
  }

  method Reversed<T>(s: seq<T>) returns (r: seq<T>)
    ensures |r| == |s| && forall i :: 0 <= i < |s| ==> r[i] == s[|s| - 1 - i]
  {
    var a := new T[|s|](i requires 0 <= i < |s| => s[i]);
    ReverseInPlace(a);
    r := a[..];
  }

  /** edgesBySource: under `undirected` an edge is listed at both of its ends. */
  method BuildAdjacency(edges: seq<Edge>, undirected: bool) returns (adjacency: map<NodeId, seq<Edge>>)
    ensures forall id, e :: id in adjacency && e in adjacency[id] <==>
              e in edges && Neighbor(id, e, Undirected(undirected).direction).Some?
  {
    adjacency := map[];
    for i := 0 to |edges|
      invariant forall id, e :: id in adjacency && e in adjacency[id] <==>
                  e in edges[..i] && Neighbor(id, e, Undirected(undirected).direction).Some?
    {
      assert edges[..i + 1] == edges[..i] + [edges[i]];
      var e := edges[i];
      adjacency := adjacency[e.key.sourceId := AdjacentTo(adjacency, e.key.sourceId) + [e]];
      if undirected {
        adjacency := adjacency[e.key.targetId := AdjacentTo(adjacency, e.key.targetId) + [e]];
      }
    }
    assert edges[..|edges|] == edges;
  }

  function AdjacentTo(adjacency: map<NodeId, seq<Edge>>, id: NodeId): seq<Edge> {
    if id in adjacency then adjacency[id] else []
  }

  // ----- The search invariant -----

  /** Distances are witnessed by predecessors. */
  ghost predicate Witnessed(g: Graph, q: Query, s: NodeId, dist: map<NodeId, nat>, pred: map<NodeId, Predecessor>) {
    && s in dist && dist[s] == 0
    && (forall v :: v in dist ==> v in g.nodes)
    && (forall v :: v in dist && v != s ==>
          && v in pred && pred[v].edge in g.edges && Leads(q, pred[v].edge, pred[v].nodeId, v)
          && pred[v].nodeId in dist && dist[v] == dist[pred[v].nodeId] + 1)
  }

  /** Every step out of a finished node is at most one farther. */
  ghost predicate Finished(g: Graph, q: Query, dist: map<NodeId, nat>, u: NodeId) {
    u in dist && forall v :: Step(g, q, u, v) ==> v in dist && dist[v] <= dist[u] + 1
  }

  /** The queue is ordered by distance and spans at most two adjacent levels. */
  ghost predicate Ordered(dist: map<NodeId, nat>, queue: seq<NodeId>) {
    && (forall i :: 0 <= i < |queue| ==> queue[i] in dist)
    && (forall i, j :: 0 <= i < j < |queue| ==> dist[queue[i]] <= dist[queue[j]])
    && (queue != [] ==> dist[queue[|queue| - 1]] <= dist[queue[0]] + 1)
  }

  /** Everything not queued is finished and no farther than the head of the queue. */
  ghost predicate Settled(g: Graph, q: Query, dist: map<NodeId, nat>, queue: seq<NodeId>)
    requires queue != [] ==> queue[0] in dist
  {
    forall u :: u in dist && u !in queue ==> Finished(g, q, dist, u) && (queue != [] ==> dist[u] <= dist[queue[0]])
  }

  ghost predicate Searching(g: Graph, q: Query, s: NodeId, dist: map<NodeId, nat>, pred: map<NodeId, Predecessor>,
                            queue: seq<NodeId>)
  {
    Witnessed(g, q, s, dist, pred) && Ordered(dist, queue) && Settled(g, q, dist, queue)
  }

  /** Nodes closer than everything still queued have their exact distance. */
  lemma {:induction false} DistanceIsLeast(g: Graph, q: Query, s: NodeId, dist: map<NodeId, nat>, queue: seq<NodeId>,
                                           k: nat, v: NodeId)
    requires s in dist && dist[s] == 0
    requires forall u :: u in dist && u !in queue ==> Finished(g, q, dist, u)
    requires forall u :: u in queue ==> u in dist && k <= dist[u]
    requires v in Ball(g, q, {s}, k)
    ensures v in dist && dist[v] <= k
    decreases k
  {
    hide Step;
    if k > 0 {
      if v in Ball(g, q, {s}, k - 1) {
        DistanceIsLeast(g, q, s, dist, queue, k - 1, v);
      } else {
        var u :| u in Ball(g, q, {s}, k - 1) && Step(g, q, u, v);
        DistanceIsLeast(g, q, s, dist, queue, k - 1, u);
      }
    }
  }

  // ----- One discovery, and the end of an expansion; the head of the queue is being expanded -----

  lemma WitnessedExtends(g: Graph, q: Query, s: NodeId, dist: map<NodeId, nat>, pred: map<NodeId, Predecessor>,
                         u: NodeId, v: NodeId, e: Edge)
    requires Witnessed(g, q, s, dist, pred) && u in dist
    requires v in g.nodes && v !in dist && e in g.edges && Leads(q, e, u, v)
    ensures Witnessed(g, q, s, dist[v := dist[u] + 1], pred[v := Predecessor(u, e)])
  {}

  lemma OrderedExtends(dist: map<NodeId, nat>, queue: seq<NodeId>, v: NodeId)
    requires Ordered(dist, queue) && queue != [] && v !in dist
    ensures Ordered(dist[v := dist[queue[0]] + 1], queue + [v])
  {
    var longer := queue + [v];
    assert forall i :: 0 <= i < |queue| ==> longer[i] == queue[i];
    assert forall i :: 0 <= i < |queue| ==> dist[queue[i]] <= dist[queue[|queue| - 1]];
  }

  lemma SettledExtends(g: Graph, q: Query, dist: map<NodeId, nat>, queue: seq<NodeId>, v: NodeId)
    requires queue != [] && queue[0] in dist && Settled(g, q, dist, queue) && v !in dist
    ensures Settled(g, q, dist[v := dist[queue[0]] + 1], queue + [v])
  {
    hide Step;
    var dist' := dist[v := dist[queue[0]] + 1];
    forall w | w in dist' && w !in queue + [v]
      ensures Finished(g, q, dist', w) && dist'[w] <= dist'[queue[0]]
    {
      assert v in queue + [v];
      assert Finished(g, q, dist, w);
    }
  }

  lemma PopFinished(g: Graph, q: Query, dist: map<NodeId, nat>, queue: seq<NodeId>)
    requires queue != [] && Ordered(dist, queue) && Settled(g, q, dist, queue) && Finished(g, q, dist, queue[0])
    ensures Ordered(dist, queue[1..]) && Settled(g, q, dist, queue[1..])
  {
    hide Finished;
    var rest := queue[1..];
    assert forall i :: 0 <= i < |rest| ==> rest[i] == queue[i + 1];
    forall w | w in dist && w !in rest
      ensures Finished(g, q, dist, w) && (rest != [] ==> dist[w] <= dist[rest[0]])
    {
      assert w in queue ==> w == queue[0];
    }
  }

  /** Everything discovered so far is at most one level below the node being expanded. */
  lemma DiscoveredIsShallow(g: Graph, q: Query, dist: map<NodeId, nat>, queue: seq<NodeId>, v: NodeId)
    requires queue != [] && Ordered(dist, queue) && Settled(g, q, dist, queue) && v in dist
    ensures dist[v] <= dist[queue[0]] + 1
  {
    if v in queue {
      var i :| 0 <= i < |queue| && queue[i] == v;
      assert dist[queue[i]] <= dist[queue[|queue| - 1]];
    }
  }

  // ----- The search and the reconstruction -----

  datatype Found = Found(pred: map<NodeId, Predecessor>, seen: set<NodeId>)

  lemma MapGainsOne<K, V>(m: map<K, V>, k: K, x: V)
    requires k !in m
    ensures m[k := x].Keys == m.Keys + {k} && |m[k := x]| == |m| + 1
  {
    assert m[k := x].Keys == m.Keys + {k};
  }

  /** Follows one edge from the head of the queue. */
  method VisitNeighbor(g: Graph, undirected: bool, e: Edge, start: Found, queue0: seq<NodeId>, ghost s: NodeId,
                       ghost dist0: map<NodeId, nat>)
    returns (found: Found, queue: seq<NodeId>, ghost dist: map<NodeId, nat>)
    requires queue0 != [] && queue0[0] in dist0 && start.seen == dist0.Keys && e in g.edges
    requires Searching(g, Undirected(undirected), s, dist0, start.pred, queue0)
    requires Neighbor(queue0[0], e, Undirected(undirected).direction).Some?
    ensures queue != [] && queue[0] == queue0[0] && found.seen == dist.Keys && dist0.Keys <= dist.Keys
    ensures Searching(g, Undirected(undirected), s, dist, found.pred, queue)
    ensures |queue| + |dist0| == |queue0| + |dist|
    ensures forall v :: v in g.nodes && Leads(Undirected(undirected), e, queue0[0], v) ==> v in dist
  {
    hide Searching;
    var q, u := Undirected(undirected), queue0[0];
    found, queue, dist := start, queue0, dist0;
    var v := if undirected && e.key.targetId == u then e.key.sourceId else e.key.targetId;
    assert Neighbor(u, e, q.direction) == Some(v);
    if v in g.nodes && v !in found.seen {
      DiscoverKeepsSearching(g, q, s, dist, found.pred, queue, v, e);
      MapGainsOne(dist, v, dist[u] + 1);
      found := Found(found.pred[v := Predecessor(u, e)], found.seen + {v});
      queue := queue + [v];
      dist := dist[v := dist[u] + 1];
    }
  }

  /** Visits the neighbours of the head of the queue. */
  method ExpandHead(g: Graph, undirected: bool, adjacency: map<NodeId, seq<Edge>>, start: Found, queue0: seq<NodeId>,
                    ghost s: NodeId, ghost dist0: map<NodeId, nat>)
    returns (found: Found, queue: seq<NodeId>, ghost dist: map<NodeId, nat>)
    requires queue0 != [] && start.seen == dist0.Keys
    requires Searching(g, Undirected(undirected), s, dist0, start.pred, queue0)
    requires forall id, e :: id in adjacency && e in adjacency[id] <==>
               e in g.edges && Neighbor(id, e, Undirected(undirected).direction).Some?
    ensures found.seen == dist.Keys && dist0.Keys <= dist.Keys
    ensures Searching(g, Undirected(undirected), s, dist, found.pred, queue)
    ensures |queue| + |dist0| + 1 == |queue0| + |dist| && |dist0| <= |dist| <= |g.nodes|
  {
    hide Searching, Step, Leads, Neighbor, NeighborsSeen;
    var q := Undirected(undirected);
    var u := queue0[0];
    var edges := AdjacentTo(adjacency, u);
    found, queue, dist := start, queue0, dist0;
    HeadIsKnown(g, q, s, dist, found.pred, queue);
    NoneToSee(g, q, u, dist.Keys);
    for i := 0 to |edges|
      invariant queue != [] && queue[0] == u && u in dist && found.seen == dist.Keys && dist0.Keys <= dist.Keys
      invariant Searching(g, q, s, dist, found.pred, queue)
      invariant |queue| + |dist0| == |queue0| + |dist|
      invariant NeighborsSeen(g, q, edges[..i], u, dist.Keys)
    {
      assert edges[i] in AdjacentTo(adjacency, u);
      ghost var known := dist.Keys;
      found, queue, dist := VisitNeighbor(g, undirected, edges[i], found, queue, s, dist);
      SeenExtends(g, q, edges, i, u, known, dist.Keys);
    }
    assert edges[..|edges|] == edges;
    HeadIsDone(g, q, s, dist0, dist, found.pred, queue, edges);
    queue := queue[1..];
  }

  lemma HeadIsKnown(g: Graph, q: Query, s: NodeId, dist: map<NodeId, nat>, pred: map<NodeId, Predecessor>,
                    queue: seq<NodeId>)
    requires Searching(g, q, s, dist, pred, queue) && queue != []
    ensures queue[0] in dist
  {}

  lemma DiscoverKeepsSearching(g: Graph, q: Query, s: NodeId, dist: map<NodeId, nat>, pred: map<NodeId, Predecessor>,
                               queue: seq<NodeId>, v: NodeId, e: Edge)
    requires Searching(g, q, s, dist, pred, queue) && queue != [] && queue[0] in dist
    requires v in g.nodes && v !in dist && e in g.edges && Leads(q, e, queue[0], v)
    ensures Searching(g, q, s, dist[v := dist[queue[0]] + 1], pred[v := Predecessor(queue[0], e)], queue + [v])
  {
    hide Witnessed, Settled;
    WitnessedExtends(g, q, s, dist, pred, queue[0], v, e);
    OrderedExtends(dist, queue, v);
    SettledExtends(g, q, dist, queue, v);
  }

  lemma FinishHead(g: Graph, q: Query, s: NodeId, dist: map<NodeId, nat>, pred: map<NodeId, Predecessor>,
                   queue: seq<NodeId>)
    requires Searching(g, q, s, dist, pred, queue) && queue != []
    requires forall v :: Step(g, q, queue[0], v) ==> v in dist
    ensures Searching(g, q, s, dist, pred, queue[1..])
    ensures |dist| <= |g.nodes|
  {
    hide Step;
    forall v | Step(g, q, queue[0], v) ensures dist[v] <= dist[queue[0]] + 1 {
      DiscoveredIsShallow(g, q, dist, queue, v);
    }
    PopFinished(g, q, dist, queue);
    DiscoveredExist(g, q, s, dist, pred);
  }

  /** Wherever these edges lead from u has been seen. */
  ghost predicate NeighborsSeen(g: Graph, q: Query, edges: seq<Edge>, u: NodeId, seen: set<NodeId>) {
    forall e, v :: e in edges && v in g.nodes && Leads(q, e, u, v) ==> v in seen
  }

  lemma NoneToSee(g: Graph, q: Query, u: NodeId, seen: set<NodeId>)
    ensures NeighborsSeen(g, q, [], u, seen)
  {}

  lemma SeenExtends(g: Graph, q: Query, edges: seq<Edge>, i: nat, u: NodeId, known: set<NodeId>, seen: set<NodeId>)
    requires i < |edges| && known <= seen && NeighborsSeen(g, q, edges[..i], u, known)
    requires forall v :: v in g.nodes && Leads(q, edges[i], u, v) ==> v in seen
    ensures NeighborsSeen(g, q, edges[..i + 1], u, seen)
  {
    hide Leads;
    assert edges[..i + 1] == edges[..i] + [edges[i]];
  }

  /** The head can leave the queue once all edges from it were followed. */
  lemma HeadIsDone(g: Graph, q: Query, s: NodeId, before: map<NodeId, nat>, dist: map<NodeId, nat>,
                   pred: map<NodeId, Predecessor>, queue: seq<NodeId>, edges: seq<Edge>)
    requires Searching(g, q, s, dist, pred, queue) && queue != [] && before.Keys <= dist.Keys
    requires forall e :: e in g.edges && Neighbor(queue[0], e, q.direction).Some? ==> e in edges
    requires NeighborsSeen(g, q, edges, queue[0], dist.Keys)
    ensures Searching(g, q, s, dist, pred, queue[1..]) && |before| <= |dist| <= |g.nodes|
  {
    forall v | Step(g, q, queue[0], v) ensures v in dist {
      var e :| e in g.edges && Leads(q, e, queue[0], v);
      assert e in edges;
    }
    hide Searching, Step;
    FinishHead(g, q, s, dist, pred, queue);
    SubsetCardinality(before.Keys, dist.Keys);
  }

  lemma DiscoveredExist(g: Graph, q: Query, s: NodeId, dist: map<NodeId, nat>, pred: map<NodeId, Predecessor>)
    requires Witnessed(g, q, s, dist, pred)
    ensures dist.Keys <= g.nodes.Keys && |dist| <= |g.nodes|
  {
    SubsetCardinality(dist.Keys, g.nodes.Keys);
  }

  /** A path written from the target back to nodes[|edges|]. */
  ghost predicate IsBackPath(g: Graph, q: Query, nodes: seq<NodeId>, edges: seq<Edge>) {
    && |nodes| == |edges| + 1
    && (forall i :: 0 <= i < |nodes| ==> nodes[i] in g.nodes)
    && (forall i :: 0 <= i < |edges| ==> edges[i] in g.edges && Leads(q, edges[i], nodes[i + 1], nodes[i]))
  }

  lemma BackPathExtends(g: Graph, q: Query, nodes: seq<NodeId>, edges: seq<Edge>, u: NodeId, e: Edge)
    requires IsBackPath(g, q, nodes, edges) && u in g.nodes && e in g.edges && Leads(q, e, u, nodes[|edges|])
    ensures IsBackPath(g, q, nodes + [u], edges + [e])
  {
    hide Leads;
    forall i | 0 <= i < |edges| + 1
      ensures (edges + [e])[i] in g.edges && Leads(q, (edges + [e])[i], (nodes + [u])[i + 1], (nodes + [u])[i])
    {
      if i < |edges| { assert edges[i] in g.edges && Leads(q, edges[i], nodes[i + 1], nodes[i]); }
    }
  }

  lemma BackPathReversed(g: Graph, q: Query, nodes: seq<NodeId>, edges: seq<Edge>, p: GraphPath)
    requires IsBackPath(g, q, nodes, edges)
    requires |p.nodes| == |nodes| && forall i :: 0 <= i < |nodes| ==> p.nodes[i] == nodes[|nodes| - 1 - i]
    requires |p.edges| == |edges| && forall i :: 0 <= i < |edges| ==> p.edges[i] == edges[|edges| - 1 - i]
    ensures IsPath(g, q, p, nodes[|edges|], nodes[0])
  {
    hide Leads;
  }

  /** Follows predecessors back from the target, then reverses both lists. */
  method Reconstruct(g: Graph, q: Query, pred: map<NodeId, Predecessor>, s: NodeId, t: NodeId,
                     ghost dist: map<NodeId, nat>)
    returns (p: GraphPath)
    requires Witnessed(g, q, s, dist, pred) && t in dist
    ensures IsPath(g, q, p, s, t) && |p.edges| == dist[t]
  {
    hide Leads, IsBackPath, IsPath;
    var id, nodes, edges := t, [t], [];
    assert IsBackPath(g, q, nodes, edges) by { BackPathBegins(g, q, t); }
    while id != s
      invariant id in dist && |nodes| == |edges| + 1 && nodes[0] == t && nodes[|edges|] == id
      invariant |edges| + dist[id] == dist[t]
      invariant IsBackPath(g, q, nodes, edges)
      decreases dist[id]
    {
      var previous := pred[id];
      BackPathExtends(g, q, nodes, edges, previous.nodeId, previous.edge);
      nodes := nodes + [previous.nodeId];
      edges := edges + [previous.edge];
      id := previous.nodeId;
    }
    var nodesInOrder := Reversed(nodes);
    var edgesInOrder := Reversed(edges);
    p := GraphPath(nodesInOrder, edgesInOrder);
    BackPathReversed(g, q, nodes, edges, p);
  }

  lemma BackPathBegins(g: Graph, q: Query, t: NodeId)
    requires t in g.nodes
    ensures IsBackPath(g, q, [t], [])
  {}

  /**
   * A path of fewest edges in the given facts, or none exactly when the target cannot be
   * reached at all.
   */
  method ShortestPath(g: Graph, s: NodeId, t: NodeId, undirected: bool) returns (r: Option<GraphPath>)
    ensures r.None? ==> forall k: nat :: t !in Ball(g, Undirected(undirected), {s}, k)
    ensures r.Some? ==> IsPath(g, Undirected(undirected), r.value, s, t)
    ensures r.Some? ==> forall k: nat :: t in Ball(g, Undirected(undirected), {s}, k) ==> |r.value.edges| <= k
  {
    hide Ball, Step, Witnessed, Ordered, Settled;
    var q := Undirected(undirected);
    if s !in g.nodes || t !in g.nodes {
      NothingReachable(g, q, s, t);
      return None;
    }
    var adjacency := BuildAdjacency(g.edges, undirected);
    var found, queue := Found(map[], {s}), [s];
    ghost var dist: map<NodeId, nat> := map[s := 0];
    SearchBegins(g, q, s);
    var arrived := false;
    while |queue| > 0 && !arrived
      invariant Searching(g, q, s, dist, found.pred, queue)
      invariant found.seen == dist.Keys && |dist| <= |g.nodes|
      invariant arrived ==> queue != [] && queue[0] == t
      decreases |queue| + 2 * (|g.nodes| - |dist|), !arrived
    {
      if queue[0] == t {
        arrived := true;
      } else {
        found, queue, dist := ExpandHead(g, undirected, adjacency, found, queue, s, dist);
      }
    }
    SearchEnds(g, q, s, t, dist, found.pred, queue);
    if t !in found.seen { return None; }
    var p := Reconstruct(g, q, found.pred, s, t, dist);
    return Some(p);
  }

  lemma SearchBegins(g: Graph, q: Query, s: NodeId)
    requires s in g.nodes
    ensures Searching(g, q, s, map[s := 0], map[], [s])
    ensures |map[s := 0]| <= |g.nodes|
  {
    SubsetCardinality({s}, g.nodes.Keys);
    assert (map[s := 0 as nat]).Keys == {s};
  }

  lemma {:induction false} NoStartNoBall(g: Graph, q: Query, s: NodeId, k: nat)
    requires s !in g.nodes
    ensures Ball(g, q, {s}, k) == {}
  {
    if k > 0 { NoStartNoBall(g, q, s, k - 1); }
  }

  lemma NothingReachable(g: Graph, q: Query, s: NodeId, t: NodeId)
    requires s !in g.nodes || t !in g.nodes
    ensures forall k: nat :: t !in Ball(g, q, {s}, k)
  {
    forall k: nat ensures t !in Ball(g, q, {s}, k) {
      if s !in g.nodes { NoStartNoBall(g, q, s, k); }
    }
  }

  /** When the search stops, at the target or with an empty queue, distances are least. */
  lemma SearchEnds(g: Graph, q: Query, s: NodeId, t: NodeId, dist: map<NodeId, nat>, pred: map<NodeId, Predecessor>,
                   queue: seq<NodeId>)
    requires Searching(g, q, s, dist, pred, queue)
    requires queue == [] || queue[0] == t
    ensures forall k: nat :: t in Ball(g, q, {s}, k) ==> t in dist && dist[t] <= k
  {
    hide Ball, Finished;
    forall k: nat | t in Ball(g, q, {s}, k) ensures t in dist && dist[t] <= k {
      if queue == [] || k < dist[t] {
        forall u | u in queue ensures u in dist && k <= dist[u] {
          var i :| 0 <= i < |queue| && queue[i] == u;
          assert i > 0 ==> dist[queue[0]] <= dist[queue[i]];
        }
        DistanceIsLeast(g, q, s, dist, queue, k, t);
      }
    }
  }
}
