/**
 * query.FindPathSnapshot: a bounded traversal feeding a shortest-path search. A path found in
 * the bounded facts is as short as any of the whole snapshot that keeps to the scope, truncated or not.
 */
module FindPaths {
  import opened Common
  import opened GraphTables
  import opened GraphWalks
  import opened Traversal
  import opened ShortestPaths

  const MAX_SEEDS_PER_TERM := 3

  datatype PathRequest = PathRequest(source: string, target: string, allowUndirectedFallback: bool,
                                     relations: set<string>, scope: set<NodeId>, maxDepth: int, maxNodes: int)

  datatype PathError = InvalidPathRequest | TraversalFailed(error: TraversalError)

  datatype PathResult = PathResult(
    path: Option<GraphPath>,
    sourceCandidates: seq<NodeId>, sourceRemainder: nat,
    targetCandidates: seq<NodeId>, targetRemainder: nat,
    boundary: Option<NodeId>,
    usedFallback: bool, fallbackAttempted: bool)

  function Candidates(nodes: seq<NodeId>): seq<NodeId> {
    if |nodes| == 1 then [] else if |nodes| <= MAX_SEEDS_PER_TERM then nodes else nodes[..MAX_SEEDS_PER_TERM]
  }

  function Remainder(nodes: seq<NodeId>): nat {
    if |nodes| <= MAX_SEEDS_PER_TERM then 0 else |nodes| - MAX_SEEDS_PER_TERM
  }

  /** No walk between the two nodes that continues from nodes in the scope only is shorter. */
  ghost predicate IsShortest(g: Graph, q: Query, p: GraphPath, s: NodeId, t: NodeId) {
    && IsPath(g, q, p, s, t)
    && forall w :: WalkBetween(g, q, w, s, t) ==> |p.nodes| <= |w|
  }

  // ----- From the bounded facts to the whole graph -----

  ghost predicate IsSubgraph(g: Graph, q: Query, st: Search, sub: Graph) {
    && sub.nodes == st.selected
    && (forall e :: e in sub.edges <==> exists k :: k in st.edges && st.edges[k] == e)
  }

  function Unfiltered(q: Query): Query {
    Query(q.direction, {}, {})
  }

  lemma BallZero(g: Graph, q: Query, starts: set<NodeId>, v: NodeId)
    ensures v in Ball(g, q, starts, 0) <==> v in starts && v in g.nodes
  {}

  lemma TreeParent(g: Graph, q: Query, st: Search, sub: Graph, s: NodeId, v: NodeId, j: nat) returns (u: NodeId)
    requires IsSubgraph(g, q, st, sub) && ShortestTree(g, q, {s}, st)
    requires v in st.selected && v in Ball(g, q, {s}, j + 1) && v !in Ball(g, q, {s}, j)
    ensures u in st.selected && u in Ball(g, q, {s}, j) && Step(sub, Unfiltered(q), u, v)
  {
    hide Ball;
    assert Reached(g, q, {s}, st, v, j);
    var key, parent :| key in st.edges && parent in st.selected && parent in Ball(g, q, {s}, j) &&
                       Leads(q, st.edges[key], parent, v);
    u := parent;
    assert st.edges[key] in sub.edges && Leads(Unfiltered(q), st.edges[key], u, v);
  }

  /** The traversal's tree of recorded edges keeps every selected node at its true distance. */
  lemma {:induction false} SubgraphBallReaches(g: Graph, q: Query, st: Search, sub: Graph, s: NodeId, v: NodeId, k: nat)
    requires IsSubgraph(g, q, st, sub) && ShortestTree(g, q, {s}, st)
    requires v in st.selected && v in Ball(g, q, {s}, k)
    ensures v in Ball(sub, Unfiltered(q), {s}, k)
    decreases k
  {
    hide Ball, Step, ShortestTree;
    if k == 0 {
      BallZero(g, q, {s}, v);
      BallZero(sub, Unfiltered(q), {s}, v);
    } else {
      if v in Ball(g, q, {s}, k - 1) {
        SubgraphBallReaches(g, q, st, sub, s, v, k - 1);
        BallGrows(sub, Unfiltered(q), {s}, k - 1, k);
      } else {
        var u := TreeParent(g, q, st, sub, s, v, k - 1);
        SubgraphBallReaches(g, q, st, sub, s, u, k - 1);
        BallStep(sub, Unfiltered(q), {s}, k - 1, u, v);
      }
    }
  }

  lemma SubgraphPath(g: Graph, q: Query, maxNodes: nat, st: Search, sub: Graph, p: GraphPath, s: NodeId, t: NodeId)
    requires Sound(g, q, maxNodes, st) && IsSubgraph(g, q, st, sub) && IsPath(sub, Unfiltered(q), p, s, t)
    ensures IsPath(g, q, p, s, t)
  {
    forall i | 0 <= i < |p.edges|
      ensures p.edges[i] in g.edges && Leads(q, p.edges[i], p.nodes[i], p.nodes[i + 1])
    {
      assert p.edges[i] in sub.edges;
      var k :| k in st.edges && st.edges[k] == p.edges[i];
    }
  }

  /** The composition: shortest in the bounded facts is shortest in the whole graph. */
  lemma BoundedShortestIsGlobal(g: Graph, q: Query, maxNodes: nat, st: Search, sub: Graph, p: GraphPath,
                                s: NodeId, t: NodeId)
    requires Sound(g, q, maxNodes, st) && IsSubgraph(g, q, st, sub) && ShortestTree(g, q, {s}, st)
    requires IsPath(sub, Unfiltered(q), p, s, t)
    requires forall k: nat :: t in Ball(sub, Unfiltered(q), {s}, k) ==> |p.edges| <= k
    ensures IsShortest(g, q, p, s, t)
  {
    hide Ball, ShortestTree;
    SubgraphPath(g, q, maxNodes, st, sub, p, s, t);
    assert t in st.selected by { assert p.nodes[|p.nodes| - 1] in p.nodes; }
    forall w | WalkBetween(g, q, w, s, t) ensures |p.nodes| <= |w| {
      WalkInBall(g, q, w, s, t);
      SubgraphBallReaches(g, q, st, sub, s, t, |w| - 1);
    }
  }

  // ----- The search -----

  /** The edges of a traversal result as a list; the order does not matter to the search. */
  method ListEdges(edges: map<EdgeKey, Edge>) returns (r: seq<Edge>)
    ensures forall e :: e in r <==> exists k :: k in edges && edges[k] == e
  {
    r := [];
    var rest := edges.Keys;
    while rest != {}
      invariant rest <= edges.Keys
      invariant forall e :: e in r <==> exists k :: k in edges && k !in rest && edges[k] == e
      decreases rest
    {
      var k :| k in rest;
      rest := rest - {k};
      r := r + [edges[k]];
    }
  }

  /**
   * A path leaves the scope at most for single nodes, and none when no boundary node is reported; a reported
   * one is outside.
   */
  ghost predicate WithinScope(q: Query, p: GraphPath, boundary: Option<NodeId>) {
    && (boundary.None? ==> forall v :: v in p.nodes ==> InScope(q, v))
    && (boundary.Some? ==> !InScope(q, boundary.value))
    && (forall i :: 0 <= i < |p.nodes| - 1 ==> InScope(q, p.nodes[i]) || InScope(q, p.nodes[i + 1]))
  }

  lemma PathInScope(g: Graph, q: Query, st: Search, sub: Graph, p: GraphPath, s: NodeId, t: NodeId)
    requires Scoped(g, q, st) && IsSubgraph(g, q, st, sub) && IsPath(sub, Unfiltered(q), p, s, t)
    ensures WithinScope(q, p, st.boundary)
  {
    hide StepsOut;
    if st.boundary.Some? { OutIsOut(g, q, st); }
    forall i | 0 <= i < |p.nodes| - 1 ensures InScope(q, p.nodes[i]) || InScope(q, p.nodes[i + 1]) {
      assert p.edges[i] in sub.edges;
      var k :| k in st.edges && st.edges[k] == p.edges[i];
      assert LeadsInside(q, st.selected.Keys, st.edges[k]);
    }
  }

  lemma OutIsOut(g: Graph, q: Query, st: Search)
    requires st.boundary.Some? && StepsOut(g, q, st.selected.Keys, st.boundary.value)
    ensures !InScope(q, st.boundary.value)
  {}

  /** A single start is refused when it exists outside the scope. */
  lemma StrayAlone(g: Graph, q: Query, s: NodeId, maxNodes: nat)
    ensures (exists i :: StrayStart(g, q, [s], maxNodes, i)) <==> s in g.nodes && !InScope(q, s)
  {
    assert [s][..0] == [] && Traversal.Found(g, []) == {};
    if s in g.nodes && !InScope(q, s) { assert StrayStart(g, q, [s], maxNodes, 0); }
  }

  /** One bounded search in one direction. */
  method SearchBounded(g: Graph, q: Query, s: NodeId, t: NodeId, maxDepth: int, maxNodes: int)
    returns (r: Result<(Option<GraphPath>, Option<NodeId>), TraversalError>)
    requires maxDepth >= 0 && maxNodes > 0 && !q.direction.Incoming?
    ensures r.Err? <==> s in g.nodes && !InScope(q, s)
    ensures r.Ok? && r.value.1.Some? ==> r.value.0.Some?
    ensures r.Ok? && r.value.0.Some? ==> WithinScope(q, r.value.0.value, r.value.1)
    ensures r.Ok? && r.value.0.Some? ==> IsShortest(g, q, r.value.0.value, s, t)
    ensures r.Ok? && r.value.0.Some? ==> |r.value.0.value.edges| <= maxDepth
    ensures r.Ok? && |Ball(g, q, {s}, maxDepth)| <= maxNodes ==>
              (r.value.0.Some? <==> t in Ball(g, q, {s}, maxDepth))
  {
    hide Ball, Sound, NearestFirst, ShortestTree, IsPath, IsShortest, Scoped, WithinScope, EdgesExact;
    StrayAlone(g, q, s, maxNodes);
    var request := TraversalRequest([s], q, maxDepth, maxNodes);
    assert Elements([s]) == {s};
    var traversal := Traverse(g, request);
    if traversal.Err? {
      assert traversal.error == StartOutsideScope;
      return Err(traversal.error);
    }
    var st := traversal.value;
    var edges := ListEdges(st.edges);
    var sub := Graph(st.selected, edges);
    var path := ShortestPath(sub, s, t, q.direction.Both?);
    assert Undirected(q.direction.Both?) == Unfiltered(q);
    if path.Some? {
      PathInScope(g, q, st, sub, path.value, s, t);
      BoundedShortestIsGlobal(g, q, maxNodes, st, sub, path.value, s, t);
      PathStaysInside(g, q, path.value, s, t, sub);
      BoundedLength(g, q, st, sub, path.value, s, t, maxDepth);
    } else if t in Ball(g, q, {s}, maxDepth) && t in st.selected {
      SubgraphBallReaches(g, q, st, sub, s, t, maxDepth);
    }
    NodeLimitExactly(g, request, st);
    return Ok((path, if path.Some? then st.boundary else None));
  }

  lemma PathStaysInside(g: Graph, q: Query, p: GraphPath, s: NodeId, t: NodeId, sub: Graph)
    requires IsPath(sub, Unfiltered(q), p, s, t)
    ensures t in sub.nodes
  {
    assert p.nodes[|p.nodes| - 1] in p.nodes;
  }

  lemma BoundedLength(g: Graph, q: Query, st: Search, sub: Graph, p: GraphPath, s: NodeId, t: NodeId, maxDepth: nat)
    requires IsSubgraph(g, q, st, sub) && ShortestTree(g, q, {s}, st)
    requires t in st.selected && st.selected.Keys <= Ball(g, q, {s}, maxDepth)
    requires forall k: nat :: t in Ball(sub, Unfiltered(q), {s}, k) ==> |p.edges| <= k
    ensures |p.edges| <= maxDepth
  {
    SubgraphBallReaches(g, q, st, sub, s, t, maxDepth);
  }

  /** The directed query of a request, and its undirected fallback. */
  function DirectedQuery(request: PathRequest): Query { Query(Outgoing, request.relations, request.scope) }
  function FallbackQuery(request: PathRequest): Query { Query(Both, request.relations, request.scope) }

  function AnsweredQuery(request: PathRequest, r: PathResult): Query {
    if r.usedFallback then FallbackQuery(request) else DirectedQuery(request)
  }

  /** A node set within reach that the node limit does not cut. */
  ghost predicate Findable(g: Graph, q: Query, s: NodeId, t: NodeId, request: PathRequest)
    requires request.maxDepth >= 0
  {
    t in Ball(g, q, {s}, request.maxDepth) && |Ball(g, q, {s}, request.maxDepth)| <= request.maxNodes
  }

  /** The answer when an endpoint is unknown or ambiguous: candidates, and no search. */
  function Ambiguous(sources: seq<NodeId>, targets: seq<NodeId>): PathResult {
    PathResult(None, Candidates(sources), Remainder(sources), Candidates(targets), Remainder(targets), None, false,
               false)
  }

  /**
   * With unambiguous endpoints any path is a shortest one for the query it answers and within the depth;
   * the directed search finds every findable target, and so does the fallback where it is allowed.
   */
  ghost predicate PathAnswered(g: Graph, request: PathRequest, s: NodeId, t: NodeId, r: PathResult)
    requires request.maxDepth >= 0
  {
    var directed, fallback := DirectedQuery(request), FallbackQuery(request);
    && (r.path.Some? ==> IsShortest(g, AnsweredQuery(request, r), r.path.value, s, t))
    && (r.path.Some? ==> |r.path.value.edges| <= request.maxDepth)
    && (Findable(g, directed, s, t, request) ==> r.path.Some? && !r.usedFallback)
    && (request.allowUndirectedFallback && Findable(g, fallback, s, t, request) ==> r.path.Some?)
  }

  /** The fallback is tried exactly when it is allowed and the directed search found nothing. */
  predicate Attempts(request: PathRequest, r: PathResult) {
    && (r.usedFallback <==> r.fallbackAttempted && r.path.Some?)
    && (r.fallbackAttempted ==> request.allowUndirectedFallback)
    && (r.path.None? && request.allowUndirectedFallback ==> r.fallbackAttempted)
    && r.sourceCandidates == r.targetCandidates == [] && r.sourceRemainder == r.targetRemainder == 0
  }

  /** Of several candidates the first three are shown and the others counted; a single one is not shown. */
  lemma CandidatesAndRemainder(nodes: seq<NodeId>)
    ensures |nodes| == 1 ==> Candidates(nodes) == [] && Remainder(nodes) == 0
    ensures |nodes| != 1 ==> Candidates(nodes) <= nodes && |Candidates(nodes)| + Remainder(nodes) == |nodes|
    ensures |Candidates(nodes)| <= 3 && (Remainder(nodes) > 0 ==> |Candidates(nodes)| == 3)
  {}

  method FindPathSnapshot(g: Graph, request: PathRequest, sources: seq<NodeId>, targets: seq<NodeId>)
    returns (r: Result<PathResult, PathError>)
    ensures r == Err(InvalidPathRequest) <==>
              request.source == "" || request.target == "" || request.maxDepth < 0 || request.maxNodes <= 0
    ensures r.Err? && r != Err(InvalidPathRequest) <==>
              && request.source != "" && request.target != "" && request.maxDepth >= 0 && request.maxNodes > 0
              && |sources| == |targets| == 1 && sources[0] in g.nodes && !InScope(DirectedQuery(request), sources[0])
    ensures r.Ok? && (|sources| != 1 || |targets| != 1) ==> r.value == Ambiguous(sources, targets)
    ensures r.Ok? && |sources| == |targets| == 1 ==>
              Attempts(request, r.value) && PathAnswered(g, request, sources[0], targets[0], r.value)
    ensures r.Ok? && r.value.path.Some? ==>
              |sources| == |targets| == 1 && WithinScope(DirectedQuery(request), r.value.path.value, r.value.boundary)
    ensures r.Ok? && r.value.boundary.Some? ==> r.value.path.Some?
  {
    hide Ball, IsPath, IsShortest;
    if request.source == "" || request.target == "" || request.maxDepth < 0 || request.maxNodes <= 0 {
      return Err(InvalidPathRequest);
    }
    if |sources| != 1 || |targets| != 1 {
      return Ok(Ambiguous(sources, targets));
    }
    var directed := SearchBounded(g, DirectedQuery(request), sources[0], targets[0],
                                  request.maxDepth, request.maxNodes);
    if directed.Err? { return Err(TraversalFailed(directed.error)); }
    if directed.value.0.Some? || !request.allowUndirectedFallback {
      return Ok(PathResult(directed.value.0, [], 0, [], 0, directed.value.1, false, false));
    }
    var fallback := SearchBounded(g, FallbackQuery(request), sources[0], targets[0],
                                  request.maxDepth, request.maxNodes);
    assert fallback.Ok?;   // it starts where the directed search was allowed to
    return Ok(PathResult(fallback.value.0, [], 0, [], 0, fallback.value.1, fallback.value.0.Some?, true));
  }
}
