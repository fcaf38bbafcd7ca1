/** Store.Traverse: level-by-level expansion under a depth limit, a node limit and a scope. */
module Traversal {
  import opened Common
  import opened GraphTables
  import opened GraphWalks

  datatype TruncationReason = NodeLimit | DepthLimit
  datatype TraversalError = InvalidTraversal | StartOutsideScope

  datatype TraversalRequest = TraversalRequest(starts: seq<NodeId>, query: Query, maxDepth: int, maxNodes: int)

  datatype Search = Search(
    selected: map<NodeId, NodeFact>,
    edges: map<EdgeKey, Edge>,
    next: seq<NodeId>,
    reasons: set<TruncationReason>,
    boundary: Option<NodeId>)

  function Record(st: Search, e: Edge): Search {
    st.(edges := st.edges[e.key := e])
  }

  function Select(st: Search, v: NodeId, fact: NodeFact): Search {
    st.(selected := st.selected[v := fact])
  }

  /** One edge of an expanded node; nodes outside the scope are selected but not expanded. */
  function VisitEdge(g: Graph, q: Query, maxNodes: nat, st: Search, u: NodeId, e: Edge): Search {
    if !Permits(q, e) then st
    else match Neighbor(u, e, q.direction)
      case None => st
      case Some(v) =>
        if v !in g.nodes then st
        else if !InScope(q, v) then
          var marked := if st.boundary.None? then st.(boundary := Some(v)) else st;
          if |st.selected| == maxNodes then marked.(reasons := st.reasons + {NodeLimit})
          else Record(Select(marked, v, g.nodes[v]), e)
        else if v in st.selected then Record(st, e)
        else if |st.selected| == maxNodes then st.(reasons := st.reasons + {NodeLimit})
        else Record(Select(st, v, g.nodes[v]).(next := st.next + [v]), e)
  }

  // ----- Soundness -----

  ghost predicate EdgesSound(g: Graph, q: Query, selected: set<NodeId>, edges: map<EdgeKey, Edge>) {
    forall k :: k in edges ==>
      && edges[k].key == k && edges[k] in g.edges && Permits(q, edges[k])
      && k.sourceId in selected && k.targetId in selected
  }

  ghost predicate NodesSound(g: Graph, selected: map<NodeId, NodeFact>) {
    forall v :: v in selected ==> v in g.nodes && selected[v] == g.nodes[v]
  }

  ghost predicate Sound(g: Graph, q: Query, maxNodes: nat, st: Search) {
    && |st.selected| <= maxNodes
    && NodesSound(g, st.selected)
    && EdgesSound(g, q, st.selected.Keys, st.edges)
    && Elements(st.next) <= st.selected.Keys
  }

  lemma SelectKeepsSound(g: Graph, q: Query, maxNodes: nat, st: Search, v: NodeId)
    requires Sound(g, q, maxNodes, st) && v in g.nodes && |st.selected| < maxNodes
    ensures Sound(g, q, maxNodes, Select(st, v, g.nodes[v]))
  {
    hide Elements, EdgesSound;
    MapGrowsByOne(st.selected, v, g.nodes[v]);
    EdgesStaySound(g, q, st.selected.Keys, Select(st, v, g.nodes[v]).selected.Keys, st.edges);
  }

  lemma MapGrowsByOne<K, V>(m: map<K, V>, k: K, x: V)
    ensures |m[k := x]| <= |m| + 1
    ensures m.Keys <= m[k := x].Keys
  {
    assert m[k := x].Keys == m.Keys + {k};
  }

  lemma EdgesStaySound(g: Graph, q: Query, small: set<NodeId>, large: set<NodeId>, edges: map<EdgeKey, Edge>)
    requires EdgesSound(g, q, small, edges) && small <= large
    ensures EdgesSound(g, q, large, edges)
  {}

  lemma RecordKeepsSound(g: Graph, q: Query, maxNodes: nat, st: Search, e: Edge)
    requires Sound(g, q, maxNodes, st) && e in g.edges && Permits(q, e)
    requires e.key.sourceId in st.selected && e.key.targetId in st.selected
    ensures Sound(g, q, maxNodes, Record(st, e))
  {}

  lemma VisitKeepsSound(g: Graph, q: Query, maxNodes: nat, st: Search, u: NodeId, e: Edge)
    requires Sound(g, q, maxNodes, st) && u in st.selected && e in g.edges
    ensures Sound(g, q, maxNodes, VisitEdge(g, q, maxNodes, st, u, e))
    ensures st.selected.Keys <= VisitEdge(g, q, maxNodes, st, u, e).selected.Keys
  {
    hide EdgesSound, NodesSound, Elements;
    if Permits(q, e) && Neighbor(u, e, q.direction).Some? && Neighbor(u, e, q.direction).value in g.nodes {
      var v := Neighbor(u, e, q.direction).value;
      if v in st.selected {
        RecordKeepsSound(g, q, maxNodes, st, e);
      }
      if |st.selected| < maxNodes {
        SelectKeepsSound(g, q, maxNodes, st, v);
        var chosen := Select(st, v, g.nodes[v]);
        RecordKeepsSound(g, q, maxNodes, chosen, e);
        assert Elements(st.next + [v]) == Elements(st.next) + {v};
      }
    }
  }

  // ----- The scope -----

  /** A step out of the scope, from a selected node. */
  ghost predicate StepsOut(g: Graph, q: Query, selected: set<NodeId>, v: NodeId) {
    !InScope(q, v) && exists u :: u in selected && Step(g, q, u, v)
  }

  /**
   * The search goes on from nodes in the scope only: recorded edges lead from such nodes, other selected
   * nodes are one step out of it, and the boundary is such a node and is missing only if there is none.
   */
  ghost predicate Scoped(g: Graph, q: Query, st: Search) {
    && (forall v :: v in st.next ==> InScope(q, v))
    && (forall v :: v in st.selected ==> InScope(q, v) || StepsOut(g, q, st.selected.Keys, v))
    && (if st.boundary.None? then forall v :: v in st.selected ==> InScope(q, v)
        else StepsOut(g, q, st.selected.Keys, st.boundary.value))
    && ScopedEdges(q, st)
  }

  ghost predicate ScopedEdges(q: Query, st: Search) {
    forall k :: k in st.edges ==> LeadsInside(q, st.selected.Keys, st.edges[k])
  }

  ghost predicate LeadsInside(q: Query, selected: set<NodeId>, e: Edge) {
    exists u, v :: u in selected && InScope(q, u) && v in selected && Leads(q, e, u, v)
  }

  lemma StepsOutStays(g: Graph, q: Query, selected: set<NodeId>, more: set<NodeId>, v: NodeId)
    requires StepsOut(g, q, selected, v) && selected <= more
    ensures StepsOut(g, q, more, v)
  {
    hide Step;
  }

  lemma VisitKeepsScoped(g: Graph, q: Query, maxNodes: nat, st: Search, u: NodeId, e: Edge)
    requires Scoped(g, q, st) && u in st.selected && InScope(q, u) && e in g.edges
    ensures Scoped(g, q, VisitEdge(g, q, maxNodes, st, u, e))
  {
    VisitKeepsScopedEdges(g, q, maxNodes, st, u, e);
    var st' := VisitEdge(g, q, maxNodes, st, u, e);
    hide Step, StepsOut, ScopedEdges;
    forall x | StepsOut(g, q, st.selected.Keys, x) ensures StepsOut(g, q, st'.selected.Keys, x) {
      StepsOutStays(g, q, st.selected.Keys, st'.selected.Keys, x);
    }
    if Permits(q, e) && Neighbor(u, e, q.direction).Some? && Neighbor(u, e, q.direction).value in g.nodes {
      var v := Neighbor(u, e, q.direction).value;
      if !InScope(q, v) { OneStepOut(g, q, st.selected.Keys, u, e, v); }
    }
  }

  lemma VisitKeepsScopedEdges(g: Graph, q: Query, maxNodes: nat, st: Search, u: NodeId, e: Edge)
    requires ScopedEdges(q, st) && u in st.selected && InScope(q, u)
    ensures ScopedEdges(q, VisitEdge(g, q, maxNodes, st, u, e))
  {
    var st' := VisitEdge(g, q, maxNodes, st, u, e);
    forall k | k in st'.edges ensures LeadsInside(q, st'.selected.Keys, st'.edges[k]) {
      if k in st.edges && st'.edges[k] == st.edges[k] {
        assert LeadsInside(q, st.selected.Keys, st.edges[k]);
      } else {
        assert Leads(q, e, u, Neighbor(u, e, q.direction).value);
      }
    }
  }

  lemma OneStepOut(g: Graph, q: Query, selected: set<NodeId>, u: NodeId, e: Edge, v: NodeId)
    requires u in selected && InScope(q, u) && !InScope(q, v)
    requires v in g.nodes && e in g.edges && Leads(q, e, u, v)
    ensures forall more :: selected <= more ==> StepsOut(g, q, more, v)
  {
    assert Step(g, q, u, v);
  }

  /**
   * Along an edge to an existing node: with room, or to a selected node in the scope, the edge is recorded;
   * otherwise the node limit is reported, for a selected node outside the scope as well.
   */
  lemma LimitReportedExactly(g: Graph, q: Query, maxNodes: nat, st: Search, u: NodeId, e: Edge, v: NodeId)
    requires Sound(g, q, maxNodes, st) && Leads(q, e, u, v) && v in g.nodes
    ensures var st' := VisitEdge(g, q, maxNodes, st, u, e);
            var full, isNew := |st.selected| == maxNodes, v !in st.selected;
            var refused := full && (isNew || !InScope(q, v));
            && st'.edges == (if refused then st.edges else st.edges[e.key := e])
            && st'.reasons == (if refused then st.reasons + {NodeLimit} else st.reasons)
            && st'.selected == (if isNew && !full then st.selected[v := g.nodes[v]] else st.selected)
            && st'.next == (if isNew && !full && InScope(q, v) then st.next + [v] else st.next)
            && st'.boundary == (if !InScope(q, v) && st.boundary.None? then Some(v) else st.boundary)
  {
    if v in st.selected { SelectingAgain(g, q, maxNodes, st, v); }
    hide Sound;
  }

  lemma SelectingAgain(g: Graph, q: Query, maxNodes: nat, st: Search, v: NodeId)
    requires Sound(g, q, maxNodes, st) && v in st.selected
    ensures v in g.nodes && st.selected[v := g.nodes[v]] == st.selected
  {
    hide EdgesSound, Elements;
  }

  // ----- Nearest first, along a shortest tree -----

  /** A selected node at distance j + 1 was reached by a recorded edge from one within j. */
  ghost predicate Reached(g: Graph, q: Query, starts: set<NodeId>, st: Search, v: NodeId, j: nat) {
    exists k, u :: k in st.edges && u in st.selected && u in Ball(g, q, starts, j) && Leads(q, st.edges[k], u, v)
  }

  ghost predicate ShortestTree(g: Graph, q: Query, starts: set<NodeId>, st: Search) {
    forall v, j: nat :: v in st.selected && v in Ball(g, q, starts, j + 1) && v !in Ball(g, q, starts, j)
      ==> Reached(g, q, starts, st, v, j)
  }

  /** No omitted node is strictly closer to the starts than a selected one. */
  ghost predicate NearestFirst(g: Graph, q: Query, starts: set<NodeId>, selected: set<NodeId>) {
    forall j: nat, x, y :: x in Ball(g, q, starts, j) && x !in selected && y in selected ==> y in Ball(g, q, starts, j)
  }

  /** All room is taken; without a scope there are more nodes than that within d. */
  ghost predicate Limited(g: Graph, q: Query, starts: set<NodeId>, maxNodes: nat, d: nat, st: Search) {
    |st.selected| == maxNodes && (q.scope == {} ==> |Ball(g, q, starts, d)| > maxNodes)
  }

  /** Mid-level invariant: `base` was selected when the level at distance d began. */
  ghost predicate Level(g: Graph, q: Query, starts: set<NodeId>, maxNodes: nat, d: nat, base: set<NodeId>, st: Search) {
    && base <= st.selected.Keys
    && (forall v :: v in st.next <==> v in st.selected && v !in base && InScope(q, v))
    && (st.selected.Keys != base ==> base == Ball(g, q, starts, d))
    && base <= Ball(g, q, starts, d)
    && st.selected.Keys <= Ball(g, q, starts, d + 1)
    && (NodeLimit in st.reasons ==> Limited(g, q, starts, maxNodes, d + 1, st))
    && (NodeLimit !in st.reasons ==> base == Ball(g, q, starts, d))
    && DepthLimit !in st.reasons
    && ShortestTree(g, q, starts, st)
    && NearestFirst(g, q, starts, st.selected.Keys)
  }

  lemma BallsAreNested(g: Graph, q: Query, starts: set<NodeId>)
    ensures forall j: nat, k: nat :: j <= k ==> Ball(g, q, starts, j) <= Ball(g, q, starts, k)
  {
    hide Ball;
    forall j: nat, k: nat | j <= k ensures Ball(g, q, starts, j) <= Ball(g, q, starts, k) {
      BallGrows(g, q, starts, j, k);
    }
  }

  /** Recording an edge never hurts the tree. */
  lemma TreeKeepsEdges(g: Graph, q: Query, starts: set<NodeId>, st: Search, st': Search)
    requires ShortestTree(g, q, starts, st) && st'.selected == st.selected
    requires forall k :: k in st.edges ==> k in st'.edges && st'.edges[k].key == st.edges[k].key == k
    ensures ShortestTree(g, q, starts, st')
  {
    hide Ball;
    forall v, j: nat | v in st'.selected && v in Ball(g, q, starts, j + 1) && v !in Ball(g, q, starts, j)
      ensures Reached(g, q, starts, st', v, j)
    {
      assert Reached(g, q, starts, st, v, j);
      var k, u :| k in st.edges && u in st.selected && u in Ball(g, q, starts, j) && Leads(q, st.edges[k], u, v);
      assert Leads(q, st'.edges[k], u, v);
    }
  }

  /** st' is st with v newly selected along e. */
  ghost predicate Chosen(g: Graph, q: Query, st: Search, st': Search, v: NodeId, e: Edge) {
    && v in g.nodes && v !in st.selected
    && st'.selected == st.selected[v := g.nodes[v]] && st'.edges == st.edges[e.key := e]
    && st'.next == (if InScope(q, v) then st.next + [v] else st.next)
    && st'.reasons == st.reasons
  }

  lemma TreeGrows(g: Graph, q: Query, starts: set<NodeId>, d: nat, st: Search, st': Search, u: NodeId, v: NodeId,
                  e: Edge)
    requires ShortestTree(g, q, starts, st) && Ball(g, q, starts, d) <= st.selected.Keys
    requires forall k :: k in st.edges ==> st.edges[k].key == k
    requires u in Ball(g, q, starts, d) && InScope(q, u) && e in g.edges && Leads(q, e, u, v)
    requires Chosen(g, q, st, st', v, e)
    ensures ShortestTree(g, q, starts, st')
  {
    hide Ball;
    BallsAreNested(g, q, starts);
    forall x, j: nat | x in st'.selected && x in Ball(g, q, starts, j + 1) && x !in Ball(g, q, starts, j)
      ensures Reached(g, q, starts, st', x, j)
    {
      if x == v {
        assert Step(g, q, u, v);
        BallStep(g, q, starts, d, u, v);
        assert j == d;
        assert e.key in st'.edges && Leads(q, st'.edges[e.key], u, v);
      } else {
        assert Reached(g, q, starts, st, x, j);
        var k, w :| k in st.edges && w in st.selected && w in Ball(g, q, starts, j) && Leads(q, st.edges[k], w, x);
        assert Leads(q, st'.edges[k], w, x);
      }
    }
  }

  lemma CutIsNearest(g: Graph, q: Query, starts: set<NodeId>, d: nat, selected: set<NodeId>)
    requires Ball(g, q, starts, d) <= selected <= Ball(g, q, starts, d + 1)
    ensures NearestFirst(g, q, starts, selected)
  {
    hide Ball;
    BallsAreNested(g, q, starts);
  }

  lemma VisitKeepsLevel(g: Graph, q: Query, starts: set<NodeId>, maxNodes: nat, d: nat, base: set<NodeId>, st: Search,
                        u: NodeId, e: Edge)
    requires Sound(g, q, maxNodes, st) && Level(g, q, starts, maxNodes, d, base, st)
    requires u in base && InScope(q, u) && e in g.edges
    ensures Level(g, q, starts, maxNodes, d, base, VisitEdge(g, q, maxNodes, st, u, e))
    ensures var st' := VisitEdge(g, q, maxNodes, st, u, e);
            NodeLimit !in st'.reasons ==> forall v :: v in g.nodes && Leads(q, e, u, v) ==> v in st'.selected
  {
    hide Level;
    if v :| v in g.nodes && Leads(q, e, u, v) {
      EdgeKeepsLevel(g, q, starts, maxNodes, d, base, st, u, e, v);
      assert forall x :: Leads(q, e, u, x) ==> x == v;
    } else {
      assert Permits(q, e) && Neighbor(u, e, q.direction).Some? ==> Leads(q, e, u, Neighbor(u, e, q.direction).value);
      assert VisitEdge(g, q, maxNodes, st, u, e) == st;
    }
  }

  lemma EdgeKeepsLevel(g: Graph, q: Query, starts: set<NodeId>, maxNodes: nat, d: nat, base: set<NodeId>, st: Search,
                       u: NodeId, e: Edge, v: NodeId)
    requires Sound(g, q, maxNodes, st) && Level(g, q, starts, maxNodes, d, base, st)
    requires u in base && InScope(q, u) && e in g.edges && Leads(q, e, u, v) && v in g.nodes
    ensures var st' := VisitEdge(g, q, maxNodes, st, u, e);
            && Level(g, q, starts, maxNodes, d, base, st')
            && (NodeLimit !in st'.reasons ==> v in st'.selected)
  {
    LevelParts(g, q, starts, maxNodes, d, base, st);
    assert |st.selected| <= maxNodes;
    LimitReportedExactly(g, q, maxNodes, st, u, e, v);
    assert Step(g, q, u, v);
    BallStep(g, q, starts, d, u, v);
    hide VisitEdge, Ball, Level, Limited, Sound, Step, Leads;
    var st' := VisitEdge(g, q, maxNodes, st, u, e);
    if v in st.selected || |st.selected| == maxNodes {
      if |st.selected| == maxNodes { FullIsLimited(g, q, starts, maxNodes, d, st, v); }
      SameSelectionKeepsLevel(g, q, starts, maxNodes, d, base, st, st', e);
    } else {
      SelectKeepsLevel(g, q, starts, maxNodes, d, base, st, st', u, v, e);
    }
  }

  lemma LevelParts(g: Graph, q: Query, starts: set<NodeId>, maxNodes: nat, d: nat, base: set<NodeId>, st: Search)
    requires Level(g, q, starts, maxNodes, d, base, st)
    ensures base <= Ball(g, q, starts, d) && st.selected.Keys <= Ball(g, q, starts, d + 1)
  {
    hide Ball, NearestFirst, ShortestTree, Limited;
  }

  lemma FullIsLimited(g: Graph, q: Query, starts: set<NodeId>, maxNodes: nat, d: nat, st: Search, v: NodeId)
    requires |st.selected| == maxNodes && st.selected.Keys + {v} <= Ball(g, q, starts, d + 1)
    ensures v !in st.selected || !InScope(q, v) ==> Limited(g, q, starts, maxNodes, d + 1, st)
  {
    hide Ball;
    if v !in st.selected { OneMore(st.selected.Keys, Ball(g, q, starts, d + 1), v); }
  }

  lemma SameSelectionKeepsLevel(g: Graph, q: Query, starts: set<NodeId>, maxNodes: nat, d: nat, base: set<NodeId>,
                                st: Search, st': Search, e: Edge)
    requires Sound(g, q, maxNodes, st) && Level(g, q, starts, maxNodes, d, base, st)
    requires st'.selected == st.selected && st'.next == st.next
    requires st'.edges == st.edges || st'.edges == st.edges[e.key := e]
    requires || st'.reasons == st.reasons
             || (st'.reasons == st.reasons + {NodeLimit} && Limited(g, q, starts, maxNodes, d + 1, st))
    ensures Level(g, q, starts, maxNodes, d, base, st')
  {
    EdgesAreKeyed(g, q, maxNodes, st);
    hide Ball, NearestFirst, ShortestTree, Sound;
    TreeKeepsEdges(g, q, starts, st, st');
  }

  lemma SelectKeepsLevel(g: Graph, q: Query, starts: set<NodeId>, maxNodes: nat, d: nat, base: set<NodeId>, st: Search,
                         st': Search, u: NodeId, v: NodeId, e: Edge)
    requires Sound(g, q, maxNodes, st) && Level(g, q, starts, maxNodes, d, base, st) && |st.selected| < maxNodes
    requires u in base && InScope(q, u) && e in g.edges && Leads(q, e, u, v) && Chosen(g, q, st, st', v, e)
    requires v in Ball(g, q, starts, d + 1)
    ensures Level(g, q, starts, maxNodes, d, base, st')
  {
    hide Ball, NearestFirst, ShortestTree, Sound, Leads;
    EdgesAreKeyed(g, q, maxNodes, st);
    TreeGrows(g, q, starts, d, st, st', u, v, e);
    assert st'.selected.Keys == st.selected.Keys + {v};
    CutIsNearest(g, q, starts, d, st.selected.Keys + {v});
  }

  lemma EdgesAreKeyed(g: Graph, q: Query, maxNodes: nat, st: Search)
    requires Sound(g, q, maxNodes, st)
    ensures forall k :: k in st.edges ==> st.edges[k].key == k
  {}

  lemma OneMore<T>(a: set<T>, b: set<T>, x: T)
    requires a <= b && x in b && x !in a
    ensures |b| > |a|
  {
    SubsetCardinality(a, b);
  }

  // ----- Between levels -----

  /** The nodes at distance exactly d. */
  ghost function Rim(g: Graph, q: Query, starts: set<NodeId>, d: nat): set<NodeId> {
    if d == 0 then Ball(g, q, starts, 0) else Ball(g, q, starts, d) - Ball(g, q, starts, d - 1)
  }

  /** Every step out of the ball starts at its open rim. */
  lemma RimHoldsExits(g: Graph, q: Query, starts: set<NodeId>, d: nat)
    ensures forall u, v :: u in Ball(g, q, starts, d) && Step(g, q, u, v) && v !in Ball(g, q, starts, d)
              ==> u in Open(g, q, starts, d)
  {
    hide Ball, Step;
    forall u, v | u in Ball(g, q, starts, d) && Step(g, q, u, v) && v !in Ball(g, q, starts, d)
      ensures u in Open(g, q, starts, d)
    {
      StepIsInScope(g, q, u, v);
      if d > 0 && u in Ball(g, q, starts, d - 1) { BallStep(g, q, starts, d - 1, u, v); }
    }
  }

  /** The rim within the scope: where the search goes on. */
  ghost function Open(g: Graph, q: Query, starts: set<NodeId>, d: nat): (open: set<NodeId>)
    ensures forall u :: u in open <==> u in Rim(g, q, starts, d) && InScope(q, u)
  {
    set u | u in Rim(g, q, starts, d) && InScope(q, u)
  }

  /** After d levels, unless cut, the selection is the ball and `frontier` its open rim. */
  ghost predicate AtLevel(g: Graph, q: Query, starts: set<NodeId>, maxNodes: nat, d: nat, st: Search,
                          frontier: set<NodeId>)
  {
    && frontier <= st.selected.Keys <= Ball(g, q, starts, d)
    && (NodeLimit in st.reasons ==> Limited(g, q, starts, maxNodes, d, st))
    && (NodeLimit !in st.reasons ==>
          st.selected.Keys == Ball(g, q, starts, d) && frontier == Open(g, q, starts, d))
    && DepthLimit !in st.reasons
    && ShortestTree(g, q, starts, st)
    && NearestFirst(g, q, starts, st.selected.Keys)
  }

  lemma StepIsInScope(g: Graph, q: Query, u: NodeId, v: NodeId)
    requires Step(g, q, u, v)
    ensures InScope(q, u)
  {}

  lemma BallSizeGrows(g: Graph, q: Query, starts: set<NodeId>, j: nat, k: nat)
    requires j <= k
    ensures |Ball(g, q, starts, j)| <= |Ball(g, q, starts, k)|
  {
    BallGrows(g, q, starts, j, k);
    SubsetCardinality(Ball(g, q, starts, j), Ball(g, q, starts, k));
  }

  lemma BeginLevel(g: Graph, q: Query, starts: set<NodeId>, maxNodes: nat, d: nat, st: Search, frontier: set<NodeId>)
    requires AtLevel(g, q, starts, maxNodes, d, st, frontier)
    ensures Level(g, q, starts, maxNodes, d, st.selected.Keys, st.(next := []))
  {
    hide Ball, Step, NearestFirst;
    BallGrows(g, q, starts, d, d + 1);
    BallSizeGrows(g, q, starts, d, d + 1);
    TreeKeepsEdgesOnly(g, q, starts, st, st.(next := []));
    assert Elements<NodeId>([]) == {};
  }

  lemma TreeKeepsEdgesOnly(g: Graph, q: Query, starts: set<NodeId>, st: Search, st': Search)
    requires ShortestTree(g, q, starts, st) && st'.selected == st.selected && st'.edges == st.edges
    ensures ShortestTree(g, q, starts, st')
  {
    hide Ball;
    forall v, j: nat | v in st'.selected && v in Ball(g, q, starts, j + 1) && v !in Ball(g, q, starts, j)
      ensures Reached(g, q, starts, st', v, j)
    {
      assert Reached(g, q, starts, st, v, j);
    }
  }

  lemma EndLevel(g: Graph, q: Query, starts: set<NodeId>, maxNodes: nat, d: nat, base: set<NodeId>, st: Search,
                 frontier: set<NodeId>)
    requires Level(g, q, starts, maxNodes, d, base, st)
    requires NodeLimit !in st.reasons ==>
               forall u, v :: u in Ball(g, q, starts, d) && Step(g, q, u, v) && v !in Ball(g, q, starts, d) ==>
                 u in frontier
    requires NodeLimit !in st.reasons ==> forall u, v :: u in frontier && Step(g, q, u, v) ==> v in st.selected
    ensures AtLevel(g, q, starts, maxNodes, d + 1, st, Elements(st.next))
  {
    hide Ball, Step, NearestFirst, ShortestTree;
    BallUnfolds(g, q, starts, d + 1);
    if NodeLimit !in st.reasons {
      forall v | v in Ball(g, q, starts, d + 1) ensures v in st.selected {
        if v !in Ball(g, q, starts, d) {
          var u :| u in Ball(g, q, starts, d) && Step(g, q, u, v);
        }
      }
    }
  }

  // ----- Which edges are recorded -----

  /** Some permitted edge with this key leads from u. */
  ghost predicate LedFrom(g: Graph, q: Query, k: EdgeKey, u: NodeId) {
    exists e, v :: e in g.edges && e.key == k && Leads(q, e, u, v)
  }

  /** e was dealt with from u: it is recorded, or the limit reported and its other end not selected or outside. */
  ghost predicate Done(g: Graph, q: Query, maxNodes: nat, st: Search, u: NodeId, e: Edge) {
    forall v :: v in g.nodes && Leads(q, e, u, v) ==>
      || e.key in st.edges
      || (NodeLimit in st.reasons && |st.selected| == maxNodes && (v !in st.selected || !InScope(q, v)))
  }

  /** All edges from expanded nodes were dealt with, and no others recorded. */
  ghost predicate Tracked(g: Graph, q: Query, maxNodes: nat, st: Search, expanded: set<NodeId>) {
    && (forall u, e :: u in expanded && e in g.edges ==> Done(g, q, maxNodes, st, u, e))
    && (forall k :: k in st.edges ==> exists u :: u in expanded && LedFrom(g, q, k, u))
  }

  /** Edges, reasons and nodes are only added, nodes only below the limit. */
  ghost predicate Later(maxNodes: nat, st: Search, st': Search) {
    && st.edges.Keys <= st'.edges.Keys && st.selected.Keys <= st'.selected.Keys && st.reasons <= st'.reasons
    && (|st.selected| == maxNodes ==> st'.selected.Keys == st.selected.Keys)
  }

  lemma DoneStays(g: Graph, q: Query, maxNodes: nat, st: Search, st': Search, u: NodeId, e: Edge)
    requires Done(g, q, maxNodes, st, u, e) && Later(maxNodes, st, st')
    ensures Done(g, q, maxNodes, st', u, e)
  {
    hide Leads;
    assert |st.selected.Keys| == |st.selected| && |st'.selected.Keys| == |st'.selected|;
  }

  lemma LaterChains(maxNodes: nat, a: Search, b: Search, c: Search)
    requires Later(maxNodes, a, b) && Later(maxNodes, b, c)
    ensures Later(maxNodes, a, c)
  {
    assert |a.selected.Keys| == |a.selected| && |b.selected.Keys| == |b.selected|;
  }

  lemma VisitTracks(g: Graph, q: Query, maxNodes: nat, st: Search, u: NodeId, e: Edge)
    requires e in g.edges && |st.selected| <= maxNodes
    ensures var st' := VisitEdge(g, q, maxNodes, st, u, e);
            && Later(maxNodes, st, st') && Done(g, q, maxNodes, st', u, e)
            && forall k :: k in st'.edges ==> k in st.edges || LedFrom(g, q, k, u)
  {
    var st' := VisitEdge(g, q, maxNodes, st, u, e);
    if st'.edges != st.edges {
      assert Leads(q, e, u, Neighbor(u, e, q.direction).value);
      assert LedFrom(g, q, e.key, u);
    }
  }

  // ----- The loops -----

  function IncidentEdges(edges: seq<Edge>, id: NodeId): (r: seq<Edge>)
    ensures forall e :: e in r <==> e in edges && (e.key.sourceId == id || e.key.targetId == id)
  {
    if edges == [] then [] else
      var e := edges[|edges| - 1];
      IncidentEdges(edges[..|edges| - 1], id) + if e.key.sourceId == id || e.key.targetId == id then [e] else []
  }

  method ExpandNode(g: Graph, q: Query, maxNodes: nat, start: Search, u: NodeId,
                    ghost starts: set<NodeId>, ghost d: nat, ghost base: set<NodeId>)
    returns (st: Search)
    requires Sound(g, q, maxNodes, start) && u in start.selected
    requires Scoped(g, q, start) && InScope(q, u)
    requires Level(g, q, starts, maxNodes, d, base, start) && u in base
    ensures Scoped(g, q, st)
    ensures Sound(g, q, maxNodes, st) && start.selected.Keys <= st.selected.Keys && start.reasons <= st.reasons
    ensures Level(g, q, starts, maxNodes, d, base, st)
    ensures NodeLimit !in st.reasons ==> forall v :: Step(g, q, u, v) ==> v in st.selected
    ensures Later(maxNodes, start, st)
    ensures forall e :: e in g.edges ==> Done(g, q, maxNodes, st, u, e)
    ensures forall k :: k in st.edges ==> k in start.edges || LedFrom(g, q, k, u)
  {
    hide Sound, Level, Later, Done, LedFrom, Scoped;
    st := start;
    var edges := IncidentEdges(g.edges, u);
    LaterStarts(maxNodes, start);
    for i := 0 to |edges|
      invariant Scoped(g, q, st)
      invariant Sound(g, q, maxNodes, st) && start.selected.Keys <= st.selected.Keys && start.reasons <= st.reasons
      invariant Level(g, q, starts, maxNodes, d, base, st)
      invariant NodeLimit !in st.reasons ==>
                  forall j, v :: 0 <= j < i && v in g.nodes && Leads(q, edges[j], u, v) ==> v in st.selected
      invariant Later(maxNodes, start, st)
      invariant forall j :: 0 <= j < i ==> Done(g, q, maxNodes, st, u, edges[j])
      invariant forall k :: k in st.edges ==> k in start.edges || LedFrom(g, q, k, u)
    {
      assert edges[i] in edges;
      VisitKeepsSound(g, q, maxNodes, st, u, edges[i]);
      VisitKeepsScoped(g, q, maxNodes, st, u, edges[i]);
      VisitKeepsLevel(g, q, starts, maxNodes, d, base, st, u, edges[i]);
      VisitAllTracks(g, q, maxNodes, start, st, u, edges, i);
      st := VisitEdge(g, q, maxNodes, st, u, edges[i]);
    }
    AllIncidentDone(g, q, maxNodes, st, u, edges);
    if NodeLimit !in st.reasons {
      forall v | Step(g, q, u, v) ensures v in st.selected {
        var e :| e in g.edges && Leads(q, e, u, v);
        assert e in edges;
        var j :| 0 <= j < |edges| && edges[j] == e;
      }
    }
  }

  lemma LaterStarts(maxNodes: nat, st: Search)
    ensures Later(maxNodes, st, st)
  {}

  lemma VisitAllTracks(g: Graph, q: Query, maxNodes: nat, start: Search, st: Search, u: NodeId, edges: seq<Edge>,
                       i: nat)
    requires i < |edges| && edges[i] in g.edges && Sound(g, q, maxNodes, st) && Later(maxNodes, start, st)
    requires forall j :: 0 <= j < i ==> Done(g, q, maxNodes, st, u, edges[j])
    requires forall k :: k in st.edges ==> k in start.edges || LedFrom(g, q, k, u)
    ensures var st' := VisitEdge(g, q, maxNodes, st, u, edges[i]);
            && Later(maxNodes, start, st')
            && (forall j :: 0 <= j < i + 1 ==> Done(g, q, maxNodes, st', u, edges[j]))
            && (forall k :: k in st'.edges ==> k in start.edges || LedFrom(g, q, k, u))
  {
    var st' := VisitEdge(g, q, maxNodes, st, u, edges[i]);
    VisitTracks(g, q, maxNodes, st, u, edges[i]);
    LaterChains(maxNodes, start, st, st');
    hide VisitEdge, Done, LedFrom, Later;
    forall j | 0 <= j < i ensures Done(g, q, maxNodes, st', u, edges[j]) {
      DoneStays(g, q, maxNodes, st, st', u, edges[j]);
    }
  }

  /** An edge that does not touch u leads nowhere from it. */
  lemma AllIncidentDone(g: Graph, q: Query, maxNodes: nat, st: Search, u: NodeId, edges: seq<Edge>)
    requires forall e :: e in edges <==> e in g.edges && (e.key.sourceId == u || e.key.targetId == u)
    requires forall j :: 0 <= j < |edges| ==> Done(g, q, maxNodes, st, u, edges[j])
    ensures forall e :: e in g.edges ==> Done(g, q, maxNodes, st, u, e)
  {
    forall e | e in g.edges ensures Done(g, q, maxNodes, st, u, e) {
      if e in edges { var j :| 0 <= j < |edges| && edges[j] == e; }
    }
  }

  method ExpandLevel(g: Graph, q: Query, maxNodes: nat, start: Search, frontier: seq<NodeId>,
                     ghost starts: set<NodeId>, ghost d: nat, ghost expanded: set<NodeId>)
    returns (st: Search)
    requires Sound(g, q, maxNodes, start) && Elements(frontier) <= start.selected.Keys
    requires Scoped(g, q, start) && forall u :: u in frontier ==> InScope(q, u)
    requires AtLevel(g, q, starts, maxNodes, d, start, Elements(frontier))
    requires Tracked(g, q, maxNodes, start, expanded)
    ensures Sound(g, q, maxNodes, st) && Scoped(g, q, st)
    ensures AtLevel(g, q, starts, maxNodes, d + 1, st, Elements(st.next))
    ensures Tracked(g, q, maxNodes, st, expanded + Elements(frontier))
    ensures NewlySelected(g, q, starts, d, start, st)
  {
    hide Sound, Level, AtLevel, Step, Ball, Tracked, Scoped, StepsOut;
    BeginLevel(g, q, starts, maxNodes, d, start, Elements(frontier));
    ghost var base := start.selected.Keys;
    st := start.(next := []);
    ForgetNext(g, q, maxNodes, start);
    NextIsNotTracked(g, q, maxNodes, start, expanded);
    for i := 0 to |frontier|
      invariant Scoped(g, q, st)
      invariant Sound(g, q, maxNodes, st) && base <= st.selected.Keys && start.reasons <= st.reasons
      invariant Level(g, q, starts, maxNodes, d, base, st)
      invariant NodeLimit !in st.reasons ==>
                  forall j, v :: 0 <= j < i && Step(g, q, frontier[j], v) ==> v in st.selected
      invariant Tracked(g, q, maxNodes, st, expanded + Elements(frontier[..i]))
    {
      assert frontier[i] in Elements(frontier);
      ghost var before := st;
      st := ExpandNode(g, q, maxNodes, st, frontier[i], starts, d, base);
      ExpandTracks(g, q, maxNodes, before, st, expanded, frontier, i);
    }
    assert frontier[..|frontier|] == frontier;
    FrontierStillOpen(g, q, starts, maxNodes, d, start, st.reasons, Elements(frontier));
    EndLevel(g, q, starts, maxNodes, d, base, st, Elements(frontier));
    NewNodes(g, q, starts, maxNodes, d, start, st);
  }

  /** What a level adds inside the scope is the next frontier, none of it within the level's distance. */
  ghost predicate NewlySelected(g: Graph, q: Query, starts: set<NodeId>, d: nat, start: Search, st: Search) {
    && start.selected.Keys <= st.selected.Keys
    && (forall v :: v in Elements(st.next) <==> v in st.selected && v !in start.selected && InScope(q, v))
    && start.selected.Keys <= Ball(g, q, starts, d) && Elements(st.next) !! Ball(g, q, starts, d)
  }

  lemma NewNodes(g: Graph, q: Query, starts: set<NodeId>, maxNodes: nat, d: nat, start: Search, st: Search)
    requires Level(g, q, starts, maxNodes, d, start.selected.Keys, st)
    ensures NewlySelected(g, q, starts, d, start, st)
  {
    hide Ball, ShortestTree, NearestFirst;
  }

  lemma NextIsNotTracked(g: Graph, q: Query, maxNodes: nat, st: Search, expanded: set<NodeId>)
    requires Tracked(g, q, maxNodes, st, expanded)
    ensures Tracked(g, q, maxNodes, st.(next := []), expanded + Elements([]))
  {
    hide Tracked;
    TrackedStays(g, q, maxNodes, st, st.(next := []), expanded);
    assert expanded + Elements([]) == expanded;
  }

  lemma ExpandTracks(g: Graph, q: Query, maxNodes: nat, before: Search, st: Search, expanded: set<NodeId>,
                     frontier: seq<NodeId>, i: nat)
    requires i < |frontier| && Tracked(g, q, maxNodes, before, expanded + Elements(frontier[..i]))
    requires Later(maxNodes, before, st) && forall e :: e in g.edges ==> Done(g, q, maxNodes, st, frontier[i], e)
    requires forall k :: k in st.edges ==> k in before.edges || LedFrom(g, q, k, frontier[i])
    ensures Tracked(g, q, maxNodes, st, expanded + Elements(frontier[..i + 1]))
  {
    hide Done, LedFrom, Later;
    assert frontier[..i + 1] == frontier[..i] + [frontier[i]];
    var more := expanded + Elements(frontier[..i + 1]);
    forall u, e | u in more && e in g.edges ensures Done(g, q, maxNodes, st, u, e) {
      if u != frontier[i] { DoneStays(g, q, maxNodes, before, st, u, e); }
    }
    forall k | k in st.edges ensures exists u :: u in more && LedFrom(g, q, k, u) {
      if k in before.edges {
        var u :| u in expanded + Elements(frontier[..i]) && LedFrom(g, q, k, u);
        assert u in more;
      } else {
        assert frontier[i] in more;
      }
    }
  }

  lemma ForgetNext(g: Graph, q: Query, maxNodes: nat, st: Search)
    requires Sound(g, q, maxNodes, st) && Scoped(g, q, st)
    ensures Sound(g, q, maxNodes, st.(next := [])) && Scoped(g, q, st.(next := []))
  {
    hide StepsOut, LeadsInside, EdgesSound, NodesSound;
  }

  lemma FrontierStillOpen(g: Graph, q: Query, starts: set<NodeId>, maxNodes: nat, d: nat, st: Search,
                          reasons: set<TruncationReason>, frontier: set<NodeId>)
    requires AtLevel(g, q, starts, maxNodes, d, st, frontier) && st.reasons <= reasons
    ensures NodeLimit !in reasons ==>
              forall u, v :: u in Ball(g, q, starts, d) && Step(g, q, u, v) && v !in Ball(g, q, starts, d) ==>
                u in frontier
  {
    hide Ball, Step, Rim;
    RimHoldsExits(g, q, starts, d);
  }

  // ----- Starts, truncation check, and the whole traversal -----

  datatype Starts = Starts(selected: map<NodeId, NodeFact>, frontier: seq<NodeId>, truncated: bool)

  /** The found start nodes, up to the node limit. */
  method SelectStarts(g: Graph, starts: seq<NodeId>, q: Query, maxNodes: nat)
    returns (r: Result<Starts, TraversalError>)
    requires maxNodes > 0
    ensures r.Err? ==> r.error == StartOutsideScope
    ensures r.Err? <==> exists i :: StrayStart(g, q, starts, maxNodes, i)
    ensures r.Ok? ==> forall v :: v in r.value.selected ==> InScope(q, v)
    ensures r.Ok? ==> |r.value.selected| <= maxNodes && NodesSound(g, r.value.selected)
    ensures r.Ok? ==> Elements(r.value.frontier) == r.value.selected.Keys <= Ball(g, q, Elements(starts), 0)
    ensures r.Ok? && !r.value.truncated ==> r.value.selected.Keys == Ball(g, q, Elements(starts), 0)
    ensures r.Ok? && r.value.truncated ==> |r.value.selected| == maxNodes < |Ball(g, q, Elements(starts), 0)|
    ensures r.Ok? ==> exists i :: 0 <= i <= |starts| && r.value.selected.Keys == Found(g, starts[..i])
  {
    hide Ball, Found, NodesSound, Elements, StrayStart;
    var selected: map<NodeId, NodeFact>, frontier: seq<NodeId> := map[], [];
    NothingFound(g);
    for i := 0 to |starts|
      invariant |selected| <= maxNodes && NodesSound(g, selected)
      invariant forall v :: v in selected ==> InScope(q, v)
      invariant Elements(frontier) == selected.Keys
      invariant selected.Keys == Found(g, starts[..i])
    {
      var id := starts[i];
      FoundExtends(g, starts, i);
      if id !in selected && id in g.nodes {
        if !InScope(q, id) {
          StrayHere(g, q, starts, maxNodes, i);
          return Err(StartOutsideScope);
        }
        if |selected| == maxNodes {
          StartsCutOff(g, q, starts, i, selected.Keys);
          NoStrayAfterCut(g, q, starts, maxNodes, i);
          return Ok(Starts(selected, frontier, true));
        }
        StartSelected(g, selected, frontier, id);
        selected := selected[id := g.nodes[id]];
        frontier := frontier + [id];
      }
    }
    assert starts[..|starts|] == starts;
    FoundIsBall(g, q, starts);
    NoStrayStart(g, q, starts, maxNodes);
    return Ok(Starts(selected, frontier, false));
  }

  /** A found start outside the scope, after at most as many distinct found ones as may be selected. */
  predicate StrayStart(g: Graph, q: Query, starts: seq<NodeId>, maxNodes: nat, i: int) {
    0 <= i < |starts| && starts[i] in g.nodes && !InScope(q, starts[i]) && |Found(g, starts[..i])| <= maxNodes
  }

  lemma StrayHere(g: Graph, q: Query, starts: seq<NodeId>, maxNodes: nat, i: nat)
    requires i < |starts| && starts[i] in g.nodes && !InScope(q, starts[i]) && |Found(g, starts[..i])| <= maxNodes
    ensures StrayStart(g, q, starts, maxNodes, i)
  {}

  lemma NoStrayStart(g: Graph, q: Query, starts: seq<NodeId>, maxNodes: nat)
    requires forall v :: v in Found(g, starts) ==> InScope(q, v)
    ensures forall j :: !StrayStart(g, q, starts, maxNodes, j)
  {
    assert forall j :: 0 <= j < |starts| && starts[j] in g.nodes ==> starts[j] in Found(g, starts);
  }

  lemma NoStrayAfterCut(g: Graph, q: Query, starts: seq<NodeId>, maxNodes: nat, i: nat)
    requires i < |starts| && starts[i] in g.nodes && starts[i] !in Found(g, starts[..i])
    requires |Found(g, starts[..i])| == maxNodes && InScope(q, starts[i])
    requires forall v :: v in Found(g, starts[..i]) ==> InScope(q, v)
    ensures forall j :: !StrayStart(g, q, starts, maxNodes, j)
  {
    forall j | 0 <= j <= i && starts[j] in g.nodes ensures InScope(q, starts[j]) {
      if j < i { assert starts[..i][j] == starts[j] && starts[j] in Found(g, starts[..i]); }
    }
    forall j | i < j < |starts| ensures |Found(g, starts[..j])| > maxNodes {
      assert starts[..i] == starts[..j][..i] && starts[i] == starts[..j][i];
      OneMore(Found(g, starts[..i]), Found(g, starts[..j]), starts[i]);
    }
  }

  lemma NothingFound(g: Graph)
    ensures Found(g, []) == {} && NodesSound(g, map[]) && Elements<NodeId>([]) == {}
  {}

  lemma StartSelected(g: Graph, selected: map<NodeId, NodeFact>, frontier: seq<NodeId>, id: NodeId)
    requires NodesSound(g, selected) && Elements(frontier) == selected.Keys && id in g.nodes
    ensures NodesSound(g, selected[id := g.nodes[id]]) && |selected[id := g.nodes[id]]| <= |selected| + 1
    ensures Elements(frontier + [id]) == selected[id := g.nodes[id]].Keys == selected.Keys + {id}
  {
    MapGrowsByOne(selected, id, g.nodes[id]);
    assert Elements(frontier + [id]) == Elements(frontier) + {id};
  }

  function Found(g: Graph, starts: seq<NodeId>): set<NodeId> {
    set v | v in starts && v in g.nodes
  }

  lemma FoundExtends(g: Graph, starts: seq<NodeId>, i: nat)
    requires i < |starts|
    ensures Found(g, starts[..i + 1]) == Found(g, starts[..i]) + if starts[i] in g.nodes then {starts[i]} else {}
  {
    assert starts[..i + 1] == starts[..i] + [starts[i]];
  }

  lemma FoundIsBall(g: Graph, q: Query, starts: seq<NodeId>)
    ensures Found(g, starts) == Ball(g, q, Elements(starts), 0)
  {}

  /** A found start beyond the first selected ones: the limit cut it off. */
  lemma StartsCutOff(g: Graph, q: Query, starts: seq<NodeId>, i: nat, selected: set<NodeId>)
    requires i < |starts| && starts[i] in g.nodes && starts[i] !in selected && selected == Found(g, starts[..i])
    ensures selected <= Ball(g, q, Elements(starts), 0) && |selected| < |Ball(g, q, Elements(starts), 0)|
  {
    FoundIsBall(g, q, starts);
    hide Ball;
    OneMore(selected, Found(g, starts), starts[i]);
  }

  ghost predicate LeadsOut(g: Graph, q: Query, selected: set<NodeId>, u: NodeId) {
    exists e, v :: e in g.edges && Leads(q, e, u, v) && v !in selected
  }

  /** hasTraversableNeighbor: an unselected neighbour, existing or not. */
  method HasTraversableNeighbor(g: Graph, q: Query, u: NodeId, selected: set<NodeId>) returns (found: bool)
    ensures found <==> LeadsOut(g, q, selected, u)
  {
    var edges := IncidentEdges(g.edges, u);
    for i := 0 to |edges|
      invariant forall j, v :: 0 <= j < i && Leads(q, edges[j], u, v) ==> v in selected
    {
      assert edges[i] in edges;
      if Permits(q, edges[i]) {
        match Neighbor(u, edges[i], q.direction) {
          case None =>
          case Some(v) =>
            if v !in selected {
              assert edges[i] in g.edges && Leads(q, edges[i], u, v);
              return true;
            }
        }
      }
    }
    forall e, v | e in g.edges && Leads(q, e, u, v) ensures v in selected {
      assert e in edges;
      var j :| 0 <= j < |edges| && edges[j] == e;
    }
    return false;
  }

  /**
   * What a traversal promises, the ball being that of the scope: the node limit is reported when nodes
   * are left out for it, and only when all room is taken.
   */
  ghost predicate Explored(g: Graph, request: TraversalRequest, st: Search)
    requires request.maxDepth >= 0 && request.maxNodes > 0
  {
    var q, starts, depth := request.query, Elements(request.starts), request.maxDepth as nat;
    && st.selected.Keys <= Ball(g, q, starts, depth)
    && (|Ball(g, q, starts, depth)| > request.maxNodes ==> NodeLimit in st.reasons)
    && (NodeLimit in st.reasons ==> Limited(g, q, starts, request.maxNodes, depth, st))
    && (NodeLimit !in st.reasons ==> st.selected.Keys == Ball(g, q, starts, depth))
    && (st.reasons == {} ==> forall k: nat :: Ball(g, q, starts, k) <= st.selected.Keys)
    && (NodeLimit !in st.reasons ==>
          (DepthLimit in st.reasons <==>
             exists u :: u in Open(g, q, starts, depth) && LeadsOut(g, q, st.selected.Keys, u)))
    && NearestFirst(g, q, starts, st.selected.Keys)
    && ShortestTree(g, q, starts, st)
  }

  /** e leads to v from a selected node in the scope, within the depth short of one step. */
  ghost predicate Followed(g: Graph, request: TraversalRequest, st: Search, e: Edge, v: NodeId)
    requires request.maxDepth > 0
  {
    var q, starts := request.query, Elements(request.starts);
    e in g.edges && exists u :: u in st.selected && InScope(q, u) && u in Ball(g, q, starts, request.maxDepth - 1)
                                && Leads(q, e, u, v)
  }

  /**
   * The edges returned, whether or not the node limit cut: those followed to a selected node, except that
   * some of those that leave the scope may be missing once the limit is reported; none when the starts
   * alone are too many.
   */
  ghost predicate EdgesExact(g: Graph, request: TraversalRequest, st: Search)
    requires request.maxDepth >= 0 && request.maxNodes > 0
  {
    if request.maxDepth == 0 || |Ball(g, request.query, Elements(request.starts), 0)| > request.maxNodes
    then st.edges == map[]
    else
      && (forall k :: k in st.edges ==>
            exists e: Edge, v :: e.key == k && v in st.selected && Followed(g, request, st, e, v))
      && (forall e: Edge, v :: v in st.selected && Followed(g, request, st, e, v) ==>
            e.key in st.edges || (NodeLimit in st.reasons && !InScope(request.query, v)))
  }

  lemma StartsAtLevelZero(g: Graph, q: Query, starts: set<NodeId>, maxNodes: nat, st: Search)
    requires st.selected.Keys <= Ball(g, q, starts, 0)
    requires if st.reasons == {} then st.selected.Keys == Ball(g, q, starts, 0)
             else st.reasons == {NodeLimit} && |st.selected| == maxNodes < |Ball(g, q, starts, 0)|
    requires forall v :: v in st.selected ==> InScope(q, v)
    ensures AtLevel(g, q, starts, maxNodes, 0, st, st.selected.Keys)
  {
    hide Ball;
    BallsAreNested(g, q, starts);
  }

  /** The last level is closed when no frontier node leads out of the selection. */
  lemma LevelIsExplored(g: Graph, request: TraversalRequest, d: nat, st: Search, frontier: set<NodeId>,
                        reasons: set<TruncationReason>)
    requires request.maxDepth >= d && request.maxNodes > 0 && |st.selected| <= request.maxNodes
    requires AtLevel(g, request.query, Elements(request.starts), request.maxNodes, d, st, frontier)
    requires d == request.maxDepth || frontier == {} || NodeLimit in st.reasons
    requires reasons == st.reasons || reasons == st.reasons + {DepthLimit}
    requires DepthLimit in reasons <==> exists u :: u in frontier && LeadsOut(g, request.query, st.selected.Keys, u)
    ensures Explored(g, request, st.(reasons := reasons))
  {
    hide Ball, NearestFirst;
    var q, starts := request.query, Elements(request.starts);
    BallsAreNested(g, q, starts);
    BallSizeGrows(g, q, starts, d, request.maxDepth);
    TreeKeepsEdgesOnly(g, q, starts, st, st.(reasons := reasons));
    if NodeLimit !in st.reasons {
      hide LeadsOut;
      if DepthLimit !in reasons { NothingLeadsOut(g, q, starts, d, st.selected.Keys); }
      assert frontier == {} ==> DepthLimit !in reasons;
      assert Ball(g, q, starts, request.maxDepth) == Ball(g, q, starts, d) == st.selected.Keys;
      assert |st.selected| == |Ball(g, q, starts, d)|;
    }
  }

  /** A ball whose open rim does not lead out is everything reachable. */
  lemma NothingLeadsOut(g: Graph, q: Query, starts: set<NodeId>, d: nat, selected: set<NodeId>)
    requires selected == Ball(g, q, starts, d)
    requires forall u :: u in Open(g, q, starts, d) ==> !LeadsOut(g, q, selected, u)
    ensures forall k: nat :: Ball(g, q, starts, k) <= selected
  {
    RimHoldsExits(g, q, starts, d);
    hide Ball, Open;
    forall u, v | u in selected && Step(g, q, u, v) ensures v in selected {
      assert v !in selected ==> LeadsOut(g, q, selected, u);
    }
    forall k: nat ensures Ball(g, q, starts, k) <= selected { ClosedBallIsAll(g, q, starts, d, k); }
  }

  /** A permitted edge leads from u to a node that does not exist. */
  ghost predicate Dangles(g: Graph, q: Query, u: NodeId) {
    exists e, v :: e in g.edges && Leads(q, e, u, v) && v !in g.nodes
  }

  /** Some reachable node was left out. */
  ghost predicate LeavesOut(g: Graph, q: Query, starts: set<NodeId>, selected: set<NodeId>) {
    exists k: nat, v :: v in Ball(g, q, starts, k) && v !in selected
  }

  /** What is left out of a ball shows one step further. */
  lemma LeftOutIsNext(g: Graph, q: Query, starts: set<NodeId>, d: nat)
    ensures LeavesOut(g, q, starts, Ball(g, q, starts, d)) <==> Ball(g, q, starts, d + 1) != Ball(g, q, starts, d)
  {
    hide Ball, Step;
    BallGrows(g, q, starts, d, d + 1);
    if Ball(g, q, starts, d + 1) == Ball(g, q, starts, d) {
      forall u, v | u in Ball(g, q, starts, d) && Step(g, q, u, v) ensures v in Ball(g, q, starts, d) {
        BallStep(g, q, starts, d, u, v);
      }
      forall k: nat ensures Ball(g, q, starts, k) <= Ball(g, q, starts, d) { ClosedBallIsAll(g, q, starts, d, k); }
    } else {
      var v :| v in Ball(g, q, starts, d + 1) && v !in Ball(g, q, starts, d);
    }
  }

  /** An open rim node leads out when it dangles or the ball still grows. */
  lemma RimLeadsOut(g: Graph, q: Query, starts: set<NodeId>, d: nat)
    ensures (exists u :: u in Open(g, q, starts, d) && LeadsOut(g, q, Ball(g, q, starts, d), u))
       <==> || Ball(g, q, starts, d + 1) != Ball(g, q, starts, d)
            || exists u :: u in Open(g, q, starts, d) && Dangles(g, q, u)
  {
    hide Ball;
    RimHoldsExits(g, q, starts, d);
    BallUnfolds(g, q, starts, d + 1);
    var ball := Ball(g, q, starts, d);
    if u :| u in Open(g, q, starts, d) && LeadsOut(g, q, ball, u) {
      var e, v :| e in g.edges && Leads(q, e, u, v) && v !in ball;
      if v in g.nodes {
        assert Step(g, q, u, v);
        BallStep(g, q, starts, d, u, v);
      } else {
        assert Dangles(g, q, u);
      }
    }
    if u :| u in Open(g, q, starts, d) && Dangles(g, q, u) {
      var e, v :| e in g.edges && Leads(q, e, u, v) && v !in g.nodes;
      assert LeadsOut(g, q, ball, u);
    }
    if Ball(g, q, starts, d + 1) != ball {
      var v :| v in Ball(g, q, starts, d + 1) && v !in ball;
      var u :| u in ball && Step(g, q, u, v);
      assert LeadsOut(g, q, ball, u);
    }
  }

  /**
   * Unless the node limit is reported, the depth limit is reported exactly when a reachable node was
   * left out, if and only if no node of the scope at the last distance has a dangling edge or something
   * lies beyond it anyway.
   */
  lemma DepthLimitExactly(g: Graph, request: TraversalRequest, st: Search)
    requires request.maxDepth >= 0 && request.maxNodes > 0 && Explored(g, request, st)
    requires NodeLimit !in st.reasons
    ensures var q, starts, depth := request.query, Elements(request.starts), request.maxDepth;
            (DepthLimit in st.reasons <==> LeavesOut(g, q, starts, st.selected.Keys))
            <==> ((exists u :: u in Open(g, q, starts, depth) && Dangles(g, q, u)) ==>
                    Ball(g, q, starts, depth + 1) != Ball(g, q, starts, depth))
  {
    var q, starts, depth := request.query, Elements(request.starts), request.maxDepth as nat;
    LeftOutIsNext(g, q, starts, depth);
    RimLeadsOut(g, q, starts, depth);
    hide Ball, Open, LeavesOut, LeadsOut, Dangles, NearestFirst, ShortestTree;
  }

  /** One node with an edge to a node that does not exist. */
  const DANGLING := Graph(map["a" := NodeFact("file", "a", "")], [Edge(EdgeKey("a", "b", "calls"), "")])

  /** From that node a traversal of depth 0 reports the depth limit although nothing is left out. */
  lemma DanglingEdgeReportsDepth(st: Search)
    requires Explored(DANGLING, TraversalRequest(["a"], Query(Outgoing, {}, {}), 0, 1), st)
    ensures DepthLimit in st.reasons && !LeavesOut(DANGLING, Query(Outgoing, {}, {}), {"a"}, st.selected.Keys)
  {
    hide NearestFirst, ShortestTree;
    var q := Query(Outgoing, {}, {});
    assert Elements(["a"]) == {"a"};
    assert Ball(DANGLING, q, {"a"}, 0) == {"a"};
    assert |{"a"}| == 1;
    assert NodeLimit !in st.reasons && st.selected.Keys == {"a"};
    var e := DANGLING.edges[0];
    assert "b"[0] != "a"[0];
    assert Leads(q, e, "a", "b") && "b" !in st.selected;
    assert LeadsOut(DANGLING, q, st.selected.Keys, "a");
    forall k: nat ensures Ball(DANGLING, q, {"a"}, k) <= {"a"} {
      assert Ball(DANGLING, q, {"a"}, k) <= DANGLING.nodes.Keys;
    }
  }

  /** The depth check: some frontier node leads out of the selection. */
  method FrontierLeadsOut(g: Graph, q: Query, frontier: seq<NodeId>, selected: set<NodeId>) returns (leadsOut: bool)
    ensures leadsOut <==> exists j :: 0 <= j < |frontier| && LeadsOut(g, q, selected, frontier[j])
  {
    hide LeadsOut;
    for i := 0 to |frontier|
      invariant forall j :: 0 <= j < i ==> !LeadsOut(g, q, selected, frontier[j])
    {
      leadsOut := HasTraversableNeighbor(g, q, frontier[i], selected);
      if leadsOut { return; }
    }
    return false;
  }

  method Traverse(g: Graph, request: TraversalRequest) returns (r: Result<Search, TraversalError>)
    ensures r == Err(InvalidTraversal) <==> request.starts == [] || request.maxDepth < 0 || request.maxNodes <= 0
    ensures r == Err(StartOutsideScope) <==>
              && request.starts != [] && request.maxDepth >= 0 && request.maxNodes > 0
              && exists i :: StrayStart(g, request.query, request.starts, request.maxNodes, i)
    ensures r.Ok? ==> Sound(g, request.query, request.maxNodes, r.value) && Scoped(g, request.query, r.value)
    ensures r.Ok? ==> Explored(g, request, r.value) && EdgesExact(g, request, r.value)
  {
    hide Sound, AtLevel, Explored, Ball, Elements, FirstOccurrences, Tracked, EdgesExact, ExpandedAt, NewlySelected;
    hide Scoped, StrayStart;
    if request.starts == [] || request.maxDepth < 0 || request.maxNodes <= 0 { return Err(InvalidTraversal); }
    var q, maxNodes := request.query, request.maxNodes as nat;
    ghost var starts := Elements(request.starts);
    var found := SelectStarts(g, request.starts, q, maxNodes);
    if found.Err? { return Err(found.error); }
    var st := Search(found.value.selected, map[], [], if found.value.truncated then {NodeLimit} else {}, None);
    StartsAtLevelZero(g, q, starts, maxNodes, st);
    StartsAreSound(g, q, maxNodes, st);
    StartsAreScoped(g, q, st, found.value.frontier);
    if found.value.truncated {
      AtLevelNarrow(g, q, starts, maxNodes, 0, st, st.selected.Keys, {});
      LevelIsExplored(g, request, 0, st, {}, st.reasons);
      NoEdgesWhenCut(g, request, st);
      return Ok(st);
    }
    NothingExpanded(g, q, starts, maxNodes, st);
    var frontier, depth;
    ghost var expanded;
    st, frontier, depth, expanded := ExpandLevels(g, request, st, found.value.frontier);
    ghost var last := st;
    st := CheckDepth(g, request, st, frontier, depth);
    ReasonsDoNotMatter(g, q, maxNodes, last, st.reasons);
    TrackedIsExact(g, request, depth, last, st, Elements(frontier), expanded);
    return Ok(st);
  }

  /** The levels, until the depth limit or an empty frontier. */
  method ExpandLevels(g: Graph, request: TraversalRequest, start: Search,
                      startFrontier: seq<NodeId>)
    returns (st: Search, frontier: seq<NodeId>, depth: nat, ghost expanded: set<NodeId>)
    requires request.maxDepth >= 0 && request.maxNodes > 0
    requires Sound(g, request.query, request.maxNodes, start) && Elements(startFrontier) <= start.selected.Keys
    requires Scoped(g, request.query, start) && forall u :: u in startFrontier ==> InScope(request.query, u)
    requires Progress(g, request, 0, start, Elements(startFrontier), {})
    ensures depth <= request.maxDepth && (depth == request.maxDepth || frontier == [])
    ensures Sound(g, request.query, request.maxNodes, st) && Scoped(g, request.query, st)
    ensures Progress(g, request, depth, st, Elements(frontier), expanded)
  {
    hide Sound, AtLevel, Ball, Elements, FirstOccurrences, Tracked, ExpandedAt, NewlySelected, Scoped;
    var q, maxNodes := request.query, request.maxNodes as nat;
    ghost var starts := Elements(request.starts);
    st, frontier, depth, expanded := start, startFrontier, 0, {};
    while depth < request.maxDepth && |frontier| > 0
      invariant 0 <= depth <= request.maxDepth
      invariant Sound(g, q, maxNodes, st) && Elements(frontier) <= st.selected.Keys
      invariant Scoped(g, q, st) && forall u :: u in frontier ==> InScope(q, u)
      invariant Progress(g, request, depth, st, Elements(frontier), expanded)
      decreases request.maxDepth - depth
    {
      ghost var before := st;
      st := ExpandLevel(g, q, maxNodes, st, frontier, starts, depth, expanded);
      WithinLevel(g, q, starts, maxNodes, depth + 1, st, Elements(st.next));
      ExpandedNext(g, q, starts, depth, before, st, Elements(frontier), expanded);
      expanded := expanded + Elements(frontier);
      frontier := UniqueInOrder(st.next);
      NextIsSelected(g, q, maxNodes, st);
      NextIsInScope(g, q, st, frontier);
      depth := depth + 1;
    }
  }

  lemma NextIsInScope(g: Graph, q: Query, st: Search, frontier: seq<NodeId>)
    requires Scoped(g, q, st) && Elements(frontier) == Elements(st.next)
    ensures forall u :: u in frontier ==> InScope(q, u)
  {
    assert forall u :: u in frontier ==> u in Elements(st.next);
  }

  /** Where the search stands after d levels. */
  ghost predicate Progress(g: Graph, request: TraversalRequest, d: nat, st: Search, frontier: set<NodeId>,
                           expanded: set<NodeId>)
    requires request.maxNodes > 0
  {
    && AtLevel(g, request.query, Elements(request.starts), request.maxNodes, d, st, frontier)
    && Tracked(g, request.query, request.maxNodes, st, expanded)
    && ExpandedAt(g, request.query, Elements(request.starts), d, st, frontier, expanded)
  }

  lemma WithinLevel(g: Graph, q: Query, starts: set<NodeId>, maxNodes: nat, d: nat, st: Search, frontier: set<NodeId>)
    requires AtLevel(g, q, starts, maxNodes, d, st, frontier)
    ensures st.selected.Keys <= Ball(g, q, starts, d)
  {}

  /** After d levels all selected nodes of the scope but the frontier are expanded: those within d - 1 steps. */
  ghost predicate ExpandedAt(g: Graph, q: Query, starts: set<NodeId>, d: nat, st: Search, frontier: set<NodeId>,
                             expanded: set<NodeId>)
  {
    && (forall v :: v in expanded + frontier <==> v in st.selected && InScope(q, v))
    && st.selected.Keys <= Ball(g, q, starts, d)
    && (if d == 0 then expanded == {}
        else expanded <= Ball(g, q, starts, d - 1) && frontier !! Ball(g, q, starts, d - 1))
  }

  lemma NothingExpanded(g: Graph, q: Query, starts: set<NodeId>, maxNodes: nat, st: Search)
    requires st.edges == map[] && st.selected.Keys <= Ball(g, q, starts, 0)
    requires forall v :: v in st.selected ==> InScope(q, v)
    ensures Tracked(g, q, maxNodes, st, {}) && ExpandedAt(g, q, starts, 0, st, st.selected.Keys, {})
  {
    hide Ball;
  }

  lemma NoEdgesWhenCut(g: Graph, request: TraversalRequest, st: Search)
    requires request.maxDepth >= 0 && request.maxNodes > 0 && st.edges == map[]
    requires |Ball(g, request.query, Elements(request.starts), 0)| > request.maxNodes
    ensures EdgesExact(g, request, st)
  {}

  lemma ExpandedNext(g: Graph, q: Query, starts: set<NodeId>, d: nat, before: Search, st: Search, frontier: set<NodeId>,
                     expanded: set<NodeId>)
    requires ExpandedAt(g, q, starts, d, before, frontier, expanded) && NewlySelected(g, q, starts, d, before, st)
    requires st.selected.Keys <= Ball(g, q, starts, d + 1)
    ensures ExpandedAt(g, q, starts, d + 1, st, Elements(st.next), expanded + frontier)
  {
    hide Ball, Elements;
  }

  /** What was tracked is the exact set of edges once the last level is done. */
  lemma TrackedIsExact(g: Graph, request: TraversalRequest, d: nat, last: Search, st: Search, frontier: set<NodeId>,
                       expanded: set<NodeId>)
    requires request.maxDepth >= d && request.maxNodes > 0 && (d == request.maxDepth || frontier == {})
    requires Progress(g, request, d, last, frontier, expanded)
    requires Sound(g, request.query, request.maxNodes, st) && st == last.(reasons := st.reasons)
    requires last.reasons <= st.reasons
    requires |Ball(g, request.query, Elements(request.starts), 0)| <= request.maxNodes
    ensures EdgesExact(g, request, st)
  {
    var q, starts := request.query, Elements(request.starts);
    hide Ball, Sound, Tracked, ExpandedAt, AtLevel, Elements, Leads, Done, LedFrom;
    TrackedStays(g, q, request.maxNodes, last, st, expanded);
    if request.maxDepth == 0 {
      NothingTracked(g, q, starts, request.maxNodes, st, last, frontier, expanded);
    } else {
      ExpandedIsWithin(g, q, starts, d, last, frontier, expanded, request.maxDepth);
      forall k | k in st.edges
        ensures exists e: Edge, v :: e.key == k && v in st.selected && Followed(g, request, st, e, v)
      {
        var e, u, v := EdgeIsTracked(g, q, request.maxNodes, st, expanded, k);
        assert Followed(g, request, st, e, v);
      }
      forall e: Edge, v | v in st.selected && Followed(g, request, st, e, v)
        ensures e.key in st.edges || (NodeLimit in st.reasons && !InScope(q, v))
      {
        var u :| u in st.selected && InScope(q, u) && u in Ball(g, q, starts, request.maxDepth - 1)
                 && Leads(q, e, u, v);
        FollowedIsDone(g, q, request.maxNodes, st, expanded, e, u, v);
      }
    }
  }

  lemma EdgeIsTracked(g: Graph, q: Query, maxNodes: nat, st: Search, expanded: set<NodeId>, k: EdgeKey)
    returns (e: Edge, u: NodeId, v: NodeId)
    requires Tracked(g, q, maxNodes, st, expanded) && Sound(g, q, maxNodes, st) && k in st.edges
    ensures e in g.edges && e.key == k && Leads(q, e, u, v) && u in expanded && v in st.selected
  {
    u :| u in expanded && LedFrom(g, q, k, u);
    e, v :| e in g.edges && e.key == k && Leads(q, e, u, v);
    assert v == k.sourceId || v == k.targetId;
  }

  lemma FollowedIsDone(g: Graph, q: Query, maxNodes: nat, st: Search, expanded: set<NodeId>, e: Edge, u: NodeId,
                       v: NodeId)
    requires Tracked(g, q, maxNodes, st, expanded) && Sound(g, q, maxNodes, st)
    requires u in expanded && e in g.edges && Leads(q, e, u, v) && v in st.selected
    ensures e.key in st.edges || (NodeLimit in st.reasons && !InScope(q, v))
  {
    hide Leads, LedFrom;
    assert Done(g, q, maxNodes, st, u, e);
    assert v in g.nodes;
  }

  /**
   * The node limit is reported exactly when more nodes are in reach than allowed; only with a scope and
   * exactly as many in reach as allowed may it be reported although none is left out.
   */
  lemma NodeLimitExactly(g: Graph, request: TraversalRequest, st: Search)
    requires request.maxDepth >= 0 && request.maxNodes > 0 && Explored(g, request, st)
    ensures var ball := Ball(g, request.query, Elements(request.starts), request.maxDepth);
            && (|ball| != request.maxNodes || request.query.scope == {} ==>
                  (NodeLimit in st.reasons <==> |ball| > request.maxNodes))
            && (|ball| <= request.maxNodes ==> st.selected.Keys == ball)
  {
    hide Ball, NearestFirst, ShortestTree;
    SubsetCardinality(st.selected.Keys, Ball(g, request.query, Elements(request.starts), request.maxDepth));
    assert |st.selected.Keys| == |st.selected|;
  }

  /** Two edges from the one node in the scope to the one outside. */
  const TWO_CALLS := Graph(map["a" := NodeFact("file", "a", ""), "x" := NodeFact("file", "x", "")],
                           [Edge(EdgeKey("a", "x", "calls"), ""), Edge(EdgeKey("a", "x", "uses"), "")])

  /** With room for both nodes the first edge selects x, the second is dropped and the node limit reported. */
  lemma SelectedOutsideReportsLimit()
    ensures var q := Query(Outgoing, {}, {"a"});
            var start := Search(map["a" := TWO_CALLS.nodes["a"]], map[], [], {}, None);
            var once := VisitEdge(TWO_CALLS, q, 2, start, "a", TWO_CALLS.edges[0]);
            var twice := VisitEdge(TWO_CALLS, q, 2, once, "a", TWO_CALLS.edges[1]);
            && twice.selected.Keys == TWO_CALLS.nodes.Keys && once.reasons == {} && NodeLimit in twice.reasons
            && TWO_CALLS.edges[1].key !in twice.edges
  {
    var q := Query(Outgoing, {}, {"a"});
    var start := Search(map["a" := TWO_CALLS.nodes["a"]], map[], [], {}, None);
    assert "x"[0] != "a"[0];
    var once := VisitEdge(TWO_CALLS, q, 2, start, "a", TWO_CALLS.edges[0]);
    assert once.selected.Keys == {"a", "x"};
    assert |{"a", "x"}| == 2 && |once.selected| == |once.selected.Keys|;
    assert "uses"[0] != "calls"[0];
  }

  /** Unless the node limit is reported, every edge short of the depth limit is returned, to whatever node it leads. */
  lemma EdgesWithinDepth(g: Graph, request: TraversalRequest, st: Search)
    requires request.maxDepth >= 0 && request.maxNodes > 0
    requires Explored(g, request, st) && EdgesExact(g, request, st) && NodeLimit !in st.reasons
    ensures request.maxDepth == 0 ==> st.edges == map[]
    ensures request.maxDepth > 0 ==> forall e, u, v ::
              && e in g.edges && Leads(request.query, e, u, v) && v in g.nodes && InScope(request.query, u)
              && u in Ball(g, request.query, Elements(request.starts), request.maxDepth - 1)
              ==> e.key in st.edges
  {
    var q, starts := request.query, Elements(request.starts);
    hide Ball, NearestFirst, ShortestTree, Leads;
    BallSizeGrows(g, q, starts, 0, request.maxDepth);
    if request.maxDepth > 0 {
      BallGrows(g, q, starts, request.maxDepth - 1, request.maxDepth);
      forall e, u, v | && e in g.edges && Leads(q, e, u, v) && v in g.nodes && InScope(q, u)
                       && u in Ball(g, q, starts, request.maxDepth - 1)
        ensures e.key in st.edges
      {
        assert Step(g, q, u, v);
        BallStep(g, q, starts, request.maxDepth - 1, u, v);
        assert Followed(g, request, st, e, v);
      }
    }
  }

  lemma TrackedStays(g: Graph, q: Query, maxNodes: nat, last: Search, st: Search, expanded: set<NodeId>)
    requires Tracked(g, q, maxNodes, last, expanded) && st.selected == last.selected && st.edges == last.edges
    requires last.reasons <= st.reasons
    ensures Tracked(g, q, maxNodes, st, expanded)
  {
    hide LedFrom, Leads;
    assert forall u, e :: Done(g, q, maxNodes, last, u, e) ==> Done(g, q, maxNodes, st, u, e);
  }

  lemma NothingTracked(g: Graph, q: Query, starts: set<NodeId>, maxNodes: nat, st: Search, last: Search,
                       frontier: set<NodeId>, expanded: set<NodeId>)
    requires Tracked(g, q, maxNodes, st, expanded) && ExpandedAt(g, q, starts, 0, last, frontier, expanded)
    ensures st.edges == map[]
  {
    hide LedFrom, Done, Ball;
  }

  /** The expanded nodes are the selected ones within the depth short of one step. */
  lemma ExpandedIsWithin(g: Graph, q: Query, starts: set<NodeId>, d: nat, st: Search, frontier: set<NodeId>,
                         expanded: set<NodeId>, maxDepth: nat)
    requires ExpandedAt(g, q, starts, d, st, frontier, expanded)
    requires maxDepth >= d && maxDepth > 0 && (d == maxDepth || frontier == {})
    ensures forall u :: u in expanded <==>
              u in st.selected && InScope(q, u) && u in Ball(g, q, starts, maxDepth - 1)
  {
    hide Ball;
    BallsAreNested(g, q, starts);
    assert d < maxDepth ==> Ball(g, q, starts, d) <= Ball(g, q, starts, maxDepth - 1);
  }

  /** The depth limit is reported when the last frontier leads out of the selection. */
  method CheckDepth(g: Graph, request: TraversalRequest, start: Search, frontier: seq<NodeId>,
                    ghost depth: nat)
    returns (st: Search)
    requires request.maxDepth >= depth && request.maxNodes > 0 && (depth == request.maxDepth || frontier == [])
    requires Sound(g, request.query, request.maxNodes, start)
    requires AtLevel(g, request.query, Elements(request.starts), request.maxNodes, depth, start, Elements(frontier))
    ensures Sound(g, request.query, request.maxNodes, st)
    ensures st == start.(reasons := st.reasons) && start.reasons <= st.reasons
    ensures Explored(g, request, st)
  {
    hide Sound, AtLevel, Explored, Ball, LeadsOut, Elements;
    ghost var starts := Elements(request.starts);
    var q, maxNodes := request.query, request.maxNodes as nat;
    var leadsOut := FrontierLeadsOut(g, q, frontier, start.selected.Keys);
    var reasons := if leadsOut then start.reasons + {DepthLimit} else start.reasons;
    CheckedFrontier(g, q, starts, maxNodes, depth, start, frontier, leadsOut);
    NextIsSelected(g, q, maxNodes, start);
    LevelIsExplored(g, request, depth, start, Elements(frontier), reasons);
    ReasonsDoNotMatter(g, q, maxNodes, start, reasons);
    return start.(reasons := reasons);
  }

  lemma AtLevelNarrow(g: Graph, q: Query, starts: set<NodeId>, maxNodes: nat, d: nat, st: Search,
                      frontier: set<NodeId>, narrow: set<NodeId>)
    requires AtLevel(g, q, starts, maxNodes, d, st, frontier) && NodeLimit in st.reasons && narrow <= frontier
    ensures AtLevel(g, q, starts, maxNodes, d, st, narrow)
  {}

  lemma CheckedFrontier(g: Graph, q: Query, starts: set<NodeId>, maxNodes: nat, d: nat, st: Search,
                        frontier: seq<NodeId>,
                        leadsOut: bool)
    requires AtLevel(g, q, starts, maxNodes, d, st, Elements(frontier))
    requires leadsOut <==> exists j :: 0 <= j < |frontier| && LeadsOut(g, q, st.selected.Keys, frontier[j])
    ensures DepthLimit !in st.reasons
    ensures leadsOut <==> exists u :: u in Elements(frontier) && LeadsOut(g, q, st.selected.Keys, u)
    ensures frontier == [] ==> Elements(frontier) == {}
  {
    if leadsOut {
      var j :| 0 <= j < |frontier| && LeadsOut(g, q, st.selected.Keys, frontier[j]);
      assert frontier[j] in Elements(frontier);
    }
  }

  lemma StartsAreSound(g: Graph, q: Query, maxNodes: nat, st: Search)
    requires |st.selected| <= maxNodes && NodesSound(g, st.selected) && st.edges == map[] && st.next == []
    ensures Sound(g, q, maxNodes, st)
  {}

  lemma NextIsSelected(g: Graph, q: Query, maxNodes: nat, st: Search)
    requires Sound(g, q, maxNodes, st)
    ensures Elements(st.next) <= st.selected.Keys && |st.selected| <= maxNodes
  {}

  lemma ReasonsDoNotMatter(g: Graph, q: Query, maxNodes: nat, st: Search,
                           reasons: set<TruncationReason>)
    requires Sound(g, q, maxNodes, st)
    ensures Sound(g, q, maxNodes, st.(reasons := reasons))
    ensures Scoped(g, q, st) ==> Scoped(g, q, st.(reasons := reasons))
  {
    hide StepsOut, LeadsInside;
  }

  lemma StartsAreScoped(g: Graph, q: Query, st: Search, frontier: seq<NodeId>)
    requires forall v :: v in st.selected ==> InScope(q, v)
    requires st.edges == map[] && st.next == [] && st.boundary.None? && Elements(frontier) == st.selected.Keys
    ensures Scoped(g, q, st) && forall u :: u in frontier ==> InScope(q, u)
  {
    assert forall u :: u in frontier ==> u in Elements(frontier);
  }
}
