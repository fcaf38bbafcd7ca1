/** One snapshot's graph, permitted steps, and the nodes within a number of steps. */
module GraphWalks {
  import opened Common
  import opened GraphTables

  datatype Edge = Edge(key: EdgeKey, evidence: string)
  datatype Graph = Graph(nodes: map<NodeId, NodeFact>, edges: seq<Edge>)

  datatype Direction = Incoming | Outgoing | Both

  /** An empty relation set permits every relation, an empty scope every node. */
  datatype Query = Query(direction: Direction, relations: set<string>, scope: set<NodeId>)

  predicate InScope(q: Query, v: NodeId) {
    q.scope == {} || v in q.scope
  }

  predicate Permits(q: Query, e: Edge) {
    q.relations == {} || e.key.relation in q.relations
  }

  /** traversalNeighbor: where edge e leads from node id, if anywhere. */
  function Neighbor(id: NodeId, e: Edge, direction: Direction): Option<NodeId> {
    if (direction.Outgoing? || direction.Both?) && e.key.sourceId == id then Some(e.key.targetId)
    else if (direction.Incoming? || direction.Both?) && e.key.targetId == id then Some(e.key.sourceId)
    else None
  }

  predicate Leads(q: Query, e: Edge, u: NodeId, v: NodeId) {
    Permits(q, e) && Neighbor(u, e, q.direction) == Some(v)
  }

  /** Outgoing follows an edge to its target, incoming to its source, both either way; no relations permit all. */
  lemma LeadsExactly(q: Query, e: Edge, u: NodeId, v: NodeId)
    ensures Leads(q, e, u, v) <==>
              && (e.key.relation in q.relations || q.relations == {})
              && (|| (q.direction != Incoming && e.key.sourceId == u && e.key.targetId == v)
                  || (q.direction != Outgoing && e.key.targetId == u && e.key.sourceId == v))
    ensures Leads(q.(direction := Both), e, u, v) <==>
              Leads(q.(direction := Outgoing), e, u, v) || Leads(q.(direction := Incoming), e, u, v)
    ensures Leads(q.(direction := Outgoing), e, u, v) <==> Leads(q.(direction := Incoming), e, v, u)
  {}

  /** Steps start from nodes in the scope; they may end outside it. */
  ghost predicate Step(g: Graph, q: Query, u: NodeId, v: NodeId) {
    InScope(q, u) && v in g.nodes && exists e :: e in g.edges && Leads(q, e, u, v)
  }

  ghost function Successors(g: Graph, q: Query, inner: set<NodeId>): (s: set<NodeId>)
    ensures s <= g.nodes.Keys
  {
    set v | v in g.nodes && exists u :: u in inner && Step(g, q, u, v)
  }

  /** The existing nodes at most k permitted steps away from the existing starts. */
  ghost function Ball(g: Graph, q: Query, starts: set<NodeId>, k: nat): (b: set<NodeId>)
    ensures b <= g.nodes.Keys
  {
    if k == 0 then set v | v in starts && v in g.nodes
    else
      var inner := Ball(g, q, starts, k - 1);
      inner + Successors(g, q, inner)
  }

  /** One unfolding of the ball, entry by entry. */
  lemma BallUnfolds(g: Graph, q: Query, starts: set<NodeId>, k: nat)
    requires k > 0
    ensures forall v :: v in Ball(g, q, starts, k) <==>
              v in Ball(g, q, starts, k - 1) || exists u :: u in Ball(g, q, starts, k - 1) && Step(g, q, u, v)
  {}

  lemma {:induction false} BallGrows(g: Graph, q: Query, starts: set<NodeId>, j: nat, k: nat)
    requires j <= k
    ensures Ball(g, q, starts, j) <= Ball(g, q, starts, k)
  {
    hide Ball, Step;
    if j < k {
      BallGrows(g, q, starts, j, k - 1);
      BallUnfolds(g, q, starts, k);
    }
  }

  lemma BallStep(g: Graph, q: Query, starts: set<NodeId>, k: nat, u: NodeId, v: NodeId)
    requires u in Ball(g, q, starts, k) && Step(g, q, u, v)
    ensures v in Ball(g, q, starts, k + 1)
  {
    hide Ball, Step;
    BallUnfolds(g, q, starts, k + 1);
  }

  /** Once a ball is closed under steps it is everything reachable. */
  lemma {:induction false} ClosedBallIsAll(g: Graph, q: Query, starts: set<NodeId>, k: nat, m: nat)
    requires forall u, v :: u in Ball(g, q, starts, k) && Step(g, q, u, v) ==> v in Ball(g, q, starts, k)
    ensures Ball(g, q, starts, m) <= Ball(g, q, starts, k)
  {
    hide Ball, Step;
    if m <= k {
      BallGrows(g, q, starts, m, k);
    } else {
      ClosedBallIsAll(g, q, starts, k, m - 1);
      BallUnfolds(g, q, starts, m);
    }
  }

  // ----- Walks: the same distances, said in terms of node sequences -----

  ghost predicate Walk(g: Graph, q: Query, p: seq<NodeId>) {
    && p != []
    && p[0] in g.nodes
    && forall i :: 0 <= i < |p| - 1 ==> Step(g, q, p[i], p[i + 1])
  }

  ghost predicate WalkBetween(g: Graph, q: Query, p: seq<NodeId>, s: NodeId, t: NodeId) {
    Walk(g, q, p) && p[0] == s && p[|p| - 1] == t
  }

  lemma {:induction false} WalkInBall(g: Graph, q: Query, p: seq<NodeId>, s: NodeId, t: NodeId)
    requires WalkBetween(g, q, p, s, t)
    ensures t in Ball(g, q, {s}, |p| - 1)
  {
    if |p| > 1 {
      var init := p[..|p| - 1];
      WalkInBall(g, q, init, s, init[|init| - 1]);
      assert Step(g, q, p[|p| - 2], p[|p| - 1]);
      BallStep(g, q, {s}, |p| - 2, init[|init| - 1], t);
    }
  }

  lemma {:induction false} BallHasWalk(g: Graph, q: Query, s: NodeId, t: NodeId, k: nat) returns (p: seq<NodeId>)
    requires t in Ball(g, q, {s}, k)
    ensures WalkBetween(g, q, p, s, t) && |p| <= k + 1
    decreases k
  {
    hide Step;
    if k == 0 {
      p := [s];
    } else if t in Ball(g, q, {s}, k - 1) {
      p := BallHasWalk(g, q, s, t, k - 1);
    } else {
      var u :| u in Ball(g, q, {s}, k - 1) && Step(g, q, u, t);
      var init := BallHasWalk(g, q, s, u, k - 1);
      p := init + [t];
      WalkExtends(g, q, init, t);
    }
  }

  lemma WalkExtends(g: Graph, q: Query, p: seq<NodeId>, t: NodeId)
    requires Walk(g, q, p) && Step(g, q, p[|p| - 1], t)
    ensures Walk(g, q, p + [t])
  {
    hide Step;
    var longer := p + [t];
    forall i | 0 <= i < |longer| - 1 ensures Step(g, q, longer[i], longer[i + 1]) {
      if i < |p| - 1 { assert Step(g, q, p[i], p[i + 1]); }
    }
  }
}
