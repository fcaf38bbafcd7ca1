/** Dependencies recorded per page, and resolveProjectionPages over all groups of sources. */
module ProjectionPages {
  import opened Common
  import opened ModuleBindings
  import opened Paging
  import opened PageResolution

  /** c depends on the file at t: some edge leads from c's file node to t's file node. */
  ghost predicate DependsOn(g: Group, catalog: Catalog, c: Contribution, t: Path) {
    exists e :: SourceEdge(g, c, e) && Joins(Files(catalog), e, c.path, t)
  }

  /** The path of each file node. */
  function Files(catalog: Catalog): map<string, Path> {
    map id | id in catalog && catalog[id].kind == FILE :: catalog[id].evidence.path
  }

  /** e links the file nodes of two different paths. */
  predicate Joins(files: map<string, Path>, e: Edge, from: Path, to: Path) {
    e.source in files && e.target in files && files[e.source] == from && files[e.target] == to && from != to
  }

  /** The page's view of file ids is right wherever it knows an id. */
  ghost predicate Partial(paths: map<string, Path>, files: map<string, Path>) {
    forall id :: id in paths ==> id in files && paths[id] == files[id]
  }

  method FileNodesOf(start: map<string, Path>, c: Contribution, ghost catalog: Catalog)
    returns (paths: map<string, Path>)
    requires Partial(start, Files(catalog)) && Catalogued(c, catalog)
    ensures Partial(paths, Files(catalog))
  {
    paths := start;
    for i := 0 to |c.nodes|
      invariant Partial(paths, Files(catalog))
    {
      if c.nodes[i].kind == FILE { paths := paths[c.nodes[i].id := c.path]; }
    }
  }

  method PathsByFileId(g: Group, ghost catalog: Catalog, page: seq<Contribution>, nodes: map<string, Node>)
    returns (paths: map<string, Path>)
    requires WellFormed(g, catalog) && Staging(g, page) && Agrees(nodes, g, catalog)
    requires forall id :: id in nodes ==> nodes[id].Valid()
    ensures Partial(paths, Files(catalog)) && forall id :: id in nodes && id in Files(catalog) ==> id in paths
  {
    hide LocalIds, Catalogued;
    paths := map[];
    for i := 0 to |page|
      invariant Partial(paths, Files(catalog))
    {
      assert g.staged[page[i].path] == page[i];
      paths := FileNodesOf(paths, page[i], catalog);
    }
    var ids := nodes.Keys;
    while ids != {}
      invariant ids <= nodes.Keys && Partial(paths, Files(catalog))
      invariant forall id :: id in nodes.Keys - ids && id in Files(catalog) ==> id in paths
      decreases |ids|
    {
      var id :| id in ids;
      ids := ids - {id};
      if nodes[id].kind == FILE && nodes[id].evidence.path != "" { paths := paths[id := nodes[id].evidence.path]; }
    }
  }

  ghost predicate Joined(paths: map<string, Path>, edges: seq<Edge>, from: Path, to: Path) {
    exists e :: e in edges && Joins(paths, e, from, to)
  }

  lemma JoinedAppend(paths: map<string, Path>, edges: seq<Edge>, e: Edge, from: Path, to: Path)
    ensures Joined(paths, edges + [e], from, to) <==> Joined(paths, edges, from, to) || Joins(paths, e, from, to)
  {
    hide Joins;
    if Joins(paths, e, from, to) { assert e in edges + [e]; }
    if Joined(paths, edges, from, to) {
      var x :| x in edges && Joins(paths, x, from, to);
      assert x in edges + [e];
    }
  }

  predicate HasTarget(targets: map<Path, set<Path>>, from: Path, to: Path) {
    from in targets && to in targets[from]
  }

  /** The targets recorded for each source path. */
  method TargetsBySource(paths: map<string, Path>, edges: seq<Edge>) returns (targets: map<Path, set<Path>>)
    ensures forall from, to :: HasTarget(targets, from, to) <==> Joined(paths, edges, from, to)
  {
    hide Joined;
    targets := map[];
    assert forall from, to :: !Joined(paths, [], from, to) by { NothingJoined(paths); }
    for i := 0 to |edges|
      invariant forall from, to :: HasTarget(targets, from, to) <==> Joined(paths, edges[..i], from, to)
    {
      var e := edges[i];
      ghost var before := targets;
      assert edges[..i + 1] == edges[..i] + [e];
      if e.source in paths && e.target in paths && paths[e.source] != paths[e.target] {
        var from, to := paths[e.source], paths[e.target];
        targets := targets[from := (if from in targets then targets[from] else {}) + {to}];
      }
      forall from, to ensures HasTarget(targets, from, to) <==> Joined(paths, edges[..i + 1], from, to) {
        JoinedAppend(paths, edges[..i], e, from, to);
        assert HasTarget(before, from, to) <==> Joined(paths, edges[..i], from, to);
      }
    }
    assert edges[..|edges|] == edges;
  }

  lemma NothingJoined(paths: map<string, Path>)
    ensures forall from, to :: !Joined(paths, [], from, to)
  {}

  /** Every edge's file ends are among the nodes the page collected. */
  lemma EndsAreKnown(g: Group, catalog: Catalog, c: Contribution, nodes: map<string, Node>, e: Edge)
    requires WellFormed(g, catalog) && c.path in g.staged && g.staged[c.path] == c && SourceEdge(g, c, e)
    requires HasNodes(nodes, g, c) && HasTargets(g, nodes, c)
    ensures e.source in Files(catalog) ==> e.source in nodes && Files(catalog)[e.source] == c.path
    ensures e.target in Files(catalog) ==> e.target in nodes
  {
    hide SourceEdge;
    EdgeEnds(g, catalog, c, e);
    var r :| r in c.references && EndsLocally(g, c, r, e);
    TargetIsStaged(g, r.candidates);
    assert HasNodes(nodes, g, TargetOf(g, r.candidates).target);
  }

  /** The dependencies of the sources of one page do not depend on the page. */
  lemma PageDependencies(g: Group, catalog: Catalog, page: seq<Contribution>, nodes: map<string, Node>,
                         edges: seq<Edge>, paths: map<string, Path>, i: nat, t: Path)
    requires WellFormed(g, catalog) && Staging(g, page) && i < |page|
    requires forall j :: 0 <= j < |page| ==> HasNodes(nodes, g, page[j]) && HasTargets(g, nodes, page[j])
    requires Partial(paths, Files(catalog)) && forall id :: id in nodes && id in Files(catalog) ==> id in paths
    requires forall e :: e in edges <==> PageEdge(g, page, e)
    ensures Joined(paths, edges, page[i].path, t) <==> DependsOn(g, catalog, page[i], t)
  {
    hide SourceEdge, WellFormed, HasNodes, HasTargets;
    if e :| e in edges && Joins(paths, e, page[i].path, t) {
      var j :| 0 <= j < |page| && SourceEdge(g, page[j], e);
      EndsAreKnown(g, catalog, page[j], nodes, e);
      assert page[j] == g.staged[page[j].path] && page[i] == g.staged[page[i].path];
      assert SourceEdge(g, page[i], e) && Joins(Files(catalog), e, page[i].path, t);
    }
    if DependsOn(g, catalog, page[i], t) {
      var e :| SourceEdge(g, page[i], e) && Joins(Files(catalog), e, page[i].path, t);
      EndsAreKnown(g, catalog, page[i], nodes, e);
      assert PageEdge(g, page, e);
      assert e in edges && Joins(paths, e, page[i].path, t);
    }
  }

  method WithResolvedDependencies(g: Group, ghost catalog: Catalog, page: seq<Contribution>, nodes: map<string, Node>,
                                  edges: seq<Edge>)
    returns (dependencies: map<Path, set<Path>>)
    requires WellFormed(g, catalog) && Staging(g, page) && Agrees(nodes, g, catalog)
    requires forall id :: id in nodes ==> nodes[id].Valid()
    requires forall j :: 0 <= j < |page| ==> HasNodes(nodes, g, page[j]) && HasTargets(g, nodes, page[j])
    requires forall e :: e in edges <==> PageEdge(g, page, e)
    ensures forall p :: p in dependencies <==> exists i :: 0 <= i < |page| && page[i].path == p
    ensures forall i, t :: 0 <= i < |page| && page[i].path in dependencies ==>
              (t in dependencies[page[i].path] <==> DependsOn(g, catalog, page[i], t))
  {
    hide PageEdge, WellFormed, HasNodes, HasTargets, Agrees, DependsOn, Joined;
    var paths := PathsByFileId(g, catalog, page, nodes);
    var targets := TargetsBySource(paths, edges);
    dependencies := map[];
    for i := 0 to |page|
      invariant forall p :: p in dependencies <==> exists j :: 0 <= j < i && page[j].path == p
      invariant forall j, t :: 0 <= j < |page| && page[j].path in dependencies ==>
                  (t in dependencies[page[j].path] <==> DependsOn(g, catalog, page[j], t))
    {
      var p := page[i].path;
      var found := if p in targets then targets[p] else {};
      forall t ensures t in found <==> DependsOn(g, catalog, page[i], t) {
        PageDependencies(g, catalog, page, nodes, edges, paths, i, t);
      }
      forall j | 0 <= j < |page| && page[j].path == p ensures page[j] == page[i] {
        assert g.staged[page[j].path] == page[j];
      }
      dependencies := dependencies[p := found];
    }
  }

  // ----- One group, page by page -----

  datatype Outcome = Outcome(edges: seq<Edge>, dependencies: map<Path, set<Path>>)

  /** The source can be read and resolves. */
  ghost predicate Ready(g: Group, catalog: Catalog, p: Path) {
    p in g.staged && p !in g.unreadable && Resolvable(g, catalog, g.staged[p])
  }

  ghost predicate GroupEdge(g: Group, paths: seq<Path>, e: Edge) {
    exists i :: 0 <= i < |paths| && paths[i] in g.staged && SourceEdge(g, g.staged[paths[i]], e)
  }

  ghost predicate Recorded(g: Group, catalog: Catalog, dependencies: map<Path, set<Path>>) {
    forall p, t :: p in dependencies && p in g.staged ==>
      (t in dependencies[p] <==> DependsOn(g, catalog, g.staged[p], t))
  }

  /** The outcome of resolving exactly these sources. */
  ghost predicate Resolved(g: Group, catalog: Catalog, paths: seq<Path>, outcome: Outcome) {
    && (forall i :: 0 <= i < |paths| ==> Ready(g, catalog, paths[i]))
    && (forall e :: e in outcome.edges <==> GroupEdge(g, paths, e))
    && outcome.dependencies.Keys == Elements(paths) && Recorded(g, catalog, outcome.dependencies)
  }

  /** The contributions of a page of paths. */
  method Projections(g: Group, page: seq<Path>) returns (contributions: seq<Contribution>, error: Option<Error>)
    requires forall i :: 0 <= i < |page| ==> page[i] in g.staged && g.staged[page[i]].path == page[i]
    ensures error.None? <==> forall i :: 0 <= i < |page| ==> page[i] !in g.unreadable
    ensures error.None? ==> |contributions| == |page| && Staging(g, contributions)
    ensures error.None? ==> forall i :: 0 <= i < |page| ==> contributions[i] == g.staged[page[i]]
  {
    contributions := [];
    for i := 0 to |page|
      invariant |contributions| == i
      invariant forall j :: 0 <= j < i ==> page[j] !in g.unreadable && contributions[j] == g.staged[page[j]]
    {
      if page[i] in g.unreadable { return contributions, Some(ReadError); }
      contributions := contributions + [g.staged[page[i]]];
    }
    return contributions, None;
  }

  /** One page: resolve, record dependencies. */
  method ResolveOnePage(g: Group, ghost catalog: Catalog, page: seq<Path>)
    returns (outcome: Outcome, error: Option<Error>)
    requires WellFormed(g, catalog) && forall i :: 0 <= i < |page| ==> page[i] in g.staged
    ensures error.None? <==> forall i :: 0 <= i < |page| ==> Ready(g, catalog, page[i])
    ensures error.None? ==> Resolved(g, catalog, page, outcome)
  {
    hide SourceEdge, Resolvable, HasNodes, HasTargets, Agrees, DependsOn, LocalIds, Catalogued;
    outcome := Outcome([], map[]);
    var contributions, unread := Projections(g, page);
    if unread.Some? { return outcome, unread; }
    var nodes, edges, failed := ResolvePage(g, catalog, contributions);
    assert forall i :: 0 <= i < |page| ==> contributions[i] == g.staged[page[i]];
    if failed.Some? { return outcome, failed; }
    var dependencies := WithResolvedDependencies(g, catalog, contributions, nodes, edges);
    forall p ensures p in dependencies <==> p in page {
      if p in page { var i :| 0 <= i < |page| && page[i] == p; assert contributions[i].path == p; }
    }
    forall p, t | p in dependencies && p in g.staged
      ensures t in dependencies[p] <==> DependsOn(g, catalog, g.staged[p], t)
    {
      var i :| 0 <= i < |page| && page[i] == p;
      assert contributions[i].path == p;
    }
    return Outcome(edges, dependencies), None;
  }

  lemma GroupEdgesJoin(g: Group, a: seq<Path>, b: seq<Path>, e: Edge)
    ensures GroupEdge(g, a + b, e) <==> GroupEdge(g, a, e) || GroupEdge(g, b, e)
  {
    hide SourceEdge;
    if i :| 0 <= i < |a| && a[i] in g.staged && SourceEdge(g, g.staged[a[i]], e) { assert (a + b)[i] == a[i]; }
    if i :| 0 <= i < |b| && b[i] in g.staged && SourceEdge(g, g.staged[b[i]], e) { assert (a + b)[|a| + i] == b[i]; }
  }

  lemma ResolvedJoins(g: Group, catalog: Catalog, a: seq<Path>, b: seq<Path>, x: Outcome, y: Outcome)
    requires Resolved(g, catalog, a, x) && Resolved(g, catalog, b, y)
    ensures Resolved(g, catalog, a + b, Outcome(x.edges + y.edges, x.dependencies + y.dependencies))
  {
    hide SourceEdge, GroupEdge, Ready, DependsOn;
    forall e ensures e in x.edges + y.edges <==> GroupEdge(g, a + b, e) { GroupEdgesJoin(g, a, b, e); }
    assert Elements(a + b) == Elements(a) + Elements(b);
  }

  /**
   * The loop over keyset pages of one group. It succeeds exactly when every source is ready; then
   * edges and dependencies are those of the sources, with no trace of the page size.
   */
  method ResolveGroup(g: Group, ghost catalog: Catalog, paths: seq<Path>, limit: nat)
    returns (outcome: Outcome, error: Option<Error>)
    requires limit > 0 && WellFormed(g, catalog)
    requires Increasing(paths) && forall i :: 0 <= i < |paths| ==> paths[i] in g.staged
    ensures error.None? <==> forall i :: 0 <= i < |paths| ==> Ready(g, catalog, paths[i])
    ensures error.None? ==> Resolved(g, catalog, paths, outcome)
  {
    hide Resolved, Ready, WellFormed, Increasing, Page;
    var after, seen := "", 0;
    NoEmptyPath(g, catalog, paths);
    outcome := Outcome([], map[]);
    assert Resolved(g, catalog, paths[..0], outcome) by { NothingResolved(g, catalog); }
    while true
      invariant 0 <= seen <= |paths| && after == Cursor(paths, seen)
      invariant Resolved(g, catalog, paths[..seen], outcome)
      decreases |paths| - seen
    {
      PageContinues(paths, seen, limit);
      var page := Page(paths, after, limit);
      if |page| == 0 { break; }
      after := page[|page| - 1];
      var more;
      more, error := ResolveOnePage(g, catalog, page);
      if error.Some? {
        ghost var i :| 0 <= i < |page| && !Ready(g, catalog, page[i]);
        assert page[i] == paths[seen + i];
        return;
      }
      ResolvedJoins(g, catalog, paths[..seen], page, outcome, more);
      assert paths[..seen + |page|] == paths[..seen] + page;
      outcome := Outcome(outcome.edges + more.edges, outcome.dependencies + more.dependencies);
      seen := seen + |page|;
    }
    assert paths[..seen] == paths;
    AllReady(g, catalog, paths, outcome);
    error := None;
  }

  lemma AllReady(g: Group, catalog: Catalog, paths: seq<Path>, outcome: Outcome)
    requires Resolved(g, catalog, paths, outcome)
    ensures forall i :: 0 <= i < |paths| ==> Ready(g, catalog, paths[i])
  {}

  lemma NoEmptyPath(g: Group, catalog: Catalog, paths: seq<Path>)
    requires WellFormed(g, catalog) && forall i :: 0 <= i < |paths| ==> paths[i] in g.staged
    ensures "" !in paths
  {}

  lemma NothingResolved(g: Group, catalog: Catalog)
    ensures Resolved(g, catalog, [], Outcome([], map[]))
  {}

  // ----- All groups -----

  /** One project and language with its sources in order. */
  datatype Work = Work(group: Group, paths: seq<Path>)

  /** Every group is well-formed, and a source belongs to one group. */
  ghost predicate WorkOk(works: seq<Work>, catalogs: seq<Catalog>) {
    && |catalogs| == |works|
    && (forall i :: 0 <= i < |works| ==>
          WellFormed(works[i].group, catalogs[i]) && Increasing(works[i].paths)
          && forall j :: 0 <= j < |works[i].paths| ==> works[i].paths[j] in works[i].group.staged)
    && (forall i, j :: 0 <= i < j < |works| ==> Elements(works[i].paths) !! Elements(works[j].paths))
  }

  ghost predicate WorkReady(works: seq<Work>, catalogs: seq<Catalog>, i: nat)
    requires i < |works| == |catalogs|
  {
    forall j :: 0 <= j < |works[i].paths| ==> Ready(works[i].group, catalogs[i], works[i].paths[j])
  }

  /** Edges and dependencies of all sources of all groups, and nothing else. */
  ghost predicate AllResolved(works: seq<Work>, catalogs: seq<Catalog>, outcome: Outcome)
    requires |works| == |catalogs|
  {
    && (forall i :: 0 <= i < |works| ==> WorkReady(works, catalogs, i))
    && (forall e :: e in outcome.edges <==>
          exists i :: 0 <= i < |works| && GroupEdge(works[i].group, works[i].paths, e))
    && (forall p :: p in outcome.dependencies <==> exists i :: 0 <= i < |works| && p in Elements(works[i].paths))
    && (forall i :: 0 <= i < |works| ==>
          GroupRecorded(works[i].group, catalogs[i], works[i].paths, outcome.dependencies))
  }

  /** These sources have exactly their dependencies. */
  ghost predicate GroupRecorded(g: Group, catalog: Catalog, paths: seq<Path>, dependencies: map<Path, set<Path>>) {
    forall p, t :: p in Elements(paths) && p in dependencies && p in g.staged ==>
      (t in dependencies[p] <==> DependsOn(g, catalog, g.staged[p], t))
  }

  lemma AllResolvedExtends(works: seq<Work>, catalogs: seq<Catalog>, k: nat, x: Outcome, y: Outcome)
    requires WorkOk(works, catalogs) && k < |works|
    requires AllResolved(works[..k], catalogs[..k], x)
    requires Resolved(works[k].group, catalogs[k], works[k].paths, y)
    ensures AllResolved(works[..k + 1], catalogs[..k + 1], Outcome(x.edges + y.edges, x.dependencies + y.dependencies))
  {
    hide GroupEdge, Ready, DependsOn, WellFormed, Increasing, Elements;
    var ws, cs := works[..k + 1], catalogs[..k + 1];
    assert ws == works[..k] + [works[k]] && cs == catalogs[..k] + [catalogs[k]];
    forall i | 0 <= i < k ensures WorkReady(ws, cs, i) { assert WorkReady(works[..k], catalogs[..k], i); }
    assert WorkReady(ws, cs, k);
    hide WorkReady;
    assert forall i :: 0 <= i < k ==> ws[i] == works[..k][i] && cs[i] == catalogs[..k][i];
    DependenciesExtend(works, catalogs, k, x, y);
  }

  lemma DependenciesExtend(works: seq<Work>, catalogs: seq<Catalog>, k: nat, x: Outcome, y: Outcome)
    requires WorkOk(works, catalogs) && k < |works|
    requires AllResolved(works[..k], catalogs[..k], x)
    requires Resolved(works[k].group, catalogs[k], works[k].paths, y)
    ensures forall i :: 0 <= i < k + 1 ==>
              GroupRecorded(works[i].group, catalogs[i], works[i].paths, x.dependencies + y.dependencies)
  {
    hide GroupEdge, Ready, DependsOn, WellFormed, Increasing, Elements, WorkReady;
    forall i | 0 <= i < k + 1
      ensures GroupRecorded(works[i].group, catalogs[i], works[i].paths, x.dependencies + y.dependencies)
    {
      if i < k {
        assert works[..k][i] == works[i] && catalogs[..k][i] == catalogs[i];
        assert Elements(works[i].paths) !! Elements(works[k].paths);
        assert GroupRecorded(works[i].group, catalogs[i], works[i].paths, x.dependencies);
      }
    }
  }

  /** resolveProjectionPages: it succeeds exactly when every source of every group is ready. */
  method ResolveProjectionPages(works: seq<Work>, ghost catalogs: seq<Catalog>, limit: nat)
    returns (outcome: Outcome, error: Option<Error>)
    requires limit > 0 && WorkOk(works, catalogs)
    ensures error.None? <==> forall i :: 0 <= i < |works| ==> WorkReady(works, catalogs, i)
    ensures error.None? ==> AllResolved(works, catalogs, outcome)
  {
    hide AllResolved, Resolved, Ready, WellFormed, Increasing;
    outcome := Outcome([], map[]);
    assert AllResolved(works[..0], catalogs[..0], outcome) by { NoGroups(); }
    for k := 0 to |works|
      invariant AllResolved(works[..k], catalogs[..k], outcome)
    {
      var more;
      more, error := ResolveGroup(works[k].group, catalogs[k], works[k].paths, limit);
      if error.Some? {
        assert !WorkReady(works, catalogs, k);
        return;
      }
      AllResolvedExtends(works, catalogs, k, outcome, more);
      outcome := Outcome(outcome.edges + more.edges, outcome.dependencies + more.dependencies);
    }
    assert works[..|works|] == works && catalogs[..|works|] == catalogs;
    AllWorkReady(works, catalogs, outcome);
    error := None;
  }

  lemma NoGroups()
    ensures AllResolved([], [], Outcome([], map[]))
  {}

  lemma AllWorkReady(works: seq<Work>, catalogs: seq<Catalog>, outcome: Outcome)
    requires |works| == |catalogs| && AllResolved(works, catalogs, outcome)
    ensures forall i :: 0 <= i < |works| ==> WorkReady(works, catalogs, i)
  {}

  /** The specification determines the outcome. */
  lemma OutcomeIsDetermined(works: seq<Work>, catalogs: seq<Catalog>, x: Outcome, y: Outcome)
    requires |works| == |catalogs| && AllResolved(works, catalogs, x) && AllResolved(works, catalogs, y)
    ensures Elements(x.edges) == Elements(y.edges) && x.dependencies == y.dependencies
  {
    hide GroupEdge, DependsOn;
    assert forall e :: e in x.edges <==> e in y.edges;
    forall p | p in x.dependencies ensures p in y.dependencies && x.dependencies[p] == y.dependencies[p] {
      var i :| 0 <= i < |works| && p in Elements(works[i].paths);
      var j :| 0 <= j < |works[i].paths| && works[i].paths[j] == p;
      assert WorkReady(works, catalogs, i);
      assert Ready(works[i].group, catalogs[i], works[i].paths[j]);
    }
  }

  /** Two page sizes fail together, or give the same edges and the same dependencies. */
  method PageSizeDoesNotMatter(works: seq<Work>, ghost catalogs: seq<Catalog>, small: nat, large: nat)
    returns (x: Outcome, xError: Option<Error>, y: Outcome, yError: Option<Error>)
    requires small > 0 && large > 0 && WorkOk(works, catalogs)
    ensures xError.None? <==> yError.None?
    ensures xError.None? ==> Elements(x.edges) == Elements(y.edges) && x.dependencies == y.dependencies
  {
    hide AllResolved, WorkReady;
    x, xError := ResolveProjectionPages(works, catalogs, small);
    y, yError := ResolveProjectionPages(works, catalogs, large);
    if xError.None? { OutcomeIsDetermined(works, catalogs, x, y); }
  }
}
