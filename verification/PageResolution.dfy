/** ResolvePage of the TypeScript and JavaScript resolvers: the edges of one page of sources, through a memo. */
module PageResolution {
  import opened Common
  import opened ModuleBindings
  import opened Paging

  datatype Confidence = Extracted | Inferred | Ambiguous | OtherConfidence

  datatype Evidence = Evidence(
    path: Path, startLine: int, startColumn: int, endLine: int, endColumn: int,
    fileHash: string, extractor: string, provenance: string, confidence: Confidence)
  {
    /** validateEvidence. */
    predicate Valid() {
      && path != "" && startLine >= 1 && startColumn >= 1 && endLine >= 1 && endColumn >= 1
      && fileHash != "" && extractor != "" && provenance != ""
      && (startLine < endLine || (startLine == endLine && startColumn <= endColumn))
      && !confidence.OtherConfidence?
    }
  }

  datatype Node = Node(id: string, kind: string, evidence: Evidence) {
    predicate Valid() { id != "" && evidence.Valid() }
  }

  const FILE := "file"

  /** A module reference with the paths its specifier may stand for; none unless it is relative. */
  datatype Reference = Reference(
    sourceId: string, candidates: seq<Path>, kind: Kind, bindings: seq<Binding>, ambiguous: bool)

  datatype SymbolReference = SymbolReference(sourceId: string, name: string, relation: string, evidence: Evidence)

  datatype Contribution = Contribution(
    path: Path, nodes: seq<Node>, references: seq<Reference>, symbols: seq<SymbolReference>, surfaces: seq<Surface>)

  datatype Edge = Edge(source: string, target: string, relation: string, evidence: Evidence)

  /** The node kinds a resolver deals in, and the kinds each relation may join. */
  datatype Vocabulary = Vocabulary(nodeKinds: set<string>, endpoints: map<string, set<(string, string)>>) {
    ghost predicate Valid() {
      && FILE in nodeKinds
      && forall relation, rule :: relation in endpoints && rule in endpoints[relation] ==>
           rule.0 in nodeKinds && rule.1 in nodeKinds
    }
  }

  datatype Language = TypeScript | JavaScript

  /** The staged contributions of one project and language; reads of some paths may fail. */
  datatype Group = Group(
    staged: map<Path, Contribution>, unreadable: set<Path>, vocabulary: Vocabulary, language: Language)

  datatype Error = ReadError | FileFactMissing | UnsupportedKind | InvalidFacts

  // ----- What a source resolves to, independently of pages -----

  datatype Reply = Missing | Hit(target: Contribution) | Unreadable

  function Lookup(g: Group, p: Path): Reply {
    if p in g.unreadable then Unreadable else if p in g.staged then Hit(g.staged[p]) else Missing
  }

  /** The first candidate that is indexed, unless one before it cannot be read. */
  function TargetOf(g: Group, candidates: seq<Path>): Reply {
    if candidates == [] then Missing
    else if !Lookup(g, candidates[0]).Missing? then Lookup(g, candidates[0])
    else TargetOf(g, candidates[1..])
  }

  /** Candidate k gives the reply, and all before it are missing. */
  predicate FirstReply(g: Group, candidates: seq<Path>, k: nat, reply: Reply) {
    && k < |candidates| && reply == Lookup(g, candidates[k]) && !reply.Missing?
    && forall j :: 0 <= j < k ==> Lookup(g, candidates[j]).Missing?
  }

  /** The first file fact. */
  function FileOf(nodes: seq<Node>): Option<Node> {
    if nodes == [] then None else if nodes[0].kind == FILE then Some(nodes[0]) else FileOf(nodes[1..])
  }

  /** Node k is a file and none before it is. */
  predicate FirstFile(nodes: seq<Node>, k: nat) {
    k < |nodes| && nodes[k].kind == FILE && forall j :: 0 <= j < k ==> nodes[j].kind != FILE
  }

  lemma {:induction false} FileOfIsFirst(nodes: seq<Node>)
    ensures FileOf(nodes).None? <==> forall j :: 0 <= j < |nodes| ==> nodes[j].kind != FILE
    ensures FileOf(nodes).Some? ==> exists k: nat :: FirstFile(nodes, k) && FileOf(nodes).value == nodes[k]
  {
    if nodes != [] {
      if nodes[0].kind == FILE {
        assert FirstFile(nodes, 0);
      } else {
        FileOfIsFirst(nodes[1..]);
        assert forall j :: 0 < j < |nodes| ==> nodes[j] == nodes[1..][j - 1];
        if FileOf(nodes).Some? {
          var k: nat :| FirstFile(nodes[1..], k) && FileOf(nodes).value == nodes[1..][k];
          assert FirstFile(nodes, k + 1);
        }
      }
    }
  }

  /** relationFor: only JavaScript takes require. */
  function RelationFor(language: Language, kind: Kind): Option<string> {
    match (language, kind)
    case (TypeScript, Import) => Some("typescript:imports_from")
    case (TypeScript, ReExport) => Some("typescript:re_exports")
    case (TypeScript, Require) => None
    case (JavaScript, ReExport) => Some("javascript:re_exports")
    case (JavaScript, _) => Some("javascript:imports_from")
  }

  /** The evidence of the source's file, marked ambiguous where the reference is. */
  function ReferenceEvidence(file: Node, r: Reference): Evidence {
    if r.ambiguous then file.evidence.(confidence := Ambiguous) else file.evidence
  }

  ghost predicate BindingEdge(r: Reference, t: Contribution, b: Binding, source: string, relation: string,
                              evidence: Evidence, e: Edge)
  {
    exists s :: s in t.surfaces && Takes(r.kind, b, s) && e == Edge(source, s.nodeId, relation, evidence)
  }

  ghost predicate ReferenceEdge(g: Group, file: Node, r: Reference, e: Edge) {
    var t, relation, evidence := TargetOf(g, r.candidates), RelationFor(g.language, r.kind), ReferenceEvidence(file, r);
    && t.Hit? && relation.Some? && FileOf(t.target.nodes).Some?
    && (e == Edge(r.sourceId, FileOf(t.target.nodes).value.id, relation.value, evidence)
        || exists b :: b in r.bindings && BindingEdge(r, t.target, b, r.sourceId, relation.value, evidence, e))
  }

  ghost predicate ImportedEdge(g: Group, r: Reference, y: SymbolReference, e: Edge) {
    var t := TargetOf(g, r.candidates);
    && r.kind == Import && t.Hit?
    && exists b :: b in r.bindings && b.LocalName() == y.name
                   && BindingEdge(r, t.target, b, y.sourceId, y.relation, y.evidence, e)
  }

  ghost predicate SymbolEdge(g: Group, c: Contribution, y: SymbolReference, e: Edge) {
    exists r :: r in c.references && ImportedEdge(g, r, y, e)
  }

  ghost predicate SourceEdge(g: Group, c: Contribution, e: Edge) {
    || (FileOf(c.nodes).Some? && exists r :: r in c.references && ReferenceEdge(g, FileOf(c.nodes).value, r, e))
    || (exists y :: y in c.symbols && SymbolEdge(g, c, y, e))
  }

  // ----- The same, without the functions the loops use -----

  lemma {:induction false} TargetIsFirst(g: Group, candidates: seq<Path>)
    ensures TargetOf(g, candidates).Missing? <==>
              forall k :: 0 <= k < |candidates| ==> Lookup(g, candidates[k]).Missing?
    ensures !TargetOf(g, candidates).Missing? ==>
              exists k: nat :: FirstReply(g, candidates, k, TargetOf(g, candidates))
  {
    if candidates != [] {
      if !Lookup(g, candidates[0]).Missing? {
        assert FirstReply(g, candidates, 0, Lookup(g, candidates[0]));
      } else {
        TargetIsFirst(g, candidates[1..]);
        assert forall j :: 0 < j < |candidates| ==> candidates[j] == candidates[1..][j - 1];
        if !TargetOf(g, candidates).Missing? {
          var k: nat :| FirstReply(g, candidates[1..], k, TargetOf(g, candidates));
          assert FirstReply(g, candidates, k + 1, TargetOf(g, candidates));
        }
      }
    }
  }

  /** Neither staged nor unreadable. */
  predicate NotIndexed(g: Group, p: Path) {
    p !in g.staged && p !in g.unreadable
  }

  /** The target of a reference: the first indexed candidate, which can be read, and its first file node. */
  ghost predicate Targets(g: Group, r: Reference, c: Contribution, file: Node) {
    exists k: nat, f: nat ::
      && k < |r.candidates| && r.candidates[k] in g.staged && r.candidates[k] !in g.unreadable
      && c == g.staged[r.candidates[k]] && (forall j :: 0 <= j < k ==> NotIndexed(g, r.candidates[j]))
      && FirstFile(c.nodes, f) && file == c.nodes[f]
  }

  /** A surface a binding names: by its name or as one of all, the default one not for `export *`. */
  predicate Named(kind: Kind, b: Binding, s: Surface) {
    if b.imported != "*" then s.name == b.imported
    else if kind == ReExport && b.exported == "*" then s.name != "default"
    else true
  }

  lemma TargetsExactly(g: Group, r: Reference, c: Contribution, file: Node)
    ensures Targets(g, r, c, file) <==> TargetOf(g, r.candidates) == Hit(c) && FileOf(c.nodes) == Some(file)
  {
    TargetIsFirst(g, r.candidates);
    FileOfIsFirst(c.nodes);
    hide TargetOf, FileOf;
    if TargetOf(g, r.candidates) == Hit(c) && FileOf(c.nodes) == Some(file) {
      var k: nat :| FirstReply(g, r.candidates, k, Hit(c));
      var f: nat :| FirstFile(c.nodes, f) && file == c.nodes[f];
      assert forall j :: 0 <= j < k ==> NotIndexed(g, r.candidates[j]);
    }
    if Targets(g, r, c, file) {
      var k: nat, f: nat :|
        && k < |r.candidates| && r.candidates[k] in g.staged && r.candidates[k] !in g.unreadable
        && c == g.staged[r.candidates[k]] && (forall j :: 0 <= j < k ==> NotIndexed(g, r.candidates[j]))
        && FirstFile(c.nodes, f) && file == c.nodes[f];
      var m: nat :| FirstReply(g, r.candidates, m, TargetOf(g, r.candidates));
      assert m == k;
      var n: nat :| FirstFile(c.nodes, n) && FileOf(c.nodes).value == c.nodes[n];
      assert n == f;
    }
  }

  lemma TargetsEverywhere(g: Group, r: Reference)
    ensures forall c, file ::
              Targets(g, r, c, file) <==> TargetOf(g, r.candidates) == Hit(c) && FileOf(c.nodes) == Some(file)
  {
    hide Targets, TargetOf, FileOf;
    forall c, file
      ensures Targets(g, r, c, file) <==> TargetOf(g, r.candidates) == Hit(c) && FileOf(c.nodes) == Some(file)
    {
      TargetsExactly(g, r, c, file);
    }
  }

  /** The surfaces the reference's bindings name. */
  ghost predicate NamesSurface(r: Reference, c: Contribution, id: string) {
    exists b, s :: b in r.bindings && s in c.surfaces && Named(r.kind, b, s) && id == s.nodeId
  }

  lemma NamedIsTaken(r: Reference, c: Contribution, relation: string, evidence: Evidence, e: Edge)
    ensures (exists b :: b in r.bindings && BindingEdge(r, c, b, r.sourceId, relation, evidence, e))
       <==> e.source == r.sourceId && e.relation == relation && e.evidence == evidence && NamesSurface(r, c, e.target)
  {
    if b :| b in r.bindings && BindingEdge(r, c, b, r.sourceId, relation, evidence, e) {
      var s :| s in c.surfaces && Takes(r.kind, b, s) && e == Edge(r.sourceId, s.nodeId, relation, evidence);
      assert Named(r.kind, b, s);
    }
    if e == Edge(r.sourceId, e.target, relation, evidence) && NamesSurface(r, c, e.target) {
      var b, s :| b in r.bindings && s in c.surfaces && Named(r.kind, b, s) && e.target == s.nodeId;
      assert Takes(r.kind, b, s);
      assert BindingEdge(r, c, b, r.sourceId, relation, evidence, e);
    }
  }

  /** The edges of a reference: to the file of its target and to every surface its bindings name. */
  lemma ReferenceEdgeExactly(g: Group, file: Node, r: Reference, e: Edge)
    ensures ReferenceEdge(g, file, r, e) <==>
              && !(g.language == TypeScript && r.kind == Require)
              && e.source == r.sourceId
              && e.relation == (if g.language == TypeScript
                                then if r.kind == ReExport then "typescript:re_exports" else "typescript:imports_from"
                                else if r.kind == ReExport then "javascript:re_exports" else "javascript:imports_from")
              && e.evidence == file.evidence.(confidence := if r.ambiguous then Ambiguous else file.evidence.confidence)
              && exists c, targetFile ::
                   Targets(g, r, c, targetFile) && (e.target == targetFile.id || NamesSurface(r, c, e.target))
  {
    var relation, evidence := RelationFor(g.language, r.kind), ReferenceEvidence(file, r);
    assert relation.None? <==> g.language == TypeScript && r.kind == Require;
    assert relation.Some? ==>
        relation.value == if g.language == TypeScript
                          then if r.kind == ReExport then "typescript:re_exports" else "typescript:imports_from"
                          else if r.kind == ReExport then "javascript:re_exports" else "javascript:imports_from";
    TargetsEverywhere(g, r);
    hide Targets, TargetOf, FileOf, RelationFor, ReferenceEvidence, NamesSurface, BindingEdge;
    if TargetOf(g, r.candidates).Hit? && relation.Some? {
      NamedIsTaken(r, TargetOf(g, r.candidates).target, relation.value, evidence, e);
    }
    if ReferenceEdge(g, file, r, e) {
      var c := TargetOf(g, r.candidates).target;
      assert Targets(g, r, c, FileOf(c.nodes).value);
    }
  }

  /** It fails when the first indexed candidate cannot be read, has no file node or is required by TypeScript. */
  lemma ReferenceFailsExactly(g: Group, r: Reference)
    ensures !ReferenceResolves(g, r) <==>
              exists k: nat ::
                && k < |r.candidates| && !NotIndexed(g, r.candidates[k])
                && (forall j :: 0 <= j < k ==> NotIndexed(g, r.candidates[j]))
                && (|| r.candidates[k] in g.unreadable
                    || (forall n :: n in g.staged[r.candidates[k]].nodes ==> n.kind != FILE)
                    || (g.language == TypeScript && r.kind == Require))
  {
    TargetIsFirst(g, r.candidates);
    var t := TargetOf(g, r.candidates);
    if t.Hit? { FileOfIsFirst(t.target.nodes); }
    hide TargetOf, FileOf;
    assert RelationFor(g.language, r.kind).None? <==> g.language == TypeScript && r.kind == Require;
    if !t.Missing? {
      var k: nat :| FirstReply(g, r.candidates, k, t);
      assert forall j :: 0 <= j < k ==> NotIndexed(g, r.candidates[j]);
      assert !NotIndexed(g, r.candidates[k]);
    }
  }

  /** The edges of a symbol: to every surface that an import binds under its name. */
  lemma SymbolEdgeExactly(g: Group, c: Contribution, y: SymbolReference, e: Edge)
    requires ReferencesResolve(g, c)
    ensures SymbolEdge(g, c, y, e) <==>
              exists r, t, file, b, s ::
                && r in c.references && r.kind == Import && Targets(g, r, t, file)
                && b in r.bindings && (if b.local == "" then b.imported else b.local) == y.name
                && s in t.surfaces && Named(Import, b, s)
                && e == Edge(y.sourceId, s.nodeId, y.relation, y.evidence)
  {
    hide Targets, TargetOf, FileOf;
    forall r ensures forall t, file ::
        Targets(g, r, t, file) <==> TargetOf(g, r.candidates) == Hit(t) && FileOf(t.nodes) == Some(file)
    {
      TargetsEverywhere(g, r);
    }
    if SymbolEdge(g, c, y, e) {
      var r :| r in c.references && ImportedEdge(g, r, y, e);
      var t := TargetOf(g, r.candidates).target;
      assert ReferenceResolves(g, r);
      assert Targets(g, r, t, FileOf(t.nodes).value);
    }
  }

  // ----- When a source resolves -----

  /** What the whole index says of node ids. */
  type Catalog = map<string, Node>

  /** A registered relation between known nodes of kinds it permits, with complete evidence. */
  predicate Permits(v: Vocabulary, e: Edge, nodes: map<string, Node>) {
    && e.relation in v.endpoints && e.evidence.Valid() && e.source in nodes && e.target in nodes
    && (nodes[e.source].kind, nodes[e.target].kind) in v.endpoints[e.relation]
  }

  ghost predicate ReferenceResolves(g: Group, r: Reference) {
    var t := TargetOf(g, r.candidates);
    !t.Unreadable? && (t.Hit? ==> FileOf(t.target.nodes).Some? && RelationFor(g.language, r.kind).Some?)
  }

  ghost predicate ReferencesResolve(g: Group, c: Contribution) {
    forall r :: r in c.references ==> ReferenceResolves(g, r)
  }

  /** The nodes that enter the facts of a page with this contribution are valid. */
  ghost predicate NodesValid(g: Group, c: Contribution) {
    forall n :: n in c.nodes && n.kind in g.vocabulary.nodeKinds ==> n.Valid()
  }

  /** So are those of its targets, which enter with it. */
  ghost predicate SuppliesValid(g: Group, c: Contribution) {
    && NodesValid(g, c)
    && forall r :: r in c.references && TargetOf(g, r.candidates).Hit? ==>
         NodesValid(g, TargetOf(g, r.candidates).target)
  }

  ghost predicate EdgesPermitted(g: Group, catalog: Catalog, c: Contribution) {
    forall e :: SourceEdge(g, c, e) ==> Permits(g.vocabulary, e, catalog)
  }

  /** Resolution of this source reports no error. */
  ghost predicate Resolvable(g: Group, catalog: Catalog, c: Contribution) {
    FileOf(c.nodes).Some? && ReferencesResolve(g, c) && SuppliesValid(g, c) && EdgesPermitted(g, catalog, c)
  }

  // ----- Well-formed groups -----

  ghost predicate IsLocal(c: Contribution, id: string) {
    exists n :: n in c.nodes && n.id == id
  }

  /** What contribution validation establishes: every id a contribution uses is one of its nodes. */
  ghost predicate LocalIds(c: Contribution) {
    && (forall r :: r in c.references ==> IsLocal(c, r.sourceId))
    && (forall y :: y in c.symbols ==> IsLocal(c, y.sourceId))
    && (forall s :: s in c.surfaces ==> IsLocal(c, s.nodeId))
  }

  /** An id names one node; a file node belongs to one source and names its path. */
  ghost predicate Catalogued(c: Contribution, catalog: Catalog) {
    forall n :: n in c.nodes ==>
      n.id in catalog && catalog[n.id] == n && (n.kind == FILE ==> n.evidence.path == c.path)
  }

  ghost predicate WellFormed(g: Group, catalog: Catalog) {
    && "" !in g.staged && g.vocabulary.Valid()
    && forall p :: p in g.staged ==> g.staged[p].path == p && LocalIds(g.staged[p]) && Catalogued(g.staged[p], catalog)
  }

  lemma {:induction false} TargetIsStaged(g: Group, candidates: seq<Path>)
    requires TargetOf(g, candidates).Hit?
    ensures exists p :: p in g.staged && TargetOf(g, candidates).target == g.staged[p]
  {
    if Lookup(g, candidates[0]).Missing? { TargetIsStaged(g, candidates[1..]); }
  }

  lemma {:induction false} FileIsNode(nodes: seq<Node>)
    requires FileOf(nodes).Some?
    ensures FileOf(nodes).value in nodes
  {
    if nodes[0].kind != FILE { FileIsNode(nodes[1..]); }
  }

  /** e leads from a node of c to a node of what r resolves to. */
  ghost predicate EndsLocally(g: Group, c: Contribution, r: Reference, e: Edge) {
    IsLocal(c, e.source) && TargetOf(g, r.candidates).Hit? && IsLocal(TargetOf(g, r.candidates).target, e.target)
  }

  lemma ReferenceEdgeEnds(g: Group, catalog: Catalog, c: Contribution, file: Node, r: Reference, e: Edge)
    requires WellFormed(g, catalog) && LocalIds(c) && r in c.references && ReferenceEdge(g, file, r, e)
    ensures EndsLocally(g, c, r, e)
  {
    hide TargetOf, FileOf, Catalogued;
    TargetIsStaged(g, r.candidates);
    FileIsNode(TargetOf(g, r.candidates).target.nodes);
  }

  lemma SymbolEdgeEnds(g: Group, catalog: Catalog, c: Contribution, y: SymbolReference, r: Reference, e: Edge)
    requires WellFormed(g, catalog) && LocalIds(c) && y in c.symbols && ImportedEdge(g, r, y, e)
    ensures EndsLocally(g, c, r, e)
  {
    hide TargetOf, Catalogued;
    TargetIsStaged(g, r.candidates);
  }

  /** An edge leads from a node of its source to a node of one of the source's targets. */
  lemma EdgeEnds(g: Group, catalog: Catalog, c: Contribution, e: Edge)
    requires WellFormed(g, catalog) && LocalIds(c) && SourceEdge(g, c, e)
    ensures exists r :: r in c.references && EndsLocally(g, c, r, e)
  {
    hide ReferenceEdge, ImportedEdge, EndsLocally, WellFormed, LocalIds, FileOf;
    if FileOf(c.nodes).Some? && exists r :: r in c.references && ReferenceEdge(g, FileOf(c.nodes).value, r, e) {
      var r :| r in c.references && ReferenceEdge(g, FileOf(c.nodes).value, r, e);
      ReferenceEdgeEnds(g, catalog, c, FileOf(c.nodes).value, r, e);
    } else {
      var y :| y in c.symbols && SymbolEdge(g, c, y, e);
      var r :| r in c.references && ImportedEdge(g, r, y, e);
      SymbolEdgeEnds(g, catalog, c, y, r, e);
    }
  }

  // ----- The loops -----

  type TargetMemo = Memo<Path, Reply>

  /** The memo stands for the staged contributions. */
  ghost predicate Serves(index: TargetMemo, g: Group)
    reads index
  {
    index.Valid() && forall p :: index.source(p) == Lookup(g, p)
  }

  method PageTarget(g: Group, index: TargetMemo, candidates: seq<Path>) returns (reply: Reply)
    requires Serves(index, g)
    modifies index
    ensures Serves(index, g) && reply == TargetOf(g, candidates)
    ensures reply.Missing? <==> forall k :: 0 <= k < |candidates| ==> Lookup(g, candidates[k]).Missing?
    ensures !reply.Missing? ==>
              exists k :: 0 <= k < |candidates| && reply == Lookup(g, candidates[k])
                          && forall j :: 0 <= j < k ==> Lookup(g, candidates[j]).Missing?
  {
    var i := 0;
    while i < |candidates|
      invariant 0 <= i <= |candidates| && Serves(index, g)
      invariant TargetOf(g, candidates) == TargetOf(g, candidates[i..])
      invariant forall j :: 0 <= j < i ==> Lookup(g, candidates[j]).Missing?
    {
      reply := index.Get(candidates[i]);
      if !reply.Missing? { return; }
      assert candidates[i..][1..] == candidates[i + 1..];
      i := i + 1;
    }
    return Missing;
  }

  method EdgesToSurfaces(r: Reference, t: Contribution, b: Binding, source: string, relation: string,
                         evidence: Evidence)
    returns (edges: seq<Edge>)
    ensures forall e :: e in edges <==> BindingEdge(r, t, b, source, relation, evidence, e)
  {
    edges := [];
    for i := 0 to |t.surfaces|
      invariant forall e :: e in edges <==>
                  exists j :: 0 <= j < i && Takes(r.kind, b, t.surfaces[j])
                              && e == Edge(source, t.surfaces[j].nodeId, relation, evidence)
    {
      if Takes(r.kind, b, t.surfaces[i]) { edges := edges + [Edge(source, t.surfaces[i].nodeId, relation, evidence)]; }
    }
  }

  method ReferenceEdges(g: Group, index: TargetMemo, file: Node, r: Reference)
    returns (reply: Reply, edges: seq<Edge>, error: Option<Error>)
    requires Serves(index, g)
    modifies index
    ensures Serves(index, g)
    ensures error.None? <==> ReferenceResolves(g, r)
    ensures error == Some(ReadError) <==> TargetOf(g, r.candidates).Unreadable?
    ensures error == Some(FileFactMissing) <==>
              TargetOf(g, r.candidates).Hit? && FileOf(TargetOf(g, r.candidates).target.nodes).None?
    ensures error.Some? ==> error.value != InvalidFacts
    ensures error.None? ==> reply == TargetOf(g, r.candidates)
    ensures error.None? ==> forall e :: e in edges <==> ReferenceEdge(g, file, r, e)
  {
    reply := PageTarget(g, index, r.candidates);
    if reply.Unreadable? { return reply, [], Some(ReadError); }
    if reply.Missing? { return reply, [], None; }
    var target := reply.target;
    var targetFile := FileOf(target.nodes);
    if targetFile.None? { return reply, [], Some(FileFactMissing); }
    if RelationFor(g.language, r.kind).None? { return reply, [], Some(UnsupportedKind); }
    var relation, evidence := RelationFor(g.language, r.kind).value, ReferenceEvidence(file, r);
    var first := Edge(r.sourceId, targetFile.value.id, relation, evidence);
    edges := [first];
    for i := 0 to |r.bindings|
      invariant Serves(index, g)
      invariant forall e :: e in edges <==>
                  || e == first
                  || exists j :: 0 <= j < i && BindingEdge(r, target, r.bindings[j], r.sourceId, relation, evidence, e)
    {
      var more := EdgesToSurfaces(r, target, r.bindings[i], r.sourceId, relation, evidence);
      edges := edges + more;
    }
    return reply, edges, None;
  }

  /** An import whose target cannot be read. */
  predicate ImportUnreadable(g: Group, r: Reference) {
    r.kind == Import && TargetOf(g, r.candidates).Unreadable?
  }

  method ImportedEdges(g: Group, index: TargetMemo, r: Reference, y: SymbolReference)
    returns (edges: seq<Edge>, error: Option<Error>)
    requires Serves(index, g)
    modifies index
    ensures Serves(index, g)
    ensures error.None? <==> !ImportUnreadable(g, r)
    ensures error.None? ==> forall e :: e in edges <==> ImportedEdge(g, r, y, e)
  {
    edges := [];
    if r.kind != Import { return edges, None; }
    var reply := PageTarget(g, index, r.candidates);
    if reply.Unreadable? { return edges, Some(ReadError); }
    if reply.Missing? { return edges, None; }
    for i := 0 to |r.bindings|
      invariant Serves(index, g)
      invariant forall e :: e in edges <==>
                  exists j :: 0 <= j < i && r.bindings[j].LocalName() == y.name
                              && BindingEdge(r, reply.target, r.bindings[j], y.sourceId, y.relation, y.evidence, e)
    {
      if r.bindings[i].LocalName() == y.name {
        var more := EdgesToSurfaces(r, reply.target, r.bindings[i], y.sourceId, y.relation, y.evidence);
        edges := edges + more;
      }
    }
    return edges, None;
  }

  method SymbolEdges(g: Group, index: TargetMemo, c: Contribution, y: SymbolReference)
    returns (edges: seq<Edge>, error: Option<Error>)
    requires Serves(index, g)
    modifies index
    ensures Serves(index, g)
    ensures error.None? <==> forall r :: r in c.references ==> !ImportUnreadable(g, r)
    ensures error.None? ==> forall e :: e in edges <==> SymbolEdge(g, c, y, e)
  {
    hide ImportedEdge, TargetOf;
    edges := [];
    for i := 0 to |c.references|
      invariant Serves(index, g)
      invariant forall j :: 0 <= j < i ==> !ImportUnreadable(g, c.references[j])
      invariant forall e :: e in edges <==> exists j :: 0 <= j < i && ImportedEdge(g, c.references[j], y, e)
    {
      var more, failed := ImportedEdges(g, index, c.references[i], y);
      if failed.Some? { return edges, failed; }
      edges := edges + more;
    }
    return edges, None;
  }

  // ----- The nodes a page collects -----

  /** Collected nodes are of the vocabulary's kinds and agree with the whole index. */
  ghost predicate Agrees(nodes: map<string, Node>, g: Group, catalog: Catalog) {
    forall id :: id in nodes ==> id in catalog && nodes[id] == catalog[id] && nodes[id].kind in g.vocabulary.nodeKinds
  }

  ghost predicate HasNodes(nodes: map<string, Node>, g: Group, c: Contribution) {
    forall n :: n in c.nodes && n.kind in g.vocabulary.nodeKinds ==> n.id in nodes
  }

  /** Every collected node comes from a source of the page or from one of its targets. */
  ghost predicate Sourced(nodes: map<string, Node>, g: Group, page: seq<Contribution>) {
    forall id :: id in nodes ==> exists i :: 0 <= i < |page| && Supplies(g, page[i], nodes[id])
  }

  /** The contribution itself or one of its targets has the node. */
  ghost predicate Supplies(g: Group, c: Contribution, n: Node) {
    || n in c.nodes
    || exists r :: r in c.references && TargetOf(g, r.candidates).Hit? && n in TargetOf(g, r.candidates).target.nodes
  }

  ghost predicate HasTargets(g: Group, nodes: map<string, Node>, c: Contribution) {
    forall r :: r in c.references && TargetOf(g, r.candidates).Hit? ==>
      HasNodes(nodes, g, TargetOf(g, r.candidates).target)
  }

  method AddNodes(start: map<string, Node>, g: Group, c: Contribution, ghost catalog: Catalog)
    returns (nodes: map<string, Node>)
    requires Agrees(start, g, catalog) && Catalogued(c, catalog)
    ensures Agrees(nodes, g, catalog) && start.Keys <= nodes.Keys && HasNodes(nodes, g, c)
    ensures forall id :: id in nodes ==> id in start || nodes[id] in c.nodes
  {
    nodes := start;
    for i := 0 to |c.nodes|
      invariant Agrees(nodes, g, catalog) && start.Keys <= nodes.Keys
      invariant forall j :: 0 <= j < i && c.nodes[j].kind in g.vocabulary.nodeKinds ==> c.nodes[j].id in nodes
      invariant forall id :: id in nodes ==> id in start || nodes[id] in c.nodes
    {
      if c.nodes[i].kind in g.vocabulary.nodeKinds { nodes := nodes[c.nodes[i].id := c.nodes[i]]; }
    }
  }

  // ----- One source -----

  /** One reference: its edges, and its target's nodes added to those collected. */
  method CollectReference(g: Group, ghost catalog: Catalog, index: TargetMemo, file: Node, c: Contribution,
                          r: Reference,
                          start: map<string, Node>)
    returns (nodes: map<string, Node>, edges: seq<Edge>, error: Option<Error>)
    requires Serves(index, g) && WellFormed(g, catalog) && Agrees(start, g, catalog) && r in c.references
    modifies index
    ensures Serves(index, g) && Agrees(nodes, g, catalog) && start.Keys <= nodes.Keys
    ensures forall id :: id in nodes ==> id in start || Supplies(g, c, nodes[id])
    ensures error.None? <==> ReferenceResolves(g, r)
    ensures error.None? ==> Collected(g, nodes, r) && forall e :: e in edges <==> ReferenceEdge(g, file, r, e)
  {
    hide ReferenceEdge, ReferenceResolves, Agrees, Catalogued, LocalIds, TargetOf, HasNodes;
    var reply;
    reply, edges, error := ReferenceEdges(g, index, file, r);
    nodes := start;
    if error.None? && reply.Hit? {
      TargetIsStaged(g, r.candidates);
      nodes := AddNodes(start, g, reply.target, catalog);
    }
  }

  /** What r resolves to is among the collected nodes. */
  ghost predicate Collected(g: Group, nodes: map<string, Node>, r: Reference) {
    TargetOf(g, r.candidates).Hit? ==> HasNodes(nodes, g, TargetOf(g, r.candidates).target)
  }

  lemma CollectedStays(g: Group, known: map<string, Node>, nodes: map<string, Node>, r: Reference)
    requires Collected(g, known, r) && known.Keys <= nodes.Keys
    ensures Collected(g, nodes, r)
  {}

  method ModuleEdges(g: Group, ghost catalog: Catalog, index: TargetMemo, file: Node, c: Contribution,
                     start: map<string, Node>)
    returns (nodes: map<string, Node>, edges: seq<Edge>, error: Option<Error>)
    requires Serves(index, g) && WellFormed(g, catalog) && Agrees(start, g, catalog)
    modifies index
    ensures Serves(index, g) && Agrees(nodes, g, catalog) && start.Keys <= nodes.Keys
    ensures forall id :: id in nodes ==> id in start || Supplies(g, c, nodes[id])
    ensures error.None? <==> ReferencesResolve(g, c)
    ensures error.None? ==> HasTargets(g, nodes, c)
    ensures error.None? ==> forall e :: e in edges <==> exists r :: r in c.references && ReferenceEdge(g, file, r, e)
  {
    hide ReferenceEdge, ReferenceResolves, Agrees, WellFormed, Collected, Supplies, HasTargets;
    nodes, edges := start, [];
    for i := 0 to |c.references|
      invariant Serves(index, g) && Agrees(nodes, g, catalog) && start.Keys <= nodes.Keys
      invariant forall id :: id in nodes ==> id in start || Supplies(g, c, nodes[id])
      invariant forall j :: 0 <= j < i ==> ReferenceResolves(g, c.references[j]) && Collected(g, nodes, c.references[j])
      invariant forall e :: e in edges <==> exists j :: 0 <= j < i && ReferenceEdge(g, file, c.references[j], e)
    {
      ghost var known := nodes;
      var more;
      nodes, more, error := CollectReference(g, catalog, index, file, c, c.references[i], nodes);
      SuppliedNodes(g, catalog, c, known, nodes, start);
      if error.Some? { return; }
      forall j | 0 <= j < i ensures Collected(g, nodes, c.references[j]) {
        CollectedStays(g, known, nodes, c.references[j]);
      }
      edges := edges + more;
    }
    AllCollected(g, nodes, c);
    error := None;
  }

  lemma AllCollected(g: Group, nodes: map<string, Node>, c: Contribution)
    requires forall j :: 0 <= j < |c.references| ==> Collected(g, nodes, c.references[j])
    ensures HasTargets(g, nodes, c)
  {}

  /** Nodes that were there before are unchanged. */
  lemma SuppliedNodes(g: Group, catalog: Catalog, c: Contribution, known: map<string, Node>, nodes: map<string, Node>,
                      start: map<string, Node>)
    requires Agrees(known, g, catalog) && Agrees(nodes, g, catalog)
    requires forall id :: id in known ==> id in start || Supplies(g, c, known[id])
    requires forall id :: id in nodes ==> id in known || Supplies(g, c, nodes[id])
    ensures forall id :: id in nodes ==> id in start || Supplies(g, c, nodes[id])
  {
    hide Supplies;
    forall id | id in nodes && id !in start ensures Supplies(g, c, nodes[id]) {
      if id in known { assert nodes[id] == known[id]; }
    }
  }

  method SourceEdges(g: Group, ghost catalog: Catalog, index: TargetMemo, c: Contribution, start: map<string, Node>)
    returns (nodes: map<string, Node>, edges: seq<Edge>, error: Option<Error>)
    requires Serves(index, g) && WellFormed(g, catalog) && Agrees(start, g, catalog) && FileOf(c.nodes).Some?
    modifies index
    ensures Serves(index, g) && Agrees(nodes, g, catalog) && start.Keys <= nodes.Keys
    ensures forall id :: id in nodes ==> id in start || Supplies(g, c, nodes[id])
    ensures error.None? <==> ReferencesResolve(g, c)
    ensures error.None? ==> HasTargets(g, nodes, c) && forall e :: e in edges <==> SourceEdge(g, c, e)
  {
    hide ReferenceEdge, SymbolEdge, Agrees, WellFormed, HasTargets, TargetOf, Supplies;
    var file := FileOf(c.nodes).value;
    nodes, edges, error := ModuleEdges(g, catalog, index, file, c, start);
    if error.Some? { return; }
    for i := 0 to |c.symbols|
      invariant Serves(index, g)
      invariant forall e :: e in edges <==>
                  || (exists r :: r in c.references && ReferenceEdge(g, file, r, e))
                  || (exists j :: 0 <= j < i && SymbolEdge(g, c, c.symbols[j], e))
    {
      var more, failed := SymbolEdges(g, index, c, c.symbols[i]);
      if failed.Some? { return nodes, edges, failed; }
      edges := edges + more;
    }
  }

  // ----- One page -----

  /** The page's contributions are the staged ones. */
  ghost predicate Staging(g: Group, page: seq<Contribution>) {
    forall i :: 0 <= i < |page| ==> page[i].path in g.staged && g.staged[page[i].path] == page[i]
  }

  ghost predicate PageEdge(g: Group, page: seq<Contribution>, e: Edge) {
    exists i :: 0 <= i < |page| && SourceEdge(g, page[i], e)
  }

  method PageNodes(g: Group, ghost catalog: Catalog, page: seq<Contribution>)
    returns (nodes: map<string, Node>, error: Option<Error>)
    requires WellFormed(g, catalog) && Staging(g, page)
    ensures Agrees(nodes, g, catalog) && Sourced(nodes, g, page)
    ensures error.None? <==> forall i :: 0 <= i < |page| ==> FileOf(page[i].nodes).Some?
    ensures error.None? ==> forall i :: 0 <= i < |page| ==> HasNodes(nodes, g, page[i])
  {
    hide LocalIds, Catalogued, Agrees, Sourced;
    nodes := map[];
    NothingCollected(g, catalog, page);
    for i := 0 to |page|
      invariant Agrees(nodes, g, catalog) && Sourced(nodes, g, page)
      invariant forall j :: 0 <= j < i ==> FileOf(page[j].nodes).Some? && HasNodes(nodes, g, page[j])
    {
      if FileOf(page[i].nodes).None? { return nodes, Some(FileFactMissing); }
      assert g.staged[page[i].path] == page[i];
      ghost var known := nodes;
      nodes := AddNodes(nodes, g, page[i], catalog);
      SourcedGrows(g, catalog, page, i, known, nodes);
    }
    return nodes, None;
  }

  lemma NothingCollected(g: Group, catalog: Catalog, page: seq<Contribution>)
    ensures Agrees(map[], g, catalog) && Sourced(map[], g, page)
  {}

  lemma SourcedGrows(g: Group, catalog: Catalog, page: seq<Contribution>, i: nat, known: map<string, Node>,
                     nodes: map<string, Node>)
    requires i < |page| && Agrees(known, g, catalog) && Agrees(nodes, g, catalog) && Sourced(known, g, page)
    requires forall id :: id in nodes ==> id in known || Supplies(g, page[i], nodes[id])
    ensures Sourced(nodes, g, page)
  {
    hide Supplies;
    forall id | id in nodes ensures exists j :: 0 <= j < |page| && Supplies(g, page[j], nodes[id]) {
      if id in known {
        var j :| 0 <= j < |page| && Supplies(g, page[j], known[id]);
        assert nodes[id] == known[id];
      }
    }
  }

  /** Vocabulary.Validate: valid nodes, and edges between them that their relations permit. */
  method Validate(v: Vocabulary, nodes: map<string, Node>, edges: seq<Edge>) returns (ok: bool)
    ensures ok <==> (forall id :: id in nodes ==> nodes[id].Valid()) && forall e :: e in edges ==> Permits(v, e, nodes)
  {
    var ids := nodes.Keys;
    while ids != {}
      invariant ids <= nodes.Keys && forall id :: id in nodes && id !in ids ==> nodes[id].Valid()
      decreases |ids|
    {
      var id :| id in ids;
      if !nodes[id].Valid() { return false; }
      ids := ids - {id};
    }
    for i := 0 to |edges|
      invariant forall j :: 0 <= j < i ==> Permits(v, edges[j], nodes)
    {
      if !Permits(v, edges[i], nodes) { return false; }
    }
    return true;
  }

  /** What the page collected decides an edge of one of its sources as the whole index would. */
  lemma PageDecidesPermission(g: Group, catalog: Catalog, c: Contribution, nodes: map<string, Node>, e: Edge)
    requires WellFormed(g, catalog) && c.path in g.staged && g.staged[c.path] == c && SourceEdge(g, c, e)
    requires Agrees(nodes, g, catalog) && HasNodes(nodes, g, c) && HasTargets(g, nodes, c)
    ensures Permits(g.vocabulary, e, nodes) <==> Permits(g.vocabulary, e, catalog)
  {
    hide SourceEdge, TargetOf;
    EdgeEnds(g, catalog, c, e);
    var r :| r in c.references && EndsLocally(g, c, r, e);
    TargetIsStaged(g, r.candidates);
    assert HasNodes(nodes, g, TargetOf(g, r.candidates).target);
  }

  /** Likewise whether all nodes that enter the facts are valid. */
  lemma PageDecidesNodes(g: Group, catalog: Catalog, page: seq<Contribution>, nodes: map<string, Node>)
    requires WellFormed(g, catalog) && Staging(g, page) && Agrees(nodes, g, catalog) && Sourced(nodes, g, page)
    requires forall i :: 0 <= i < |page| ==> HasNodes(nodes, g, page[i]) && HasTargets(g, nodes, page[i])
    ensures (forall id :: id in nodes ==> nodes[id].Valid()) <==>
              forall i :: 0 <= i < |page| ==> SuppliesValid(g, page[i])
  {
    hide TargetOf;
    if forall id :: id in nodes ==> nodes[id].Valid() {
      forall i | 0 <= i < |page| ensures SuppliesValid(g, page[i]) {
        assert g.staged[page[i].path] == page[i];
        CollectedValid(g, catalog, page[i], nodes);
        forall r | r in page[i].references && TargetOf(g, r.candidates).Hit?
          ensures NodesValid(g, TargetOf(g, r.candidates).target)
        {
          TargetIsStaged(g, r.candidates);
          CollectedValid(g, catalog, TargetOf(g, r.candidates).target, nodes);
        }
      }
    }
    if forall i :: 0 <= i < |page| ==> SuppliesValid(g, page[i]) {
      forall id | id in nodes ensures nodes[id].Valid() {
        var i :| 0 <= i < |page| && Supplies(g, page[i], nodes[id]);
        assert SuppliesValid(g, page[i]);
      }
    }
  }

  lemma CollectedValid(g: Group, catalog: Catalog, c: Contribution, nodes: map<string, Node>)
    requires Catalogued(c, catalog) && Agrees(nodes, g, catalog) && HasNodes(nodes, g, c)
    requires forall id :: id in nodes ==> nodes[id].Valid()
    ensures NodesValid(g, c)
  {}

  /** Every source's edges through one fresh memo. */
  method PageEdges(g: Group, ghost catalog: Catalog, page: seq<Contribution>, start: map<string, Node>)
    returns (nodes: map<string, Node>, edges: seq<Edge>, error: Option<Error>)
    requires WellFormed(g, catalog) && Staging(g, page) && Agrees(start, g, catalog) && Sourced(start, g, page)
    requires forall i :: 0 <= i < |page| ==> HasNodes(start, g, page[i]) && FileOf(page[i].nodes).Some?
    ensures Agrees(nodes, g, catalog) && Sourced(nodes, g, page)
    ensures error.None? <==> forall i :: 0 <= i < |page| ==> ReferencesResolve(g, page[i])
    ensures error.None? ==> forall e :: e in edges <==> PageEdge(g, page, e)
    ensures error.None? ==> forall i :: 0 <= i < |page| ==> HasNodes(nodes, g, page[i]) && HasTargets(g, nodes, page[i])
  {
    hide SourceEdge, Agrees, WellFormed, HasTargets, ReferencesResolve, TargetOf, Sourced, Supplies;
    nodes, edges := start, [];
    var index := new Memo<Path, Reply>(p => Lookup(g, p));
    for i := 0 to |page|
      invariant fresh(index) && Serves(index, g) && Agrees(nodes, g, catalog) && Sourced(nodes, g, page)
      invariant forall j :: 0 <= j < |page| ==> HasNodes(nodes, g, page[j])
      invariant forall j :: 0 <= j < i ==> ReferencesResolve(g, page[j]) && HasTargets(g, nodes, page[j])
      invariant forall e :: e in edges <==> exists j :: 0 <= j < i && SourceEdge(g, page[j], e)
    {
      ghost var known := nodes;
      var more;
      nodes, more, error := SourceEdges(g, catalog, index, page[i], nodes);
      SourcedGrows(g, catalog, page, i, known, nodes);
      if error.Some? { return; }
      forall j | 0 <= j < i ensures HasTargets(g, nodes, page[j]) { HasTargetsStays(g, known, nodes, page[j]); }
      edges := edges + more;
    }
    error := None;
  }

  /** Independent of which other sources share the page: it fails exactly when one of its sources does. */
  method ResolvePage(g: Group, ghost catalog: Catalog, page: seq<Contribution>)
    returns (nodes: map<string, Node>, edges: seq<Edge>, error: Option<Error>)
    requires WellFormed(g, catalog) && Staging(g, page)
    ensures Agrees(nodes, g, catalog)
    ensures error.None? <==> forall i :: 0 <= i < |page| ==> Resolvable(g, catalog, page[i])
    ensures error.None? ==> forall e :: e in edges <==> PageEdge(g, page, e)
    ensures error.None? ==> forall id :: id in nodes ==> nodes[id].Valid()
    ensures error.None? ==> forall i :: 0 <= i < |page| ==> HasNodes(nodes, g, page[i]) && HasTargets(g, nodes, page[i])
  {
    hide SourceEdge, Agrees, WellFormed, HasNodes, HasTargets, ReferencesResolve, FileOf, Permits, Sourced;
    hide SuppliesValid;
    edges := [];
    nodes, error := PageNodes(g, catalog, page);
    if error.Some? { return; }
    nodes, edges, error := PageEdges(g, catalog, page, nodes);
    if error.Some? { return; }
    var ok := Validate(g.vocabulary, nodes, edges);
    PageDecidesNodes(g, catalog, page, nodes);
    PageDecidesEdges(g, catalog, page, nodes, edges);
    if !ok { return nodes, edges, Some(InvalidFacts); }
  }

  lemma PageDecidesEdges(g: Group, catalog: Catalog, page: seq<Contribution>, nodes: map<string, Node>,
                         edges: seq<Edge>)
    requires WellFormed(g, catalog) && Staging(g, page) && Agrees(nodes, g, catalog)
    requires forall i :: 0 <= i < |page| ==> HasNodes(nodes, g, page[i]) && HasTargets(g, nodes, page[i])
    requires forall e :: e in edges <==> PageEdge(g, page, e)
    ensures (forall e :: e in edges ==> Permits(g.vocabulary, e, nodes)) <==>
              forall i :: 0 <= i < |page| ==> EdgesPermitted(g, catalog, page[i])
  {
    hide SourceEdge, Agrees, WellFormed, HasNodes, HasTargets, Permits;
    forall i, e | 0 <= i < |page| && SourceEdge(g, page[i], e)
      ensures e in edges && (Permits(g.vocabulary, e, nodes) <==> Permits(g.vocabulary, e, catalog))
    {
      assert PageEdge(g, page, e);
      PageDecidesPermission(g, catalog, page[i], nodes, e);
    }
    if forall i :: 0 <= i < |page| ==> EdgesPermitted(g, catalog, page[i]) {
      forall e | e in edges ensures Permits(g.vocabulary, e, nodes) {
        var i :| 0 <= i < |page| && SourceEdge(g, page[i], e);
        assert EdgesPermitted(g, catalog, page[i]);
      }
    }
  }

  lemma HasTargetsStays(g: Group, nodes: map<string, Node>, more: map<string, Node>, c: Contribution)
    requires HasTargets(g, nodes, c) && nodes.Keys <= more.Keys
    ensures HasTargets(g, more, c)
  {
    forall r | r in c.references && TargetOf(g, r.candidates).Hit?
      ensures HasNodes(more, g, TargetOf(g, r.candidates).target)
    {
      assert HasNodes(nodes, g, TargetOf(g, r.candidates).target);
    }
  }
}
