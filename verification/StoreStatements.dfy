/** The statement sequences of one transaction, run on the transaction's own table values. */
module StoreStatements {
  import opened Common
  import opened GraphTables
  import opened StoreTransactions

  /** SELECT COALESCE(MAX(version), 0) + 1. */
  method NextVersion(versions: set<VersionKey>, w: Workspace) returns (v: Version)
    ensures v == MaxVersion(versions, w) + 1
  {
    var rest, newest := versions, 0;
    while rest != {}
      invariant rest <= versions
      invariant forall k :: k in versions && k !in rest && k.workspace == w ==> k.version <= newest
      invariant newest == 0 || VersionKey(w, newest) in versions
      decreases rest
    {
      var k :| k in rest;
      rest := rest - {k};
      if k.workspace == w && k.version > newest { newest := k.version; }
    }
    assert VersionKey(w, MaxVersion(versions, w)) in versions || MaxVersion(versions, w) == 0;
    assert newest != 0 ==> newest in VersionsOf(versions, w);
    v := newest + 1;
  }

  /** encodeContributions: two contributions for one source path are an invalid request. */
  method CheckDistinct(update: seq<Source>) returns (distinct: bool)
    ensures distinct == DistinctPaths(update)
  {
    var seen: set<Path> := {};
    for i := 0 to |update|
      invariant DistinctPaths(update[..i])
      invariant forall p :: p in seen <==> exists j :: 0 <= j < i && update[j].path == p
    {
      if update[i].path in seen { return false; }
      seen := seen + {update[i].path};
      assert update[..i + 1] == update[..i] + [update[i]];
    }
    assert update[..|update|] == update;
    return true;
  }

  method InsertFacts<K(==), V>(t: FactTable<K, V>, w: Workspace, v: Version, s: seq<(K, V)>)
    returns (r: FactTable<K, V>)
    ensures r == StoreFacts(t, w, v, s)
  {
    r := t;
    for i := 0 to |s|
      invariant r == StoreFacts(t, w, v, s[..i])
    {
      assert Stamped(s[..i + 1], w, v)[..i] == Stamped(s[..i], w, v);
      var key := FactKey(w, v, s[i].0);
      if key !in r { r := r[key := s[i].1]; }
    }
    assert s[..|s|] == s;
  }

  // ----- Contributions: closing at once, inserting in deferred batches -----

  lemma CloseOneMore(rows: set<Row>, w: Workspace, paths: set<Path>, p: Path, t: Version)
    ensures ClosePaths(ClosePaths(rows, w, paths, t), w, {p}, t) == ClosePaths(rows, w, paths + {p}, t)
  {
    var once, both := ClosePaths(rows, w, paths, t), ClosePaths(rows, w, paths + {p}, t);
    forall r | r in rows
      ensures CloseRow(CloseRow(r, w, paths, t), w, {p}, t) == CloseRow(r, w, paths + {p}, t)
    {}
    forall x | x in both ensures x in ClosePaths(once, w, {p}, t) {
      var r :| r in rows && x == CloseRow(r, w, paths + {p}, t);
      assert CloseRow(r, w, paths, t) in once;
    }
  }

  lemma CloseUnion(a: set<Row>, b: set<Row>, w: Workspace, p: Path, t: Version)
    requires forall r :: r in b ==> r.path != p
    ensures ClosePaths(a + b, w, {p}, t) == ClosePaths(a, w, {p}, t) + b
  {
    forall r | r in b ensures CloseRow(r, w, {p}, t) == r {}
    forall x | x in b ensures x in ClosePaths(a + b, w, {p}, t) {
      assert CloseRow(x, w, {p}, t) == x;
    }
  }

  lemma ClosingKeepsKeys(rows: set<Row>, w: Workspace, v: Version, paths: set<Path>, added: set<Row>)
    ensures InsertClashes(CloseUpdated(rows, w, v, paths), added) <==> InsertClashes(rows, added)
  {
    if v > 1 {
      if InsertClashes(rows, added) {
        var a, b :| a in rows && b in added && SameKey(a, b);
        assert SameKey(CloseRow(a, w, paths, v - 1), b);
      }
      if InsertClashes(CloseUpdated(rows, w, v, paths), added) {
        var c, b :| c in CloseUpdated(rows, w, v, paths) && b in added && SameKey(c, b);
        var a :| a in rows && c == CloseRow(a, w, paths, v - 1);
        assert SameKey(a, b);
      }
    }
  }

  /** Flushing a batch: a plain INSERT of the buffered contribution rows. */
  method FlushContributions(rows: set<Row>, w: Workspace, v: Version, buffer: seq<Source>)
    returns (r: Result<set<Row>, StoreError>)
    ensures r == if InsertClashes(rows, NewRows(w, v, buffer)) then Err(ConstraintViolation)
                 else Ok(rows + NewRows(w, v, buffer))
  {
    if InsertClashes(rows, NewRows(w, v, buffer)) { return Err(ConstraintViolation); }
    return Ok(rows + NewRows(w, v, buffer));
  }

  /** Part of the update is inserted, the rest still buffered; all of it is already closed. */
  ghost predicate Batched(rows: set<Row>, start: set<Row>, w: Workspace, v: Version, update: seq<Source>,
                          flushed: nat, n: nat)
  {
    && flushed <= n <= |update|
    && rows == CloseUpdated(start, w, v, PathsOf(update[..n])) + NewRows(w, v, update[..flushed])
    && !InsertClashes(start, NewRows(w, v, update[..flushed]))
  }

  lemma FlushStep(rows: set<Row>, start: set<Row>, w: Workspace, v: Version, update: seq<Source>, flushed: nat, n: nat)
    requires Batched(rows, start, w, v, update, flushed, n) && DistinctPaths(update)
    ensures var added := NewRows(w, v, update[flushed..n]);
            && (InsertClashes(rows, added) ==> InsertClashes(start, NewRows(w, v, update)))
            && (!InsertClashes(rows, added) ==> Batched(rows + added, start, w, v, update, n, n))
  {
    var earlier, added := NewRows(w, v, update[..flushed]), NewRows(w, v, update[flushed..n]);
    NewRowsSplit(w, v, update, flushed, n);
    NewRowsApart(w, v, update, flushed, n);
    ClosingKeepsKeys(start, w, v, PathsOf(update[..n]), added);
    ClashesOfUnion(CloseUpdated(start, w, v, PathsOf(update[..n])), earlier, added);
    ClashesWithUnion(start, earlier, added);
    if InsertClashes(start, added) { ClashesGrow(start, added, NewRows(w, v, update)); }
    hide NewRows, CloseUpdated, InsertClashes;
  }

  lemma NewRowsSplit(w: Workspace, v: Version, update: seq<Source>, flushed: nat, n: nat)
    requires flushed <= n <= |update|
    ensures NewRows(w, v, update[..n]) == NewRows(w, v, update[..flushed]) + NewRows(w, v, update[flushed..n])
    ensures NewRows(w, v, update[flushed..n]) <= NewRows(w, v, update)
  {
    assert update[..n] == update[..flushed] + update[flushed..n];
  }

  lemma NewRowsApart(w: Workspace, v: Version, update: seq<Source>, flushed: nat, n: nat)
    requires flushed <= n <= |update| && DistinctPaths(update)
    ensures !InsertClashes(NewRows(w, v, update[..flushed]), NewRows(w, v, update[flushed..n]))
  {
    forall a, b | a in NewRows(w, v, update[..flushed]) && b in NewRows(w, v, update[flushed..n])
      ensures !SameKey(a, b)
    {
      var s :| s in update[..flushed] && a == NewRow(w, v, s);
      var t :| t in update[flushed..n] && b == NewRow(w, v, t);
      var i :| 0 <= i < flushed && update[i] == s;
      var j :| flushed <= j < n && update[j] == t;
    }
  }

  lemma ClashesOfUnion(a: set<Row>, b: set<Row>, added: set<Row>)
    ensures InsertClashes(a + b, added) <==> InsertClashes(a, added) || InsertClashes(b, added)
  {
    hide SameKey;
  }

  lemma ClashesWithUnion(rows: set<Row>, a: set<Row>, b: set<Row>)
    ensures InsertClashes(rows, a + b) <==> InsertClashes(rows, a) || InsertClashes(rows, b)
  {
    hide SameKey;
  }

  lemma ClashesGrow(rows: set<Row>, a: set<Row>, b: set<Row>)
    requires InsertClashes(rows, a) && a <= b
    ensures InsertClashes(rows, b)
  {
    hide SameKey;
  }

  lemma CloseStep(rows: set<Row>, start: set<Row>, w: Workspace, v: Version, update: seq<Source>, flushed: nat, n: nat)
    requires Batched(rows, start, w, v, update, flushed, n) && DistinctPaths(update) && n < |update|
    ensures Batched(CloseUpdated(rows, w, v, {update[n].path}), start, w, v, update, flushed, n + 1)
  {
    var p, inserted := update[n].path, NewRows(w, v, update[..flushed]);
    assert update[..n + 1] == update[..n] + [update[n]];
    assert PathsOf(update[..n + 1]) == PathsOf(update[..n]) + {p};
    forall r | r in inserted ensures r.path != p {
      var s :| s in update[..flushed] && r == NewRow(w, v, s);
      var i :| 0 <= i < flushed && update[i] == s;
    }
    if v > 1 {
      CloseUnion(ClosePaths(start, w, PathsOf(update[..n]), v - 1), inserted, w, p, v - 1);
      CloseOneMore(start, w, PathsOf(update[..n]), p, v - 1);
    }
  }

  /**
   * The write loop of a publication. Prior rows are closed as each contribution is added,
   * new rows wait in the batch and are flushed at points that depend on its limits: for any
   * choice of flush points the rows end up the same.
   */
  method ReplaceContributions(start: set<Row>, w: Workspace, v: Version, update: seq<Source>)
    returns (r: Result<set<Row>, StoreError>)
    requires DistinctPaths(update)
    ensures r == ReplaceRows(start, w, v, update)
  {
    hide NewRows, CloseUpdated, InsertClashes;
    var rows, flushed := start, 0;
    assert Batched(rows, start, w, v, update, 0, 0) by { NothingBatched(start, w, v, update); }
    ClosingKeepsKeys(start, w, v, PathsOf(update), NewRows(w, v, update));
    for n := 0 to |update|
      invariant Batched(rows, start, w, v, update, flushed, n)
    {
      if * {
        FlushStep(rows, start, w, v, update, flushed, n);
        var full := FlushContributions(rows, w, v, update[flushed..n]);
        if full.Err? { return Err(full.error); }
        rows, flushed := full.value, n;
      }
      CloseStep(rows, start, w, v, update, flushed, n);
      rows := CloseUpdated(rows, w, v, {update[n].path});
    }
    FlushStep(rows, start, w, v, update, flushed, |update|);
    r := FlushContributions(rows, w, v, update[flushed..]);
    assert update[..|update|] == update && update[flushed..] == update[flushed..|update|];
  }

  lemma NothingBatched(start: set<Row>, w: Workspace, v: Version, update: seq<Source>)
    ensures Batched(start, start, w, v, update, 0, 0)
  {
    assert update[..0] == [];
    assert NewRows(w, v, []) == {};
    if v > 1 {
      forall r | r in start ensures CloseRow(r, w, {}, v - 1) == r {}
      assert ClosePaths(start, w, {}, v - 1) == start;
    }
  }

  // ----- Retained facts, pruning, rollback -----

  method ReplaceEdges(edges: FactTable<EdgeKey, EdgeFact>, w: Workspace, v: Version, owners: seq<Path>,
                      written: seq<(EdgeKey, EdgeFact)>)
    returns (r: Result<FactTable<EdgeKey, EdgeFact>, StoreError>)
    ensures r == PublishedEdgeTable(edges, w, v, owners, written)
  {
    var table := edges;
    if owners != [] && v > 1 {
      var kept := RetainedEdges(table, w, v, Elements(owners));
      if CopyClashes(table, w, v, kept) { return Err(ConstraintViolation); }
      table := CopyIn(table, w, v, kept);
    }
    table := InsertFacts(table, w, v, written);
    return Ok(table);
  }

  method PruneVersions(db: Database, w: Workspace, v: Version) returns (r: Result<Database, StoreError>, pruned: nat)
    ensures r == PruneDatabase(db, w, v)
    ensures r.Ok? ==> pruned == |db.versions - r.value.versions|
  {
    pruned := 0;
    if VersionKey(w, v) !in db.versions { return Err(VersionNotFound), 0; }
    var below := set k | k in db.versions && k.workspace == w && k.version < v;
    if RebaseClashes(db.rows, w, v) { return Err(ConstraintViolation), 0; }
    var rows := Rebase(db.rows, w, v);
    rows := DeleteFromBefore(rows, w, v);
    var nodes := DeleteFactsBefore(db.nodes, w, v);
    var edges := DeleteFactsBefore(db.edges, w, v);
    var versions := DeleteVersionsBefore(db.versions, w, v);
    assert db.versions - versions == below;
    return Ok(Database(versions, rows, nodes, edges)), |below|;
  }

  method RollBackTo(db: Database, w: Workspace, v: Version) returns (r: Result<Database, StoreError>)
    ensures r == RollbackDatabase(db, w, v)
  {
    if VersionKey(w, v) !in db.versions { return Err(VersionNotFound); }
    var rows := DeleteFromAfter(db.rows, w, v);
    var nodes := DeleteFactsAfter(db.nodes, w, v);
    var edges := DeleteFactsAfter(db.edges, w, v);
    rows := Reopen(rows, w, v);
    var versions := DeleteVersionsAfter(db.versions, w, v);
    return Ok(Database(versions, rows, nodes, edges));
  }

  method RetainNewest(db: Database, w: Workspace, v: Version) returns (r: Result<Database, StoreError>)
    ensures r == AutomaticPrune(db, w, v)
  {
    if v <= RETAINED_GRAPH_VERSIONS { return Ok(db); }
    var pruned;
    r, pruned := PruneVersions(db, w, v - RETAINED_GRAPH_VERSIONS + 1);
  }

  /** All writes of one publication, in the order the transaction issues them. */
  method WritePublication(db: Database, w: Workspace, v: Version, update: seq<Source>, facts: Facts, owners: seq<Path>)
    returns (r: Result<Database, StoreError>)
    requires DistinctPaths(update)
    ensures r == AppendPublication(db, w, v, update, facts, owners)
  {
    var edges := ReplaceEdges(db.edges, w, v, owners, facts.edges);
    if edges.Err? { return Err(ConstraintViolation); }
    var nodes := InsertFacts(db.nodes, w, v, facts.nodes);
    var rows := ReplaceContributions(db.rows, w, v, update);
    if rows.Err? { return Err(ConstraintViolation); }
    return Ok(Database(db.versions + {VersionKey(w, v)}, rows.value, nodes, edges.value));
  }
}
