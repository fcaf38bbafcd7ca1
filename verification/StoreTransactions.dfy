/** Each transaction of the store as one database value computed from another. */
module StoreTransactions {
  import opened Common
  import opened GraphTables
  import opened SnapshotHistory

  lemma {:induction false} LargestExists(vs: set<Version>) returns (m: Version)
    requires vs != {}
    ensures m in vs && forall v :: v in vs ==> v <= m
  {
    var x :| x in vs;
    if vs == {x} {
      m := x;
    } else {
      var rest := LargestExists(vs - {x});
      m := if rest > x then rest else x;
      assert forall v :: v in vs ==> v == x || v in vs - {x};
    }
  }

  lemma MaxVersionExists(versions: set<VersionKey>, w: Workspace)
    ensures exists m: Version :: IsMaxVersion(versions, w, m)
  {
    var vs := VersionsOf(versions, w);
    if vs == {} {
      assert forall v: Version :: VersionKey(w, v) in versions ==> v in vs;
      assert IsMaxVersion(versions, w, 0);
    } else {
      var m := LargestExists(vs);
      assert forall v: Version :: VersionKey(w, v) in versions ==> v in vs;
      assert IsMaxVersion(versions, w, m);
    }
  }

  ghost function MaxVersion(versions: set<VersionKey>, w: Workspace): (m: Version)
    ensures IsMaxVersion(versions, w, m)
  {
    MaxVersionExists(versions, w);
    var m: Version :| IsMaxVersion(versions, w, m);
    m
  }

  /** pruneVersions. */
  ghost function PruneDatabase(db: Database, w: Workspace, v: Version): Result<Database, StoreError> {
    if VersionKey(w, v) !in db.versions then Err(VersionNotFound)
    else if RebaseClashes(db.rows, w, v) then Err(ConstraintViolation)
    else Ok(Database(
              DeleteVersionsBefore(db.versions, w, v),
              DeleteFromBefore(Rebase(db.rows, w, v), w, v),
              DeleteFactsBefore(db.nodes, w, v),
              DeleteFactsBefore(db.edges, w, v)))
  }

  ghost function RollbackDatabase(db: Database, w: Workspace, v: Version): Result<Database, StoreError> {
    if VersionKey(w, v) !in db.versions then Err(VersionNotFound)
    else Ok(Database(
              DeleteVersionsAfter(db.versions, w, v),
              Reopen(DeleteFromAfter(db.rows, w, v), w, v),
              DeleteFactsAfter(db.nodes, w, v),
              DeleteFactsAfter(db.edges, w, v)))
  }

  ghost function AutomaticPrune(db: Database, w: Workspace, v: Version): Result<Database, StoreError> {
    if v > RETAINED_GRAPH_VERSIONS then PruneDatabase(db, w, v - RETAINED_GRAPH_VERSIONS + 1) else Ok(db)
  }

  /** retainWorkspaceFacts followed by storeWorkspaceFacts, for edges. */
  function PublishedEdgeTable(edges: FactTable<EdgeKey, EdgeFact>, w: Workspace, v: Version, owners: seq<Path>,
                              written: seq<(EdgeKey, EdgeFact)>)
    : Result<FactTable<EdgeKey, EdgeFact>, StoreError>
  {
    if owners == [] || v <= 1 then Ok(StoreFacts(edges, w, v, written)) else
      var kept := RetainedEdges(edges, w, v, Elements(owners));
      if CopyClashes(edges, w, v, kept) then Err(ConstraintViolation)
      else Ok(StoreFacts(CopyIn(edges, w, v, kept), w, v, written))
  }

  /** Close the prior rows of every updated path, insert the new ones. */
  ghost function ReplaceRows(rows: set<Row>, w: Workspace, v: Version, update: seq<Source>)
    : Result<set<Row>, StoreError>
  {
    var closed := CloseUpdated(rows, w, v, PathsOf(update));
    if InsertClashes(closed, NewRows(w, v, update)) then Err(ConstraintViolation)
    else Ok(closed + NewRows(w, v, update))
  }

  /** A publication as version v, before retention. */
  ghost function AppendPublication(db: Database, w: Workspace, v: Version, update: seq<Source>, facts: Facts,
                                   owners: seq<Path>): Result<Database, StoreError>
  {
    match (PublishedEdgeTable(db.edges, w, v, owners, facts.edges), ReplaceRows(db.rows, w, v, update)) {
      case (Ok(edges), Ok(rows)) =>
        Ok(Database(db.versions + {VersionKey(w, v)}, rows, StoreFacts(db.nodes, w, v, facts.nodes), edges))
      case _ => Err(ConstraintViolation)
    }
  }

  /** A session's writes as version v, before retention. */
  ghost function AppendCommit(db: Database, w: Workspace, v: Version, staged: set<Path>, written: seq<Source>,
                              facts: Facts): Result<Database, StoreError>
  {
    match ReplaceRows(db.rows, w, v, written) {
      case Err(e) => Err(e)
      case Ok(rows) =>
        Ok(Database(db.versions + {VersionKey(w, v)},
                    if v > 1 then CloseMissing(rows, w, staged, v - 1) else rows,
                    StoreFacts(db.nodes, w, v, facts.nodes),
                    StoreFacts(db.edges, w, v, facts.edges)))
    }
  }

  ghost function Retained(appended: Result<Database, StoreError>, w: Workspace, v: Version)
    : Result<Database, StoreError>
  {
    match appended {
      case Ok(db) => AutomaticPrune(db, w, v)
      case Err(e) => Err(e)
    }
  }

  ghost function PublishDatabase(db: Database, w: Workspace, update: seq<Source>, facts: Facts, owners: seq<Path>)
    : Result<Database, StoreError>
  {
    if !DistinctPaths(update) then Err(InvalidRequest) else
      var v := MaxVersion(db.versions, w) + 1;
      Retained(AppendPublication(db, w, v, update, facts, owners), w, v)
  }

  ghost function CommitDatabase(db: Database, w: Workspace, staged: set<Path>, written: seq<Source>, facts: Facts)
    : Result<Database, StoreError>
  {
    if !(DistinctPaths(written) && PathsOf(written) <= staged) then Err(InvalidRequest) else
      var v := MaxVersion(db.versions, w) + 1;
      Retained(AppendCommit(db, w, v, staged, written, facts), w, v)
  }

  ghost function ApplyDatabase(db: Database, w: Workspace, request: Request): Result<Database, StoreError> {
    match request
    case Publish(update, facts, owners) => PublishDatabase(db, w, update, facts, owners)
    case Commit(staged, written, facts) => CommitDatabase(db, w, staged, written, facts)
    case Rollback(v) => RollbackDatabase(db, w, v)
    case Prune(v) => if v == 0 then Err(InvalidRequest) else PruneDatabase(db, w, v)
  }
}
