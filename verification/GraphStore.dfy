/**
 * The store object: its tables, its projection cache, and the operations that change them.
 * Every operation keeps the tables refining the snapshot histories and the cache coherent.
 */
module GraphStore {
  import opened Common
  import opened GraphTables
  import opened SnapshotHistory
  import opened StoreTransactions
  import opened RowIntervals
  import opened StoreRefinement
  import opened StoreRuns
  import opened StoreStatements
  import opened ProjectionCaching

  // ----- Reads that survive a request -----

  /** A version live before and after a request is the same snapshot; only the next one is new. */
  lemma ApplyKeepsSurvivors(h: History, request: Request, v: Version)
    requires h.WellFormed() && Apply(h, request).Ok? && Apply(h, request).value.Live(v)
    ensures h.Live(v) ==> Apply(h, request).value.At(v) == h.At(v)
    ensures !h.Live(v) ==> Appends(request) && v == h.Newest() + 1
  {
    hide PublishedSnapshot, CommittedSnapshot, WithRetention;
    match request
    case Publish(update, facts, owners) =>
      AppendKeepsSurvivors(h, PublishedSnapshot(h.Current(), update, facts, owners), v);
    case Commit(staged, written, facts) =>
      AppendKeepsSurvivors(h, CommittedSnapshot(h.Current(), staged, written, facts), v);
    case _ =>
  }

  lemma AppendKeepsSurvivors(h: History, s: Snapshot, v: Version)
    requires h.WellFormed() && WithRetention(h.Append(s)).Ok? && WithRetention(h.Append(s)).value.Live(v)
    ensures h.Live(v) ==> WithRetention(h.Append(s)).value.At(v) == h.At(v)
    ensures !h.Live(v) ==> v == h.Newest() + 1
  {}

  lemma AppendMakesNext(h: History, request: Request)
    requires h.WellFormed() && Apply(h, request).Ok? && Appends(request)
    ensures Apply(h, request).value.Newest() == h.Newest() + 1
  {
    hide PublishedSnapshot, CommittedSnapshot;
  }

  /** Every version live before and after an operation reads the same rows. */
  lemma SurvivorsReadTheSame(db: Database, hs: Histories, op: Operation, k: VersionKey)
    requires AllWellFormed(hs) && RefinesAll(db, hs)
    requires k in StepDatabase(db, op).0.versions
    ensures k in db.versions ==>
              RowView(StepDatabase(db, op).0.rows, k.workspace, k.version) == RowView(db.rows, k.workspace, k.version)
    ensures k !in db.versions ==>
              Appends(op.request) && k == VersionKey(op.workspace, HistoryOf(hs, op.workspace).Newest() + 1)
  {
    hide Apply, Intervals, RowView, FactView, LiveOnly, StepDatabase;
    StepRefines(db, hs, op);
    var w, v := k.workspace, k.version;
    var db', hs' := StepDatabase(db, op).0, StepHistories(hs, op).0;
    var h, h' := HistoryOf(hs, w), HistoryOf(hs', w);
    assert k == VersionKey(w, v);
    assert Refines(db, w, h) && Refines(db', w, h');
    assert h'.Live(v) && ViewsAgree(db', w, v, h'.At(v));
    if w == op.workspace && StepHistories(hs, op).1 == None {
      ApplyKeepsSurvivors(h, op.request, v);
    }
    if h.Live(v) {
      assert ViewsAgree(db, w, v, h.At(v));
    }
  }

  function OutcomeOf<T>(r: Result<T, StoreError>): Outcome {
    match r
    case Ok(_) => None
    case Err(e) => Some(e)
  }

  /** What the cache holds for a live version is what a fresh read returns. */
  ghost predicate CoherentWith(entries: Entries, db: Database) {
    forall k :: k in entries && k in db.versions ==> entries[k].values == RowView(db.rows, k.workspace, k.version)
  }

  /**
   * Dropping the new version's key is enough after an operation: entries of versions that
   * are no longer live may stay, and are dropped if their number is ever published again.
   */
  lemma StepKeepsCoherence(db: Database, hs: Histories, op: Operation, entries: Entries, entries': Entries)
    requires AllWellFormed(hs) && RefinesAll(db, hs) && CoherentWith(entries, db)
    requires entries'.Keys <= entries.Keys && forall k :: k in entries' ==> entries'[k] == entries[k]
    requires Appends(op.request) && StepDatabase(db, op).1 == None ==>
               VersionKey(op.workspace, HistoryOf(hs, op.workspace).Newest() + 1) !in entries'
    ensures CoherentWith(entries', StepDatabase(db, op).0)
  {
    hide RefinesAll, RowView, Apply, ApplyDatabase;
    var db' := StepDatabase(db, op).0;
    forall k | k in entries' && k in db'.versions
      ensures entries'[k].values == RowView(db'.rows, k.workspace, k.version)
    {
      SurvivorsReadTheSame(db, hs, op, k);
    }
  }

  class Store {
    var versions: set<VersionKey>
    var rows: set<Row>
    var nodes: FactTable<NodeId, NodeFact>
    var edges: FactTable<EdgeKey, EdgeFact>
    const cache: ProjectionCache
    ghost var histories: Histories

    ghost function Tables(): Database
      reads this
    {
      Database(versions, rows, nodes, edges)
    }

    ghost predicate Valid()
      reads this, cache
    {
      && AllWellFormed(histories)
      && RefinesAll(Tables(), histories)
      && cache.Valid()
      && CoherentWith(cache.entries, Tables())
    }

    constructor (cacheLimit: nat, cost: Projections -> nat)
      ensures Valid() && fresh(cache)
      ensures Tables() == EMPTY_DATABASE && histories == map[]
    {
      versions, rows, nodes, edges := {}, {}, map[], map[];
      cache := new ProjectionCache(cacheLimit, cost);
      histories := map[];
      new;
      EmptyRefines();
    }

    /** Commit of a transaction: its tables become the store's, and stale cache keys go. */
    method Install(db: Database, w: Workspace, remove: Version -> bool, ghost op: Operation)
      requires Valid() && op.workspace == w
      requires StepDatabase(Tables(), op) == (db, None)
      requires Appends(op.request) ==> remove(HistoryOf(histories, w).Newest() + 1)
      modifies this, cache
      ensures Valid() && Tables() == db
      ensures histories == StepHistories(old(histories), op).0 && StepHistories(old(histories), op).1 == None
    {
      hide RefinesAll, CoherentWith, StepDatabase, StepHistories, Total, EntriesOk;
      StepRefines(Tables(), histories, op);
      cache.Invalidate(w, remove);
      StepKeepsCoherence(Tables(), histories, op, old(cache.entries), cache.entries);
      versions, rows, nodes, edges := db.versions, db.rows, db.nodes, db.edges;
      histories := StepHistories(histories, op).0;
    }

    /** `fits` is the outcome of measuring the database against its budget before committing. */
    method Publish(w: Workspace, update: seq<Source>, facts: Facts, owners: seq<Path>, fits: bool)
      returns (r: Result<Version, StoreError>)
      requires Valid()
      modifies this, cache
      ensures Valid()
      ensures var op := Operation(w, Request.Publish(update, facts, owners), fits);
              StepDatabase(old(Tables()), op) == (Tables(), OutcomeOf(r))
      ensures var op := Operation(w, Request.Publish(update, facts, owners), fits);
              StepHistories(old(histories), op) == (histories, OutcomeOf(r))
      ensures r.Ok? ==> r.value == HistoryOf(histories, w).Newest()
    {
      hide RefinesAll, CoherentWith, AppendPublication, AutomaticPrune, Apply;
      ghost var op := Operation(w, Request.Publish(update, facts, owners), fits);
      StepRefines(Tables(), histories, op);
      if w == "" { return Err(InvalidRequest); }
      var distinct := CheckDistinct(update);
      if !distinct { return Err(InvalidRequest); }
      var v := StoreStatements.NextVersion(versions, w);
      NewestIsMax(Tables(), histories, w);
      var db := WritePublication(Database(versions, rows, nodes, edges), w, v, update, facts, owners);
      if db.Err? { return Err(db.error); }
      db := RetainNewest(db.value, w, v);
      if db.Err? { return Err(db.error); }
      if !fits { return Err(BudgetExceeded); }
      AppendMakesNext(HistoryOf(histories, w), op.request);
      Install(db.value, w, cached => cached == v, op);
      return Ok(v);
    }

    method Rollback(w: Workspace, v: Version) returns (r: Result<Version, StoreError>)
      requires Valid()
      modifies this, cache
      ensures Valid()
      ensures StepDatabase(old(Tables()), Operation(w, Request.Rollback(v), true)) == (Tables(), OutcomeOf(r))
      ensures StepHistories(old(histories), Operation(w, Request.Rollback(v), true)) == (histories, OutcomeOf(r))
      ensures r.Ok? ==> r.value == v
    {
      hide RefinesAll, CoherentWith, RollbackDatabase, Apply;
      StepRefines(Tables(), histories, Operation(w, Request.Rollback(v), true));
      if w == "" { return Err(InvalidRequest); }
      var db := RollBackTo(Database(versions, rows, nodes, edges), w, v);
      if db.Err? { return Err(db.error); }
      Install(db.value, w, cached => cached > v, Operation(w, Request.Rollback(v), true));
      return Ok(v);
    }

    method Prune(w: Workspace, before: Version) returns (r: Result<nat, StoreError>)
      requires Valid()
      modifies this, cache
      ensures Valid()
      ensures StepDatabase(old(Tables()), Operation(w, Request.Prune(before), true)) == (Tables(), OutcomeOf(r))
      ensures StepHistories(old(histories), Operation(w, Request.Prune(before), true)) == (histories, OutcomeOf(r))
      ensures r.Ok? ==> r.value == |old(versions) - versions|
    {
      hide RefinesAll, CoherentWith, PruneDatabase, Apply;
      StepRefines(Tables(), histories, Operation(w, Request.Prune(before), true));
      if w == "" || before == 0 { return Err(InvalidRequest); }
      var db, pruned := PruneVersions(Database(versions, rows, nodes, edges), w, before);
      if db.Err? { return Err(db.error); }
      Install(db.value, w, cached => cached < before, Operation(w, Request.Prune(before), true));
      return Ok(pruned);
    }

    /** A cached or fresh read; for a live version both are the visible contributions. */
    method ResolverProjections(w: Workspace, v: Version) returns (r: Result<Projections, StoreError>)
      requires Valid()
      modifies cache
      ensures Valid()
      ensures w == "" || v == 0 ==> r == Err(InvalidRequest)
      ensures w != "" && v != 0 ==> r.Ok?
      ensures r.Ok? && VersionKey(w, v) in versions ==> r.value == RowView(rows, w, v)
      ensures r.Ok? && VersionKey(w, v) in versions ==>
                r.value == HistoryOf(histories, w).At(v).sources.Items
    {
      if w == "" || v == 0 { return Err(InvalidRequest); }
      LiveReads(Tables(), histories, w, v);
      var hit := cache.Lookup(VersionKey(w, v));
      if hit.Some? { return Ok(hit.value); }
      var projections := RowView(rows, w, v);
      ghost var before := cache.entries;
      cache.Insert(VersionKey(w, v), projections);
      FreshEntryIsCoherent(before, cache.entries, VersionKey(w, v), Tables());
      return Ok(projections);
    }
  }

  lemma FreshEntryIsCoherent(before: Entries, after: Entries, key: VersionKey, db: Database)
    requires CoherentWith(before, db) && SurvivorsAreNewest(before - {key}, after - {key})
    requires key in after ==>
               || after[key].values == RowView(db.rows, key.workspace, key.version)
               || (key in before && after[key] == before[key])
    ensures CoherentWith(after, db)
  {
    forall k | k in after && k in db.versions ensures after[k].values == RowView(db.rows, k.workspace, k.version) {
      if k != key { assert k in after - {key} && (after - {key})[k] == (before - {key})[k]; }
    }
  }

  lemma NewestIsMax(db: Database, hs: Histories, w: Workspace)
    requires AllWellFormed(hs) && RefinesAll(db, hs)
    ensures HistoryOf(hs, w).WellFormed()
    ensures MaxVersion(db.versions, w) == HistoryOf(hs, w).Newest()
  {
    assert Refines(db, w, HistoryOf(hs, w));
    MaxIsNewest(db, w, HistoryOf(hs, w));
  }

  lemma LiveReads(db: Database, hs: Histories, w: Workspace, v: Version)
    requires RefinesAll(db, hs)
    ensures VersionKey(w, v) in db.versions <==> HistoryOf(hs, w).Live(v)
    ensures HistoryOf(hs, w).Live(v) ==> RowView(db.rows, w, v) == HistoryOf(hs, w).At(v).sources.Items
  {
    assert Refines(db, w, HistoryOf(hs, w));
    if HistoryOf(hs, w).Live(v) {
      assert ViewsAgree(db, w, v, HistoryOf(hs, w).At(v));
    }
  }
}
