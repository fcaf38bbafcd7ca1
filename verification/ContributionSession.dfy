/**
 * A contribution session: sources are staged, then written, in one transaction that
 * becomes a single graph version on commit and nothing otherwise.
 */
module ContributionSessions {
  import opened Common
  import opened GraphTables
  import opened SnapshotHistory
  import opened StoreTransactions
  import RowIntervals
  import opened StoreRefinement
  import opened StoreRuns
  import opened StoreStatements
  import opened GraphStore

  datatype FactCounts = FactCounts(nodes: nat, edges: nat)

  /** Sources written, the last `buffered` of them closed but not yet inserted; missing ones closed or not. */
  ghost predicate RowsWritten(rows: set<Row>, start: set<Row>, w: Workspace, v: Version, written: seq<Source>,
                              buffered: nat, missingClosed: bool, staged: set<Path>)
  {
    buffered <= |written| &&
    if missingClosed && v > 1 then
      exists full ::
        Batched(full, start, w, v, written, |written|, |written|) && rows == CloseMissing(full, w, staged, v - 1)
    else
      Batched(rows, start, w, v, written, |written| - buffered, |written|)
  }

  /** Each path marked as written was written once; the last contributions are still buffered. */
  ghost predicate Booked(sources: map<Path, bool>, written: seq<Source>, buffer: seq<Source>) {
    && DistinctPaths(written)
    && (forall p :: p in PathsOf(written) <==> p in sources && sources[p])
    && |buffer| <= |written| && buffer == written[|written| - |buffer|..]
  }

  class ContributionSession {
    const store: Store
    const workspace: Workspace
    const pendingVersion: Version
    // the transaction's view of the tables
    var rows: set<Row>
    var nodes: FactTable<NodeId, NodeFact>
    var edges: FactTable<EdgeKey, EdgeFact>
    /** contribution_session_sources: staged path to contribution_written. */
    var sources: map<Path, bool>
    var buffer: seq<Source>
    var sealed: bool
    var missingSourcesClosed: bool
    var workspaceFactsWritten: bool
    var workspaceFactsSealed: bool
    var closed: bool
    ghost var written: seq<Source>
    ghost var facts: Facts

    function Staged(): set<Path>
      reads this
    {
      sources.Keys
    }

    /** Between calls missing sources are closed only once contributions are sealed. */
    ghost predicate Valid()
      reads this, store
    {
      Consistent() && (!closed && missingSourcesClosed ==> sealed)
    }

    /** The session's writes are exactly `written` and `facts` on top of the store's tables. */
    ghost predicate Consistent()
      reads this, store
    {
      && workspace != ""
      && (!closed ==>
            && pendingVersion == MaxVersion(store.versions, workspace) + 1
            && Booked(sources, written, buffer)
            && (sealed || missingSourcesClosed ==> buffer == [])
            && RowsWritten(rows, store.rows, workspace, pendingVersion, written, |buffer|, missingSourcesClosed,
                           Staged())
            && nodes == StoreFacts(store.nodes, workspace, pendingVersion, facts.nodes)
            && edges == StoreFacts(store.edges, workspace, pendingVersion, facts.edges))
    }

    constructor (store: Store, workspace: Workspace, pendingVersion: Version)
      requires workspace != "" && pendingVersion == MaxVersion(store.versions, workspace) + 1
      ensures Valid() && this.store == store && this.workspace == workspace && this.pendingVersion == pendingVersion
      ensures sources == map[] && written == [] && facts == Facts([], []) && !closed && !sealed
      ensures !workspaceFactsWritten && !workspaceFactsSealed
    {
      this.store, this.workspace, this.pendingVersion := store, workspace, pendingVersion;
      rows, nodes, edges := store.rows, store.nodes, store.edges;
      sources, buffer, written, facts := map[], [], [], Facts([], []);
      sealed, missingSourcesClosed, workspaceFactsWritten, workspaceFactsSealed, closed :=
        false, false, false, false, false;
      new;
      NothingBatched(rows, workspace, pendingVersion, []);
    }

    /** Staging a path twice, or the empty path, fails the session. */
    method StageSource(path: Path) returns (r: Result<(), StoreError>)
      requires Valid()
      modifies this
      ensures Valid()
      ensures r.Ok? <==> !old(closed) && !old(sealed) && path != "" && path !in old(sources)
      ensures r.Ok? ==> !closed && sources == old(sources)[path := false]
      ensures r.Err? && !old(closed) ==> closed == !old(sealed)
      ensures written == old(written) && facts == old(facts) && sealed == old(sealed)
      ensures workspaceFactsWritten == old(workspaceFactsWritten) && workspaceFactsSealed == old(workspaceFactsSealed)
    {
      if closed || sealed { return Err(InvalidRequest); }
      if path == "" { closed := true; return Err(InvalidRequest); }
      if path in sources { closed := true; return Err(ConstraintViolation); }
      sources := sources[path := false];
      return Ok(());
    }

    /** Flushing the batch; the flush points never show in the result. */
    method Flush() returns (r: Result<(), StoreError>)
      requires Valid() && !closed
      modifies this
      ensures Valid()
      ensures store.Valid() ==> r.Ok?
      ensures r.Ok? ==> !closed && buffer == []
      ensures r.Err? ==> closed && r.error == ConstraintViolation &&
                         ReplaceRows(store.rows, workspace, pendingVersion, written).Err?
      ensures sources == old(sources) && written == old(written) && facts == old(facts) && sealed == old(sealed)
      ensures missingSourcesClosed == old(missingSourcesClosed)
      ensures workspaceFactsWritten == old(workspaceFactsWritten) && workspaceFactsSealed == old(workspaceFactsSealed)
    {
      hide StoreFacts, InsertClashes, NewRows;
      if buffer == [] { return Ok(()); }
      ghost var flushed := |written| - |buffer|;
      FlushStep(rows, store.rows, workspace, pendingVersion, written, flushed, |written|);
      assert written[flushed..|written|] == buffer;
      var full := FlushContributions(rows, workspace, pendingVersion, buffer);
      if full.Err? {
        ClosingKeepsKeys(store.rows, workspace, pendingVersion, PathsOf(written),
                         NewRows(workspace, pendingVersion, written));
        if store.Valid() { WritesNeverClash(store.Tables(), store.histories, workspace, written); }
        closed := true;
        return Err(full.error);
      }
      rows, buffer := full.value, [];
      return Ok(());
    }

    /** batch.add: close the prior rows of the path now, buffer the new one. */
    method AddToBatch(source: Source)
      requires Valid() && !closed && !sealed && source.path in sources && !sources[source.path]
      modifies this
      ensures Valid() && !closed && !sealed
      ensures sources == old(sources)[source.path := true] && written == old(written) + [source] && facts == old(facts)
      ensures workspaceFactsWritten == old(workspaceFactsWritten) && workspaceFactsSealed == old(workspaceFactsSealed)
    {
      hide StoreFacts, RowsWritten, NewRows, CloseUpdated;
      WrittenOnce(written, source);
      AddedRows(rows, store.rows, workspace, pendingVersion, written, |buffer|, Staged(), source);
      rows := CloseUpdated(rows, workspace, pendingVersion, {source.path});
      SuffixExtends(written, buffer, source);
      sources := sources[source.path := true];
      assert Staged() == old(Staged());
      buffer := buffer + [source];
      written := written + [source];
    }

    /** A contribution is accepted once, for a staged path only; anything else fails the session. */
    method WriteContribution(source: Source) returns (r: Result<(), StoreError>)
      requires Valid()
      modifies this
      ensures Valid()
      ensures store.Valid() ==>
                (r.Ok? <==> !old(closed) && !old(sealed) && source.path in old(sources) && !old(sources)[source.path])
      ensures r.Ok? ==> !old(closed) && !old(sealed) && source.path in old(sources) && !old(sources)[source.path]
      ensures r.Ok? ==> !closed && sources == old(sources)[source.path := true] && written == old(written) + [source]
      ensures r.Err? && !old(closed) && !old(sealed) ==> closed
      ensures r.Err? && (source.path in old(sources) ==> old(sources)[source.path]) ==> r.error == InvalidRequest
      ensures facts == old(facts) && sealed == old(sealed)
      ensures workspaceFactsWritten == old(workspaceFactsWritten) && workspaceFactsSealed == old(workspaceFactsSealed)
    {
      hide RowsWritten, StoreFacts, ReplaceRows;
      if closed || sealed { return Err(InvalidRequest); }
      if source.path !in sources || sources[source.path] { closed := true; return Err(InvalidRequest); }
      if * {
        var before := Flush();
        if before.Err? { return before; }
      }
      AddToBatch(source);
      if * {
        r := Flush();
      } else {
        r := Ok(());
      }
    }

    method SealContributions() returns (r: Result<(), StoreError>)
      requires Valid()
      modifies this
      ensures Valid()
      ensures store.Valid() ==> (r.Ok? <==> !old(closed))
      ensures r.Ok? ==> !closed && sealed
      ensures old(closed) ==> r.Err?
      ensures sources == old(sources) && written == old(written) && facts == old(facts)
      ensures workspaceFactsWritten == old(workspaceFactsWritten) && workspaceFactsSealed == old(workspaceFactsSealed)
    {
      if closed { return Err(InvalidRequest); }
      if sealed { return Ok(()); }
      r := Flush();
      if r.Ok? { sealed := true; }
    }

    method WriteWorkspaceFacts(more: Facts) returns (r: Result<(), StoreError>)
      requires Valid()
      modifies this
      ensures Valid()
      ensures r.Ok? <==> !old(closed) && old(sealed) && !old(workspaceFactsSealed)
      ensures facts == if r.Ok? then Facts(old(facts).nodes + more.nodes, old(facts).edges + more.edges) else old(facts)
      ensures r.Ok? ==> workspaceFactsWritten
      ensures sources == old(sources) && written == old(written) && sealed == old(sealed) && closed == old(closed)
      ensures workspaceFactsSealed == old(workspaceFactsSealed)
    {
      hide RowsWritten, StoreFacts, Booked;
      if closed || !sealed || workspaceFactsSealed { return Err(InvalidRequest); }
      StoreFactsTwice(store.nodes, workspace, pendingVersion, facts.nodes, more.nodes);
      StoreFactsTwice(store.edges, workspace, pendingVersion, facts.edges, more.edges);
      nodes := InsertFacts(nodes, workspace, pendingVersion, more.nodes);
      edges := InsertFacts(edges, workspace, pendingVersion, more.edges);
      facts := Facts(facts.nodes + more.nodes, facts.edges + more.edges);
      workspaceFactsWritten := true;
      return Ok(());
    }

    method CloseMissingSources()
      requires Consistent() && !closed && buffer == []
      modifies this
      ensures Consistent() && !closed && sealed == old(sealed) && missingSourcesClosed
      ensures sources == old(sources) && written == old(written) && facts == old(facts) && buffer == old(buffer)
      ensures workspaceFactsWritten == old(workspaceFactsWritten) && workspaceFactsSealed == old(workspaceFactsSealed)
    {
      hide Batched, StoreFacts, CloseMissing;
      if !missingSourcesClosed && pendingVersion > 1 {
        rows := CloseMissing(rows, workspace, Staged(), pendingVersion - 1);
      }
      missingSourcesClosed := true;
    }

    /** Returns how many distinct nodes and edges the pending version holds. */
    method SealWorkspaceFacts() returns (r: Result<FactCounts, StoreError>)
      requires Valid() && store.Valid()
      modifies this
      ensures Valid()
      ensures r.Ok? <==> !old(closed) && old(sealed)
      ensures r.Ok? ==> workspaceFactsSealed && missingSourcesClosed
      ensures r.Ok? ==>
                r.value == FactCounts(|InsertOrIgnore(map[], facts.nodes)|, |InsertOrIgnore(map[], facts.edges)|)
      ensures sources == old(sources) && written == old(written) && facts == old(facts) && closed == old(closed)
      ensures sealed == old(sealed) && workspaceFactsWritten == old(workspaceFactsWritten)
    {
      hide StoreFacts, RefinesAll, CoherentWith, RowsWritten, Booked, FactKeysAt, InsertOrIgnore;
      if closed || !sealed { return Err(InvalidRequest); }
      CloseMissingSources();
      PendingFacts(store.Tables(), store.histories, workspace, facts);
      var counts := FactCounts(|FactKeysAt(nodes, workspace, pendingVersion)|,
                               |FactKeysAt(edges, workspace, pendingVersion)|);
      workspaceFactsSealed := true;
      return Ok(counts);
    }

    /** The final flush and closing of missing sources: the transaction's tables are complete. */
    method CompleteTables() returns (r: Result<Database, StoreError>)
      requires Valid() && !closed
      modifies this
      ensures r == AppendCommit(store.Tables(), workspace, pendingVersion, Staged(), written, facts)
      ensures sources == old(sources) && written == old(written) && facts == old(facts)
    {
      hide StoreFacts, CloseMissing, InsertClashes, NewRows, CloseUpdated;
      var flushed := Flush();
      if flushed.Err? { return Err(flushed.error); }
      CloseMissingSources();
      ClosingKeepsKeys(store.rows, workspace, pendingVersion, PathsOf(written),
                       NewRows(workspace, pendingVersion, written));
      assert written[..|written|] == written;
      return Ok(Database(store.versions + {VersionKey(workspace, pendingVersion)}, rows, nodes, edges));
    }

    /**
     * Commit turns the session into exactly one Commit request on the store: the new version
     * shows the staged part of the prior sources overridden by what was written. On failure
     * the store is untouched.
     */
    method Commit(fits: bool) returns (r: Result<Version, StoreError>)
      requires Valid() && store.Valid()
      modifies this, store, store.cache
      ensures store.Valid()
      ensures var op := Operation(workspace, Request.Commit(old(Staged()), old(written), old(facts)), fits);
              if old(closed) || (old(workspaceFactsWritten) && !old(workspaceFactsSealed)) then
                && r == Err(InvalidRequest)
                && store.Tables() == old(store.Tables()) && store.histories == old(store.histories)
              else
                && closed
                && StepDatabase(old(store.Tables()), op) == (store.Tables(), OutcomeOf(r))
                && StepHistories(old(store.histories), op) == (store.histories, OutcomeOf(r))
                && (r.Ok? ==> r.value == pendingVersion == HistoryOf(store.histories, workspace).Newest())
    {
      hide RefinesAll, CoherentWith, AppendCommit, AutomaticPrune, Apply, StoreFacts, RowsWritten;
      if closed || (workspaceFactsWritten && !workspaceFactsSealed) { return Err(InvalidRequest); }
      ghost var op := Operation(workspace, Request.Commit(Staged(), written, facts), fits);
      StepRefines(store.Tables(), store.histories, op);
      NewestIsMax(store.Tables(), store.histories, workspace);
      assert PathsOf(written) <= Staged();
      var db := CompleteTables();
      closed := true;
      if db.Err? { return Err(db.error); }
      db := RetainNewest(db.value, workspace, pendingVersion);
      if db.Err? { return Err(db.error); }
      if !fits { return Err(BudgetExceeded); }
      AppendMakesNext(HistoryOf(store.histories, workspace), op.request);
      store.Install(db.value, workspace, cached => cached == pendingVersion, op);
      return Ok(pendingVersion);
    }

    /** A rolled-back session leaves no trace: the store was never written. */
    method Rollback()
      requires Valid()
      modifies this
      ensures Valid() && closed
      ensures sources == old(sources) && written == old(written)
    {
      closed := true;
    }
  }

  /** In a store that refines its history, new rows at the next version clash with none. */
  lemma WritesNeverClash(db: Database, hs: Histories, w: Workspace, written: seq<Source>)
    requires AllWellFormed(hs) && RefinesAll(db, hs)
    ensures ReplaceRows(db.rows, w, MaxVersion(db.versions, w) + 1, written).Ok?
  {
    hide ViewsAgree, RowIntervals.Intervals, InsertClashes, AllWellFormed;
    var h := HistoryOf(hs, w);
    NewestIsMax(db, hs, w);
    assert Refines(db, w, h);
    RowIntervals.ReplaceDoesNotClash(db.rows, w, h.first, h.Newest(), written);
  }

  /** The pending version starts without facts, so it holds exactly what the session stored. */
  lemma PendingFacts(db: Database, hs: Histories, w: Workspace, facts: Facts)
    requires AllWellFormed(hs) && RefinesAll(db, hs)
    ensures var v := MaxVersion(db.versions, w) + 1;
            && |FactKeysAt(StoreFacts(db.nodes, w, v, facts.nodes), w, v)| == |InsertOrIgnore(map[], facts.nodes)|
            && |FactKeysAt(StoreFacts(db.edges, w, v, facts.edges), w, v)| == |InsertOrIgnore(map[], facts.edges)|
  {
    hide RefinesAll, AllWellFormed, StoreFacts, InsertOrIgnore, FactKeysAt, FactView;
    var v := MaxVersion(db.versions, w) + 1;
    NothingPending(db, hs, w);
    CountFacts(db.nodes, w, v, facts.nodes);
    CountFacts(db.edges, w, v, facts.edges);
  }

  lemma NothingPending(db: Database, hs: Histories, w: Workspace)
    requires AllWellFormed(hs) && RefinesAll(db, hs)
    ensures var v := MaxVersion(db.versions, w) + 1;
            FactView(db.nodes, w, v) == map[] && FactView(db.edges, w, v) == map[]
  {
    hide FactView, FactKeysAt, RowView, ViewsAgree;
    var h := HistoryOf(hs, w);
    NewestIsMax(db, hs, w);
    assert Refines(db, w, h);
    NoFactsAtNext(db.nodes, w, h.first, h.Newest());
    NoFactsAtNext(db.edges, w, h.first, h.Newest());
  }

  lemma CountFacts<K(!new), V>(t: FactTable<K, V>, w: Workspace, v: Version, s: seq<(K, V)>)
    requires FactView(t, w, v) == map[]
    ensures |FactKeysAt(StoreFacts(t, w, v, s), w, v)| == |InsertOrIgnore(map[], s)|
  {
    StoreFactsEffect(t, w, v, s);
    hide StoreFacts, InsertOrIgnore;
    var view := FactView(StoreFacts(t, w, v, s), w, v);
    assert view.Keys == FactKeysAt(StoreFacts(t, w, v, s), w, v);
    assert |view| == |view.Keys|;
  }

  lemma WrittenOnce(written: seq<Source>, source: Source)
    requires DistinctPaths(written) && source.path !in PathsOf(written)
    ensures DistinctPaths(written + [source])
    ensures PathsOf(written + [source]) == PathsOf(written) + {source.path}
  {
    forall i | 0 <= i < |written| ensures written[i].path != source.path {
      assert written[i] in written;
    }
    assert forall s :: s in written + [source] <==> s in written || s == source;
  }

  lemma SuffixExtends(written: seq<Source>, buffer: seq<Source>, source: Source)
    requires |buffer| <= |written| && buffer == written[|written| - |buffer|..]
    ensures buffer + [source] == (written + [source])[|written| - |buffer|..]
  {}

  lemma BatchedExtends(rows: set<Row>, start: set<Row>, w: Workspace, v: Version, written: seq<Source>, flushed: nat,
                       source: Source)
    requires Batched(rows, start, w, v, written, flushed, |written|)
    ensures Batched(rows, start, w, v, written + [source], flushed, |written|)
  {
    assert (written + [source])[..|written|] == written[..|written|];
    assert (written + [source])[..flushed] == written[..flushed];
  }

  lemma AddedRows(rows: set<Row>, start: set<Row>, w: Workspace, v: Version, written: seq<Source>, buffered: nat,
                  staged: set<Path>, source: Source)
    requires RowsWritten(rows, start, w, v, written, buffered, false, staged) && DistinctPaths(written + [source])
    ensures RowsWritten(CloseUpdated(rows, w, v, {source.path}), start, w, v, written + [source], buffered + 1, false,
                        staged)
  {
    hide Batched, CloseUpdated;
    var flushed := |written| - buffered;
    BatchedExtends(rows, start, w, v, written, flushed, source);
    CloseStep(rows, start, w, v, written + [source], flushed, |written|);
  }

  lemma {:induction false} StoreFactsTwice<K, V>(t: FactTable<K, V>, w: Workspace, v: Version,
                                                 a: seq<(K, V)>, b: seq<(K, V)>)
    ensures StoreFacts(StoreFacts(t, w, v, a), w, v, b) == StoreFacts(t, w, v, a + b)
  {
    if b == [] {
      assert a + b == a;
      assert Stamped(b, w, v) == [];
    } else {
      var init := b[..|b| - 1];
      StoreFactsTwice(t, w, v, a, init);
      assert (a + b)[..|a + b| - 1] == a + init;
      assert Stamped(a + b, w, v)[..|a + b| - 1] == Stamped(a + init, w, v);
      assert Stamped(b, w, v)[..|b| - 1] == Stamped(init, w, v);
    }
  }

  method BeginContributionSession(store: Store, workspace: Workspace)
    returns (r: Result<ContributionSession, StoreError>)
    requires store.Valid()
    ensures r.Err? <==> workspace == ""
    ensures r.Ok? ==> fresh(r.value) && r.value.Valid() && r.value.store == store && r.value.workspace == workspace
    ensures r.Ok? ==> !r.value.closed && !r.value.sealed && r.value.sources == map[] && r.value.written == []
    ensures r.Ok? ==> r.value.facts == Facts([], []) && !r.value.workspaceFactsWritten && !r.value.workspaceFactsSealed
  {
    if workspace == "" { return Err(InvalidRequest); }
    var v := StoreStatements.NextVersion(store.versions, workspace);
    var session := new ContributionSession(store, workspace, v);
    return Ok(session);
  }
}
