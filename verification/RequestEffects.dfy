/**
 * What one request does to the tables, written out: when it fails, which versions live on, and
 * what a read of the new version finds.
 */
module RequestEffects {
  import opened Common
  import opened GraphTables
  import opened SnapshotHistory
  import opened StoreTransactions
  import opened StoreRefinement
  import opened StoreRuns
  import GraphStore
  import RowIntervals

  // ----- Outcomes and live versions -----

  /** The error a request on a named workspace meets, the byte budget aside. */
  ghost predicate FailsWith(db: Database, w: Workspace, request: Request, error: StoreError) {
    match request
    case Publish(update, _, _) =>
      if exists i, j :: 0 <= i < j < |update| && update[i].path == update[j].path then error == InvalidRequest
      else BoundaryGone(db, w) && error == VersionNotFound
    case Commit(staged, written, _) =>
      if || (exists i, j :: 0 <= i < j < |written| && written[i].path == written[j].path)
         || (exists s :: s in written && s.path !in staged)
      then error == InvalidRequest
      else BoundaryGone(db, w) && error == VersionNotFound
    case Rollback(v) => VersionKey(w, v) !in db.versions && error == VersionNotFound
    case Prune(v) =>
      if v == 0 then error == InvalidRequest else VersionKey(w, v) !in db.versions && error == VersionNotFound
  }

  /** With the next version 25 would no longer suffice, and the oldest of the newest 25 is not live. */
  ghost predicate BoundaryGone(db: Database, w: Workspace) {
    MaxVersion(db.versions, w) >= 25 && VersionKey(w, MaxVersion(db.versions, w) - 23) !in db.versions
  }

  ghost predicate LivesOn(db: Database, w: Workspace, request: Request, u: Version) {
    var newest := MaxVersion(db.versions, w);
    match request
    case Rollback(v) => VersionKey(w, u) in db.versions && u <= v
    case Prune(v) => VersionKey(w, u) in db.versions && u >= v
    case _ => (VersionKey(w, u) in db.versions || u == newest + 1) && u + 25 > newest + 1
  }

  /** Rows, nodes and edges of a version read the same. */
  ghost predicate ReadsTheSame(db: Database, db': Database, w: Workspace, u: Version) {
    && RowView(db.rows, w, u) == RowView(db'.rows, w, u)
    && FactView(db.nodes, w, u) == FactView(db'.nodes, w, u)
    && FactView(db.edges, w, u) == FactView(db'.edges, w, u)
  }

  lemma AppendRefused(h: History, s: Snapshot)
    requires h.WellFormed()
    ensures WithRetention(h.Append(s)).Err? <==> Cut(h)
    ensures WithRetention(h.Append(s)).Err? ==> WithRetention(h.Append(s)) == Err(VersionNotFound)
  {}

  /** A request fails exactly as written out, and with no other error. */
  lemma RefusedExactly(db: Database, w: Workspace, h: History, request: Request, error: StoreError)
    requires Refines(db, w, h)
    ensures ApplyDatabase(db, w, request) == Err(error) <==> FailsWith(db, w, request, error)
  {
    hide ApplyDatabase, Apply, Refines, FailsWith, Frame;
    ApplyRefines(db, w, h, request);
    AppliesAsWritten(db, w, h, request, error);
  }

  /** The outcome of an operation: its error, the byte budget last of all, and no error on success. */
  lemma OutcomeExactly(db: Database, hs: Histories, op: Operation, error: StoreError)
    requires AllWellFormed(hs) && RefinesAll(db, hs)
    ensures StepDatabase(db, op).1 == Some(error) <==>
              if op.workspace == "" then error == InvalidRequest
              else || FailsWith(db, op.workspace, op.request, error)
                   || (&& error == BudgetExceeded && !op.fits && (op.request.Publish? || op.request.Commit?)
                       && forall e :: !FailsWith(db, op.workspace, op.request, e))
  {
    hide ApplyDatabase, FailsWith, Refines;
    assert Refines(db, op.workspace, HistoryOf(hs, op.workspace));
    forall e ensures ApplyDatabase(db, op.workspace, op.request) == Err(e)
                     <==> FailsWith(db, op.workspace, op.request, e)
    {
      RefusedExactly(db, op.workspace, HistoryOf(hs, op.workspace), op.request, e);
    }
  }

  lemma AppliesAsWritten(db: Database, w: Workspace, h: History, request: Request, error: StoreError)
    requires Refines(db, w, h)
    ensures Apply(h, request) == Err(error) <==> FailsWith(db, w, request, error)
  {
    LiveKeys(db, w, h);
    BoundaryAsWritten(db, w, h);
    hide Refines, BoundaryGone;
    match request
    case Publish(update, facts, owners) => PublishRefused(h, update, facts, owners);
    case Commit(staged, written, facts) => CommitRefused(h, staged, written, facts);
    case Rollback(v) => hide PublishedSnapshot, CommittedSnapshot, WithRetention;
    case Prune(v) => hide PublishedSnapshot, CommittedSnapshot, WithRetention;
  }

  /** The next version would exceed 25, and the oldest of the newest 25 is not live. */
  predicate Cut(h: History)
    requires h.WellFormed()
  {
    h.Newest() >= 25 && !h.Live(h.Newest() - 23)
  }

  lemma PublishRefused(h: History, update: seq<Source>, facts: Facts, owners: seq<Path>)
    requires h.WellFormed()
    ensures var r := Apply(h, Publish(update, facts, owners));
            if exists i, j :: 0 <= i < j < |update| && update[i].path == update[j].path then r == Err(InvalidRequest)
            else r.Err? == Cut(h) && (r.Err? ==> r.error == VersionNotFound)
  {
    AppendRefused(h, PublishedSnapshot(h.Current(), update, facts, owners));
    hide PublishedSnapshot, CommittedSnapshot, WithRetention;
  }

  lemma CommitRefused(h: History, staged: set<Path>, written: seq<Source>, facts: Facts)
    requires h.WellFormed()
    ensures var r := Apply(h, Commit(staged, written, facts));
            if (exists i, j :: 0 <= i < j < |written| && written[i].path == written[j].path)
               || (exists s :: s in written && s.path !in staged)
            then r == Err(InvalidRequest)
            else r.Err? == Cut(h) && (r.Err? ==> r.error == VersionNotFound)
  {
    AppendRefused(h, CommittedSnapshot(h.Current(), staged, written, facts));
    WrittenAreStaged(written, staged);
    hide PublishedSnapshot, CommittedSnapshot, WithRetention, PathsOf;
  }

  lemma BoundaryAsWritten(db: Database, w: Workspace, h: History)
    requires Refines(db, w, h)
    ensures h.WellFormed()
    ensures BoundaryGone(db, w) <==> Cut(h)
  {
    MaxIsNewest(db, w, h);
  }

  lemma WrittenAreStaged(written: seq<Source>, staged: set<Path>)
    ensures PathsOf(written) <= staged <==> forall s :: s in written ==> s.path in staged
  {}

  lemma LiveKeys(db: Database, w: Workspace, h: History)
    requires Refines(db, w, h)
    ensures forall v: Version :: VersionKey(w, v) in db.versions <==> h.Live(v)
    ensures h.WellFormed()
  {}

  lemma AppendedLive(h: History, s: Snapshot, u: Version)
    requires h.WellFormed() && WithRetention(h.Append(s)).Ok?
    ensures WithRetention(h.Append(s)).value.Live(u)
       <==> (h.Live(u) || u == h.Newest() + 1) && u + 25 > h.Newest() + 1
    ensures WithRetention(h.Append(s)).value.At(h.Newest() + 1) == s
  {}

  /** The versions afterwards are exactly those that live on. */
  lemma VersionsAfter(db: Database, w: Workspace, h: History, request: Request, u: Version)
    requires Refines(db, w, h) && ApplyDatabase(db, w, request).Ok?
    ensures VersionKey(w, u) in ApplyDatabase(db, w, request).value.versions <==> LivesOn(db, w, request, u)
  {
    hide ApplyDatabase, Apply, Refines, LivesOn, Frame;
    LiveKeys(db, w, h);
    ApplyRefines(db, w, h, request);
    LiveKeys(ApplyDatabase(db, w, request).value, w, Apply(h, request).value);
    LiveAsWritten(db, w, h, request, u);
  }

  lemma LiveAsWritten(db: Database, w: Workspace, h: History, request: Request, u: Version)
    requires Refines(db, w, h) && Apply(h, request).Ok?
    ensures Apply(h, request).value.Live(u) <==> LivesOn(db, w, request, u)
  {
    MaxIsNewest(db, w, h);
    LiveKeys(db, w, h);
    hide PublishedSnapshot, CommittedSnapshot, Refines, WithRetention;
    match request
    case Publish(update, facts, owners) =>
      AppendedLive(h, PublishedSnapshot(h.Current(), update, facts, owners), u);
    case Commit(staged, written, facts) =>
      AppendedLive(h, CommittedSnapshot(h.Current(), staged, written, facts), u);
    case _ =>
  }

  /** Every version that lives on reads as before, in all tables. */
  lemma LivingReadTheSame(db: Database, w: Workspace, h: History, request: Request, u: Version)
    requires Refines(db, w, h) && ApplyDatabase(db, w, request).Ok?
    requires VersionKey(w, u) in db.versions && VersionKey(w, u) in ApplyDatabase(db, w, request).value.versions
    ensures ReadsTheSame(db, ApplyDatabase(db, w, request).value, w, u)
  {
    hide ApplyDatabase, Apply, RowIntervals.Intervals, LiveOnly, RowView, FactView;
    ApplyRefines(db, w, h, request);
    var h' := Apply(h, request).value;
    assert h.Live(u) && h'.Live(u);
    GraphStore.ApplyKeepsSurvivors(h, request, u);
    assert ViewsAgree(db, w, u, h.At(u)) && ViewsAgree(ApplyDatabase(db, w, request).value, w, u, h'.At(u));
  }

  // ----- What the new version shows -----

  ghost predicate Maps<K, V>(m: map<K, V>, k: K, x: V) {
    k in m && m[k] == x
  }

  /** The first entry of k. */
  ghost predicate FirstOf<K, V>(s: seq<(K, V)>, k: K, x: V) {
    exists i :: 0 <= i < |s| && s[i] == (k, x) && forall j :: 0 <= j < i ==> s[j].0 != k
  }

  /** A key already present wins, and among the inserted rows the first. */
  lemma {:induction false} InsertOrIgnoreExactly<K, V>(m: map<K, V>, s: seq<(K, V)>, k: K, x: V)
    ensures Maps(InsertOrIgnore(m, s), k, x) <==> Maps(m, k, x) || (k !in m && FirstOf(s, k, x))
    ensures k in InsertOrIgnore(m, s) <==> k in m || exists i :: 0 <= i < |s| && s[i].0 == k
  {
    if s != [] {
      var init, last := s[..|s| - 1], s[|s| - 1];
      InsertOrIgnoreExactly(m, init, k, x);
      assert forall i :: 0 <= i < |init| ==> init[i] == s[i];
      if FirstOf(init, k, x) {
        var i :| 0 <= i < |init| && init[i] == (k, x) && forall j :: 0 <= j < i ==> init[j].0 != k;
        assert s[i] == (k, x);
      }
      if FirstOf(s, k, x) && !FirstOf(init, k, x) {
        var i :| 0 <= i < |s| && s[i] == (k, x) && forall j :: 0 <= j < i ==> s[j].0 != k;
        assert i == |s| - 1;
      }
      if last == (k, x) && k !in InsertOrIgnore(m, init) {
        assert s[|s| - 1] == (k, x) && forall j :: 0 <= j < |s| - 1 ==> s[j].0 != k;
      }
    }
  }

  lemma OverriddenReads(prior: map<Path, Content>, update: seq<Source>)
    requires DistinctPaths(update)
    ensures forall p, c :: (p, c) in (prior + UpdateMap(update)).Items <==>
              Source(p, c) in update || ((p, c) in prior.Items && forall s :: s in update ==> s.path != p)
  {
    hide UpdateMap;
    forall p, c ensures (p, c) in (prior + UpdateMap(update)).Items <==>
        Source(p, c) in update || ((p, c) in prior.Items && forall s :: s in update ==> s.path != p)
    {
      RowIntervals.UpdateMapItems(update, p, c);
    }
  }

  /** An edge of the last version that the publication keeps: it names owners, and not this edge's. */
  ghost predicate KeptEdge(prior: map<EdgeKey, EdgeFact>, owners: seq<Path>, k: EdgeKey, f: EdgeFact) {
    Maps(prior, k, f) && owners != [] && f.owner !in owners
  }

  lemma PublishedEdgesExactly(prior: map<EdgeKey, EdgeFact>, owners: seq<Path>, written: seq<(EdgeKey, EdgeFact)>,
                              k: EdgeKey, f: EdgeFact)
    ensures Maps(PublishedEdges(prior, owners, written), k, f)
       <==> KeptEdge(prior, owners, k, f)
            || ((forall g :: !KeptEdge(prior, owners, k, g)) && FirstOf(written, k, f))
  {
    var kept := if owners == [] then map[] else KeepOwners(prior, Elements(owners));
    InsertOrIgnoreExactly(kept, written, k, f);
    assert forall g :: KeptEdge(prior, owners, k, g) <==> Maps(kept, k, g);
    if k in kept { assert KeptEdge(prior, owners, k, kept[k]); }
    hide FirstOf;
  }

  /**
   * After a publication the new version shows: the written contributions, and the last version's for
   * other paths; exactly the written nodes; the written edges and the kept ones, which win.
   */
  lemma PublishReads(db: Database, w: Workspace, h: History, update: seq<Source>, facts: Facts, owners: seq<Path>)
    requires Refines(db, w, h) && PublishDatabase(db, w, update, facts, owners).Ok?
    ensures var last, db' := MaxVersion(db.versions, w), PublishDatabase(db, w, update, facts, owners).value;
            && (forall p, c :: (p, c) in RowView(db'.rows, w, last + 1) <==>
                  || Source(p, c) in update
                  || ((p, c) in RowView(db.rows, w, last) && forall s :: s in update ==> s.path != p))
            && (forall id, f :: Maps(FactView(db'.nodes, w, last + 1), id, f) <==> FirstOf(facts.nodes, id, f))
            && (forall k, f :: Maps(FactView(db'.edges, w, last + 1), k, f) <==>
                  || KeptEdge(FactView(db.edges, w, last), owners, k, f)
                  || ((forall g :: !KeptEdge(FactView(db.edges, w, last), owners, k, g)) && FirstOf(facts.edges, k, f)))
  {
    hide PublishDatabase, RowView, FactView, FirstOf, KeptEdge, InsertOrIgnore;
    var db' := PublishDatabase(db, w, update, facts, owners).value;
    var shown := PublishedSnapshot(h.Current(), update, facts, owners);
    PublishedAgrees(db, w, h, update, facts, owners);
    CurrentReads(db, w, h);
    OverriddenReads(h.Current().sources, update);
    hide Refines, UpdateMap;
    forall id, f ensures Maps(shown.nodes, id, f) <==> FirstOf(facts.nodes, id, f) {
      InsertOrIgnoreExactly(map[], facts.nodes, id, f);
    }
    forall k, f ensures Maps(shown.edges, k, f) <==>
        || KeptEdge(h.Current().edges, owners, k, f)
        || ((forall g :: !KeptEdge(h.Current().edges, owners, k, g)) && FirstOf(facts.edges, k, f))
    {
      PublishedEdgesExactly(h.Current().edges, owners, facts.edges, k, f);
    }
  }

  /** After a commit: the written contributions and the last version's staged others, and the facts alone. */
  lemma CommitReads(db: Database, w: Workspace, h: History, staged: set<Path>, written: seq<Source>, facts: Facts)
    requires Refines(db, w, h) && CommitDatabase(db, w, staged, written, facts).Ok?
    ensures var last, db' := MaxVersion(db.versions, w), CommitDatabase(db, w, staged, written, facts).value;
            && (forall p, c :: (p, c) in RowView(db'.rows, w, last + 1) <==>
                  || Source(p, c) in written
                  || (p in staged && (p, c) in RowView(db.rows, w, last) && forall s :: s in written ==> s.path != p))
            && (forall id, f :: Maps(FactView(db'.nodes, w, last + 1), id, f) <==> FirstOf(facts.nodes, id, f))
            && (forall k, f :: Maps(FactView(db'.edges, w, last + 1), k, f) <==> FirstOf(facts.edges, k, f))
  {
    hide CommitDatabase, RowView, FactView, FirstOf, InsertOrIgnore;
    var db' := CommitDatabase(db, w, staged, written, facts).value;
    var shown := CommittedSnapshot(h.Current(), staged, written, facts);
    CommittedAgrees(db, w, h, staged, written, facts);
    CurrentReads(db, w, h);
    OverriddenReads(StagedOnly(h.Current().sources, staged), written);
    hide Refines, UpdateMap;
    forall id, f ensures Maps(shown.nodes, id, f) <==> FirstOf(facts.nodes, id, f) {
      InsertOrIgnoreExactly(map[], facts.nodes, id, f);
    }
    forall k, f ensures Maps(shown.edges, k, f) <==> FirstOf(facts.edges, k, f) {
      InsertOrIgnoreExactly(map[], facts.edges, k, f);
    }
  }

  lemma PublishedAgrees(db: Database, w: Workspace, h: History, update: seq<Source>, facts: Facts, owners: seq<Path>)
    requires Refines(db, w, h) && PublishDatabase(db, w, update, facts, owners).Ok?
    ensures DistinctPaths(update) && MaxVersion(db.versions, w) == h.Newest()
    ensures ViewsAgree(PublishDatabase(db, w, update, facts, owners).value, w, h.Newest() + 1,
                       PublishedSnapshot(h.Current(), update, facts, owners))
  {
    hide PublishDatabase, PublishedSnapshot, Refines, WithRetention, Frame, ViewsAgree;
    LiveKeys(db, w, h);
    PublishRefines(db, w, h, update, facts, owners);
    MaxIsNewest(db, w, h);
    var shown := PublishedSnapshot(h.Current(), update, facts, owners);
    AppendedLive(h, shown, h.Newest() + 1);
    LiveReads(PublishDatabase(db, w, update, facts, owners).value, w, WithRetention(h.Append(shown)).value);
  }

  lemma CommittedAgrees(db: Database, w: Workspace, h: History, staged: set<Path>, written: seq<Source>, facts: Facts)
    requires Refines(db, w, h) && CommitDatabase(db, w, staged, written, facts).Ok?
    ensures DistinctPaths(written) && PathsOf(written) <= staged && MaxVersion(db.versions, w) == h.Newest()
    ensures ViewsAgree(CommitDatabase(db, w, staged, written, facts).value, w, h.Newest() + 1,
                       CommittedSnapshot(h.Current(), staged, written, facts))
  {
    hide CommitDatabase, CommittedSnapshot, Refines, WithRetention, Frame, ViewsAgree;
    LiveKeys(db, w, h);
    CommitRefines(db, w, h, staged, written, facts);
    MaxIsNewest(db, w, h);
    var shown := CommittedSnapshot(h.Current(), staged, written, facts);
    AppendedLive(h, shown, h.Newest() + 1);
    LiveReads(CommitDatabase(db, w, staged, written, facts).value, w, WithRetention(h.Append(shown)).value);
  }

  lemma LiveReads(db: Database, w: Workspace, h: History)
    requires Refines(db, w, h)
    ensures forall v: Version :: h.Live(v) ==> ViewsAgree(db, w, v, h.At(v))
  {
    hide ViewsAgree;
  }

  /** The last version reads as the current snapshot; before any version nothing is visible. */
  lemma CurrentReads(db: Database, w: Workspace, h: History)
    requires Refines(db, w, h)
    ensures RowView(db.rows, w, h.Newest()) == h.Current().sources.Items
    ensures FactView(db.edges, w, h.Newest()) == h.Current().edges
  {
    CurrentView(db, w, h);
    if h.snapshots != [] {
      assert h.Live(h.Newest()) && ViewsAgree(db, w, h.Newest(), h.At(h.Newest()));
    } else {
      assert FactKeysAt(db.edges, w, 0) == {};
    }
  }
}
