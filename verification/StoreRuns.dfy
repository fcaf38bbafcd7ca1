/** Whole runs of the store, over any number of workspaces, including failed requests. */
module StoreRuns {
  import opened Common
  import opened GraphTables
  import opened SnapshotHistory
  import opened StoreTransactions
  import opened RowIntervals
  import opened StoreRefinement

  /** `fits`: after the writes the database is within its byte budget, as SQLite measures it. */
  datatype Operation = Operation(workspace: Workspace, request: Request, fits: bool)

  predicate Appends(request: Request) {
    request.Publish? || request.Commit?
  }

  /** Publish and commit check the budget last, before the transaction is committed. */
  predicate OverBudget(op: Operation) {
    Appends(op.request) && !op.fits
  }

  /** None is success; a failed transaction is rolled back. */
  type Outcome = Option<StoreError>

  type Histories = map<Workspace, History>

  function HistoryOf(hs: Histories, w: Workspace): History {
    if w in hs then hs[w] else NO_HISTORY
  }

  ghost predicate AllWellFormed(hs: Histories) {
    forall w :: w in hs ==> hs[w].WellFormed()
  }

  ghost function StepDatabase(db: Database, op: Operation): (Database, Outcome) {
    if op.workspace == "" then (db, Some(InvalidRequest)) else
      match ApplyDatabase(db, op.workspace, op.request)
      case Ok(db') => if OverBudget(op) then (db, Some(BudgetExceeded)) else (db', None)
      case Err(e) => (db, Some(e))
  }

  ghost function StepHistories(hs: Histories, op: Operation): (r: (Histories, Outcome))
    requires AllWellFormed(hs)
    ensures AllWellFormed(r.0)
  {
    if op.workspace == "" then (hs, Some(InvalidRequest)) else
      match Apply(HistoryOf(hs, op.workspace), op.request)
      case Ok(h) => if OverBudget(op) then (hs, Some(BudgetExceeded)) else (hs[op.workspace := h], None)
      case Err(e) => (hs, Some(e))
  }

  ghost function RunDatabase(ops: seq<Operation>): (Database, seq<Outcome>) {
    if ops == [] then (EMPTY_DATABASE, []) else
      var (db, outcomes) := RunDatabase(ops[..|ops| - 1]);
      var (db', outcome) := StepDatabase(db, ops[|ops| - 1]);
      (db', outcomes + [outcome])
  }

  ghost function RunHistories(ops: seq<Operation>): (r: (Histories, seq<Outcome>))
    ensures AllWellFormed(r.0)
  {
    if ops == [] then (map[], []) else
      var (hs, outcomes) := RunHistories(ops[..|ops| - 1]);
      var (hs', outcome) := StepHistories(hs, ops[|ops| - 1]);
      (hs', outcomes + [outcome])
  }

  ghost predicate RefinesAll(db: Database, hs: Histories) {
    forall w :: Refines(db, w, HistoryOf(hs, w))
  }

  lemma EmptyRefines()
    ensures RefinesAll(EMPTY_DATABASE, map[])
  {
    forall w ensures Refines(EMPTY_DATABASE, w, NO_HISTORY) {}
  }

  lemma StepRefines(db: Database, hs: Histories, op: Operation)
    requires AllWellFormed(hs) && RefinesAll(db, hs)
    ensures RefinesAll(StepDatabase(db, op).0, StepHistories(hs, op).0)
    ensures StepDatabase(db, op).1 == StepHistories(hs, op).1
  {
    hide Refines, Frame, ApplyDatabase, Apply;
    if op.workspace != "" {
      var w := op.workspace;
      assert Refines(db, w, HistoryOf(hs, w));
      ApplyRefines(db, w, HistoryOf(hs, w), op.request);
      var db', hs' := StepDatabase(db, op).0, StepHistories(hs, op).0;
      forall other ensures Refines(db', other, HistoryOf(hs', other)) {
        assert Refines(db, other, HistoryOf(hs, other));
        if other != w && StepDatabase(db, op).1 == None {
          FrameKeepsRefinement(db, db', w, other, HistoryOf(hs, other));
        }
      }
    }
  }

  /**
   * Over every run of requests on any workspaces the tables read exactly as the lists of
   * snapshots, and every request succeeds or fails with the same error on both sides.
   */
  lemma {:induction false} RunRefines(ops: seq<Operation>)
    ensures RefinesAll(RunDatabase(ops).0, RunHistories(ops).0)
    ensures RunDatabase(ops).1 == RunHistories(ops).1
  {
    if ops == [] {
      EmptyRefines();
    } else {
      var init := ops[..|ops| - 1];
      RunRefines(init);
      StepRefines(RunDatabase(init).0, RunHistories(init).0, ops[|ops| - 1]);
    }
  }

  /**
   * Over its byte budget, and only then, a publish or commit that would otherwise succeed is refused and
   * leaves every table and every history as it was.
   */
  lemma BudgetRefusesExactly(db: Database, hs: Histories, w: Workspace, request: Request, fits: bool)
    requires AllWellFormed(hs) && RefinesAll(db, hs)
    ensures var op := Operation(w, request, fits);
            StepDatabase(db, op).1 == Some(BudgetExceeded) <==>
              && (request.Publish? || request.Commit?) && !fits
              && StepDatabase(db, Operation(w, request, true)).1 == None
    ensures var op := Operation(w, request, fits);
            StepDatabase(db, op).1 != None ==> StepDatabase(db, op).0 == db && StepHistories(hs, op).0 == hs
    ensures fits || request.Rollback? || request.Prune? ==>
              StepDatabase(db, Operation(w, request, fits)) == StepDatabase(db, Operation(w, request, true))
  {
    StepRefines(db, hs, Operation(w, request, fits));
    StepRefines(db, hs, Operation(w, request, true));
    hide RefinesAll, ApplyDatabase, PublishedSnapshot, CommittedSnapshot;
  }

  /** In every reachable state no constraint violation is ever reported. */
  lemma {:induction false} NoConstraintViolation(ops: seq<Operation>)
    ensures Some(ConstraintViolation) !in RunDatabase(ops).1
  {
    RunRefines(ops);
    HistoriesNeverViolate(ops);
  }

  lemma {:induction false} HistoriesNeverViolate(ops: seq<Operation>)
    ensures Some(ConstraintViolation) !in RunHistories(ops).1
  {
    if ops != [] {
      HistoriesNeverViolate(ops[..|ops| - 1]);
    }
  }

  /** Disjoint intervals in every reachable state: a read finds at most one row per path. */
  lemma ReachableReadsAreFunctional(ops: seq<Operation>, w: Workspace, v: Version, a: Row, b: Row)
    requires a in RunDatabase(ops).0.rows && b in RunDatabase(ops).0.rows && a.path == b.path
    requires Visible(a, w, v) && Visible(b, w, v)
    ensures a == b
  {
    RunRefines(ops);
    var h := HistoryOf(RunHistories(ops).0, w);
    assert Refines(RunDatabase(ops).0, w, h);
    AtMostOneVisible(RunDatabase(ops).0.rows, w, h.first, h.Newest(), a, b, v);
  }

  // ----- Retention -----

  predicate PublicationOnly(request: Request) {
    match request
    case Publish(update, _, _) => DistinctPaths(update)
    case Commit(staged, written, _) => DistinctPaths(written) && PathsOf(written) <= staged
    case _ => false
  }

  /** On w the run only publishes and commits, within the budget; on other workspaces it does anything. */
  ghost predicate PublicationsOf(ops: seq<Operation>, w: Workspace) {
    forall i :: 0 <= i < |ops| && ops[i].workspace == w ==> PublicationOnly(ops[i].request) && ops[i].fits
  }

  /** The operations on w, in order. */
  function OpsOf(ops: seq<Operation>, w: Workspace): (r: seq<Operation>)
    ensures forall i :: 0 <= i < |r| ==> r[i].workspace == w && r[i] in ops
  {
    if ops == [] then [] else
      var last := ops[|ops| - 1];
      OpsOf(ops[..|ops| - 1], w) + if last.workspace == w then [last] else []
  }

  lemma {:induction false} RunLength(ops: seq<Operation>)
    ensures |RunDatabase(ops).1| == |ops| == |RunHistories(ops).1|
  {
    if ops != [] { RunLength(ops[..|ops| - 1]); }
  }

  /** What an operation on another workspace leaves alone. */
  lemma OtherWorkspace(hs: Histories, op: Operation, w: Workspace)
    requires AllWellFormed(hs) && op.workspace != w
    ensures HistoryOf(StepHistories(hs, op).0, w) == HistoryOf(hs, w)
  {}

  /** A publication within budget on a history that is full or complete from version 1. */
  lemma PublicationExtends(hs: Histories, op: Operation)
    requires AllWellFormed(hs) && op.workspace != "" && PublicationOnly(op.request) && op.fits
    requires var h := HistoryOf(hs, op.workspace); h.first == 1 || |h.snapshots| == RETAINED_GRAPH_VERSIONS
    ensures var h, h' := HistoryOf(hs, op.workspace), HistoryOf(StepHistories(hs, op).0, op.workspace);
            && StepHistories(hs, op).1 == None && h'.Newest() == h.Newest() + 1
            && |h'.snapshots| ==
               (if |h.snapshots| < RETAINED_GRAPH_VERSIONS then |h.snapshots| + 1 else RETAINED_GRAPH_VERSIONS)
            && (h'.first == 1 || |h'.snapshots| == RETAINED_GRAPH_VERSIONS)
  {
    hide PublishedSnapshot, CommittedSnapshot;
  }

  /** The same promise on the histories; the database shares their outcomes. */
  lemma {:induction false} HistoryRunRetains(ops: seq<Operation>, w: Workspace)
    requires w != "" && PublicationsOf(ops, w)
    ensures var h, n := HistoryOf(RunHistories(ops).0, w), |OpsOf(ops, w)|;
            && h.Newest() == n
            && |h.snapshots| == if n < RETAINED_GRAPH_VERSIONS then n else RETAINED_GRAPH_VERSIONS
    ensures |RunHistories(ops).1| == |ops|
    ensures forall i :: 0 <= i < |ops| && ops[i].workspace == w ==> RunHistories(ops).1[i] == None
  {
    hide StepHistories, PublicationOnly;
    if ops != [] {
      var init, last := ops[..|ops| - 1], ops[|ops| - 1];
      HistoryRunRetains(init, w);
      if last.workspace == w {
        PublicationExtends(RunHistories(init).0, last);
      } else {
        OtherWorkspace(RunHistories(init).0, last, w);
      }
    }
  }

  /**
   * However other workspaces interleave, publications alone never fail and keep exactly the
   * newest min(n, 25) of n versions, so the retention boundary is always found.
   */
  lemma PublicationRunRetains(ops: seq<Operation>, w: Workspace)
    requires w != "" && PublicationsOf(ops, w)
    ensures var h, n := HistoryOf(RunHistories(ops).0, w), |OpsOf(ops, w)|;
            && h.Newest() == n
            && |h.snapshots| == if n < RETAINED_GRAPH_VERSIONS then n else RETAINED_GRAPH_VERSIONS
    ensures |RunDatabase(ops).1| == |ops|
    ensures forall i :: 0 <= i < |ops| && ops[i].workspace == w ==> RunDatabase(ops).1[i] == None
  {
    hide RunHistories, RunDatabase, RefinesAll, OpsOf, PublicationsOf;
    RunRefines(ops);
    HistoryRunRetains(ops, w);
  }

  /** A publication succeeds exactly when no retention is due yet or its boundary is live. */
  lemma PublishSucceedsExactly(h: History, update: seq<Source>, facts: Facts, owners: seq<Path>)
    requires h.WellFormed() && DistinctPaths(update)
    ensures Apply(h, Publish(update, facts, owners)).Ok?
            <==> h.Newest() < RETAINED_GRAPH_VERSIONS || h.first <= h.Newest() - RETAINED_GRAPH_VERSIONS + 2
  {
    var h' := h.Append(PublishedSnapshot(h.Current(), update, facts, owners));
    assert h'.Newest() == h.Newest() + 1;
  }

  /** Retention is due with the next publication, and its boundary is gone. */
  predicate Blocked(h: History)
    requires h.WellFormed()
  {
    h.Newest() >= RETAINED_GRAPH_VERSIONS && h.first > h.Newest() - RETAINED_GRAPH_VERSIONS + 2
  }

  /** Until a rollback every publication and commit fails, and pruning changes nothing about that. */
  lemma BlockedStays(h: History, request: Request)
    requires h.WellFormed() && Blocked(h) && !request.Rollback?
    ensures PublicationOnly(request) ==> Apply(h, request) == Err(VersionNotFound)
    ensures Apply(h, request).Ok? ==> request.Prune? && Blocked(Apply(h, request).value)
  {
    hide PublishedSnapshot, CommittedSnapshot;
  }

  lemma BlockedStep(hs: Histories, op: Operation, w: Workspace)
    requires AllWellFormed(hs) && w != "" && Blocked(HistoryOf(hs, w)) && (op.workspace == w ==> !op.request.Rollback?)
    ensures Blocked(HistoryOf(StepHistories(hs, op).0, w))
    ensures op.workspace == w && PublicationOnly(op.request) ==> StepHistories(hs, op).1 == Some(VersionNotFound)
  {
    hide Apply, PublicationOnly;
    if op.workspace == w { BlockedStays(HistoryOf(hs, w), op.request); } else { OtherWorkspace(hs, op, w); }
  }

  /** One more operation. */
  lemma RunExtends(ops: seq<Operation>, more: seq<Operation>)
    requires more != []
    ensures var n := |more| - 1;
            var (hs, outcomes) := RunHistories(ops + more[..n]);
            && RunHistories(ops + more).0 == StepHistories(hs, more[n]).0
            && RunHistories(ops + more).1 == outcomes + [StepHistories(hs, more[n]).1]
  {
    hide StepHistories;
    assert (ops + more)[..|ops + more| - 1] == ops + more[..|more| - 1];
  }

  /** However the run goes on without a rollback of w, all its publications and commits on w fail. */
  lemma {:induction false} BlockedRun(ops: seq<Operation>, more: seq<Operation>, w: Workspace)
    requires w != "" && Blocked(HistoryOf(RunHistories(ops).0, w))
    requires forall i :: 0 <= i < |more| && more[i].workspace == w ==> !more[i].request.Rollback?
    ensures Blocked(HistoryOf(RunHistories(ops + more).0, w)) && |RunHistories(ops + more).1| == |ops + more|
    ensures forall i :: 0 <= i < |more| && more[i].workspace == w && PublicationOnly(more[i].request) ==>
              RunHistories(ops + more).1[|ops| + i] == Some(VersionNotFound)
  {
    hide RunHistories, StepHistories, PublicationOnly, Blocked;
    RunLength(ops + more);
    if more == [] {
      assert ops + more == ops;
    } else {
      var n := |more| - 1;
      BlockedRun(ops, more[..n], w);
      RunExtends(ops, more);
      BlockedStep(RunHistories(ops + more[..n]).0, more[n], w);
    }
  }

  /** Pruning the n-th and newest of at least 25 versions removes the boundary. */
  lemma PruneBlocks(hs: Histories, w: Workspace, n: nat)
    requires AllWellFormed(hs) && w != "" && HistoryOf(hs, w).Newest() == n >= RETAINED_GRAPH_VERSIONS
    requires HistoryOf(hs, w).Live(n)
    ensures StepHistories(hs, Operation(w, Prune(n), true)).1 == None
    ensures Blocked(HistoryOf(StepHistories(hs, Operation(w, Prune(n), true)).0, w))
  {}

  /** Going on does not change the outcomes so far. */
  lemma {:induction false} OutcomesStay(ops: seq<Operation>, more: seq<Operation>)
    ensures |RunHistories(ops).1| == |ops| && |RunHistories(ops + more).1| == |ops + more|
    ensures forall i :: 0 <= i < |ops| ==> RunHistories(ops + more).1[i] == RunHistories(ops).1[i]
  {
    hide RunHistories, StepHistories;
    RunLength(ops);
    RunLength(ops + more);
    if more == [] {
      assert ops + more == ops;
    } else {
      OutcomesStay(ops, more[..|more| - 1]);
      RunExtends(ops, more);
    }
  }

  /** The prune of the newest version, at the end of a run of publications. */
  lemma PrunedRun(ops: seq<Operation>, w: Workspace)
    requires w != "" && PublicationsOf(ops, w) && |OpsOf(ops, w)| >= RETAINED_GRAPH_VERSIONS
    ensures var pruned := ops + [PruneNewest(ops, w)];
            && Blocked(HistoryOf(RunHistories(pruned).0, w))
            && |RunHistories(pruned).1| == |pruned| && RunHistories(pruned).1[|ops|] == None
  {
    hide StepHistories, Blocked, PublicationsOf, OpsOf;
    HistoryRunRetains(ops, w);
    PruneBlocks(RunHistories(ops).0, w, |OpsOf(ops, w)|);
    var pruned := ops + [PruneNewest(ops, w)];
    assert pruned[..|pruned| - 1] == ops;
  }

  function PruneNewest(ops: seq<Operation>, w: Workspace): Operation {
    Operation(w, Prune(|OpsOf(ops, w)|), true)
  }

  /**
   * Once 25 or more versions have been published, a manual prune to the newest succeeds and every
   * later publication and commit fails until the workspace is rolled back.
   */
  lemma ManualPruneBlocksPublication(ops: seq<Operation>, w: Workspace, more: seq<Operation>)
    requires w != "" && PublicationsOf(ops, w) && |OpsOf(ops, w)| >= RETAINED_GRAPH_VERSIONS
    requires forall i :: 0 <= i < |more| && more[i].workspace == w ==> !more[i].request.Rollback?
    ensures var outcomes := RunDatabase(ops + [PruneNewest(ops, w)] + more).1;
            && |outcomes| == |ops| + 1 + |more| && outcomes[|ops|] == None
            && forall i :: 0 <= i < |more| && more[i].workspace == w && PublicationOnly(more[i].request) ==>
                 outcomes[|ops| + 1 + i] == Some(VersionNotFound)
  {
    hide Blocked, RunDatabase, RunHistories, PublicationOnly, PublicationsOf, OpsOf, PruneNewest, RefinesAll;
    var pruned := ops + [PruneNewest(ops, w)];
    PrunedRun(ops, w);
    RunRefines(pruned + more);
    OutcomesStay(pruned, more);
    BlockedRun(pruned, more, w);
  }

  // ----- Exact undo -----

  lemma StoreThenDeleteFacts<K(!new), V>(t: FactTable<K, V>, t': FactTable<K, V>, w: Workspace,
                                         lo: Version, hi: Version)
    requires LiveOnly(t, w, lo, hi)
    requires forall fk: FactKey<K> :: fk.workspace != w || fk.version != hi + 1 ==>
               (fk in t <==> fk in t') && (fk in t ==> t[fk] == t'[fk])
    ensures DeleteFactsAfter(t', w, hi) == t
  {}

  /** Nothing lies below the first live version, so pruning to it changes nothing. */
  lemma PruneAtFirstIsIdentity(db: Database, w: Workspace, h: History)
    requires Refines(db, w, h) && h.snapshots != []
    ensures PruneDatabase(db, w, h.first) == Ok(db)
  {
    hide RowView, FactView, RebaseClashes, ViewsAgree;
    RebaseNeverClashes(db.rows, w, h.first, h.Newest(), h.first);
    assert h.Live(h.first);
    forall r | r in db.rows ensures RebaseRow(r, w, h.first) == r && !(r.workspace == w && r.from < h.first) {
      assert r.workspace == w ==> Within(r, h.first, h.Newest());
    }
    assert Rebase(db.rows, w, h.first) == db.rows;
    assert DeleteFromBefore(db.rows, w, h.first) == db.rows;
    assert DeleteFactsBefore(db.nodes, w, h.first) == db.nodes;
    assert DeleteFactsBefore(db.edges, w, h.first) == db.edges;
    assert DeleteVersionsBefore(db.versions, w, h.first) == db.versions;
  }

  /** Before retention, rolling back to the version before a publication is its exact inverse. */
  lemma RollbackUndoesAppend(db: Database, w: Workspace, h: History, update: seq<Source>, facts: Facts,
                             owners: seq<Path>)
    requires Refines(db, w, h) && h.snapshots != [] && DistinctPaths(update)
    requires AppendPublication(db, w, h.Newest() + 1, update, facts, owners).Ok?
    ensures RollbackDatabase(AppendPublication(db, w, h.Newest() + 1, update, facts, owners).value, w, h.Newest())
         == Ok(db)
  {
    hide RowView, FactView, Intervals, ViewsAgree, StoreFacts, PublishedEdgeTable, DeleteFactsAfter;
    var v := h.Newest() + 1;
    var mid := AppendPublication(db, w, v, update, facts, owners).value;
    PublishedEdgesRefine(db, w, h, owners, facts.edges);
    StoreFactsEffect(db.nodes, w, v, facts.nodes);
    RollbackUndoesReplace(db.rows, w, h.first, h.Newest(), update);
    StoreThenDeleteFacts(db.nodes, mid.nodes, w, h.first, h.Newest());
    StoreThenDeleteFacts(db.edges, mid.edges, w, h.first, h.Newest());
    assert h.Live(h.Newest());
    assert DeleteVersionsAfter(mid.versions, w, h.Newest()) == db.versions;
  }

  /**
   * Publishing and rolling back to the version before restores every row of every table
   * exactly when fewer than 25 versions were live, that is, when retention dropped nothing.
   */
  lemma PublishThenRollback(db: Database, w: Workspace, h: History, update: seq<Source>, facts: Facts,
                            owners: seq<Path>)
    requires Refines(db, w, h) && h.snapshots != []
    requires PublishDatabase(db, w, update, facts, owners).Ok?
    ensures RollbackDatabase(PublishDatabase(db, w, update, facts, owners).value, w, h.Newest()) == Ok(db)
            <==> |h.snapshots| < RETAINED_GRAPH_VERSIONS
  {
    hide Intervals, LiveOnly, RowView, FactView, ViewsAgree, AppendPublication;
    MaxIsNewest(db, w, h);
    AppendPublicationRefines(db, w, h, update, facts, owners);
    RollbackUndoesAppend(db, w, h, update, facts, owners);
    var mid := AppendPublication(db, w, h.Newest() + 1, update, facts, owners).value;
    var h' := h.Append(PublishedSnapshot(h.Current(), update, facts, owners));
    if h'.Newest() > RETAINED_GRAPH_VERSIONS {
      var boundary := h'.Newest() - RETAINED_GRAPH_VERSIONS + 1;
      PruneRefines(mid, w, h', boundary);
      if boundary == h.first {
        PruneAtFirstIsIdentity(mid, w, h');
      } else {
        assert h.Live(h.first);
        assert VersionKey(w, h.first) in db.versions;
      }
    }
  }
}
