/**
 * The interval-encoded database refines the list of snapshots, for every request, every
 * workspace and every run.
 */
module StoreRefinement {
  import opened Common
  import opened GraphTables
  import opened SnapshotHistory
  import opened StoreTransactions
  import opened RowIntervals

  // ----- Fact tables -----

  ghost predicate FactFrame<K(!new), V>(t: FactTable<K, V>, t': FactTable<K, V>, w: Workspace) {
    forall fk: FactKey<K> :: fk.workspace != w ==> (fk in t <==> fk in t') && (fk in t ==> t[fk] == t'[fk])
  }

  ghost predicate LiveOnly<K, V>(t: FactTable<K, V>, w: Workspace, lo: Version, hi: Version) {
    forall fk :: fk in t && fk.workspace == w ==> lo <= fk.version <= hi
  }

  function InsertFact<K(==), V>(t: FactTable<K, V>, w: Workspace, v: Version, k: K, x: V): FactTable<K, V> {
    if FactKey(w, v, k) in t then t else t[FactKey(w, v, k) := x]
  }

  lemma InsertFactEffect<K(!new), V>(t: FactTable<K, V>, w: Workspace, v: Version, k: K, x: V)
    ensures FactView(InsertFact(t, w, v, k, x), w, v)
         == if k in FactView(t, w, v) then FactView(t, w, v) else FactView(t, w, v)[k := x]
  {
    if FactKey(w, v, k) !in t {
      var t' := t[FactKey(w, v, k) := x];
      assert FactKeysAt(t', w, v) == FactKeysAt(t, w, v) + {k};
    }
  }

  lemma {:induction false} StoreFactsEffect<K(!new), V>(t: FactTable<K, V>, w: Workspace, v: Version, s: seq<(K, V)>)
    ensures FactView(StoreFacts(t, w, v, s), w, v) == InsertOrIgnore(FactView(t, w, v), s)
    ensures forall fk: FactKey<K> :: fk.workspace != w || fk.version != v ==>
              (fk in t <==> fk in StoreFacts(t, w, v, s)) && (fk in t ==> t[fk] == StoreFacts(t, w, v, s)[fk])
  {
    hide FactView;
    if s != [] {
      var init, k, x := s[..|s| - 1], s[|s| - 1].0, s[|s| - 1].1;
      StoreFactsEffect(t, w, v, init);
      assert Stamped(s, w, v)[..|s| - 1] == Stamped(init, w, v);
      assert StoreFacts(t, w, v, s) == InsertFact(StoreFacts(t, w, v, init), w, v, k, x);
      InsertFactEffect(StoreFacts(t, w, v, init), w, v, k, x);
    } else {
      assert Stamped(s, w, v) == [];
    }
  }

  lemma CopyInEffect<K(!new), V>(t: FactTable<K, V>, w: Workspace, v: Version, m: map<K, V>)
    requires FactView(t, w, v) == map[]
    ensures FactView(CopyIn(t, w, v, m), w, v) == m
    ensures !CopyClashes(t, w, v, m)
    ensures forall fk: FactKey<K> :: fk.workspace != w || fk.version != v ==>
              (fk in t <==> fk in CopyIn(t, w, v, m)) && (fk in t ==> t[fk] == CopyIn(t, w, v, m)[fk])
  {
    var t' := CopyIn(t, w, v, m);
    assert forall k :: k in FactKeysAt(t, w, v) ==> k in FactView(t, w, v);
    assert forall k :: k in m ==> FactKey(w, v, k) in t';
    assert FactKeysAt(t', w, v) == m.Keys;
  }

  lemma SameViews<K(!new), V>(t: FactTable<K, V>, t': FactTable<K, V>, w: Workspace, u: Version)
    requires forall k :: FactKey(w, u, k) in t <==> FactKey(w, u, k) in t'
    requires forall k :: FactKey(w, u, k) in t ==> t[FactKey(w, u, k)] == t'[FactKey(w, u, k)]
    ensures FactView(t, w, u) == FactView(t', w, u)
  {
    assert FactKeysAt(t, w, u) == FactKeysAt(t', w, u);
  }

  // ----- The refinement relation -----

  ghost predicate ViewsAgree(db: Database, w: Workspace, v: Version, s: Snapshot) {
    && RowView(db.rows, w, v) == s.sources.Items
    && FactView(db.nodes, w, v) == s.nodes
    && FactView(db.edges, w, v) == s.edges
  }

  ghost predicate Refines(db: Database, w: Workspace, h: History) {
    && h.WellFormed()
    && (forall v: Version :: VersionKey(w, v) in db.versions <==> h.Live(v))
    && Intervals(db.rows, w, h.first, h.Newest())
    && LiveOnly(db.nodes, w, h.first, h.Newest())
    && LiveOnly(db.edges, w, h.first, h.Newest())
    && (forall v: Version :: h.Live(v) ==> ViewsAgree(db, w, v, h.At(v)))
  }

  /** Nothing about any other workspace changes. */
  ghost predicate Frame(db: Database, db': Database, w: Workspace) {
    && (forall k: VersionKey :: k.workspace != w ==> (k in db.versions <==> k in db'.versions))
    && RowsFrame(db.rows, db'.rows, w)
    && FactFrame(db.nodes, db'.nodes, w)
    && FactFrame(db.edges, db'.edges, w)
  }

  lemma FrameKeepsRefinement(db: Database, db': Database, w: Workspace, other: Workspace, h: History)
    requires Frame(db, db', w) && other != w && Refines(db, other, h)
    ensures Refines(db', other, h)
  {
    hide FactView;
    forall v: Version | h.Live(v) ensures ViewsAgree(db', other, v, h.At(v)) {
      assert ViewsAgree(db, other, v, h.At(v));
      assert forall r :: Visible(r, other, v) ==> (r in db.rows <==> r in db'.rows);
      assert RowView(db.rows, other, v) == RowView(db'.rows, other, v);
      SameViews(db.nodes, db'.nodes, other, v);
      SameViews(db.edges, db'.edges, other, v);
    }
    assert forall r :: r in db'.rows && r.workspace == other ==> r in db.rows;
  }

  lemma MaxIsNewest(db: Database, w: Workspace, h: History)
    requires Refines(db, w, h)
    ensures MaxVersion(db.versions, w) == h.Newest()
  {
    var m := MaxVersion(db.versions, w);
    if h.snapshots == [] {
      assert m == 0;
    } else {
      assert h.Live(h.Newest());
      assert VersionKey(w, h.Newest()) in db.versions;
      assert h.Newest() in VersionsOf(db.versions, w);
      assert VersionKey(w, m) in db.versions;
    }
  }

  // ----- Appending a version -----

  /** What publication and commit have in common: a new newest version with its own views. */
  lemma AppendRefines(db: Database, w: Workspace, h: History, s: Snapshot, rows: set<Row>,
                      nodes: FactTable<NodeId, NodeFact>, edges: FactTable<EdgeKey, EdgeFact>)
    requires Refines(db, w, h)
    requires Intervals(rows, w, h.first, h.Newest() + 1)
    requires forall u: Version :: u <= h.Newest() ==> RowView(rows, w, u) == RowView(db.rows, w, u)
    requires RowView(rows, w, h.Newest() + 1) == s.sources.Items
    requires forall fk: FactKey<NodeId> :: fk.workspace != w || fk.version != h.Newest() + 1 ==>
               (fk in db.nodes <==> fk in nodes) && (fk in db.nodes ==> db.nodes[fk] == nodes[fk])
    requires FactView(nodes, w, h.Newest() + 1) == s.nodes
    requires forall fk: FactKey<EdgeKey> :: fk.workspace != w || fk.version != h.Newest() + 1 ==>
               (fk in db.edges <==> fk in edges) && (fk in db.edges ==> db.edges[fk] == edges[fk])
    requires FactView(edges, w, h.Newest() + 1) == s.edges
    ensures Refines(Database(db.versions + {VersionKey(w, h.Newest() + 1)}, rows, nodes, edges), w, h.Append(s))
  {
    hide Intervals, RowView, FactView;
    var v := h.Newest() + 1;
    var h' := h.Append(s);
    var db' := Database(db.versions + {VersionKey(w, v)}, rows, nodes, edges);
    forall u: Version | h'.Live(u) ensures ViewsAgree(db', w, u, h'.At(u)) {
      if u != v {
        assert ViewsAgree(db, w, u, h.At(u));
        SameViews(db.nodes, nodes, w, u);
        SameViews(db.edges, edges, w, u);
      }
    }
    forall u: Version ensures VersionKey(w, u) in db'.versions <==> h'.Live(u) {
      assert VersionKey(w, u) in db.versions <==> h.Live(u);
    }
  }

  lemma NoFactsAtNext<K(!new), V>(t: FactTable<K, V>, w: Workspace, lo: Version, hi: Version)
    requires LiveOnly(t, w, lo, hi)
    ensures FactView(t, w, hi + 1) == map[]
  {
    assert FactKeysAt(t, w, hi + 1) == {};
  }

  /** The prior sources, seen through the rows, also when nothing was published yet. */
  lemma CurrentView(db: Database, w: Workspace, h: History)
    requires Refines(db, w, h)
    ensures RowView(db.rows, w, h.Newest()) == h.Current().sources.Items
    ensures FactView(db.edges, w, h.Newest()) == h.Current().edges
  {
    if h.snapshots == [] {
      assert RowView(db.rows, w, 0) == {};
      assert FactKeysAt(db.edges, w, 0) == {};
    } else {
      assert h.Live(h.Newest());
      assert ViewsAgree(db, w, h.Newest(), h.At(h.Newest()));
    }
  }

  lemma PublishedEdgesRefine(db: Database, w: Workspace, h: History, owners: seq<Path>,
                             written: seq<(EdgeKey, EdgeFact)>)
    requires Refines(db, w, h)
    ensures var v := h.Newest() + 1;
            var r := PublishedEdgeTable(db.edges, w, v, owners, written);
            && r.Ok?
            && FactView(r.value, w, v) == PublishedEdges(h.Current().edges, owners, written)
            && (forall fk: FactKey<EdgeKey> :: fk.workspace != w || fk.version != v ==>
                  (fk in db.edges <==> fk in r.value) && (fk in db.edges ==> db.edges[fk] == r.value[fk]))
  {
    var v := h.Newest() + 1;
    NoFactsAtNext(db.edges, w, h.first, h.Newest());
    CurrentView(db, w, h);
    if owners == [] || v <= 1 {
      StoreFactsEffect(db.edges, w, v, written);
      assert v <= 1 ==> h.snapshots == [];
      assert owners != [] ==> KeepOwners(h.Current().edges, Elements(owners)) == map[];
    } else {
      var kept := RetainedEdges(db.edges, w, v, Elements(owners));
      assert kept == KeepOwners(h.Current().edges, Elements(owners));
      CopyInEffect(db.edges, w, v, kept);
      StoreFactsEffect(CopyIn(db.edges, w, v, kept), w, v, written);
    }
  }

  // ----- Pruning and rollback -----

  lemma DeleteFactsBeforeEffect<K(!new), V>(t: FactTable<K, V>, w: Workspace, lo: Version, hi: Version, v: Version)
    requires LiveOnly(t, w, lo, hi)
    ensures LiveOnly(DeleteFactsBefore(t, w, v), w, v, hi)
    ensures FactFrame(t, DeleteFactsBefore(t, w, v), w)
    ensures forall u: Version :: u >= v ==> FactView(DeleteFactsBefore(t, w, v), w, u) == FactView(t, w, u)
  {
    forall u: Version | u >= v ensures FactView(DeleteFactsBefore(t, w, v), w, u) == FactView(t, w, u) {
      SameViews(t, DeleteFactsBefore(t, w, v), w, u);
    }
  }

  lemma DeleteFactsAfterEffect<K(!new), V>(t: FactTable<K, V>, w: Workspace, lo: Version, hi: Version, v: Version)
    requires LiveOnly(t, w, lo, hi)
    ensures LiveOnly(DeleteFactsAfter(t, w, v), w, lo, v)
    ensures FactFrame(t, DeleteFactsAfter(t, w, v), w)
    ensures forall u: Version :: u <= v ==> FactView(DeleteFactsAfter(t, w, v), w, u) == FactView(t, w, u)
  {
    forall u: Version | u <= v ensures FactView(DeleteFactsAfter(t, w, v), w, u) == FactView(t, w, u) {
      SameViews(t, DeleteFactsAfter(t, w, v), w, u);
    }
  }

  lemma PruneRefines(db: Database, w: Workspace, h: History, v: Version)
    requires Refines(db, w, h)
    ensures match (PruneDatabase(db, w, v), Retain(h, v))
            case (Ok(db'), Ok(h')) => Refines(db', w, h') && Frame(db, db', w)
            case (Err(e), Err(e')) => e == e'
            case _ => false
  {
    hide Intervals, RowsFrame, RowView, RebaseClashes, Rebase, DeleteFromBefore, DeleteFactsBefore, FactView,
         LiveOnly, FactFrame;
    RebaseNeverClashes(db.rows, w, h.first, h.Newest(), v);
    if h.Live(v) {
      var db', h' := PruneDatabase(db, w, v).value, Retain(h, v).value;
      PruneKeeps(db.rows, w, h.first, h.Newest(), v);
      DeleteFactsBeforeEffect(db.nodes, w, h.first, h.Newest(), v);
      DeleteFactsBeforeEffect(db.edges, w, h.first, h.Newest(), v);
      forall u: Version | h'.Live(u) ensures ViewsAgree(db', w, u, h'.At(u)) {
        assert ViewsAgree(db, w, u, h.At(u));
      }
    }
  }

  lemma RollbackRefines(db: Database, w: Workspace, h: History, v: Version)
    requires Refines(db, w, h)
    ensures match (RollbackDatabase(db, w, v), Apply(h, Rollback(v)))
            case (Ok(db'), Ok(h')) => Refines(db', w, h') && Frame(db, db', w)
            case (Err(e), Err(e')) => e == e'
            case _ => false
  {
    hide Intervals, RowsFrame, RowView, Reopen, DeleteFromAfter, DeleteFactsAfter, FactView, LiveOnly, FactFrame;
    if h.Live(v) {
      var db', h' := RollbackDatabase(db, w, v).value, Apply(h, Rollback(v)).value;
      RollbackKeeps(db.rows, w, h.first, h.Newest(), v);
      DeleteFactsAfterEffect(db.nodes, w, h.first, h.Newest(), v);
      DeleteFactsAfterEffect(db.edges, w, h.first, h.Newest(), v);
      forall u: Version | h'.Live(u) ensures ViewsAgree(db', w, u, h'.At(u)) {
        assert ViewsAgree(db, w, u, h.At(u));
      }
    }
  }

  // ----- Publication and commit before retention -----

  lemma FrameCompose(db: Database, mid: Database, db': Database, w: Workspace)
    requires Frame(db, mid, w) && Frame(mid, db', w)
    ensures Frame(db, db', w)
  {}

  lemma RetentionRefines(db: Database, mid: Database, w: Workspace, h: History)
    requires h.WellFormed() && Refines(mid, w, h) && Frame(db, mid, w)
    ensures match (AutomaticPrune(mid, w, h.Newest()), WithRetention(h))
            case (Ok(db'), Ok(h')) => Refines(db', w, h') && Frame(db, db', w)
            case (Err(e), Err(e')) => e == e'
            case _ => false
  {
    hide Refines, Frame, PruneDatabase, Retain;
    if h.Newest() > RETAINED_GRAPH_VERSIONS {
      PruneRefines(mid, w, h, h.Newest() - RETAINED_GRAPH_VERSIONS + 1);
      if WithRetention(h).Ok? {
        FrameCompose(db, mid, AutomaticPrune(mid, w, h.Newest()).value, w);
      }
    }
  }

  lemma ReplaceRowsRefine(db: Database, w: Workspace, h: History, update: seq<Source>)
    requires Refines(db, w, h) && DistinctPaths(update)
    ensures var v := h.Newest() + 1;
            var r := ReplaceRows(db.rows, w, v, update);
            && r.Ok?
            && Intervals(r.value, w, h.first, v)
            && RowsFrame(db.rows, r.value, w)
            && (forall u: Version :: u <= h.Newest() ==> RowView(r.value, w, u) == RowView(db.rows, w, u))
            && RowView(r.value, w, v) == (h.Current().sources + UpdateMap(update)).Items
  {
    hide Intervals, RowsFrame, RowView, CloseUpdated, NewRows, InsertClashes;
    var lo, hi := h.first, h.Newest();
    ReplaceDoesNotClash(db.rows, w, lo, hi, update);
    ReplaceKeepsIntervals(db.rows, w, lo, hi, update);
    CurrentView(db, w, h);
    ReplaceNewView(db.rows, w, lo, hi, update, h.Current().sources);
    forall u: Version | u <= hi
      ensures RowView(ReplaceRows(db.rows, w, hi + 1, update).value, w, u) == RowView(db.rows, w, u)
    {
      ReplaceKeepsOldViews(db.rows, w, lo, hi, update, u);
    }
  }

  lemma AppendPublicationRefines(db: Database, w: Workspace, h: History, update: seq<Source>, facts: Facts,
                                 owners: seq<Path>)
    requires Refines(db, w, h) && DistinctPaths(update)
    ensures var r := AppendPublication(db, w, h.Newest() + 1, update, facts, owners);
            && r.Ok?
            && Refines(r.value, w, h.Append(PublishedSnapshot(h.Current(), update, facts, owners)))
            && Frame(db, r.value, w)
  {
    hide Intervals, RowsFrame, RowView, FactView, ReplaceRows, PublishedEdgeTable, StoreFacts, ViewsAgree, LiveOnly,
         InsertOrIgnore;
    var v := h.Newest() + 1;
    ReplaceRowsRefine(db, w, h, update);
    PublishedEdgesRefine(db, w, h, owners, facts.edges);
    NoFactsAtNext(db.nodes, w, h.first, h.Newest());
    StoreFactsEffect(db.nodes, w, v, facts.nodes);
    AppendRefines(db, w, h, PublishedSnapshot(h.Current(), update, facts, owners),
                  ReplaceRows(db.rows, w, v, update).value,
                  StoreFacts(db.nodes, w, v, facts.nodes),
                  PublishedEdgeTable(db.edges, w, v, owners, facts.edges).value);
  }

  lemma PublishRefines(db: Database, w: Workspace, h: History, update: seq<Source>, facts: Facts, owners: seq<Path>)
    requires h.WellFormed() && Refines(db, w, h)
    ensures match (PublishDatabase(db, w, update, facts, owners), Apply(h, Publish(update, facts, owners)))
            case (Ok(db'), Ok(h')) => Refines(db', w, h') && Frame(db, db', w)
            case (Err(e), Err(e')) => e == e'
            case _ => false
  {
    hide Refines, Frame, AppendPublication, AutomaticPrune, WithRetention, PublishedSnapshot;
    if DistinctPaths(update) {
      MaxIsNewest(db, w, h);
      AppendPublicationRefines(db, w, h, update, facts, owners);
      RetentionRefines(db, AppendPublication(db, w, h.Newest() + 1, update, facts, owners).value, w,
                       h.Append(PublishedSnapshot(h.Current(), update, facts, owners)));
    }
  }

  /** Restriction to staged paths commutes with the override by written ones. */
  lemma StagedOnlyOverride(prior: map<Path, Content>, staged: set<Path>, written: map<Path, Content>)
    requires written.Keys <= staged
    ensures StagedOnly(prior + written, staged) == StagedOnly(prior, staged) + written
  {}

  lemma CommitRowsRefine(db: Database, w: Workspace, h: History, staged: set<Path>, written: seq<Source>)
    requires Refines(db, w, h) && DistinctPaths(written) && PathsOf(written) <= staged
    ensures var v := h.Newest() + 1;
            var r := ReplaceRows(db.rows, w, v, written);
            r.Ok? &&
            var rows := if v > 1 then CloseMissing(r.value, w, staged, v - 1) else r.value;
            && Intervals(rows, w, h.first, v)
            && RowsFrame(db.rows, rows, w)
            && (forall u: Version :: u <= h.Newest() ==> RowView(rows, w, u) == RowView(db.rows, w, u))
            && RowView(rows, w, v) == (StagedOnly(h.Current().sources, staged) + UpdateMap(written)).Items
  {
    var v := h.Newest() + 1;
    ReplaceRowsRefine(db, w, h, written);
    var rows := ReplaceRows(db.rows, w, v, written).value;
    var next := h.Current().sources + UpdateMap(written);
    StagedOnlyOverride(h.Current().sources, staged, UpdateMap(written));
    if v > 1 {
      forall r | r in rows && r.workspace == w && r.from == v ensures r.path in staged {
        ClosedRowsAreOld(db.rows, w, h.first, h.Newest(), PathsOf(written));
        assert r in NewRows(w, v, written);
      }
      CloseMissingKeeps(rows, w, h.first, v, staged);
      CloseMissingNewView(rows, w, h.first, v, staged, next);
    } else {
      assert h.snapshots == [];
      assert StagedOnly(next, staged) == next;
    }
  }

  lemma AppendCommitRefines(db: Database, w: Workspace, h: History, staged: set<Path>, written: seq<Source>,
                            facts: Facts)
    requires Refines(db, w, h) && DistinctPaths(written) && PathsOf(written) <= staged
    ensures var r := AppendCommit(db, w, h.Newest() + 1, staged, written, facts);
            && r.Ok?
            && Refines(r.value, w, h.Append(CommittedSnapshot(h.Current(), staged, written, facts)))
            && Frame(db, r.value, w)
  {
    hide Intervals, RowsFrame, RowView, FactView, ReplaceRows, StoreFacts, ViewsAgree, LiveOnly, InsertOrIgnore,
         CloseMissing;
    var v := h.Newest() + 1;
    CommitRowsRefine(db, w, h, staged, written);
    NoFactsAtNext(db.nodes, w, h.first, h.Newest());
    NoFactsAtNext(db.edges, w, h.first, h.Newest());
    StoreFactsEffect(db.nodes, w, v, facts.nodes);
    StoreFactsEffect(db.edges, w, v, facts.edges);
    var replaced := ReplaceRows(db.rows, w, v, written).value;
    AppendRefines(db, w, h, CommittedSnapshot(h.Current(), staged, written, facts),
                  if v > 1 then CloseMissing(replaced, w, staged, v - 1) else replaced,
                  StoreFacts(db.nodes, w, v, facts.nodes), StoreFacts(db.edges, w, v, facts.edges));
  }

  lemma CommitRefines(db: Database, w: Workspace, h: History, staged: set<Path>, written: seq<Source>, facts: Facts)
    requires h.WellFormed() && Refines(db, w, h)
    ensures match (CommitDatabase(db, w, staged, written, facts), Apply(h, Commit(staged, written, facts)))
            case (Ok(db'), Ok(h')) => Refines(db', w, h') && Frame(db, db', w)
            case (Err(e), Err(e')) => e == e'
            case _ => false
  {
    hide Refines, Frame, AppendCommit, AutomaticPrune, WithRetention, CommittedSnapshot;
    if DistinctPaths(written) && PathsOf(written) <= staged {
      MaxIsNewest(db, w, h);
      AppendCommitRefines(db, w, h, staged, written, facts);
      RetentionRefines(db, AppendCommit(db, w, h.Newest() + 1, staged, written, facts).value, w,
                       h.Append(CommittedSnapshot(h.Current(), staged, written, facts)));
    }
  }

  /** One request: the database and the history succeed or fail together, and stay related. */
  lemma ApplyRefines(db: Database, w: Workspace, h: History, request: Request)
    requires Refines(db, w, h)
    ensures match (ApplyDatabase(db, w, request), Apply(h, request))
            case (Ok(db'), Ok(h')) => Refines(db', w, h') && Frame(db, db', w)
            case (Err(e), Err(e')) => e == e'
            case _ => false
  {
    match request
    case Publish(update, facts, owners) => PublishRefines(db, w, h, update, facts, owners);
    case Commit(staged, written, facts) => CommitRefines(db, w, h, staged, written, facts);
    case Rollback(v) => RollbackRefines(db, w, h, v);
    case Prune(v) => if v != 0 { PruneRefines(db, w, h, v); }
  }
}
