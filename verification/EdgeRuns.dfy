/** Ownership of resolved edges in the tables, over whole runs of publications and commits. */
module EdgeRuns {
  import opened Common
  import opened GraphTables
  import opened SnapshotHistory
  import opened StoreRefinement
  import opened StoreRuns
  import opened GraphStore
  import opened EdgeOwnership

  /** A session commit writes all resolved edges anew, like a publication that names no owner. */
  function AsPublication(request: Request): Publication
    requires Appends(request)
  {
    if request.Publish? then Publication(request.owners, request.facts.edges) else Publication([], request.facts.edges)
  }

  /** The newest snapshot after one more publication or commit. */
  lemma {:induction false} NewestEdges(h: History, request: Request)
    requires h.WellFormed() && Appends(request) && Apply(h, request).Ok?
    ensures var p, h' := AsPublication(request), Apply(h, request).value;
            && h'.Live(h.Newest() + 1)
            && h'.At(h.Newest() + 1).edges == PublishedEdges(h.Current().edges, p.owners, p.edges)
  {
    hide PublishedEdges, UpdateMap;
    if request.Commit? { NoOwners(h.Current().edges, request.facts.edges); }
  }

  lemma {:induction false} NoOwners(prior: map<EdgeKey, EdgeFact>, written: seq<(EdgeKey, EdgeFact)>)
    ensures PublishedEdges(prior, [], written) == InsertOrIgnore(map[], written)
  {}

  /** What a successful request does to the list: append, cut at a rollback, leave alone. */
  function PublicationsAfter(publications: seq<Publication>, request: Request): seq<Publication> {
    match request
    case Publish(_, _, _) => publications + [AsPublication(request)]
    case Commit(_, _, _) => publications + [AsPublication(request)]
    case Rollback(v) => if v < |publications| then publications[..v] else publications
    case Prune(_) => publications
  }

  /** The publications and commits of a run on w that are not rolled back; version v is number v. */
  ghost function PublicationsOn(ops: seq<Operation>, w: Workspace): seq<Publication> {
    if ops == [] then [] else
      var init, last := ops[..|ops| - 1], ops[|ops| - 1];
      if last.workspace == w && StepHistories(RunHistories(init).0, last).1 == None
      then PublicationsAfter(PublicationsOn(init, w), last.request)
      else PublicationsOn(init, w)
  }

  /** Every live version's edges are those of the publications up to it. */
  ghost predicate Tracks(h: History, publications: seq<Publication>) {
    && h.WellFormed() && |publications| == h.Newest()
    && forall v: Version :: h.Live(v) ==> h.At(v).edges == EdgesAfter(publications[..v])
  }

  lemma {:induction false} CurrentEdges(h: History, publications: seq<Publication>)
    requires Tracks(h, publications)
    ensures h.Current().edges == EdgesAfter(publications)
  {
    if h.snapshots != [] {
      assert h.Live(h.Newest()) && publications[..h.Newest()] == publications;
    } else {
      assert publications == [];
    }
  }

  lemma {:induction false} AppendTracks(h: History, publications: seq<Publication>, request: Request)
    requires Tracks(h, publications) && Appends(request) && Apply(h, request).Ok?
    ensures Tracks(Apply(h, request).value, publications + [AsPublication(request)])
  {
    hide Apply, PublishedEdges;
    CurrentEdges(h, publications);
    AppendMakesNext(h, request);
    NewestEdges(h, request);
    var h', longer := Apply(h, request).value, publications + [AsPublication(request)];
    assert EdgesAfter(longer) == h'.At(h.Newest() + 1).edges by {
      assert longer[..|longer| - 1] == publications;
    }
    hide EdgesAfter;
    forall v: Version | h'.Live(v) ensures h'.At(v).edges == EdgesAfter(longer[..v]) {
      ApplyKeepsSurvivors(h, request, v);
      if h.Live(v) { assert longer[..v] == publications[..v]; } else { assert longer[..v] == longer; }
    }
  }

  lemma {:induction false} RequestTracks(h: History, publications: seq<Publication>, request: Request)
    requires Tracks(h, publications) && Apply(h, request).Ok?
    ensures Tracks(Apply(h, request).value, PublicationsAfter(publications, request))
  {
    hide EdgesAfter, PublishedSnapshot, CommittedSnapshot;
    if Appends(request) {
      AppendTracks(h, publications, request);
    } else {
      var h', kept := Apply(h, request).value, PublicationsAfter(publications, request);
      forall v: Version | h'.Live(v) ensures h'.At(v).edges == EdgesAfter(kept[..v]) {
        assert h.Live(v) && kept[..v] == publications[..v];
      }
    }
  }

  /** In every run, whatever requests it makes on w and on other workspaces. */
  lemma {:induction false} RunTracks(ops: seq<Operation>, w: Workspace)
    ensures Tracks(HistoryOf(RunHistories(ops).0, w), PublicationsOn(ops, w))
  {
    hide Apply, Tracks, PublicationsAfter;
    if ops == [] {
      NothingTracked();
    } else {
      var init, last := ops[..|ops| - 1], ops[|ops| - 1];
      RunTracks(init, w);
      var hs := RunHistories(init).0;
      if last.workspace == w {
        if StepHistories(hs, last).1 == None {
          RequestTracks(HistoryOf(hs, w), PublicationsOn(init, w), last.request);
        }
      } else {
        OtherWorkspace(hs, last, w);
      }
    }
  }

  lemma {:induction false} NothingTracked()
    ensures Tracks(NO_HISTORY, [])
  {}

  /**
   * In the tables, after any run: the edges of an owner read at a live version are those written by
   * the latest publication up to it, among those not rolled back, that replaced the owner.
   */
  lemma {:induction false} TableEdgesComeFromLatest(ops: seq<Operation>, w: Workspace, v: Version,
                                                    ownerOf: EdgeKey -> Path, owner: Path, latest: nat)
    requires HistoryOf(RunHistories(ops).0, w).Live(v)
    requires latest < v <= |PublicationsOn(ops, w)| && Disciplined(PublicationsOn(ops, w)[..v], ownerOf)
    requires Replaces(PublicationsOn(ops, w)[latest], owner)
    requires forall j :: latest < j < v ==> !Replaces(PublicationsOn(ops, w)[j], owner)
    ensures OwnedBy(FactView(RunDatabase(ops).0.edges, w, v), owner)
         == OwnedBy(WrittenBy(PublicationsOn(ops, w)[latest]), owner)
  {
    hide RunDatabase, RunHistories, WrittenBy, Replaces, EdgesAfter, OwnedBy, PublicationsOn;
    RunTracks(ops, w);
    RunRefines(ops);
    assert Refines(RunDatabase(ops).0, w, HistoryOf(RunHistories(ops).0, w));
    assert ViewsAgree(RunDatabase(ops).0, w, v, HistoryOf(RunHistories(ops).0, w).At(v));
    LatestReplacementWins(PublicationsOn(ops, w)[..v], ownerOf, owner, latest);
  }
}
