/**
 * The abstract store: per workspace, a contiguous list of complete immutable snapshots.
 * Publication and session commit append (then retain the newest versions), rollback drops
 * a suffix, pruning drops a prefix.
 */
module SnapshotHistory {
  import opened Common
  import opened GraphTables

  datatype Snapshot = Snapshot(
    sources: map<Path, Content>,
    nodes: map<NodeId, NodeFact>,
    edges: map<EdgeKey, EdgeFact>)

  const EMPTY_SNAPSHOT := Snapshot(map[], map[], map[])

  /** snapshots[i] is version first + i. */
  datatype History = History(first: Version, snapshots: seq<Snapshot>) {
    predicate WellFormed() {
      first >= 1 && (snapshots == [] ==> first == 1)
    }

    predicate Live(v: int) {
      first <= v < first + |snapshots|
    }

    function Newest(): Version
      requires WellFormed()
    {
      first + |snapshots| - 1
    }

    function At(v: Version): Snapshot
      requires Live(v)
    {
      snapshots[v - first]
    }

    function Current(): Snapshot {
      if snapshots == [] then EMPTY_SNAPSHOT else snapshots[|snapshots| - 1]
    }

    function Append(s: Snapshot): History {
      History(first, snapshots + [s])
    }
  }

  const NO_HISTORY := History(1, [])

  datatype Request =
    | Publish(update: seq<Source>, facts: Facts, owners: seq<Path>)
    | Commit(staged: set<Path>, written: seq<Source>, facts: Facts)
    | Rollback(to: Version)
    | Prune(before: Version)

  function UpdateMap(update: seq<Source>): (m: map<Path, Content>)
    ensures m.Keys == PathsOf(update)
  {
    if update == [] then map[] else
      var init, last := update[..|update| - 1], update[|update| - 1];
      assert PathsOf(update) == PathsOf(init) + {last.path};
      UpdateMap(init)[last.path := last.content]
  }

  function KeepOwners(edges: map<EdgeKey, EdgeFact>, replaced: set<Path>): map<EdgeKey, EdgeFact> {
    map k | k in edges && edges[k].owner !in replaced :: edges[k]
  }

  /** A publication that names no owners replaces every resolved edge. */
  function PublishedEdges(prior: map<EdgeKey, EdgeFact>, owners: seq<Path>, written: seq<(EdgeKey, EdgeFact)>)
    : map<EdgeKey, EdgeFact>
  {
    InsertOrIgnore(if owners == [] then map[] else KeepOwners(prior, Elements(owners)), written)
  }

  function PublishedSnapshot(prior: Snapshot, update: seq<Source>, facts: Facts, owners: seq<Path>): Snapshot {
    Snapshot(prior.sources + UpdateMap(update),
             InsertOrIgnore(map[], facts.nodes),
             PublishedEdges(prior.edges, owners, facts.edges))
  }

  function StagedOnly(sources: map<Path, Content>, staged: set<Path>): map<Path, Content> {
    map p | p in sources && p in staged :: sources[p]
  }

  function CommittedSnapshot(prior: Snapshot, staged: set<Path>, written: seq<Source>, facts: Facts): Snapshot {
    Snapshot(StagedOnly(prior.sources, staged) + UpdateMap(written),
             InsertOrIgnore(map[], facts.nodes),
             InsertOrIgnore(map[], facts.edges))
  }

  function Retain(h: History, v: Version): (r: Result<History, StoreError>)
    requires h.WellFormed()
    ensures r.Ok? ==> r.value.WellFormed()
  {
    if h.Live(v) then Ok(History(v, h.snapshots[v - h.first..])) else Err(VersionNotFound)
  }

  function WithRetention(h: History): (r: Result<History, StoreError>)
    requires h.WellFormed()
    ensures r.Ok? ==> r.value.WellFormed()
  {
    if h.Newest() > RETAINED_GRAPH_VERSIONS then Retain(h, h.Newest() - RETAINED_GRAPH_VERSIONS + 1) else Ok(h)
  }

  /** What the store promises for one request on one workspace. */
  function Apply(h: History, request: Request): (r: Result<History, StoreError>)
    requires h.WellFormed()
    ensures r.Ok? ==> r.value.WellFormed()
  {
    match request
    case Publish(update, facts, owners) =>
      if DistinctPaths(update)
      then WithRetention(h.Append(PublishedSnapshot(h.Current(), update, facts, owners)))
      else Err(InvalidRequest)
    case Commit(staged, written, facts) =>
      if DistinctPaths(written) && PathsOf(written) <= staged
      then WithRetention(h.Append(CommittedSnapshot(h.Current(), staged, written, facts)))
      else Err(InvalidRequest)
    case Rollback(v) =>
      if h.Live(v) then Ok(History(h.first, h.snapshots[..v - h.first + 1])) else Err(VersionNotFound)
    case Prune(v) =>
      if v == 0 then Err(InvalidRequest) else Retain(h, v)
  }
}
