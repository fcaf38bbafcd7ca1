/**
 * The relational side of the graph store: the tables, and each SQL statement that
 * publication, session commit, rollback and pruning issue, as an update of a table value.
 *
 * The ten contribution tables are always changed by the same statement with the same
 * condition on (workspace, source_path, valid_from_version, valid_to_version); one Row
 * therefore stands for a file_contributions row with its child rows bundled in `content`.
 */
module GraphTables {
  import opened Common

  type Workspace = string
  type Path = string
  type Version = nat
  type NodeId = string

  const RETAINED_GRAPH_VERSIONS := 25

  datatype StoreError = InvalidRequest | VersionNotFound | ConstraintViolation | BudgetExceeded

  datatype Content = Content(projectId: string, extractorName: string, extractorVersion: string,
                             records: set<seq<string>>)
  datatype Source = Source(path: Path, content: Content)

  datatype NodeFact = NodeFact(kind: string, name: string, evidence: string)
  datatype EdgeKey = EdgeKey(sourceId: NodeId, targetId: NodeId, relation: string)
  /** `owner` is the path of the edge's evidence span: resolved_fact_owner. */
  datatype EdgeFact = EdgeFact(owner: Path, evidence: string)
  datatype Facts = Facts(nodes: seq<(NodeId, NodeFact)>, edges: seq<(EdgeKey, EdgeFact)>)

  // ----- Tables -----

  /** One contribution with its validity interval; an absent `to` is SQL NULL, still open. */
  datatype Row = Row(workspace: Workspace, path: Path, from: Version, to: Option<Version>, content: Content)

  datatype VersionKey = VersionKey(workspace: Workspace, version: Version)
  datatype FactKey<K> = FactKey(workspace: Workspace, version: Version, key: K)
  type FactTable<K(==), V> = map<FactKey<K>, V>

  datatype Database = Database(
    versions: set<VersionKey>,
    rows: set<Row>,
    nodes: FactTable<NodeId, NodeFact>,
    edges: FactTable<EdgeKey, EdgeFact>)

  const EMPTY_DATABASE := Database({}, {}, map[], map[])

  // ----- Contribution rows -----

  predicate Visible(r: Row, w: Workspace, v: Version) {
    r.workspace == w && r.from <= v && (r.to.None? || r.to.value >= v)
  }

  /** The result of the visibility query every snapshot read uses. */
  function RowView(rows: set<Row>, w: Workspace, v: Version): (view: set<(Path, Content)>) {
    set r | r in rows && Visible(r, w, v) :: (r.path, r.content)
  }

  function CloseRow(r: Row, w: Workspace, paths: set<Path>, t: Version): Row {
    if r.workspace == w && r.path in paths && r.to.None? then r.(to := Some(t)) else r
  }

  function ClosePaths(rows: set<Row>, w: Workspace, paths: set<Path>, t: Version): set<Row> {
    set r | r in rows :: CloseRow(r, w, paths, t)
  }

  function CloseMissingRow(r: Row, w: Workspace, staged: set<Path>, t: Version): Row {
    if r.workspace == w && r.path !in staged && r.to.None? then r.(to := Some(t)) else r
  }

  function CloseMissing(rows: set<Row>, w: Workspace, staged: set<Path>, t: Version): set<Row> {
    set r | r in rows :: CloseMissingRow(r, w, staged, t)
  }

  function DeleteFromAfter(rows: set<Row>, w: Workspace, v: Version): set<Row> {
    set r | r in rows && !(r.workspace == w && r.from > v)
  }

  function DeleteFromBefore(rows: set<Row>, w: Workspace, v: Version): set<Row> {
    set r | r in rows && !(r.workspace == w && r.from < v)
  }

  function ReopenRow(r: Row, w: Workspace, v: Version): Row {
    if r.workspace == w && r.to.Some? && r.to.value >= v then r.(to := None) else r
  }

  function Reopen(rows: set<Row>, w: Workspace, v: Version): set<Row> {
    set r | r in rows :: ReopenRow(r, w, v)
  }

  function RebaseRow(r: Row, w: Workspace, v: Version): Row {
    if r.workspace == w && r.from < v && (r.to.None? || r.to.value >= v) then r.(from := v) else r
  }

  function Rebase(rows: set<Row>, w: Workspace, v: Version): set<Row> {
    set r | r in rows :: RebaseRow(r, w, v)
  }

  /** Equal primary keys (workspace, source_path, valid_from_version). */
  predicate SameKey(a: Row, b: Row) {
    a.workspace == b.workspace && a.path == b.path && a.from == b.from
  }

  /** Rebasing clashes when two rows would share a key afterwards. */
  predicate RebaseClashes(rows: set<Row>, w: Workspace, v: Version) {
    exists a, b :: a in rows && b in rows && a.workspace == w && b.workspace == w && a != b &&
                   SameKey(RebaseRow(a, w, v), RebaseRow(b, w, v))
  }

  function NewRow(w: Workspace, v: Version, s: Source): Row {
    Row(w, s.path, v, None, s.content)
  }

  function NewRows(w: Workspace, v: Version, update: seq<Source>): set<Row> {
    set s | s in update :: NewRow(w, v, s)
  }

  predicate InsertClashes(rows: set<Row>, added: set<Row>) {
    exists a, b :: a in rows && b in added && SameKey(a, b)
  }

  function PathsOf(update: seq<Source>): (paths: set<Path>) {
    set s | s in update :: s.path
  }

  predicate DistinctPaths(update: seq<Source>) {
    forall i, j :: 0 <= i < j < |update| ==> update[i].path != update[j].path
  }

  /** Closing prior rows of every updated path; skipped for the first version. */
  function CloseUpdated(rows: set<Row>, w: Workspace, v: Version, paths: set<Path>): set<Row> {
    if v > 1 then ClosePaths(rows, w, paths, v - 1) else rows
  }

  // ----- Version-stamped fact tables -----

  function FactKeysAt<K(==, !new), V>(t: FactTable<K, V>, w: Workspace, v: Version): (ks: set<K>)
    ensures forall k :: k in ks <==> FactKey(w, v, k) in t
  {
    set fk | fk in t && fk.workspace == w && fk.version == v :: fk.key
  }

  function FactView<K(==, !new), V>(t: FactTable<K, V>, w: Workspace, v: Version): (view: map<K, V>) {
    map k | k in FactKeysAt(t, w, v) :: t[FactKey(w, v, k)]
  }

  /** INSERT OR IGNORE, row after row: a key already present wins. */
  function InsertOrIgnore<K(==), V>(m: map<K, V>, s: seq<(K, V)>): map<K, V> {
    if s == [] then m else
      var init := InsertOrIgnore(m, s[..|s| - 1]);
      var (k, x) := s[|s| - 1];
      if k in init then init else init[k := x]
  }

  function Stamped<K, V>(s: seq<(K, V)>, w: Workspace, v: Version): (r: seq<(FactKey<K>, V)>)
    ensures |r| == |s|
    ensures forall i :: 0 <= i < |s| ==> r[i] == (FactKey(w, v, s[i].0), s[i].1)
  {
    seq(|s|, i requires 0 <= i < |s| => (FactKey(w, v, s[i].0), s[i].1))
  }

  function StoreFacts<K(==), V>(t: FactTable<K, V>, w: Workspace, v: Version, s: seq<(K, V)>): FactTable<K, V> {
    InsertOrIgnore(t, Stamped(s, w, v))
  }

  function DeleteFactsAfter<K(==), V>(t: FactTable<K, V>, w: Workspace, v: Version): FactTable<K, V> {
    map fk | fk in t && !(fk.workspace == w && fk.version > v) :: t[fk]
  }

  function DeleteFactsBefore<K(==), V>(t: FactTable<K, V>, w: Workspace, v: Version): FactTable<K, V> {
    map fk | fk in t && !(fk.workspace == w && fk.version < v) :: t[fk]
  }

  /** The rows selected for retention: last version's edges of owners that were not replaced. */
  function RetainedEdges(t: FactTable<EdgeKey, EdgeFact>, w: Workspace, v: Version, owners: set<Path>)
    : map<EdgeKey, EdgeFact>
    requires v >= 1
  {
    var last := FactView(t, w, v - 1);
    map k | k in last && last[k].owner !in owners :: last[k]
  }

  /** INSERT ... SELECT into version v; a plain INSERT, so any occupied key is an error. */
  function CopyIn<K(==), V>(t: FactTable<K, V>, w: Workspace, v: Version, m: map<K, V>): FactTable<K, V> {
    t + (map fk | fk in (set k | k in m :: FactKey(w, v, k)) :: m[fk.key])
  }

  predicate CopyClashes<K(==), V>(t: FactTable<K, V>, w: Workspace, v: Version, m: map<K, V>) {
    exists k :: k in m && FactKey(w, v, k) in t
  }

  // ----- Version numbers -----

  function VersionsOf(versions: set<VersionKey>, w: Workspace): (vs: set<Version>)
    ensures forall v :: v in vs <==> VersionKey(w, v) in versions
  {
    set k | k in versions && k.workspace == w :: k.version
  }

  function DeleteVersionsAfter(versions: set<VersionKey>, w: Workspace, v: Version): set<VersionKey> {
    set k | k in versions && !(k.workspace == w && k.version > v)
  }

  function DeleteVersionsBefore(versions: set<VersionKey>, w: Workspace, v: Version): set<VersionKey> {
    set k | k in versions && !(k.workspace == w && k.version < v)
  }

  /** COALESCE(MAX(version), 0). */
  ghost predicate IsMaxVersion(versions: set<VersionKey>, w: Workspace, m: Version) {
    && (forall v: Version :: VersionKey(w, v) in versions ==> v <= m)
    && (VersionKey(w, m) in versions || (m == 0 && VersionsOf(versions, w) == {}))
  }
}
