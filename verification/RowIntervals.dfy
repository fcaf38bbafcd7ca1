/**
 * The interval invariant of contribution rows, and what each row statement does to it and
 * to the snapshot views.
 */
module RowIntervals {
  import opened GraphTables
  import opened SnapshotHistory

  predicate Apart(a: Row, b: Row) {
    || (a.to.Some? && a.to.value < b.from)
    || (b.to.Some? && b.to.value < a.from)
  }

  ghost predicate Within(r: Row, lo: Version, hi: Version) {
    lo <= r.from <= hi && (r.to.Some? ==> r.from <= r.to.value < hi)
  }

  /**
   * Live versions of w are lo..hi. Every interval starts at a live version, a closed one
   * ends below the newest, and intervals of one path never overlap.
   */
  ghost predicate Intervals(rows: set<Row>, w: Workspace, lo: Version, hi: Version) {
    && (forall r :: r in rows && r.workspace == w ==> Within(r, lo, hi))
    && (forall a, b :: a in rows && b in rows && a.workspace == w && b.workspace == w && a.path == b.path && a != b
          ==> Apart(a, b))
  }

  /** Rows of other workspaces are not touched. */
  ghost predicate RowsFrame(rows: set<Row>, rows': set<Row>, w: Workspace) {
    forall r: Row :: r.workspace != w ==> (r in rows <==> r in rows')
  }

  /** A read at any version finds at most one contribution per path, and at most one row is open. */
  lemma AtMostOneVisible(rows: set<Row>, w: Workspace, lo: Version, hi: Version, a: Row, b: Row, v: Version)
    requires Intervals(rows, w, lo, hi)
    requires a in rows && b in rows && a.path == b.path
    requires Visible(a, w, v) && Visible(b, w, v)
    ensures a == b
  {
    assert a != b ==> Apart(a, b);
  }

  /** An update that maps rows one by one and keeps visibility at u keeps the whole view at u. */
  lemma ViewUnderMap(rows: set<Row>, rows': set<Row>, f: Row -> Row, w: Workspace, u: Version)
    requires rows' == set r | r in rows :: f(r)
    requires forall r :: r in rows ==> f(r).path == r.path && f(r).content == r.content
    requires forall r :: r in rows ==> (Visible(f(r), w, u) <==> Visible(r, w, u))
    ensures RowView(rows', w, u) == RowView(rows, w, u)
  {
    forall pc | pc in RowView(rows, w, u) ensures pc in RowView(rows', w, u) {
      var r :| r in rows && Visible(r, w, u) && pc == (r.path, r.content);
      assert f(r) in rows';
    }
    forall pc | pc in RowView(rows', w, u) ensures pc in RowView(rows, w, u) {
      var r' :| r' in rows' && Visible(r', w, u) && pc == (r'.path, r'.content);
      var r :| r in rows && r' == f(r);
    }
  }

  // ----- Publication -----

  lemma ClosedRowsAreOld(rows: set<Row>, w: Workspace, lo: Version, hi: Version, paths: set<Path>)
    requires Intervals(rows, w, lo, hi)
    ensures forall a :: a in CloseUpdated(rows, w, hi + 1, paths) && a.workspace == w ==> a.from <= hi
  {
    forall a | a in CloseUpdated(rows, w, hi + 1, paths) && a.workspace == w ensures a.from <= hi {
      var r :| r in rows && r.workspace == w && r.from == a.from;
    }
  }

  lemma ReplaceDoesNotClash(rows: set<Row>, w: Workspace, lo: Version, hi: Version, update: seq<Source>)
    requires Intervals(rows, w, lo, hi)
    ensures !InsertClashes(CloseUpdated(rows, w, hi + 1, PathsOf(update)), NewRows(w, hi + 1, update))
  {
    ClosedRowsAreOld(rows, w, lo, hi, PathsOf(update));
  }

  /** Closing an open row at hi keeps it within range once the newest version is hi + 1. */
  lemma ReplaceKeepsIntervals(rows: set<Row>, w: Workspace, lo: Version, hi: Version, update: seq<Source>)
    requires Intervals(rows, w, lo, hi) && 1 <= lo <= hi + 1 && DistinctPaths(update)
    ensures Intervals(CloseUpdated(rows, w, hi + 1, PathsOf(update)) + NewRows(w, hi + 1, update), w, lo, hi + 1)
    ensures RowsFrame(rows, CloseUpdated(rows, w, hi + 1, PathsOf(update)) + NewRows(w, hi + 1, update), w)
  {
    var v, paths := hi + 1, PathsOf(update);
    var closed, added := CloseUpdated(rows, w, v, paths), NewRows(w, v, update);
    ClosedIntervals(rows, w, lo, hi, paths);
    AddedRows(w, lo, v, update);
    hide CloseUpdated, NewRows;
    var rows' := closed + added;
    forall a: Row, b: Row |
      a in rows' && b in rows' && a.workspace == w && b.workspace == w && a.path == b.path && a != b
      ensures Apart(a, b)
    {
      if a in added && b in added { NewRowsUnique(w, v, update, a, b); }
    }
  }

  /** Closed rows stay apart and old, and those of updated paths are closed. */
  lemma ClosedIntervals(rows: set<Row>, w: Workspace, lo: Version, hi: Version, paths: set<Path>)
    requires Intervals(rows, w, lo, hi) && 1 <= lo <= hi + 1
    ensures var closed := CloseUpdated(rows, w, hi + 1, paths);
            && Intervals(closed, w, lo, hi + 1) && RowsFrame(rows, closed, w)
            && forall r :: r in closed && r.workspace == w ==> r.from <= hi && (r.path in paths ==> r.to.Some?)
  {
    var closed := CloseUpdated(rows, w, hi + 1, paths);
    forall a | a in closed ensures exists r :: r in rows && a == (if hi > 0 then CloseRow(r, w, paths, hi) else r) {}
    hide CloseUpdated;
    forall a, b | a in closed && b in closed && a.workspace == w && b.workspace == w && a.path == b.path && a != b
      ensures Apart(a, b)
    {
      var a0 :| a0 in rows && a == (if hi > 0 then CloseRow(a0, w, paths, hi) else a0);
      var b0 :| b0 in rows && b == (if hi > 0 then CloseRow(b0, w, paths, hi) else b0);
      assert Apart(a0, b0);
    }
    CloseFrame(rows, w, hi, paths);
  }

  lemma CloseFrame(rows: set<Row>, w: Workspace, hi: Version, paths: set<Path>)
    ensures RowsFrame(rows, CloseUpdated(rows, w, hi + 1, paths), w)
  {
    forall r: Row | r.workspace != w ensures r in rows <==> r in CloseUpdated(rows, w, hi + 1, paths) {
      assert CloseRow(r, w, paths, hi) == r;
    }
  }

  lemma AddedRows(w: Workspace, lo: Version, v: Version, update: seq<Source>)
    requires lo <= v
    ensures forall r :: r in NewRows(w, v, update) ==>
              r.workspace == w && Within(r, lo, v) && r.from == v && r.path in PathsOf(update)
  {}

  lemma NewRowsUnique(w: Workspace, v: Version, update: seq<Source>, a: Row, b: Row)
    requires DistinctPaths(update)
    requires a in NewRows(w, v, update) && b in NewRows(w, v, update) && a.path == b.path
    ensures a == b
  {
    var s :| s in update && a == NewRow(w, v, s);
    var t :| t in update && b == NewRow(w, v, t);
    var i :| 0 <= i < |update| && update[i] == s;
    var j :| 0 <= j < |update| && update[j] == t;
  }

  lemma ReplaceKeepsOldViews(rows: set<Row>, w: Workspace, lo: Version, hi: Version, update: seq<Source>, u: Version)
    requires Intervals(rows, w, lo, hi) && u <= hi
    ensures RowView(CloseUpdated(rows, w, hi + 1, PathsOf(update)) + NewRows(w, hi + 1, update), w, u)
         == RowView(rows, w, u)
  {
    var v, paths := hi + 1, PathsOf(update);
    var closed, added := CloseUpdated(rows, w, v, paths), NewRows(w, v, update);
    if v > 1 {
      ViewUnderMap(rows, closed, r => CloseRow(r, w, paths, hi), w, u);
    }
    assert forall r :: r in added ==> !Visible(r, w, u);
    assert RowView(closed + added, w, u) == RowView(closed, w, u);
  }

  lemma {:induction false} UpdateMapItems(update: seq<Source>, p: Path, c: Content)
    requires DistinctPaths(update)
    ensures Source(p, c) in update <==> p in UpdateMap(update) && UpdateMap(update)[p] == c
  {
    if update != [] {
      var init, last := update[..|update| - 1], update[|update| - 1];
      UpdateMapItems(init, p, c);
      assert update == init + [last];
    }
  }

  /** A view is the item set of a map when it agrees with the map entry by entry. */
  lemma ViewIsItems(view: set<(Path, Content)>, m: map<Path, Content>)
    requires forall p, c :: (p, c) in view ==> p in m && m[p] == c
    requires forall p :: p in m ==> (p, m[p]) in view
    ensures view == m.Items
  {
    forall pc | pc in m.Items ensures pc in view {
      assert pc == (pc.0, m[pc.0]);
    }
    forall pc | pc in view ensures pc in m.Items {
      assert pc == (pc.0, pc.1);
    }
  }

  lemma ReplaceNewViewSound(rows: set<Row>, w: Workspace, lo: Version, hi: Version, update: seq<Source>,
                            prior: map<Path, Content>, p: Path, c: Content)
    requires Intervals(rows, w, lo, hi) && lo >= 1 && DistinctPaths(update)
    requires RowView(rows, w, hi) == prior.Items
    requires (p, c) in RowView(CloseUpdated(rows, w, hi + 1, PathsOf(update)) + NewRows(w, hi + 1, update), w, hi + 1)
    ensures p in prior + UpdateMap(update) && (prior + UpdateMap(update))[p] == c
  {
    var v, paths := hi + 1, PathsOf(update);
    var closed, added := CloseUpdated(rows, w, v, paths), NewRows(w, v, update);
    var r' :| r' in closed + added && Visible(r', w, v) && p == r'.path && c == r'.content;
    if r' in added {
      var s :| s in update && r' == NewRow(w, v, s);
      UpdateMapItems(update, p, c);
    } else {
      var r :| r in rows && r' == (if v > 1 then CloseRow(r, w, paths, hi) else r);
      assert Within(r, lo, hi);
      assert (p, c) in RowView(rows, w, hi);
      assert p !in paths;
    }
  }

  lemma ReplaceNewViewComplete(rows: set<Row>, w: Workspace, lo: Version, hi: Version, update: seq<Source>,
                               prior: map<Path, Content>, p: Path)
    requires Intervals(rows, w, lo, hi) && lo >= 1 && DistinctPaths(update)
    requires RowView(rows, w, hi) == prior.Items
    requires p in prior + UpdateMap(update)
    ensures (p, (prior + UpdateMap(update))[p])
         in RowView(CloseUpdated(rows, w, hi + 1, PathsOf(update)) + NewRows(w, hi + 1, update), w, hi + 1)
  {
    var v, paths := hi + 1, PathsOf(update);
    var closed, added := CloseUpdated(rows, w, v, paths), NewRows(w, v, update);
    var c := (prior + UpdateMap(update))[p];
    if p in paths {
      UpdateMapItems(update, p, c);
      assert NewRow(w, v, Source(p, c)) in added;
    } else {
      assert (p, c) in prior.Items;
      var r :| r in rows && Visible(r, w, hi) && p == r.path && c == r.content;
      assert Within(r, lo, hi);
      assert r in closed by { assert CloseRow(r, w, paths, hi) == r; }
    }
  }

  /** The new version reads as the prior sources overridden by the update. */
  lemma ReplaceNewView(rows: set<Row>, w: Workspace, lo: Version, hi: Version, update: seq<Source>,
                       prior: map<Path, Content>)
    requires Intervals(rows, w, lo, hi) && lo >= 1 && DistinctPaths(update)
    requires RowView(rows, w, hi) == prior.Items
    ensures RowView(CloseUpdated(rows, w, hi + 1, PathsOf(update)) + NewRows(w, hi + 1, update), w, hi + 1)
         == (prior + UpdateMap(update)).Items
  {
    var view := RowView(CloseUpdated(rows, w, hi + 1, PathsOf(update)) + NewRows(w, hi + 1, update), w, hi + 1);
    var next := prior + UpdateMap(update);
    forall p, c | (p, c) in view ensures p in next && next[p] == c {
      ReplaceNewViewSound(rows, w, lo, hi, update, prior, p, c);
    }
    forall p | p in next ensures (p, next[p]) in view {
      ReplaceNewViewComplete(rows, w, lo, hi, update, prior, p);
    }
    ViewIsItems(view, next);
  }

  // ----- Session commit: closing what was not staged -----

  lemma CloseMissingKeeps(rows: set<Row>, w: Workspace, lo: Version, hi: Version, staged: set<Path>)
    requires Intervals(rows, w, lo, hi) && hi >= 1
    requires forall r :: r in rows && r.workspace == w && r.from == hi ==> r.path in staged
    ensures Intervals(CloseMissing(rows, w, staged, hi - 1), w, lo, hi)
    ensures RowsFrame(rows, CloseMissing(rows, w, staged, hi - 1), w)
    ensures forall u: Version :: u < hi ==>
              RowView(CloseMissing(rows, w, staged, hi - 1), w, u) == RowView(rows, w, u)
  {
    var rows' := CloseMissing(rows, w, staged, hi - 1);
    forall a, b | a in rows' && b in rows' && a.workspace == w && b.workspace == w && a.path == b.path && a != b
      ensures Apart(a, b)
    {
      var a0 :| a0 in rows && a == CloseMissingRow(a0, w, staged, hi - 1);
      var b0 :| b0 in rows && b == CloseMissingRow(b0, w, staged, hi - 1);
      assert Apart(a0, b0);
    }
    forall r: Row | r.workspace != w ensures r in rows <==> r in rows' {
      assert CloseMissingRow(r, w, staged, hi - 1) == r;
    }
    forall u: Version | u < hi ensures RowView(rows', w, u) == RowView(rows, w, u) {
      ViewUnderMap(rows, rows', r => CloseMissingRow(r, w, staged, hi - 1), w, u);
    }
  }

  lemma CloseMissingNewView(rows: set<Row>, w: Workspace, lo: Version, hi: Version, staged: set<Path>,
                            before: map<Path, Content>)
    requires Intervals(rows, w, lo, hi) && hi >= 1
    requires RowView(rows, w, hi) == before.Items
    ensures RowView(CloseMissing(rows, w, staged, hi - 1), w, hi) == StagedOnly(before, staged).Items
  {
    var rows' := CloseMissing(rows, w, staged, hi - 1);
    var view, kept := RowView(rows', w, hi), StagedOnly(before, staged);
    forall pc | pc in view ensures pc in kept.Items {
      var (p, c) := pc;
      var r' :| r' in rows' && Visible(r', w, hi) && p == r'.path && c == r'.content;
      var r :| r in rows && r' == CloseMissingRow(r, w, staged, hi - 1);
      assert (p, c) in before.Items;
    }
    forall pc | pc in kept.Items ensures pc in view {
      var (p, c) := pc;
      assert (p, c) in before.Items;
      var r :| r in rows && Visible(r, w, hi) && p == r.path && c == r.content;
      assert CloseMissingRow(r, w, staged, hi - 1) == r;
    }
  }

  // ----- Rollback -----

  lemma RollbackKeeps(rows: set<Row>, w: Workspace, lo: Version, hi: Version, v: Version)
    requires Intervals(rows, w, lo, hi) && lo <= v <= hi
    ensures Intervals(Reopen(DeleteFromAfter(rows, w, v), w, v), w, lo, v)
    ensures RowsFrame(rows, Reopen(DeleteFromAfter(rows, w, v), w, v), w)
    ensures forall u: Version :: u <= v ==>
              RowView(Reopen(DeleteFromAfter(rows, w, v), w, v), w, u) == RowView(rows, w, u)
  {
    var left := DeleteFromAfter(rows, w, v);
    var rows' := Reopen(left, w, v);
    forall a, b | a in rows' && b in rows' && a.workspace == w && b.workspace == w && a.path == b.path && a != b
      ensures Apart(a, b)
    {
      var a0 :| a0 in left && a == ReopenRow(a0, w, v);
      var b0 :| b0 in left && b == ReopenRow(b0, w, v);
      assert Apart(a0, b0);
    }
    forall r: Row | r.workspace != w ensures r in rows <==> r in rows' {
      assert ReopenRow(r, w, v) == r;
    }
    forall u: Version | u <= v ensures RowView(rows', w, u) == RowView(rows, w, u) {
      ViewUnderMap(left, rows', r => ReopenRow(r, w, v), w, u);
      assert RowView(left, w, u) == RowView(rows, w, u);
    }
  }

  // ----- Pruning -----

  /** Two rows of one path valid at v would both be visible there: the rebase cannot clash. */
  lemma RebaseNeverClashes(rows: set<Row>, w: Workspace, lo: Version, hi: Version, v: Version)
    requires Intervals(rows, w, lo, hi)
    ensures !RebaseClashes(rows, w, v)
  {
    forall a, b | a in rows && b in rows && a.workspace == w && b.workspace == w && a != b
      ensures !SameKey(RebaseRow(a, w, v), RebaseRow(b, w, v))
    {
      assert Within(a, lo, hi) && Within(b, lo, hi);
      if a.path == b.path { assert Apart(a, b); }
    }
  }

  lemma PruneKeeps(rows: set<Row>, w: Workspace, lo: Version, hi: Version, v: Version)
    requires Intervals(rows, w, lo, hi) && lo <= v <= hi
    ensures Intervals(DeleteFromBefore(Rebase(rows, w, v), w, v), w, v, hi)
    ensures RowsFrame(rows, DeleteFromBefore(Rebase(rows, w, v), w, v), w)
    ensures forall u: Version :: u >= v ==>
              RowView(DeleteFromBefore(Rebase(rows, w, v), w, v), w, u) == RowView(rows, w, u)
  {
    hide RowView, Rebase, DeleteFromBefore;
    PruneKeepsIntervals(rows, w, lo, hi, v);
    forall u: Version | u >= v
      ensures RowView(DeleteFromBefore(Rebase(rows, w, v), w, v), w, u) == RowView(rows, w, u)
    {
      PruneKeepsView(rows, w, lo, hi, v, u);
    }
  }

  lemma PruneKeepsIntervals(rows: set<Row>, w: Workspace, lo: Version, hi: Version, v: Version)
    requires Intervals(rows, w, lo, hi) && lo <= v <= hi
    ensures Intervals(DeleteFromBefore(Rebase(rows, w, v), w, v), w, v, hi)
    ensures RowsFrame(rows, DeleteFromBefore(Rebase(rows, w, v), w, v), w)
  {
    var rows' := DeleteFromBefore(Rebase(rows, w, v), w, v);
    forall r' | r' in rows' && r'.workspace == w ensures Within(r', v, hi) {
      var r :| r in rows && r' == RebaseRow(r, w, v);
      assert Within(r, lo, hi);
    }
    forall a, b | a in rows' && b in rows' && a.workspace == w && b.workspace == w && a.path == b.path && a != b
      ensures Apart(a, b)
    {
      var a0 :| a0 in rows && a == RebaseRow(a0, w, v);
      var b0 :| b0 in rows && b == RebaseRow(b0, w, v);
      assert Apart(a0, b0);
    }
    forall r: Row | r.workspace != w ensures r in rows <==> r in rows' {
      assert RebaseRow(r, w, v) == r;
    }
  }

  lemma PruneKeepsView(rows: set<Row>, w: Workspace, lo: Version, hi: Version, v: Version, u: Version)
    requires Intervals(rows, w, lo, hi) && lo <= v <= hi && u >= v
    ensures RowView(DeleteFromBefore(Rebase(rows, w, v), w, v), w, u) == RowView(rows, w, u)
  {
    var moved := Rebase(rows, w, v);
    var rows' := DeleteFromBefore(moved, w, v);
    ViewUnderMap(rows, moved, r => RebaseRow(r, w, v), w, u);
    assert forall r :: r in moved && r !in rows' ==> !Visible(r, w, u);
    hide Rebase;
    assert RowView(moved, w, u) == RowView(rows', w, u);
  }

  // ----- Exact undo -----

  /** Rolling a publication back to the version before it restores the very same rows. */
  lemma RollbackUndoesReplace(rows: set<Row>, w: Workspace, lo: Version, hi: Version, update: seq<Source>)
    requires Intervals(rows, w, lo, hi)
    ensures Reopen(DeleteFromAfter(CloseUpdated(rows, w, hi + 1, PathsOf(update)) + NewRows(w, hi + 1, update), w, hi),
                   w, hi) == rows
  {
    var v, paths := hi + 1, PathsOf(update);
    var closed, added := CloseUpdated(rows, w, v, paths), NewRows(w, v, update);
    var left := DeleteFromAfter(closed + added, w, hi);
    var rows' := Reopen(left, w, hi);
    forall r | r in rows ensures r in rows' {
      var c := if v > 1 then CloseRow(r, w, paths, hi) else r;
      assert c in closed;
      assert r.workspace == w ==> Within(r, lo, hi);
      assert c in left;
      assert ReopenRow(c, w, hi) == r;
    }
    forall r' | r' in rows' ensures r' in rows {
      var c :| c in left && r' == ReopenRow(c, w, hi);
      var r :| r in rows && c == (if v > 1 then CloseRow(r, w, paths, hi) else r);
      assert r.workspace == w ==> Within(r, lo, hi);
      assert r' == r;
    }
  }
}
