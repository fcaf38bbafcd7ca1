/** Which publication the resolved edges of an owner come from. */
module EdgeOwnership {
  import opened Common
  import opened GraphTables
  import opened SnapshotHistory

  datatype Publication = Publication(owners: seq<Path>, edges: seq<(EdgeKey, EdgeFact)>)

  /** A publication that names no owner counts as replacing all of them. */
  predicate Replaces(p: Publication, owner: Path) {
    p.owners == [] || owner in p.owners
  }

  function EdgesAfter(publications: seq<Publication>): map<EdgeKey, EdgeFact> {
    if publications == [] then map[] else
      var last := publications[|publications| - 1];
      PublishedEdges(EdgesAfter(publications[..|publications| - 1]), last.owners, last.edges)
  }

  function OwnedBy(edges: map<EdgeKey, EdgeFact>, owner: Path): map<EdgeKey, EdgeFact> {
    map k | k in edges && edges[k].owner == owner :: edges[k]
  }

  /** The edges a publication itself writes; of equal keys the first wins. */
  function WrittenBy(p: Publication): map<EdgeKey, EdgeFact> {
    InsertOrIgnore(map[], p.edges)
  }

  lemma {:induction false} InsertOrIgnoreIsUnion<K, V>(m: map<K, V>, s: seq<(K, V)>)
    ensures InsertOrIgnore(m, s) == InsertOrIgnore(map[], s) + m
  {
    if s != [] { InsertOrIgnoreIsUnion(m, s[..|s| - 1]); }
  }

  lemma {:induction false} WrittenFrom<K, V>(s: seq<(K, V)>, k: K)
    requires k in InsertOrIgnore(map[], s)
    ensures exists i :: 0 <= i < |s| && s[i] == (k, InsertOrIgnore(map[], s)[k])
  {
    var last := |s| - 1;
    if k in InsertOrIgnore(map[], s[..last]) {
      WrittenFrom(s[..last], k);
      var i :| 0 <= i < last && s[..last][i] == (k, InsertOrIgnore(map[], s[..last])[k]);
      assert s[i] == (k, InsertOrIgnore(map[], s)[k]);
    } else {
      assert s[last] == (k, InsertOrIgnore(map[], s)[k]);
    }
  }

  /**
   * One publication: the edges of a replaced owner are exactly the written ones if and only
   * if no kept edge of another owner already occupies one of their keys.
   */
  lemma ReplacedOwnerExactly(prior: map<EdgeKey, EdgeFact>, p: Publication, owner: Path)
    requires Replaces(p, owner)
    ensures OwnedBy(PublishedEdges(prior, p.owners, p.edges), owner) == OwnedBy(WrittenBy(p), owner)
            <==> p.owners == [] || OwnedBy(WrittenBy(p), owner).Keys !! KeepOwners(prior, Elements(p.owners)).Keys
  {
    var kept := if p.owners == [] then map[] else KeepOwners(prior, Elements(p.owners));
    InsertOrIgnoreIsUnion(kept, p.edges);
    var after, written := OwnedBy(WrittenBy(p) + kept, owner), OwnedBy(WrittenBy(p), owner);
    if !(written.Keys !! kept.Keys) {
      var k :| k in written && k in kept;
      assert k !in after;
    } else {
      assert after == written;
    }
  }

  /** Every written edge belongs to a replaced owner, and a key determines its owner. */
  ghost predicate Disciplined(publications: seq<Publication>, ownerOf: EdgeKey -> Path) {
    forall i, j :: 0 <= i < |publications| && 0 <= j < |publications[i].edges| ==>
      && Replaces(publications[i], publications[i].edges[j].1.owner)
      && publications[i].edges[j].1.owner == ownerOf(publications[i].edges[j].0)
  }

  lemma {:induction false} KeysKeepTheirOwner(publications: seq<Publication>, ownerOf: EdgeKey -> Path)
    requires Disciplined(publications, ownerOf)
    ensures forall k :: k in EdgesAfter(publications) ==> EdgesAfter(publications)[k].owner == ownerOf(k)
  {
    if publications != [] {
      var n := |publications| - 1;
      var init, last := publications[..n], publications[n];
      KeysKeepTheirOwner(init, ownerOf);
      InsertOrIgnoreIsUnion(if last.owners == [] then map[] else KeepOwners(EdgesAfter(init), Elements(last.owners)),
                            last.edges);
      forall k | k in WrittenBy(last) ensures WrittenBy(last)[k].owner == ownerOf(k) {
        WrittenFrom(last.edges, k);
      }
    }
  }

  lemma LastReplaces(prior: map<EdgeKey, EdgeFact>, p: Publication, ownerOf: EdgeKey -> Path, owner: Path)
    requires Replaces(p, owner)
    requires forall k :: k in prior ==> prior[k].owner == ownerOf(k)
    requires forall k :: k in WrittenBy(p) ==> WrittenBy(p)[k].owner == ownerOf(k)
    ensures OwnedBy(PublishedEdges(prior, p.owners, p.edges), owner) == OwnedBy(WrittenBy(p), owner)
  {
    hide WrittenBy, PublishedEdges;
    ReplacedOwnerExactly(prior, p, owner);
  }

  lemma LastKeeps(prior: map<EdgeKey, EdgeFact>, p: Publication, owner: Path)
    requires !Replaces(p, owner)
    requires forall k :: k in WrittenBy(p) ==> Replaces(p, WrittenBy(p)[k].owner)
    ensures OwnedBy(PublishedEdges(prior, p.owners, p.edges), owner) == OwnedBy(prior, owner)
  {
    hide InsertOrIgnore;
    var kept := KeepOwners(prior, Elements(p.owners));
    InsertOrIgnoreIsUnion(kept, p.edges);
    assert PublishedEdges(prior, p.owners, p.edges) == WrittenBy(p) + kept;
    assert OwnedBy(WrittenBy(p) + kept, owner) == OwnedBy(prior, owner);
  }

  lemma WrittenIsDisciplined(publications: seq<Publication>, ownerOf: EdgeKey -> Path, n: nat)
    requires Disciplined(publications, ownerOf) && n < |publications|
    ensures forall k :: k in WrittenBy(publications[n]) ==>
              var owner := WrittenBy(publications[n])[k].owner; owner == ownerOf(k) && Replaces(publications[n], owner)
  {
    forall k | k in WrittenBy(publications[n])
      ensures var owner := WrittenBy(publications[n])[k].owner; owner == ownerOf(k) && Replaces(publications[n], owner)
    {
      WrittenFrom(publications[n].edges, k);
    }
  }

  /**
   * After any run of publications the resolved edges of an owner are those written by the
   * latest publication that replaced it.
   */
  lemma {:induction false} LatestReplacementWins(publications: seq<Publication>, ownerOf: EdgeKey -> Path,
                                                 owner: Path, latest: nat)
    requires Disciplined(publications, ownerOf)
    requires latest < |publications| && Replaces(publications[latest], owner)
    requires forall j :: latest < j < |publications| ==> !Replaces(publications[j], owner)
    ensures OwnedBy(EdgesAfter(publications), owner) == OwnedBy(WrittenBy(publications[latest]), owner)
  {
    hide WrittenBy, PublishedEdges, OwnedBy, Replaces;
    var n := |publications| - 1;
    WrittenIsDisciplined(publications, ownerOf, n);
    KeysKeepTheirOwner(publications[..n], ownerOf);
    if latest == n {
      LastReplaces(EdgesAfter(publications[..n]), publications[n], ownerOf, owner);
    } else {
      LatestReplacementWins(publications[..n], ownerOf, owner, latest);
      LastKeeps(EdgesAfter(publications[..n]), publications[n], owner);
    }
  }

  /** An owner that no publication ever replaced has no resolved edges. */
  lemma {:induction false} NeverReplacedHasNone(publications: seq<Publication>, ownerOf: EdgeKey -> Path, owner: Path)
    requires Disciplined(publications, ownerOf)
    requires forall j :: 0 <= j < |publications| ==> !Replaces(publications[j], owner)
    ensures OwnedBy(EdgesAfter(publications), owner) == map[]
  {
    if publications != [] {
      var n := |publications| - 1;
      var init, last := publications[..n], publications[n];
      NeverReplacedHasNone(init, ownerOf, owner);
      InsertOrIgnoreIsUnion(KeepOwners(EdgesAfter(init), Elements(last.owners)), last.edges);
      forall k | k in WrittenBy(last) ensures WrittenBy(last)[k].owner != owner {
        WrittenFrom(last.edges, k);
        assert !Replaces(publications[n], owner);
      }
      forall k | k in KeepOwners(EdgesAfter(init), Elements(last.owners)) ensures EdgesAfter(init)[k].owner != owner {
        assert k !in OwnedBy(EdgesAfter(init), owner);
      }
      assert !Replaces(publications[n], owner);
      assert EdgesAfter(publications) == WrittenBy(last) + KeepOwners(EdgesAfter(init), Elements(last.owners));
    }
  }
}
