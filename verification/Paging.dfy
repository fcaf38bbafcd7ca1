/** Keyset pages over sorted source paths, and the memo a page resolver puts before its index. */
module Paging {
  import opened Common
  import opened ModuleBindings

  // ----- Order of source paths -----

  predicate Less(a: Path, b: Path) {
    if b == [] then false
    else if a == [] then true
    else a[0] < b[0] || (a[0] == b[0] && Less(a[1..], b[1..]))
  }

  lemma {:induction false} LessIsStrict(a: Path, b: Path)
    requires Less(a, b)
    ensures !Less(b, a) && a != b
  {
    if a != [] && a[0] == b[0] { LessIsStrict(a[1..], b[1..]); }
  }

  /** ORDER BY source_path over a key column: strictly increasing. */
  ghost predicate Increasing(paths: seq<Path>) {
    forall i, j :: 0 <= i < j < |paths| ==> Less(paths[i], paths[j])
  }

  // ----- One page query -----

  /** WHERE source_path > after, of rows already in order. */
  function After(paths: seq<Path>, after: Path): seq<Path> {
    if paths == [] then []
    else (if Less(after, paths[0]) then [paths[0]] else []) + After(paths[1..], after)
  }

  function Page(paths: seq<Path>, after: Path, limit: nat): seq<Path> {
    var rest := After(paths, after);
    if |rest| <= limit then rest else rest[..limit]
  }

  lemma {:induction false} AfterNone(paths: seq<Path>, after: Path)
    requires forall i :: 0 <= i < |paths| ==> Less(after, paths[i])
    ensures After(paths, after) == paths
  {
    if paths != [] { AfterNone(paths[1..], after); }
  }

  lemma {:induction false} AfterSkips(paths: seq<Path>, k: nat, after: Path)
    requires k <= |paths|
    requires forall i :: 0 <= i < k ==> !Less(after, paths[i])
    requires forall i :: k <= i < |paths| ==> Less(after, paths[i])
    ensures After(paths, after) == paths[k..]
  {
    if k == 0 { AfterNone(paths, after); } else { AfterSkips(paths[1..], k - 1, after); }
  }

  /** The cursor after k paths: empty at the start, then the last path seen. */
  function Cursor(paths: seq<Path>, k: nat): Path
    requires k <= |paths|
  {
    if k == 0 then "" else paths[k - 1]
  }

  /** A page taken at the cursor continues exactly where the last one ended. */
  lemma PageContinues(paths: seq<Path>, k: nat, limit: nat)
    requires Increasing(paths) && "" !in paths && k <= |paths|
    ensures Page(paths, Cursor(paths, k), limit) == paths[k..if k + limit < |paths| then k + limit else |paths|]
  {
    var after := Cursor(paths, k);
    forall i | 0 <= i < k ensures !Less(after, paths[i]) {
      if i < k - 1 { LessIsStrict(paths[i], after); } else { SelfNotLess(after); }
    }
    forall i | k <= i < |paths| ensures Less(after, paths[i]) { assert paths[i] != ""; }
    AfterSkips(paths, k, after);
  }

  lemma {:induction false} SelfNotLess(a: Path)
    ensures !Less(a, a)
  {
    if a != [] { SelfNotLess(a[1..]); }
  }

  // ----- The memo -----

  /** Answers, errors included, are remembered per request for the life of one page. */
  class Memo<K(==), V> {
    const source: K -> V
    var known: map<K, V>

    ghost predicate Valid() reads this {
      forall k :: k in known ==> known[k] == source(k)
    }

    constructor (source: K -> V)
      ensures Valid() && this.source == source
    {
      this.source, known := source, map[];
    }

    method Get(k: K) returns (v: V)
      requires Valid()
      modifies this
      ensures Valid() && v == source(k)
      ensures forall j :: j in old(known) ==> j in known
    {
      if k !in known { known := known[k := source(k)]; }
      v := known[k];
    }
  }

  // ----- visitPackageTargets -----

  datatype PackageRequest = PackageRequest(package: string, after: Path, limit: nat)

  /** The sources of each package, in order, and the sources whose data cannot be read. */
  datatype Packages = Packages(sources: map<string, seq<Path>>, unreadable: set<Path>) {
    function Of(package: string): seq<Path> { if package in sources then sources[package] else [] }
  }

  datatype VisitError = ReadFailed | VisitFailed

  /** A page with a source that cannot be read fails as a whole. */
  function PackagePage(packages: Packages, request: PackageRequest): Result<seq<Path>, VisitError> {
    var page := Page(packages.Of(request.package), request.after, request.limit);
    if exists p :: p in page && p in packages.unreadable then Err(ReadFailed) else Ok(page)
  }

  /** Visits the sources of one page, up to the first that is refused. */
  method VisitPage(page: seq<Path>, accepts: Path -> bool) returns (visited: seq<Path>, ok: bool)
    ensures ok <==> forall p :: p in page ==> accepts(p)
    ensures visited <= page && (ok ==> visited == page) && forall p :: p in visited ==> accepts(p)
    ensures !ok ==> |visited| < |page| && !accepts(page[|visited|])
  {
    for i := 0 to |page|
      invariant forall p :: p in page[..i] ==> accepts(p)
    {
      if !accepts(page[i]) { return page[..i], false; }
      assert page[..i + 1] == page[..i] + [page[i]];
    }
    assert page[..|page|] == page;
    return page, true;
  }

  /**
   * Whatever the page size, the visit succeeds exactly when every source of the package can be read
   * and is accepted, and then each was visited exactly once, in order; otherwise it stopped early.
   */
  method VisitPackage(packages: Packages, index: Memo<PackageRequest, Result<seq<Path>, VisitError>>, package: string,
                      limit: nat, accepts: Path -> bool)
    returns (visited: seq<Path>, error: Option<VisitError>)
    requires limit > 0 && index.Valid() && forall request :: index.source(request) == PackagePage(packages, request)
    requires Increasing(packages.Of(package)) && "" !in packages.Of(package)
    modifies index
    ensures index.Valid()
    ensures error.None? <==> forall p :: p in packages.Of(package) ==> p !in packages.unreadable && accepts(p)
    ensures error.None? ==> visited == packages.Of(package)
    ensures visited <= packages.Of(package) && forall p :: p in visited ==> accepts(p)
    ensures error == Some(VisitFailed) ==>
              |visited| < |packages.Of(package)| && !accepts(packages.Of(package)[|visited|])
    ensures error == Some(ReadFailed) ==>
              exists j :: |visited| <= j < |visited| + limit && j < |packages.Of(package)|
                          && packages.Of(package)[j] in packages.unreadable
  {
    hide Page, Increasing;
    ghost var paths := packages.Of(package);
    var after := "";
    visited := [];
    while true
      invariant index.Valid()
      invariant |visited| <= |paths| && visited == paths[..|visited|] && after == Cursor(paths, |visited|)
      invariant forall p :: p in visited ==> p !in packages.unreadable && accepts(p)
      decreases |paths| - |visited|
    {
      PageContinues(paths, |visited|, limit);
      var reply := index.Get(PackageRequest(package, after, limit));
      ghost var next := if |visited| + limit < |paths| then |visited| + limit else |paths|;
      Stretch(paths, |visited|, next);
      if reply.Err? { return visited, Some(reply.error); }
      var page := reply.value;
      if |page| == 0 { break; }
      var seen, ok := VisitPage(page, accepts);
      visited := visited + seen;
      if !ok { return visited, Some(VisitFailed); }
      after := page[|page| - 1];
    }
    assert visited == paths;
    return visited, None;
  }

  lemma Stretch(paths: seq<Path>, k: nat, n: nat)
    requires k <= n <= |paths|
    ensures paths[..k] + paths[k..n] == paths[..n] && forall p :: p in paths[k..n] ==> p in paths
    ensures forall seen: seq<Path> :: seen <= paths[k..n] ==> paths[..k] + seen <= paths
  {
    forall seen: seq<Path> | seen <= paths[k..n] ensures paths[..k] + seen <= paths {
      assert paths[..k] + seen == paths[..k + |seen|];
    }
  }
}
