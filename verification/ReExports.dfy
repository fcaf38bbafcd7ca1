/**
 * resolvedSurfaces of the TypeScript and JavaScript resolvers: export surfaces propagated
 * along re-exports, a bounded number of rounds.
 */
module ReExports {
  import opened Common
  import opened ModuleBindings

  /** A re-export reference whose relative specifier resolved to an indexed file. */
  datatype Link = Link(target: Path, bindings: seq<Binding>)

  datatype Modules = Modules(paths: seq<Path>, declared: map<Path, seq<Surface>>, links: map<Path, seq<Link>>) {
    function Declared(p: Path): seq<Surface> { if p in declared then declared[p] else [] }
    function Links(p: Path): seq<Link> { if p in links then links[p] else [] }
  }

  predicate Matches(b: Binding, s: Surface) {
    Takes(ReExport, b, s)
  }

  function Exported(b: Binding, s: Surface): Surface {
    if b.exported != "" && b.exported != "*" then Surface(s.nodeId, b.exported) else s
  }

  // ----- What is exported, independently of any iteration -----

  /** One re-export hop: p exposes s because its link target exposes t. */
  ghost predicate Hop(m: Modules, p: Path, s: Surface, target: Path, t: Surface) {
    exists l, b :: l in m.Links(p) && b in l.bindings && l.target == target && Matches(b, t) && s == Exported(b, t)
  }

  /** Declared, or derived by a chain of at most k re-exports. */
  ghost predicate Within(m: Modules, k: nat, p: Path, s: Surface) {
    if k == 0 then p in m.paths && s in m.Declared(p)
    else
      || Within(m, k - 1, p, s)
      || (p in m.paths && exists target, t :: Within(m, k - 1, target, t) && Hop(m, p, s, target, t))
  }

  ghost predicate Derivable(m: Modules, p: Path, s: Surface) {
    exists k: nat :: Within(m, k, p, s)
  }

  lemma {:induction false} WithinGrows(m: Modules, j: nat, k: nat, p: Path, s: Surface)
    requires j <= k && Within(m, j, p, s)
    ensures Within(m, k, p, s)
  {
    if j < k { WithinGrows(m, j, k - 1, p, s); }
  }

  lemma {:induction false} WithinIsIndexed(m: Modules, k: nat, p: Path, s: Surface)
    requires Within(m, k, p, s)
    ensures p in m.paths
  {
    if k > 0 && Within(m, k - 1, p, s) { WithinIsIndexed(m, k - 1, p, s); }
  }

  /** Chains of at most n hops already give everything. */
  ghost predicate ConvergesBy(m: Modules, n: nat) {
    forall k: nat, p, s :: Within(m, k, p, s) ==> Within(m, n, p, s)
  }

  // ----- The iteration -----

  /** Surfaces per file in discovery order, with the set of keys already seen. */
  datatype Table = Table(surfaces: map<Path, seq<Surface>>, seen: map<Path, set<Surface>>)

  predicate Has(t: Table, p: Path, s: Surface) {
    p in t.surfaces && s in t.surfaces[p]
  }

  function SurfacesOf(t: Table, p: Path): seq<Surface> {
    if p in t.surfaces then t.surfaces[p] else []
  }

  ghost predicate TableOk(t: Table) {
    && t.surfaces.Keys == t.seen.Keys
    && forall p :: p in t.surfaces ==> Distinct(t.surfaces[p]) && t.seen[p] == Elements(t.surfaces[p])
  }

  ghost predicate Sound(m: Modules, t: Table) {
    TableOk(t) && forall p, s :: Has(t, p, s) ==> Derivable(m, p, s)
  }

  ghost predicate Extends(t: Table, t': Table) {
    forall p, s :: Has(t, p, s) ==> Has(t', p, s)
  }

  // The same iteration as values, file by file, link by link, binding by binding.

  function AddOne(t: Table, p: Path, s: Surface): Table {
    if s in SurfacesOf(t, p) then t
    else Table(t.surfaces[p := SurfacesOf(t, p) + [s]], t.seen[p := Elements(SurfacesOf(t, p)) + {s}])
  }

  function AddAll(t: Table, p: Path, list: seq<Surface>): Table {
    if list == [] then t else AddOne(AddAll(t, p, list[..|list| - 1]), p, list[|list| - 1])
  }

  function AddMatching(t: Table, p: Path, b: Binding, list: seq<Surface>): Table {
    if list == [] then t else
      var before, x := AddMatching(t, p, b, list[..|list| - 1]), list[|list| - 1];
      if Matches(b, x) then AddOne(before, p, Exported(b, x)) else before
  }

  function BindingsStep(t: Table, p: Path, target: Path, bindings: seq<Binding>): Table {
    if bindings == [] then t else
      var before := BindingsStep(t, p, target, bindings[..|bindings| - 1]);
      AddMatching(before, p, bindings[|bindings| - 1], SurfacesOf(before, target))
  }

  function LinksStep(t: Table, p: Path, links: seq<Link>): Table {
    if links == [] then t else
      var last := links[|links| - 1];
      BindingsStep(LinksStep(t, p, links[..|links| - 1]), p, last.target, last.bindings)
  }

  function PathsStep(m: Modules, t: Table, paths: seq<Path>): Table {
    if paths == [] then t else
      var p := paths[|paths| - 1];
      LinksStep(PathsStep(m, t, paths[..|paths| - 1]), p, m.Links(p))
  }

  function DeclaredTable(m: Modules, paths: seq<Path>): Table {
    if paths == [] then Table(map[], map[]) else
      var p := paths[|paths| - 1];
      AddAll(DeclaredTable(m, paths[..|paths| - 1]), p, m.Declared(p))
  }

  /** The table after k full rounds. */
  function Rounds(m: Modules, k: nat): Table {
    if k == 0 then DeclaredTable(m, m.paths) else PathsStep(m, Rounds(m, k - 1), m.paths)
  }

  /** A round that changes nothing is repeated by every later one. */
  lemma {:induction false} SettledRounds(m: Modules, j: nat, k: nat)
    requires j <= k && Rounds(m, j + 1) == Rounds(m, j)
    ensures Rounds(m, k) == Rounds(m, j)
  {
    if j < k { SettledRounds(m, j, k - 1); }
  }

  // ----- What one step keeps and reaches -----

  lemma AddOneFacts(t: Table, p: Path, s: Surface)
    requires TableOk(t)
    ensures TableOk(AddOne(t, p, s)) && Extends(t, AddOne(t, p, s)) && Has(AddOne(t, p, s), p, s)
    ensures forall q, x :: Has(AddOne(t, p, s), q, x) ==> Has(t, q, x) || (q == p && x == s)
  {}

  lemma HopIsDerivable(m: Modules, p: Path, s: Surface, target: Path, t: Surface)
    requires p in m.paths && Derivable(m, target, t) && Hop(m, p, s, target, t)
    ensures Derivable(m, p, s)
  {
    var k: nat :| Within(m, k, target, t);
    assert Within(m, k + 1, p, s);
  }

  /** What a file exports: what it declares and what its re-exports take, under the names they give it. */
  lemma DerivableExactly(m: Modules, p: Path, s: Surface)
    ensures Derivable(m, p, s) <==>
              && p in m.paths
              && (|| s in m.Declared(p)
                  || exists l, b, t ::
                       && l in m.Links(p) && b in l.bindings && Derivable(m, l.target, t)
                       && (b.imported == "*" || t.name == b.imported)
                       && (b.imported == "*" && b.exported == "*" ==> t.name != "default")
                       && s.nodeId == t.nodeId
                       && s.name == if b.exported == "" || b.exported == "*" then t.name else b.exported)
  {
    if Derivable(m, p, s) {
      var k: nat :| Within(m, k, p, s);
      LastHop(m, k, p, s);
    }
    if p in m.paths && s in m.Declared(p) { assert Within(m, 0, p, s); }
    if l, b, t :|
      && p in m.paths && l in m.Links(p) && b in l.bindings && Derivable(m, l.target, t)
      && (b.imported == "*" || t.name == b.imported)
      && (b.imported == "*" && b.exported == "*" ==> t.name != "default")
      && s.nodeId == t.nodeId && s.name == if b.exported == "" || b.exported == "*" then t.name else b.exported
    {
      assert Matches(b, t) && s == Exported(b, t);
      assert Hop(m, p, s, l.target, t);
      HopIsDerivable(m, p, s, l.target, t);
    }
  }

  /** A derived surface is declared, or its last re-export takes a derivable one. */
  lemma {:induction false} LastHop(m: Modules, k: nat, p: Path, s: Surface)
    requires Within(m, k, p, s)
    ensures p in m.paths
    ensures s in m.Declared(p) || exists target, t :: Derivable(m, target, t) && Hop(m, p, s, target, t)
  {
    if k > 0 {
      if Within(m, k - 1, p, s) {
        LastHop(m, k - 1, p, s);
      } else {
        var target, t :| Within(m, k - 1, target, t) && Hop(m, p, s, target, t);
        assert Derivable(m, target, t);
      }
    }
  }

  /** A file whose only bindings are `export *` and which declares no default export has none. */
  lemma StarLeavesOutDefault(m: Modules, p: Path, k: nat, s: Surface)
    requires forall l, b :: l in m.Links(p) && b in l.bindings ==> b.imported == "*" && b.exported == "*"
    requires forall d :: d in m.Declared(p) ==> d.name != "default"
    ensures Derivable(m, p, s) ==> s.name != "default"
    ensures Has(Rounds(m, k), p, s) ==> s.name != "default"
  {
    hide Derivable, Rounds;
    DerivableExactly(m, p, s);
    RoundsFacts(m, k);
  }

  lemma AddDerivable(m: Modules, t: Table, p: Path, s: Surface)
    requires Sound(m, t) && Derivable(m, p, s)
    ensures Sound(m, AddOne(t, p, s)) && Extends(t, AddOne(t, p, s)) && Has(AddOne(t, p, s), p, s)
  {
    hide Derivable, AddOne, TableOk;
    AddOneFacts(t, p, s);
  }

  /** Everything binding b takes from `target` in `from` is exposed by p in `t`. */
  ghost predicate Applied(from: Table, t: Table, p: Path, target: Path, b: Binding) {
    forall x :: Has(from, target, x) && Matches(b, x) ==> Has(t, p, Exported(b, x))
  }

  lemma AppliedStays(from: Table, from': Table, t: Table, t': Table, p: Path, target: Path, b: Binding)
    requires Applied(from, t, p, target, b) && Extends(from', from) && Extends(t, t')
    ensures Applied(from', t', p, target, b)
  {}

  lemma {:induction false} AddMatchingFacts(m: Modules, start: Table, p: Path, l: Link, b: Binding, list: seq<Surface>)
    requires Sound(m, start) && p in m.paths && l in m.Links(p) && b in l.bindings
    requires forall x :: x in list ==> Has(start, l.target, x)
    ensures Sound(m, AddMatching(start, p, b, list)) && Extends(start, AddMatching(start, p, b, list))
    ensures forall x :: x in list && Matches(b, x) ==> Has(AddMatching(start, p, b, list), p, Exported(b, x))
  {
    hide Derivable, AddOne, TableOk;
    if list != [] {
      var init, x := list[..|list| - 1], list[|list| - 1];
      AddMatchingFacts(m, start, p, l, b, init);
      assert forall y :: y in list ==> y in init || y == x;
      if Matches(b, x) {
        assert Hop(m, p, Exported(b, x), l.target, x);
        assert Has(start, l.target, x);
        HopIsDerivable(m, p, Exported(b, x), l.target, x);
        AddDerivable(m, AddMatching(start, p, b, init), p, Exported(b, x));
      }
    }
  }

  lemma {:induction false} BindingsStepFacts(m: Modules, start: Table, p: Path, l: Link, bindings: seq<Binding>)
    requires Sound(m, start) && p in m.paths && l in m.Links(p) && forall b :: b in bindings ==> b in l.bindings
    ensures Sound(m, BindingsStep(start, p, l.target, bindings))
    ensures Extends(start, BindingsStep(start, p, l.target, bindings))
    ensures forall b :: b in bindings ==> Applied(start, BindingsStep(start, p, l.target, bindings), p, l.target, b)
  {
    hide Sound, AddMatching;
    if bindings != [] {
      var init, last := bindings[..|bindings| - 1], bindings[|bindings| - 1];
      BindingsStepFacts(m, start, p, l, init);
      var before, t := BindingsStep(start, p, l.target, init), BindingsStep(start, p, l.target, bindings);
      AddMatchingFacts(m, before, p, l, last, SurfacesOf(before, l.target));
      forall b | b in bindings ensures Applied(start, t, p, l.target, b) {
        if b == last {
          AppliedStays(before, start, t, t, p, l.target, b);
        } else {
          AppliedStays(start, start, before, t, p, l.target, b);
        }
      }
    }
  }

  lemma {:induction false} LinksStepFacts(m: Modules, start: Table, p: Path, links: seq<Link>)
    requires Sound(m, start) && p in m.paths && forall l :: l in links ==> l in m.Links(p)
    ensures Sound(m, LinksStep(start, p, links)) && Extends(start, LinksStep(start, p, links))
    ensures forall l, b :: l in links && b in l.bindings ==> Applied(start, LinksStep(start, p, links), p, l.target, b)
  {
    hide Sound, Applied, BindingsStep;
    if links != [] {
      var init, last := links[..|links| - 1], links[|links| - 1];
      LinksStepFacts(m, start, p, init);
      var before, t := LinksStep(start, p, init), LinksStep(start, p, links);
      BindingsStepFacts(m, before, p, last, last.bindings);
      forall l, b | l in links && b in l.bindings ensures Applied(start, t, p, l.target, b) {
        if l == last {
          AppliedStays(before, start, t, t, p, l.target, b);
        } else {
          AppliedStays(start, start, before, t, p, l.target, b);
        }
      }
    }
  }

  /** p takes everything its links offer in `from`. */
  ghost predicate AppliedAll(m: Modules, from: Table, t: Table, p: Path) {
    forall l, b :: l in m.Links(p) && b in l.bindings ==> Applied(from, t, p, l.target, b)
  }

  lemma AppliedAllStays(m: Modules, from: Table, from': Table, t: Table, t': Table, p: Path)
    requires AppliedAll(m, from, t, p) && Extends(from', from) && Extends(t, t')
    ensures AppliedAll(m, from', t', p)
  {
    forall l, b | l in m.Links(p) && b in l.bindings ensures Applied(from', t', p, l.target, b) {
      AppliedStays(from, from', t, t', p, l.target, b);
    }
  }

  lemma {:induction false} PathsStepFacts(m: Modules, start: Table, paths: seq<Path>)
    requires Sound(m, start) && forall p :: p in paths ==> p in m.paths
    ensures Sound(m, PathsStep(m, start, paths)) && Extends(start, PathsStep(m, start, paths))
    ensures forall p :: p in paths ==> AppliedAll(m, start, PathsStep(m, start, paths), p)
  {
    hide Sound, AppliedAll, LinksStep;
    if paths != [] {
      var init, last := paths[..|paths| - 1], paths[|paths| - 1];
      PathsStepFacts(m, start, init);
      var before, t := PathsStep(m, start, init), PathsStep(m, start, paths);
      LinksStepFacts(m, before, last, m.Links(last));
      assert AppliedAll(m, before, t, last) by { LinksTaken(m, before, t, last); }
      forall p | p in paths ensures AppliedAll(m, start, t, p) {
        if p == last {
          AppliedAllStays(m, before, start, t, t, p);
        } else {
          AppliedAllStays(m, start, start, before, t, p);
        }
      }
    }
  }

  /** Within a round a file sees what the files before it have just gained. */
  lemma RoundFollowsOrder(m: Modules, start: Table, i: nat)
    requires Sound(m, start) && i < |m.paths|
    ensures AppliedAll(m, PathsStep(m, start, m.paths[..i]), PathsStep(m, start, m.paths[..i + 1]), m.paths[i])
  {
    hide Sound, LinksStep, Applied;
    var p := m.paths[i];
    assert m.paths[..i + 1][..i] == m.paths[..i];
    PathsStepFacts(m, start, m.paths[..i]);
    LinksStepFacts(m, PathsStep(m, start, m.paths[..i]), p, m.Links(p));
  }

  lemma LinksTaken(m: Modules, from: Table, t: Table, p: Path)
    requires forall l, b :: l in m.Links(p) && b in l.bindings ==> Applied(from, t, p, l.target, b)
    ensures AppliedAll(m, from, t, p)
  {}

  ghost predicate Covers(m: Modules, t: Table, k: nat) {
    forall p, s :: Within(m, k, p, s) ==> Has(t, p, s)
  }

  /** A round takes the table one hop further. */
  lemma RoundCovers(m: Modules, t: Table, t': Table, k: nat)
    requires Covers(m, t, k) && Extends(t, t') && forall p :: p in m.paths ==> AppliedAll(m, t, t', p)
    ensures Covers(m, t', k + 1)
  {
    forall p, s | Within(m, k + 1, p, s) ensures Has(t', p, s) {
      if !Within(m, k, p, s) {
        var target, x :| Within(m, k, target, x) && Hop(m, p, s, target, x);
        var l, b :| l in m.Links(p) && b in l.bindings && l.target == target && Matches(b, x) && s == Exported(b, x);
        assert Applied(t, t', p, l.target, b);
      }
    }
  }

  lemma DeclaredIsDerivable(m: Modules, p: Path, s: Surface)
    requires p in m.paths && s in m.Declared(p)
    ensures Derivable(m, p, s)
  {
    assert Within(m, 0, p, s);
  }

  lemma {:induction false} AddAllFacts(m: Modules, start: Table, p: Path, list: seq<Surface>)
    requires Sound(m, start) && p in m.paths && forall s :: s in list ==> s in m.Declared(p)
    ensures Sound(m, AddAll(start, p, list)) && Extends(start, AddAll(start, p, list))
    ensures forall s :: s in list ==> Has(AddAll(start, p, list), p, s)
  {
    hide Sound, Derivable, AddOne;
    if list != [] {
      var init, x := list[..|list| - 1], list[|list| - 1];
      AddAllFacts(m, start, p, init);
      assert forall s :: s in list ==> s in init || s == x;
      DeclaredIsDerivable(m, p, x);
      AddDerivable(m, AddAll(start, p, init), p, x);
    }
  }

  lemma {:induction false} DeclaredTableFacts(m: Modules, paths: seq<Path>)
    requires forall p :: p in paths ==> p in m.paths
    ensures Sound(m, DeclaredTable(m, paths))
    ensures forall p, s :: p in paths && s in m.Declared(p) ==> Has(DeclaredTable(m, paths), p, s)
  {
    hide Derivable, AddAll;
    if paths != [] {
      var init, last := paths[..|paths| - 1], paths[|paths| - 1];
      DeclaredTableFacts(m, init);
      AddAllFacts(m, DeclaredTable(m, init), last, m.Declared(last));
      assert forall p :: p in paths ==> p in init || p == last;
    }
  }

  /** k rounds stay within what is derivable, keep lists duplicate-free and cover chains of k hops. */
  lemma {:induction false} RoundsFacts(m: Modules, k: nat)
    ensures Sound(m, Rounds(m, k)) && Covers(m, Rounds(m, k), k)
  {
    hide Sound, PathsStep, AppliedAll;
    if k == 0 {
      DeclaredTableFacts(m, m.paths);
    } else {
      RoundsFacts(m, k - 1);
      PathsStepFacts(m, Rounds(m, k - 1), m.paths);
      RoundCovers(m, Rounds(m, k - 1), Rounds(m, k), k - 1);
    }
  }

  // ----- When the iteration is complete -----

  /** Exactly the derivable surfaces. */
  ghost predicate Complete(m: Modules, t: Table) {
    forall p, s :: Derivable(m, p, s) <==> Has(t, p, s)
  }

  lemma {:induction false} AddMatchingPresent(t: Table, p: Path, b: Binding, list: seq<Surface>)
    requires forall x :: x in list && Matches(b, x) ==> Has(t, p, Exported(b, x))
    ensures AddMatching(t, p, b, list) == t
  {
    if list != [] { AddMatchingPresent(t, p, b, list[..|list| - 1]); }
  }

  lemma {:induction false} BindingsPresent(t: Table, p: Path, target: Path, bindings: seq<Binding>)
    requires forall b :: b in bindings ==> Applied(t, t, p, target, b)
    ensures BindingsStep(t, p, target, bindings) == t
  {
    if bindings != [] {
      BindingsPresent(t, p, target, bindings[..|bindings| - 1]);
      assert Applied(t, t, p, target, bindings[|bindings| - 1]);
      AddMatchingPresent(t, p, bindings[|bindings| - 1], SurfacesOf(t, target));
    }
  }

  lemma {:induction false} LinksPresent(t: Table, p: Path, links: seq<Link>)
    requires forall l, b :: l in links && b in l.bindings ==> Applied(t, t, p, l.target, b)
    ensures LinksStep(t, p, links) == t
  {
    hide Applied;
    if links != [] {
      LinksPresent(t, p, links[..|links| - 1]);
      BindingsPresent(t, p, links[|links| - 1].target, links[|links| - 1].bindings);
    }
  }

  lemma {:induction false} PathsPresent(m: Modules, t: Table, paths: seq<Path>)
    requires forall p :: p in paths ==> AppliedAll(m, t, t, p)
    ensures PathsStep(m, t, paths) == t
  {
    hide Applied;
    if paths != [] {
      PathsPresent(m, t, paths[..|paths| - 1]);
      assert AppliedAll(m, t, t, paths[|paths| - 1]);
      LinksPresent(t, paths[|paths| - 1], m.Links(paths[|paths| - 1]));
    }
  }

  /** A round that adds nothing has reached everything derivable. */
  lemma {:induction false} UnchangedIsClosed(m: Modules, t: Table, k: nat)
    requires Covers(m, t, 0) && forall p :: p in m.paths ==> AppliedAll(m, t, t, p)
    ensures Covers(m, t, k)
  {
    if k > 0 {
      UnchangedIsClosed(m, t, k - 1);
      RoundCovers(m, t, t, k - 1);
    }
  }

  lemma CoversStart(m: Modules, t: Table, k: nat)
    requires Covers(m, t, k)
    ensures Covers(m, t, 0)
  {
    forall p, s | Within(m, 0, p, s) ensures Has(t, p, s) { WithinGrows(m, 0, k, p, s); }
  }

  /** The table after k rounds is complete exactly when one more round would add nothing. */
  lemma CompleteExactly(m: Modules, k: nat)
    ensures Complete(m, Rounds(m, k)) <==> Rounds(m, k + 1) == Rounds(m, k)
  {
    hide PathsStep, AppliedAll, DeclaredTable, Within;
    var t := Rounds(m, k);
    RoundsFacts(m, k);
    if Rounds(m, k + 1) == t {
      PathsStepFacts(m, t, m.paths);
      CoversStart(m, t, k);
      forall p, s | Derivable(m, p, s) ensures Has(t, p, s) {
        var j: nat :| Within(m, j, p, s);
        UnchangedIsClosed(m, t, j);
      }
    }
    if Complete(m, t) {
      forall p | p in m.paths ensures AppliedAll(m, t, t, p) { CompleteIsApplied(m, t, p); }
      PathsPresent(m, t, m.paths);
    }
  }

  lemma CompleteIsApplied(m: Modules, t: Table, p: Path)
    requires Complete(m, t) && p in m.paths
    ensures AppliedAll(m, t, t, p)
  {
    hide Derivable;
    forall l, b, x | l in m.Links(p) && b in l.bindings && Has(t, l.target, x) && Matches(b, x)
      ensures Has(t, p, Exported(b, x))
    {
      assert Hop(m, p, Exported(b, x), l.target, x);
      HopIsDerivable(m, p, Exported(b, x), l.target, x);
    }
  }

  /** Short chains suffice, so the bounded iteration is complete. */
  lemma ConvergedIsComplete(m: Modules, n: nat)
    requires ConvergesBy(m, n)
    ensures Complete(m, Rounds(m, n))
  {
    hide Rounds, Within;
    RoundsFacts(m, n);
    forall p, s | Derivable(m, p, s) ensures Has(Rounds(m, n), p, s) {
      var k: nat :| Within(m, k, p, s);
    }
  }

  // ----- The loops -----

  method AddSurface(t: Table, p: Path, s: Surface) returns (t': Table, added: bool)
    requires TableOk(t)
    ensures t' == AddOne(t, p, s) && TableOk(t')
    ensures added <==> !Has(t, p, s)
    ensures !added ==> t' == t
  {
    AddOneFacts(t, p, s);
    var seen := if p in t.seen then t.seen[p] else {};
    assert seen == Elements(SurfacesOf(t, p));
    if s in seen { return t, false; }
    return Table(t.surfaces[p := SurfacesOf(t, p) + [s]], t.seen[p := seen + {s}]), true;
  }

  method ApplyBinding(start: Table, p: Path, target: Path, b: Binding) returns (t: Table, changed: bool)
    requires TableOk(start)
    ensures t == AddMatching(start, p, b, SurfacesOf(start, target)) && TableOk(t)
    ensures !changed ==> t == start
  {
    hide AddOne, TableOk;
    t, changed := start, false;
    var matching := SurfacesOf(start, target);   // a copy: what is added meanwhile is not visited
    for i := 0 to |matching|
      invariant TableOk(t) && t == AddMatching(start, p, b, matching[..i])
      invariant !changed ==> t == start
    {
      assert matching[..i + 1][..i] == matching[..i];
      if Matches(b, matching[i]) {
        var added;
        t, added := AddSurface(t, p, Exported(b, matching[i]));
        changed := changed || added;
      }
    }
    assert matching[..|matching|] == matching;
  }

  method ApplyLink(start: Table, p: Path, l: Link) returns (t: Table, changed: bool)
    requires TableOk(start)
    ensures t == BindingsStep(start, p, l.target, l.bindings) && TableOk(t)
    ensures !changed ==> t == start
  {
    hide AddMatching, TableOk;
    t, changed := start, false;
    for i := 0 to |l.bindings|
      invariant TableOk(t) && t == BindingsStep(start, p, l.target, l.bindings[..i])
      invariant !changed ==> t == start
    {
      var more;
      t, more := ApplyBinding(t, p, l.target, l.bindings[i]);
      assert l.bindings[..i + 1][..i] == l.bindings[..i];
      changed := changed || more;
    }
    assert l.bindings[..|l.bindings|] == l.bindings;
  }

  method ApplyPath(m: Modules, start: Table, p: Path) returns (t: Table, changed: bool)
    requires TableOk(start)
    ensures t == LinksStep(start, p, m.Links(p)) && TableOk(t)
    ensures !changed ==> t == start
  {
    hide BindingsStep, TableOk;
    t, changed := start, false;
    var links := m.Links(p);
    for i := 0 to |links|
      invariant TableOk(t) && t == LinksStep(start, p, links[..i])
      invariant !changed ==> t == start
    {
      var more;
      t, more := ApplyLink(t, p, links[i]);
      assert links[..i + 1][..i] == links[..i];
      changed := changed || more;
    }
    assert links[..|links|] == links;
  }

  /** One round over all files, in order; later files already see earlier additions. */
  method Round(m: Modules, start: Table) returns (t: Table, changed: bool)
    requires TableOk(start)
    ensures t == PathsStep(m, start, m.paths) && TableOk(t)
    ensures !changed ==> t == start
  {
    hide LinksStep, TableOk;
    t, changed := start, false;
    for i := 0 to |m.paths|
      invariant TableOk(t) && t == PathsStep(m, start, m.paths[..i])
      invariant !changed ==> t == start
    {
      var more;
      t, more := ApplyPath(m, t, m.paths[i]);
      assert m.paths[..i + 1][..i] == m.paths[..i];
      changed := changed || more;
    }
    assert m.paths[..|m.paths|] == m.paths;
  }

  method AddDeclared(m: Modules, start: Table, p: Path) returns (t: Table)
    requires TableOk(start)
    ensures t == AddAll(start, p, m.Declared(p)) && TableOk(t)
  {
    hide AddOne, TableOk;
    t := start;
    var declared := m.Declared(p);
    for d := 0 to |declared|
      invariant TableOk(t) && t == AddAll(start, p, declared[..d])
    {
      var added;
      t, added := AddSurface(t, p, declared[d]);
      assert declared[..d + 1][..d] == declared[..d];
    }
    assert declared[..|declared|] == declared;
  }

  method DeclaredSurfaces(m: Modules) returns (t: Table)
    ensures t == Rounds(m, 0) && TableOk(t)
  {
    hide AddAll;
    t := Table(map[], map[]);
    for i := 0 to |m.paths|
      invariant TableOk(t) && t == DeclaredTable(m, m.paths[..i])
    {
      t := AddDeclared(m, t, m.paths[i]);
      assert m.paths[..i + 1][..i] == m.paths[..i];
    }
    assert m.paths[..|m.paths|] == m.paths;
  }

  /**
   * The whole iteration. The result is always sound and duplicate-free and covers every chain of
   * at most as many hops as there are files; a run that stopped early found everything derivable.
   */
  method ResolvedSurfaces(m: Modules) returns (surfaces: map<Path, seq<Surface>>, settled: bool)
    ensures surfaces == Rounds(m, |m.paths|).surfaces
    ensures forall p :: p in surfaces ==> Distinct(surfaces[p])
    ensures forall p, s :: p in surfaces && s in surfaces[p] ==> Derivable(m, p, s)
    ensures forall p, s :: Within(m, |m.paths|, p, s) ==> p in surfaces && s in surfaces[p]
    ensures settled || ConvergesBy(m, |m.paths|) ==> Complete(m, Rounds(m, |m.paths|))
  {
    hide Within, PathsStep, DeclaredTable, Complete;
    var t := DeclaredSurfaces(m);
    settled := false;
    var round := 0;
    while round < |m.paths| && !settled
      invariant 0 <= round <= |m.paths|
      invariant TableOk(t) && t == Rounds(m, round)
      invariant settled ==> t == Rounds(m, |m.paths|) && Complete(m, t)
      decreases |m.paths| - round, !settled
    {
      var changed;
      t, changed := Round(m, t);
      if !changed {
        SettledRounds(m, round, |m.paths|);
        CompleteExactly(m, round);
        settled := true;
      } else {
        round := round + 1;
      }
    }
    RoundsFacts(m, |m.paths|);
    forall p, s | Within(m, |m.paths|, p, s) ensures Has(t, p, s) {}
    forall p, s | Has(t, p, s) ensures Derivable(m, p, s) {}
    if ConvergesBy(m, |m.paths|) { ConvergedIsComplete(m, |m.paths|); }
    return t.surfaces, settled;
  }
}
