/** When the round bound of the re-export iteration is enough, and when it is not. */
module ReExportConvergence {
  import opened Common
  import opened ModuleBindings
  import opened ReExports

  ghost predicate ReExportsFrom(m: Modules, p: Path, target: Path) {
    exists l :: l in m.Links(p) && l.target == target
  }

  /** Each file of the walk re-exports from the one before it. */
  ghost predicate IsWalk(m: Modules, w: seq<Path>) {
    && (forall i :: 0 <= i < |w| ==> w[i] in m.paths)
    && (forall i :: 0 <= i < |w| - 1 ==> ReExportsFrom(m, w[i + 1], w[i]))
  }

  /** What p exposes can come back to `target`, which p re-exports from. */
  ghost predicate LeadsTo(m: Modules, p: Path, target: Path) {
    exists w :: IsWalk(m, w) && w != [] && w[0] == p && w[|w| - 1] == target
  }

  predicate KeepsName(b: Binding) {
    b.exported == "" || b.exported == "*" || (b.imported != "*" && b.exported == b.imported)
  }

  /** Re-exports that lie on a cycle keep names; off the cycles they may rename. */
  ghost predicate CyclesKeepNames(m: Modules) {
    forall p, l, b :: l in m.Links(p) && LeadsTo(m, p, l.target) && b in l.bindings ==> KeepsName(b)
  }

  // ----- Shortest chains -----

  /** A chain of hops whose every surface needs exactly as many hops as its place says. */
  ghost predicate IsShortestChain(m: Modules, w: seq<Path>, ss: seq<Surface>) {
    && |w| == |ss|
    && IsWalk(m, w)
    && (forall i :: 0 <= i < |w| ==> Within(m, i, w[i], ss[i]) && (i > 0 ==> !Within(m, i - 1, w[i], ss[i])))
    && (forall i :: 0 <= i < |w| - 1 ==> Hop(m, w[i + 1], ss[i + 1], w[i], ss[i]))
  }

  /** A surface that needs k hops ends a shortest chain through k + 1 files. */
  lemma {:induction false} NewSurfaceHasChain(m: Modules, k: nat, p: Path, s: Surface)
    returns (w: seq<Path>, ss: seq<Surface>)
    requires Within(m, k, p, s) && (k > 0 ==> !Within(m, k - 1, p, s))
    ensures IsShortestChain(m, w, ss) && |w| == k + 1 && w[k] == p && ss[k] == s
    decreases k
  {
    if k == 0 {
      w, ss := [p], [s];
    } else {
      var target, t :| Within(m, k - 1, target, t) && Hop(m, p, s, target, t);
      assert k > 1 ==> !Within(m, k - 2, target, t);
      w, ss := NewSurfaceHasChain(m, k - 1, target, t);
      ChainExtends(m, w, ss, p, s);
      w, ss := w + [p], ss + [s];
    }
  }

  lemma ChainExtends(m: Modules, w: seq<Path>, ss: seq<Surface>, p: Path, s: Surface)
    requires IsShortestChain(m, w, ss) && w != [] && p in m.paths
    requires Within(m, |w|, p, s) && !Within(m, |w| - 1, p, s) && Hop(m, p, s, w[|w| - 1], ss[|w| - 1])
    ensures IsShortestChain(m, w + [p], ss + [s])
  {
    hide Within, Hop, ReExportsFrom;
    var n := |w|;
    HopIsReExport(m, p, s, w[n - 1], ss[n - 1]);
    var w', ss' := w + [p], ss + [s];
    forall i | 0 <= i < n ensures Hop(m, w'[i + 1], ss'[i + 1], w'[i], ss'[i]) && ReExportsFrom(m, w'[i + 1], w'[i]) {
      if i < n - 1 { assert Hop(m, w[i + 1], ss[i + 1], w[i], ss[i]) && ReExportsFrom(m, w[i + 1], w[i]); }
    }
    forall i | 0 <= i < n + 1 ensures Within(m, i, w'[i], ss'[i]) && (i > 0 ==> !Within(m, i - 1, w'[i], ss'[i])) {
      if i < n { assert Within(m, i, w[i], ss[i]) && (i > 0 ==> !Within(m, i - 1, w[i], ss[i])); }
    }
  }

  lemma HopIsReExport(m: Modules, p: Path, s: Surface, target: Path, t: Surface)
    requires Hop(m, p, s, target, t)
    ensures ReExportsFrom(m, p, target)
  {}

  /** A hop along a link that lies on a cycle carries the surface unchanged. */
  lemma CyclicHopKeepsSurface(m: Modules, p: Path, s: Surface, target: Path, t: Surface)
    requires CyclesKeepNames(m) && LeadsTo(m, p, target) && Hop(m, p, s, target, t)
    ensures s == t
  {
    hide LeadsTo;
    var l, b :| l in m.Links(p) && b in l.bindings && l.target == target && Matches(b, t) && s == Exported(b, t);
    assert KeepsName(b);
  }

  /** Between two visits of one file the walk leads from every file on back to the one before it. */
  lemma BetweenVisits(m: Modules, w: seq<Path>, i: nat, j: nat, k: nat)
    requires IsWalk(m, w) && i <= k < j < |w| && w[i] == w[j]
    ensures LeadsTo(m, w[k + 1], w[k])
  {
    hide ReExportsFrom;
    var round := w[k + 1..j + 1] + w[i + 1..k + 1];
    forall x | 0 <= x < |round| ensures round[x] in m.paths {}
    forall x | 0 <= x < |round| - 1 ensures ReExportsFrom(m, round[x + 1], round[x]) {
      var at := if x < j - k - 1 then k + 1 + x else i + x - (j - k - 1);
      assert ReExportsFrom(m, w[at + 1], w[at]);
    }
    assert round[0] == w[k + 1] && round[|round| - 1] == w[k];
  }

  /** So a chain that comes back to a file carries the same surface there. */
  lemma {:induction false} SameSurface(m: Modules, w: seq<Path>, ss: seq<Surface>, i: nat, j: nat, k: nat)
    requires CyclesKeepNames(m) && IsShortestChain(m, w, ss) && i <= k <= j < |w| && w[i] == w[j]
    ensures ss[k] == ss[i]
    decreases k
  {
    hide CyclesKeepNames, LeadsTo, Within, Hop;
    if k > i {
      SameSurface(m, w, ss, i, j, k - 1);
      BetweenVisits(m, w, i, j, k - 1);
      assert Hop(m, w[k - 1 + 1], ss[k - 1 + 1], w[k - 1], ss[k - 1]);
      CyclicHopKeepsSurface(m, w[k], ss[k], w[k - 1], ss[k - 1]);
    }
  }

  /** A shortest chain never comes back to a file. */
  lemma ShortestChainIsDistinct(m: Modules, w: seq<Path>, ss: seq<Surface>)
    requires CyclesKeepNames(m) && IsShortestChain(m, w, ss)
    ensures Distinct(w) && Elements(w) <= Elements(m.paths)
  {
    hide CyclesKeepNames, Within, Hop;
    forall i, j | 0 <= i < j < |w| ensures w[i] != w[j] {
      if w[i] == w[j] {
        SameSurface(m, w, ss, i, j, j);
        WithinGrows(m, i, j - 1, w[i], ss[i]);
        assert false;
      }
    }
  }

  lemma ChainsAreShort(m: Modules, w: seq<Path>, ss: seq<Surface>)
    requires Distinct(m.paths) && CyclesKeepNames(m) && IsShortestChain(m, w, ss)
    ensures |w| <= |m.paths|
  {
    hide IsShortestChain, CyclesKeepNames, Distinct;
    ShortestChainIsDistinct(m, w, ss);
    DistinctCardinality(w);
    DistinctCardinality(m.paths);
    SubsetCardinality(Elements(w), Elements(m.paths));
  }

  // ----- Convergence -----

  lemma {:induction false} CyclesKeepNamesStage(m: Modules, k: nat, p: Path, s: Surface)
    requires Distinct(m.paths) && CyclesKeepNames(m) && Within(m, k, p, s)
    ensures Within(m, |m.paths|, p, s)
    decreases k
  {
    hide CyclesKeepNames, Distinct;
    if k <= |m.paths| {
      WithinGrows(m, k, |m.paths|, p, s);
    } else if Within(m, k - 1, p, s) {
      CyclesKeepNamesStage(m, k - 1, p, s);
    } else {
      var w, ss := NewSurfaceHasChain(m, k, p, s);
      ChainsAreShort(m, w, ss);
      assert false;
    }
  }

  /**
   * When re-exports on cycles keep names, no surface needs as many hops as there are files: the
   * round bound suffices. A caller can check this on the re-export graph alone.
   */
  lemma CyclesKeepNamesConverge(m: Modules)
    requires Distinct(m.paths) && CyclesKeepNames(m)
    ensures ConvergesBy(m, |m.paths|) && Complete(m, Rounds(m, |m.paths|))
  {
    hide CyclesKeepNames, Distinct, Within, Rounds, Complete;
    forall k: nat, p, s | Within(m, k, p, s) ensures Within(m, |m.paths|, p, s) { CyclesKeepNamesStage(m, k, p, s); }
    ConvergedIsComplete(m, |m.paths|);
  }

  ghost predicate Acyclic(m: Modules) {
    forall w :: IsWalk(m, w) && |w| >= 2 ==> w[0] != w[|w| - 1]
  }

  lemma AcyclicConverges(m: Modules)
    requires Distinct(m.paths) && Acyclic(m)
    ensures ConvergesBy(m, |m.paths|) && Complete(m, Rounds(m, |m.paths|))
  {
    forall p, l | l in m.Links(p) ensures !LeadsTo(m, p, l.target) { NoLinkBack(m, p, l); }
    hide LeadsTo, Acyclic;
    CyclesKeepNamesConverge(m);
  }

  lemma NoLinkBack(m: Modules, p: Path, l: Link)
    requires Acyclic(m) && l in m.Links(p)
    ensures !LeadsTo(m, p, l.target)
  {
    forall w | IsWalk(m, w) && w != [] && w[0] == p ensures w[|w| - 1] != l.target {
      if w[|w| - 1] == l.target { LinkClosesWalk(m, w, p, l); }
    }
  }

  lemma LinkClosesWalk(m: Modules, w: seq<Path>, p: Path, l: Link)
    requires IsWalk(m, w) && w != [] && p in m.paths && l in m.Links(p) && w[|w| - 1] == l.target
    ensures IsWalk(m, w + [p]) && (w + [p])[|w|] == p
  {
    assert ReExportsFrom(m, p, l.target);
    hide ReExportsFrom;
    forall i | 0 <= i < |w| ensures ReExportsFrom(m, (w + [p])[i + 1], (w + [p])[i]) {
      if i < |w| - 1 { assert ReExportsFrom(m, w[i + 1], w[i]); }
    }
  }

  ghost predicate KeepsNames(m: Modules) {
    forall p, l, b :: l in m.Links(p) && b in l.bindings ==> KeepsName(b)
  }

  lemma KeptNamesConverge(m: Modules)
    requires Distinct(m.paths) && KeepsNames(m)
    ensures ConvergesBy(m, |m.paths|) && Complete(m, Rounds(m, |m.paths|))
  {
    CyclesKeepNamesConverge(m);
  }

  // ----- A cycle that renames -----

  /** One file that re-exports from itself under new names. */
  const RENAMING_CYCLE := Modules(
    ["a.ts"],
    map["a.ts" := [Surface("n", "x")]],
    map["a.ts" := [Link("a.ts", [Binding("y", "z", ""), Binding("x", "y", "")])]])

  lemma HopBy(m: Modules, p: Path, t: Surface, l: Link, b: Binding)
    requires l in m.Links(p) && b in l.bindings && Matches(b, t)
    ensures Hop(m, p, Exported(b, t), l.target, t)
  {}

  /** The second name is derivable in two hops. */
  lemma RenamingCycleDerives()
    ensures Distinct(RENAMING_CYCLE.paths)
    ensures Derivable(RENAMING_CYCLE, "a.ts", Surface("n", "z"))
  {
    var m, x, y, z := RENAMING_CYCLE, Surface("n", "x"), Surface("n", "y"), Surface("n", "z");
    var l := m.Links("a.ts")[0];
    var yz, xy := l.bindings[0], l.bindings[1];
    HopBy(m, "a.ts", x, l, xy);
    HopBy(m, "a.ts", y, l, yz);
    assert Within(m, 0, "a.ts", x);
    assert Within(m, 1, "a.ts", y);
    assert Within(m, 2, "a.ts", z);
  }

  /** What the single round the one file is given produces. */
  lemma RenamingCycleRound()
    ensures Rounds(RENAMING_CYCLE, 1).surfaces == map["a.ts" := [Surface("n", "x"), Surface("n", "y")]]
  {
    var m, x, y := RENAMING_CYCLE, Surface("n", "x"), Surface("n", "y");
    var yz, xy := Binding("y", "z", ""), Binding("x", "y", "");
    var t0 := Table(map["a.ts" := [x]], map["a.ts" := {x}]);
    var t1 := Table(map["a.ts" := [x, y]], map["a.ts" := {x, y}]);
    assert Elements<Surface>([]) == {} && Elements([x]) == {x};
    assert [] + [x] == [x] && [x] + [y] == [x, y] && {} + {x} == {x} && {x} + {y} == {x, y};
    assert AddOne(Table(map[], map[]), "a.ts", x) == t0 by {
      assert SurfacesOf(Table(map[], map[]), "a.ts") == [];
      assert x !in SurfacesOf(Table(map[], map[]), "a.ts");
      assert AddOne(Table(map[], map[]), "a.ts", x).surfaces == t0.surfaces;
      assert AddOne(Table(map[], map[]), "a.ts", x).seen == t0.seen;
    }
    assert AddAll(Table(map[], map[]), "a.ts", [x]) == t0;
    assert DeclaredTable(m, ["a.ts"]) == t0;
    assert x.name != "y" && !Matches(yz, x) && Matches(xy, x);
    assert AddMatching(t0, "a.ts", yz, [x]) == t0;
    assert x.name[0] != y.name[0] && y !in [x];
    assert AddOne(t0, "a.ts", y).surfaces == t1.surfaces;
    assert AddOne(t0, "a.ts", y).seen == t1.seen;
    assert AddMatching(t0, "a.ts", xy, [x]) == t1;
    assert [yz, xy][..1] == [yz];
    assert BindingsStep(t0, "a.ts", "a.ts", [yz]) == t0;
    assert BindingsStep(t0, "a.ts", "a.ts", [yz, xy]) == t1;
    assert LinksStep(t0, "a.ts", m.Links("a.ts")) == t1;
    assert PathsStep(m, t0, ["a.ts"]) == t1;
    assert Rounds(m, 0) == t0;
  }

  /** So the round bound loses a derivable surface when a cycle renames. */
  lemma RenamingCycleIsCutShort()
    ensures Distinct(RENAMING_CYCLE.paths) && Derivable(RENAMING_CYCLE, "a.ts", Surface("n", "z"))
    ensures !Has(Rounds(RENAMING_CYCLE, |RENAMING_CYCLE.paths|), "a.ts", Surface("n", "z"))
  {
    RenamingCycleDerives();
    RenamingCycleRound();
  }

  /** A file that re-exports one name from itself under another. */
  const HARMLESS_CYCLE := Modules(
    ["a.ts"],
    map["a.ts" := [Surface("n", "x")]],
    map["a.ts" := [Link("a.ts", [Binding("x", "y", "")])]])

  lemma HarmlessLink(p: Path, l: Link, b: Binding)
    requires l in HARMLESS_CYCLE.Links(p) && b in l.bindings
    ensures p == "a.ts" && b == Binding("x", "y", "")
  {
    assert l == Link("a.ts", [Binding("x", "y", "")]);
  }

  /** Nothing is derivable there beyond the name and its copy. */
  lemma {:induction false} HarmlessCycleStage(k: nat, p: Path, s: Surface)
    requires Within(HARMLESS_CYCLE, k, p, s)
    ensures p == "a.ts" && (s == Surface("n", "x") || s == Surface("n", "y"))
    decreases k
  {
    var m := HARMLESS_CYCLE;
    if k > 0 {
      if Within(m, k - 1, p, s) {
        HarmlessCycleStage(k - 1, p, s);
      } else {
        var target, t :| Within(m, k - 1, target, t) && Hop(m, p, s, target, t);
        var l, b :| l in m.Links(p) && b in l.bindings && l.target == target && Matches(b, t) && s == Exported(b, t);
        HarmlessCycleStage(k - 1, target, t);
        HarmlessLink(p, l, b);
      }
    }
  }

  /** Keeping names on cycles is not necessary: this cycle renames and the bound still suffices. */
  lemma RenamingCycleMayConverge()
    ensures Distinct(HARMLESS_CYCLE.paths) && !CyclesKeepNames(HARMLESS_CYCLE)
    ensures ConvergesBy(HARMLESS_CYCLE, |HARMLESS_CYCLE.paths|)
  {
    var m, x, y := HARMLESS_CYCLE, Surface("n", "x"), Surface("n", "y");
    var l := m.Links("a.ts")[0];
    var b := l.bindings[0];
    assert IsWalk(m, ["a.ts"]);
    assert LeadsTo(m, "a.ts", l.target);
    assert b.exported[0] != b.imported[0] && !KeepsName(b);
    HopBy(m, "a.ts", x, l, b);
    assert Within(m, 0, "a.ts", x);
    assert Within(m, 1, "a.ts", x) && Within(m, 1, "a.ts", y);
    hide Within, LeadsTo;
    forall k: nat, p, s | Within(m, k, p, s) ensures Within(m, 1, p, s) { HarmlessCycleStage(k, p, s); }
  }
}
