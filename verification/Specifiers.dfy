/**
 * The constant folding of dynamic import expressions shared by the TypeScript and JavaScript
 * extractors: which module specifiers `import(…)` may name.
 */
module Specifiers {
  import opened Common

  /** The expression forms the analysis tells apart; a missing grammar field is None. */
  datatype Expr =
    | Str(unquoted: Option<string>)
    | Paren(children: seq<Expr>)
    | Ternary(consequence: Option<Expr>, alternative: Option<Expr>)
    | Binary(left: Option<Expr>, between: string, right: Option<Expr>)
    | Other

  datatype Diagnostic = NoDiagnostic | Unsupported | Unbounded | TooMany

  const MAX_CANDIDATES := 100

  // ----- Meaning, independently of the analysis -----

  /** The offending nodes in preorder; an incomplete node hides what is below it. */
  function Problems(e: Expr): seq<Diagnostic> {
    match e
    case Str(v) => if v.Some? then [] else [Unsupported]
    case Paren(children) => if |children| == 1 then Problems(children[0]) else [Unsupported]
    case Ternary(c, a) => if c.Some? && a.Some? then Problems(c.value) + Problems(a.value) else [Unsupported]
    case Binary(l, between, r) =>
      if l.Some? && r.Some? && between == "+" then Problems(l.value) + Problems(r.value) else [Unbounded]
    case Other => [Unbounded]
  }

  ghost predicate Bounded(e: Expr) { Problems(e) == [] }

  datatype Side = First | Second
  type Position = seq<Side>

  /** The positions of the conditions that come out true. */
  type Choice = iset<Position>

  ghost function Below(choice: Choice, side: Side): Choice {
    iset p: Position | [side] + p in choice
  }

  /** What the expression evaluates to when its conditions come out as chosen. */
  ghost function Value(e: Expr, choice: Choice): string
    requires Bounded(e)
  {
    match e
    case Str(v) => v.value
    case Paren(children) => Value(children[0], choice)
    case Ternary(c, a) =>
      if [] in choice then Value(c.value, Below(choice, First)) else Value(a.value, Below(choice, Second))
    case Binary(l, _, r) => Value(l.value, Below(choice, First)) + Value(r.value, Below(choice, Second))
  }

  ghost predicate Possible(e: Expr, v: string)
    requires Bounded(e)
  {
    exists choice: Choice :: Value(e, choice) == v
  }

  // ----- The analysis -----

  function PrefixAll(l: string, rs: seq<string>): seq<string> {
    if rs == [] then [] else PrefixAll(l, rs[..|rs| - 1]) + [l + rs[|rs| - 1]]
  }

  /** Every left part with every right part, left part by left part. */
  function Products(ls: seq<string>, rs: seq<string>): seq<string> {
    if ls == [] then [] else Products(ls[..|ls| - 1], rs) + PrefixAll(ls[|ls| - 1], rs)
  }

  datatype Found = Found(targets: seq<string>, dynamic: bool)

  function Candidates(e: Expr): Result<Found, Diagnostic> {
    match e
    case Str(v) => if v.Some? then Ok(Found([v.value], false)) else Err(Unsupported)
    case Paren(children) => if |children| == 1 then Candidates(children[0]) else Err(Unsupported)
    case Ternary(c, a) =>
      if c.None? || a.None? then Err(Unsupported) else
      (match Candidates(c.value)
       case Err(d) => Err(d)
       case Ok(l) =>
         (match Candidates(a.value)
          case Err(d) => Err(d)
          case Ok(r) => Ok(Found(FirstOccurrences(l.targets + r.targets), true))))
    case Binary(l, between, r) =>
      if l.None? || r.None? || between != "+" then Err(Unbounded) else
      (match Candidates(l.value)
       case Err(d) => Err(d)
       case Ok(lf) =>
         (match Candidates(r.value)
          case Err(d) => Err(d)
          case Ok(rf) =>
            var all := Products(lf.targets, rf.targets);
            Ok(Found(FirstOccurrences(all), |all| > 1))))
    case Other => Err(Unbounded)
  }

  method Concatenations(ls: seq<string>, rs: seq<string>) returns (all: seq<string>)
    ensures all == Products(ls, rs)
  {
    all := [];
    for i := 0 to |ls|
      invariant all == Products(ls[..i], rs)
    {
      ghost var before := all;
      for j := 0 to |rs|
        invariant all == before + PrefixAll(ls[i], rs[..j])
      {
        assert rs[..j + 1][..j] == rs[..j];
        all := all + [ls[i] + rs[j]];
      }
      assert rs[..|rs|] == rs;
      assert ls[..i + 1][..i] == ls[..i];
    }
    assert ls[..|ls|] == ls;
  }

  method StringSpecifierCandidates(e: Expr) returns (r: Result<Found, Diagnostic>)
    ensures r == Candidates(e)
  {
    match e {
      case Str(v) => return if v.Some? then Ok(Found([v.value], false)) else Err(Unsupported);
      case Paren(children) =>
        if |children| != 1 { return Err(Unsupported); }
        r := StringSpecifierCandidates(children[0]);
      case Ternary(c, a) =>
        if c.None? || a.None? { return Err(Unsupported); }
        var left := StringSpecifierCandidates(c.value);
        if left.Err? { return Err(left.error); }
        var right := StringSpecifierCandidates(a.value);
        if right.Err? { return Err(right.error); }
        var unique := UniqueInOrder(left.value.targets + right.value.targets);
        return Ok(Found(unique, true));
      case Binary(l, between, rt) =>
        if l.None? || rt.None? || between != "+" { return Err(Unbounded); }
        var left := StringSpecifierCandidates(l.value);
        if left.Err? { return Err(left.error); }
        var right := StringSpecifierCandidates(rt.value);
        if right.Err? { return Err(right.error); }
        var all := Concatenations(left.value.targets, right.value.targets);
        var unique := UniqueInOrder(all);
        return Ok(Found(unique, |all| > 1));
      case Other => return Err(Unbounded);
    }
  }

  // ----- Failure: the first offending node in preorder -----

  lemma {:induction false} FailsAtFirstProblem(e: Expr)
    ensures Candidates(e).Ok? <==> Bounded(e)
    ensures Problems(e) != [] ==> Candidates(e) == Err(Problems(e)[0])
    decreases e
  {
    match e {
      case Paren(children) => if |children| == 1 { FailsAtFirstProblem(children[0]); }
      case Ternary(c, a) =>
        if c.Some? && a.Some? { FailsAtFirstProblem(c.value); FailsAtFirstProblem(a.value); }
      case Binary(l, between, r) =>
        if l.Some? && r.Some? { FailsAtFirstProblem(l.value); FailsAtFirstProblem(r.value); }
      case _ =>
    }
  }

  // ----- Success: exactly the possible values -----

  lemma {:induction false} PrefixAllElements(l: string, rs: seq<string>, v: string)
    ensures v in PrefixAll(l, rs) <==> exists r :: r in rs && v == l + r
  {
    if rs != [] {
      var init, last := rs[..|rs| - 1], rs[|rs| - 1];
      PrefixAllElements(l, init, v);
      assert rs == init + [last];
    }
  }

  ghost predicate IsProduct(ls: seq<string>, rs: seq<string>, v: string) {
    exists l, r :: l in ls && r in rs && v == l + r
  }

  lemma {:induction false} ProductsElements(ls: seq<string>, rs: seq<string>, v: string)
    ensures v in Products(ls, rs) <==> IsProduct(ls, rs, v)
  {
    if ls != [] {
      var init, last := ls[..|ls| - 1], ls[|ls| - 1];
      ProductsElements(init, rs, v);
      PrefixAllElements(last, rs, v);
      if IsProduct(ls, rs, v) {
        var l, r :| l in ls && r in rs && v == l + r;
        if l != last { assert l in init; assert IsProduct(init, rs, v); }
      }
      if IsProduct(init, rs, v) {
        var l, r :| l in init && r in rs && v == l + r;
        assert l in ls;
      }
    }
  }

  /** Conditions of two parts are chosen independently. */
  ghost function Joined(here: bool, first: Choice, second: Choice): Choice {
    iset p: Position | if p == [] then here else if p[0] == First then p[1..] in first else p[1..] in second
  }

  lemma JoinedSplits(here: bool, first: Choice, second: Choice)
    ensures Below(Joined(here, first, second), First) == first
    ensures Below(Joined(here, first, second), Second) == second
    ensures [] in Joined(here, first, second) <==> here
  {
    forall p: Position ensures ([First] + p)[1..] == p && ([Second] + p)[1..] == p {}
  }

  lemma TernaryPossible(c: Expr, a: Expr, v: string)
    requires Bounded(c) && Bounded(a)
    ensures Possible(Ternary(Some(c), Some(a)), v) <==> Possible(c, v) || Possible(a, v)
  {
    var e := Ternary(Some(c), Some(a));
    if Possible(e, v) {
      var choice: Choice :| Value(e, choice) == v;
      assert Value(c, Below(choice, First)) == v || Value(a, Below(choice, Second)) == v;
    }
    if Possible(c, v) {
      var choice: Choice :| Value(c, choice) == v;
      JoinedSplits(true, choice, iset{});
      assert Value(e, Joined(true, choice, iset{})) == v;
    }
    if Possible(a, v) {
      var choice: Choice :| Value(a, choice) == v;
      JoinedSplits(false, iset{}, choice);
      assert Value(e, Joined(false, iset{}, choice)) == v;
    }
  }

  lemma BinaryPossible(l: Expr, r: Expr, v: string)
    requires Bounded(l) && Bounded(r)
    ensures Possible(Binary(Some(l), "+", Some(r)), v) <==>
              exists x, y :: Possible(l, x) && Possible(r, y) && v == x + y
  {
    var e := Binary(Some(l), "+", Some(r));
    if Possible(e, v) {
      var choice: Choice :| Value(e, choice) == v;
      var x, y := Value(l, Below(choice, First)), Value(r, Below(choice, Second));
      assert Possible(l, x) && Possible(r, y) && v == x + y;
    }
    if x, y :| Possible(l, x) && Possible(r, y) && v == x + y {
      var first: Choice :| Value(l, first) == x;
      var second: Choice :| Value(r, second) == y;
      JoinedSplits(false, first, second);
      assert Value(e, Joined(false, first, second)) == v;
    }
  }

  /** The candidates are exactly the values reachable under some choice of conditions, once each. */
  lemma {:induction false} CandidatesExact(e: Expr)
    requires Bounded(e)
    ensures Candidates(e).Ok? && Distinct(Candidates(e).value.targets)
    ensures forall v :: v in Candidates(e).value.targets <==> Possible(e, v)
    decreases e
  {
    FailsAtFirstProblem(e);
    match e {
      case Str(v) => assert Value(e, iset{}) == v.value;
      case Paren(children) =>
        CandidatesExact(children[0]);
        assert forall choice: Choice :: Value(e, choice) == Value(children[0], choice);
      case Ternary(c, a) =>
        CandidatesExact(c.value);
        CandidatesExact(a.value);
        forall v ensures v in Candidates(e).value.targets <==> Possible(e, v) { TernaryPossible(c.value, a.value, v); }
      case Binary(l, _, r) =>
        CandidatesExact(l.value);
        CandidatesExact(r.value);
        forall v ensures v in Candidates(e).value.targets <==> Possible(e, v) {
          ProductsElements(Candidates(l.value).value.targets, Candidates(r.value).value.targets, v);
          BinaryPossible(l.value, r.value, v);
        }
    }
  }

  // ----- The ambiguity flag -----

  function Stripped(e: Expr): Expr {
    if e.Paren? && |e.children| == 1 then Stripped(e.children[0]) else e
  }

  lemma TwoValues(ls: seq<string>, rs: seq<string>, u: string, w: string)
    requires u != w && IsProduct(ls, rs, u) && IsProduct(ls, rs, w)
    ensures |FirstOccurrences(Products(ls, rs))| > 1
  {
    ProductsElements(ls, rs, u);
    ProductsElements(ls, rs, w);
    hide Products, IsProduct;
    var unique := FirstOccurrences(Products(ls, rs));
    assert u in Elements(unique) && w in Elements(unique);
    assert u in unique && w in unique;
  }

  /** Several distinct parts on one side keep the concatenations apart. */
  lemma ProductsAmbiguous(ls: seq<string>, rs: seq<string>)
    requires Distinct(ls) && Distinct(rs) && |ls| > 0 && |rs| > 0 && (|ls| > 1 || |rs| > 1)
    ensures |FirstOccurrences(Products(ls, rs))| > 1
  {
    hide Products;
    hide FirstOccurrences;
    var u := ls[0] + rs[0];
    assert IsProduct(ls, rs, u);
    if |ls| > 1 {
      var w := ls[1] + rs[0];
      assert IsProduct(ls, rs, w);
      CancelRight(ls[0], ls[1], rs[0]);
      TwoValues(ls, rs, u, w);
    } else {
      var w := ls[0] + rs[1];
      assert IsProduct(ls, rs, w);
      CancelLeft(ls[0], rs[0], rs[1]);
      TwoValues(ls, rs, u, w);
    }
  }

  lemma CancelRight(a: string, b: string, r: string)
    ensures a + r == b + r ==> a == b
  {
    if a + r == b + r {
      assert |a| == |b|;
      assert (a + r)[..|a|] == a && (b + r)[..|b|] == b;
    }
  }

  lemma CancelLeft(l: string, a: string, b: string)
    ensures l + a == l + b ==> a == b
  {
    assert (l + a)[|l|..] == a && (l + b)[|l|..] == b;
  }

  lemma {:induction false} UniqueIsShorter(s: seq<string>)
    ensures |FirstOccurrences(s)| <= |s|
  {
    if s != [] { UniqueIsShorter(s[..|s| - 1]); }
  }

  lemma NonEmptyUnique(s: seq<string>)
    requires s != []
    ensures FirstOccurrences(s) != []
  {
    assert s[0] in Elements(s);
    assert s[0] in Elements(FirstOccurrences(s));
  }

  /** Flagged ambiguous exactly when there are several values or the expression is a conditional. */
  lemma {:induction false} DynamicExactly(e: Expr)
    requires Bounded(e)
    ensures Candidates(e).Ok? && |Candidates(e).value.targets| >= 1
    ensures Candidates(e).value.dynamic <==> |Candidates(e).value.targets| > 1 || Stripped(e).Ternary?
    decreases e
  {
    FailsAtFirstProblem(e);
    match e {
      case Str(v) =>
      case Paren(children) => DynamicExactly(children[0]);
      case Ternary(c, a) =>
        DynamicExactly(c.value);
        DynamicExactly(a.value);
        NonEmptyUnique(Candidates(c.value).value.targets + Candidates(a.value).value.targets);
      case Binary(l, _, r) => BinaryDynamic(l.value, r.value);
    }
  }

  lemma {:induction false} BinaryDynamic(l: Expr, r: Expr)
    requires Bounded(l) && Bounded(r)
    ensures var e := Binary(Some(l), "+", Some(r)); Candidates(e).Ok? && |Candidates(e).value.targets| >= 1
    ensures var found := Candidates(Binary(Some(l), "+", Some(r)));
            found.Ok? && (found.value.dynamic <==> |found.value.targets| > 1)
    decreases Binary(Some(l), "+", Some(r)), 0
  {
    hide Products, FirstOccurrences, Stripped, Possible;
    DynamicExactly(l);
    DynamicExactly(r);
    CandidatesExact(l);
    CandidatesExact(r);
    var ls, rs := Candidates(l).value.targets, Candidates(r).value.targets;
    ConcatenationsFlag(ls, rs);
  }

  /** Counting before or after removing duplicates makes no difference to the flag. */
  lemma ConcatenationsFlag(ls: seq<string>, rs: seq<string>)
    requires Distinct(ls) && Distinct(rs) && |ls| > 0 && |rs| > 0
    ensures |FirstOccurrences(Products(ls, rs))| >= 1
    ensures |Products(ls, rs)| > 1 <==> |FirstOccurrences(Products(ls, rs))| > 1
  {
    var all := Products(ls, rs);
    UniqueIsShorter(all);
    if |ls| > 1 || |rs| > 1 {
      ProductsAmbiguous(ls, rs);
    } else {
      assert Products(ls[..0], rs) == [] && PrefixAll(ls[0], rs[..0]) == [];
      assert |PrefixAll(ls[0], rs)| == 1;
      FirstOccurrencesOfDistinct(all);
    }
  }

  /** A result that is not flagged has one possible value, whatever the conditions. */
  lemma UnambiguousIsConstant(e: Expr, choice: Choice)
    requires Bounded(e) && Candidates(e).Ok? && !Candidates(e).value.dynamic
    ensures Candidates(e).value.targets == [Value(e, choice)]
  {
    DynamicExactly(e);
    CandidatesExact(e);
    assert Possible(e, Value(e, choice));
  }

  // ----- The specifiers of one reference -----

  /** A call with its only argument (None unless there is exactly one), or a static reference. */
  datatype Reference = Call(argument: Option<Expr>) | Static(target: Option<string>)

  datatype Specifier = Specifier(target: string, ambiguous: bool)

  method ModuleSpecifiers(reference: Reference) returns (r: Result<seq<Specifier>, Diagnostic>)
    ensures reference.Static? ==>
              r == if reference.target.Some? then Ok([Specifier(reference.target.value, false)]) else Err(NoDiagnostic)
    ensures reference == Call(None) ==> r == Err(Unbounded)
    ensures reference.Call? && reference.argument.Some? ==> SpecifiersOf(reference.argument.value, r)
  {
    if reference.Static? {
      return if reference.target.Some? then Ok([Specifier(reference.target.value, false)]) else Err(NoDiagnostic);
    }
    if reference.argument.None? { return Err(Unbounded); }
    var e := reference.argument.value;
    var found := StringSpecifierCandidates(e);
    FailsAtFirstProblem(e);
    if found.Err? { return Err(found.error); }
    var targets, dynamic := found.value.targets, found.value.dynamic;
    CandidatesExact(e);
    DynamicExactly(e);
    CountedOnce(e, targets);
    if |targets| > MAX_CANDIDATES { return Err(TooMany); }
    var specifiers := [];
    for i := 0 to |targets|
      invariant |specifiers| == i
      invariant forall j :: 0 <= j < i ==> specifiers[j] == Specifier(targets[j], dynamic)
    {
      specifiers := specifiers + [Specifier(targets[i], dynamic)];
    }
    forall v ensures Possible(e, v) <==> exists i :: 0 <= i < |specifiers| && specifiers[i].target == v {
      if i :| 0 <= i < |specifiers| && specifiers[i].target == v { assert v == targets[i]; }
      if v in targets { var i :| 0 <= i < |targets| && targets[i] == v; assert specifiers[i].target == v; }
    }
    return Ok(specifiers);
  }

  lemma CountedOnce(e: Expr, targets: seq<string>)
    requires Bounded(e) && Distinct(targets) && forall v :: v in targets <==> Possible(e, v)
    ensures forall values: set<string> :: AllValues(e, values) ==> |values| == |targets|
  {
    forall values: set<string> | AllValues(e, values) ensures |values| == |targets| {
      assert values == Elements(targets);
      DistinctCardinality(targets);
    }
  }

  ghost predicate AllValues(e: Expr, values: set<string>)
    requires Bounded(e)
  {
    forall v :: v in values <==> Possible(e, v)
  }

  /** What is promised for the argument of a dynamic import. */
  ghost predicate SpecifiersOf(e: Expr, r: Result<seq<Specifier>, Diagnostic>) {
    if !Bounded(e) then r == Err(Problems(e)[0])
    else
      && (r.Ok? || r == Err(TooMany))
      && (forall values: set<string> :: AllValues(e, values) ==> (r.Ok? <==> |values| <= MAX_CANDIDATES))
      && (r.Ok? ==>
            && (forall i, j :: 0 <= i < j < |r.value| ==> r.value[i].target != r.value[j].target)
            && (forall v :: Possible(e, v) <==> exists i :: 0 <= i < |r.value| && r.value[i].target == v)
            && (forall i :: 0 <= i < |r.value| ==> (r.value[i].ambiguous <==> |r.value| > 1 || Stripped(e).Ternary?)))
  }
}
