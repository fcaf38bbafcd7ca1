/** Small shared vocabulary: optional values, results, and duplicate-free sequences. */
module Common {

  datatype Option<+T> = None | Some(value: T)

  datatype Result<+T, +E> = Ok(value: T) | Err(error: E)

  /** The elements of a sequence, order and multiplicity forgotten. */
  function Elements<T(!new)>(s: seq<T>): (r: set<T>)
    ensures forall x :: x in r <==> x in s
  {
    set x | x in s
  }

  predicate Distinct<T(==)>(s: seq<T>) {
    forall i, j :: 0 <= i < j < |s| ==> s[i] != s[j]
  }

  /** A duplicate-free sequence has exactly as many entries as elements. */
  lemma {:induction false} DistinctCardinality<T(!new)>(s: seq<T>)
    requires Distinct(s)
    ensures |Elements(s)| == |s|
  {
    if s != [] {
      var init, last := s[..|s| - 1], s[|s| - 1];
      DistinctCardinality(init);
      assert Elements(s) == Elements(init) + {last};
    }
  }

  lemma SubsetCardinality<T>(a: set<T>, b: set<T>)
    requires a <= b
    ensures |a| <= |b|
    ensures |a| == |b| ==> a == b
  {
    assert b == a + (b - a);
    if a != b {
      var x :| x in b - a;
      assert |b - a| > 0;
    }
  }

  /** First occurrences, in order: what a loop with a `seen` set keeps. */
  function FirstOccurrences<T(==, !new)>(s: seq<T>): (r: seq<T>)
    ensures Distinct(r)
    ensures Elements(r) == Elements(s)
  {
    if s == [] then [] else
      var init, last := s[..|s| - 1], s[|s| - 1];
      var r := FirstOccurrences(init);
      assert Elements(s) == Elements(init) + {last};
      if last in r then r else r + [last]
  }

  lemma {:induction false} FirstOccurrencesOfDistinct<T(!new)>(s: seq<T>)
    requires Distinct(s)
    ensures FirstOccurrences(s) == s
  {
    if s != [] {
      FirstOccurrencesOfDistinct(s[..|s| - 1]);
      assert s == s[..|s| - 1] + [s[|s| - 1]];
    }
  }

  /** What was kept stays in front, in order, whatever follows; with the contract above this fixes the result. */
  lemma {:induction false} FirstOccurrencesPrefix<T(!new)>(a: seq<T>, b: seq<T>)
    ensures FirstOccurrences(a) <= FirstOccurrences(a + b)
  {
    if b == [] {
      assert a + b == a;
    } else {
      FirstOccurrencesPrefix(a, b[..|b| - 1]);
      assert (a + b)[..|a + b| - 1] == a + b[..|b| - 1];
    }
  }

  /** The `seen`-set loop used for queued paths and for module specifiers. */
  method UniqueInOrder<T(==, !new)>(s: seq<T>) returns (unique: seq<T>)
    ensures unique == FirstOccurrences(s)
  {
    var seen: set<T> := {};
    unique := [];
    for i := 0 to |s|
      invariant unique == FirstOccurrences(s[..i])
      invariant seen == Elements(unique)
    {
      assert s[..i + 1][..i] == s[..i];
      if s[i] !in seen {
        seen := seen + {s[i]};
        unique := unique + [s[i]];
      }
    }
    assert s[..|s|] == s;
  }
}
