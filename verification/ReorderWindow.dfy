/**
 * The publication reorder window: an issuer hands contribution indices to preparation
 * workers under a token budget, workers finish in any order, and one writer drains results
 * in index order, returning a token per write. Channels and goroutines are steps of a state
 * machine; runs without preparation errors.
 */
module ReorderWindow {

  const MAXIMUM_PUBLICATION_WORKERS := 4
  const PUBLICATION_QUEUE_DEPTH := 2

  datatype Worker = Idle | Preparing(index: nat)

  /** `processors` is GOMAXPROCS. */
  datatype Config = Config(count: nat, processors: nat) {
    predicate Valid() { processors >= 1 }
    function Workers(): nat { Min(count, Min(processors, MAXIMUM_PUBLICATION_WORKERS)) }
    function ResultCapacity(): nat { PUBLICATION_QUEUE_DEPTH * Workers() }
    function Window(): nat { Workers() + PUBLICATION_QUEUE_DEPTH * Workers() }
  }

  function Min(a: nat, b: nat): nat { if a <= b then a else b }

  datatype State = State(
    tokens: nat,            // buffered in `released`
    holding: bool,          // the issuer took a token for index `issued`
    issued: nat,            // indices handed to a worker
    workers: seq<Worker>,
    results: seq<nat>,      // the buffered results channel
    pending: set<nat>,      // received out of order
    written: seq<nat>)      // handed to the batch, in order

  function Initial(c: Config): State {
    State(c.Window(), false, 0, seq(c.Workers(), _ => Idle), [], {}, [])
  }

  datatype Action =
    | TakeToken
    | Dispatch(worker: nat)
    | Finish(worker: nat)
    | Receive
    | Write

  function NextIndex(s: State): nat { |s.written| }

  /** The token send after a write would block on a full channel. */
  predicate TokenSendBlocks(c: Config, s: State) { s.tokens == c.Window() }

  predicate Enabled(c: Config, s: State, a: Action) {
    match a
    case TakeToken => !s.holding && s.issued < c.count && s.tokens > 0
    case Dispatch(k) => s.holding && k < |s.workers| && s.workers[k].Idle?
    case Finish(k) => k < |s.workers| && s.workers[k].Preparing? && |s.results| < c.ResultCapacity()
    case Receive => s.results != [] && NextIndex(s) !in s.pending
    case Write => NextIndex(s) in s.pending && !TokenSendBlocks(c, s)
  }

  function Step(c: Config, s: State, a: Action): State
    requires Enabled(c, s, a)
  {
    match a
    case TakeToken => s.(tokens := s.tokens - 1, holding := true)
    case Dispatch(k) => s.(holding := false, issued := s.issued + 1, workers := s.workers[k := Preparing(s.issued)])
    case Finish(k) => s.(workers := s.workers[k := Idle], results := s.results + [s.workers[k].index])
    case Receive => s.(results := s.results[1..], pending := s.pending + {s.results[0]})
    case Write =>
      var i := NextIndex(s);
      s.(pending := s.pending - {i}, written := s.written + [i], tokens := s.tokens + 1)
  }

  // ----- The invariant -----

  ghost function InWork(workers: seq<Worker>): multiset<nat> {
    if workers == [] then multiset{} else
      var last := workers[|workers| - 1];
      InWork(workers[..|workers| - 1]) + Held(last)
  }

  ghost function Held(w: Worker): multiset<nat> {
    if w.Preparing? then multiset{w.index} else multiset{}
  }

  lemma {:induction false} InWorkUpdate(workers: seq<Worker>, k: nat, w: Worker)
    requires k < |workers|
    ensures InWork(workers[k := w]) + Held(workers[k]) == InWork(workers) + Held(w)
  {
    hide Held;
    var n := |workers| - 1;
    if k < n {
      var init, last := workers[..n], Held(workers[n]);
      InWorkUpdate(init, k, w);
      assert workers[k := w][..n] == init[k := w];
      assert InWork(workers[k := w]) + Held(workers[k]) == InWork(init[k := w]) + Held(init[k]) + last;
      assert InWork(workers) + Held(w) == InWork(init) + Held(w) + last;
    } else {
      assert workers[k := w][..n] == workers[..n];
    }
  }

  lemma {:induction false} NoneInWork(workers: seq<Worker>)
    requires forall k :: 0 <= k < |workers| ==> workers[k].Idle?
    ensures InWork(workers) == multiset{}
  {
    if workers != [] { NoneInWork(workers[..|workers| - 1]); }
  }

  ghost function UpTo(n: nat): multiset<nat> {
    if n == 0 then multiset{} else UpTo(n - 1) + multiset{n - 1}
  }

  lemma {:induction false} UpToCounts(n: nat, i: nat)
    ensures UpTo(n)[i] == if i < n then 1 else 0
  {
    if n > 0 { UpToCounts(n - 1, i); }
  }

  /** Where every issued index is: in work, in results, pending or written, each exactly once. */
  ghost function Located(s: State): multiset<nat> {
    InWork(s.workers) + multiset(s.results) + multiset(s.pending) + multiset(s.written)
  }

  ghost predicate Counters(c: Config, s: State) {
    && |s.workers| == c.Workers()
    && s.issued <= c.count && (s.holding ==> s.issued < c.count)
    && |s.results| <= c.ResultCapacity()
    && |s.written| <= s.issued
    && (forall i :: 0 <= i < |s.written| ==> s.written[i] == i)
    && s.tokens + (if s.holding then 1 else 0) + (s.issued - |s.written|) == c.Window()
  }

  ghost predicate Inv(c: Config, s: State) {
    Counters(c, s) && Located(s) == UpTo(s.issued)
  }

  lemma InitialInv(c: Config)
    requires c.Valid()
    ensures Inv(c, Initial(c))
  {
    NoneInWork(Initial(c).workers);
  }

  /** The next index to write was issued and not written yet, so a token is out. */
  lemma PendingIsIssued(c: Config, s: State)
    requires Inv(c, s) && NextIndex(s) in s.pending
    ensures |s.written| < s.issued && !TokenSendBlocks(c, s)
  {
    assert Located(s)[NextIndex(s)] >= multiset(s.pending)[NextIndex(s)] >= 1;
    UpToCounts(s.issued, NextIndex(s));
  }

  /** The set of pending results never held the one just received. */
  lemma ReceivedIsNew(c: Config, s: State)
    requires Inv(c, s) && s.results != []
    ensures s.results[0] !in s.pending
  {
    hide InWork;
    var i := s.results[0];
    assert Located(s)[i] >= multiset(s.results)[i] + multiset(s.pending)[i];
    UpToCounts(s.issued, i);
  }

  lemma DispatchKeepsLocated(s: State, k: nat)
    requires k < |s.workers| && s.workers[k].Idle? && Located(s) == UpTo(s.issued)
    ensures Located(s.(holding := false, issued := s.issued + 1, workers := s.workers[k := Preparing(s.issued)]))
         == UpTo(s.issued + 1)
  {
    hide InWork;
    InWorkUpdate(s.workers, k, Preparing(s.issued));
    assert InWork(s.workers[k := Preparing(s.issued)]) == InWork(s.workers) + multiset{s.issued};
  }

  lemma FinishKeepsLocated(s: State, k: nat)
    requires k < |s.workers| && s.workers[k].Preparing?
    ensures Located(s.(workers := s.workers[k := Idle], results := s.results + [s.workers[k].index])) == Located(s)
  {
    hide InWork;
    InWorkUpdate(s.workers, k, Idle);
    assert InWork(s.workers) == InWork(s.workers[k := Idle]) + multiset{s.workers[k].index};
  }

  lemma ReceiveKeepsLocated(s: State)
    requires s.results != [] && s.results[0] !in s.pending
    ensures Located(s.(results := s.results[1..], pending := s.pending + {s.results[0]})) == Located(s)
  {
    hide InWork;
    assert s.results == [s.results[0]] + s.results[1..];
    assert multiset(s.pending + {s.results[0]}) == multiset(s.pending) + multiset{s.results[0]};
  }

  lemma WriteKeepsLocated(s: State, i: nat)
    requires i in s.pending
    ensures Located(s.(pending := s.pending - {i}, written := s.written + [i], tokens := s.tokens + 1)) == Located(s)
  {
    hide InWork;
    assert multiset(s.pending) == multiset(s.pending - {i}) + multiset{i};
  }

  lemma StepKeepsCounters(c: Config, s: State, a: Action)
    requires Counters(c, s) && Enabled(c, s, a) && (a.Write? ==> |s.written| < s.issued)
    ensures Counters(c, Step(c, s, a))
  {}

  lemma StepKeepsInv(c: Config, s: State, a: Action)
    requires c.Valid() && Inv(c, s) && Enabled(c, s, a)
    ensures Inv(c, Step(c, s, a))
  {
    hide Counters, Located, UpTo;
    match a {
      case TakeToken => TokenIsNotLocated(c, s);
      case Dispatch(k) => DispatchKeepsLocated(s, k);
      case Finish(k) => FinishKeepsLocated(s, k);
      case Receive =>
        ReceivedIsNew(c, s);
        ReceiveKeepsLocated(s);
      case Write =>
        PendingIsIssued(c, s);
        WriteKeepsLocated(s, NextIndex(s));
    }
    StepKeepsCounters(c, s, a);
  }

  lemma TokenIsNotLocated(c: Config, s: State)
    requires Enabled(c, s, TakeToken)
    ensures Located(Step(c, s, TakeToken)) == Located(s)
  {}

  // ----- Runs -----

  /** Some interleaving of these actions leads from the initial state to s. */
  ghost predicate Reaches(c: Config, actions: seq<Action>, s: State) {
    if actions == [] then s == Initial(c) else
      var last := actions[|actions| - 1];
      exists p :: Reaches(c, actions[..|actions| - 1], p) && Enabled(c, p, last) && s == Step(c, p, last)
  }

  lemma {:induction false} ReachableInv(c: Config, actions: seq<Action>, s: State)
    requires c.Valid() && Reaches(c, actions, s)
    ensures Inv(c, s)
  {
    hide Inv, Enabled, Step;
    if actions == [] {
      InitialInv(c);
    } else {
      var init, last := actions[..|actions| - 1], actions[|actions| - 1];
      var p :| Reaches(c, init, p) && Enabled(c, p, last) && s == Step(c, p, last);
      ReachableInv(c, init, p);
      StepKeepsInv(c, p, last);
    }
  }

  /**
   * In every reachable state: contributions were written in index order, each once; at most
   * three times the worker count are issued but unwritten, and the issuer waits for nothing else;
   * the writer's token send cannot block.
   */
  lemma ReorderSafety(c: Config, actions: seq<Action>, s: State)
    requires c.Valid() && Reaches(c, actions, s)
    ensures && (forall i :: 0 <= i < |s.written| ==> s.written[i] == i)
            && |s.written| <= s.issued <= c.count
            && s.issued - |s.written| <= 3 * c.Workers()
            && |s.pending| <= 3 * c.Workers()
            && (NextIndex(s) in s.pending ==> !TokenSendBlocks(c, s))
    ensures Enabled(c, s, TakeToken) <==> !s.holding && s.issued < c.count && s.issued - |s.written| < 3 * c.Workers()
  {
    ReachableInv(c, actions, s);
    if NextIndex(s) in s.pending { PendingIsIssued(c, s); }
    PendingFitsWindow(c, s);
  }

  lemma {:induction false} UpToSize(n: nat)
    ensures |UpTo(n)| == n
  {
    if n > 0 { UpToSize(n - 1); }
  }

  lemma PendingFitsWindow(c: Config, s: State)
    requires Inv(c, s)
    ensures |s.pending| <= s.issued - |s.written| <= c.Window()
  {
    UpToSize(s.issued);
    assert |Located(s)| == |InWork(s.workers)| + |s.results| + |s.pending| + |s.written|;
  }

  /** No deadlock: until everything is written some step is enabled. */
  lemma ReorderProgress(c: Config, actions: seq<Action>, s: State) returns (a: Action)
    requires c.Valid() && Reaches(c, actions, s) && |s.written| < c.count
    ensures Enabled(c, s, a)
  {
    ReachableInv(c, actions, s);
    if NextIndex(s) in s.pending {
      PendingIsIssued(c, s);
      a := Write;
    } else if s.results != [] {
      a := Receive;
    } else if k: nat :| k < |s.workers| && s.workers[k].Preparing? {
      a := Finish(k);
    } else {
      NoneInWork(s.workers);
      assert Located(s) == multiset(s.pending) + multiset(s.written);
      UpToCounts(s.issued, NextIndex(s));
      assert multiset(s.written)[NextIndex(s)] == 0;
      assert s.issued == |s.written|;
      if s.holding {
        assert s.workers[0].Idle?;
        a := Dispatch(0);
      } else {
        a := TakeToken;
      }
    }
  }

  /** Work left, counted so that every step lowers it. */
  function Measure(c: Config, s: State): int {
    5 * c.count - (if s.holding then 1 else 0) - 2 * s.issued - |s.results| - 2 * |s.pending| - 3 * |s.written|
  }

  /** Every step lowers the measure, which stays non-negative: all runs end, everything written. */
  lemma ReorderTerminates(c: Config, actions: seq<Action>, s: State, a: Action)
    requires c.Valid() && Reaches(c, actions, s) && Enabled(c, s, a)
    ensures 0 <= Measure(c, Step(c, s, a)) < Measure(c, s)
  {
    hide InWork, UpTo, Reaches;
    ReachableInv(c, actions, s);
    var s' := Step(c, s, a);
    StepKeepsInv(c, s, a);
    UpToSize(s'.issued);
    assert |Located(s')| == |InWork(s'.workers)| + |s'.results| + |s'.pending| + |s'.written|;
    if a.Receive? { ReceivedIsNew(c, s); }
  }
}
