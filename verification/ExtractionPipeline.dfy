/**
 * The initial index pipeline: one producer stages and emits sources, workers extract them,
 * one consumer writes contributions into the session. Channel operations, cancellation and
 * every failure are steps of a state machine.
 */
module ExtractionPipeline {
  import opened Common
  import opened GraphTables
  import opened SnapshotHistory
  import RowIntervals

  const QUEUE_CAPACITY := 32

  /** What discovery would emit, and max(1, GOMAXPROCS) extraction workers. */
  datatype Config = Config(sources: seq<Path>, workers: nat) {
    predicate Valid() { workers >= 1 }
  }

  /** A producer that saw the cancelled context reports context.Canceled, which the consumer ignores. */
  datatype ProducerEnd = Running | Clean | Cancelled | Broken

  datatype Message = Extracted(index: nat) | ExtractionFailed(index: nat) | WorkerFailed

  /** Drained: left the job loop; Crashed: returned after reporting an error. */
  datatype Worker = Starting | Idle | Busy(index: nat) | Sending(message: Message) | Drained | Crashed

  datatype Producer = Producer(
    staged: nat,              // session.StageSource succeeded for sources[..staged]
    holding: bool,            // sources[staged - 1] is staged but not yet sent
    sent: nat,                // jobs put on the channel
    end: ProducerEnd)

  datatype Consumer = Consumer(
    written: seq<nat>,        // session.WriteContribution succeeded, in order
    dropped: seq<nat>,        // extracted, received after a failure
    failures: seq<nat>,       // extraction errors received
    workerError: bool,
    writeError: bool,
    finished: bool)

  datatype State = State(
    producer: Producer,
    jobs: seq<nat>,
    workers: seq<Worker>,
    results: seq<Message>,
    cancelled: bool,          // run.ctx
    parentCancelled: bool,    // the caller's ctx
    consumer: Consumer)

  function Initial(c: Config): State {
    State(Producer(0, false, 0, Running), [], seq(c.workers, _ => Starting), [], false, false,
          Consumer([], [], [], false, false, false))
  }

  predicate Failed(k: Consumer) {
    k.workerError || k.writeError || k.failures != []
  }

  /** consumeContributions returns no error. */
  predicate Success(s: State) {
    s.consumer.finished && !s.parentCancelled && s.producer.end != Broken && !Failed(s.consumer)
  }

  datatype ProducerAct = Stage(ok: bool) | SendJob | Abort | StreamFails | EndStream
  datatype WorkerAct = Start(ok: bool) | TakeJob | Drain | Extract(ok: bool) | SendResult
  datatype Action =
    | Produce(act: ProducerAct)
    | Work(worker: nat, step: WorkerAct)
    | Consume(ok: bool)
    | Finish
    | CancelParent

  predicate AllExited(workers: seq<Worker>) {
    forall k :: 0 <= k < |workers| ==> workers[k].Drained? || workers[k].Crashed?
  }

  /** The session refuses a path that is empty or already staged. */
  predicate StageAllowed(c: Config, staged: nat) {
    staged < |c.sources| && c.sources[staged] != "" && c.sources[staged] !in c.sources[..staged]
  }

  /** The session accepts a contribution once, for a staged path. */
  predicate WriteAllowed(c: Config, s: State, i: nat) {
    && i < s.producer.staged <= |c.sources|
    && forall j :: j in s.consumer.written ==> j < |c.sources| && c.sources[j] != c.sources[i]
  }

  predicate ProduceEnabled(c: Config, s: State, act: ProducerAct) {
    s.producer.end.Running? &&
    match act
    case Stage(ok) =>
      && !s.producer.holding && s.producer.staged < |c.sources|
      && (ok ==> StageAllowed(c, s.producer.staged))
    case SendJob => s.producer.holding && |s.jobs| < QUEUE_CAPACITY
    case Abort => s.cancelled
    case StreamFails => !s.producer.holding
    case EndStream => !s.producer.holding && s.producer.staged == |c.sources|
  }

  function ProduceStep(s: State, act: ProducerAct): State {
    var p := s.producer;
    match act
    case Stage(ok) =>
      if ok then s.(producer := p.(staged := p.staged + 1, holding := true))
      else s.(producer := p.(end := Broken), cancelled := true)
    case SendJob => s.(producer := p.(sent := p.sent + 1, holding := false), jobs := s.jobs + [p.sent])
    case Abort => s.(producer := p.(end := Cancelled))
    case StreamFails => s.(producer := p.(end := Broken), cancelled := true)
    case EndStream => s.(producer := p.(end := Clean))
  }

  predicate WorkEnabled(s: State, k: nat, act: WorkerAct) {
    k < |s.workers| &&
    match act
    case Start(_) => s.workers[k].Starting?
    case TakeJob => s.workers[k].Idle? && s.jobs != []
    case Drain => s.workers[k].Idle? && s.jobs == [] && !s.producer.end.Running?
    case Extract(_) => s.workers[k].Busy?
    case SendResult => s.workers[k].Sending? && |s.results| < QUEUE_CAPACITY
  }

  /** What the worker becomes. */
  function WorkerAfter(s: State, k: nat, act: WorkerAct): Worker
    requires WorkEnabled(s, k, act)
  {
    match act
    case Start(ok) => if ok then Idle else Sending(WorkerFailed)
    case TakeJob => Busy(s.jobs[0])
    case Drain => Drained
    case Extract(ok) => Sending(if ok then Extracted(s.workers[k].index) else ExtractionFailed(s.workers[k].index))
    case SendResult => if s.workers[k].message.Extracted? then Idle else Crashed
  }

  function WorkStep(s: State, k: nat, act: WorkerAct): State
    requires WorkEnabled(s, k, act)
  {
    s.(workers := s.workers[k := WorkerAfter(s, k, act)],
       jobs := if act.TakeJob? then s.jobs[1..] else s.jobs,
       results := if act.SendResult? then s.results + [s.workers[k].message] else s.results,
       cancelled := s.cancelled || act == Start(false) || act == Extract(false))
  }

  predicate ConsumeEnabled(c: Config, s: State, ok: bool) {
    && !s.consumer.finished && s.results != []
    && (ok && s.results[0].Extracted? && !Failed(s.consumer) ==> WriteAllowed(c, s, s.results[0].index))
  }

  function ConsumerAfter(k: Consumer, m: Message, ok: bool): Consumer {
    match m
    case WorkerFailed => k.(workerError := true)
    case ExtractionFailed(i) => k.(failures := k.failures + [i])
    case Extracted(i) =>
      if Failed(k) then k.(dropped := k.dropped + [i])
      else if ok then k.(written := k.written + [i])
      else k.(dropped := k.dropped + [i], writeError := true)
  }

  function ConsumeStep(s: State, ok: bool): State
    requires s.results != []
  {
    var k := ConsumerAfter(s.consumer, s.results[0], ok);
    s.(results := s.results[1..], consumer := k, cancelled := s.cancelled || Failed(k))
  }

  predicate Enabled(c: Config, s: State, a: Action) {
    match a
    case Produce(act) => ProduceEnabled(c, s, act)
    case Work(k, act) => WorkEnabled(s, k, act)
    case Consume(ok) => ConsumeEnabled(c, s, ok)
    case Finish => !s.consumer.finished && s.results == [] && AllExited(s.workers)
    case CancelParent => true
  }

  function Step(c: Config, s: State, a: Action): State
    requires Enabled(c, s, a)
  {
    match a
    case Produce(act) => ProduceStep(s, act)
    case Work(k, act) => WorkStep(s, k, act)
    case Consume(ok) => ConsumeStep(s, ok)
    case Finish => s.(consumer := s.consumer.(finished := true))
    case CancelParent => s.(parentCancelled := true, cancelled := true)
  }

  ghost predicate Reaches(c: Config, actions: seq<Action>, s: State) {
    if actions == [] then s == Initial(c) else
      var last := actions[|actions| - 1];
      exists p :: Reaches(c, actions[..|actions| - 1], p) && Enabled(c, p, last) && s == Step(c, p, last)
  }

  // ----- Conservation: how many copies of job i are where -----

  function InMessage(m: Message, i: nat): nat {
    if !m.WorkerFailed? && m.index == i then 1 else 0
  }

  function InWorker(w: Worker, i: nat): nat {
    if w.Busy? && w.index == i then 1 else if w.Sending? then InMessage(w.message, i) else 0
  }

  function InWorkers(ws: seq<Worker>, i: nat): nat {
    if ws == [] then 0 else InWorkers(ws[..|ws| - 1], i) + InWorker(ws[|ws| - 1], i)
  }

  function InResults(ms: seq<Message>, i: nat): nat {
    if ms == [] then 0 else InMessage(ms[0], i) + InResults(ms[1..], i)
  }

  function Consumed(k: Consumer, i: nat): nat {
    multiset(k.written)[i] + multiset(k.dropped)[i] + multiset(k.failures)[i]
  }

  /** Queued, in work, in results or consumed. */
  function Located(s: State, i: nat): nat {
    multiset(s.jobs)[i] + InWorkers(s.workers, i) + InResults(s.results, i) + Consumed(s.consumer, i)
  }

  lemma {:induction false} InWorkersUpdate(ws: seq<Worker>, k: nat, w: Worker, i: nat)
    requires k < |ws|
    ensures InWorkers(ws[k := w], i) + InWorker(ws[k], i) == InWorkers(ws, i) + InWorker(w, i)
  {
    hide InWorker;
    var n := |ws| - 1;
    if k < n {
      InWorkersUpdate(ws[..n], k, w, i);
      assert ws[k := w][..n] == ws[..n][k := w];
    } else {
      assert ws[k := w][..n] == ws[..n];
    }
  }

  lemma {:induction false} InResultsAppend(ms: seq<Message>, m: Message, i: nat)
    ensures InResults(ms + [m], i) == InResults(ms, i) + InMessage(m, i)
  {
    hide InMessage;
    if ms != [] {
      InResultsAppend(ms[1..], m, i);
      assert (ms + [m])[1..] == ms[1..] + [m];
    }
  }

  lemma {:induction false} NothingInWorkers(ws: seq<Worker>, i: nat)
    requires forall k :: 0 <= k < |ws| ==> InWorker(ws[k], i) == 0
    ensures InWorkers(ws, i) == 0
  {
    if ws != [] { NothingInWorkers(ws[..|ws| - 1], i); }
  }

  lemma WorkKeepsLocated(s: State, k: nat, act: WorkerAct, i: nat)
    requires WorkEnabled(s, k, act)
    ensures Located(WorkStep(s, k, act), i) == Located(s, i)
  {
    hide InWorkers, InResults, Consumed;
    InWorkersUpdate(s.workers, k, WorkerAfter(s, k, act), i);
    if act.TakeJob? { assert s.jobs == [s.jobs[0]] + s.jobs[1..]; }
    if act.SendResult? { InResultsAppend(s.results, s.workers[k].message, i); }
  }

  lemma ConsumeKeepsLocated(s: State, ok: bool, i: nat)
    requires s.results != []
    ensures Located(ConsumeStep(s, ok), i) == Located(s, i)
  {
    hide InWorkers;
    ConsumerTakes(s.consumer, s.results[0], ok, i);
  }

  lemma ConsumerTakes(k: Consumer, m: Message, ok: bool, i: nat)
    ensures Consumed(ConsumerAfter(k, m, ok), i) == Consumed(k, i) + InMessage(m, i)
  {}

  /** No step loses or duplicates a job; only sending one adds it. */
  lemma StepKeepsLocated(c: Config, s: State, a: Action, i: nat)
    requires Enabled(c, s, a)
    ensures Located(Step(c, s, a), i) == Located(s, i) + if a == Produce(SendJob) && i == s.producer.sent then 1 else 0
  {
    hide Located, WorkStep, ConsumeStep, ProduceStep;
    match a {
      case Produce(act) => ProduceKeepsLocated(s, act, i);
      case Work(k, act) => WorkKeepsLocated(s, k, act, i);
      case Consume(ok) => ConsumeKeepsLocated(s, ok, i);
      case _ => SameLocation(s, Step(c, s, a), i);
    }
  }

  lemma SameLocation(s: State, s': State, i: nat)
    requires s'.jobs == s.jobs && s'.workers == s.workers && s'.results == s.results
    requires s'.consumer.(finished := false) == s.consumer.(finished := false)
    ensures Located(s', i) == Located(s, i)
  {}

  lemma ProduceKeepsLocated(s: State, act: ProducerAct, i: nat)
    ensures Located(ProduceStep(s, act), i) == Located(s, i) + if act.SendJob? && i == s.producer.sent then 1 else 0
  {
    hide InWorkers, InResults, Consumed;
  }

  // ----- The invariant -----

  predicate Troubled(m: Message) {
    !m.Extracted?
  }

  predicate InTrouble(w: Worker) {
    w.Sending? && Troubled(w.message)
  }

  /** A failure is recorded by the consumer or still on its way to it. */
  ghost predicate TroubleOnRecord(s: State) {
    || Failed(s.consumer)
    || (exists m :: m in s.results && Troubled(m))
    || (exists k :: 0 <= k < |s.workers| && InTrouble(s.workers[k]))
  }

  ghost predicate WorkersOk(s: State) {
    forall k :: 0 <= k < |s.workers| ==>
      && (s.workers[k].Drained? ==> s.jobs == [] && !s.producer.end.Running?)
      && (s.workers[k].Crashed? ==> TroubleOnRecord(s))
  }

  ghost predicate ProducerOk(c: Config, p: Producer) {
    && p.sent <= p.staged <= |c.sources|
    && (p.end.Running? || p.end.Clean? ==> p.sent + (if p.holding then 1 else 0) == p.staged)
    && (p.end.Clean? ==> p.staged == |c.sources| && !p.holding)
    && Distinct(c.sources[..p.staged])
    && "" !in c.sources[..p.staged]
  }

  /** Cancellation always has a cause that the consumer reports in the end. */
  ghost predicate CancelOk(s: State) {
    && (s.cancelled ==> s.parentCancelled || s.producer.end.Broken? || TroubleOnRecord(s))
    && (s.producer.end.Cancelled? ==> s.cancelled)
  }

  ghost predicate ConsumerOk(s: State) {
    && (s.consumer.dropped != [] ==> Failed(s.consumer))
    && (s.consumer.finished ==> AllExited(s.workers) && s.results == [])
  }

  ghost predicate Inv(c: Config, s: State) {
    && |s.workers| == c.workers
    && (forall i: nat :: Located(s, i) == if i < s.producer.sent then 1 else 0)
    && ProducerOk(c, s.producer)
    && WorkersOk(s)
    && CancelOk(s)
    && ConsumerOk(s)
  }

  lemma InitialInv(c: Config)
    ensures Inv(c, Initial(c))
  {
    forall i: nat ensures Located(Initial(c), i) == 0 { NothingInWorkers(Initial(c).workers, i); }
  }

  lemma WorkKeepsTrouble(s: State, k: nat, act: WorkerAct)
    requires WorkEnabled(s, k, act)
    requires TroubleOnRecord(s) || InTrouble(WorkerAfter(s, k, act)) || InTrouble(s.workers[k])
    ensures TroubleOnRecord(WorkStep(s, k, act))
  {
    hide Failed;
    var s' := WorkStep(s, k, act);
    assert s'.workers[k] == WorkerAfter(s, k, act);
    if act.SendResult? { assert s'.results[|s.results|] == s.workers[k].message; }
    if m :| m in s.results && Troubled(m) {
      assert m in s'.results;
    } else if j :| 0 <= j < |s.workers| && InTrouble(s.workers[j]) {
      if j != k { assert s'.workers[j] == s.workers[j]; }
    }
  }

  lemma ConsumeKeepsTrouble(s: State, ok: bool)
    requires s.results != [] && TroubleOnRecord(s)
    ensures TroubleOnRecord(ConsumeStep(s, ok))
  {
    var s' := ConsumeStep(s, ok);
    if m :| m in s.results && Troubled(m) {
      assert m == s.results[0] || m in s.results[1..];
    } else if j :| 0 <= j < |s.workers| && InTrouble(s.workers[j]) {
      assert InTrouble(s'.workers[j]);
    }
  }

  /** Trouble once on record stays on record. */
  lemma TroubleStays(c: Config, s: State, a: Action)
    requires Enabled(c, s, a) && TroubleOnRecord(s)
    ensures TroubleOnRecord(Step(c, s, a))
  {
    hide WorkStep, ConsumeStep, ProduceStep, TroubleOnRecord;
    match a {
      case Produce(act) => ProduceKeepsTrouble(s, act);
      case Work(k, act) => WorkKeepsTrouble(s, k, act);
      case Consume(ok) => ConsumeKeepsTrouble(s, ok);
      case Finish => SameTrouble(s, Step(c, s, a));
      case CancelParent => SameTrouble(s, Step(c, s, a));
    }
  }

  lemma SameTrouble(s: State, s': State)
    requires TroubleOnRecord(s) && s'.results == s.results && s'.workers == s.workers
    requires Failed(s'.consumer) == Failed(s.consumer)
    ensures TroubleOnRecord(s')
  {}

  lemma ProduceKeepsTrouble(s: State, act: ProducerAct)
    requires TroubleOnRecord(s)
    ensures TroubleOnRecord(ProduceStep(s, act))
  {
    SameTrouble(s, ProduceStep(s, act));
  }

  lemma ProduceKeepsProducer(c: Config, s: State, act: ProducerAct)
    requires ProducerOk(c, s.producer) && ProduceEnabled(c, s, act)
    ensures ProducerOk(c, ProduceStep(s, act).producer)
  {
    var staged := s.producer.staged;
    if act == Stage(true) {
      assert c.sources[..staged + 1] == c.sources[..staged] + [c.sources[staged]];
    }
  }

  lemma ProduceKeepsRest(c: Config, s: State, act: ProducerAct)
    requires WorkersOk(s) && CancelOk(s) && ConsumerOk(s) && ProduceEnabled(c, s, act)
    ensures WorkersOk(ProduceStep(s, act)) && CancelOk(ProduceStep(s, act)) && ConsumerOk(ProduceStep(s, act))
  {
    hide TroubleOnRecord;
    if TroubleOnRecord(s) { ProduceKeepsTrouble(s, act); }
  }

  lemma WorkKeepsRest(s: State, k: nat, act: WorkerAct)
    requires WorkersOk(s) && CancelOk(s) && ConsumerOk(s) && WorkEnabled(s, k, act)
    ensures WorkersOk(WorkStep(s, k, act)) && CancelOk(WorkStep(s, k, act)) && ConsumerOk(WorkStep(s, k, act))
  {
    hide TroubleOnRecord;
    if TroubleOnRecord(s) || InTrouble(WorkerAfter(s, k, act)) || InTrouble(s.workers[k]) {
      WorkKeepsTrouble(s, k, act);
    }
  }

  lemma ConsumeKeepsRest(c: Config, s: State, ok: bool)
    requires WorkersOk(s) && CancelOk(s) && ConsumerOk(s) && ConsumeEnabled(c, s, ok)
    ensures WorkersOk(ConsumeStep(s, ok)) && CancelOk(ConsumeStep(s, ok)) && ConsumerOk(ConsumeStep(s, ok))
  {
    hide TroubleOnRecord;
    if TroubleOnRecord(s) { ConsumeKeepsTrouble(s, ok); }
    FailedIsTrouble(ConsumeStep(s, ok));
  }

  lemma FailedIsTrouble(s: State)
    ensures Failed(s.consumer) ==> TroubleOnRecord(s)
  {}

  lemma StepKeepsInv(c: Config, s: State, a: Action)
    requires Inv(c, s) && Enabled(c, s, a)
    ensures Inv(c, Step(c, s, a))
  {
    hide Located, ProducerOk, TroubleOnRecord;
    var s' := Step(c, s, a);
    forall i: nat ensures Located(s', i) == if i < s'.producer.sent then 1 else 0 { StepKeepsLocated(c, s, a, i); }
    if TroubleOnRecord(s) { TroubleStays(c, s, a); }
    match a {
      case Produce(act) => ProduceKeepsProducer(c, s, act); ProduceKeepsRest(c, s, act);
      case Work(k, act) => WorkKeepsRest(s, k, act);
      case Consume(ok) => ConsumeKeepsRest(c, s, ok);
      case _ =>
    }
  }

  lemma {:induction false} ReachableInv(c: Config, actions: seq<Action>, s: State)
    requires Reaches(c, actions, s)
    ensures Inv(c, s)
  {
    hide Inv, Enabled, Step;
    if actions == [] {
      InitialInv(c);
    } else {
      var init, last := actions[..|actions| - 1], actions[|actions| - 1];
      var p :| Reaches(c, init, p) && Enabled(c, p, last) && s == Step(c, p, last);
      ReachableInv(c, init, p);
      StepKeepsInv(c, p, last);
    }
  }

  // ----- What every run keeps -----

  /** Every emitted source is in exactly one place, nothing else is anywhere, and none is dropped without a failure. */
  lemma Conservation(c: Config, actions: seq<Action>, s: State)
    requires Reaches(c, actions, s)
    ensures forall i: nat :: Located(s, i) == if i < s.producer.sent then 1 else 0
    ensures s.producer.sent <= s.producer.staged <= |c.sources|
    ensures s.consumer.dropped != [] ==> Failed(s.consumer)
  {
    ReachableInv(c, actions, s);
  }

  /** The session never refuses a contribution of this pipeline: staged, and not written before. */
  lemma WriteIsAllowed(c: Config, actions: seq<Action>, s: State)
    requires Reaches(c, actions, s) && s.results != [] && s.results[0].Extracted?
    ensures WriteAllowed(c, s, s.results[0].index)
  {
    hide InWorkers, WorkersOk, CancelOk, Reaches;
    ReachableInv(c, actions, s);
    var i := s.results[0].index;
    assert InResults(s.results, i) >= 1;
    assert Located(s, i) >= 1;
    forall j | j in s.consumer.written ensures j < |c.sources| && c.sources[j] != c.sources[i] {
      assert Located(s, j) >= multiset(s.consumer.written)[j] >= 1;
      assert j != i;
      assert c.sources[..s.producer.staged][j] != c.sources[..s.producer.staged][i];
    }
  }

  /**
   * A run that reports success has staged every source and written each exactly once; it
   * was never cancelled, and no extracted source was dropped.
   */
  lemma SuccessWritesEverything(c: Config, actions: seq<Action>, s: State)
    requires c.Valid() && Reaches(c, actions, s) && Success(s)
    ensures s.producer.end.Clean? && !s.cancelled && s.consumer.dropped == []
    ensures s.producer.staged == s.producer.sent == |c.sources| && Distinct(c.sources)
    ensures forall i: nat :: multiset(s.consumer.written)[i] == if i < |c.sources| then 1 else 0
  {
    hide Reaches;
    ReachableInv(c, actions, s);
    assert !TroubleOnRecord(s);
    assert s.workers[0].Drained?;
    assert c.sources[..s.producer.staged] == c.sources;
    forall i: nat ensures multiset(s.consumer.written)[i] == if i < |c.sources| then 1 else 0 {
      NothingInWorkers(s.workers, i);
      assert InResults(s.results, i) == 0;
      assert Located(s, i) == multiset(s.consumer.written)[i];
    }
  }

  // ----- When a run reports success -----

  /** A step at which something goes wrong: a failed operation, an abort or the caller's cancellation. */
  predicate Faulty(a: Action) {
    || a == Produce(Stage(false)) || a == Produce(StreamFails) || a == Produce(Abort)
    || (a.Work? && (a.step == Start(false) || a.step == Extract(false)))
    || a == Consume(false) || a == CancelParent
  }

  ghost predicate Unharmed(s: State) {
    !s.cancelled && !s.parentCancelled && (s.producer.end.Running? || s.producer.end.Clean?) && !TroubleOnRecord(s)
  }

  lemma WorkStaysUnharmed(s: State, k: nat, act: WorkerAct)
    requires WorkEnabled(s, k, act) && Unharmed(s) && !Faulty(Work(k, act))
    ensures Unharmed(WorkStep(s, k, act))
  {
    var s' := WorkStep(s, k, act);
    forall j | 0 <= j < |s'.workers| ensures !InTrouble(s'.workers[j]) {
      assert !InTrouble(s.workers[j]);
    }
    if act.SendResult? {
      assert !InTrouble(s.workers[k]);
      assert forall m :: m in s'.results ==> m in s.results || m == s.workers[k].message;
    }
  }

  lemma WriteStaysUnharmed(s: State)
    requires s.results != [] && Unharmed(s)
    ensures Unharmed(ConsumeStep(s, true))
  {
    assert !Troubled(s.results[0]);
    assert forall m :: m in s.results[1..] ==> m in s.results;
  }

  lemma StepStaysUnharmed(c: Config, s: State, a: Action)
    requires Enabled(c, s, a) && Unharmed(s) && !Faulty(a)
    ensures Unharmed(Step(c, s, a))
  {
    hide WorkStep, ConsumeStep, WorkEnabled, StageAllowed, WriteAllowed, AllExited;
    match a {
      case Produce(act) =>
      case Work(k, act) => WorkStaysUnharmed(s, k, act);
      case Consume(ok) => WriteStaysUnharmed(s);
      case Finish =>
    }
  }

  lemma FaultyStepCancels(c: Config, s: State, a: Action)
    requires Enabled(c, s, a)
    ensures s.cancelled || Faulty(a) ==> Step(c, s, a).cancelled
  {}

  lemma {:induction false} FaultsShow(c: Config, actions: seq<Action>, s: State)
    requires Reaches(c, actions, s)
    ensures if exists a :: a in actions && Faulty(a) then s.cancelled else Unharmed(s)
  {
    hide Enabled, Step, Unharmed, Faulty;
    if actions == [] {
      NothingHappened(c);
    } else {
      var init, last := actions[..|actions| - 1], actions[|actions| - 1];
      var p :| Reaches(c, init, p) && Enabled(c, p, last) && s == Step(c, p, last);
      FaultsShow(c, init, p);
      FaultyStepCancels(c, p, last);
      assert forall a :: a in actions <==> a in init || a == last;
      if (forall a :: a in init ==> !Faulty(a)) && !Faulty(last) { StepStaysUnharmed(c, p, last); }
    }
  }

  lemma NothingHappened(c: Config)
    ensures Unharmed(Initial(c))
  {}

  /** A finished run reports success exactly when no step of it went wrong. */
  lemma SuccessExactly(c: Config, actions: seq<Action>, s: State)
    requires c.Valid() && Reaches(c, actions, s) && s.consumer.finished
    ensures Success(s) <==> forall a :: a in actions ==> !Faulty(a)
  {
    hide Reaches, Faulty, TroubleOnRecord;
    FaultsShow(c, actions, s);
    if Success(s) { SuccessWritesEverything(c, actions, s); }
    FailedIsTrouble(s);
  }

  /** After a failure nothing more is written, and the failure stays on record. */
  lemma FailureStopsWriting(c: Config, s: State, a: Action)
    requires Enabled(c, s, a) && Failed(s.consumer)
    ensures Failed(Step(c, s, a).consumer) && Step(c, s, a).consumer.written == s.consumer.written
  {}

  /** A step that is not a failure, except for staging a path the session must refuse. */
  predicate Healthy(c: Config, s: State, a: Action) {
    match a
    case Produce(Stage(ok)) => ok || !StageAllowed(c, s.producer.staged)
    case Produce(act) => !act.StreamFails? && !act.Abort?
    case Work(_, act) => act != Start(false) && act != Extract(false)
    case Consume(ok) => ok
    case Finish => true
    case CancelParent => false
  }

  /** No deadlock: until the consumer has finished some healthy step of the pipeline is enabled. */
  lemma Progress(c: Config, actions: seq<Action>, s: State) returns (a: Action)
    requires c.Valid() && Reaches(c, actions, s) && !s.consumer.finished
    ensures Enabled(c, s, a) && Healthy(c, s, a)
  {
    hide Reaches, Located, CancelOk;
    ReachableInv(c, actions, s);
    if s.results != [] {
      a := Consume(true);
      if s.results[0].Extracted? { WriteIsAllowed(c, actions, s); }
    } else if AllExited(s.workers) {
      a := Finish;
    } else {
      var k: nat :| k < |s.workers| && !s.workers[k].Drained? && !s.workers[k].Crashed?;
      match s.workers[k] {
        case Starting => a := Work(k, Start(true));
        case Busy(i) => a := Work(k, Extract(true));
        case Sending(m) => a := Work(k, SendResult);
        case Idle =>
          a := if s.jobs != [] then Work(k, TakeJob)
               else if !s.producer.end.Running? then Work(k, Drain)
               else if s.producer.holding then Produce(SendJob)
               else if s.producer.staged < |c.sources| then Produce(Stage(StageAllowed(c, s.producer.staged)))
               else Produce(EndStream);
      }
    }
  }

  /** The channels never hold more than their capacity. */
  lemma {:induction false} QueuesAreBounded(c: Config, actions: seq<Action>, s: State)
    requires Reaches(c, actions, s)
    ensures |s.jobs| <= 32 && |s.results| <= 32
    ensures s.producer.end.Running? && s.producer.holding ==> (Enabled(c, s, Produce(SendJob)) <==> |s.jobs| < 32)
    ensures forall k :: 0 <= k < |s.workers| && s.workers[k].Sending? ==>
              (Enabled(c, s, Work(k, SendResult)) <==> |s.results| < 32)
  {
    if actions != [] {
      var init, last := actions[..|actions| - 1], actions[|actions| - 1];
      var p :| Reaches(c, init, p) && Enabled(c, p, last) && s == Step(c, p, last);
      QueuesAreBounded(c, init, p);
    }
  }

  /** Steps a worker has ahead of it on its own account. */
  function Ahead(w: Worker): nat {
    match w
    case Starting => 4
    case Idle => 1
    case Busy(_) => 4
    case Sending(_) => 3
    case _ => 0
  }

  function AllAhead(workers: seq<Worker>): nat {
    if workers == [] then 0 else AllAhead(workers[..|workers| - 1]) + Ahead(workers[|workers| - 1])
  }

  lemma {:induction false} AheadUpdate(workers: seq<Worker>, k: nat, w: Worker)
    requires k < |workers|
    ensures AllAhead(workers[k := w]) == AllAhead(workers) - Ahead(workers[k]) + Ahead(w)
  {
    var n := |workers| - 1;
    if k < n {
      AheadUpdate(workers[..n], k, w);
      assert workers[k := w][..n] == workers[..n][k := w];
    } else {
      assert workers[k := w][..n] == workers[..n];
    }
  }

  /** What is left to do: a source counts less the further it has come. */
  function Measure(c: Config, s: State): int {
    (if s.producer.end.Running? then 1 else 0) + 6 * (|c.sources| - s.producer.staged)
    + (if s.producer.holding then 5 else 0)
    + 4 * |s.jobs| + AllAhead(s.workers) + |s.results| + (if s.consumer.finished then 0 else 1)
  }

  /** Every step lowers the measure, except that the caller's cancellation leaves it alone: every run ends. */
  lemma PipelineTerminates(c: Config, actions: seq<Action>, s: State, a: Action)
    requires Reaches(c, actions, s) && Enabled(c, s, a)
    ensures 0 <= Measure(c, Step(c, s, a)) <= Measure(c, s)
    ensures a != CancelParent ==> Measure(c, Step(c, s, a)) < Measure(c, s)
  {
    Conservation(c, actions, s);
    hide Reaches, StageAllowed, WriteAllowed, AllExited, AllAhead, Located;
    match a {
      case Produce(act) => ProduceLowers(c, s, act);
      case Work(k, act) => WorkLowers(c, s, k, act);
      case _ =>
    }
  }

  lemma ProduceLowers(c: Config, s: State, act: ProducerAct)
    requires s.producer.staged <= |c.sources| && ProduceEnabled(c, s, act)
    ensures 0 <= Measure(c, ProduceStep(s, act)) < Measure(c, s)
  {
    hide StageAllowed, AllAhead;
  }

  lemma WorkLowers(c: Config, s: State, k: nat, act: WorkerAct)
    requires s.producer.staged <= |c.sources| && WorkEnabled(s, k, act)
    ensures 0 <= Measure(c, WorkStep(s, k, act)) < Measure(c, s)
  {
    hide AllAhead;
    AheadUpdate(s.workers, k, WorkerAfter(s, k, act));
  }

  // ----- With the store: what the committed version shows -----

  /** The contributions of a successful run, as the session received them. */
  function WrittenSources(c: Config, written: seq<nat>, extract: Path -> Content): seq<Source>
    requires forall i :: i in written ==> i < |c.sources|
  {
    seq(|written|, k requires 0 <= k < |written| =>
      assert written[k] in written; Source(c.sources[written[k]], extract(c.sources[written[k]])))
  }

  /** Written once each, in whatever order, the sources have distinct paths and are all staged. */
  lemma WrittenAreDistinct(c: Config, written: seq<nat>, extract: Path -> Content)
    requires Distinct(c.sources) && forall i: nat :: multiset(written)[i] == if i < |c.sources| then 1 else 0
    ensures forall i :: i in written ==> i < |c.sources|
    ensures DistinctPaths(WrittenSources(c, written, extract))
    ensures PathsOf(WrittenSources(c, written, extract)) == Elements(c.sources)
  {
    forall i | i in written ensures i < |c.sources| { assert multiset(written)[i] >= 1; }
    var ws := WrittenSources(c, written, extract);
    forall j, k | 0 <= j < k < |ws| ensures ws[j].path != ws[k].path {
      assert written[j] in written && written[k] in written;
      OccursOnce(written, j, k);
    }
    forall p | p in Elements(c.sources) ensures p in PathsOf(ws) {
      var i :| 0 <= i < |c.sources| && c.sources[i] == p;
      assert multiset(written)[i] == 1;
      var k :| 0 <= k < |written| && written[k] == i;
      assert ws[k] in ws && ws[k].path == p;
    }
    forall p | p in PathsOf(ws) ensures p in Elements(c.sources) {
      var w :| w in ws && w.path == p;
      var k :| 0 <= k < |ws| && ws[k] == w;
      assert written[k] in written;
    }
  }

  lemma OccursOnce(s: seq<nat>, j: nat, k: nat)
    requires j < k < |s| && multiset(s)[s[j]] <= 1
    ensures s[j] != s[k]
  {
    assert s == s[..k] + s[k..] && s[..k][j] == s[j] && s[k..][0] == s[k];
    assert s[j] in multiset(s[..k]) && s[k] in multiset(s[k..]);
    assert multiset(s) == multiset(s[..k]) + multiset(s[k..]);
  }

  /**
   * Committing a successful run publishes a version whose sources are exactly the discovered
   * ones with their fresh contributions: nothing from the prior version is left.
   */
  lemma SuccessfulRunIsTheSnapshot(c: Config, actions: seq<Action>, s: State, extract: Path -> Content,
                                   prior: Snapshot, facts: Facts)
    requires c.Valid() && Reaches(c, actions, s) && Success(s)
    ensures forall i :: i in s.consumer.written ==> i < |c.sources|
    ensures var writes := WrittenSources(c, s.consumer.written, extract);
            var shown := CommittedSnapshot(prior, Elements(c.sources), writes, facts).sources;
            && shown.Keys == Elements(c.sources)
            && forall p :: p in shown ==> shown[p] == extract(p)
  {
    SuccessWritesEverything(c, actions, s);
    WrittenAreDistinct(c, s.consumer.written, extract);
    var ws := WrittenSources(c, s.consumer.written, extract);
    forall p | p in UpdateMap(ws) ensures UpdateMap(ws)[p] == extract(p) {
      RowIntervals.UpdateMapItems(ws, p, UpdateMap(ws)[p]);
      var k :| 0 <= k < |ws| && ws[k] == Source(p, UpdateMap(ws)[p]);
    }
  }
}
