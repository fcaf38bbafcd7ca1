/** What every run of the indexer queue keeps, and exactly when queued work can stall. */
module IndexerSafety {
  import opened Common
  import opened IndexerQueue

  // ----- How one event changes what is owed -----

  lemma AcceptedIsOwed(log: seq<Event>, h: nat, q: Path, g: nat, p: Path)
    ensures Owed(log + [Accepted(h, q)], g, p) <==> Owed(log, g, p) || (g == h && p == q)
    ensures Waiting(log + [Accepted(h, q)], g, p) <==> Waiting(log, g, p) || (g == h && p == q)
  {
    var longer := log + [Accepted(h, q)];
    assert forall e: Event :: !e.Accepted? ==> (e in longer <==> e in log);
    assert forall i: nat :: i < |log| ==> longer[i] == log[i];
    forall i: nat | i < |log|
      ensures Delivered(longer, i, p) <==> Delivered(log, i, p)
      ensures Taken(longer, i, p) <==> Taken(log, i, p)
    {
      SameCarriers(log, longer, i, p);
    }
    assert longer[|log|] == Accepted(h, q) && !Delivered(longer, |log|, q) && !Taken(longer, |log|, q);
  }

  /** An event that is no batch start and no outcome changes no carrier. */
  lemma SameCarriers(log: seq<Event>, longer: seq<Event>, i: nat, p: Path)
    requires |longer| == |log| + 1 && longer[..|log|] == log && !longer[|log|].Began?
    requires forall e: Event :: e.Succeeded? || e.Failed? ==> (e in longer <==> e in log)
    ensures Delivered(longer, i, p) <==> Delivered(log, i, p)
    ensures Taken(longer, i, p) <==> Taken(log, i, p)
  {
    assert forall j: nat :: j < |log| ==> longer[j] == log[j];
    if Delivered(log, i, p) {
      var j :| i < j < |log| && Carries(log[j], p) && Succeeded(log[j].generation, log[j].batch) in log;
      assert Carries(longer[j], p);
    }
    if Taken(log, i, p) {
      var j :| i < j < |log| && Carries(log[j], p) && Failed(log[j].generation, log[j].batch) !in log;
      assert Carries(longer[j], p);
    }
  }

  ghost predicate NoOutcome(log: seq<Event>, g: nat, b: nat) {
    Succeeded(g, b) !in log && Failed(g, b) !in log
  }

  lemma BeganCarries(log: seq<Event>, b: nat, paths: seq<Path>, g: nat, p: Path, i: nat)
    requires NoOutcome(log, g, b) && i < |log|
    ensures Delivered(log + [Began(g, b, paths)], i, p) <==> Delivered(log, i, p)
    ensures Taken(log + [Began(g, b, paths)], i, p) <==> Taken(log, i, p) || p in paths
  {
    var longer := log + [Began(g, b, paths)];
    assert forall e: Event :: !e.Began? ==> (e in longer <==> e in log);
    assert p in paths ==> Carries(longer[|log|], p);
    if Delivered(log, i, p) {
      var j :| i < j < |log| && Carries(log[j], p) && Succeeded(log[j].generation, log[j].batch) in log;
      assert longer[j] == log[j];
    }
    if Taken(log, i, p) {
      var j :| i < j < |log| && Carries(log[j], p) && Failed(log[j].generation, log[j].batch) !in log;
      assert longer[j] == log[j];
    }
  }

  lemma BeganTakes(log: seq<Event>, b: nat, paths: seq<Path>, g: nat, p: Path)
    requires NoOutcome(log, g, b)
    ensures Owed(log + [Began(g, b, paths)], g, p) <==> Owed(log, g, p)
    ensures Waiting(log + [Began(g, b, paths)], g, p) <==> Waiting(log, g, p) && p !in paths
  {
    hide Delivered, Taken, NoOutcome;
    var longer := log + [Began(g, b, paths)];
    assert forall i: nat :: i < |log| ==> longer[i] == log[i];
    forall i: nat | i < |log|
      ensures Delivered(longer, i, p) <==> Delivered(log, i, p)
      ensures Taken(longer, i, p) <==> Taken(log, i, p) || p in paths
    {
      BeganCarries(log, b, paths, g, p, i);
    }
  }

  /** Every batch but (g, b) has exactly one outcome; (g, b) has none yet. */
  ghost predicate OnlyOpen(log: seq<Event>, g: nat, b: nat) {
    && NoOutcome(log, g, b)
    && forall e :: e in log && e.Began? && !(e.generation == g && e.batch == b) ==>
         (Succeeded(e.generation, e.batch) in log <==> Failed(e.generation, e.batch) !in log)
  }

  lemma SuccessDeliversTaken(log: seq<Event>, b: nat, g: nat, p: Path, i: nat)
    requires OnlyOpen(log, g, b) && i < |log|
    ensures Delivered(log + [Succeeded(g, b)], i, p) <==> Taken(log, i, p)
    ensures Taken(log + [Succeeded(g, b)], i, p) <==> Taken(log, i, p)
  {
    var longer := log + [Succeeded(g, b)];
    assert forall e: Event :: e in longer <==> e in log || e == Succeeded(g, b);
    if Taken(log, i, p) {
      var j :| i < j < |log| && Carries(log[j], p) && Failed(log[j].generation, log[j].batch) !in log;
      assert longer[j] == log[j] && log[j] in log;
    }
    if Delivered(longer, i, p) {
      var j :| i < j < |longer| && Carries(longer[j], p) && Succeeded(longer[j].generation, longer[j].batch) in longer;
      assert longer[j] == log[j] && log[j] in log;
    }
  }

  /** Success of the open batch: exactly the waiting paths stay owed. */
  lemma SucceededDelivers(log: seq<Event>, b: nat, g: nat, p: Path)
    requires OnlyOpen(log, g, b)
    ensures Owed(log + [Succeeded(g, b)], g, p) <==> Waiting(log, g, p)
    ensures Waiting(log + [Succeeded(g, b)], g, p) <==> Waiting(log, g, p)
  {
    hide Delivered, Taken, OnlyOpen;
    var longer := log + [Succeeded(g, b)];
    assert forall i: nat :: i < |log| ==> longer[i] == log[i];
    forall i: nat | i < |log|
      ensures Delivered(longer, i, p) <==> Taken(log, i, p)
      ensures Taken(longer, i, p) <==> Taken(log, i, p)
    {
      SuccessDeliversTaken(log, b, g, p, i);
    }
  }

  lemma FailureReturnsTaken(log: seq<Event>, b: nat, g: nat, p: Path, i: nat)
    requires OnlyOpen(log, g, b) && i < |log|
    ensures Delivered(log + [Failed(g, b)], i, p) <==> Delivered(log, i, p)
    ensures Taken(log + [Failed(g, b)], i, p) <==> Delivered(log, i, p)
  {
    var longer := log + [Failed(g, b)];
    assert forall e: Event :: e in longer <==> e in log || e == Failed(g, b);
    if Delivered(log, i, p) {
      var j :| i < j < |log| && Carries(log[j], p) && Succeeded(log[j].generation, log[j].batch) in log;
      assert longer[j] == log[j] && log[j] in log;
      assert Failed(log[j].generation, log[j].batch) !in longer;
    }
    if Taken(longer, i, p) {
      var j :| i < j < |longer| && Carries(longer[j], p) && Failed(longer[j].generation, longer[j].batch) !in longer;
      assert longer[j] == log[j] && log[j] in log;
    }
  }

  /** Failure of the open batch: everything owed waits again. */
  lemma FailedReturns(log: seq<Event>, b: nat, g: nat, p: Path)
    requires OnlyOpen(log, g, b)
    ensures Owed(log + [Failed(g, b)], g, p) <==> Owed(log, g, p)
    ensures Waiting(log + [Failed(g, b)], g, p) <==> Owed(log, g, p)
  {
    hide Delivered, Taken, OnlyOpen;
    var longer := log + [Failed(g, b)];
    assert forall i: nat :: i < |log| ==> longer[i] == log[i];
    forall i: nat | i < |log|
      ensures Delivered(longer, i, p) <==> Delivered(log, i, p)
      ensures Taken(longer, i, p) <==> Delivered(log, i, p)
    {
      FailureReturnsTaken(log, b, g, p, i);
    }
  }

  // ----- The invariant -----

  ghost predicate WorkerOk(s: State, w: Worker) {
    && w.generation < s.generations
    && Distinct(w.pending) && w.pendingSet == Elements(w.pending)
    && (w.publishing <==> s.flights != [])
    && (w.timer.Some? ==> w.timer.value in s.outstanding && w.pending != [] && !w.publishing && !w.stopping)
  }

  /** At most one flight, started by the live worker, which holds the only owner lock. */
  ghost predicate Consistent(s: State) {
    && |s.flights| <= 1
    && (s.worker.Some? ==> WorkerOk(s, s.worker.value))
    && (s.flights != [] ==> s.worker.Some? && s.worker.value.generation == s.flights[0].generation)
    && (s.flights != [] ==> s.flights[0].batch < s.batches && s.flights[0].paths != [])
    && s.locks == (if s.worker.Some? then {s.worker.value.generation} else {})
    && (forall t :: t in s.outstanding ==> t < s.timers)
  }

  ghost predicate LogOk(s: State) {
    && (forall e :: e in s.log ==> e.generation < s.generations && (e.Accepted? || e.batch < s.batches))
    && (if s.flights == [] then
          forall e :: e in s.log && e.Began? ==>
            (Succeeded(e.generation, e.batch) in s.log <==> Failed(e.generation, e.batch) !in s.log)
        else OnlyOpen(s.log, s.flights[0].generation, s.flights[0].batch))
  }

  predicate InFlight(s: State, p: Path) {
    s.flights != [] && p in s.flights[0].paths
  }

  /** Pending is exactly what waits; pending and in flight is exactly what is owed. */
  ghost predicate Ledger(s: State) {
    s.worker.Some? ==>
      var w := s.worker.value;
      forall p :: (Waiting(s.log, w.generation, p) <==> p in w.pending) &&
                  (Owed(s.log, w.generation, p) <==> p in w.pending || InFlight(s, p))
  }

  ghost predicate Delays(c: Config, s: State) {
    s.worker.Some? ==> s.worker.value.retryDelay == Backoff(c, Streak(s.log, s.worker.value.generation))
  }

  ghost predicate Inv(c: Config, s: State) {
    Consistent(s) && LogOk(s) && Ledger(s) && Delays(c, s)
  }

  // ----- Start -----

  lemma {:induction false} UnknownGeneration(log: seq<Event>, g: nat)
    requires forall e :: e in log ==> e.generation < g
    ensures Streak(log, g) == 0
    ensures forall p :: !Owed(log, g, p) && !Waiting(log, g, p)
  {
    if log != [] {
      UnknownGeneration(log[..|log| - 1], g);
      assert log[|log| - 1] in log;
    }
    forall p ensures !Owed(log, g, p) && !Waiting(log, g, p) {
      assert forall i :: 0 <= i < |log| ==> log[i] in log;
    }
  }

  lemma StartKeepsInv(c: Config, s: State, acquired: bool)
    requires Inv(c, s)
    ensures Inv(c, StartWorker(s, acquired))
  {
    hide Owed, Waiting;
    if s.worker.None? && acquired {
      UnknownGeneration(s.log, s.generations);
    }
  }

  // ----- Enqueue -----

  lemma {:induction false} AcceptedManyOwed(log: seq<Event>, g: nat, paths: seq<Path>, p: Path)
    ensures Owed(log + AcceptedEvents(g, paths), g, p) <==> Owed(log, g, p) || p in paths
    ensures Waiting(log + AcceptedEvents(g, paths), g, p) <==> Waiting(log, g, p) || p in paths
    ensures Streak(log + AcceptedEvents(g, paths), g) == Streak(log, g)
  {
    hide Owed, Waiting;
    if paths == [] {
      assert log + AcceptedEvents(g, paths) == log;
    } else {
      var n := |paths| - 1;
      var init := paths[..n];
      AcceptedManyOwed(log, g, init, p);
      var longer := log + AcceptedEvents(g, init);
      AcceptedIsOwed(longer, g, paths[n], g, p);
      assert log + AcceptedEvents(g, paths) == longer + [Accepted(g, paths[n])];
      assert (longer + [Accepted(g, paths[n])])[..|longer|] == longer;
      assert p in paths <==> p in init || p == paths[n];
    }
  }

  lemma AcceptKeepsInv(c: Config, s: State, paths: seq<Path>)
    requires Inv(c, s) && s.worker.Some?
    ensures Inv(c, AcceptPaths(s, s.worker.value, paths))
  {
    hide Owed, Waiting, OnlyOpen;
    var w := s.worker.value;
    var s' := AcceptPaths(s, w, paths);
    var w' := s'.worker.value;
    forall p
      ensures Waiting(s'.log, w.generation, p) <==> p in w'.pending
      ensures Owed(s'.log, w.generation, p) <==> p in w'.pending || InFlight(s', p)
      ensures Streak(s'.log, w.generation) == Streak(s.log, w.generation)
    {
      AcceptedManyOwed(s.log, w.generation, paths, p);
      assert p in w'.pending <==> p in Elements(w.pending + paths);
    }
    PendingStays(w.pending, paths);
    assert Streak(s'.log, w.generation) == Streak(s.log, w.generation) by {
      AcceptedManyOwed(s.log, w.generation, paths, "");
    }
    AcceptKeepsLog(s, s', w.generation, paths);
  }

  lemma PendingStays(pending: seq<Path>, paths: seq<Path>)
    ensures pending != [] ==> FirstOccurrences(pending + paths) != []
  {
    if pending != [] { assert pending[0] in Elements(pending + paths); }
  }

  lemma AcceptKeepsLog(s: State, s': State, g: nat, paths: seq<Path>)
    requires LogOk(s) && g < s.generations
    requires s'.log == s.log + AcceptedEvents(g, paths)
    requires s'.flights == s.flights && s'.generations == s.generations && s'.batches == s.batches
    ensures LogOk(s')
  {
    assert forall e: Event :: e in s'.log <==> e in s.log || e in AcceptedEvents(g, paths);
    assert forall e: Event :: e in AcceptedEvents(g, paths) ==> e.Accepted? && e.generation == g;
  }

  lemma ScheduleKeepsInv(c: Config, s: State, w: Worker, delay: nat)
    requires Inv(c, s.(worker := Some(w))) && w.timer.None? && w.pending != [] && !w.publishing && !w.stopping
    ensures Inv(c, Schedule(s, w, delay))
  {
    hide Owed, Waiting, OnlyOpen, Streak;
    var s0, s' := s.(worker := Some(w)), Schedule(s, w, delay);
    assert WorkerOk(s0, w);
    assert InFlightSame(s0, s');
  }

  ghost predicate InFlightSame(s: State, s': State) {
    forall p :: InFlight(s, p) <==> InFlight(s', p)
  }

  lemma EnqueueKeepsInv(c: Config, s: State, events: seq<Option<Path>>)
    requires Inv(c, s)
    ensures Inv(c, EnqueueEvents(c, s, events))
  {
    hide Inv;
    if s.worker.Some? && !s.worker.value.stopping {
      AcceptKeepsInv(c, s, ValidPrefix(events));
      var accepted := AcceptPaths(s, s.worker.value, ValidPrefix(events));
      var w := accepted.worker.value;
      assert accepted.(worker := Some(w)) == accepted;
      if AllNormalise(events) && w.pending != [] && !w.publishing && w.timer.None? {
        ScheduleKeepsInv(c, accepted, w, c.throttle);
      }
    }
  }

  // ----- Publish callbacks and results -----

  lemma FireKeepsInv(c: Config, s: State, t: TimerId)
    requires Inv(c, s) && t in s.outstanding
    ensures Inv(c, BeginPublish(s.(outstanding := s.outstanding - {t})))
  {
    hide Ledger, LogOk, Delays, Elements, FirstOccurrences;
    if s.worker.Some? {
      var w := s.worker.value;
      if w.stopping || w.publishing || w.pending == [] {
        assert w.timer.None?;
        QuietFire(c, s, t);
      } else {
        BeganLedger(s, t);
        BeganLog(s, t);
        BeganDelays(c, s, t);
      }
    } else {
      QuietFire(c, s, t);
    }
  }

  /** What a callback that finds nothing to do leaves alone. */
  lemma QuietFire(c: Config, s: State, t: TimerId)
    ensures var s' := s.(outstanding := s.outstanding - {t});
            (LogOk(s) ==> LogOk(s')) && (Ledger(s) ==> Ledger(s')) && (Delays(c, s) ==> Delays(c, s'))
  {
    hide Owed, Waiting;
  }

  lemma BeganLedger(s: State, t: TimerId)
    requires Consistent(s) && LogOk(s) && Ledger(s) && s.worker.Some?
    requires var w := s.worker.value; !w.stopping && !w.publishing && w.pending != []
    ensures Ledger(BeginPublish(s.(outstanding := s.outstanding - {t})))
  {
    hide Owed, Waiting, Distinct, Elements;
    var w, s' := s.worker.value, BeginPublish(s.(outstanding := s.outstanding - {t}));
    assert NoOutcome(s.log, w.generation, s.batches);
    forall p
      ensures Waiting(s'.log, w.generation, p) <==> false
      ensures Owed(s'.log, w.generation, p) <==> p in w.pending
    {
      BeganTakes(s.log, s.batches, w.pending, w.generation, p);
    }
  }

  lemma BeganLog(s: State, t: TimerId)
    requires Consistent(s) && LogOk(s) && s.worker.Some?
    requires var w := s.worker.value; !w.stopping && !w.publishing && w.pending != []
    ensures LogOk(BeginPublish(s.(outstanding := s.outstanding - {t})))
  {
    hide Distinct, Elements;
    var w, s' := s.worker.value, BeginPublish(s.(outstanding := s.outstanding - {t}));
    assert forall e: Event :: e in s'.log <==> e in s.log || e == Began(w.generation, s.batches, w.pending);
  }

  lemma BeganDelays(c: Config, s: State, t: TimerId)
    requires Delays(c, s) && s.worker.Some?
    requires var w := s.worker.value; !w.stopping && !w.publishing && w.pending != []
    ensures Delays(c, BeginPublish(s.(outstanding := s.outstanding - {t})))
  {
    hide Backoff;
    assert BeginPublish(s.(outstanding := s.outstanding - {t})).log[..|s.log|] == s.log;
  }

  lemma {:induction false} PowerPositive(n: nat)
    ensures Power(n) >= 1
  {
    if n > 0 { PowerPositive(n - 1); }
  }

  /** One more failure moves the delay one step along the backoff curve. */
  lemma StepDelay(c: Config, k: nat)
    requires c.Valid()
    ensures NextDelay(c, Backoff(c, k)) == Backoff(c, k + 1)
  {
    if k >= 1 {
      PowerPositive(k - 1);
      var x := c.retryBase * Power(k - 1);
      assert x >= 1;
      assert c.retryBase * Power(k) == 2 * x;
    }
  }

  /** The worker as the publisher's result leaves it, before any rescheduling. */
  function Returned(c: Config, s: State, f: Flight, ok: bool): State
    requires s.worker.Some?
  {
    var w := s.worker.value;
    var pending := if ok then w.pending else FirstOccurrences(f.paths + w.pending);
    s.(worker := Some(w.(publishing := false, pending := pending,
                         pendingSet := if ok then w.pendingSet else Elements(pending),
                         retryDelay := if ok then 0 else NextDelay(c, w.retryDelay))),
       flights := [],
       log := s.log + [if ok then Succeeded(f.generation, f.batch) else Failed(f.generation, f.batch)])
  }

  lemma ReturnedLedger(c: Config, s: State, ok: bool)
    requires Inv(c, s) && s.flights != []
    ensures Ledger(Returned(c, s, s.flights[0], ok))
  {
    hide Owed, Waiting, OnlyOpen, Streak;
    var f, w := s.flights[0], s.worker.value;
    var s' := Returned(c, s, f, ok);
    forall p
      ensures Waiting(s'.log, w.generation, p) <==> p in s'.worker.value.pending
      ensures Owed(s'.log, w.generation, p) <==> p in s'.worker.value.pending
    {
      if ok {
        SucceededDelivers(s.log, f.batch, f.generation, p);
      } else {
        FailedReturns(s.log, f.batch, f.generation, p);
        assert p in s'.worker.value.pending <==> p in Elements(f.paths + w.pending);
      }
    }
  }

  lemma OutcomeSettles(log: seq<Event>, g: nat, b: nat, outcome: Event)
    requires OnlyOpen(log, g, b) && (outcome == Succeeded(g, b) || outcome == Failed(g, b))
    ensures forall e :: e in log + [outcome] && e.Began? ==>
              (Succeeded(e.generation, e.batch) in log + [outcome] <==>
                 Failed(e.generation, e.batch) !in log + [outcome])
  {
    var longer := log + [outcome];
    assert forall e: Event :: e in longer <==> e in log || e == outcome;
  }

  lemma ReturnedLog(c: Config, s: State, ok: bool)
    requires Inv(c, s) && s.flights != []
    ensures LogOk(Returned(c, s, s.flights[0], ok))
  {
    hide Owed, Waiting, OnlyOpen, Streak;
    var f := s.flights[0];
    var outcome := if ok then Succeeded(f.generation, f.batch) else Failed(f.generation, f.batch);
    OutcomeSettles(s.log, f.generation, f.batch, outcome);
    assert forall e: Event :: e in s.log + [outcome] <==> e in s.log || e == outcome;
  }

  lemma ReturnedDelays(c: Config, s: State, ok: bool)
    requires c.Valid() && Inv(c, s) && s.flights != []
    ensures Delays(c, Returned(c, s, s.flights[0], ok))
  {
    hide Ledger, LogOk, Backoff, NextDelay, FirstOccurrences, Elements, Distinct;
    var f := s.flights[0];
    assert Returned(c, s, f, ok).log[..|s.log|] == s.log;
    StepDelay(c, Streak(s.log, f.generation));
    assert Backoff(c, 0) == 0 by { ZeroBackoff(c); }
  }

  lemma ZeroBackoff(c: Config)
    ensures Backoff(c, 0) == 0
  {}

  lemma ReturnedKeepsInv(c: Config, s: State, ok: bool)
    requires c.Valid() && Inv(c, s) && s.flights != []
    ensures Inv(c, Returned(c, s, s.flights[0], ok))
  {
    hide Ledger, LogOk, Delays;
    ReturnedLedger(c, s, ok);
    ReturnedLog(c, s, ok);
    ReturnedDelays(c, s, ok);
  }

  lemma ReturnKeepsInv(c: Config, s: State, i: nat, ok: bool)
    requires c.Valid() && Inv(c, s) && i < |s.flights|
    ensures Inv(c, Step(c, s, Return(i, ok)))
  {
    hide Ledger, LogOk, Delays, FirstOccurrences, Elements, Distinct, NextDelay;
    var f := s.flights[0];
    assert i == 0 && s.flights[..i] + s.flights[i + 1..] == [];
    ReturnedKeepsInv(c, s, ok);
    var s' := Returned(c, s, f, ok);
    var w' := s'.worker.value;
    assert s'.(worker := Some(w')) == s';
    if w'.pending != [] && !w'.stopping && w'.timer.None? {
      ScheduleKeepsInv(c, s', w', if ok then c.throttle else w'.retryDelay);
      assert Step(c, s, Return(i, ok)) == Schedule(s', w', if ok then c.throttle else w'.retryDelay);
    } else {
      assert Step(c, s, Return(i, ok)) == s';
    }
  }

  // ----- Stop -----

  lemma StopKeepsInv(c: Config, s: State, timerStopped: bool, closed: bool)
    requires Inv(c, s)
    ensures Inv(c, StopOnce(s, timerStopped, closed))
  {
    hide Owed, Waiting, OnlyOpen, Streak;
    var s' := StopOnce(s, timerStopped, closed);
    assert InFlightSame(s, s');
  }

  // ----- Every run -----

  lemma StepKeepsInv(c: Config, s: State, a: Action)
    requires c.Valid() && Inv(c, s) && Enabled(s, a)
    ensures Inv(c, Step(c, s, a))
  {
    hide Inv;
    match a
    case Start(acquired) => StartKeepsInv(c, s, acquired);
    case Enqueue(events) => EnqueueKeepsInv(c, s, events);
    case Fire(t) => FireKeepsInv(c, s, t);
    case Return(i, ok) => ReturnKeepsInv(c, s, i, ok);
    case Stop(timerStopped, closed) => StopKeepsInv(c, s, timerStopped, closed);
  }

  lemma {:induction false} ReachableInv(c: Config, actions: seq<Action>, s: State)
    requires c.Valid() && Reaches(c, actions, s)
    ensures Inv(c, s)
  {
    hide Enabled, Step;
    if actions != [] {
      var init, last := actions[..|actions| - 1], actions[|actions| - 1];
      var p :| Reaches(c, init, p) && Enabled(p, last) && s == Step(c, p, last);
      ReachableInv(c, init, p);
      hide Inv;
      StepKeepsInv(c, p, last);
    }
  }

  /**
   * In every run, stale callbacks and restarts included: at most one publish is in flight,
   * its worker is live and holds the owner lock; pending has no duplicates and equals its
   * set; and the paths pending or in flight are exactly those accepted by the live worker
   * and not yet in a successful batch.
   */
  lemma QueueSafety(c: Config, actions: seq<Action>, s: State)
    requires c.Valid() && Reaches(c, actions, s)
    ensures |s.flights| <= 1
    ensures forall f :: f in s.flights ==>
              s.worker.Some? && s.worker.value.generation == f.generation && f.generation in s.locks
    ensures s.worker.Some? ==>
              Distinct(s.worker.value.pending) && s.worker.value.pendingSet == Elements(s.worker.value.pending)
    ensures s.worker.Some? ==>
              forall p :: Owed(s.log, s.worker.value.generation, p) <==> p in s.worker.value.pending || InFlight(s, p)
    ensures s.worker.None? ==> s.locks == {} && s.flights == []
  {
    hide Owed, Waiting, LogOk, Delays, Reaches;
    ReachableInv(c, actions, s);
  }

  /** The delay after k failures in a row follows the doubling curve up to the maximum. */
  lemma RetryDelayIsBackoff(c: Config, actions: seq<Action>, s: State)
    requires c.Valid() && Reaches(c, actions, s) && s.worker.Some?
    ensures s.worker.value.retryDelay == Backoff(c, Streak(s.log, s.worker.value.generation))
  {
    ReachableInv(c, actions, s);
  }

  /** A failed publish of a worker that is not stopping arms a callback with that delay. */
  lemma FailureArmsBackoff(c: Config, actions: seq<Action>, s: State)
    requires c.Valid() && Reaches(c, actions, s)
    requires s.flights != [] && s.worker.Some? && !s.worker.value.stopping
    ensures var s' := Step(c, s, Return(0, false));
            && s'.worker.Some? && s'.worker.value.timer.Some? && s'.worker.value.timer.value in s'.outstanding
            && s'.outstanding[s'.worker.value.timer.value] == Backoff(c, Streak(s'.log, s'.worker.value.generation))
            && Streak(s'.log, s'.worker.value.generation) == Streak(s.log, s.worker.value.generation) + 1
  {
    hide Ledger, LogOk, Backoff, NextDelay, Distinct, Reaches, Step;
    ReachableInv(c, actions, s);
    FailureSchedules(c, s);
    ReturnKeepsInv(c, s, 0, false);
  }

  lemma FailureSchedules(c: Config, s: State)
    requires s.flights != [] && s.worker.Some? && !s.worker.value.stopping && s.worker.value.timer.None?
    requires s.worker.value.generation == s.flights[0].generation && s.flights[0].paths != []
    ensures var w, s' := s.worker.value, Step(c, s, Return(0, false));
            && s'.worker.Some? && s'.worker.value.timer.Some? && s'.worker.value.timer.value in s'.outstanding
            && s'.outstanding[s'.worker.value.timer.value] == s'.worker.value.retryDelay
            && s'.worker.value.generation == w.generation
            && Streak(s'.log, w.generation) == Streak(s.log, w.generation) + 1
  {
    hide NextDelay, FirstOccurrences, Streak, Elements;
    var f := s.flights[0];
    PendingAfterAccept(f.paths, s.worker.value.pending);
    FailureLengthens(s.log, f.generation, f.batch);
  }

  /** A successful publish that leaves work for a worker that is not stopping arms one after the throttle. */
  lemma SuccessArmsThrottle(c: Config, actions: seq<Action>, s: State)
    requires c.Valid() && Reaches(c, actions, s) && s.flights != [] && HasWork(s)
    ensures var s' := Step(c, s, Return(0, true));
            && s.timers !in s.outstanding && s'.outstanding == s.outstanding[s.timers := c.throttle]
            && s'.worker.Some? && s'.worker.value.timer == Some(s.timers) && s'.worker.value.retryDelay == 0
            && s'.worker.value.pending == s.worker.value.pending
  {
    hide Ledger, LogOk, Delays, Reaches;
    ReachableInv(c, actions, s);
  }

  /** So does an enqueue that leaves work for a worker without a callback or a publish under way. */
  lemma EnqueueArmsThrottle(c: Config, actions: seq<Action>, s: State, events: seq<Option<Path>>)
    requires c.Valid() && Reaches(c, actions, s) && s.worker.Some? && AllNormalise(events)
    requires var w := s.worker.value;
             !w.stopping && !w.publishing && w.timer.None? && (w.pending != [] || events != [])
    ensures var s' := Step(c, s, Enqueue(events));
            && s.timers !in s.outstanding && s'.outstanding == s.outstanding[s.timers := c.throttle]
            && s'.worker.Some? && s'.worker.value.timer == Some(s.timers)
  {
    hide Ledger, LogOk, Delays, Reaches;
    ReachableInv(c, actions, s);
    PendingAfterAccept(s.worker.value.pending, ValidPrefix(events));
  }

  lemma FailureLengthens(log: seq<Event>, g: nat, b: nat)
    ensures Streak(log + [Failed(g, b)], g) == Streak(log, g) + 1
  {
    assert (log + [Failed(g, b)])[..|log|] == log;
  }

  /** The curve is min(base * 2^(k-1), max) for every k exactly when base is at most max. */
  lemma BackoffIsCappedDoubling(c: Config)
    requires c.Valid()
    ensures (forall k: nat :: k >= 1 ==>
               var doubled := c.retryBase * Power(k - 1);
               Backoff(c, k) == if doubled > c.retryMax then c.retryMax else doubled)
            <==> c.retryBase <= c.retryMax
  {
    assert Power(0) == 1;
    assert Backoff(c, 1) == c.retryBase;
    if c.retryBase > c.retryMax {
      assert c.retryBase * Power(1 - 1) > c.retryMax;
    }
  }

  // ----- Stalling -----

  /** Queued work on a live worker that is not stopping. */
  predicate HasWork(s: State) {
    s.worker.Some? && s.worker.value.pending != [] && !s.worker.value.stopping
  }

  /** Queued work that no publish in flight and no outstanding callback, given up or not, will pick up. */
  predicate Stalled(s: State) {
    HasWork(s) && !s.worker.value.publishing && s.outstanding == map[]
  }

  /**
   * In every run, queued work is stalled exactly when neither a callback can run nor a publisher
   * return; otherwise, with none in flight, whichever callback runs first publishes all of it.
   */
  lemma NotStalledIsScheduled(c: Config, actions: seq<Action>, s: State)
    requires c.Valid() && Reaches(c, actions, s) && HasWork(s)
    ensures Stalled(s) <==> forall a: Action :: a.Fire? || a.Return? ==> !Enabled(s, a)
    ensures s.flights == [] ==>
              forall t :: t in s.outstanding ==>
                Step(c, s, Fire(t)).flights == [Flight(s.batches, s.worker.value.generation, s.worker.value.pending)]
  {
    hide Ledger, LogOk, Delays, Reaches;
    ReachableInv(c, actions, s);
    if s.flights != [] { assert Enabled(s, Return(0, true)); }
    if s.outstanding != map[] {
      var t :| t in s.outstanding;
      assert Enabled(s, Fire(t));
    }
  }

  /** The two ways out of the lock that forget to schedule, when no callback is left over. */
  predicate LeavesUnscheduled(s: State, a: Action) {
    s.worker.Some? && var w := s.worker.value;
    match a
    case Enqueue(events) =>
      && !AllNormalise(events) && !w.stopping && !w.publishing && (w.pending != [] || ValidPrefix(events) != [])
      && s.outstanding == map[]
    case Stop(timerStopped, closed) =>
      && !closed && !w.publishing && w.pending != []
      && (if w.timer.Some? && timerStopped then s.outstanding - {w.timer.value} else s.outstanding) == map[]
    case _ => false
  }

  lemma SchedulingIsOutstanding()
    ensures forall s, w, delay :: Schedule(s, w, delay).outstanding != map[]
  {
    forall s, w, delay ensures Schedule(s, w, delay).outstanding != map[] {
      assert s.timers in Schedule(s, w, delay).outstanding;
    }
  }

  /** A step stalls a queue that was not stalled exactly when it is one of those two. */
  lemma StallsExactly(c: Config, s: State, a: Action)
    requires c.Valid() && Inv(c, s) && !Stalled(s) && Enabled(s, a)
    ensures Stalled(Step(c, s, a)) <==> LeavesUnscheduled(s, a)
  {
    hide Ledger, LogOk, Delays;
    SchedulingIsOutstanding();
    match a {
      case Enqueue(events) =>
        if s.worker.Some? && !s.worker.value.stopping {
          var w := s.worker.value;
          PendingAfterAccept(w.pending, ValidPrefix(events));
        }
      case Return(i, ok) =>
        assert s.flights[i] == s.flights[0];
      case _ =>
    }
  }

  /**
   * A stop that comes too late for the timer and then fails to close the owner does not stall: the
   * callback it gave up still publishes what was queued.
   */
  lemma GivenUpCallbackStillPublishes(c: Config, p: Path)
    ensures var queued := Step(c, Step(c, INITIAL, Start(true)), Enqueue([Some(p)]));
            var s := Step(c, queued, Stop(false, false));
            && HasWork(s) && s.worker.value.timer.None? && !Stalled(s)
            && Enabled(s, Fire(0)) && Step(c, s, Fire(0)).flights == [Flight(0, 0, [p])]
  {
    hide FirstOccurrences;
    assert [Some(p)][1..] == [] && ValidPrefix([Some(p)]) == [p];
    FirstOccurrencesOfDistinct([p]);
    assert [] + [p] == [p];
    var started := Step(c, INITIAL, Start(true));
    var queued := Step(c, started, Enqueue([Some(p)]));
    assert queued.worker.value.pending == [p] && queued.outstanding == map[0 := c.throttle];
    hide EnqueueEvents, StartWorker;
    var s := Step(c, queued, Stop(false, false));
    assert 0 in s.outstanding;
  }

  lemma PendingAfterAccept(pending: seq<Path>, paths: seq<Path>)
    ensures FirstOccurrences(pending + paths) != [] <==> pending != [] || paths != []
  {
    if pending + paths != [] { assert (pending + paths)[0] in Elements(pending + paths); }
  }

  /** In runs where paths normalise and owner close never fails, queued work never stalls. */
  lemma {:induction false} NoStall(c: Config, actions: seq<Action>, s: State)
    requires c.Valid() && Reaches(c, actions, s)
    requires forall i :: 0 <= i < |actions| ==>
               (actions[i].Enqueue? ==> AllNormalise(actions[i].events)) && (actions[i].Stop? ==> actions[i].closed)
    ensures !Stalled(s)
  {
    hide Enabled, Step;
    if actions != [] {
      var init, last := actions[..|actions| - 1], actions[|actions| - 1];
      var p :| Reaches(c, init, p) && Enabled(p, last) && s == Step(c, p, last);
      NoStall(c, init, p);
      ReachableInv(c, init, p);
      StallsExactly(c, p, last);
      assert !LeavesUnscheduled(p, last);
    }
  }

  /** A valid path followed by one that does not normalise is enough to stall a fresh worker. */
  lemma StallIsReachable(c: Config, p: Path)
    ensures Stalled(Step(c, Step(c, INITIAL, Start(true)), Enqueue([Some(p), None])))
  {
    assert ValidPrefix([Some(p), None]) == [p] by {
      assert [Some(p), None][1..] == [None];
      assert ValidPrefix([None]) == [];
    }
    assert [Some(p), None][1].None?;
    PendingAfterAccept([], [p]);
  }
}
