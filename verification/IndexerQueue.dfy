/**
 * The indexer manager's queue for one workspace: enqueue, publish callbacks, publisher
 * results, start and stop. Each critical section under the manager's lock is one step;
 * timers are outstanding callbacks that may fire late or after they were given up.
 */
module IndexerQueue {
  import opened Common

  type Path = string
  type TimerId = nat

  datatype Config = Config(throttle: nat, retryBase: nat, retryMax: nat) {
    predicate Valid() { retryBase > 0 && retryMax > 0 }
  }

  /** An option that lowers the maximum below the base leaves the maximum alone. */
  function WithRetryBackoff(c: Config, base: int, maximum: int): (r: Config)
    ensures c.Valid() ==> r.Valid()
    ensures var wanted := if base > 0 then base else c.retryBase;
            && r == Config(c.throttle, wanted, if maximum < wanted then c.retryMax else maximum as nat)
            && (r.retryBase <= r.retryMax <==> wanted <= maximum || wanted <= c.retryMax)
  {
    var based := if base > 0 then c.(retryBase := base) else c;
    if maximum >= based.retryBase then based.(retryMax := maximum) else based
  }

  datatype Worker = Worker(
    generation: nat,
    pending: seq<Path>,
    pendingSet: set<Path>,
    timer: Option<TimerId>,
    publishing: bool,
    stopping: bool,
    retryDelay: nat)

  /** A publisher call in progress; it remembers the worker that started it. */
  datatype Flight = Flight(batch: nat, generation: nat, paths: seq<Path>)

  /** What happened, in order. */
  datatype Event =
    | Accepted(generation: nat, path: Path)
    | Began(generation: nat, batch: nat, paths: seq<Path>)
    | Succeeded(generation: nat, batch: nat)
    | Failed(generation: nat, batch: nat)

  datatype State = State(
    worker: Option<Worker>,           // manager.workers[workspace]
    locks: set<nat>,                  // owner locks held, by worker generation
    outstanding: map<TimerId, nat>,   // publish callbacks not yet run, with their delay
    flights: seq<Flight>,
    generations: nat, timers: nat, batches: nat,
    log: seq<Event>)

  const INITIAL := State(None, {}, map[], [], 0, 0, 0, [])

  datatype Action =
    | Start(acquired: bool)
    | Enqueue(events: seq<Option<Path>>)        // None: the path does not normalise
    | Fire(timer: TimerId)
    | Return(flight: nat, ok: bool)             // the publisher of one flight returns
    | Stop(timerStopped: bool, closed: bool)    // one iteration of the stop loop

  // ----- Critical sections -----

  function Schedule(s: State, w: Worker, delay: nat): State {
    s.(worker := Some(w.(timer := Some(s.timers))),
       outstanding := s.outstanding[s.timers := delay],
       timers := s.timers + 1)
  }

  function StartWorker(s: State, acquired: bool): State {
    if s.worker.Some? || !acquired then s
    else s.(worker := Some(Worker(s.generations, [], {}, None, false, false, 0)),
            locks := s.locks + {s.generations}, generations := s.generations + 1)
  }

  /** The paths before the first one that does not normalise. */
  function ValidPrefix(events: seq<Option<Path>>): (r: seq<Path>)
    ensures |r| <= |events| && forall i :: 0 <= i < |r| ==> events[i] == Some(r[i])
    ensures |r| < |events| ==> events[|r|].None?
  {
    if events == [] || events[0].None? then [] else [events[0].value] + ValidPrefix(events[1..])
  }

  predicate AllNormalise(events: seq<Option<Path>>) {
    forall i :: 0 <= i < |events| ==> events[i].Some?
  }

  function AcceptedEvents(generation: nat, paths: seq<Path>): (r: seq<Event>)
    ensures |r| == |paths| && forall i :: 0 <= i < |r| ==> r[i] == Accepted(generation, paths[i])
  {
    seq(|paths|, i requires 0 <= i < |paths| => Accepted(generation, paths[i]))
  }

  function AcceptPaths(s: State, w: Worker, paths: seq<Path>): State {
    var pending := FirstOccurrences(w.pending + paths);
    s.(worker := Some(w.(pending := pending, pendingSet := Elements(pending))),
       log := s.log + AcceptedEvents(w.generation, paths))
  }

  function EnqueueEvents(c: Config, s: State, events: seq<Option<Path>>): State {
    if s.worker.None? || s.worker.value.stopping then s else
      var accepted := AcceptPaths(s, s.worker.value, ValidPrefix(events));
      var w := accepted.worker.value;
      if AllNormalise(events) && w.pending != [] && !w.publishing && w.timer.None?
      then Schedule(accepted, w, c.throttle)
      else accepted
  }

  /** The callback's first critical section; a callback that finds nothing to do just ends. */
  function BeginPublish(s: State): State {
    if s.worker.None? then s else
      var w := s.worker.value;
      if w.stopping || w.publishing || w.pending == [] then s
      else s.(worker := Some(w.(pending := [], pendingSet := {}, timer := None, publishing := true)),
              flights := s.flights + [Flight(s.batches, w.generation, w.pending)],
              batches := s.batches + 1,
              log := s.log + [Began(w.generation, s.batches, w.pending)])
  }

  function NextDelay(c: Config, delay: nat): nat {
    if delay == 0 then c.retryBase else if 2 * delay > c.retryMax then c.retryMax else 2 * delay
  }

  /** The second critical section, on the worker the flight remembers. */
  function EndPublish(c: Config, s: State, f: Flight, ok: bool): State {
    var logged := s.(log := s.log + [if ok then Succeeded(f.generation, f.batch) else Failed(f.generation, f.batch)]);
    if s.worker.None? || s.worker.value.generation != f.generation then logged else
      var w := s.worker.value;
      var pending := if ok then w.pending else FirstOccurrences(f.paths + w.pending);
      var w' := w.(publishing := false, pending := pending,
                   pendingSet := if ok then w.pendingSet else Elements(pending),
                   retryDelay := if ok then 0 else NextDelay(c, w.retryDelay));
      if w'.pending != [] && !w'.stopping && w'.timer.None?
      then Schedule(logged, w', if ok then c.throttle else w'.retryDelay)
      else logged.(worker := Some(w'))
  }

  /** One pass of the stop loop: it waits while a publish is in flight, otherwise closes the owner. */
  function StopOnce(s: State, timerStopped: bool, closed: bool): State {
    if s.worker.None? then s else
      var w := s.worker.value;
      var left := if w.timer.Some? && timerStopped then s.outstanding - {w.timer.value} else s.outstanding;
      var cleared := s.(outstanding := left);
      if w.publishing then cleared.(worker := Some(w.(stopping := true, timer := None)))
      else if closed then cleared.(worker := None, locks := s.locks - {w.generation})
      else cleared.(worker := Some(w.(stopping := false, timer := None)))
  }

  predicate Enabled(s: State, a: Action) {
    match a
    case Fire(t) => t in s.outstanding
    case Return(i, _) => i < |s.flights|
    case _ => true
  }

  function Step(c: Config, s: State, a: Action): State
    requires Enabled(s, a)
  {
    match a
    case Start(acquired) => StartWorker(s, acquired)
    case Enqueue(events) => EnqueueEvents(c, s, events)
    case Fire(t) => BeginPublish(s.(outstanding := s.outstanding - {t}))
    case Return(i, ok) => EndPublish(c, s.(flights := s.flights[..i] + s.flights[i + 1..]), s.flights[i], ok)
    case Stop(timerStopped, closed) => StopOnce(s, timerStopped, closed)
  }

  ghost predicate Reaches(c: Config, actions: seq<Action>, s: State) {
    if actions == [] then s == INITIAL else
      var last := actions[|actions| - 1];
      exists p :: Reaches(c, actions[..|actions| - 1], p) && Enabled(p, last) && s == Step(c, p, last)
  }

  // ----- What the log says is owed -----

  predicate Carries(e: Event, path: Path) {
    e.Began? && path in e.paths
  }

  /** A batch begun after position i carried the path and succeeded. */
  ghost predicate Delivered(log: seq<Event>, i: nat, path: Path) {
    exists j :: i < j < |log| && Carries(log[j], path) && Succeeded(log[j].generation, log[j].batch) in log
  }

  /** A batch begun after position i carried the path and has not failed. */
  ghost predicate Taken(log: seq<Event>, i: nat, path: Path) {
    exists j :: i < j < |log| && Carries(log[j], path) && Failed(log[j].generation, log[j].batch) !in log
  }

  /** Accepted by worker g, and in no successful batch begun since. */
  ghost predicate Owed(log: seq<Event>, g: nat, path: Path) {
    exists i :: 0 <= i < |log| && log[i] == Accepted(g, path) && !Delivered(log, i, path)
  }

  /** Accepted by worker g, and every batch begun since with it has failed. */
  ghost predicate Waiting(log: seq<Event>, g: nat, path: Path) {
    exists i :: 0 <= i < |log| && log[i] == Accepted(g, path) && !Taken(log, i, path)
  }

  /** Failures in a row since the last success. */
  function Streak(log: seq<Event>, g: nat): nat {
    if log == [] then 0 else
      var init, last := log[..|log| - 1], log[|log| - 1];
      match last
      case Failed(h, _) => if g == h then Streak(init, g) + 1 else Streak(init, g)
      case Succeeded(h, _) => if g == h then 0 else Streak(init, g)
      case _ => Streak(init, g)
  }

  function Power(n: nat): nat { if n == 0 then 1 else 2 * Power(n - 1) }

  /** The delay after k failures in a row. */
  function Backoff(c: Config, k: nat): nat {
    if k == 0 then 0
    else if k == 1 then c.retryBase
    else if c.retryBase * Power(k - 1) > c.retryMax then c.retryMax else c.retryBase * Power(k - 1)
  }
}
