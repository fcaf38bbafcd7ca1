/** The manager object: each method is one critical section of the source, loops included. */
module IndexerManager {
  import opened Common
  import opened IndexerQueue

  /** Appends new paths until one does not normalise. */
  method AppendPaths(start: seq<Path>, startSet: set<Path>, events: seq<Option<Path>>)
    returns (pending: seq<Path>, pendingSet: set<Path>, all: bool)
    requires Distinct(start) && startSet == Elements(start)
    ensures pending == FirstOccurrences(start + ValidPrefix(events))
    ensures pendingSet == Elements(pending) && Distinct(pending)
    ensures all <==> AllNormalise(events)
  {
    hide FirstOccurrences, ValidPrefix, Distinct;
    pending, pendingSet := start, startSet;
    NoEventsYet(start, events);
    var i := 0;
    while i < |events| && events[i].Some?
      invariant 0 <= i <= |events|
      invariant forall j :: 0 <= j < i ==> events[j].Some?
      invariant pending == FirstOccurrences(start + ValidPrefix(events[..i]))
      invariant pendingSet == Elements(pending)
    {
      PrefixGrows(events, i);
      OneMoreOccurrence(start + ValidPrefix(events[..i]), events[i].value);
      assert start + ValidPrefix(events[..i + 1]) == start + ValidPrefix(events[..i]) + [events[i].value];
      if events[i].value !in pendingSet {
        pendingSet := pendingSet + {events[i].value};
        pending := pending + [events[i].value];
      }
      i := i + 1;
    }
    PrefixStops(events, i);
    all := i == |events|;
  }

  lemma NoEventsYet(start: seq<Path>, events: seq<Option<Path>>)
    requires Distinct(start)
    ensures FirstOccurrences(start + ValidPrefix(events[..0])) == start
  {
    FirstOccurrencesOfDistinct(start);
    assert start + [] == start;
  }

  lemma OneMoreOccurrence(s: seq<Path>, p: Path)
    ensures var unique := FirstOccurrences(s);
            FirstOccurrences(s + [p]) == if p in unique then unique else unique + [p]
  {
    assert (s + [p])[..|s|] == s;
  }

  /** The failed batch goes back in front of what was queued meanwhile. */
  method MergeBack(batch: seq<Path>, queued: seq<Path>) returns (pending: seq<Path>, pendingSet: set<Path>)
    ensures pending == FirstOccurrences(batch + queued)
    ensures pendingSet == Elements(pending) && Distinct(pending)
  {
    pending := UniqueInOrder(batch + queued);
    pendingSet := {};
    for k := 0 to |pending|
      invariant pendingSet == Elements(pending[..k])
    {
      assert pending[..k + 1] == pending[..k] + [pending[k]];
      pendingSet := pendingSet + {pending[k]};
    }
    assert pending[..|pending|] == pending;
  }

  class Manager {
    const config: Config
    var worker: Option<Worker>
    var locks: set<nat>
    var outstanding: map<TimerId, nat>
    var flights: seq<Flight>
    var generations: nat
    var timers: nat
    var batches: nat
    ghost var log: seq<Event>

    ghost function Abstract(): State
      reads this
    {
      State(worker, locks, outstanding, flights, generations, timers, batches, log)
    }

    /** Pending has no duplicates and pendingSet mirrors it. */
    ghost predicate Valid()
      reads this
    {
      worker.Some? ==> Distinct(worker.value.pending) && worker.value.pendingSet == Elements(worker.value.pending)
    }

    constructor (config: Config)
      ensures Valid() && Abstract() == INITIAL && this.config == config
    {
      this.config := config;
      worker, locks, outstanding, flights := None, {}, map[], [];
      generations, timers, batches, log := 0, 0, 0, [];
    }

    method ScheduleAfter(w: Worker, delay: nat)
      modifies this
      ensures Abstract() == Schedule(old(Abstract()), w, delay)
    {
      worker := Some(w.(timer := Some(timers)));
      outstanding := outstanding[timers := delay];
      timers := timers + 1;
    }

    method Start(acquired: bool)
      requires Valid()
      modifies this
      ensures Valid() && Abstract() == Step(config, old(Abstract()), Action.Start(acquired))
      ensures worker == if old(worker).Some? || !acquired then old(worker)
                        else Some(Worker(old(generations), [], {}, None, false, false, 0))
      ensures worker != old(worker) ==> locks == old(locks) + {old(generations)} && generations == old(generations) + 1
      ensures outstanding == old(outstanding) && flights == old(flights)
    {
      if worker.Some? || !acquired { return; }
      worker := Some(Worker(generations, [], {}, None, false, false, 0));
      locks := locks + {generations};
      generations := generations + 1;
    }

    /** Paths may be accepted now, or a callback be scheduled: the worker is live and not stopping. */
    predicate Open()
      reads this
    {
      worker.Some? && !worker.value.stopping
    }

    /**
     * Only an enqueue whose every path normalises schedules, after the throttle, when neither a publish nor
     * a callback is under way; otherwise the callbacks stay as they are.
     */
    method Enqueue(events: seq<Option<Path>>) returns (ok: bool)
      requires Valid()
      modifies this
      ensures Valid() && Abstract() == Step(config, old(Abstract()), Action.Enqueue(events))
      ensures ok <==> old(Open()) && AllNormalise(events)
      ensures old(Open()) ==>
                && worker.Some?
                && worker.value.pending == FirstOccurrences(old(worker).value.pending + ValidPrefix(events))
                && worker.value.publishing == old(worker).value.publishing && !worker.value.stopping
      ensures if ok && worker.value.pending != [] && !worker.value.publishing && old(worker).value.timer.None?
              then && worker.value.timer == Some(old(timers))
                   && outstanding == old(outstanding)[old(timers) := config.throttle]
              else outstanding == old(outstanding) && (old(Open()) ==> worker.value.timer == old(worker).value.timer)
      ensures !old(Open()) ==> worker == old(worker)
      ensures locks == old(locks) && flights == old(flights)
    {
      if worker.None? || worker.value.stopping { return false; }
      hide FirstOccurrences, Elements, Distinct, ValidPrefix;
      var w := worker.value;
      var pending, pendingSet;
      pending, pendingSet, ok := AppendPaths(w.pending, w.pendingSet, events);
      w := w.(pending := pending, pendingSet := pendingSet);
      worker := Some(w);
      log := log + AcceptedEvents(w.generation, ValidPrefix(events));
      if ok && |pending| > 0 && !w.publishing && w.timer.None? {
        ScheduleAfter(w, config.throttle);
      }
    }

    /** The publish callback up to the publisher call. */
    method BeginCallback(t: TimerId)
      requires Valid() && t in outstanding
      modifies this
      ensures Valid() && Abstract() == Step(config, old(Abstract()), Fire(t))
      ensures outstanding == old(outstanding) - {t} && locks == old(locks)
      ensures if old(Open()) && !old(worker).value.publishing && old(worker).value.pending != []
              then && flights == old(flights) +
                                 [Flight(old(batches), old(worker).value.generation, old(worker).value.pending)]
                   && worker == Some(old(worker).value.(pending := [], pendingSet := {}, timer := None,
                                                        publishing := true))
              else flights == old(flights) && worker == old(worker)
    {
      outstanding := outstanding - {t};
      if worker.None? { return; }
      var w := worker.value;
      if w.stopping || w.publishing || |w.pending| == 0 { return; }
      flights := flights + [Flight(batches, w.generation, w.pending)];
      log := log + [Began(w.generation, batches, w.pending)];
      batches := batches + 1;
      worker := Some(w.(pending := [], pendingSet := {}, timer := None, publishing := true));
    }

    /**
     * After the publisher returned: on success what was queued meanwhile waits for the throttle; on failure the
     * batch goes back in front of it and waits for the doubled delay. A worker replaced meanwhile is left alone.
     */
    method EndCallback(i: nat, ok: bool)
      requires Valid() && i < |flights|
      modifies this
      ensures Valid() && Abstract() == Step(config, old(Abstract()), Return(i, ok))
      ensures flights == old(flights)[..i] + old(flights)[i + 1..] && locks == old(locks)
      ensures var live := old(worker).Some? && old(worker).value.generation == old(flights)[i].generation;
              if live then
                var w, w' := old(worker).value, worker.value;
                && worker.Some? && !w'.publishing && w'.stopping == w.stopping && w'.generation == w.generation
                && w'.pending == (if ok then w.pending else FirstOccurrences(old(flights)[i].paths + w.pending))
                && w'.retryDelay == (if ok then 0
                                     else if w.retryDelay == 0 then config.retryBase
                                     else if 2 * w.retryDelay > config.retryMax then config.retryMax
                                     else 2 * w.retryDelay)
                && if w'.pending != [] && !w.stopping && w.timer.None?
                   then && w'.timer == Some(old(timers))
                        && outstanding == old(outstanding)[old(timers) := if ok then config.throttle else w'.retryDelay]
                   else w'.timer == w.timer && outstanding == old(outstanding)
              else worker == old(worker) && outstanding == old(outstanding)
    {
      hide FirstOccurrences, Elements, Distinct;
      var f := flights[i];
      flights := flights[..i] + flights[i + 1..];
      log := log + [if ok then Succeeded(f.generation, f.batch) else Failed(f.generation, f.batch)];
      if worker.None? || worker.value.generation != f.generation { return; }
      var w := worker.value.(publishing := false);
      if ok {
        w := w.(retryDelay := 0);
      } else {
        var pending, pendingSet := MergeBack(f.paths, w.pending);
        var delay := config.retryBase;
        if w.retryDelay != 0 {
          delay := 2 * w.retryDelay;
          if delay > config.retryMax { delay := config.retryMax; }
        }
        w := w.(pending := pending, pendingSet := pendingSet, retryDelay := delay);
      }
      worker := Some(w);
      if |w.pending| > 0 && !w.stopping && w.timer.None? {
        ScheduleAfter(w, if ok then config.throttle else w.retryDelay);
      }
    }

    /** One pass of the stop loop; `done` tells whether Stop returns after it. */
    method StopPass(timerStopped: bool, closed: bool) returns (done: bool)
      requires Valid()
      modifies this
      ensures Valid() && Abstract() == Step(config, old(Abstract()), Stop(timerStopped, closed))
      ensures done <==> old(worker).None? || !old(worker).value.publishing
      ensures flights == old(flights)
      ensures outstanding == if old(worker).Some? && old(worker).value.timer.Some? && timerStopped
                             then old(outstanding) - {old(worker).value.timer.value} else old(outstanding)
      ensures if done && (old(worker).None? || closed)
              then && worker == None
                   && locks == old(locks) - if old(worker).None? then {} else {old(worker).value.generation}
              else worker == Some(old(worker).value.(stopping := !done, timer := None)) && locks == old(locks)
    {
      if worker.None? { return true; }
      var w := worker.value.(stopping := true);
      if w.timer.Some? {
        if timerStopped { outstanding := outstanding - {w.timer.value}; }
        w := w.(timer := None);
      }
      worker := Some(w);
      if w.publishing { return false; }
      if !closed {
        worker := Some(w.(stopping := false));
        return true;
      }
      locks := locks - {w.generation};
      worker := None;
      return true;
    }
  }

  lemma {:induction false} PrefixGrows(events: seq<Option<Path>>, i: nat)
    requires i < |events| && forall j :: 0 <= j <= i ==> events[j].Some?
    ensures ValidPrefix(events[..i + 1]) == ValidPrefix(events[..i]) + [events[i].value]
  {
    if i == 0 {
      assert events[..1][1..] == [] && events[..0] == [];
    } else {
      PrefixGrows(events[1..], i - 1);
      assert events[..i + 1][1..] == events[1..][..i] && events[..i][1..] == events[1..][..i - 1];
    }
  }

  lemma {:induction false} PrefixStops(events: seq<Option<Path>>, i: nat)
    requires i <= |events| && (forall j :: 0 <= j < i ==> events[j].Some?) && (i < |events| ==> events[i].None?)
    ensures ValidPrefix(events[..i]) == ValidPrefix(events)
    ensures i == |events| <==> AllNormalise(events)
  {
    if i > 0 {
      PrefixStops(events[1..], i - 1);
      assert events[..i][1..] == events[1..][..i - 1];
    }
  }
}
