/** runner/runner.go: a named loop that calls its handler every `Interval`, with a start/stop
    lifecycle, a keep-alive time stamp and the registry `RunningRunners` of started runners.
    Goroutines, the mutex and the wait group are not modelled: `Start` and `Stop` are atomic
    steps, and one turn of the `run` loop is a step of its own. */
module Runners {
  import opened Wrappers
  import opened Clock

  datatype RunnerError =
    | IsRunning                    // ErrIsRunning, "runner is running"
    | StartFailed(message: string) // the error of the handler's OnStart
    | DuplicateName                // only in the corrected start, SysStartChecked

  /** The handler callbacks a runner makes, in the order it makes them. */
  datatype Call = OnStart | Handle | OnExit

  /** The state of one runner: whether it runs, whether its `stopCh` has been closed, the last
      keep-alive, its `Timeout` and `Interval`, and the callbacks made so far. */
  datatype RunnerState = RunnerState(
    running: bool,
    stopClosed: bool,
    lastHandleTime: Time,
    timeout: Duration,
    interval: Duration,
    calls: seq<Call>)

  /** `NewRunner(handler, name, interval)` at time `now`. */
  function Initial(interval: Duration, now: Time): RunnerState {
    RunnerState(false, false, now, Hour, interval, [])
  }

  /** `Start()`, given what the handler's `OnStart` returns. The second component is the error
      returned; the registry is updated only when it is `None`. */
  function StartStep(s: RunnerState, onStart: Option<string>): (r: (RunnerState, Option<RunnerError>))
    ensures s.running ==> r == (s, Some(IsRunning))
    ensures !s.running ==> r.0.calls == s.calls + [OnStart] && r.0.stopClosed == s.stopClosed
    ensures !s.running ==> (r.1.None? <==> onStart.None?) && (r.0.running <==> onStart.None?)
    ensures r.0.lastHandleTime == s.lastHandleTime && r.0.timeout == s.timeout && r.0.interval == s.interval
  {
    if s.running then (s, Some(IsRunning))
    else match onStart
      case Some(e) => (s.(calls := s.calls + [OnStart]), Some(StartFailed(e)))
      case None => (s.(running := true, calls := s.calls + [OnStart]), None)
  }

  /** `Stop()` would `close(r.stopCh)` a second time, which panics. */
  predicate StopPanics(s: RunnerState) {
    s.running && s.stopClosed
  }

  /** `Stop()`: nothing when not running; otherwise `OnExit`, then the channel is closed and the
      runner no longer runs. */
  function StopStep(s: RunnerState): (r: RunnerState)
    requires !StopPanics(s)
    ensures !r.running
    ensures s.running ==> r.calls == s.calls + [OnExit] && r.stopClosed
    ensures !s.running ==> r == s
  {
    if !s.running then s
    else s.(calls := s.calls + [OnExit], stopClosed := true, running := false)
  }

  /** `KeepAlive()` at time `now`. */
  function KeepAliveStep(s: RunnerState, now: Time): RunnerState {
    s.(lastHandleTime := now)
  }

  /** `IsTimeout(curTime)`: strictly more than `Timeout` since the last keep-alive. */
  predicate TimedOut(s: RunnerState, curTime: Time) {
    curTime - s.lastHandleTime > s.timeout
  }

  /** The first `select` of `run`, which has a `default` branch: when `stopCh` is closed the loop
      returns at once (`false`), otherwise the handler's `Handle` runs and the runner keeps itself
      alive at `now` (`true`). */
  function RunTurn(s: RunnerState, now: Time): (r: (RunnerState, bool))
    ensures r.1 <==> !s.stopClosed
    ensures r.1 ==> r.0 == s.(calls := s.calls + [Handle], lastHandleTime := now)
    ensures !r.1 ==> r.0 == s
  {
    if s.stopClosed then (s, false)
    else (KeepAliveStep(s.(calls := s.calls + [Handle]), now), true)
  }

  /** A keep-alive at `now` puts off the timeout until `now + Timeout`. */
  lemma KeepAliveDefersTimeout(s: RunnerState, now: Time, curTime: Time)
    ensures TimedOut(KeepAliveStep(s, now), curTime) <==> curTime > now + s.timeout
  {
  }

  /** `RunningRunners`: the started runners by name. */
  class Registry {
    var entries: map<string, Runner>

    constructor ()
      ensures entries == map[]
    {
      entries := map[];
    }
  }

  /** `struct Runner`. */
  class Runner {
    const name: string
    var Timeout: Duration
    var Interval: Duration
    var lastHandleTime: Time
    var running: bool
    var stopClosed: bool
    var calls: seq<Call>

    /** The runner's state as a value. */
    function State(): RunnerState
      reads this
    {
      RunnerState(running, stopClosed, lastHandleTime, Timeout, Interval, calls)
    }

    /** `NewRunner(handler, name, interval)`, `time.Now()` being `now`. */
    constructor (name: string, interval: Duration, now: Time)
      ensures this.name == name && State() == Initial(interval, now)
    {
      this.name := name;
      Timeout := Hour;
      Interval := interval;
      lastHandleTime := now;
      running := false;
      stopClosed := false;
      calls := [];
    }

    /** `Start()`: refuses a running runner; otherwise calls `OnStart` (whose result is `onStart`)
        and, when it succeeds, runs and stores itself in the registry under its name, replacing
        whatever runner was stored there. */
    method Start(registry: Registry, onStart: Option<string>) returns (err: Option<RunnerError>)
      modifies this, registry
      ensures (State(), err) == StartStep(old(State()), onStart)
      ensures registry.entries == if err.None? then old(registry.entries)[name := this] else old(registry.entries)
    {
      if running {
        return Some(IsRunning);
      }
      calls := calls + [OnStart];
      if onStart.Some? {
        return Some(StartFailed(onStart.value));
      }
      running := true;
      registry.entries := registry.entries[name := this];
      return None;
    }

    /** `Stop()`: nothing when not running; otherwise `OnExit`, closes `stopCh`, stops running
        and deletes the registry entry under its name, whichever runner it holds. */
    method Stop(registry: Registry)
      requires !StopPanics(State())
      modifies this, registry
      ensures State() == StopStep(old(State()))
      ensures registry.entries == if old(running) then old(registry.entries) - {name} else old(registry.entries)
    {
      if !running {
        return;
      }
      calls := calls + [OnExit];
      stopClosed := true;
      running := false;
      registry.entries := registry.entries - {name};
    }

    /** `KeepAlive()`, `time.Now()` being `now`. */
    method KeepAlive(now: Time)
      modifies this
      ensures State() == KeepAliveStep(old(State()), now)
    {
      lastHandleTime := now;
    }

    /** `IsTimeout(curTime)` */
    function IsTimeout(curTime: Time): (r: bool)
      reads this
      ensures r <==> TimedOut(State(), curTime)
    {
      curTime - lastHandleTime > Timeout
    }

    /** The first `select` of `run`, at time `now`: `false` when it returns. */
    method RunFirstTurn(now: Time) returns (continues: bool)
      modifies this
      ensures (State(), continues) == RunTurn(old(State()), now)
    {
      if stopClosed {
        return false;
      }
      calls := calls + [Handle];
      KeepAlive(now);
      return true;
    }
  }

  // ---------------------------------------------------------------------------
  // Finding: `stopCh` is made once, in `NewRunner`, and closed by every `Stop` that stops.

  /** Start, stop and start again: the restarted runner's `run` returns at once without calling
      `Handle`, and stopping it closes `stopCh` a second time. */
  lemma RestartedRunnerIsBroken(interval: Duration, now: Time)
    ensures var s1 := StartStep(Initial(interval, now), None).0;
      var s3 := StartStep(StopStep(s1), None).0;
      && s3.running
      && StopPanics(s3)
      && RunTurn(s3, now) == (s3, false)
  {
  }

  /** `Start` as evidently intended: a successful start makes a new `stopCh`. */
  function StartRenewing(s: RunnerState, onStart: Option<string>): (r: (RunnerState, Option<RunnerError>))
    ensures r.1.None? ==> !r.0.stopClosed
    ensures (r.0.(stopClosed := s.stopClosed), r.1) == StartStep(s, onStart)
  {
    var (t, err) := StartStep(s, onStart);
    if err.None? then (t.(stopClosed := false), err) else (t, err)
  }

  /** A step of a runner's life, with what the environment supplies to it. */
  datatype Step = DoStart(onStart: Option<string>) | DoStop | DoKeepAlive(now: Time) | DoTurn(now: Time)

  /** A running runner's `stopCh` is open. */
  predicate ChannelOpenWhileRunning(s: RunnerState) {
    s.running ==> !s.stopClosed
  }

  /** One step, with the intended `Start`. */
  function StepRenewing(s: RunnerState, step: Step): (r: RunnerState)
    requires ChannelOpenWhileRunning(s)
    ensures ChannelOpenWhileRunning(r)
  {
    match step
    case DoStart(result) => StartRenewing(s, result).0
    case DoStop => StopStep(s)
    case DoKeepAlive(now) => KeepAliveStep(s, now)
    case DoTurn(now) => RunTurn(s, now).0
  }

  /** Any sequence of steps, with the intended `Start`. */
  function LifeRenewing(s: RunnerState, steps: seq<Step>): RunnerState
    requires ChannelOpenWhileRunning(s)
    ensures ChannelOpenWhileRunning(LifeRenewing(s, steps))
    decreases |steps|
  {
    if steps == [] then s else LifeRenewing(StepRenewing(s, steps[0]), steps[1..])
  }

  /** With the intended `Start`, no sequence of steps from `NewRunner` leads to a `Stop` that
      closes a closed channel, and a running runner's first turn calls `Handle`. */
  lemma RenewingNeverPanics(interval: Duration, now: Time, steps: seq<Step>, later: Time)
    ensures var s := LifeRenewing(Initial(interval, now), steps);
      && !StopPanics(s)
      && (s.running ==> RunTurn(s, later).1)
  {
  }

  // ---------------------------------------------------------------------------
  // Finding: `RunningRunners` is keyed by name, `Start` overwrites and `Stop` deletes blindly.

  /** Several runners, identified by their index, and the registry that holds the index of the
      runner stored under each name. */
  datatype System = System(names: seq<string>, states: seq<RunnerState>, registry: map<string, nat>)

  predicate WellFormed(sys: System) {
    |sys.names| == |sys.states|
  }

  /** `r.Start()` for runner `id`, as written. */
  function SysStart(sys: System, id: nat, onStart: Option<string>): (r: System)
    requires WellFormed(sys) && id < |sys.states|
    ensures WellFormed(r)
  {
    var (t, err) := StartStep(sys.states[id], onStart);
    var registry := if err.None? then sys.registry[sys.names[id] := id] else sys.registry;
    System(sys.names, sys.states[id := t], registry)
  }

  /** `r.Stop()` for runner `id`, as written. */
  function SysStop(sys: System, id: nat): (r: System)
    requires WellFormed(sys) && id < |sys.states| && !StopPanics(sys.states[id])
    ensures WellFormed(r)
  {
    var s := sys.states[id];
    var registry := if s.running then sys.registry - {sys.names[id]} else sys.registry;
    System(sys.names, sys.states[id := StopStep(s)], registry)
  }

  /** The registry holds exactly the running runners, each under its own name. */
  predicate Registered(sys: System)
    requires WellFormed(sys)
  {
    && (forall id :: 0 <= id < |sys.states| && sys.states[id].running ==>
          sys.names[id] in sys.registry && sys.registry[sys.names[id]] == id)
    && (forall name :: name in sys.registry ==>
          sys.registry[name] < |sys.states| && sys.names[sys.registry[name]] == name
          && sys.states[sys.registry[name]].running)
  }

  /** Two runners named alike: starting the second replaces the first in the registry, and
      stopping the first then removes the second, which is still running. */
  lemma DuplicateNameLosesRunner(interval: Duration, now: Time)
    ensures var sys0 := System(["worker", "worker"], [Initial(interval, now), Initial(interval, now)], map[]);
      var sys1 := SysStart(sys0, 0, None);
      var sys2 := SysStart(sys1, 1, None);
      var sys3 := SysStop(sys2, 0);
      && Registered(sys1) && !Registered(sys2) && !Registered(sys3)
      && sys3.states[1].running && "worker" !in sys3.registry
  {
    var sys0 := System(["worker", "worker"], [Initial(interval, now), Initial(interval, now)], map[]);
    var sys1 := SysStart(sys0, 0, None);
    var sys2 := SysStart(sys1, 1, None);
    assert sys2.states[0].running && sys2.registry["worker"] == 1;
  }

  /** `Start` as evidently intended: a name held by another runner is refused before `OnStart`. */
  function SysStartChecked(sys: System, id: nat, onStart: Option<string>): (r: (System, Option<RunnerError>))
    requires WellFormed(sys) && id < |sys.states|
    ensures WellFormed(r.0)
  {
    var name := sys.names[id];
    if !sys.states[id].running && name in sys.registry && sys.registry[name] != id then (sys, Some(DuplicateName))
    else
      var (t, err) := StartStep(sys.states[id], onStart);
      var registry := if err.None? then sys.registry[name := id] else sys.registry;
      (System(sys.names, sys.states[id := t], registry), err)
  }

  /** `Stop` as evidently intended: only the runner's own registry entry is deleted. */
  function SysStopChecked(sys: System, id: nat): (r: System)
    requires WellFormed(sys) && id < |sys.states| && !StopPanics(sys.states[id])
    ensures WellFormed(r)
  {
    var s := sys.states[id];
    var name := sys.names[id];
    var registry := if s.running && name in sys.registry && sys.registry[name] == id then sys.registry - {name} else sys.registry;
    System(sys.names, sys.states[id := StopStep(s)], registry)
  }

  /** The checked `Start` keeps the registry exact. */
  lemma StartCheckedKeepsRegistered(sys: System, id: nat, onStart: Option<string>)
    requires WellFormed(sys) && id < |sys.states| && Registered(sys)
    ensures Registered(SysStartChecked(sys, id, onStart).0)
  {
    var r := SysStartChecked(sys, id, onStart).0;
    var name := sys.names[id];
    forall other | 0 <= other < |r.states| && r.states[other].running
      ensures r.names[other] in r.registry && r.registry[r.names[other]] == other
    {
      if other != id && sys.names[other] == name {
        assert sys.states[other].running;
      }
    }
  }

  /** The checked `Stop` keeps the registry exact. */
  lemma StopCheckedKeepsRegistered(sys: System, id: nat)
    requires WellFormed(sys) && id < |sys.states| && !StopPanics(sys.states[id]) && Registered(sys)
    ensures Registered(SysStopChecked(sys, id))
  {
    var r := SysStopChecked(sys, id);
    forall name | name in r.registry
      ensures r.registry[name] < |r.states| && r.names[r.registry[name]] == name && r.states[r.registry[name]].running
    {
      assert r.registry[name] != id;
    }
  }
}
