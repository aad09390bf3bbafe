/**
 * MiningSupervisor (mining/supervisor.py): a controller thread that starts and shuts
 * down, and a monitor thread that restarts the worker, step by step. Each section
 * under the lock is one step; the worker process may die at any moment.
 */
module Supervisor {
  import opened Options

  type Pid = nat

  /** The monitor thread between two steps; the argument is its local `process`. */
  datatype Monitor =
    | NeverStarted
    | AtTop
    | Polling(p: Pid)
    | FoundDead(p: Pid)
    | Waiting(p: Pid)
    | Respawning(p: Pid)
    | Exited

  /** The controller thread: free, or inside shutdown with the process it took. */
  datatype Control = Free | AwaitProcess(p: Option<Pid>) | AwaitMonitor(p: Option<Pid>) | Finishing(p: Option<Pid>)

  /** `failed` remembers that the last shutdown raised; `alive` is the operating system's view. */
  datatype State = State(
    stopping: bool, stopEvent: bool, process: Option<Pid>, threadSet: bool, monitor: Monitor,
    alive: set<Pid>, nextPid: Pid, control: Control, failed: bool)

  const INITIAL := State(false, false, None, false, NeverStarted, {}, 0, Free, false)

  datatype Event =
    | Start
    | ShutdownBegin
    | ProcessJoined
    | MonitorJoined
    | ShutdownEnd
    | MonitorStep
    | WorkerDies(p: Pid)

  predicate Can(s: State, e: Event) {
    match e
    case Start => s.control.Free?
    case ShutdownBegin => s.control.Free?
    case ProcessJoined => s.control.AwaitProcess?
    case MonitorJoined => s.control.AwaitMonitor?
    case ShutdownEnd => s.control.Finishing?
    case MonitorStep => MonitorAlive(s)
    case WorkerDies(p) => p in s.alive
  }

  predicate MonitorAlive(s: State) {
    !s.monitor.NeverStarted? && !s.monitor.Exited?
  }

  /** _spawn_locked: _process now names a new live process. */
  function Spawned(s: State): State {
    s.(process := Some(s.nextPid), alive := s.alive + {s.nextPid}, nextPid := s.nextPid + 1)
  }

  /** start spawns unless a monitor thread is alive. */
  predicate Spawns(s: State) {
    !(s.threadSet && MonitorAlive(s))
  }

  function MonitorNext(s: State): State
    requires MonitorAlive(s)
  {
    match s.monitor
    case AtTop =>
      if s.stopping || s.process.None? then s.(monitor := Exited) else s.(monitor := Polling(s.process.value))
    case Polling(p) => s.(monitor := if p in s.alive then AtTop else FoundDead(p))
    case FoundDead(p) => s.(monitor := if s.stopping || s.stopEvent then Exited else Waiting(p))
    case Waiting(p) => s.(monitor := if s.stopEvent || s.stopping then Exited else Respawning(p))
    case Respawning(p) =>
      if s.stopping || s.stopEvent then s.(monitor := Exited) else Spawned(s).(monitor := AtTop)
  }

  /** A join that times out makes shutdown raise; then _process and _thread stay set. */
  function Next(s: State, e: Event): State
    requires Can(s, e)
  {
    match e
    case Start =>
      if !Spawns(s) then s
      else Spawned(s).(stopping := false, stopEvent := false, threadSet := true, monitor := AtTop, failed := false)
    case ShutdownBegin => s.(stopping := true, stopEvent := true, control := AwaitProcess(s.process))
    case ProcessJoined =>
      if s.control.p.Some? && s.control.p.value in s.alive then s.(control := Free, failed := true)
      else s.(control := AwaitMonitor(s.control.p))
    case MonitorJoined =>
      if s.threadSet && MonitorAlive(s) then s.(control := Free, failed := true)
      else s.(control := Finishing(s.control.p))
    case ShutdownEnd =>
      s.(process := if s.process == s.control.p then None else s.process, threadSet := false, control := Free, failed := false)
    case MonitorStep => MonitorNext(s)
    case WorkerDies(p) => s.(alive := s.alive - {p})
  }

  // ----- what every step keeps

  predicate AtMostOne(s: State) {
    forall p, q | p in s.alive && q in s.alive :: p == q
  }

  predicate NamesLive(s: State) {
    forall p | p in s.alive :: s.process == Some(p)
  }

  predicate MonitorOk(s: State) {
    && (s.monitor.Polling? ==> s.process == Some(s.monitor.p))
    && (s.monitor.FoundDead? || s.monitor.Waiting? || s.monitor.Respawning? ==> s.process == Some(s.monitor.p) && s.alive == {})
    && (!s.threadSet ==> !MonitorAlive(s))
  }

  /** Inside shutdown nothing can be spawned, and past the first join nothing is alive. */
  predicate ControlOk(s: State) {
    && (!s.control.Free? ==> s.stopping && s.stopEvent && s.process == s.control.p)
    && (s.control.AwaitMonitor? || s.control.Finishing? ==> s.alive == {})
    && (s.control.Finishing? ==> !MonitorAlive(s))
  }

  /** With no failed shutdown behind it, a supervisor without monitor has no worker either. */
  predicate RestOk(s: State) {
    s.control.Free? && !s.failed && !MonitorAlive(s) ==> s.alive == {}
  }

  /** A monitor that ended did so because a shutdown was under way. */
  predicate ExitOk(s: State) {
    s.control.Free? && !s.failed && MonitorAlive(s) ==> !s.stopping && !s.stopEvent && s.process.Some?
  }

  predicate Inv(s: State) {
    && NamesLive(s) && MonitorOk(s) && ControlOk(s) && RestOk(s) && ExitOk(s)
    && (forall p | p in s.alive :: p < s.nextPid)
    && (s.failed ==> s.stopping && s.stopEvent)
  }

  // ----- starts

  /** What status() reports as running. */
  predicate Running(s: State) {
    s.process.Some? && s.process.value in s.alive
  }

  /** A start that spawns while status() still reports a running worker. */
  predicate Doubles(s: State, e: Event) {
    e.Start? && Spawns(s) && Running(s)
  }

  /** Unless the last shutdown raised, no start doubles the worker. */
  lemma StartsAreSafe(s: State)
    requires Inv(s) && Can(s, Start) && !s.failed
    ensures !Doubles(s, Start)
  {
  }

  lemma InvNext(s: State, e: Event)
    requires Can(s, e) && Inv(s) && !Doubles(s, e)
    ensures Inv(Next(s, e))
  {
    if e.Start? && Spawns(s) {
      assert s.alive == {};
    }
  }

  /** A start leaves two workers exactly when no monitor thread is alive and status() reports a running worker. */
  lemma StartExact(s: State)
    requires Inv(s) && Can(s, Start)
    ensures AtMostOne(Next(s, Start)) <==> !(Spawns(s) && Running(s))
  {
    if Spawns(s) && Running(s) {
      var p := s.process.value;
      assert s.nextPid in Next(s, Start).alive && p in Next(s, Start).alive && p != s.nextPid;
    } else {
      InvNext(s, Start);
    }
  }

  // ----- every interleaving

  ghost predicate Runs(s: State, events: seq<Event>)
    decreases |events|
  {
    events == [] || (Can(s, events[0]) && Runs(Next(s, events[0]), events[1..]))
  }

  ghost function End(s: State, events: seq<Event>): State
    requires Runs(s, events)
    decreases |events|
  {
    if events == [] then s else End(Next(s, events[0]), events[1..])
  }

  /** At most one worker is alive in every state of the run. */
  ghost predicate AlwaysAtMostOne(s: State, events: seq<Event>)
    requires Runs(s, events)
    decreases |events|
  {
    AtMostOne(s) && (events == [] || AlwaysAtMostOne(Next(s, events[0]), events[1..]))
  }

  /** Some start of the run doubles the worker. */
  ghost predicate SomeDoubles(s: State, events: seq<Event>)
    requires Runs(s, events)
    decreases |events|
  {
    events != [] && (Doubles(s, events[0]) || SomeDoubles(Next(s, events[0]), events[1..]))
  }

  /** Over every interleaving: two workers are ever alive exactly if some start was made over a running worker. */
  lemma {:induction false} AtMostOneExact(s: State, events: seq<Event>)
    requires Inv(s) && Runs(s, events)
    ensures AlwaysAtMostOne(s, events) <==> !SomeDoubles(s, events)
    decreases |events|
  {
    if events != [] {
      if Doubles(s, events[0]) {
        StartExact(s);
      } else {
        InvNext(s, events[0]);
        AtMostOneExact(Next(s, events[0]), events[1..]);
      }
    }
  }

  /** The controller never calls start while its last shutdown has raised. */
  ghost predicate Careful(s: State, events: seq<Event>)
    requires Runs(s, events)
    decreases |events|
  {
    events == [] || ((events[0].Start? ==> !s.failed) && Careful(Next(s, events[0]), events[1..]))
  }

  /** With such a controller, in every interleaving at most one worker process is alive. */
  lemma {:induction false} AtMostOneWorker(s: State, events: seq<Event>)
    requires Inv(s) && Runs(s, events) && Careful(s, events)
    ensures AlwaysAtMostOne(s, events) && Inv(End(s, events))
    decreases |events|
  {
    if events != [] {
      if events[0].Start? {
        StartsAreSafe(s);
      }
      InvNext(s, events[0]);
      AtMostOneWorker(Next(s, events[0]), events[1..]);
    }
  }

  /** Nothing runs, and nothing can run again without a new start. */
  predicate Quiet(s: State) {
    s.alive == {} && !MonitorAlive(s)
  }

  /** When shutdown returns normally, nothing is alive ... */
  lemma ShutdownLeavesNothing(s: State)
    requires Inv(s) && Can(s, ShutdownEnd)
    ensures Quiet(Next(s, ShutdownEnd)) && !Next(s, ShutdownEnd).failed
  {
  }

  /** ... and nothing is spawned later, until start is called again. */
  lemma {:induction false} NothingSpawnsLater(s: State, events: seq<Event>)
    requires Quiet(s) && Runs(s, events) && forall i | 0 <= i < |events| :: !events[i].Start?
    ensures Quiet(End(s, events))
    decreases |events|
  {
    if events != [] {
      assert Quiet(Next(s, events[0]));
      NothingSpawnsLater(Next(s, events[0]), events[1..]);
    }
  }

  // ----- what the supervisor is for

  /** A start leaves a running worker and a thread that watches it, or changes nothing because a thread already does. */
  lemma StartRuns(s: State)
    requires Inv(s) && Can(s, Start)
    ensures if s.threadSet && MonitorAlive(s) then Next(s, Start) == s
            else Running(Next(s, Start)) && MonitorAlive(Next(s, Start)) && !Next(s, Start).stopping
                 && s.nextPid in Next(s, Start).alive && Next(s, Start).process == Some(s.nextPid)
  {
  }

  /** The monitor thread left to itself for k steps. */
  function Watched(s: State, k: nat): State
    decreases k
  {
    if k == 0 || !MonitorAlive(s) then s else Watched(MonitorNext(s), k - 1)
  }

  /** How far the monitor is from spawning. */
  function Distance(m: Monitor): nat {
    match m
    case AtTop => 5
    case Polling(_) => 4
    case FoundDead(_) => 3
    case Waiting(_) => 2
    case _ => 1
  }

  /** A worker that died while nobody shuts down is replaced within five steps of the monitor. */
  lemma {:induction false} DeadWorkerIsReplaced(s: State)
    requires Inv(s) && s.control.Free? && MonitorAlive(s) && !s.stopping && s.alive == {}
    ensures var k := Distance(s.monitor);
            && k <= 5 && Running(Watched(s, k)) && Watched(s, k).alive == {s.nextPid} && MonitorAlive(Watched(s, k))
    decreases Distance(s.monitor)
  {
    var next := MonitorNext(s);
    assert next == Next(s, MonitorStep);
    InvNext(s, MonitorStep);
    if s.monitor.Respawning? {
      assert Watched(s, 1) == Watched(next, 0) == next;
    } else {
      DeadWorkerIsReplaced(next);
    }
  }

  /** During a shutdown whose worker has stopped the monitor ends by itself and spawns nothing. */
  lemma MonitorEnds(s: State)
    requires Inv(s) && MonitorAlive(s) && s.stopping && s.stopEvent && s.alive == {}
    ensures Watched(s, 2) == s.(monitor := Exited)
  {
    var one := MonitorNext(s);
    assert Watched(s, 2) == Watched(one, 1);
    if MonitorAlive(one) {
      assert Watched(one, 1) == MonitorNext(one);
    }
  }

  /** A shutdown that finds worker and monitor stopped completes, and forgets both. */
  lemma ShutdownCompletes(s: State)
    requires Inv(s) && s.control.Free? && s.alive == {} && !MonitorAlive(s)
    ensures var joined := Next(Next(Next(s, ShutdownBegin), ProcessJoined), MonitorJoined);
            Can(joined, ShutdownEnd) && var e := Next(joined, ShutdownEnd);
            e.process == None && !e.threadSet && !e.failed && Quiet(e)
  {
  }

  /** A join that times out makes it raise; the names stay set, and so does the request to stop. */
  lemma ShutdownRaises(s: State)
    requires Inv(s) && s.control.Free? && Running(s)
    ensures var e := Next(Next(s, ShutdownBegin), ProcessJoined);
            e.failed && e.control.Free? && e.stopping && e.stopEvent && e.process == s.process && e.threadSet == s.threadSet
  {
  }

  /** Two workers are reachable: one ignores shutdown, which raises; the monitor ends; start spawns again. */
  lemma FailedShutdownThenStart()
    ensures var stuck := Next(Next(Next(Next(INITIAL, Start), ShutdownBegin), ProcessJoined), MonitorStep);
            Inv(stuck) && stuck.failed && Can(stuck, Start) && !AtMostOne(Next(stuck, Start))
  {
    var running := Next(INITIAL, Start);
    assert running == State(false, false, Some(0), true, AtTop, {0}, 1, Free, false);
    var asked := Next(running, ShutdownBegin);
    assert asked == running.(stopping := true, stopEvent := true, control := AwaitProcess(Some(0)));
    var raised := Next(asked, ProcessJoined);
    assert raised == asked.(control := Free, failed := true);
    var stuck := Next(raised, MonitorStep);
    assert stuck == raised.(monitor := Exited);
    assert Inv(stuck);
    StartExact(stuck);
  }
}
