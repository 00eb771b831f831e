/** Specification for src/daemon/supervisor.ts and src/daemon/restart-policy.ts: the supervisor as a
    step system. Steps are `start`, `stop`, an event of a runtime, and the end of a restart delay;
    the delays under way are part of the state. Listeners do not call back into the supervisor. */
module SupervisorSpec {
  import opened JavaScript
  import opened Wrappers

  const HEALTHY_RESET_MS: int := 5 * 60 * 1000
  const DEGRADED_AFTER_FAILURES: nat := 10
  const DEGRADED_RETRY_MS: int := 5 * 60 * 1000
  const NORMAL_DELAYS_MS: seq<int> := [1000, 2000, 5000, 10000, 30000, 60000]

  // ---- The restart policy ----

  datatype Policy = Policy(consecutiveFailures: nat, degraded: bool)

  datatype Decision = Decision(delayMs: int, degraded: bool, consecutiveFailures: nat)

  const FRESH_POLICY := Policy(0, false)

  function NextAfterExit(p: Policy, runDurationMs: int): Policy {
    var failures := (if runDurationMs >= HEALTHY_RESET_MS then 0 else p.consecutiveFailures) + 1;
    Policy(failures, failures >= DEGRADED_AFTER_FAILURES)
  }

  function DelayOf(p: Policy): int
    requires p.consecutiveFailures > 0
  {
    if p.degraded then DEGRADED_RETRY_MS
    else if p.consecutiveFailures <= 6 then NORMAL_DELAYS_MS[p.consecutiveFailures - 1]
    else NORMAL_DELAYS_MS[5]
  }

  // ---- The supervisor ----

  datatype Phase = Starting | Auth | Online | Recovering | Degraded | Stopped

  /** A restart delay under way, with the generation it was asked for in. */
  datatype Timer = Timer(generation: nat, delayMs: int)

  /** How creating and starting a runtime goes. */
  datatype Launch = Works | StartThrows | CreateThrows

  datatype RuntimeEvent = AuthRequired | DeviceReady | Exited | Other

  /** The fields of the supervisor, the delays under way, and a record of what happened: the
      runtimes created and not yet exited or stopped, how many were created in all and since
      `start`, how long each run since `start` lasted, and whether a creation has failed; when each
      runtime was created, and which runtime each run was of and when it ended. */
  datatype State = State(
    current: Option<nat>, phase: Phase, desired: bool, generation: nat,
    runtimeStartedAt: int, startedAt: int, restartCount: nat, lastRestartAt: Option<int>,
    policy: Policy, timers: seq<Timer>,
    alive: set<nat>, ids: nat, created: nat, runs: seq<int>, stalled: bool,
    births: seq<int>, ends: seq<(nat, int)>)

  datatype Step =
    | Start(now: int, launch: Launch)
    | Stop
    | Event(runtime: nat, event: RuntimeEvent, now: int)
    | Fire(timer: nat, now: int, launch: Launch)

  const IDLE := State(None, Stopped, false, 0, 0, 0, 0, None, FRESH_POLICY, [], {}, 0, 0, [], false, [], [])

  function HandleRuntimeExit(s: State, runtime: nat, runDurationMs: int, now: int): State {
    if s.current != Some(runtime) then s
    else
      var t := s.(current := None, alive := s.alive - {runtime});
      if !t.desired then t.(phase := Stopped)
      else
        var p := NextAfterExit(t.policy, runDurationMs);
        t.(policy := p, phase := if p.degraded then Degraded else Recovering,
           timers := t.timers + [Timer(t.generation, DelayOf(p))], runs := t.runs + [runDurationMs],
           ends := t.ends + [(runtime, now)])
  }

  /** A new runtime is owned. */
  function Own(s: State, now: int): State {
    s.(current := Some(s.ids), ids := s.ids + 1, created := s.created + 1, alive := s.alive + {s.ids}, births := s.births + [now])
  }

  function Create(s: State, isRestart: bool, now: int): State {
    Own(s, now).(runtimeStartedAt := now, phase := Starting,
            restartCount := if isRestart then s.restartCount + 1 else s.restartCount,
            lastRestartAt := if isRestart then Some(now) else s.lastRestartAt)
  }

  function StartRuntime(s: State, isRestart: bool, now: int, launch: Launch): State {
    if !s.desired || s.current.Some? then s
    else if launch == CreateThrows then s.(stalled := true)
    else if launch == StartThrows then HandleRuntimeExit(Create(s, isRestart, now), s.ids, 0, now)
    else Create(s, isRestart, now)
  }

  function NewLife(s: State, now: int): State {
    s.(desired := true, generation := s.generation + 1, policy := FRESH_POLICY, restartCount := 0,
       lastRestartAt := None, startedAt := now, created := 0, runs := [], stalled := false,
       ends := [])
  }

  function StartStep(s: State, now: int, launch: Launch): State {
    if s.desired then s else StartRuntime(NewLife(s, now), false, now, launch)
  }

  function StopStep(s: State): State {
    if !s.desired && s.phase == Stopped then s
    else
      s.(desired := false, generation := s.generation + 1, phase := Stopped, current := None, stalled := false,
         alive := if s.current.Some? then s.alive - {s.current.value} else s.alive)
  }

  function EventStep(s: State, runtime: nat, event: RuntimeEvent, now: int): State {
    if s.current != Some(runtime) then s
    else
      match event
      case AuthRequired => s.(phase := Auth)
      case DeviceReady => s.(phase := Online)
      case Exited => HandleRuntimeExit(s, runtime, Max(0, now - s.runtimeStartedAt), now)
      case Other => s
  }

  function FireStep(s: State, i: nat, now: int, launch: Launch): State
    requires i < |s.timers|
  {
    var t := s.(timers := s.timers[..i] + s.timers[i + 1..]);
    if !t.desired || s.timers[i].generation != t.generation || t.current.Some? then t
    else StartRuntime(t, true, now, launch)
  }

  predicate Enabled(s: State, step: Step) {
    step.Fire? ==> step.timer < |s.timers|
  }

  function Next(s: State, step: Step): State
    requires Enabled(s, step)
  {
    match step
    case Start(now, launch) => StartStep(s, now, launch)
    case Stop => StopStep(s)
    case Event(runtime, event, now) => EventStep(s, runtime, event, now)
    case Fire(i, now, launch) => FireStep(s, i, now, launch)
  }

  // ---- What holds in every state ----

  /** The restarts under way for a generation. */
  function Restarts(timers: seq<Timer>, generation: nat): nat {
    if timers == [] then 0
    else
      var n := |timers| - 1;
      Restarts(timers[..n], generation) + if timers[n].generation == generation then 1 else 0
  }

  /** Failures in a row since the last run that lasted long enough, which counts as the first. */
  function FailuresSinceHealthy(runs: seq<int>): nat {
    if runs == [] then 0
    else
      var n := |runs| - 1;
      (if runs[n] >= HEALTHY_RESET_MS then 0 else FailuresSinceHealthy(runs[..n])) + 1
  }

  ghost predicate NoneLater(timers: seq<Timer>, generation: nat) {
    forall i :: 0 <= i < |timers| ==> timers[i].generation <= generation
  }

  /** Exactly one owned runtime or restart under way while running is wanted, unless a creation has
      failed; neither while it is not. */
  ghost predicate OneLife(s: State) {
    && (if s.current.Some? then 1 else 0) + Restarts(s.timers, s.generation) == (if s.desired && !s.stalled then 1 else 0)
    && s.alive == (if s.current.Some? then {s.current.value} else {})
  }

  ghost predicate Counts(s: State) {
    && (s.created == s.restartCount + 1 || (s.created == 0 == s.restartCount && (s.desired ==> s.stalled)))
    && (s.current.Some? ==> s.current.value < s.ids)
  }

  ghost predicate Phases(s: State) {
    && (!s.desired ==> s.phase == Stopped && !s.stalled)
    && (s.current.Some? ==> s.phase in {Starting, Auth, Online})
    && (s.desired && s.current.None? && !s.stalled ==>
          && s.runs != []
          && s.phase == if FailuresSinceHealthy(s.runs) >= DEGRADED_AFTER_FAILURES then Degraded else Recovering)
  }

  ghost predicate Inv(s: State) {
    && OneLife(s)
    && NoneLater(s.timers, s.generation)
    && Counts(s)
    && Phases(s)
    && s.policy.consecutiveFailures == FailuresSinceHealthy(s.runs)
    && (s.policy.degraded <==> FailuresSinceHealthy(s.runs) >= DEGRADED_AFTER_FAILURES)
  }

  lemma {:induction false} NoRestartsYet(timers: seq<Timer>, generation: nat)
    requires NoneLater(timers, generation)
    ensures Restarts(timers, generation + 1) == 0
  {
    if timers == [] {
    } else {
      NoRestartsYet(timers[..|timers| - 1], generation);
    }
  }

  lemma {:induction false} RestartsWithout(timers: seq<Timer>, i: nat, generation: nat)
    requires i < |timers|
    ensures Restarts(timers, generation) ==
            Restarts(timers[..i] + timers[i + 1..], generation) + if timers[i].generation == generation then 1 else 0
  {
    var n := |timers| - 1;
    var left := timers[..i] + timers[i + 1..];
    if i == n {
      assert left == timers[..n];
    } else {
      RestartsWithout(timers[..n], i, generation);
      assert left[..n - 1] == timers[..n][..i] + timers[..n][i + 1..];
      assert left[n - 1] == timers[n];
    }
  }

  lemma RestartsWith(timers: seq<Timer>, t: Timer, generation: nat)
    ensures Restarts(timers + [t], generation) == Restarts(timers, generation) + if t.generation == generation then 1 else 0
  {
    assert (timers + [t])[..|timers|] == timers;
  }

  lemma FailuresWith(runs: seq<int>, run: int)
    ensures FailuresSinceHealthy(runs + [run]) == (if run >= HEALTHY_RESET_MS then 0 else FailuresSinceHealthy(runs)) + 1
  {
    assert (runs + [run])[..|runs|] == runs;
  }

  lemma ExitKeepsInv(s: State, runtime: nat, runDurationMs: int, now: int)
    requires Inv(s)
    ensures Inv(HandleRuntimeExit(s, runtime, runDurationMs, now))
  {
    if s.current == Some(runtime) {
      var p := NextAfterExit(s.policy, runDurationMs);
      RestartsWith(s.timers, Timer(s.generation, DelayOf(p)), s.generation);
      FailuresWith(s.runs, runDurationMs);
    }
  }

  /** The state in which a runtime is about to be created. */
  ghost predicate Launching(s: State, isRestart: bool) {
    && s.desired && !s.stalled && s.current.None?
    && Restarts(s.timers, s.generation) == 0 && NoneLater(s.timers, s.generation)
    && s.alive == {}
    && (if isRestart then s.created == s.restartCount + 1 else s.created == 0 == s.restartCount)
    && s.policy.consecutiveFailures == FailuresSinceHealthy(s.runs)
    && (s.policy.degraded <==> FailuresSinceHealthy(s.runs) >= DEGRADED_AFTER_FAILURES)
  }

  lemma LaunchKeepsInv(s: State, isRestart: bool, now: int, launch: Launch)
    requires Launching(s, isRestart)
    ensures Inv(StartRuntime(s, isRestart, now, launch))
  {
    CreateKeepsInv(s, isRestart, now);
    if launch == StartThrows {
      ExitKeepsInv(Create(s, isRestart, now), s.ids, 0, now);
    }
  }

  lemma CreateKeepsInv(s: State, isRestart: bool, now: int)
    requires Launching(s, isRestart)
    ensures Inv(Create(s, isRestart, now))
  {
  }

  lemma StartKeepsInv(s: State, now: int, launch: Launch)
    requires Inv(s)
    ensures Inv(StartStep(s, now, launch))
  {
    if !s.desired {
      NoRestartsYet(s.timers, s.generation);
      LaunchKeepsInv(NewLife(s, now), false, now, launch);
    }
  }

  lemma StopKeepsInv(s: State)
    requires Inv(s)
    ensures Inv(StopStep(s))
  {
    NoRestartsYet(s.timers, s.generation);
  }

  lemma EventKeepsInv(s: State, runtime: nat, event: RuntimeEvent, now: int)
    requires Inv(s)
    ensures Inv(EventStep(s, runtime, event, now))
  {
    if event == Exited {
      ExitKeepsInv(s, runtime, Max(0, now - s.runtimeStartedAt), now);
    }
  }

  lemma NextKeepsInv(s: State, step: Step)
    requires Inv(s) && Enabled(s, step)
    ensures Inv(Next(s, step))
  {
    match step {
      case Start(now, launch) => StartKeepsInv(s, now, launch);
      case Stop => StopKeepsInv(s);
      case Event(runtime, event, now) => EventKeepsInv(s, runtime, event, now);
      case Fire(i, now, launch) => FireKeepsInv(s, i, now, launch);
    }
  }

  lemma FireKeepsInv(s: State, i: nat, now: int, launch: Launch)
    requires Inv(s) && i < |s.timers|
    ensures Inv(FireStep(s, i, now, launch))
  {
    RestartsWithout(s.timers, i, s.generation);
    var t := s.(timers := s.timers[..i] + s.timers[i + 1..]);
    assert NoneLater(t.timers, t.generation);
    if t.desired && s.timers[i].generation == t.generation && t.current.None? {
      LaunchKeepsInv(t, true, now, launch);
    }
  }

  // ---- Runs ----

  predicate IsRun(states: seq<State>, steps: seq<Step>) {
    && |states| == |steps| + 1 && states[0] == IDLE
    && forall i :: 0 <= i < |steps| ==> Enabled(states[i], steps[i]) && states[i + 1] == Next(states[i], steps[i])
  }

  /** The supervisor never doubles and never stalls: every state of every run is good. */
  lemma {:induction false} EveryStateIsGood(states: seq<State>, steps: seq<Step>, i: nat)
    requires IsRun(states, steps) && i < |states|
    ensures Inv(states[i])
    decreases i
  {
    if i == 0 {
    } else {
      EveryStateIsGood(states, steps, i - 1);
      NextKeepsInv(states[i - 1], steps[i - 1]);
    }
  }

  /** A wanted runtime that is down comes back: a delay is under way whose end creates the next
      runtime, exactly when no creation has failed. */
  lemma DownMeansRestarting(s: State, now: int)
    requires Inv(s) && s.desired && s.current.None?
    ensures (exists i :: 0 <= i < |s.timers| && FireStep(s, i, now, Works).current.Some?) <==> !s.stalled
  {
    if !s.stalled {
      var i := FindRestart(s.timers, s.generation);
      assert FireStep(s, i, now, Works).current.Some?;
    } else if i :| 0 <= i < |s.timers| && FireStep(s, i, now, Works).current.Some? {
      RestartsWithout(s.timers, i, s.generation);
    }
  }

  lemma {:induction false} FindRestart(timers: seq<Timer>, generation: nat) returns (i: nat)
    requires Restarts(timers, generation) > 0
    ensures i < |timers| && timers[i].generation == generation
  {
    i := |timers| - 1;
    if timers[i].generation != generation {
      i := FindRestart(timers[..i], generation);
    }
  }

  /** Stopping and starting again, while old delays are still under way, gives one fresh life. */
  lemma RestartIsFresh(s: State, now: int)
    requires Inv(s)
    ensures var t := Next(Next(s, Stop), Start(now, Works));
            && t.alive == {s.ids} && t.restartCount == 0 && t.policy == FRESH_POLICY
            && Restarts(t.timers, t.generation) == 0 && t.timers == s.timers
  {
    NextKeepsInv(s, Stop);
    NextKeepsInv(Next(s, Stop), Start(now, Works));
  }

  /** A creation that fails leaves the supervisor wanting a runtime that nothing will start: every
      step other than `stop` changes nothing but the delays that run out. */
  lemma StalledUntilStopped(s: State, step: Step)
    requires Inv(s) && s.stalled && Enabled(s, step) && step != Stop
    ensures Next(s, step) == s.(timers := Next(s, step).timers) && Next(s, step).current.None?
  {
    if step.Fire? {
      RestartsWithout(s.timers, step.timer, s.generation);
    }
  }

  /** Both on the first start and on a restart the creation can fail. */
  lemma StallsAreReachable(now: int)
    ensures var s := Next(IDLE, Start(now, CreateThrows)); s.stalled && s.desired && s.current.None? && s.timers == []
    ensures var steps := [Start(now, Works), Event(0, Exited, now), Fire(0, now, CreateThrows)];
            exists states: seq<State> :: IsRun(states, steps) && states[3].stalled && states[3].desired && states[3].timers == []
  {
    var steps := [Start(now, Works), Event(0, Exited, now), Fire(0, now, CreateThrows)];
    var s1 := Next(IDLE, steps[0]);
    var s2 := Next(s1, steps[1]);
    assert |s2.timers| == 1;
    var s3 := Next(s2, steps[2]);
    var states := [IDLE, s1, s2, s3];
    assert IsRun(states, steps);
    assert states[3].stalled;
  }

  // ---- Delays ----

  /** Without a run that lasts long enough the delays never get shorter, and never exceed the
      degraded one. */
  lemma DelaysGrow(p: Policy, runDurationMs: int)
    requires p.consecutiveFailures > 0 && (p.degraded <==> p.consecutiveFailures >= DEGRADED_AFTER_FAILURES)
    ensures var next := NextAfterExit(p, runDurationMs);
            if runDurationMs < HEALTHY_RESET_MS then DelayOf(p) <= DelayOf(next) <= DEGRADED_RETRY_MS
            else DelayOf(next) == 1000 && !next.degraded
  {
    var n := p.consecutiveFailures;
    if n <= 6 {
      assert n == 1 || n == 2 || n == 3 || n == 4 || n == 5 || n == 6;
    }
  }
}
