/** What the supervisor's delays, run times and status say about its history, over every run. */
module SupervisorHistory {
  import opened JavaScript
  import opened Wrappers
  import opened SupervisorSpec

  /** The delay that so many failures in a row call for. */
  function Backoff(failures: nat): int {
    if failures <= 1 then 1000
    else if failures == 2 then 2000
    else if failures == 3 then 5000
    else if failures == 4 then 10000
    else if failures == 5 then 30000
    else if failures < 10 then 60000
    else 300000
  }

  // ---- Delays ----

  /** The delay under way in the current generation is the one that the failures so far call for. */
  ghost predicate DelaysFollow(s: State) {
    forall i :: 0 <= i < |s.timers| && s.timers[i].generation == s.generation ==>
      s.timers[i].delayMs == Backoff(FailuresSinceHealthy(s.runs))
  }

  lemma DelayIsBackoff(p: Policy)
    requires p.consecutiveFailures > 0 && (p.degraded <==> p.consecutiveFailures >= DEGRADED_AFTER_FAILURES)
    ensures DelayOf(p) == Backoff(p.consecutiveFailures)
  {
    var n := p.consecutiveFailures;
    if n <= 6 {
      assert n == 1 || n == 2 || n == 3 || n == 4 || n == 5 || n == 6;
    }
  }

  lemma {:induction false} NoneOfGeneration(timers: seq<Timer>, generation: nat, i: nat)
    requires Restarts(timers, generation) == 0 && i < |timers|
    ensures timers[i].generation != generation
  {
    if i < |timers| - 1 {
      NoneOfGeneration(timers[..|timers| - 1], generation, i);
    }
  }

  /** With no delay of the current generation under way, an exit asks for the right one. */
  lemma ExitFollows(s: State, runtime: nat, runDurationMs: int, now: int)
    requires s.current == Some(runtime) && s.desired && Restarts(s.timers, s.generation) == 0
    requires s.policy.consecutiveFailures == FailuresSinceHealthy(s.runs)
    ensures DelaysFollow(HandleRuntimeExit(s, runtime, runDurationMs, now))
  {
    var p := NextAfterExit(s.policy, runDurationMs);
    FailuresWith(s.runs, runDurationMs);
    DelayIsBackoff(p);
    forall i | 0 <= i < |s.timers|
      ensures s.timers[i].generation != s.generation
    {
      NoneOfGeneration(s.timers, s.generation, i);
    }
  }

  lemma LaunchFollows(s: State, isRestart: bool, now: int, launch: Launch)
    requires Launching(s, isRestart)
    ensures DelaysFollow(StartRuntime(s, isRestart, now, launch))
  {
    forall i | 0 <= i < |s.timers|
      ensures s.timers[i].generation != s.generation
    {
      NoneOfGeneration(s.timers, s.generation, i);
    }
    if launch == StartThrows {
      ExitFollows(Create(s, isRestart, now), s.ids, 0, now);
    }
  }

  lemma StartFollows(s: State, now: int, launch: Launch)
    requires Inv(s) && DelaysFollow(s)
    ensures DelaysFollow(StartStep(s, now, launch))
  {
    if !s.desired {
      NoRestartsYet(s.timers, s.generation);
      LaunchFollows(NewLife(s, now), false, now, launch);
    }
  }

  lemma EventFollows(s: State, runtime: nat, event: RuntimeEvent, now: int)
    requires Inv(s) && DelaysFollow(s)
    ensures DelaysFollow(EventStep(s, runtime, event, now))
  {
    if s.current == Some(runtime) && event == Exited {
      ExitFollows(s, runtime, Max(0, now - s.runtimeStartedAt), now);
    }
  }

  lemma FireFollows(s: State, i: nat, now: int, launch: Launch)
    requires Inv(s) && DelaysFollow(s) && i < |s.timers|
    ensures DelaysFollow(FireStep(s, i, now, launch))
  {
    RestartsWithout(s.timers, i, s.generation);
    var t := s.(timers := s.timers[..i] + s.timers[i + 1..]);
    assert NoneLater(t.timers, t.generation);
    if t.desired && s.timers[i].generation == t.generation && t.current.None? {
      LaunchFollows(t, true, now, launch);
    }
  }

  lemma NextFollows(s: State, step: Step)
    requires Inv(s) && DelaysFollow(s) && Enabled(s, step)
    ensures DelaysFollow(Next(s, step))
  {
    match step {
      case Start(now, launch) => StartFollows(s, now, launch);
      case Stop =>
      case Event(runtime, event, now) => EventFollows(s, runtime, event, now);
      case Fire(i, now, launch) => FireFollows(s, i, now, launch);
    }
  }

  /** Over every run: the delay of a restart is one second after a healthy run or at first, then two,
      five, ten and thirty seconds, then a minute, and five minutes from the tenth failure on. */
  lemma {:induction false} BackoffReachesTheRestart(states: seq<State>, steps: seq<Step>, i: nat)
    requires IsRun(states, steps) && i < |states|
    ensures DelaysFollow(states[i])
    decreases i
  {
    if i == 0 {
    } else {
      BackoffReachesTheRestart(states, steps, i - 1);
      EveryStateIsGood(states, steps, i - 1);
      NextFollows(states[i - 1], steps[i - 1]);
    }
  }

  // ---- Run times ----

  /** Each run lasted from the creation of its runtime to its end; the owned runtime was created when
      the supervisor says it started, and the last restart created the last runtime. */
  ghost predicate LivesFollow(s: State) {
    && |s.births| == s.ids && s.created <= s.ids
    && (s.current.Some? ==> s.current.value < s.ids && s.runtimeStartedAt == s.births[s.current.value])
    && |s.ends| == |s.runs|
    && (forall k :: 0 <= k < |s.runs| ==>
          s.ends[k].0 < s.ids && s.runs[k] == Max(0, s.ends[k].1 - s.births[s.ends[k].0]))
    && s.restartCount <= s.ids
    && s.lastRestartAt == if s.restartCount > 0 then Some(s.births[s.ids - 1]) else None
  }

  lemma ExitKeepsLives(s: State, runtime: nat, runDurationMs: int, now: int)
    requires LivesFollow(s) && s.current == Some(runtime) && runDurationMs == Max(0, now - s.runtimeStartedAt)
    ensures LivesFollow(HandleRuntimeExit(s, runtime, runDurationMs, now))
  {
  }

  lemma LaunchKeepsLives(s: State, isRestart: bool, now: int, launch: Launch)
    requires LivesFollow(s) && Launching(s, isRestart)
    ensures LivesFollow(StartRuntime(s, isRestart, now, launch))
  {
    var t := Create(s, isRestart, now);
    assert LivesFollow(t);
    if launch == StartThrows {
      ExitKeepsLives(t, s.ids, 0, now);
    }
  }

  lemma StartKeepsLives(s: State, now: int, launch: Launch)
    requires Inv(s) && LivesFollow(s)
    ensures LivesFollow(StartStep(s, now, launch))
  {
    if !s.desired {
      NoRestartsYet(s.timers, s.generation);
      LaunchKeepsLives(NewLife(s, now), false, now, launch);
    }
  }

  lemma EventKeepsLives(s: State, runtime: nat, event: RuntimeEvent, now: int)
    requires LivesFollow(s)
    ensures LivesFollow(EventStep(s, runtime, event, now))
  {
    if s.current == Some(runtime) && event == Exited {
      ExitKeepsLives(s, runtime, Max(0, now - s.runtimeStartedAt), now);
    }
  }

  lemma FireKeepsLives(s: State, i: nat, now: int, launch: Launch)
    requires Inv(s) && LivesFollow(s) && i < |s.timers|
    ensures LivesFollow(FireStep(s, i, now, launch))
  {
    RestartsWithout(s.timers, i, s.generation);
    var t := s.(timers := s.timers[..i] + s.timers[i + 1..]);
    assert NoneLater(t.timers, t.generation);
    if t.desired && s.timers[i].generation == t.generation && t.current.None? {
      LaunchKeepsLives(t, true, now, launch);
    }
  }

  lemma NextKeepsLives(s: State, step: Step)
    requires Inv(s) && LivesFollow(s) && Enabled(s, step)
    ensures LivesFollow(Next(s, step))
  {
    match step {
      case Start(now, launch) => StartKeepsLives(s, now, launch);
      case Stop =>
      case Event(runtime, event, now) => EventKeepsLives(s, runtime, event, now);
      case Fire(i, now, launch) => FireKeepsLives(s, i, now, launch);
    }
  }

  /** Over every run: each run time is the time from the creation of its runtime to its end. */
  lemma {:induction false} RunsAreLifetimes(states: seq<State>, steps: seq<Step>, i: nat)
    requires IsRun(states, steps) && i < |states|
    ensures LivesFollow(states[i])
    decreases i
  {
    if i == 0 {
    } else {
      RunsAreLifetimes(states, steps, i - 1);
      EveryStateIsGood(states, steps, i - 1);
      NextKeepsLives(states[i - 1], steps[i - 1]);
    }
  }

  // ---- Status ----

  /** What a launch comes to: a runtime that starts now and runs, one that ends at once, or none. */
  ghost predicate Launched(s: State, t: State, now: int, launch: Launch, runs: seq<int>) {
    match launch
    case Works => t.current == Some(s.ids) && t.phase == Starting && t.births == s.births + [now] && t.runs == runs
    case StartThrows =>
      t.current == None && t.births == s.births + [now] && t.runs == runs + [0] && |t.timers| > 0
      && t.timers[|t.timers| - 1].generation == t.generation
    case CreateThrows => t.current == None && t.births == s.births && t.runs == runs && t.phase == s.phase
  }

  /** What a step shows in the status: only events of the owned runtime count; its last sign gives the
      phase; its exit ends a run of exactly the time since its creation. */
  ghost predicate Shown(s: State, t: State, step: Step)
    requires Enabled(s, step)
  {
    match step
    case Start(now, launch) =>
      if s.desired then t == s
      else t.startedAt == now && t.restartCount == 0 && t.desired && t.lastRestartAt == None && Launched(s, t, now, launch, [])
    case Stop => !t.desired && t.current == None && t.phase == Stopped && t.births == s.births && t.runs == s.runs
    case Event(runtime, event, now) =>
      if s.current != Some(runtime) then t == s
      else
        (match event
         case AuthRequired => t == s.(phase := Phase.Auth)
         case DeviceReady => t == s.(phase := Online)
         case Other => t == s
         case Exited =>
           && t.current == None && t.births == s.births && runtime < |s.births|
           && t.runs == s.runs + [if now >= s.births[runtime] then now - s.births[runtime] else 0]
           && |t.timers| == |s.timers| + 1 && t.timers[|s.timers|].generation == s.generation)
    case Fire(i, now, launch) =>
      if s.timers[i].generation != s.generation || !s.desired || s.current.Some? then
        t == s.(timers := s.timers[..i] + s.timers[i + 1..])
      else
        && Launched(s, t, now, launch, s.runs) && t.startedAt == s.startedAt
        && (launch != CreateThrows ==> t.restartCount == s.restartCount + 1 && t.lastRestartAt == Some(now))
  }

  lemma NextIsShown(s: State, step: Step)
    requires Inv(s) && LivesFollow(s) && Enabled(s, step)
    ensures Shown(s, Next(s, step), step)
  {
  }

  /** Over every run, each step shows what it is. */
  lemma EveryStepIsShown(states: seq<State>, steps: seq<Step>, i: nat)
    requires IsRun(states, steps) && i < |steps|
    ensures Shown(states[i], states[i + 1], steps[i])
  {
    EveryStateIsGood(states, steps, i);
    RunsAreLifetimes(states, steps, i);
    NextIsShown(states[i], steps[i]);
  }
}
