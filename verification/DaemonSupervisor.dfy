/** Model of the classes in src/daemon/supervisor.ts and src/daemon/restart-policy.ts. */
module DaemonSupervisors {
  import opened JavaScript
  import opened Wrappers
  import opened SupervisorSpec

  class RestartPolicy {
    var consecutiveFailures: nat
    var degraded: bool

    constructor ()
      ensures State() == FRESH_POLICY
    {
      consecutiveFailures, degraded := 0, false;
    }

    function State(): Policy
      reads this
    {
      Policy(consecutiveFailures, degraded)
    }

    method NextAfterExit(runDurationMs: int) returns (r: Decision)
      modifies this
      ensures State() == SupervisorSpec.NextAfterExit(old(State()), runDurationMs)
      ensures r == Decision(DelayOf(State()), degraded, consecutiveFailures)
    {
      if runDurationMs >= HEALTHY_RESET_MS {
        Reset();
      }
      consecutiveFailures := consecutiveFailures + 1;
      degraded := consecutiveFailures >= DEGRADED_AFTER_FAILURES;
      var delayMs := if degraded then DEGRADED_RETRY_MS
                     else NORMAL_DELAYS_MS[Min(consecutiveFailures - 1, |NORMAL_DELAYS_MS| - 1)];
      return Decision(delayMs, degraded, consecutiveFailures);
    }

    method Reset()
      modifies this
      ensures State() == FRESH_POLICY
    {
      consecutiveFailures, degraded := 0, false;
    }
  }

  /** The event loop's restart delays are kept in `timers`; a runtime is its number. */
  class DaemonSupervisor {
    const restartPolicy: RestartPolicy
    var current: Option<nat>
    var phase: Phase
    var desiredRunning: bool
    var lifecycleGeneration: nat
    var runtimeStartedAt: int
    var startedAt: int
    var restartCount: nat
    var lastRestartAt: Option<int>
    var timers: seq<Timer>
    var ids: nat
    ghost var alive: set<nat>
    ghost var created: nat
    ghost var runs: seq<int>
    ghost var stalled: bool
    ghost var births: seq<int>
    ghost var ends: seq<(nat, int)>

    constructor ()
      ensures fresh(restartPolicy) && State() == IDLE
    {
      restartPolicy := new RestartPolicy();
      current, phase, desiredRunning, lifecycleGeneration := None, Stopped, false, 0;
      runtimeStartedAt, startedAt, restartCount, lastRestartAt := 0, 0, 0, None;
      timers, ids, alive, created, runs, stalled := [], 0, {}, 0, [], false;
      births, ends := [], [];
    }

    ghost function State(): State
      reads this, restartPolicy
    {
      SupervisorSpec.State(current, phase, desiredRunning, lifecycleGeneration, runtimeStartedAt, startedAt,
                           restartCount, lastRestartAt, restartPolicy.State(), timers, alive, ids, created, runs, stalled,
                           births, ends)
    }

    method Start(now: int, launch: Launch)
      modifies this, restartPolicy
      ensures State() == StartStep(old(State()), now, launch)
    {
      if desiredRunning {
        return;
      }
      BeginLife(now);
      StartRuntime(false, now, launch);
    }

    method BeginLife(now: int)
      modifies this, restartPolicy
      ensures State() == NewLife(old(State()), now)
    {
      desiredRunning, lifecycleGeneration := true, lifecycleGeneration + 1;
      restartPolicy.Reset();
      ForgetRuns(now);
    }

    /** The counters and the record of the last life. */
    method ForgetRuns(now: int)
      modifies `restartCount, `lastRestartAt, `startedAt, `created, `runs, `stalled, `ends
      ensures restartCount == 0 && lastRestartAt == None && startedAt == now
      ensures created == 0 && runs == [] && !stalled && ends == []
    {
      restartCount, lastRestartAt, startedAt := 0, None, now;
      created, runs, stalled, ends := 0, [], false, [];
    }

    method Stop()
      modifies this
      ensures State() == StopStep(old(State()))
    {
      if !desiredRunning && phase == Stopped {
        return;
      }
      desiredRunning := false;
      lifecycleGeneration := lifecycleGeneration + 1;
      phase := Stopped;
      stalled := false;
      if current.Some? {
        alive := alive - {current.value};
      }
      current := None;
    }

    method StartRuntime(isRestart: bool, now: int, launch: Launch)
      modifies this, restartPolicy
      ensures State() == SupervisorSpec.StartRuntime(old(State()), isRestart, now, launch)
    {
      if !desiredRunning || current.Some? {
        return;
      }
      if launch == CreateThrows {
        stalled := true;
        return;
      }
      var runtime := CreateRuntime(isRestart, now);
      if launch == StartThrows {
        HandleRuntimeExit(runtime, 0, now);
      }
    }

    method CreateRuntime(isRestart: bool, now: int) returns (runtime: nat)
      modifies this
      ensures runtime == old(ids) && State() == Create(old(State()), isRestart, now)
    {
      runtime := ids;
      OwnRuntime(now);
      runtimeStartedAt := now;
      if isRestart {
        restartCount := restartCount + 1;
        lastRestartAt := Some(runtimeStartedAt);
      }
      phase := Starting;
    }

    method OwnRuntime(ghost now: int)
      modifies this
      ensures State() == Own(old(State()), now)
    {
      current := Some(ids);
      created, alive, births := created + 1, alive + {ids}, births + [now];
      ids := ids + 1;
    }

    method HandleRuntimeEvent(runtime: nat, event: RuntimeEvent, now: int)
      modifies this, restartPolicy
      ensures State() == EventStep(old(State()), runtime, event, now)
    {
      if Some(runtime) != current {
        return;
      }
      if event == AuthRequired {
        phase := Auth;
        return;
      }
      if event == DeviceReady {
        phase := Online;
        return;
      }
      if event == Exited {
        HandleRuntimeExit(runtime, Max(0, now - runtimeStartedAt), now);
      }
    }

    method HandleRuntimeExit(runtime: nat, runDurationMs: int, ghost now: int)
      modifies this, restartPolicy
      ensures State() == SupervisorSpec.HandleRuntimeExit(old(State()), runtime, runDurationMs, now)
    {
      if Some(runtime) != current {
        return;
      }
      current := None;
      alive := alive - {runtime};
      if !desiredRunning {
        phase := Stopped;
        return;
      }
      var decision := restartPolicy.NextAfterExit(runDurationMs);
      phase := if decision.degraded then Degraded else Recovering;
      timers := timers + [Timer(lifecycleGeneration, decision.delayMs)];
      runs, ends := runs + [runDurationMs], ends + [(runtime, now)];
    }

    /** `restartAfter`, once its delay is over. */
    method RestartAfter(timer: nat, now: int, launch: Launch)
      requires timer < |timers|
      modifies this, restartPolicy
      ensures State() == FireStep(old(State()), timer, now, launch)
    {
      var generation := timers[timer].generation;
      timers := timers[..timer] + timers[timer + 1..];
      if !desiredRunning || generation != lifecycleGeneration || current.Some? {
        return;
      }
      StartRuntime(true, now, launch);
    }
  }
}
