/** Model of src/doctor/recovery-policy.ts: when the doctor may restart a tunnel, folded over a run
    of observations. Times are whole milliseconds.

    The stored history is trimmed to the window and the budget. Beside it the state keeps the whole
    of it since the last reset, and every restart there ever was, so that decisions on what is stored
    can be compared with decisions on what happened. */
module RecoveryPolicy {
  import opened JavaScript
  import opened Wrappers

  datatype Local = Local(
    configured: Option<bool>, liveness: bool, readiness: bool, processAlive: Option<bool>, stuck: Option<bool>)

  datatype ControlPlane = ControlPlane(reachable: Option<bool>, stale: Option<bool>)

  datatype Observation = Observation(now: int, local: Local, controlPlane: Option<ControlPlane>)

  datatype Policy = Policy(maxRestarts: int, windowMs: int, cooldownMs: int, healthyResetMs: int)

  datatype Action = Healthy | Observe | RestartTunnel | CircuitOpen

  datatype Decision = Decision(action: Action, history: seq<int>)

  const DEFAULT_RECOVERY_POLICY := Policy(3, 10 * 60 * 1000, 60 * 1000, 5 * 60 * 1000)

  // ---- One decision ----

  function InWindow(history: seq<int>, now: int, windowMs: int): seq<int> {
    if history == [] then []
    else
      var rest := InWindow(history[1..], now, windowMs);
      if history[0] <= now && now - history[0] <= windowMs then [history[0]] + rest else rest
  }

  function Budget(p: Policy): nat { if p.maxRestarts < 0 then 0 else p.maxRestarts }

  function Recent(history: seq<int>, now: int, p: Policy): seq<int> {
    SliceLast(InWindow(history, now, p.windowMs), Budget(p))
  }

  predicate IsLocallyHealthy(l: Local) {
    l.liveness && l.readiness && l.processAlive != Some(false) && l.stuck != Some(true)
  }

  predicate IsLocallyRepairable(l: Local) {
    l.stuck == Some(true) || !l.liveness || l.processAlive == Some(false)
  }

  predicate ControlPlaneSuspect(c: Option<ControlPlane>) {
    c.Some? && (c.value.stale == Some(true) || c.value.reachable == Some(false))
  }

  predicate HasBeenHealthyLongEnough(now: int, restarts: seq<int>, healthyResetMs: int) {
    restarts == [] || now - restarts[|restarts| - 1] >= healthyResetMs
  }

  function Evaluate(o: Observation, history: seq<int>, p: Policy): Decision {
    Decide(o, Recent(history, o.now, p), p)
  }

  function Decide(o: Observation, recent: seq<int>, p: Policy): Decision {
    if o.local.configured == Some(false) then Decision(Observe, recent)
    else if IsLocallyHealthy(o.local) then
      if ControlPlaneSuspect(o.controlPlane) then Decision(Observe, recent)
      else Decision(Healthy, if HasBeenHealthyLongEnough(o.now, recent, p.healthyResetMs) then [] else recent)
    else if !IsLocallyRepairable(o.local) then Decision(Observe, recent)
    else if |recent| >= Budget(p) then Decision(CircuitOpen, recent)
    else if recent != [] && o.now - recent[|recent| - 1] < p.cooldownMs then Decision(Observe, recent)
    else Decision(RestartTunnel, recent + [o.now])
  }

  /** A restart is within the budget and past the cooldown; anything else keeps the recent restarts
      or, long enough after the last of them, forgets them. */
  lemma DecideCases(o: Observation, recent: seq<int>, p: Policy)
    ensures var d := Decide(o, recent, p);
            if d.action == RestartTunnel then
              && d.history == recent + [o.now] && |recent| < Budget(p)
              && (recent == [] || o.now - recent[|recent| - 1] >= p.cooldownMs)
            else
              || d.history == recent
              || (d.history == [] && recent != [] && o.now - recent[|recent| - 1] >= p.healthyResetMs)
  {
  }

  // ---- Runs ----

  /** `history` is what the doctor stores; `log` and `all` are the restarts since the last reset that
      forgot one, and all of them. */
  datatype State = State(history: seq<int>, log: seq<int>, all: seq<int>)

  function Step(p: Policy, s: State, o: Observation): State {
    Advance(s, Recent(s.history, o.now, p), Evaluate(o, s.history, p), o.now)
  }

  function Advance(s: State, recent: seq<int>, d: Decision, now: int): State {
    if d.action == RestartTunnel then State(d.history, s.log + [now], s.all + [now])
    else if d.history == [] && recent != [] then State([], [], s.all)
    else State(d.history, s.log, s.all)
  }

  function Run(p: Policy, obs: seq<Observation>, n: nat): State
    requires n <= |obs|
  {
    if n == 0 then State([], [], []) else Step(p, Run(p, obs, n - 1), obs[n - 1])
  }

  ghost predicate InTimeOrder(obs: seq<Observation>) {
    forall i, j :: 0 <= i < j < |obs| ==> obs[i].now <= obs[j].now
  }

  /** The gap that any policy leaves between two restarts. */
  function GuaranteedGap(p: Policy): int {
    Max(0, Min(p.cooldownMs, Min(p.windowMs + 1, p.healthyResetMs)))
  }

  /** In time order, none after `now`. */
  ghost predicate Ordered(times: seq<int>, now: int) {
    var n := |times|;
    n > 0 ==> times[n - 1] <= now && Ordered(times[..n - 1], times[n - 1])
  }

  /** Each restart comes at least `gap` after the one before. */
  ghost predicate Spaced(times: seq<int>, gap: int) {
    var n := |times|;
    n > 1 ==> times[n - 1] - times[n - 2] >= gap && Spaced(times[..n - 1], gap)
  }

  /** `budget + 1` restarts in a row take more than the window. */
  ghost predicate Spread(times: seq<int>, budget: nat, windowMs: int) {
    var n := |times|;
    n > 0 ==>
      && (n > budget ==> times[n - 1] - times[n - 1 - budget] > windowMs)
      && Spread(times[..n - 1], budget, windowMs)
  }

  /** The stored history is a suffix of the log, and the newest restart it lacks is older than the
      window. */
  ghost predicate Remembers(history: seq<int>, log: seq<int>, now: int, windowMs: int) {
    && |history| <= |log|
    && history == log[|log| - |history|..]
    && (|history| < |log| ==> now - log[|log| - |history| - 1] > windowMs)
  }

  ghost predicate LogInv(history: seq<int>, log: seq<int>, now: int, budget: nat, windowMs: int) {
    && Ordered(log, now)
    && Remembers(history, log, now, windowMs)
    && |history| <= budget
    && Spread(log, budget, windowMs)
  }

  ghost predicate AllInv(log: seq<int>, all: seq<int>, now: int, gap: int, healthyResetMs: int) {
    && Ordered(all, now)
    && Spaced(all, gap)
    && (log != [] ==> all != [] && all[|all| - 1] == log[|log| - 1])
    && (log == [] && all != [] ==> now - all[|all| - 1] >= healthyResetMs)
  }

  ghost predicate Inv(p: Policy, s: State, now: int) {
    && LogInv(s.history, s.log, now, Budget(p), p.windowMs)
    && AllInv(s.log, s.all, now, GuaranteedGap(p), p.healthyResetMs)
  }

  lemma {:induction false} OrderedAt(times: seq<int>, now: int, i: nat, j: nat)
    requires Ordered(times, now) && i <= j < |times|
    ensures times[i] <= times[j] <= now
  {
    if j == |times| - 1 {
      if i < j {
        OrderedAt(times[..j], times[j], i, j - 1);
      }
    } else {
      OrderedAt(times[..|times| - 1], times[|times| - 1], i, j);
    }
  }

  lemma {:induction false} SpacedAt(times: seq<int>, gap: int, i: nat, j: nat)
    requires Spaced(times, gap) && gap >= 0 && i < j < |times|
    ensures times[j] - times[i] >= gap
  {
    var init := times[..|times| - 1];
    if j < |times| - 1 {
      SpacedAt(init, gap, i, j);
    } else if i < j - 1 {
      SpacedAt(init, gap, i, j - 1);
    }
  }

  lemma {:induction false} SpreadAt(times: seq<int>, budget: nat, windowMs: int, i: nat)
    requires Spread(times, budget, windowMs) && i + budget < |times|
    ensures times[i + budget] - times[i] > windowMs
  {
    if i + budget < |times| - 1 {
      SpreadAt(times[..|times| - 1], budget, windowMs, i);
    }
  }

  /** Where the window begins. */
  function Cut(h: seq<int>, now: int, windowMs: int): (cut: nat)
    ensures cut <= |h|
  {
    if h == [] || now - h[0] <= windowMs then 0 else 1 + Cut(h[1..], now, windowMs)
  }

  /** On restarts in time order the window keeps a suffix. */
  lemma {:induction false} InWindowIsSuffix(h: seq<int>, now: int, windowMs: int)
    requires forall k :: 0 <= k < |h| ==> h[k] <= now
    requires forall k, l :: 0 <= k < l < |h| ==> h[k] <= h[l]
    ensures var cut := Cut(h, now, windowMs);
            && InWindow(h, now, windowMs) == h[cut..]
            && (forall i :: 0 <= i < cut ==> now - h[i] > windowMs)
            && (forall i :: cut <= i < |h| ==> now - h[i] <= windowMs)
  {
    if h == [] {
    } else {
      var rest := h[1..];
      if now - h[0] <= windowMs {
        forall i | 0 <= i < |h|
          ensures now - h[i] <= windowMs
        {
          assert h[0] <= h[i];
        }
        AllInWindow(h, now, windowMs);
      } else {
        InWindowIsSuffix(rest, now, windowMs);
        var cut := Cut(rest, now, windowMs);
        assert h[1 + cut..] == rest[cut..];
        forall i | 0 < i < |h|
          ensures h[i] == rest[i - 1]
        {
        }
      }
    }
  }

  lemma {:induction false} AllInWindow(h: seq<int>, now: int, windowMs: int)
    requires forall i :: 0 <= i < |h| ==> h[i] <= now && now - h[i] <= windowMs
    ensures InWindow(h, now, windowMs) == h
  {
    if h == [] {
    } else {
      AllInWindow(h[1..], now, windowMs);
      assert [h[0]] + h[1..] == h;
    }
  }

  /** What a decision looks at is again a suffix of the log, without anything that counts. */
  lemma RecentIsRemembered(history: seq<int>, log: seq<int>, now: int, windowMs: int)
    requires Ordered(log, now) && Remembers(history, log, now, windowMs)
    ensures var r := InWindow(history, now, windowMs);
            && |r| <= |history| && Remembers(r, log, now, windowMs)
            && (r != [] ==> now - log[|log| - |r|] <= windowMs)
  {
    var gone := |log| - |history|;
    forall k, l | 0 <= k <= l < |history|
      ensures history[k] <= history[l] <= now
    {
      OrderedAt(log, now, gone + k, gone + l);
    }
    InWindowIsSuffix(history, now, windowMs);
    CutRemembers(history, log, now, windowMs, Cut(history, now, windowMs));
  }

  lemma CutRemembers(history: seq<int>, log: seq<int>, now: int, windowMs: int, cut: nat)
    requires Remembers(history, log, now, windowMs) && cut <= |history|
    requires cut > 0 ==> now - history[cut - 1] > windowMs
    requires cut < |history| ==> now - history[cut] <= windowMs
    ensures Remembers(history[cut..], log, now, windowMs)
    ensures cut < |history| ==> now - log[|log| - |history| + cut] <= windowMs
  {
    var gone := |log| - |history|;
    assert history[cut..] == log[gone + cut..];
    if cut > 0 {
      assert log[gone + cut - 1] == history[cut - 1];
    }
    if cut < |history| {
      assert log[gone + cut] == history[cut];
    }
  }

  lemma SpreadAppend(log: seq<int>, r: seq<int>, now: int, budget: nat, windowMs: int)
    requires LogInv(r, log, now, budget, windowMs) && |r| < budget
    ensures LogInv(r + [now], log + [now], now, budget, windowMs)
  {
    var next := log + [now];
    assert next[|next| - |r + [now]|..] == r + [now];
    assert next[..|log|] == log;
    if |next| > budget {
      OrderedAt(log, now, |next| - 1 - budget, |log| - |r| - 1);
    }
  }

  lemma AppendNow(log: seq<int>, all: seq<int>, now: int, gap: int, healthyResetMs: int)
    requires AllInv(log, all, now, gap, healthyResetMs)
    requires all != [] ==> now - all[|all| - 1] >= gap
    ensures AllInv(log + [now], all + [now], now, gap, healthyResetMs)
  {
    assert (all + [now])[..|all|] == all;
  }

  lemma RestartKeepsLog(history: seq<int>, log: seq<int>, now: int, budget: nat, windowMs: int)
    requires LogInv(history, log, now, budget, windowMs) && |InWindow(history, now, windowMs)| < budget
    ensures LogInv(InWindow(history, now, windowMs) + [now], log + [now], now, budget, windowMs)
  {
    RecentIsRemembered(history, log, now, windowMs);
    SpreadAppend(log, InWindow(history, now, windowMs), now, budget, windowMs);
  }

  lemma RestartKeepsAll(p: Policy, s: State, now: int, r: seq<int>)
    requires AllInv(s.log, s.all, now, GuaranteedGap(p), p.healthyResetMs) && Remembers(r, s.log, now, p.windowMs)
    requires r == [] || now - r[|r| - 1] >= p.cooldownMs
    ensures AllInv(s.log + [now], s.all + [now], now, GuaranteedGap(p), p.healthyResetMs)
  {
    if s.all != [] {
      if r != [] {
        LastRemembered(r, s.log);
      }
      GapIsKept(p, s.all[|s.all| - 1], now);
    }
    AppendNow(s.log, s.all, now, GuaranteedGap(p), p.healthyResetMs);
  }

  lemma LastRemembered(r: seq<int>, log: seq<int>)
    requires 0 < |r| <= |log| && r == log[|log| - |r|..]
    ensures r[|r| - 1] == log[|log| - 1]
  {
  }

  lemma RestartKeepsInv(p: Policy, s: State, now: int)
    requires Inv(p, s, now)
    requires var r := InWindow(s.history, now, p.windowMs);
             |r| < Budget(p) && (r == [] || now - r[|r| - 1] >= p.cooldownMs)
    ensures Inv(p, State(InWindow(s.history, now, p.windowMs) + [now], s.log + [now], s.all + [now]), now)
  {
    RecentIsRemembered(s.history, s.log, now, p.windowMs);
    RestartKeepsLog(s.history, s.log, now, Budget(p), p.windowMs);
    RestartKeepsAll(p, s, now, InWindow(s.history, now, p.windowMs));
  }

  /** A restart is late enough after the last one, whether that is still remembered, has left the
      window, or was forgotten in a reset. */
  lemma GapIsKept(p: Policy, last: int, now: int)
    requires last <= now
    requires now - last >= p.cooldownMs || now - last > p.windowMs || now - last >= p.healthyResetMs
    ensures now - last >= GuaranteedGap(p)
  {
  }

  lemma {:induction false} InvLater(p: Policy, s: State, now: int, later: int)
    requires Inv(p, s, now) && now <= later
    ensures Inv(p, s, later)
  {
  }

  /** Old restarts leave the history, and a reset leaves nothing behind. */
  lemma ForgetKeepsInv(p: Policy, s: State, now: int)
    requires Inv(p, s, now)
    ensures var r := InWindow(s.history, now, p.windowMs);
            && Inv(p, s.(history := r), now)
            && (r != [] && now - r[|r| - 1] >= p.healthyResetMs ==> Inv(p, State([], [], s.all), now))
  {
    RecentIsRemembered(s.history, s.log, now, p.windowMs);
    var r := InWindow(s.history, now, p.windowMs);
    if r != [] {
      assert r[|r| - 1] == s.log[|s.log| - 1];
    }
  }

  lemma StepKeepsInv(p: Policy, s: State, o: Observation)
    requires Inv(p, s, o.now)
    ensures Inv(p, Step(p, s, o), o.now)
  {
    var r := RecentIsWindow(p, s, o.now);
    var d := Decide(o, r, p);
    DecideCases(o, r, p);
    if d.action == RestartTunnel {
      RestartKeepsInv(p, s, o.now);
    } else {
      ForgetKeepsInv(p, s, o.now);
    }
  }

  /** `slice` never cuts anything: the stored history is within the budget already. */
  lemma RecentIsWindow(p: Policy, s: State, now: int) returns (r: seq<int>)
    requires Inv(p, s, now)
    ensures r == Recent(s.history, now, p) == InWindow(s.history, now, p.windowMs)
  {
    r := InWindow(s.history, now, p.windowMs);
    RecentIsRemembered(s.history, s.log, now, p.windowMs);
  }

  /** Every state of every run, at any time from its last observation on. */
  lemma {:induction false} RunKeepsInv(p: Policy, obs: seq<Observation>, n: nat, now: int)
    requires n <= |obs| && InTimeOrder(obs)
    requires n == 0 || obs[n - 1].now <= now
    ensures Inv(p, Run(p, obs, n), now)
  {
    if n == 0 {
    } else {
      RunKeepsInv(p, obs, n - 1, obs[n - 1].now);
      StepKeepsInv(p, Run(p, obs, n - 1), obs[n - 1]);
      InvLater(p, Run(p, obs, n), obs[n - 1].now, now);
    }
  }

  // ---- The claims ----

  /** The trimmed history is enough: the doctor decides as if it had kept every restart since the
      last reset that forgot one. */
  lemma TrimmingIsInvisible(p: Policy, obs: seq<Observation>, n: nat)
    requires n < |obs| && InTimeOrder(obs)
    ensures var s := Run(p, obs, n);
            Evaluate(obs[n], s.history, p) == Evaluate(obs[n], s.log, p)
  {
    RunKeepsInv(p, obs, n, obs[n].now);
    SameWindow(Run(p, obs, n).history, Run(p, obs, n).log, obs[n].now, p.windowMs);
  }

  lemma SameWindow(history: seq<int>, log: seq<int>, now: int, windowMs: int)
    requires Ordered(log, now) && Remembers(history, log, now, windowMs)
    ensures InWindow(history, now, windowMs) == InWindow(log, now, windowMs)
  {
    assert log[0..] == log;
    RecentIsRemembered(history, log, now, windowMs);
    RecentIsRemembered(log, log, now, windowMs);
    SameCut(InWindow(history, now, windowMs), InWindow(log, now, windowMs), log, now, windowMs);
    SameCut(InWindow(log, now, windowMs), InWindow(history, now, windowMs), log, now, windowMs);
  }

  /** As many restarts are within the window as the last ones that are recent enough. */
  lemma WindowExactly(log: seq<int>, now: int, windowMs: int)
    requires Ordered(log, now)
    ensures var r := InWindow(log, now, windowMs);
            && |r| <= |log| && r == log[|log| - |r|..]
            && forall k :: 0 <= k < |log| ==> (|r| >= |log| - k <==> now - log[k] <= windowMs)
  {
    forall k, l | 0 <= k <= l < |log|
      ensures log[k] <= log[l] <= now
    {
      OrderedAt(log, now, k, l);
    }
    InWindowIsSuffix(log, now, windowMs);
  }

  /** All that were allowed were used within the window. */
  predicate IsSpent(log: seq<int>, now: int, p: Policy) {
    p.maxRestarts <= 0 || (|log| >= p.maxRestarts && now - log[|log| - p.maxRestarts] <= p.windowMs)
  }

  /** The last one, if still within the window, is too recent. */
  predicate IsCooling(log: seq<int>, now: int, p: Policy) {
    log != [] && now - log[|log| - 1] <= p.windowMs && now - log[|log| - 1] < p.cooldownMs
  }

  lemma RecentExactly(log: seq<int>, now: int, p: Policy)
    requires Ordered(log, now)
    ensures var recent := Recent(log, now, p);
            && (|recent| >= Budget(p) <==> IsSpent(log, now, p))
            && (Budget(p) > 0 ==>
                  && (recent != [] <==> log != [] && now - log[|log| - 1] <= p.windowMs)
                  && (recent != [] ==> recent[|recent| - 1] == log[|log| - 1]))
  {
    WindowExactly(log, now, p.windowMs);
  }

  /** It is known that the tunnel itself is at fault. */
  predicate IsBroken(l: Local) {
    l.stuck == Some(true) || !l.liveness || l.processAlive == Some(false)
  }

  predicate IsSuspect(c: Option<ControlPlane>) {
    c.Some? && (c.value.stale == Some(true) || c.value.reachable == Some(false))
  }

  /** Each action by its conditions. */
  ghost predicate ActsExactly(action: Action, o: Observation, log: seq<int>, p: Policy) {
    var possible := o.local.configured != Some(false);
    && (action == RestartTunnel <==> possible && IsBroken(o.local) && !IsSpent(log, o.now, p) && !IsCooling(log, o.now, p))
    && (action == CircuitOpen <==> possible && IsBroken(o.local) && IsSpent(log, o.now, p))
    && (action == Healthy <==> possible && !IsBroken(o.local) && o.local.readiness && !IsSuspect(o.controlPlane))
  }

  lemma EvaluateExactly(o: Observation, log: seq<int>, p: Policy)
    requires Ordered(log, o.now)
    ensures ActsExactly(Evaluate(o, log, p).action, o, log, p)
  {
    RecentExactly(log, o.now, p);
  }

  /** A healthy tunnel forgets the restarts if the last one, still within the window, is the healthy
      time ago. */
  predicate IsForgotten(action: Action, log: seq<int>, now: int, p: Policy) {
    && action == Healthy && p.maxRestarts > 0 && log != []
    && p.healthyResetMs <= now - log[|log| - 1] <= p.windowMs
  }

  lemma ForgetsExactly(o: Observation, log: seq<int>, p: Policy)
    requires Ordered(log, o.now) && (p.maxRestarts <= 0 ==> log == [])
    ensures var d, recent := Evaluate(o, log, p), Recent(log, o.now, p);
            d.action != RestartTunnel ==> (d.history == [] && recent != [] <==> IsForgotten(d.action, log, o.now, p))
  {
    RecentExactly(log, o.now, p);
  }

  /** Over every run, each decision by the observation and by all restarts since the last reset: a
      tunnel is restarted when it is known to be broken, the budget is not spent and the cooldown is
      over; when it is broken and the budget is spent the circuit is open; it is healthy when nothing
      speaks against it. */
  lemma DecisionsExactly(p: Policy, obs: seq<Observation>, n: nat)
    requires n < |obs| && InTimeOrder(obs)
    ensures var s := Run(p, obs, n); ActsExactly(Evaluate(obs[n], s.history, p).action, obs[n], s.log, p)
  {
    TrimmingIsInvisible(p, obs, n);
    RunKeepsInv(p, obs, n, obs[n].now);
    EvaluateExactly(obs[n], Run(p, obs, n).log, p);
  }

  /** Over every run, the restarts that count after an observation. */
  lemma LogExactly(p: Policy, obs: seq<Observation>, n: nat)
    requires n < |obs| && InTimeOrder(obs)
    ensures var s, t, now := Run(p, obs, n), Run(p, obs, n + 1), obs[n].now;
            var action := Evaluate(obs[n], s.history, p).action;
            t.log == if action == RestartTunnel then s.log + [now] else if IsForgotten(action, s.log, now, p) then [] else s.log
  {
    var s, o := Run(p, obs, n), obs[n];
    TrimmingIsInvisible(p, obs, n);
    RunKeepsInv(p, obs, n, o.now);
    SameWindow(s.history, s.log, o.now, p.windowMs);
    NoBudgetNoLog(p, obs, n, o.now);
    ForgetsExactly(o, s.log, p);
    StepExactly(p, s, o);
  }

  lemma StepExactly(p: Policy, s: State, o: Observation)
    ensures var d, recent := Evaluate(o, s.history, p), Recent(s.history, o.now, p);
            Step(p, s, o).log == if d.action == RestartTunnel then s.log + [o.now]
                                 else if d.history == [] && recent != [] then [] else s.log
  {
  }

  lemma NoBudgetNoLog(p: Policy, obs: seq<Observation>, n: nat, now: int)
    requires n <= |obs| && InTimeOrder(obs) && (n > 0 ==> obs[n - 1].now <= now)
    ensures p.maxRestarts <= 0 ==> Run(p, obs, n).log == []
  {
    RunKeepsInv(p, obs, n, now);
    if p.maxRestarts <= 0 {
      NoBudgetNoRestart(p, obs, n);
    }
  }

  /** What is within the window is not longer than what the window leaves. */
  lemma SameCut(r: seq<int>, full: seq<int>, log: seq<int>, now: int, windowMs: int)
    requires Ordered(log, now) && Remembers(r, log, now, windowMs) && |full| <= |log|
    requires full != [] ==> now - log[|log| - |full|] <= windowMs
    ensures |full| <= |r|
  {
    if |r| < |full| {
      OrderedAt(log, now, |log| - |full|, |log| - |r| - 1);
    }
  }

  /** The budget: between resets, any `maxRestarts + 1` restarts in a row span more than the window. */
  lemma BudgetHolds(p: Policy, obs: seq<Observation>, n: nat, i: nat)
    requires n < |obs| && InTimeOrder(obs)
    requires i + Budget(p) < |Run(p, obs, n + 1).log|
    ensures Run(p, obs, n + 1).log[i + Budget(p)] - Run(p, obs, n + 1).log[i] > p.windowMs
  {
    RunKeepsInv(p, obs, n + 1, obs[n].now);
    BudgetIsKept(p, Run(p, obs, n + 1), obs[n].now, i);
  }

  lemma BudgetIsKept(p: Policy, s: State, now: int, i: nat)
    requires Inv(p, s, now) && i + Budget(p) < |s.log|
    ensures s.log[i + Budget(p)] - s.log[i] > p.windowMs
  {
    SpreadAt(s.log, Budget(p), p.windowMs, i);
  }

  /** A reset that forgets a restart comes at least `healthyResetMs` after the last one. */
  lemma ResetsComeLate(p: Policy, obs: seq<Observation>, n: nat)
    requires n < |obs| && InTimeOrder(obs)
    requires Run(p, obs, n).log != [] && Run(p, obs, n + 1).log == []
    ensures var all := Run(p, obs, n).all;
            all != [] && obs[n].now - all[|all| - 1] >= p.healthyResetMs
  {
    RunKeepsInv(p, obs, n, obs[n].now);
    ResetIsLate(p, Run(p, obs, n), obs[n]);
  }

  lemma ResetIsLate(p: Policy, s: State, o: Observation)
    requires Inv(p, s, o.now) && s.log != [] && Step(p, s, o).log == []
    ensures s.all != [] && o.now - s.all[|s.all| - 1] >= p.healthyResetMs
  {
    var r := RecentIsWindow(p, s, o.now);
    RecentIsRemembered(s.history, s.log, o.now, p.windowMs);
    DecideCases(o, r, p);
    assert r[|r| - 1] == s.log[|s.log| - 1];
  }

  ghost predicate CooldownHolds(p: Policy, obs: seq<Observation>) {
    var all := Run(p, obs, |obs|).all;
    InTimeOrder(obs) ==> forall i, j :: 0 <= i < j < |all| ==> all[j] - all[i] >= p.cooldownMs
  }

  /** The cooldown separates any two restarts of every run exactly when no restart is allowed at all
      or neither way of forgetting a restart is faster than the cooldown. */
  lemma CooldownExactly(p: Policy)
    ensures (forall obs: seq<Observation> :: CooldownHolds(p, obs))
            <==> p.maxRestarts <= 0 || p.cooldownMs <= Max(0, Min(p.windowMs + 1, p.healthyResetMs))
  {
    if p.maxRestarts <= 0 || p.cooldownMs <= Max(0, Min(p.windowMs + 1, p.healthyResetMs)) {
      forall obs: seq<Observation>
        ensures CooldownHolds(p, obs)
      {
        if InTimeOrder(obs) {
          CooldownKept(p, obs);
        }
      }
    } else {
      var obs := EarlySecondRestart(p);
      EarlySecondRestartRuns(p);
      var all := Run(p, obs, |obs|).all;
      assert all[1] - all[0] < p.cooldownMs;
      assert !CooldownHolds(p, obs);
    }
  }

  /** The defaults keep the cooldown over every run. */
  lemma DefaultPolicyKeepsTheCooldown(obs: seq<Observation>)
    ensures CooldownHolds(DEFAULT_RECOVERY_POLICY, obs)
  {
    CooldownExactly(DEFAULT_RECOVERY_POLICY);
  }

  lemma CooldownKept(p: Policy, obs: seq<Observation>)
    requires p.maxRestarts <= 0 || p.cooldownMs <= Max(0, Min(p.windowMs + 1, p.healthyResetMs))
    requires InTimeOrder(obs)
    ensures CooldownHolds(p, obs)
  {
    var all := Run(p, obs, |obs|).all;
    if p.maxRestarts <= 0 {
      NoBudgetNoRestart(p, obs, |obs|);
    } else {
      RunKeepsInv(p, obs, |obs|, if obs == [] then 0 else obs[|obs| - 1].now);
      forall i, j | 0 <= i < j < |all|
        ensures all[j] - all[i] >= p.cooldownMs
      {
        SpacedAt(all, GuaranteedGap(p), i, j);
      }
    }
  }

  lemma {:induction false} NoBudgetNoRestart(p: Policy, obs: seq<Observation>, n: nat)
    requires n <= |obs| && p.maxRestarts <= 0
    ensures Run(p, obs, n).all == []
  {
    if n == 0 {
    } else {
      NoBudgetNoRestart(p, obs, n - 1);
    }
  }

  const DOWN := Local(None, false, false, None, None)
  const UP := Local(None, true, true, None, None)

  /** A restart at time zero, a healthy observation, and a second restart as early as it gets. */
  function EarlySecondRestart(p: Policy): seq<Observation> {
    var at := Max(0, Min(p.windowMs + 1, p.healthyResetMs));
    [Observation(0, DOWN, None), Observation(at, UP, None), Observation(at, DOWN, None)]
  }

  lemma EarlySecondRestartRuns(p: Policy)
    requires p.maxRestarts > 0
    ensures var at := Max(0, Min(p.windowMs + 1, p.healthyResetMs));
            InTimeOrder(EarlySecondRestart(p)) && Run(p, EarlySecondRestart(p), 3).all == [0, at]
  {
    var obs := EarlySecondRestart(p);
    var at := Max(0, Min(p.windowMs + 1, p.healthyResetMs));
    assert InWindow([], 0, p.windowMs) == [];
    assert Run(p, obs, 0) == State([], [], []);
    assert Run(p, obs, 1) == State([0], [0], [0]);
    assert InWindow([0], at, p.windowMs) == if at <= p.windowMs then [0] else [];
    assert Run(p, obs, 2).history == [] && Run(p, obs, 2).all == [0];
    assert InWindow([], at, p.windowMs) == [];
  }
}
