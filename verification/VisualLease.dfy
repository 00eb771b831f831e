/** Model of the visual lease in src/daemon/ipc-server.ts: at most one visual client is attached, and
    it loses the lease when it is silent for too long.

    A socket is its number. The event loop's timers are part of the state. The clock only moves
    forward, by any amount; a timer may run late, or early. */
module VisualLease {
  import opened JavaScript
  import opened Wrappers

  datatype Mode = Visual | Admin

  datatype ClientState = ClientState(mode: Option<Mode>, subscribed: bool)

  /** `serial` is the identity of the lease object, `timer` the handle of its timer. */
  datatype Lease = Lease(serial: nat, socket: nat, attachedSince: int, lastHeartbeatAt: int, timer: Option<nat>)

  datatype Timer = Timer(serial: nat, due: int)

  /** `expired` lists the leases that ran out, with the time of it. */
  datatype State = State(
    clients: map<nat, ClientState>, lease: Option<Lease>, timers: map<nat, Timer>, now: int, handles: nat, serials: nat,
    expired: seq<(Lease, int)>)

  datatype Step =
    | Accept(socket: nat)
    | Hello(socket: nat, mode: Mode)
    | Attach(socket: nat)
    | Subscribe(socket: nat)
    | Ping(socket: nat)
    | Detach(socket: nat)
    | Close(socket: nat)
    | Fire(handle: nat)
    | Shutdown
    | Advance(to: int)

  const EMPTY := State(map[], None, map[], 0, 0, 0, [])

  predicate Holds(s: State, socket: nat) { s.lease.Some? && s.lease.value.socket == socket }

  /** The socket that events are forwarded to. */
  function Recipient(s: State): Option<nat> {
    if s.lease.Some? && s.lease.value.socket in s.clients && s.clients[s.lease.value.socket].subscribed
    then Some(s.lease.value.socket) else None
  }

  /** `scheduleLeaseExpiry` */
  function Schedule(s: State, timeoutMs: int): State {
    if s.lease.None? then s
    else
      var lease := s.lease.value;
      var timers := if lease.timer.Some? then s.timers - {lease.timer.value} else s.timers;
      var elapsed := Max(0, s.now - lease.lastHeartbeatAt);
      var due := s.now + Max(1, timeoutMs - elapsed);
      s.(timers := timers[s.handles := Timer(lease.serial, due)], handles := s.handles + 1,
         lease := Some(lease.(timer := Some(s.handles))))
  }

  /** `releaseVisualLease` */
  function Release(s: State): State {
    if s.lease.None? then s
    else
      var lease := s.lease.value;
      s.(timers := if lease.timer.Some? then s.timers - {lease.timer.value} else s.timers,
         clients := if lease.socket in s.clients
                    then s.clients[lease.socket := s.clients[lease.socket].(subscribed := false)] else s.clients,
         lease := None)
  }

  function AttachStep(s: State, socket: nat, timeoutMs: int): State {
    if socket !in s.clients || s.clients[socket].mode != Some(Visual) || s.lease.Some? then s
    else
      Schedule(s.(lease := Some(Lease(s.serials, socket, s.now, s.now, None)), serials := s.serials + 1), timeoutMs)
  }

  function PingStep(s: State, socket: nat, timeoutMs: int): State {
    if Holds(s, socket) then Schedule(s.(lease := Some(s.lease.value.(lastHeartbeatAt := s.now))), timeoutMs) else s
  }

  function FireStep(s: State, handle: nat, timeoutMs: int): State
    requires handle in s.timers
  {
    var t := s.(timers := s.timers - {handle});
    if t.lease.None? || t.lease.value.serial != s.timers[handle].serial then t
    else if t.now - t.lease.value.lastHeartbeatAt >= timeoutMs then
      Release(t).(expired := t.expired + [(t.lease.value, t.now)])
    else Schedule(t, timeoutMs)
  }

  predicate Enabled(s: State, step: Step) {
    match step
    case Accept(socket) => socket !in s.clients && !Holds(s, socket)
    case Fire(handle) => handle in s.timers
    case Advance(to) => s.now <= to
    case _ => true
  }

  function Next(s: State, step: Step, timeoutMs: int): State
    requires Enabled(s, step)
  {
    match step
    case Accept(socket) => s.(clients := s.clients[socket := ClientState(None, false)])
    case Hello(socket, mode) =>
      if socket in s.clients then s.(clients := s.clients[socket := s.clients[socket].(mode := Some(mode))]) else s
    case Attach(socket) => AttachStep(s, socket, timeoutMs)
    case Subscribe(socket) =>
      if socket in s.clients && Holds(s, socket) then s.(clients := s.clients[socket := s.clients[socket].(subscribed := true)]) else s
    case Ping(socket) => PingStep(s, socket, timeoutMs)
    case Detach(socket) =>
      var t := if Holds(s, socket) then Release(s) else s;
      if socket in t.clients then t.(clients := t.clients[socket := t.clients[socket].(subscribed := false)]) else t
    case Close(socket) =>
      var t := if Holds(s, socket) then Release(s) else s;
      t.(clients := t.clients - {socket})
    case Fire(handle) => FireStep(s, handle, timeoutMs)
    case Shutdown => Release(s).(clients := map[])
    case Advance(to) => s.(now := to)
  }

  // ---- What holds in every state ----

  /** Who is subscribed holds the lease, and the holder is connected. */
  ghost predicate Exclusive(clients: map<nat, ClientState>, lease: Option<Lease>) {
    && (forall c :: c in clients && clients[c].subscribed ==> lease.Some? && lease.value.socket == c)
    && (lease.Some? ==> lease.value.socket in clients)
  }

  /** A lease has exactly one timer, and it is due when the lease has been silent for the timeout. */
  ghost predicate Timed(lease: Option<Lease>, timers: map<nat, Timer>, now: int, handles: nat, timeoutMs: int) {
    && (lease.None? ==> timers == map[])
    && (lease.Some? ==>
          && lease.value.lastHeartbeatAt <= now
          && lease.value.timer.Some? && lease.value.timer.value < handles
          && timers == map[lease.value.timer.value := Timer(lease.value.serial, lease.value.lastHeartbeatAt + Max(1, timeoutMs))])
  }

  ghost predicate Inv(s: State, timeoutMs: int) {
    && Exclusive(s.clients, s.lease)
    && Timed(s.lease, s.timers, s.now, s.handles, timeoutMs)
    && (s.lease.Some? ==> s.lease.value.serial < s.serials)
    && (forall i :: 0 <= i < |s.expired| ==> s.expired[i].1 - s.expired[i].0.lastHeartbeatAt >= timeoutMs)
  }

  /** Scheduling at the moment of a heartbeat, or while the timeout is not over, leaves one timer. */
  lemma ScheduleIsTimed(s: State, timeoutMs: int)
    requires s.lease.Some?
    requires var l := s.lease.value;
             && l.lastHeartbeatAt <= s.now && (s.now == l.lastHeartbeatAt || s.now - l.lastHeartbeatAt < timeoutMs)
             && (s.timers == map[] || (l.timer.Some? && s.timers.Keys == {l.timer.value}))
    ensures var t := Schedule(s, timeoutMs); Timed(t.lease, t.timers, t.now, t.handles, timeoutMs)
  {
    var l := s.lease.value;
    assert (if l.timer.Some? then s.timers - {l.timer.value} else s.timers) == map[];
  }

  lemma ReleaseKeepsInv(s: State, timeoutMs: int)
    requires Inv(s, timeoutMs)
    ensures Inv(Release(s), timeoutMs) && Release(s).lease.None?
  {
  }

  /** A timer that runs ends the lease it belongs to if and only if the holder was silent for the
      timeout; otherwise it is set again. */
  lemma FireKeepsInv(s: State, handle: nat, timeoutMs: int)
    requires Inv(s, timeoutMs) && handle in s.timers
    ensures Inv(FireStep(s, handle, timeoutMs), timeoutMs)
    ensures s.lease.Some? && s.timers[handle].serial == s.lease.value.serial
    ensures FireStep(s, handle, timeoutMs).lease.None? <==> s.now - s.lease.value.lastHeartbeatAt >= timeoutMs
  {
    var t := s.(timers := s.timers - {handle});
    assert t.timers == map[];
    if s.now - s.lease.value.lastHeartbeatAt < timeoutMs {
      ScheduleIsTimed(t, timeoutMs);
    }
  }

  lemma NextKeepsInv(s: State, step: Step, timeoutMs: int)
    requires Inv(s, timeoutMs) && Enabled(s, step)
    ensures Inv(Next(s, step, timeoutMs), timeoutMs)
  {
    match step {
      case Attach(socket) =>
        if s.lease.None? {
          ScheduleIsTimed(s.(lease := Some(Lease(s.serials, socket, s.now, s.now, None)), serials := s.serials + 1), timeoutMs);
        }
      case Ping(socket) =>
        if Holds(s, socket) {
          ScheduleIsTimed(s.(lease := Some(s.lease.value.(lastHeartbeatAt := s.now))), timeoutMs);
        }
      case Fire(handle) => FireKeepsInv(s, handle, timeoutMs);
      case Advance(to) =>
      case _ => ReleaseKeepsInv(s, timeoutMs);
    }
  }

  predicate IsRun(states: seq<State>, steps: seq<Step>, timeoutMs: int) {
    && |states| == |steps| + 1 && states[0] == EMPTY
    && forall i :: 0 <= i < |steps| ==> Enabled(states[i], steps[i]) && states[i + 1] == Next(states[i], steps[i], timeoutMs)
  }

  /** Over every run: only the holder is subscribed, a lease has exactly one timer, due when the
      holder will have been silent for the timeout, and no lease ran out before that. */
  lemma {:induction false} EveryStateIsGood(states: seq<State>, steps: seq<Step>, timeoutMs: int, i: nat)
    requires IsRun(states, steps, timeoutMs) && i < |states|
    ensures Inv(states[i], timeoutMs)
    decreases i
  {
    if i == 0 {
    } else {
      EveryStateIsGood(states, steps, timeoutMs, i - 1);
      NextKeepsInv(states[i - 1], steps[i - 1], timeoutMs);
    }
  }

  /** A lease ends exactly when its holder detaches or disconnects, the server stops, or its timer
      runs after the timeout without a heartbeat; until then nobody else gets it. */
  lemma LeaseEndsExactly(s: State, step: Step, timeoutMs: int)
    requires Inv(s, timeoutMs) && Enabled(s, step) && s.lease.Some?
    ensures var l, t := s.lease.value, Next(s, step, timeoutMs);
            && (t.lease.None? <==>
                  || step == Detach(l.socket) || step == Close(l.socket) || step == Shutdown
                  || (step.Fire? && s.now - l.lastHeartbeatAt >= timeoutMs))
            && (t.lease.Some? ==> t.lease.value.serial == l.serial && t.lease.value.socket == l.socket
                                  && t.lease.value.attachedSince == l.attachedSince)
  {
    if step.Fire? {
      FireKeepsInv(s, step.handle, timeoutMs);
    }
  }

  /** Who is connected, and as what: a client has the mode of its last greeting. */
  lemma ClientsExactly(s: State, step: Step, timeoutMs: int, c: nat)
    requires Enabled(s, step)
    ensures var t := Next(s, step, timeoutMs);
            && (c in t.clients <==> step == Accept(c) || (c in s.clients && step != Close(c) && step != Shutdown))
            && (c in t.clients ==>
                  t.clients[c].mode == if step == Accept(c) then None
                                       else if step.Hello? && step.socket == c then Some(step.mode) else s.clients[c].mode)
  {
  }

  /** A lease begins exactly when a connected visual client attaches while nobody holds one. */
  lemma LeaseBeginsExactly(s: State, step: Step, timeoutMs: int)
    requires Inv(s, timeoutMs) && Enabled(s, step) && s.lease.None?
    ensures var t := Next(s, step, timeoutMs);
            && (t.lease.Some? <==> step.Attach? && step.socket in s.clients && s.clients[step.socket].mode == Some(Visual))
            && (t.lease.Some? ==> t.lease.value.socket == step.socket && t.lease.value.attachedSince == s.now)
  {
  }

  /** Events go to the holder from its subscription on until its lease ends. */
  lemma RecipientExactly(s: State, step: Step, timeoutMs: int)
    requires Inv(s, timeoutMs) && Enabled(s, step)
    ensures var t := Next(s, step, timeoutMs);
            Recipient(t) == if t.lease.None? then None
                            else if step == Subscribe(t.lease.value.socket) then Some(t.lease.value.socket)
                            else Recipient(s)
  {
    NextKeepsInv(s, step, timeoutMs);
  }

  // ---- Signs of life ----

  /** What a step does to the last sign of life: attaching and a heartbeat of the holder are one. */
  ghost predicate Beats(s: State, t: State, step: Step) {
    t.lease.Some? ==>
      t.lease.value.lastHeartbeatAt ==
      if s.lease.None? || step == Ping(t.lease.value.socket) then s.now else s.lease.value.lastHeartbeatAt
  }

  lemma NextBeats(s: State, step: Step, timeoutMs: int)
    requires Inv(s, timeoutMs) && Enabled(s, step)
    ensures Beats(s, Next(s, step, timeoutMs), step)
  {
  }

  /** A lease is held without a break. */
  lemma {:induction false} HeldBetween(states: seq<State>, steps: seq<Step>, timeoutMs: int, i: nat, k: nat, j: nat)
    requires IsRun(states, steps, timeoutMs) && i <= k <= j < |states|
    requires states[i].lease.Some? && states[j].lease.Some? && states[i].lease.value.serial == states[j].lease.value.serial
    ensures states[k].lease.Some? && states[k].lease.value.serial == states[i].lease.value.serial
    decreases j - k
  {
    if k < j {
      HeldBetween(states, steps, timeoutMs, i, k + 1, j);
      EveryStateIsGood(states, steps, timeoutMs, i);
      EveryStateIsGood(states, steps, timeoutMs, k);
      SerialsGrow(states, steps, timeoutMs, i, k);
    }
  }

  lemma {:induction false} SerialsGrow(states: seq<State>, steps: seq<Step>, timeoutMs: int, i: nat, j: nat)
    requires IsRun(states, steps, timeoutMs) && i <= j < |states|
    ensures states[i].serials <= states[j].serials
    decreases j
  {
    if i < j {
      SerialsGrow(states, steps, timeoutMs, i, j - 1);
    }
  }

  /** Over every run: a lease that runs out had no heartbeat of its holder, and was not attached,
      within the timeout. */
  lemma ExpiryMeansSilence(states: seq<State>, steps: seq<Step>, timeoutMs: int, i: nat, j: nat)
    requires IsRun(states, steps, timeoutMs) && i < j < |steps|
    requires steps[j].Fire? && states[j].lease.Some? && states[j + 1].lease.None?
    requires states[i + 1].lease.Some? && states[i + 1].lease.value.serial == states[j].lease.value.serial
    requires states[i].lease.None? || steps[i] == Ping(states[i + 1].lease.value.socket)
    ensures states[j].now - states[i].now >= timeoutMs
  {
    EveryStateIsGood(states, steps, timeoutMs, i);
    EveryStateIsGood(states, steps, timeoutMs, i + 1);
    EveryStateIsGood(states, steps, timeoutMs, j);
    FireKeepsInv(states[j], steps[j].handle, timeoutMs);
    NextBeats(states[i], steps[i], timeoutMs);
    SignsAreKept(states, steps, timeoutMs, i + 1, j);
  }

  /** The last sign of life never moves back. */
  lemma {:induction false} SignsAreKept(states: seq<State>, steps: seq<Step>, timeoutMs: int, i: nat, j: nat)
    requires IsRun(states, steps, timeoutMs) && i <= j < |states|
    requires states[i].lease.Some? && states[j].lease.Some? && states[i].lease.value.serial == states[j].lease.value.serial
    ensures states[i].lease.value.lastHeartbeatAt <= states[j].lease.value.lastHeartbeatAt
    decreases j
  {
    if i < j {
      HeldBetween(states, steps, timeoutMs, i, j - 1, j);
      SignsAreKept(states, steps, timeoutMs, i, j - 1);
      EveryStateIsGood(states, steps, timeoutMs, j - 1);
      NextBeats(states[j - 1], steps[j - 1], timeoutMs);
    }
  }

  // ---- A lease that is held past its timeout ----

  /** The lease is held, has been silent for the timeout, and its own timer is the only one, due,
      and ends it. */
  ghost predicate OnItsWayOut(s: State, l: Lease, timeoutMs: int) {
    && s.lease == Some(l) && l.timer.Some?
    && s.timers.Keys == {l.timer.value} && s.timers[l.timer.value].due <= s.now
    && var t := FireStep(s, l.timer.value, timeoutMs); t.lease.None? && t.expired == s.expired + [(l, s.now)]
  }

  /** The lease has ended, and whoever holds one now got it later. */
  ghost predicate Ended(s: State, l: Lease) {
    l.serial < s.serials && (s.lease.Some? ==> l.serial < s.lease.value.serial)
  }

  lemma SilentLeaseIsOnItsWayOut(s: State, timeoutMs: int)
    requires Inv(s, timeoutMs) && s.lease.Some?
    ensures OnItsWayOut(s, s.lease.value, timeoutMs) <==> s.now - s.lease.value.lastHeartbeatAt >= Max(1, timeoutMs)
  {
    FireKeepsInv(s, s.lease.value.timer.value, timeoutMs);
  }

  /** No step but a heartbeat gives such a lease more time. */
  lemma StaysOnItsWayOut(s: State, l: Lease, step: Step, timeoutMs: int)
    requires Inv(s, timeoutMs) && Enabled(s, step) && OnItsWayOut(s, l, timeoutMs) && step != Ping(l.socket)
    ensures var t := Next(s, step, timeoutMs); OnItsWayOut(t, l, timeoutMs) || Ended(t, l)
  {
    var t := Next(s, step, timeoutMs);
    SilentLeaseIsOnItsWayOut(s, timeoutMs);
    NextKeepsInv(s, step, timeoutMs);
    if t.lease.Some? {
      SilentLeaseIsOnItsWayOut(t, timeoutMs);
    }
  }

  lemma EndedStaysEnded(s: State, l: Lease, step: Step, timeoutMs: int)
    requires Enabled(s, step) && Ended(s, l)
    ensures Ended(Next(s, step, timeoutMs), l)
  {
  }

  /** Over every run: a lease held past its timeout, whatever happens except a heartbeat of its
      holder, has ended or is on its way out: its own timer is the only one, due, and ends it. */
  lemma {:induction false} OverdueLeaseEnds(states: seq<State>, steps: seq<Step>, timeoutMs: int, i: nat, j: nat)
    requires IsRun(states, steps, timeoutMs) && i <= j < |states|
    requires states[i].lease.Some? && states[i].now - states[i].lease.value.lastHeartbeatAt >= Max(1, timeoutMs)
    requires forall k :: i <= k < j && states[k].lease == states[i].lease ==> steps[k] != Ping(states[i].lease.value.socket)
    ensures OnItsWayOut(states[j], states[i].lease.value, timeoutMs) || Ended(states[j], states[i].lease.value)
    decreases j
  {
    var l := states[i].lease.value;
    if i == j {
      EveryStateIsGood(states, steps, timeoutMs, i);
      SilentLeaseIsOnItsWayOut(states[i], timeoutMs);
    } else {
      OverdueLeaseEnds(states, steps, timeoutMs, i, j - 1);
      EveryStateIsGood(states, steps, timeoutMs, j - 1);
      if Ended(states[j - 1], l) {
        EndedStaysEnded(states[j - 1], l, steps[j - 1], timeoutMs);
      } else {
        StaysOnItsWayOut(states[j - 1], l, steps[j - 1], timeoutMs);
      }
    }
  }
}
