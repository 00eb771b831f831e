/** Model of the lease handling of the class in src/daemon/ipc-server.ts. */
module DaemonIpcServers {
  import opened JavaScript
  import opened VisualLease
  import opened Wrappers

  class DaemonIpcServer {
    const leaseTimeoutMs: int
    var clients: map<nat, ClientState>
    var visualLease: Option<Lease>
    /** The event loop: its timers, its clock, and the handles it gave out. */
    var timers: map<nat, Timer>
    var now: int
    var handles: nat
    var serials: nat
    ghost var expired: seq<(Lease, int)>

    ghost function State(): State
      reads this
    {
      VisualLease.State(clients, visualLease, timers, now, handles, serials, expired)
    }

    constructor (leaseTimeoutMs: int)
      ensures this.leaseTimeoutMs == leaseTimeoutMs && State() == EMPTY
    {
      this.leaseTimeoutMs := leaseTimeoutMs;
      clients, visualLease, timers, now, handles, serials, expired := map[], None, map[], 0, 0, 0, [];
    }

    method Accept(socket: nat)
      requires Enabled(State(), VisualLease.Accept(socket))
      modifies this
      ensures State() == Next(old(State()), VisualLease.Accept(socket), leaseTimeoutMs)
    {
      clients := clients[socket := ClientState(None, false)];
    }

    method Hello(socket: nat, mode: Mode)
      requires socket in clients
      modifies this
      ensures State() == Next(old(State()), VisualLease.Hello(socket, mode), leaseTimeoutMs)
    {
      clients := clients[socket := clients[socket].(mode := Some(mode))];
    }

    /** Attached when the answer names the time since when the socket itself is; otherwise the time
        since when another one is, or no visual client asked. */
    method AttachVisual(socket: nat) returns (attached: bool, since: Option<int>)
      requires socket in clients
      modifies this
      ensures State() == AttachStep(old(State()), socket, leaseTimeoutMs)
      ensures attached ==> Holds(State(), socket) && since == Some(visualLease.value.attachedSince)
      ensures !attached && since.Some? ==> visualLease.Some? && !Holds(State(), socket) && since.value == visualLease.value.attachedSince
      ensures since.None? <==> old(clients)[socket].mode != Some(Visual)
    {
      if clients[socket].mode != Some(Visual) {
        return false, None;
      }
      if visualLease.Some? && visualLease.value.socket != socket {
        return false, Some(visualLease.value.attachedSince);
      }
      if visualLease.None? {
        visualLease := Some(Lease(serials, socket, now, now, None));
        serials := serials + 1;
        ScheduleLeaseExpiry();
      }
      return true, Some(visualLease.value.attachedSince);
    }

    method RequireVisualLease(socket: nat) returns (ok: bool)
      ensures ok == Holds(State(), socket)
    {
      ok := visualLease.Some? && visualLease.value.socket == socket;
    }

    method Subscribe(socket: nat) returns (ok: bool)
      requires socket in clients
      modifies this
      ensures State() == Next(old(State()), VisualLease.Subscribe(socket), leaseTimeoutMs)
      ensures ok == Holds(State(), socket)
    {
      ok := RequireVisualLease(socket);
      if ok {
        clients := clients[socket := clients[socket].(subscribed := true)];
      }
    }

    method Ping(socket: nat)
      modifies this
      ensures State() == PingStep(old(State()), socket, leaseTimeoutMs)
    {
      if visualLease.Some? && visualLease.value.socket == socket {
        visualLease := Some(visualLease.value.(lastHeartbeatAt := now));
        ScheduleLeaseExpiry();
      }
    }

    method Detach(socket: nat)
      requires socket in clients
      modifies this
      ensures State() == Next(old(State()), VisualLease.Detach(socket), leaseTimeoutMs)
    {
      if visualLease.Some? && visualLease.value.socket == socket {
        ReleaseVisualLease();
      }
      clients := clients[socket := clients[socket].(subscribed := false)];
    }

    method OnClose(socket: nat)
      modifies this
      ensures State() == Next(old(State()), VisualLease.Close(socket), leaseTimeoutMs)
    {
      if visualLease.Some? && visualLease.value.socket == socket {
        ReleaseVisualLease();
      }
      clients := clients - {socket};
    }

    method Stop()
      modifies this
      ensures State() == Next(old(State()), Shutdown, leaseTimeoutMs)
    {
      ReleaseVisualLease();
      clients := map[];
    }

    method ScheduleLeaseExpiry()
      modifies this
      ensures State() == Schedule(old(State()), leaseTimeoutMs)
    {
      if visualLease.None? {
        return;
      }
      var lease := visualLease.value;
      if lease.timer.Some? {
        timers := timers - {lease.timer.value};
      }
      var elapsed := Max(0, now - lease.lastHeartbeatAt);
      var remaining := Max(1, leaseTimeoutMs - elapsed);
      timers := timers[handles := Timer(lease.serial, now + remaining)];
      visualLease := Some(lease.(timer := Some(handles)));
      handles := handles + 1;
    }

    /** The callback of a timer. Destroying the holder's socket raises its `close` event later. */
    method OnTimer(handle: nat)
      requires handle in timers
      modifies this
      ensures State() == FireStep(old(State()), handle, leaseTimeoutMs)
    {
      var serial := timers[handle].serial;
      timers := timers - {handle};
      if visualLease.None? || visualLease.value.serial != serial {
        return;
      }
      if now - visualLease.value.lastHeartbeatAt >= leaseTimeoutMs {
        expired := expired + [(visualLease.value, now)];
        ReleaseVisualLease();
      } else {
        ScheduleLeaseExpiry();
      }
    }

    method ReleaseVisualLease()
      modifies this
      ensures State() == Release(old(State()))
    {
      if visualLease.None? {
        return;
      }
      var lease := visualLease.value;
      if lease.timer.Some? {
        timers := timers - {lease.timer.value};
      }
      if lease.socket in clients {
        clients := clients[lease.socket := clients[lease.socket].(subscribed := false)];
      }
      visualLease := None;
    }

    /** Where an event of the daemon goes. */
    method ForwardEvent() returns (recipient: Option<nat>)
      ensures recipient == Recipient(State())
    {
      if visualLease.None? {
        return None;
      }
      var socket := visualLease.value.socket;
      if socket !in clients || !clients[socket].subscribed {
        return None;
      }
      recipient := Some(socket);
    }
  }
}
