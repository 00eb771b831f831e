/** The class of src/client/session-source.ts: connecting, reconnecting and stopping.

    A call of `connectClient` inside `connectLoop` is suspended at its awaits; each suspended call
    is an attempt, kept under the number of the client it created. One method is one stretch of
    code between awaits. */
module SessionSources {
  import opened Wrappers
  import opened RuntimeStore
  import opened SessionSource
  import opened RuntimeSessionStores

  datatype ConnectionState = Disconnected | Connecting | Connected | Reconnecting | Stopped

  datatype Phase =
    | AwaitingConnect                            // client.connect("visual")
    | AwaitingSnapshot(pending: seq<Event>)      // client.requestSnapshot()
    | Synchronized                               // connectClient returned; its listener lives on
    | AwaitingClose                              // client.close() in the catch block
    | Sleeping(delayMs: nat)                     // between two attempts

  datatype Attempt = Attempt(generation: nat, phase: Phase)

  const RECONNECT_DELAYS_MS: seq<nat> := [1_000, 2_000, 5_000, 10_000, 30_000]

  /** The attempt holds the client that events are accepted from. */
  predicate HoldsClient(p: Phase) { p.AwaitingConnect? || p.AwaitingSnapshot? || p.Synchronized? }

  /** Exactly one attempt is of the current generation. */
  ghost predicate OneLive(attempts: map<nat, Attempt>, generation: nat, c: nat) {
    && c in attempts && attempts[c].generation == generation
    && forall d :: d in attempts && attempts[d].generation == generation ==> d == c
  }

  /** Never two attempts at once, never none while one is wanted. */
  ghost predicate Consistent(state: ConnectionState, generation: nat, client: Option<nat>, nextClient: nat, attempts: map<nat, Attempt>) {
    && (forall c :: c in attempts ==> c < nextClient && attempts[c].generation <= generation)
    && (forall c :: c in attempts && attempts[c].phase.Synchronized? ==> attempts[c].generation == generation)
    && match state
       case Disconnected => generation == 0 && attempts == map[] && client == None
       case Stopped => client == None && forall c :: c in attempts ==> attempts[c].generation < generation
       case Connected => client.Some? && OneLive(attempts, generation, client.value) && attempts[client.value].phase.Synchronized?
       case _ =>
         exists c :: OneLive(attempts, generation, c) && !attempts[c].phase.Synchronized?
                     && client == if HoldsClient(attempts[c].phase) then Some(c) else None
  }

  class IpcTuiSessionSource {
    const store: RuntimeSessionStore
    var state: ConnectionState
    var generation: nat
    var client: Option<nat>
    var reconnectIndex: nat
    var nextClient: nat
    var attempts: map<nat, Attempt>

    ghost predicate Valid()
      reads this, store
    {
      store.Valid() && Consistent(state, generation, client, nextClient, attempts)
    }

    constructor (store: RuntimeSessionStore)
      requires store.Valid()
      ensures Valid() && this.store == store && state == Disconnected
    {
      this.store := store;
      state, generation, client, reconnectIndex, nextClient, attempts := Disconnected, 0, None, 0, 0, map[];
    }

    /** The top of `connectLoop`: a new client is created and becomes the current one. */
    method BeginAttempt(initial: bool)
      requires forall c :: c in attempts ==> c < nextClient && attempts[c].generation < generation && !attempts[c].phase.Synchronized?
      modifies `state, `client, `nextClient, `attempts
      ensures Consistent(state, generation, client, nextClient, attempts)
      ensures state == (if initial then Connecting else Reconnecting)
      ensures client == Some(old(nextClient)) && nextClient == old(nextClient) + 1
      ensures attempts == old(attempts)[old(nextClient) := Attempt(generation, AwaitingConnect)]
    {
      state := if initial then Connecting else Reconnecting;
      client := Some(nextClient);
      attempts := attempts[nextClient := Attempt(generation, AwaitingConnect)];
      nextClient := nextClient + 1;
      assert OneLive(attempts, generation, nextClient - 1);
    }

    method Start() returns (ok: bool)
      requires Valid()
      modifies this
      ensures Valid() && ok == (old(state) == Disconnected)
      ensures ok ==> state == Connecting && client.Some? && generation == old(generation) + 1
      ensures !ok ==> unchanged(this)
    {
      if state != Disconnected {
        return false;
      }
      generation := generation + 1;
      BeginAttempt(true);
      ok := true;
    }

    /** Whatever was under way is stale from here on. */
    method Stop()
      requires Valid()
      modifies this
      ensures Valid() && state == Stopped && client == None && generation == old(generation) + 1
      ensures store.State() == old(store.State())
    {
      generation := generation + 1;
      state := Stopped;
      client := None;
      attempts := map c | c in attempts && !attempts[c].phase.Synchronized? :: attempts[c];
    }

    /** The catch block of `connectClient`. */
    method Fail(c: nat)
      requires Valid() && c in attempts && (attempts[c].phase.AwaitingConnect? || attempts[c].phase.AwaitingSnapshot?)
      modifies `client, `attempts
      ensures Valid() && attempts == old(attempts)[c := Attempt(old(attempts[c].generation), AwaitingClose)]
      ensures client == if old(attempts[c].generation) == generation then None else old(client)
    {
      if client == Some(c) {
        client := None;
      }
      attempts := attempts[c := attempts[c].(phase := AwaitingClose)];
      assert attempts[c].generation == generation ==> OneLive(attempts, generation, c);
      assert forall d :: old(c in attempts) && OneLive(old(attempts), generation, d) ==> OneLive(attempts, generation, d);
    }

    method ConnectSettled(c: nat, ok: bool)
      requires Valid() && c in attempts && attempts[c].phase.AwaitingConnect?
      modifies `client, `attempts
      ensures Valid()
      ensures attempts == old(attempts)[c :=
                Attempt(old(attempts[c].generation),
                        if ok && old(attempts[c].generation) == generation then AwaitingSnapshot([]) else AwaitingClose)]
      ensures old(attempts[c].generation) != generation ==> client == old(client)
    {
      if !ok || attempts[c].generation != generation {
        Fail(c);
        return;
      }
      attempts := attempts[c := attempts[c].(phase := AwaitingSnapshot([]))];
      assert OneLive(attempts, generation, c);
    }

    /** The client goes live with the snapshot and the events that came meanwhile; a stale attempt
        touches neither the store nor the state. */
    method SnapshotSettled(c: nat, snapshot: Option<Snapshot>)
      requires Valid() && c in attempts && attempts[c].phase.AwaitingSnapshot?
      modifies this, store
      ensures Valid() && generation == old(generation)
      ensures var live := snapshot.Some? && old(attempts[c].generation) == generation;
              && (live ==>
                    && state == Connected && client == Some(c) && reconnectIndex == 0
                    && attempts == old(attempts)[c := Attempt(generation, Synchronized)]
                    && store.State() ==
                       Synchronize(snapshot.value, Seen(old(attempts[c].phase.pending)), store.maxHistory))
              && (!live ==>
                    && state == old(state) && store.State() == old(store.State())
                    && attempts == old(attempts)[c := Attempt(old(attempts[c].generation), AwaitingClose)])
    {
      if snapshot.None? || attempts[c].generation != generation {
        Fail(c);
        return;
      }
      var pending := attempts[c].phase.pending;
      ReplaceRuntime(snapshot.value, pending);
      attempts := attempts[c := attempts[c].(phase := Synchronized)];
      reconnectIndex := 0;
      state := Connected;
    }

    /** The store takes the snapshot, and then the events that came meanwhile. */
    method ReplaceRuntime(snapshot: Snapshot, pending: seq<Event>)
      requires store.Valid()
      modifies store
      ensures store.Valid() && store.State() == Synchronize(snapshot, Seen(pending), store.maxHistory)
    {
      store.Restore(snapshot);
      ghost var restored := store.State();
      for i := 0 to |pending|
        invariant store.Valid() && store.State() == Fold(restored, Seen(pending)[..i], store.maxHistory)
      {
        FoldNextSeen(restored, pending, i, store.maxHistory);
        store.Consume(pending[i]);
      }
      assert Seen(pending)[..|pending|] == Seen(pending);
    }

    /** The catch block of `connectLoop`: a stale loop ends, the current one sleeps. */
    method CloseSettled(c: nat)
      requires Valid() && c in attempts && attempts[c].phase.AwaitingClose?
      modifies `state, `reconnectIndex, `attempts
      ensures Valid()
      ensures if old(attempts[c].generation) != generation
              then attempts == old(attempts) - {c} && state == old(state)
              else state == Reconnecting && reconnectIndex == old(reconnectIndex) + 1
                   && attempts == old(attempts)[c := Attempt(generation, Sleeping(
                        match old(reconnectIndex) case 0 => 1000 case 1 => 2000 case 2 => 5000 case 3 => 10000 case _ => 30000))]
    {
      if attempts[c].generation != generation {
        attempts := attempts - {c};
        assert forall d :: OneLive(old(attempts), generation, d) ==> OneLive(attempts, generation, d);
        return;
      }
      var last := |RECONNECT_DELAYS_MS| - 1;
      var delayMs := RECONNECT_DELAYS_MS[if reconnectIndex < last then reconnectIndex else last];
      state := Reconnecting;
      reconnectIndex := reconnectIndex + 1;
      attempts := attempts[c := Attempt(generation, Sleeping(delayMs))];
      assert OneLive(attempts, generation, c);
    }

    /** After the sleep the current loop tries again with a new client. */
    method Woken(c: nat)
      requires Valid() && c in attempts && attempts[c].phase.Sleeping?
      modifies `state, `client, `nextClient, `attempts
      ensures Valid()
      ensures if old(attempts[c].generation) != generation
              then attempts == old(attempts) - {c} && state == old(state) && client == old(client)
              else state == Reconnecting && client == Some(old(nextClient))
                   && attempts == (old(attempts) - {c})[old(nextClient) := Attempt(generation, AwaitingConnect)]
    {
      var stale := attempts[c].generation != generation;
      attempts := attempts - {c};
      if stale {
        assert forall d :: OneLive(old(attempts), generation, d) ==> OneLive(attempts, generation, d);
        return;
      }
      BeginAttempt(false);
    }

    /** An event on the subscription of client `c`: buffered until the client is live, then
        consumed; one for a client that is no longer current is dropped. */
    method EventArrived(c: nat, event: Event)
      requires Valid() && c in attempts && (attempts[c].phase.AwaitingSnapshot? || attempts[c].phase.Synchronized?)
      modifies `attempts, store
      ensures Valid()
      ensures old(attempts[c].generation) != generation ==>
                attempts == old(attempts) && store.State() == old(store.State())
      ensures old(attempts[c].generation) == generation && old(attempts[c].phase.AwaitingSnapshot?) ==>
                && store.State() == old(store.State())
                && attempts == old(attempts)[c := Attempt(generation, AwaitingSnapshot(PushPending(old(attempts[c].phase.pending), event)))]
      ensures old(attempts[c].phase.Synchronized?) ==>
                && attempts == old(attempts)
                && store.State() == RuntimeStore.Consume(old(store.State()), event, store.maxHistory)
    {
      if attempts[c].generation != generation || client != Some(c) {
        return;
      }
      if attempts[c].phase.AwaitingSnapshot? {
        attempts := attempts[c := attempts[c].(phase := AwaitingSnapshot(PushPending(attempts[c].phase.pending, event)))];
        assert OneLive(attempts, generation, c);
        return;
      }
      store.Consume(event);
    }

    /** Losing the live client starts a new loop of a new generation, at once. */
    method HandleDisconnect(c: nat)
      requires Valid() && c in attempts && attempts[c].phase.Synchronized?
      modifies this
      ensures Valid() && store.State() == old(store.State())
      ensures state == Reconnecting && generation == old(generation) + 1 && reconnectIndex == 0
      ensures client == Some(old(nextClient))
      ensures attempts == (old(attempts) - {c})[old(nextClient) := Attempt(generation, AwaitingConnect)]
    {
      client := None;
      attempts := attempts - {c};
      reconnectIndex := 0;
      generation := generation + 1;
      BeginAttempt(false);
    }
  }
}
