/** The class of src/session/runtime-store.ts, proved against the functions of RuntimeStore. */
module RuntimeSessionStores {
  import opened JavaScript
  import opened Wrappers
  import opened TextBounds
  import opened RuntimeStore

  class RuntimeSessionStore {
    const maxHistory: nat
    var connection: Connection
    var device: Option<Device>
    var auth: Option<Auth>
    var calls: map<Text, Row>
    var order: seq<Text>

    ghost predicate Valid()
      reads this
    {
      Inv(State(), maxHistory)
    }

    ghost function State(): Session
      reads this
    {
      Session(Control(connection, device, auth), order, calls)
    }

    constructor (maxHistory: nat)
      ensures Valid() && this.maxHistory == maxHistory && State() == EMPTY_SESSION
    {
      this.maxHistory := maxHistory;
      connection, device, auth := Starting, None, None;
      calls, order := map[], [];
    }

    method Consume(rawEvent: Event)
      requires Valid()
      modifies this
      ensures Valid() && State() == RuntimeStore.Consume(old(State()), rawEvent, maxHistory)
    {
      var event := BoundEvent(rawEvent);
      ApplyKeepsInv(State(), event, maxHistory);
      match event {
        case DeviceReady(user, deviceId, deviceName) =>
          connection := Online;
          auth := None;
          device := Some(Device(user, deviceId, deviceName));
        case AuthRequired(url, code, expiresIn) =>
          connection := Authenticating;
          auth := Some(Auth(url, code, expiresIn));
        case RuntimeExited =>
          connection := Offline;
        case RuntimeError(_) =>
          connection := Failing;
        case ToolStarted(callId, toolName, args, metadata, startedAt) =>
          SetCall(callId, Row(callId, toolName, args, metadata, Running, startedAt, None, None, None, None));
        case ToolCompleted(callId, toolName, resultText, durationMs, completedAt) =>
          var current := Lookup(calls, callId);
          SetCall(callId, Row(
                            callId, toolName,
                            if current.Some? then OrEmpty(current.value.args) else EMPTY_OBJECT,
                            if current.Some? then OrEmpty(current.value.metadata) else EMPTY_OBJECT,
                            Completed,
                            if current.Some? then current.value.startedAt
                            else completedAt - (if durationMs.Some? then durationMs.value else 0),
                            Some(completedAt), durationMs, Some(resultText), None));
        case ToolFailed(callId, toolName, error, durationMs, completedAt) =>
          var current := Lookup(calls, callId);
          SetCall(callId, Row(
                            callId, toolName,
                            if current.Some? then OrEmpty(current.value.args) else EMPTY_OBJECT,
                            if current.Some? then OrEmpty(current.value.metadata) else EMPTY_OBJECT,
                            Failed,
                            if current.Some? then current.value.startedAt
                            else completedAt - (if durationMs.Some? then durationMs.value else 0),
                            Some(completedAt), durationMs, None, Some(error)));
        case RuntimeLog(_) =>
      }
    }

    method SetCall(callId: Text, row: Row)
      requires Valid()
      modifies `calls, `order
      ensures Valid() && State() == RuntimeStore.SetCall(old(State()), callId, row, maxHistory)
    {
      SetCallKeepsInv(State(), callId, row, maxHistory);
      ghost var goal := RuntimeStore.SetCall(State(), callId, row, maxHistory);
      if callId !in calls {
        order := order + [callId];
      }
      calls := calls[callId := row];
      while |order| > maxHistory
        invariant Evict(State(), maxHistory) == goal
        decreases |order|
      {
        var removed := order[0];
        order := order[1..];
        if removed != [] {
          calls := calls - {removed};
        }
      }
    }

    method Restore(snapshot: Snapshot)
      requires Valid()
      modifies this
      ensures Valid() && State() == RuntimeStore.Restore(snapshot, maxHistory)
    {
      Clear(snapshot.control);
      ghost var empty := State();
      var rows := SliceLast(snapshot.rows, maxHistory);
      ghost var entries := EntriesOf(rows);
      for i := 0 to |rows|
        invariant Valid() && State() == SetEntries(empty, entries[..i], maxHistory)
      {
        assert entries[..i + 1][..i] == entries[..i];
        SetCall(rows[i].callId, BoundRow(rows[i]));
      }
      assert entries[..|rows|] == entries;
    }

    method Clear(control: Control)
      modifies this
      ensures Valid() && State() == Session(control, [], map[])
    {
      connection, device, auth := control.connection, control.device, control.auth;
      calls, order := map[], [];
    }

    method TakeSnapshot() returns (snapshot: Snapshot)
      requires Valid()
      ensures snapshot == SnapshotOf(State())
    {
      snapshot := Snapshot(Control(connection, device, auth),
                           seq(|order|, i requires 0 <= i < |order| && order[i] in calls reads this => calls[order[i]]));
    }
  }
}
