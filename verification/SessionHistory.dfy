/** What the session of src/session/runtime-store.ts says about the events it was built from. */
module SessionHistory {
  import opened JavaScript
  import opened Wrappers
  import opened TextBounds
  import opened RuntimeStore

  // ---- Calls ----

  predicate IsAbout(e: Event, k: Text) {
    (e.ToolStarted? || e.ToolCompleted? || e.ToolFailed?) && e.callId == k
  }

  /** A call that ended keeps its start time and its payloads, where null becomes `{}`; one that
      nobody knew has empty payloads and started its duration before. */
  predicate Keeps(row: Row, known: Option<Row>, completedAt: int, durationMs: Option<int>) {
    match known
    case Some(before) =>
      && row.startedAt == before.startedAt
      && row.args == (if before.args == NULL_VALUE then EMPTY_OBJECT else before.args)
      && row.metadata == (if before.metadata == NULL_VALUE then EMPTY_OBJECT else before.metadata)
    case None =>
      && row.args == EMPTY_OBJECT && row.metadata == EMPTY_OBJECT
      && row.startedAt == (if durationMs.Some? then completedAt - durationMs.value else completedAt)
  }

  /** The row is what the event says, `known` being the row of the call before it. */
  predicate Tells(row: Row, e: Event, known: Option<Row>) {
    match e
    case ToolStarted(callId, toolName, args, metadata, startedAt) =>
      && row.callId == callId && row.toolName == toolName && row.status == Running
      && row.args == args && row.metadata == metadata && row.startedAt == startedAt
      && row.completedAt == None && row.durationMs == None && row.resultText == None && row.error == None
    case ToolCompleted(callId, toolName, resultText, durationMs, completedAt) =>
      && row.callId == callId && row.toolName == toolName && row.status == Completed
      && row.completedAt == Some(completedAt) && row.durationMs == durationMs
      && row.resultText == Some(resultText) && row.error == None
      && Keeps(row, known, completedAt, durationMs)
    case ToolFailed(callId, toolName, error, durationMs, completedAt) =>
      && row.callId == callId && row.toolName == toolName && row.status == Failed
      && row.completedAt == Some(completedAt) && row.durationMs == durationMs
      && row.resultText == None && row.error == Some(error)
      && Keeps(row, known, completedAt, durationMs)
    case _ => false
  }

  lemma NewRowTells(e: Event, k: Text, known: Option<Row>)
    requires IsAbout(e, k)
    ensures Tells(NewRow(e, known), e, known)
  {
  }

  /** After any events, a call that is still there has the row that the last event about it says. */
  lemma {:induction false} RowTellsTheLastEvent(s: Session, events: seq<Event>, i: nat, k: Text, maxHistory: nat)
    requires Inv(s, maxHistory) && i < |events| && IsAbout(events[i], k)
    requires forall j :: i < j < |events| ==> !IsAbout(events[j], k)
    requires k in Fold(s, events, maxHistory).calls
    ensures Tells(Fold(s, events, maxHistory).calls[k], events[i], Lookup(Fold(s, events[..i], maxHistory).calls, k))
  {
    var front, e := events[..|events| - 1], events[|events| - 1];
    var before := Fold(s, front, maxHistory);
    FoldKeepsInv(s, front, maxHistory);
    if KeyOf(e).Some? {
      SetCallCases(before, e.callId, NewRow(e, Lookup(before.calls, e.callId)), maxHistory);
    }
    if i == |events| - 1 {
      NewRowTells(e, k, Lookup(before.calls, k));
    } else {
      assert front[..i] == events[..i];
      RowTellsTheLastEvent(s, front, i, k, maxHistory);
    }
  }

  /** An event about a call lists it: a known one where it is, a new one last, in place of the oldest
      when the history is full. No other row changes, and no other event changes any. */
  lemma CallIsListed(s: Session, e: Event, k: Text, maxHistory: nat)
    requires Inv(s, maxHistory) && maxHistory > 0
    ensures var r := Apply(s, e, maxHistory);
            if IsAbout(e, k) then
              && k in r.calls && r.control == s.control
              && (k in s.calls ==> r.order == s.order && r.calls.Keys == s.calls.Keys)
              && (k !in s.calls && |s.order| < maxHistory ==> r.order == s.order + [k] && r.calls.Keys == s.calls.Keys + {k})
              && (k !in s.calls && |s.order| == maxHistory ==>
                    && r.order == s.order[1..] + [k]
                    && r.calls.Keys == s.calls.Keys + {k} - if s.order[0] == [] then {} else {s.order[0]})
              && forall x :: x in r.calls && x != k ==> x in s.calls && r.calls[x] == s.calls[x]
            else
              e.ToolStarted? || e.ToolCompleted? || e.ToolFailed? || (r.order == s.order && r.calls == s.calls)
  {
    if IsAbout(e, k) {
      SetCallCases(s, k, NewRow(e, Lookup(s.calls, k)), maxHistory);
      if k !in s.calls && |s.order| == maxHistory {
        assert s.order[0] in s.order;
        assert (s.order + [k])[1..] == s.order[1..] + [k];
      }
    }
  }

  predicate DistinctRows(rows: seq<Row>) {
    forall i, j :: 0 <= i < j < |rows| ==> rows[i].callId != rows[j].callId
  }

  /** The last rows, at most `n` of them. */
  function LastRows(rows: seq<Row>, n: nat): seq<Row> {
    if |rows| <= n then rows else rows[|rows| - n..]
  }

  lemma LastOfDistinctRows(rows: seq<Row>, n: nat)
    requires DistinctRows(rows) && n > 0
    ensures DistinctRows(LastRows(rows, n)) && SliceLast(rows, n) == LastRows(rows, n)
  {
  }

  /** The session lists exactly these rows, bounded. */
  predicate ListsRows(s: Session, rows: seq<Row>) {
    && |s.order| == |rows|
    && forall i :: 0 <= i < |rows| ==>
         s.order[i] == rows[i].callId && s.order[i] in s.calls && s.calls[s.order[i]] == BoundRow(rows[i])
  }

  lemma EntriesAreListed(control: Control, rows: seq<Row>, maxHistory: nat)
    requires |rows| <= maxHistory && DistinctRows(rows)
    ensures ListsRows(SetEntries(Session(control, [], map[]), EntriesOf(rows), maxHistory), rows)
    ensures SetEntries(Session(control, [], map[]), EntriesOf(rows), maxHistory).control == control
  {
    SetEntriesInOrder(control, EntriesOf(rows), maxHistory);
    SetEntriesKeepsInv(Session(control, [], map[]), EntriesOf(rows), maxHistory);
  }

  /** A restored session lists the last rows of the snapshot, in order and bounded, when their ids
      are distinct. */
  lemma RestoreListsTheLastRows(snapshot: Snapshot, maxHistory: nat)
    requires maxHistory > 0 && DistinctRows(snapshot.rows)
    ensures var r := Restore(snapshot, maxHistory);
            && r.control == snapshot.control
            && ListsRows(r, LastRows(snapshot.rows, maxHistory))
  {
    LastOfDistinctRows(snapshot.rows, maxHistory);
    EntriesAreListed(snapshot.control, LastRows(snapshot.rows, maxHistory), maxHistory);
  }

  // ---- Connection, device and authentication ----

  predicate IsReady(e: Event) { e.DeviceReady? }

  predicate IsReadyOrAuth(e: Event) { e.DeviceReady? || e.AuthRequired? }

  predicate IsControl(e: Event) { e.DeviceReady? || e.AuthRequired? || e.RuntimeExited? || e.RuntimeError? }

  /** The last event of a kind. */
  function LastOf(events: seq<Event>, kind: Event -> bool): (r: Option<Event>)
    ensures r.Some? ==> r.value in events && kind(r.value)
    ensures r.None? ==> forall e :: e in events ==> !kind(e)
  {
    if events == [] then None
    else if kind(events[|events| - 1]) then Some(events[|events| - 1])
    else LastOf(events[..|events| - 1], kind)
  }

  /** After any events: the device is the one of the last `device.ready`; authentication is asked for
      by the last `auth.required`, unless a `device.ready` came after it; the connection is what the
      last of the four control events stands for. */
  lemma {:induction false} ControlTellsTheLastEvents(s: Session, events: seq<Event>, maxHistory: nat)
    ensures var c := Fold(s, events, maxHistory).control;
            && (match LastOf(events, IsReady)
                case Some(e) => c.device == Some(Device(e.user, e.deviceId, e.deviceName))
                case None => c.device == s.control.device)
            && (match LastOf(events, IsReadyOrAuth)
                case Some(e) => c.auth == (if e.AuthRequired? then Some(Auth(e.url, e.code, e.expiresIn)) else None)
                case None => c.auth == s.control.auth)
            && (match LastOf(events, IsControl)
                case Some(e) => c.connection == (if e.DeviceReady? then Online else if e.AuthRequired? then Authenticating
                                                 else if e.RuntimeExited? then Offline else Failing)
                case None => c.connection == s.control.connection)
  {
    FoldControl(s, events, maxHistory);
    if events == [] {
    } else {
      var front := events[..|events| - 1];
      ControlTellsTheLastEvents(s, front, maxHistory);
      FoldControl(s, front, maxHistory);
    }
  }

  // ---- Bounds ----

  /** The text is within its bound, and the original when that is. */
  predicate Within(bounded: Text, original: Text, maxBytes: nat) {
    ByteLength(bounded) <= maxBytes && (ByteLength(original) <= maxBytes ==> bounded == original)
  }

  /** The payload of an event is within its bound; ids and names of events that end a call are not
      bounded. */
  lemma EventsAreBounded(e: Event)
    requires EngineStrings(e)
    ensures match BoundEvent(e)
            case ToolStarted(callId, toolName, args, metadata, startedAt) =>
              && e.ToolStarted? && startedAt == e.startedAt
              && Within(callId, e.callId, 8192) && Within(toolName, e.toolName, 8192)
              && Within(args, e.args, 65536) && Within(metadata, e.metadata, 32768)
            case ToolCompleted(callId, toolName, resultText, durationMs, completedAt) =>
              && e.ToolCompleted? && callId == e.callId && toolName == e.toolName
              && durationMs == e.durationMs && completedAt == e.completedAt && Within(resultText, e.resultText, 262144)
            case ToolFailed(callId, toolName, error, durationMs, completedAt) =>
              && e.ToolFailed? && callId == e.callId && toolName == e.toolName
              && durationMs == e.durationMs && completedAt == e.completedAt && Within(error, e.error, 32768)
            case AuthRequired(url, code, expiresIn) =>
              e.AuthRequired? && Within(url, e.url, 8192) && Within(code, e.code, 8192) && Within(expiresIn, e.expiresIn, 8192)
            case DeviceReady(user, deviceId, deviceName) =>
              e.DeviceReady? && Within(user, e.user, 8192) && Within(deviceId, e.deviceId, 8192) && Within(deviceName, e.deviceName, 8192)
            case RuntimeLog(message) => e.RuntimeLog? && Within(message, e.message, 65536)
            case RuntimeError(message) => e.RuntimeError? && Within(message, e.message, 65536)
            case RuntimeExited => e.RuntimeExited?
  {
    match e {
      case ToolStarted(callId, toolName, args, metadata, _) =>
        BoundTextFits(callId, 8192);
        BoundTextFits(toolName, 8192);
        BoundUnknownFitsStrings(args, 65536);
        BoundUnknownFitsStrings(metadata, 32768);
      case ToolCompleted(_, _, resultText, _, _) => BoundTextFits(resultText, 262144);
      case ToolFailed(_, _, error, _, _) => BoundTextFits(error, 32768);
      case AuthRequired(url, code, expiresIn) =>
        BoundTextFits(url, 8192);
        BoundTextFits(code, 8192);
        BoundTextFits(expiresIn, 8192);
      case DeviceReady(user, deviceId, deviceName) =>
        BoundTextFits(user, 8192);
        BoundTextFits(deviceId, 8192);
        BoundTextFits(deviceName, 8192);
      case RuntimeLog(message) => BoundTextFits(message, 65536);
      case RuntimeError(message) => BoundTextFits(message, 65536);
      case RuntimeExited =>
    }
  }
}
