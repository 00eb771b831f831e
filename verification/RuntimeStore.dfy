/** Model of src/session/runtime-store.ts: the session state built from runtime events.

    Events are bounded (src/session/bounds.ts:49-84) as they come in. Timestamps the store does
    not keep (`at`) are dropped from the events. */
module RuntimeStore {
  import opened JavaScript
  import opened Wrappers
  import opened TextBounds

  const SESSION_HISTORY_LIMIT: nat := 50
  const ARGUMENT_MAX_BYTES: nat := 64 * 1024
  const METADATA_MAX_BYTES: nat := 32 * 1024
  const RESULT_MAX_BYTES: nat := 256 * 1024
  const ERROR_MAX_BYTES: nat := 32 * 1024
  const CONTROL_TEXT_MAX_BYTES: nat := 8 * 1024
  const RUNTIME_LOG_MAX_BYTES: nat := 64 * 1024

  /** The serialization of `{}`. */
  const EMPTY_OBJECT: Text := [0x7B, 0x7D]

  /** The serialization of `null`. */
  const NULL_VALUE: Text := [0x6E, 0x75, 0x6C, 0x6C]

  datatype Connection = Starting | Authenticating | Online | Offline | Failing
  datatype Device = Device(user: Text, deviceId: Text, deviceName: Text)
  datatype Auth = Auth(url: Text, code: Text, expiresIn: Text)
  datatype Status = Running | Completed | Failed

  datatype Row = Row(
    callId: Text,
    toolName: Text,
    args: Text,
    metadata: Text,
    status: Status,
    startedAt: int,
    completedAt: Option<int>,
    durationMs: Option<int>,
    resultText: Option<Text>,
    error: Option<Text>
  )

  datatype Event =
    | DeviceReady(user: Text, deviceId: Text, deviceName: Text)
    | AuthRequired(url: Text, code: Text, expiresIn: Text)
    | RuntimeExited
    | RuntimeError(message: Text)
    | RuntimeLog(message: Text)
    | ToolStarted(callId: Text, toolName: Text, args: Text, metadata: Text, startedAt: int)
    | ToolCompleted(callId: Text, toolName: Text, resultText: Text, durationMs: Option<int>, completedAt: int)
    | ToolFailed(callId: Text, toolName: Text, error: Text, durationMs: Option<int>, completedAt: int)

  /** `boundRuntimeEvent`: note that a completion keeps its call id and tool name as they are. */
  function BoundEvent(e: Event): Event {
    match e
    case ToolStarted(callId, toolName, args, metadata, startedAt) =>
      ToolStarted(BoundText(callId, CONTROL_TEXT_MAX_BYTES), BoundText(toolName, CONTROL_TEXT_MAX_BYTES),
                  BoundUnknown(args, ARGUMENT_MAX_BYTES), BoundUnknown(metadata, METADATA_MAX_BYTES), startedAt)
    case ToolCompleted(_, _, resultText, _, _) => e.(resultText := BoundText(resultText, RESULT_MAX_BYTES))
    case ToolFailed(_, _, error, _, _) => e.(error := BoundText(error, ERROR_MAX_BYTES))
    case AuthRequired(url, code, expiresIn) =>
      AuthRequired(BoundText(url, CONTROL_TEXT_MAX_BYTES), BoundText(code, CONTROL_TEXT_MAX_BYTES),
                   BoundText(expiresIn, CONTROL_TEXT_MAX_BYTES))
    case DeviceReady(user, deviceId, deviceName) =>
      DeviceReady(BoundText(user, CONTROL_TEXT_MAX_BYTES), BoundText(deviceId, CONTROL_TEXT_MAX_BYTES),
                  BoundText(deviceName, CONTROL_TEXT_MAX_BYTES))
    case RuntimeLog(message) => RuntimeLog(BoundText(message, RUNTIME_LOG_MAX_BYTES))
    case RuntimeError(message) => RuntimeError(BoundText(message, RUNTIME_LOG_MAX_BYTES))
    case RuntimeExited => e
  }

  function BoundRow(row: Row): Row {
    row.(
    callId := BoundText(row.callId, CONTROL_TEXT_MAX_BYTES),
    toolName := BoundText(row.toolName, CONTROL_TEXT_MAX_BYTES),
    args := BoundUnknown(row.args, ARGUMENT_MAX_BYTES),
    metadata := BoundUnknown(row.metadata, METADATA_MAX_BYTES),
    resultText := if row.resultText.None? then None else Some(BoundText(row.resultText.value, RESULT_MAX_BYTES)),
    error := if row.error.None? then None else Some(BoundText(row.error.value, ERROR_MAX_BYTES)))
  }

  // ---- Rows ----

  /** The call an event is about. */
  function KeyOf(e: Event): Option<Text> {
    if e.ToolStarted? || e.ToolCompleted? || e.ToolFailed? then Some(e.callId) else None
  }

  /** What a completion keeps of the row it finishes. */
  datatype Kept = Kept(args: Text, metadata: Text, startedAt: int)

  function KeptOf(row: Row): Kept { Kept(row.args, row.metadata, row.startedAt) }

  /** `payload ?? {}` */
  function OrEmpty(payload: Text): Text {
    if payload == NULL_VALUE then EMPTY_OBJECT else payload
  }

  /** What a completion keeps: a payload that is null becomes an empty object. */
  function Defaulted(kept: Kept): Kept {
    Kept(OrEmpty(kept.args), OrEmpty(kept.metadata), kept.startedAt)
  }

  /** The row an event leaves behind, given what it keeps. */
  function Finish(e: Event, kept: Kept): (row: Row)
    requires KeyOf(e).Some?
    ensures KeptOf(row) == kept && row.callId == e.callId && row.toolName == e.toolName
  {
    match e
    case ToolStarted(callId, toolName, _, _, _) =>
      Row(callId, toolName, kept.args, kept.metadata, Running, kept.startedAt, None, None, None, None)
    case ToolCompleted(callId, toolName, resultText, durationMs, completedAt) =>
      Row(callId, toolName, kept.args, kept.metadata, Completed, kept.startedAt, Some(completedAt), durationMs, Some(resultText), None)
    case ToolFailed(callId, toolName, error, durationMs, completedAt) =>
      Row(callId, toolName, kept.args, kept.metadata, Failed, kept.startedAt, Some(completedAt), durationMs, None, Some(error))
  }

  /** What a completion keeps of a call nobody knows. */
  function NewKept(e: Event): Kept
    requires e.ToolCompleted? || e.ToolFailed?
  {
    Kept(EMPTY_OBJECT, EMPTY_OBJECT, e.completedAt - if e.durationMs.Some? then e.durationMs.value else 0)
  }

  function NewRow(e: Event, current: Option<Row>): Row
    requires KeyOf(e).Some?
  {
    if e.ToolStarted? then Finish(e, Kept(e.args, e.metadata, e.startedAt))
    else if current.Some? then Finish(e, Defaulted(KeptOf(current.value)))
    else Finish(e, NewKept(e))
  }

  // ---- The state and its transitions ----

  datatype Control = Control(connection: Connection, device: Option<Device>, auth: Option<Auth>)

  datatype Session = Session(control: Control, order: seq<Text>, calls: map<Text, Row>)

  function ApplyControl(c: Control, e: Event): Control {
    match e
    case DeviceReady(user, deviceId, deviceName) => Control(Online, Some(Device(user, deviceId, deviceName)), None)
    case AuthRequired(url, code, expiresIn) => c.(connection := Authenticating, auth := Some(Auth(url, code, expiresIn)))
    case RuntimeExited => c.(connection := Offline)
    case RuntimeError(_) => c.(connection := Failing)
    case _ => c
  }

  /** Drops the oldest calls over the limit; an empty id is dropped from the order only. */
  function Evict(s: Session, maxHistory: nat): Session
    decreases |s.order|
  {
    if |s.order| <= maxHistory then s
    else
      Evict(s.(order := s.order[1..], calls := if s.order[0] == [] then s.calls else s.calls - {s.order[0]}), maxHistory)
  }

  function SetCall(s: Session, callId: Text, row: Row, maxHistory: nat): Session {
    Evict(s.(order := if callId in s.calls then s.order else s.order + [callId], calls := s.calls[callId := row]), maxHistory)
  }

  function Lookup(calls: map<Text, Row>, callId: Text): Option<Row> {
    if callId in calls then Some(calls[callId]) else None
  }

  /** What an event does once it is bounded. */
  function Apply(s: Session, e: Event, maxHistory: nat): Session {
    match KeyOf(e)
    case Some(callId) => SetCall(s, callId, NewRow(e, Lookup(s.calls, callId)), maxHistory)
    case None => s.(control := ApplyControl(s.control, e))
  }

  function Consume(s: Session, rawEvent: Event, maxHistory: nat): Session {
    Apply(s, BoundEvent(rawEvent), maxHistory)
  }

  /** The state after a run of bounded events. */
  function Fold(s: Session, events: seq<Event>, maxHistory: nat): Session {
    if events == [] then s
    else Apply(Fold(s, events[..|events| - 1], maxHistory), events[|events| - 1], maxHistory)
  }

  const EMPTY_SESSION: Session := Session(Control(Starting, None, None), [], map[])

  ghost predicate Distinct(order: seq<Text>) {
    forall i, j :: 0 <= i < j < |order| ==> order[i] != order[j]
  }

  /** Holds in every reachable state. Only the empty id can be in `calls` and not in `order`. */
  ghost predicate Inv(s: Session, maxHistory: nat) {
    && |s.order| <= maxHistory
    && Distinct(s.order)
    && (forall k :: k in s.order ==> k in s.calls)
    && (forall k :: k in s.calls ==> k in s.order || k == [])
  }

  /** A known call is replaced in place; a new one goes last and pushes out the oldest when full. */
  lemma SetCallCases(s: Session, callId: Text, row: Row, maxHistory: nat)
    requires |s.order| <= maxHistory
    ensures var r := SetCall(s, callId, row, maxHistory);
            var oldest := (s.order + [callId])[0];
            && r.control == s.control
            && (callId in s.calls ==> r.order == s.order && r.calls == s.calls[callId := row])
            && (callId !in s.calls && |s.order| < maxHistory ==>
                  r.order == s.order + [callId] && r.calls == s.calls[callId := row])
            && (callId !in s.calls && |s.order| == maxHistory ==>
                  && r.order == (s.order + [callId])[1..]
                  && r.calls == if oldest == [] then s.calls[callId := row] else s.calls[callId := row] - {oldest})
  {
    if callId !in s.calls && |s.order| == maxHistory {
      var grown := Session(s.control, s.order + [callId], s.calls[callId := row]);
      var oldest := grown.order[0];
      var next := Session(s.control, grown.order[1..], if oldest == [] then grown.calls else grown.calls - {oldest});
      assert Evict(grown, maxHistory) == Evict(next, maxHistory);
    }
  }

  lemma SetCallKeepsInv(s: Session, callId: Text, row: Row, maxHistory: nat)
    requires Inv(s, maxHistory)
    ensures Inv(SetCall(s, callId, row, maxHistory), maxHistory)
  {
    SetCallCases(s, callId, row, maxHistory);
    if callId !in s.calls {
      AppendedOrder(s.order, callId);
    }
  }

  lemma AppendedOrder(order: seq<Text>, callId: Text)
    requires Distinct(order) && callId !in order
    ensures var grown := order + [callId];
            && Distinct(grown) && Distinct(grown[1..])
            && (forall k :: k in grown <==> k in order || k == callId)
            && (forall k :: k in grown[1..] <==> k in grown && k != grown[0])
  {
    var grown := order + [callId];
    assert forall k :: k in grown ==> k in grown[1..] || k == grown[0];
  }

  lemma ApplyKeepsInv(s: Session, e: Event, maxHistory: nat)
    requires Inv(s, maxHistory)
    ensures Inv(Apply(s, e, maxHistory), maxHistory)
  {
    if KeyOf(e).Some? {
      SetCallKeepsInv(s, e.callId, NewRow(e, Lookup(s.calls, e.callId)), maxHistory);
    }
  }

  lemma {:induction false} FoldKeepsInv(s: Session, events: seq<Event>, maxHistory: nat)
    requires Inv(s, maxHistory)
    ensures Inv(Fold(s, events, maxHistory), maxHistory)
  {
    if events == [] {
    } else {
      FoldKeepsInv(s, events[..|events| - 1], maxHistory);
      ApplyKeepsInv(Fold(s, events[..|events| - 1], maxHistory), events[|events| - 1], maxHistory);
    }
  }

  lemma {:induction false} FoldConcat(s: Session, a: seq<Event>, b: seq<Event>, maxHistory: nat)
    ensures Fold(s, a + b, maxHistory) == Fold(Fold(s, a, maxHistory), b, maxHistory)
  {
    if b == [] {
      assert a + b == a;
    } else {
      assert (a + b)[..|a + b| - 1] == a + b[..|b| - 1];
      FoldConcat(s, a, b[..|b| - 1], maxHistory);
    }
  }

  // ---- Consuming the same events again ----

  predicate Touches(e: Event, callId: Text) { KeyOf(e) == Some(callId) }

  /** The last event about a call, as the store sees it. */
  function LastTouch(events: seq<Event>, callId: Text): (r: Option<Event>)
    ensures r.Some? ==> KeyOf(r.value) == Some(callId)
  {
    if events == [] then None
    else if Touches(events[|events| - 1], callId) then Some(events[|events| - 1])
    else LastTouch(events[..|events| - 1], callId)
  }

  /** What a call keeps after the events: a start replaces it, a completion only defaults it. */
  function KeptAfter(events: seq<Event>, callId: Text, kept: Kept): Kept {
    if events == [] then kept
    else
      var e := events[|events| - 1];
      var before := KeptAfter(events[..|events| - 1], callId, kept);
      if !Touches(e, callId) then before
      else if e.ToolStarted? then Kept(e.args, e.metadata, e.startedAt)
      else Defaulted(before)
  }

  function RowAfter(events: seq<Event>, callId: Text, row: Row): Row {
    match LastTouch(events, callId)
    case Some(e) => Finish(e, KeptAfter(events, callId, KeptOf(row)))
    case None => row
  }

  function ControlAfter(c: Control, events: seq<Event>): Control {
    if events == [] then c
    else ApplyControl(ControlAfter(c, events[..|events| - 1]), events[|events| - 1])
  }

  /** Every call the events are about is known. */
  ghost predicate AllKnown(s: Session, events: seq<Event>) {
    forall e :: e in events && KeyOf(e).Some? ==> KeyOf(e).value in s.calls
  }

  /** Events about known calls only rewrite rows in place. */
  lemma {:induction false} FoldKnown(s: Session, events: seq<Event>, maxHistory: nat)
    requires |s.order| <= maxHistory && AllKnown(s, events)
    ensures var r := Fold(s, events, maxHistory);
            && r.control == ControlAfter(s.control, events)
            && r.order == s.order
            && r.calls.Keys == s.calls.Keys
            && forall k :: k in s.calls ==> r.calls[k] == RowAfter(events, k, s.calls[k])
  {
    if events == [] {
    } else {
      var front, e := events[..|events| - 1], events[|events| - 1];
      assert forall x :: x in front ==> x in events;
      FoldKnown(s, front, maxHistory);
      assert e in events;
      ApplyKnown(Fold(s, front, maxHistory), e, maxHistory);
      forall k | k in s.calls
        ensures Fold(s, events, maxHistory).calls[k] == RowAfter(events, k, s.calls[k])
      {
        KeptOfRowAfter(front, k, s.calls[k]);
      }
    }
  }

  lemma {:induction false} KeptOfRowAfter(events: seq<Event>, k: Text, row: Row)
    ensures KeptOf(RowAfter(events, k, row)) == KeptAfter(events, k, KeptOf(row))
  {
    if events == [] {
    } else {
      KeptOfRowAfter(events[..|events| - 1], k, row);
    }
  }

  lemma ApplyKnown(s: Session, e: Event, maxHistory: nat)
    requires |s.order| <= maxHistory && (KeyOf(e).Some? ==> KeyOf(e).value in s.calls)
    ensures var r := Apply(s, e, maxHistory);
            && r.control == ApplyControl(s.control, e)
            && r.order == s.order
            && r.calls == if KeyOf(e).Some? then s.calls[e.callId := NewRow(e, Some(s.calls[e.callId]))] else s.calls
  {
    if KeyOf(e).Some? {
      SetCallCases(s, e.callId, NewRow(e, Lookup(s.calls, e.callId)), maxHistory);
    }
  }

  lemma {:induction false} ControlIsIdempotent(c: Control, events: seq<Event>)
    ensures ControlAfter(ControlAfter(c, events), events) == ControlAfter(c, events)
  {
    ControlDependence(c, ControlAfter(c, events), events);
  }

  /** Each field is set by the events or handed through. */
  lemma {:induction false} ControlDependence(c: Control, d: Control, events: seq<Event>)
    ensures var x, y := ControlAfter(c, events), ControlAfter(d, events);
            && (x.connection == y.connection || (x.connection == c.connection && y.connection == d.connection))
            && (x.device == y.device || (x.device == c.device && y.device == d.device))
            && (x.auth == y.auth || (x.auth == c.auth && y.auth == d.auth))
  {
    if events == [] {
    } else {
      ControlDependence(c, d, events[..|events| - 1]);
    }
  }

  lemma {:induction false} FoldControl(s: Session, events: seq<Event>, maxHistory: nat)
    ensures Fold(s, events, maxHistory).control == ControlAfter(s.control, events)
  {
    if events == [] {
    } else {
      FoldControl(s, events[..|events| - 1], maxHistory);
      var e := events[|events| - 1];
      if KeyOf(e).Some? {
        var before := Fold(s, events[..|events| - 1], maxHistory);
        EvictKeepsControl(before.(order := if e.callId in before.calls then before.order else before.order + [e.callId],
                                  calls := before.calls[e.callId := NewRow(e, Lookup(before.calls, e.callId))]), maxHistory);
      }
    }
  }

  lemma {:induction false} EvictKeepsControl(s: Session, maxHistory: nat)
    ensures Evict(s, maxHistory).control == s.control
    decreases |s.order|
  {
    if |s.order| > maxHistory {
      EvictKeepsControl(s.(order := s.order[1..], calls := if s.order[0] == [] then s.calls else s.calls - {s.order[0]}), maxHistory);
    }
  }

  /** The row of a call that is still there was written by the last event about it. */
  lemma {:induction false} LastTouchWroteTheRow(s: Session, events: seq<Event>, k: Text, maxHistory: nat)
    requires Inv(s, maxHistory)
    requires LastTouch(events, k).Some? && k in Fold(s, events, maxHistory).calls
    ensures var row := Fold(s, events, maxHistory).calls[k]; row == Finish(LastTouch(events, k).value, KeptOf(row))
  {
    var front, last := events[..|events| - 1], events[|events| - 1];
    var before, e := Fold(s, front, maxHistory), last;
    FoldKeepsInv(s, front, maxHistory);
    if KeyOf(e).Some? {
      SetCallCases(before, e.callId, NewRow(e, Lookup(before.calls, e.callId)), maxHistory);
    }
    if !Touches(last, k) {
      LastTouchWroteTheRow(s, front, k, maxHistory);
    }
  }

  /** A call is settled when it is still there and, if the events started it, still has the start
      time and, but for defaults, the arguments that the last such start gave it. */
  ghost predicate Settled(t: Session, events: seq<Event>, k: Text) {
    k in t.calls && KeptAfter(events, k, KeptOf(t.calls[k])) == KeptOf(t.calls[k])
  }

  ghost predicate AllSettled(t: Session, events: seq<Event>) {
    forall k :: LastTouch(events, k).Some? ==> Settled(t, events, k)
  }

  lemma {:induction false} TouchIsLast(events: seq<Event>, e: Event)
    requires e in events && KeyOf(e).Some?
    ensures LastTouch(events, KeyOf(e).value).Some?
  {
    if e == events[|events| - 1] {
    } else {
      TouchIsLast(events[..|events| - 1], e);
    }
  }

  /** Consuming events a second time changes nothing when the calls they are about are settled. */
  lemma ReplayChangesNothing(s: Session, events: seq<Event>, maxHistory: nat)
    requires Inv(s, maxHistory) && AllSettled(Fold(s, events, maxHistory), events)
    ensures Fold(Fold(s, events, maxHistory), events, maxHistory) == Fold(s, events, maxHistory)
  {
    var t := Fold(s, events, maxHistory);
    FoldKeepsInv(s, events, maxHistory);
    forall e | e in events && KeyOf(e).Some?
      ensures KeyOf(e).value in t.calls
    {
      TouchIsLast(events, e);
    }
    FoldKnown(t, events, maxHistory);
    forall k | k in t.calls
      ensures RowAfter(events, k, t.calls[k]) == t.calls[k]
    {
      if LastTouch(events, k).Some? {
        LastTouchWroteTheRow(s, events, k, maxHistory);
      }
    }
    FoldControl(s, events, maxHistory);
    ControlIsIdempotent(s.control, events);
  }

  /** A call this far from the front of the order outlives the next events. */
  lemma {:induction false} CallSurvives(s: Session, events: seq<Event>, k: Text, p: nat, maxHistory: nat)
    requires Inv(s, maxHistory) && p < |s.order| && s.order[p] == k
    requires |events| <= p + maxHistory - |s.order|
    ensures k in Fold(s, events, maxHistory).calls
    ensures exists q: nat :: q < |Fold(s, events, maxHistory).order| && Fold(s, events, maxHistory).order[q] == k
                             && p + maxHistory - |s.order| <= q + maxHistory - |Fold(s, events, maxHistory).order| + |events|
  {
    if events == [] {
      assert s.order[p] == k;
    } else {
      var front, e := events[..|events| - 1], events[|events| - 1];
      CallSurvives(s, front, k, p, maxHistory);
      FoldKeepsInv(s, front, maxHistory);
      FoldKeepsInv(s, events, maxHistory);
      var before, after := Fold(s, front, maxHistory), Fold(s, events, maxHistory);
      var q: nat :| q < |before.order| && before.order[q] == k
                    && p + maxHistory - |s.order| <= q + maxHistory - |before.order| + |front|;
      if KeyOf(e).Some? {
        SetCallCases(before, e.callId, NewRow(e, Lookup(before.calls, e.callId)), maxHistory);
        if e.callId !in before.calls && |before.order| == maxHistory {
          assert after.order[q - 1] == k;
        } else {
          assert after.order[q] == k;
        }
      } else {
        assert after.order[q] == k;
      }
    }
  }

  /** An event about an unknown call leaves a mark that lasts for a whole history of events. */
  lemma UnknownCallLeavesAMark(t: Session, events: seq<Event>, j: nat, maxHistory: nat)
    requires Inv(t, maxHistory) && j < |events| <= maxHistory
    requires AllKnown(t, events[..j])
    requires var key := KeyOf(events[j]); key.Some? && key.value !in t.calls
    ensures Fold(t, events, maxHistory) != t
  {
    var k := KeyOf(events[j]).value;
    var after := NewCallIsLast(t, events, j, maxHistory);
    CallSurvives(after, events[j + 1..], k, |after.order| - 1, maxHistory);
    assert events == events[..j + 1] + events[j + 1..];
    FoldConcat(t, events[..j + 1], events[j + 1..], maxHistory);
  }

  lemma NewCallIsLast(t: Session, events: seq<Event>, j: nat, maxHistory: nat) returns (after: Session)
    requires Inv(t, maxHistory) && j < |events| <= maxHistory
    requires AllKnown(t, events[..j])
    requires var key := KeyOf(events[j]); key.Some? && key.value !in t.calls
    ensures after == Fold(t, events[..j + 1], maxHistory) && Inv(after, maxHistory)
    ensures after.order != [] && after.order[|after.order| - 1] == KeyOf(events[j]).value
  {
    var e, before := events[j], Fold(t, events[..j], maxHistory);
    after := Fold(t, events[..j + 1], maxHistory);
    assert events[..j + 1][..j] == events[..j];
    FoldKnown(t, events[..j], maxHistory);
    FoldKeepsInv(t, events[..j], maxHistory);
    FoldKeepsInv(t, events[..j + 1], maxHistory);
    SetCallCases(before, e.callId, NewRow(e, Lookup(before.calls, e.callId)), maxHistory);
  }

  lemma {:induction false} FirstUnknown(t: Session, events: seq<Event>) returns (j: nat)
    ensures j <= |events| && AllKnown(t, events[..j])
    ensures j < |events| ==> KeyOf(events[j]).Some? && KeyOf(events[j]).value !in t.calls
  {
    j := 0;
    while j < |events| && (KeyOf(events[j]).Some? ==> KeyOf(events[j]).value in t.calls)
      invariant j <= |events| && AllKnown(t, events[..j])
    {
      assert events[..j + 1] == events[..j] + [events[j]];
      j := j + 1;
    }
  }

  /** Over at most one history of events, consuming them again changes nothing if and only if
      every call they are about is settled. */
  lemma ReplayExactly(s: Session, events: seq<Event>, maxHistory: nat)
    requires Inv(s, maxHistory) && |events| <= maxHistory
    ensures Fold(Fold(s, events, maxHistory), events, maxHistory) == Fold(s, events, maxHistory)
            <==> AllSettled(Fold(s, events, maxHistory), events)
  {
    var t := Fold(s, events, maxHistory);
    if AllSettled(t, events) {
      ReplayChangesNothing(s, events, maxHistory);
    } else {
      FoldKeepsInv(s, events, maxHistory);
      var j := FirstUnknown(t, events);
      if j < |events| {
        UnknownCallLeavesAMark(t, events, j, maxHistory);
      } else {
        assert events[..j] == events;
        FoldKnown(t, events, maxHistory);
        var k :| LastTouch(events, k).Some? && !Settled(t, events, k);
        LastTouchIsKnown(t, events, k);
        assert Fold(t, events, maxHistory).calls[k] == RowAfter(events, k, t.calls[k]);
      }
    }
  }

  lemma {:induction false} LastTouchIsKnown(t: Session, events: seq<Event>, k: Text)
    requires AllKnown(t, events) && LastTouch(events, k).Some?
    ensures k in t.calls
  {
    var front, last := events[..|events| - 1], events[|events| - 1];
    assert last in events;
    if !Touches(last, k) {
      assert forall e :: e in front ==> e in events;
      LastTouchIsKnown(t, front, k);
    }
  }

  /** Once an event is about a call, the call stays known to the end of the events. */
  ghost predicate NoTouchedCallEvicted(s: Session, events: seq<Event>, maxHistory: nat) {
    forall i, k :: 0 <= i <= |events| && LastTouch(events[..i], k).Some? ==> k in Fold(s, events[..i], maxHistory).calls
  }

  /** Without an eviction inside the events, every call they are about is settled. */
  lemma {:induction false} NoEvictionSettles(s: Session, events: seq<Event>, maxHistory: nat)
    requires Inv(s, maxHistory) && NoTouchedCallEvicted(s, events, maxHistory)
    ensures AllSettled(Fold(s, events, maxHistory), events)
  {
    var t := Fold(s, events, maxHistory);
    forall k | LastTouch(events, k).Some?
      ensures Settled(t, events, k)
    {
      assert events[..|events|] == events;
      KeptSurvives(s, events, |events|, k, maxHistory);
    }
  }

  lemma {:induction false} KeptSurvives(s: Session, events: seq<Event>, i: nat, k: Text, maxHistory: nat)
    requires Inv(s, maxHistory) && NoTouchedCallEvicted(s, events, maxHistory)
    requires i <= |events| && LastTouch(events[..i], k).Some?
    ensures var t := Fold(s, events[..i], maxHistory);
            k in t.calls && KeptAfter(events[..i], k, KeptOf(t.calls[k])) == KeptOf(t.calls[k])
  {
    var front, e := events[..i - 1], events[i - 1];
    assert events[..i][..i - 1] == front;
    var before := Fold(s, front, maxHistory);
    FoldKeepsInv(s, front, maxHistory);
    if KeyOf(e).Some? {
      SetCallCases(before, e.callId, NewRow(e, Lookup(before.calls, e.callId)), maxHistory);
    }
    if LastTouch(front, k).Some? {
      KeptSurvives(s, events, i - 1, k, maxHistory);
      DefaultedKept(front, k, KeptOf(before.calls[k]));
    } else {
      UntouchedKeeps(front, k);
    }
  }

  /** Defaulting what a call keeps earlier makes no difference once it is defaulted in the end. */
  lemma {:induction false} DefaultedKept(events: seq<Event>, k: Text, kept: Kept)
    ensures Defaulted(KeptAfter(events, k, Defaulted(kept))) == Defaulted(KeptAfter(events, k, kept))
  {
    if events == [] {
    } else {
      DefaultedKept(events[..|events| - 1], k, kept);
    }
  }

  lemma {:induction false} UntouchedKeeps(events: seq<Event>, k: Text)
    requires LastTouch(events, k).None?
    ensures forall kept :: KeptAfter(events, k, kept) == kept
  {
    if events == [] {
    } else {
      UntouchedKeeps(events[..|events| - 1], k);
    }
  }

  // ---- An input on which consuming events again goes wrong ----

  function CallId(i: nat): Text
    requires i < 1000
  {
    [0x100 + i]
  }

  function StartOf(i: nat): Event
    requires i < 1000
  {
    ToolStarted(CallId(i), [0x74], EMPTY_OBJECT, EMPTY_OBJECT, 0)
  }

  function Starts(n: nat): (events: seq<Event>)
    requires n < 1000
    ensures |events| == n
  {
    seq(n, i requires 0 <= i < n => StartOf(i))
  }

  function CallIds(n: nat): seq<Text>
    requires n < 1000
  {
    seq(n, i requires 0 <= i < n => CallId(i))
  }

  lemma {:induction false} StartsFill(n: nat)
    requires n <= SESSION_HISTORY_LIMIT
    ensures var s := Fold(EMPTY_SESSION, Starts(n), SESSION_HISTORY_LIMIT);
            s.order == CallIds(n) && forall k :: k in s.calls <==> k in s.order
  {
    if n == 0 {
    } else {
      var before := Fold(EMPTY_SESSION, Starts(n - 1), SESSION_HISTORY_LIMIT);
      StartsFill(n - 1);
      assert Starts(n)[..n - 1] == Starts(n - 1);
      SetCallCases(before, CallId(n - 1), NewRow(StartOf(n - 1), Lookup(before.calls, CallId(n - 1))), SESSION_HISTORY_LIMIT);
      assert CallIds(n) == CallIds(n - 1) + [CallId(n - 1)];
    }
  }

  /** The first of a full history of calls completes, and one more call pushes it out. */
  function CompletedAndPushedOut(): seq<Event> {
    [ToolCompleted(CallId(0), [0x74], [], None, 1), StartOf(SESSION_HISTORY_LIMIT)]
  }

  lemma PushedOut()
    ensures var full := Fold(EMPTY_SESSION, Starts(SESSION_HISTORY_LIMIT), SESSION_HISTORY_LIMIT);
            CallId(0) !in Fold(full, CompletedAndPushedOut(), SESSION_HISTORY_LIMIT).calls
  {
    var full := Fold(EMPTY_SESSION, Starts(SESSION_HISTORY_LIMIT), SESSION_HISTORY_LIMIT);
    var events := CompletedAndPushedOut();
    StartsFill(SESSION_HISTORY_LIMIT);
    assert full.order[0] == CallId(0);
    assert events[..1] == [events[0]] && events[..1][..0] == [];
    var t := Fold(full, events[..1], SESSION_HISTORY_LIMIT);
    assert t == Apply(Fold(full, [], SESSION_HISTORY_LIMIT), events[0], SESSION_HISTORY_LIMIT);
    SetCallCases(full, CallId(0), NewRow(events[0], Lookup(full.calls, CallId(0))), SESSION_HISTORY_LIMIT);
    assert CallId(SESSION_HISTORY_LIMIT) !in CallIds(SESSION_HISTORY_LIMIT);
    SetCallCases(t, CallId(SESSION_HISTORY_LIMIT),
                 NewRow(events[1], Lookup(t.calls, CallId(SESSION_HISTORY_LIMIT))), SESSION_HISTORY_LIMIT);
  }

  /** After any events that end like this, the completed call is not settled. */
  lemma PushedOutIsUnsettled(t: Session, events: seq<Event>)
    requires CallId(0) !in t.calls
    ensures !AllSettled(t, events + CompletedAndPushedOut())
  {
    var last := CompletedAndPushedOut();
    var log := events + last;
    assert log[..|log| - 1] == events + [last[0]];
    assert LastTouch(log[..|log| - 1], CallId(0)) == Some(last[0]);
    assert LastTouch(log, CallId(0)).Some? && !Settled(t, log, CallId(0));
  }

  /** With an eviction inside the events, consuming them again can change the state. At the history
      of the program, from the empty session: the completed call that was pushed out comes back,
      without its arguments, and pushes out another one. */
  lemma ReplayCanDiverge()
    ensures var full := Fold(EMPTY_SESSION, Starts(SESSION_HISTORY_LIMIT), SESSION_HISTORY_LIMIT);
            var after := Fold(full, CompletedAndPushedOut(), SESSION_HISTORY_LIMIT);
            Fold(after, CompletedAndPushedOut(), SESSION_HISTORY_LIMIT) != after
  {
    var full := Fold(EMPTY_SESSION, Starts(SESSION_HISTORY_LIMIT), SESSION_HISTORY_LIMIT);
    FoldKeepsInv(EMPTY_SESSION, Starts(SESSION_HISTORY_LIMIT), SESSION_HISTORY_LIMIT);
    PushedOut();
    PushedOutIsUnsettled(Fold(full, CompletedAndPushedOut(), SESSION_HISTORY_LIMIT), []);
    assert [] + CompletedAndPushedOut() == CompletedAndPushedOut();
    ReplayExactly(full, CompletedAndPushedOut(), SESSION_HISTORY_LIMIT);
  }

  // ---- Snapshots ----

  datatype Snapshot = Snapshot(control: Control, rows: seq<Row>)

  function SnapshotOf(s: Session): Snapshot
    requires forall k :: k in s.order ==> k in s.calls
  {
    Snapshot(s.control, seq(|s.order|, i requires 0 <= i < |s.order| => s.calls[s.order[i]]))
  }

  datatype Entry = Entry(callId: Text, row: Row)

  /** The calls `restore` sets: the key is the id as it came, the row is bounded. */
  function EntriesOf(rows: seq<Row>): seq<Entry> {
    seq(|rows|, i requires 0 <= i < |rows| => Entry(rows[i].callId, BoundRow(rows[i])))
  }

  /** The entries set one after the other. */
  function SetEntries(s: Session, entries: seq<Entry>, maxHistory: nat): Session {
    if entries == [] then s
    else
      var last := entries[|entries| - 1];
      SetCall(SetEntries(s, entries[..|entries| - 1], maxHistory), last.callId, last.row, maxHistory)
  }

  function Restore(snapshot: Snapshot, maxHistory: nat): Session {
    SetEntries(Session(snapshot.control, [], map[]), EntriesOf(SliceLast(snapshot.rows, maxHistory)), maxHistory)
  }

  /** Every call is listed under its row's own id, and its row is within its bounds. */
  ghost predicate RowsAreOwn(s: Session) {
    forall k :: k in s.calls ==> k in s.order && s.calls[k].callId == k && BoundRow(s.calls[k]) == s.calls[k]
  }

  lemma {:induction false} SetEntriesKeepsInv(s: Session, entries: seq<Entry>, maxHistory: nat)
    requires Inv(s, maxHistory)
    ensures Inv(SetEntries(s, entries, maxHistory), maxHistory)
    ensures SetEntries(s, entries, maxHistory).control == s.control
  {
    if entries == [] {
    } else {
      var front, last := entries[..|entries| - 1], entries[|entries| - 1];
      SetEntriesKeepsInv(s, front, maxHistory);
      SetCallKeepsInv(SetEntries(s, front, maxHistory), last.callId, last.row, maxHistory);
      SetCallCases(SetEntries(s, front, maxHistory), last.callId, last.row, maxHistory);
    }
  }

  /** The session lists exactly these entries. */
  ghost predicate Lists(s: Session, entries: seq<Entry>) {
    && |s.order| == |entries|
    && forall i :: 0 <= i < |entries| ==>
         entries[i].callId == s.order[i] && entries[i].callId in s.calls && s.calls[entries[i].callId] == entries[i].row
  }

  ghost predicate DistinctIds(entries: seq<Entry>) {
    forall i, j :: 0 <= i < j < |entries| ==> entries[i].callId != entries[j].callId
  }

  /** Below the limit a call that is set is replaced or appended. */
  lemma SetCallBelowLimit(s: Session, e: Entry, maxHistory: nat)
    requires |s.order| < maxHistory
    ensures SetCall(s, e.callId, e.row, maxHistory)
            == Session(s.control, if e.callId in s.calls then s.order else s.order + [e.callId], s.calls[e.callId := e.row])
  {
    SetCallCases(s, e.callId, e.row, maxHistory);
  }

  lemma {:induction false} SetEntriesGrows(control: Control, entries: seq<Entry>, maxHistory: nat)
    requires |entries| <= maxHistory
    ensures var r := SetEntries(Session(control, [], map[]), entries, maxHistory);
            && |r.order| <= |entries|
            && (forall k :: k in r.calls <==> k in r.order)
  {
    if entries == [] {
    } else {
      var front := entries[..|entries| - 1];
      SetEntriesGrows(control, front, maxHistory);
      SetCallBelowLimit(SetEntries(Session(control, [], map[]), front, maxHistory), entries[|entries| - 1], maxHistory);
    }
  }

  /** Entries that fit are all listed, in order, if and only if their ids are distinct. */
  lemma {:induction false} SetEntriesInOrder(control: Control, entries: seq<Entry>, maxHistory: nat)
    requires |entries| <= maxHistory
    ensures Lists(SetEntries(Session(control, [], map[]), entries, maxHistory), entries) <==> DistinctIds(entries)
    ensures |SetEntries(Session(control, [], map[]), entries, maxHistory).order| == |entries| ==> DistinctIds(entries)
  {
    if entries == [] {
    } else {
      var front, last := entries[..|entries| - 1], entries[|entries| - 1];
      var before := SetEntries(Session(control, [], map[]), front, maxHistory);
      SetEntriesGrows(control, front, maxHistory);
      SetEntriesInOrder(control, front, maxHistory);
      assert entries == front + [last];
      OneMoreListed(before, front, last, maxHistory);
    }
  }

  lemma OneMoreListed(s: Session, front: seq<Entry>, last: Entry, maxHistory: nat)
    requires |s.order| <= |front| < maxHistory && forall k :: k in s.calls <==> k in s.order
    requires Lists(s, front) <==> DistinctIds(front)
    requires |s.order| == |front| ==> DistinctIds(front)
    ensures var r, entries := SetCall(s, last.callId, last.row, maxHistory), front + [last];
            && (Lists(r, entries) <==> DistinctIds(entries))
            && (|r.order| == |entries| ==> DistinctIds(entries))
  {
    SetCallBelowLimit(s, last, maxHistory);
    if DistinctIds(front) {
      ListedIds(s, front, last);
    } else {
      var i, j :| 0 <= i < j < |front| && front[i].callId == front[j].callId;
      assert (front + [last])[i].callId == (front + [last])[j].callId;
    }
  }

  lemma ListedIds(s: Session, front: seq<Entry>, last: Entry)
    requires Lists(s, front) && DistinctIds(front) && forall k :: k in s.calls <==> k in s.order
    ensures last.callId !in s.calls <==> DistinctIds(front + [last])
  {
    if last.callId in s.calls {
      var i :| 0 <= i < |s.order| && s.order[i] == last.callId;
      assert (front + [last])[i].callId == (front + [last])[|front|].callId;
    } else {
      forall i | 0 <= i < |front|
        ensures front[i].callId != last.callId
      {
        assert s.order[i] in s.order;
      }
    }
  }

  /** Restoring a snapshot gives the session back if and only if every call is listed under its
      row's own id and its row is within its bounds. */
  lemma RestoreSnapshotExactly(s: Session, maxHistory: nat)
    requires Inv(s, maxHistory)
    ensures Restore(SnapshotOf(s), maxHistory) == s <==> RowsAreOwn(s)
  {
    var entries := EntriesOf(SnapshotOf(s).rows);
    var r := RestoredEntries(s, entries, maxHistory);
    if r == s {
      OwnRowsFromRestore(s, entries);
    }
    if RowsAreOwn(s) {
      RestoreFromOwnRows(s, entries, r);
    }
  }

  lemma RestoredEntries(s: Session, entries: seq<Entry>, maxHistory: nat) returns (r: Session)
    requires Inv(s, maxHistory) && entries == EntriesOf(SnapshotOf(s).rows)
    ensures r == Restore(SnapshotOf(s), maxHistory) && r.control == s.control
    ensures forall k :: k in r.calls <==> k in r.order
    ensures Lists(r, entries) <==> DistinctIds(entries)
    ensures |r.order| == |entries| ==> DistinctIds(entries)
  {
    var rows := SnapshotOf(s).rows;
    assert SliceLast(rows, maxHistory) == rows;
    r := SetEntries(Session(s.control, [], map[]), entries, maxHistory);
    SetEntriesGrows(s.control, entries, maxHistory);
    SetEntriesInOrder(s.control, entries, maxHistory);
    SetEntriesKeepsInv(Session(s.control, [], map[]), entries, maxHistory);
  }

  lemma OwnRowsFromRestore(s: Session, entries: seq<Entry>)
    requires (forall k :: k in s.order ==> k in s.calls) && |s.order| == |entries|
    requires forall i :: 0 <= i < |entries| ==> entries[i] == Entry(s.calls[s.order[i]].callId, BoundRow(s.calls[s.order[i]]))
    requires Lists(s, entries) && (forall k :: k in s.calls <==> k in s.order)
    ensures RowsAreOwn(s)
  {
    forall k | k in s.calls
      ensures s.calls[k].callId == k && BoundRow(s.calls[k]) == s.calls[k]
    {
      var i :| 0 <= i < |s.order| && s.order[i] == k;
      assert entries[i].callId == k;
    }
  }

  lemma RestoreFromOwnRows(s: Session, entries: seq<Entry>, r: Session)
    requires RowsAreOwn(s) && Distinct(s.order) && (forall k :: k in s.order ==> k in s.calls)
    requires |s.order| == |entries|
    requires forall i :: 0 <= i < |entries| ==> entries[i] == Entry(s.calls[s.order[i]].callId, BoundRow(s.calls[s.order[i]]))
    requires DistinctIds(entries) ==> Lists(r, entries)
    requires r.control == s.control && (forall k :: k in r.calls <==> k in r.order)
    ensures r == s
  {
    forall i | 0 <= i < |entries|
      ensures entries[i] == Entry(s.order[i], s.calls[s.order[i]])
    {
      assert s.order[i] in s.order;
    }
    assert r.order == s.order;
    forall k | k in s.calls
      ensures k in r.calls && r.calls[k] == s.calls[k]
    {
      var i :| 0 <= i < |s.order| && s.order[i] == k;
      assert entries[i].callId == k;
    }
    assert r.calls == s.calls;
  }

  // ---- Which events keep a session restorable ----

  /** Restorable, now and after evictions. */
  ghost predicate Clean(s: Session) { RowsAreOwn(s) && [] !in s.calls }

  /** Payloads are ECMAScript strings. */
  predicate EngineStrings(e: Event) {
    e.ToolStarted? ==> |e.args| < MAX_STRING_UNITS && |e.metadata| < MAX_STRING_UNITS
  }

  /** The event names its call by an id that `boundRuntimeEvent` and `restore` agree on. */
  predicate Fits(e: Event) {
    match e
    case ToolStarted(callId, _, _, _, _) => callId != []
    case ToolCompleted(callId, toolName, _, _, _) =>
      callId != [] && ByteLength(callId) <= CONTROL_TEXT_MAX_BYTES && ByteLength(toolName) <= CONTROL_TEXT_MAX_BYTES
    case ToolFailed(callId, toolName, _, _, _) =>
      callId != [] && ByteLength(callId) <= CONTROL_TEXT_MAX_BYTES && ByteLength(toolName) <= CONTROL_TEXT_MAX_BYTES
    case _ => true
  }

  /** A text is left alone exactly when it fits. */
  lemma BoundTextFixes(value: Text, maxBytes: nat)
    ensures BoundText(value, maxBytes) == value <==> ByteLength(value) <= maxBytes
  {
    BoundTextFits(value, maxBytes);
  }

  lemma BoundTextNonEmpty(value: Text, maxBytes: nat)
    requires value != [] && maxBytes >= 3
    ensures BoundText(value, maxBytes) != []
  {
    var marker := Marker(ByteLength(value));
    if ByteLength(marker) >= maxBytes {
      HeadOfIsLongest(marker, maxBytes, 1);
      LeastBytes(marker[..1]);
    }
  }

  /** The parts of a row that are not its id and its name are within their bounds. */
  predicate PayloadsFit(row: Row) {
    && BoundUnknown(row.args, ARGUMENT_MAX_BYTES) == row.args
    && BoundUnknown(row.metadata, METADATA_MAX_BYTES) == row.metadata
    && (row.resultText.Some? ==> BoundText(row.resultText.value, RESULT_MAX_BYTES) == row.resultText.value)
    && (row.error.Some? ==> BoundText(row.error.value, ERROR_MAX_BYTES) == row.error.value)
  }

  predicate IdsFit(callId: Text, toolName: Text) {
    ByteLength(callId) <= CONTROL_TEXT_MAX_BYTES && ByteLength(toolName) <= CONTROL_TEXT_MAX_BYTES
  }

  lemma BoundRowFixes(row: Row)
    ensures BoundRow(row) == row <==> PayloadsFit(row) && IdsFit(row.callId, row.toolName)
  {
    BoundTextFixes(row.callId, CONTROL_TEXT_MAX_BYTES);
    BoundTextFixes(row.toolName, CONTROL_TEXT_MAX_BYTES);
  }

  lemma OrEmptyFits(payload: Text, maxBytes: nat)
    requires BoundUnknown(payload, maxBytes) == payload && maxBytes >= 2
    ensures BoundUnknown(OrEmpty(payload), maxBytes) == OrEmpty(payload)
    ensures BoundUnknown(EMPTY_OBJECT, maxBytes) == EMPTY_OBJECT
  {
    assert ByteLength(EMPTY_OBJECT) == 2;
  }

  lemma PayloadsOfStarted(e: Event)
    requires e.ToolStarted? && EngineStrings(e)
    ensures PayloadsFit(NewRow(BoundEvent(e), None))
  {
    BoundUnknownFitsStrings(e.args, ARGUMENT_MAX_BYTES);
    BoundUnknownFitsStrings(e.metadata, METADATA_MAX_BYTES);
  }

  /** What a finished call keeps, and its own bounded result or error. */
  lemma PayloadsOfFinished(e: Event, kept: Kept)
    requires e.ToolCompleted? || e.ToolFailed?
    requires BoundUnknown(kept.args, ARGUMENT_MAX_BYTES) == kept.args && BoundUnknown(kept.metadata, METADATA_MAX_BYTES) == kept.metadata
    ensures PayloadsFit(Finish(BoundEvent(e), kept))
  {
    if e.ToolCompleted? {
      BoundTextIdempotent(e.resultText, RESULT_MAX_BYTES);
    } else {
      BoundTextIdempotent(e.error, ERROR_MAX_BYTES);
    }
  }

  lemma PayloadsOfNew(e: Event, current: Option<Row>)
    requires KeyOf(e).Some? && EngineStrings(e)
    requires current.Some? ==> PayloadsFit(current.value)
    ensures PayloadsFit(NewRow(BoundEvent(e), current))
  {
    if e.ToolStarted? {
      PayloadsOfStarted(e);
    } else if current.Some? {
      OrEmptyFits(current.value.args, ARGUMENT_MAX_BYTES);
      OrEmptyFits(current.value.metadata, METADATA_MAX_BYTES);
      PayloadsOfFinished(e, Defaulted(KeptOf(current.value)));
    } else {
      assert ByteLength(EMPTY_OBJECT) == 2;
      PayloadsOfFinished(e, NewKept(BoundEvent(e)));
    }
  }

  /** The row an event writes is within its bounds exactly when its id and name are. */
  lemma NewRowFits(e: Event, current: Option<Row>)
    requires KeyOf(e).Some? && EngineStrings(e)
    requires current.Some? ==> BoundRow(current.value) == current.value
    ensures var b := BoundEvent(e);
            BoundRow(NewRow(b, current)) == NewRow(b, current) <==> IdsFit(b.callId, b.toolName)
  {
    if current.Some? {
      BoundRowFixes(current.value);
    }
    PayloadsOfNew(e, current);
    BoundRowFixes(NewRow(BoundEvent(e), current));
  }

  /** After a call is set, the other calls are as before and it is there. */
  lemma SetCallOthers(s: Session, callId: Text, row: Row, maxHistory: nat)
    requires Inv(s, maxHistory) && maxHistory > 0 && [] !in s.calls
    ensures var r := SetCall(s, callId, row, maxHistory);
            && callId in r.calls && callId in r.order && r.calls[callId] == row
            && forall k :: k in r.calls && k != callId ==> k in s.calls && k in r.order && r.calls[k] == s.calls[k]
  {
    SetCallCases(s, callId, row, maxHistory);
    SetCallKeepsInv(s, callId, row, maxHistory);
    if callId !in s.calls && |s.order| == maxHistory {
      assert (s.order + [callId])[0] == s.order[0];
      assert s.order[0] in s.order;
      assert (s.order + [callId])[1..][maxHistory - 1] == callId;
    } else if callId !in s.calls {
      assert (s.order + [callId])[|s.order|] == callId;
    }
  }

  /** Writing one row of its own keeps a session clean, and writing any other breaks it. */
  lemma SetCallKeepsClean(s: Session, callId: Text, row: Row, maxHistory: nat)
    requires Inv(s, maxHistory) && Clean(s) && maxHistory > 0
    ensures Clean(SetCall(s, callId, row, maxHistory)) <==> callId != [] && row.callId == callId && BoundRow(row) == row
  {
    var r := SetCall(s, callId, row, maxHistory);
    SetCallOthers(s, callId, row, maxHistory);
    if callId != [] && row.callId == callId && BoundRow(row) == row {
      forall k | k in r.calls
        ensures k in r.order && r.calls[k].callId == k && BoundRow(r.calls[k]) == r.calls[k]
      {
        if k != callId {
          assert k in s.calls;
        }
      }
    }
  }

  /** Bounding leaves an event with an id that fits exactly when it had one. */
  lemma FitsExactly(e: Event)
    requires KeyOf(e).Some?
    ensures var b := BoundEvent(e); Fits(e) <==> b.callId != [] && IdsFit(b.callId, b.toolName)
  {
    BoundTextFits(e.callId, CONTROL_TEXT_MAX_BYTES);
    BoundTextFits(e.toolName, CONTROL_TEXT_MAX_BYTES);
    if e.callId != [] {
      BoundTextNonEmpty(e.callId, CONTROL_TEXT_MAX_BYTES);
    } else {
      assert ByteLength([]) == 0;
    }
  }

  /** Of all events, exactly the ones that fit keep a session restorable. */
  lemma CleanExactly(s: Session, e: Event, maxHistory: nat)
    requires Inv(s, maxHistory) && Clean(s) && maxHistory > 0 && EngineStrings(e)
    ensures Clean(Consume(s, e, maxHistory)) <==> Fits(e)
  {
    var b := BoundEvent(e);
    if KeyOf(e).Some? {
      var row := NewRow(b, Lookup(s.calls, b.callId));
      NewRowFits(e, Lookup(s.calls, b.callId));
      SetCallKeepsClean(s, b.callId, row, maxHistory);
      FitsExactly(e);
    }
  }
}
