/** Model of src/daemon/history-store.ts: the event log on disk and its replay.

    The file is its list of records. How many bytes a record takes is left open: it is a parameter.
    Redaction is the identity here. */
module HistoryStore {
  import opened JavaScript
  import opened Wrappers
  import opened TextBounds
  import opened RuntimeStore

  datatype Record = Checkpoint(snapshot: Snapshot) | EventRecord(event: Event)

  datatype Limits = Limits(size: Record -> nat, maxBytes: nat, compactAtBytes: nat)

  function FileSize(file: seq<Record>, size: Record -> nat): nat {
    if file == [] then 0 else FileSize(file[..|file| - 1], size) + size(file[|file| - 1])
  }

  // ---- Writing ----

  function WithoutAuth(snapshot: Snapshot): Snapshot {
    snapshot.(control := snapshot.control.(auth := None))
  }

  /** The rows a checkpoint keeps: the oldest go first until it fits. */
  function FitRows(control: Control, rows: seq<Row>, limits: Limits): (kept: seq<Row>)
    ensures |kept| <= |rows|
    ensures kept == rows <==> rows == [] || limits.size(Checkpoint(Snapshot(control, rows))) <= limits.maxBytes
  {
    if rows == [] || limits.size(Checkpoint(Snapshot(control, rows))) <= limits.maxBytes then rows
    else FitRows(control, rows[1..], limits)
  }

  /** The checkpoint written for a snapshot, or None when it throws. */
  function CheckpointOf(snapshot: Snapshot, limits: Limits): Option<Record> {
    var base := WithoutAuth(snapshot);
    var record := Checkpoint(Snapshot(base.control, FitRows(base.control, SliceLast(base.rows, 50), limits)));
    if limits.size(record) > limits.maxBytes then None else Some(record)
  }

  /** An append that writes a checkpoint instead of a line. */
  predicate Compacts(file: seq<Record>, event: Event, limits: Limits) {
    && !event.AuthRequired?
    && (FileSize(file, limits.size) >= limits.compactAtBytes
        || FileSize(file, limits.size) + limits.size(EventRecord(BoundEvent(event))) > limits.maxBytes)
  }

  /** The file after an append: an event line, or a checkpoint instead of everything. None when
      the write is rejected; the file is then left as it was. */
  function Append(file: seq<Record>, event: Event, snapshot: Snapshot, limits: Limits): Option<seq<Record>> {
    if event.AuthRequired? then Some(file)
    else if Compacts(file, event, limits) then
      match CheckpointOf(snapshot, limits)
      case Some(record) => Some([record])
      case None => None
    else Some(file + [EventRecord(BoundEvent(event))])
  }

  /** A checkpoint keeps the newest rows, as many as fit: of the last fifty, the longest suffix. When
      not even the record without rows fits, the write is rejected. */
  lemma CheckpointKeepsTheNewestRows(snapshot: Snapshot, limits: Limits) returns (n: nat)
    ensures var control := Control(snapshot.control.connection, snapshot.control.device, None);
            var last := if |snapshot.rows| <= 50 then snapshot.rows else snapshot.rows[|snapshot.rows| - 50..];
            && n <= |last|
            && (forall m :: 0 <= m < n ==> limits.size(Checkpoint(Snapshot(control, last[m..]))) > limits.maxBytes)
            && (if limits.size(Checkpoint(Snapshot(control, last[n..]))) <= limits.maxBytes then
                  CheckpointOf(snapshot, limits) == Some(Checkpoint(Snapshot(control, last[n..])))
                else
                  n == |last| && CheckpointOf(snapshot, limits) == None)
  {
    var base := WithoutAuth(snapshot);
    var last := SliceLast(base.rows, 50);
    assert last[0..] == last;
    n := KeptFrom(base.control, last, limits, 0);
  }

  lemma {:induction false} KeptFrom(control: Control, rows: seq<Row>, limits: Limits, from: nat) returns (n: nat)
    requires from <= |rows|
    requires forall m :: 0 <= m < from ==> limits.size(Checkpoint(Snapshot(control, rows[m..]))) > limits.maxBytes
    ensures n <= |rows| && FitRows(control, rows[from..], limits) == rows[n..]
    ensures forall m :: 0 <= m < n ==> limits.size(Checkpoint(Snapshot(control, rows[m..]))) > limits.maxBytes
    ensures n == |rows| || limits.size(Checkpoint(Snapshot(control, rows[n..]))) <= limits.maxBytes
    decreases |rows| - from
  {
    n := from;
    if from < |rows| && limits.size(Checkpoint(Snapshot(control, rows[from..]))) > limits.maxBytes {
      assert rows[from..][1..] == rows[from + 1..];
      n := KeptFrom(control, rows, limits, from + 1);
    }
  }

  /** Authentication is never written. An event becomes a line while the file is below its compaction
      size and has room for it, and otherwise a checkpoint replaces the file. */
  lemma AppendExactly(file: seq<Record>, event: Event, snapshot: Snapshot, limits: Limits)
    ensures var r := Append(file, event, snapshot, limits);
            var line := EventRecord(BoundEvent(event));
            && (event.AuthRequired? ==> r == Some(file))
            && (!event.AuthRequired? ==>
                  && (r == Some(file + [line]) <==>
                        && FileSize(file, limits.size) < limits.compactAtBytes
                        && FileSize(file, limits.size) + limits.size(line) <= limits.maxBytes)
                  && (r != Some(file + [line]) ==>
                        r == match CheckpointOf(snapshot, limits) case Some(record) => Some([record]) case None => None))
  {
    var record := CheckpointOf(snapshot, limits);
    if record.Some? {
      assert (file + [EventRecord(BoundEvent(event))])[|file|] != record.value;
      assert |file| > 0 || [record.value] != file + [EventRecord(BoundEvent(event))] by {
        assert [record.value][0] == record.value;
      }
    }
  }

  /** Whatever the file was before, it is within its limit after a successful write. */
  lemma AppendKeepsLimit(file: seq<Record>, event: Event, snapshot: Snapshot, limits: Limits)
    requires !event.AuthRequired?
    ensures var r := Append(file, event, snapshot, limits);
            r.Some? ==> FileSize(r.value, limits.size) <= limits.maxBytes
  {
    var line := EventRecord(BoundEvent(event));
    assert (file + [line])[..|file|] == file;
    var record := CheckpointOf(snapshot, limits);
    if record.Some? {
      assert FileSize([record.value], limits.size) == FileSize([], limits.size) + limits.size(record.value) by {
        assert [record.value][..0] == [];
      }
    }
  }

  // ---- Loading ----

  function LoadRecord(s: Session, record: Record, maxHistory: nat): Session {
    match record
    case Checkpoint(snapshot) => Restore(WithoutAuth(snapshot), maxHistory)
    case EventRecord(event) => if event.AuthRequired? then s else Consume(s, BoundEvent(event), maxHistory)
  }

  /** `loadInto` a store. */
  function LoadFrom(s: Session, file: seq<Record>, maxHistory: nat): Session {
    if file == [] then s
    else LoadRecord(LoadFrom(s, file[..|file| - 1], maxHistory), file[|file| - 1], maxHistory)
  }

  /** `loadInto` a new store. */
  function Load(file: seq<Record>, maxHistory: nat): Session {
    LoadFrom(EMPTY_SESSION, file, maxHistory)
  }

  /** Whatever the file holds, authentication is not brought back. */
  lemma {:induction false} LoadHasNoAuth(file: seq<Record>, maxHistory: nat)
    ensures Load(file, maxHistory).control.auth == None
  {
    if file == [] {
    } else {
      var front, last := file[..|file| - 1], file[|file| - 1];
      LoadHasNoAuth(front, maxHistory);
      match last {
        case Checkpoint(snapshot) => RestoreKeepsControl(WithoutAuth(snapshot), maxHistory);
        case EventRecord(event) =>
          if !event.AuthRequired? {
            var before := Load(front, maxHistory);
            assert before == before.(control := before.control);
            ApplyApart(before, before.control, BoundEvent(BoundEvent(event)), maxHistory);
          }
      }
    }
  }

  lemma RestoreKeepsControl(snapshot: Snapshot, maxHistory: nat)
    ensures Restore(snapshot, maxHistory).control == snapshot.control
  {
    SetEntriesKeepsInv(Session(snapshot.control, [], map[]), EntriesOf(SliceLast(snapshot.rows, maxHistory)), maxHistory);
  }

  /** The loaded session has the live one's calls and device; authentication is never persisted,
      so the connection may differ while the live one waits for it. */
  ghost predicate Mirrors(loaded: Session, live: Session) {
    && loaded.order == live.order && loaded.calls == live.calls
    && loaded.control.device == live.control.device
    && loaded.control.auth == None
    && (live.control.connection != Authenticating ==> loaded.control.connection == live.control.connection)
  }

  lemma {:induction false} EvictIgnoresControl(s: Session, c: Control, maxHistory: nat)
    ensures Evict(s.(control := c), maxHistory) == Evict(s, maxHistory).(control := c)
    decreases |s.order|
  {
    if |s.order| > maxHistory {
      EvictIgnoresControl(s.(order := s.order[1..], calls := if s.order[0] == [] then s.calls else s.calls - {s.order[0]}), c, maxHistory);
    }
  }

  /** Calls do not depend on the connection, the device or authentication, nor these on the calls. */
  lemma ApplyApart(s: Session, c: Control, e: Event, maxHistory: nat)
    ensures Apply(s.(control := c), e, maxHistory) == Apply(s, e, maxHistory).(control := ApplyControl(c, e))
  {
    if KeyOf(e).Some? {
      var row := NewRow(e, Lookup(s.calls, e.callId));
      EvictIgnoresControl(s.(order := if e.callId in s.calls then s.order else s.order + [e.callId],
                             calls := s.calls[e.callId := row]), c, maxHistory);
    }
  }

  /** An event that is persisted keeps a loaded session a mirror of the live one. */
  lemma ApplyKeepsMirror(loaded: Session, live: Session, e: Event, maxHistory: nat)
    requires Mirrors(loaded, live) && !e.AuthRequired?
    ensures Mirrors(Apply(loaded, e, maxHistory), Apply(live, e, maxHistory))
  {
    ApplyApart(live, loaded.control, e, maxHistory);
    ApplyApart(live, live.control, e, maxHistory);
    assert loaded == live.(control := loaded.control);
  }

  lemma BoundEventIdempotent(e: Event)
    requires EngineStrings(e)
    ensures BoundEvent(BoundEvent(e)) == BoundEvent(e)
  {
    match e {
      case ToolStarted(callId, toolName, args, metadata, _) =>
        BoundTextIdempotent(callId, CONTROL_TEXT_MAX_BYTES);
        BoundTextIdempotent(toolName, CONTROL_TEXT_MAX_BYTES);
        BoundUnknownFitsStrings(args, ARGUMENT_MAX_BYTES);
        BoundUnknownFitsStrings(metadata, METADATA_MAX_BYTES);
      case ToolCompleted(_, _, resultText, _, _) => BoundTextIdempotent(resultText, RESULT_MAX_BYTES);
      case ToolFailed(_, _, error, _, _) => BoundTextIdempotent(error, ERROR_MAX_BYTES);
      case AuthRequired(url, code, expiresIn) =>
        BoundTextIdempotent(url, CONTROL_TEXT_MAX_BYTES);
        BoundTextIdempotent(code, CONTROL_TEXT_MAX_BYTES);
        BoundTextIdempotent(expiresIn, CONTROL_TEXT_MAX_BYTES);
      case DeviceReady(user, deviceId, deviceName) =>
        BoundTextIdempotent(user, CONTROL_TEXT_MAX_BYTES);
        BoundTextIdempotent(deviceId, CONTROL_TEXT_MAX_BYTES);
        BoundTextIdempotent(deviceName, CONTROL_TEXT_MAX_BYTES);
      case RuntimeLog(message) => BoundTextIdempotent(message, RUNTIME_LOG_MAX_BYTES);
      case RuntimeError(message) => BoundTextIdempotent(message, RUNTIME_LOG_MAX_BYTES);
      case RuntimeExited =>
    }
  }

  /** Loading a checkpoint that was just written gives a mirror of the live session if and only if
      no row had to be dropped to make it fit. */
  lemma CheckpointExactly(live: Session, limits: Limits, maxHistory: nat)
    requires Inv(live, maxHistory) && RowsAreOwn(live) && maxHistory <= 50
    requires CheckpointOf(SnapshotOf(live), limits).Some?
    ensures Mirrors(Load([CheckpointOf(SnapshotOf(live), limits).value], maxHistory), live)
            <==> limits.size(Checkpoint(WithoutAuth(SnapshotOf(live)))) <= limits.maxBytes
  {
    var snapshot := WithoutAuth(SnapshotOf(live));
    var record := CheckpointOf(SnapshotOf(live), limits).value;
    var base := live.(control := snapshot.control);
    assert SliceLast(snapshot.rows, 50) == snapshot.rows;
    assert [record][..0] == [];
    assert Load([record], maxHistory) == LoadRecord(Load([], maxHistory), record, maxHistory);
    assert WithoutAuth(record.snapshot) == record.snapshot;
    if record.snapshot.rows == snapshot.rows {
      assert record == Checkpoint(snapshot);
      assert SnapshotOf(base) == snapshot;
      RestoreSnapshotExactly(base, maxHistory);
    } else {
      FewerRows(record.snapshot, maxHistory, |live.order|);
    }
  }

  lemma FewerRows(snapshot: Snapshot, maxHistory: nat, n: nat)
    requires |snapshot.rows| < n <= maxHistory
    ensures |Restore(snapshot, maxHistory).order| < n
  {
    assert SliceLast(snapshot.rows, maxHistory) == snapshot.rows;
    SetEntriesGrows(snapshot.control, EntriesOf(snapshot.rows), maxHistory);
  }

  // ---- The daemon: consume an event, then persist it ----

  datatype Daemon = Daemon(live: Session, file: seq<Record>, failed: bool)

  /** `DesktopRemoteDaemon.consume` (src/daemon/daemon.ts:169-176) with the write it queues. */
  function ConsumeAndPersist(d: Daemon, rawEvent: Event, limits: Limits, maxHistory: nat): Daemon
    requires forall k :: k in Consume(d.live, BoundEvent(rawEvent), maxHistory).order ==>
               k in Consume(d.live, BoundEvent(rawEvent), maxHistory).calls
  {
    var event := BoundEvent(rawEvent);
    var live := Consume(d.live, event, maxHistory);
    match Append(d.file, event, SnapshotOf(live), limits)
    case Some(file) => Daemon(live, file, d.failed)
    case None => Daemon(live, d.file, true)
  }

  ghost predicate Persisted(d: Daemon, maxHistory: nat) {
    Inv(d.live, maxHistory) && Clean(d.live) && Mirrors(Load(d.file, maxHistory), d.live)
  }

  /** A daemon that starts without a file. */
  lemma NoFileIsPersisted(maxHistory: nat)
    ensures Persisted(Daemon(EMPTY_SESSION, [], false), maxHistory)
  {
  }

  /** The full checkpoint of a session fits in the file. */
  ghost predicate CheckpointFits(live: Session, limits: Limits, maxHistory: nat)
    requires Inv(live, maxHistory)
  {
    limits.size(Checkpoint(WithoutAuth(SnapshotOf(live)))) <= limits.maxBytes
  }

  /** One persisted event, whether it becomes a line or a checkpoint. */
  lemma AppendMirrors(file: seq<Record>, live: Session, e: Event, limits: Limits, maxHistory: nat)
    requires 0 < maxHistory <= 50 && Mirrors(Load(file, maxHistory), live) && BoundEvent(e) == e
    requires var after := Apply(live, e, maxHistory);
             Inv(after, maxHistory) && RowsAreOwn(after)
             && (Compacts(file, e, limits) ==> CheckpointFits(after, limits, maxHistory))
    ensures var after := Apply(live, e, maxHistory);
            var r := Append(file, e, SnapshotOf(after), limits);
            r.Some? && Mirrors(Load(r.value, maxHistory), after)
  {
    var after := Apply(live, e, maxHistory);
    if Compacts(file, e, limits) {
      FullCheckpoint(after, limits, maxHistory);
    } else if !e.AuthRequired? {
      var line := EventRecord(e);
      assert (file + [line])[..|file|] == file;
      ApplyKeepsMirror(Load(file, maxHistory), live, e, maxHistory);
    }
  }

  /** A checkpoint that fits keeps every row and loads to a mirror. */
  lemma FullCheckpoint(live: Session, limits: Limits, maxHistory: nat)
    requires Inv(live, maxHistory) && RowsAreOwn(live) && 0 < maxHistory <= 50 && CheckpointFits(live, limits, maxHistory)
    ensures CheckpointOf(SnapshotOf(live), limits).Some?
    ensures Mirrors(Load([CheckpointOf(SnapshotOf(live), limits).value], maxHistory), live)
  {
    var snapshot := WithoutAuth(SnapshotOf(live));
    assert SliceLast(snapshot.rows, 50) == snapshot.rows;
    assert CheckpointOf(SnapshotOf(live), limits) == Some(Checkpoint(snapshot));
    CheckpointExactly(live, limits, maxHistory);
  }

  lemma StepStaysPersisted(d: Daemon, rawEvent: Event, limits: Limits, maxHistory: nat)
    requires 0 < maxHistory <= 50 && Persisted(d, maxHistory) && !d.failed
    requires Fits(rawEvent) && EngineStrings(rawEvent)
    requires Inv(Consume(d.live, rawEvent, maxHistory), maxHistory)
    requires Compacts(d.file, BoundEvent(rawEvent), limits) ==>
               CheckpointFits(Consume(d.live, rawEvent, maxHistory), limits, maxHistory)
    ensures BoundEvent(BoundEvent(rawEvent)) == BoundEvent(rawEvent)
    ensures var d' := ConsumeAndPersist(d, rawEvent, limits, maxHistory);
            Persisted(d', maxHistory) && !d'.failed && d'.live == Consume(d.live, rawEvent, maxHistory)
  {
    BoundEventIdempotent(rawEvent);
    CleanExactly(d.live, rawEvent, maxHistory);
    AppendMirrors(d.file, d.live, BoundEvent(rawEvent), limits, maxHistory);
  }

  /** A step of the daemon, or the end of its process and the start of a new one on the same file. */
  datatype Step = Consumed(rawEvent: Event) | Restart

  lemma {:induction false} LoadKeepsInv(file: seq<Record>, maxHistory: nat)
    ensures Inv(Load(file, maxHistory), maxHistory)
  {
    if file == [] {
    } else {
      var front, last := file[..|file| - 1], file[|file| - 1];
      LoadKeepsInv(front, maxHistory);
      match last {
        case Checkpoint(snapshot) =>
          SetEntriesKeepsInv(Session(WithoutAuth(snapshot).control, [], map[]),
                             EntriesOf(SliceLast(snapshot.rows, maxHistory)), maxHistory);
        case EventRecord(event) => ApplyKeepsInv(Load(front, maxHistory), BoundEvent(BoundEvent(event)), maxHistory);
      }
    }
  }

  ghost function Next(d: Daemon, step: Step, limits: Limits, maxHistory: nat): (r: Daemon)
    requires Inv(d.live, maxHistory)
    ensures Inv(r.live, maxHistory)
  {
    match step
    case Consumed(rawEvent) =>
      ApplyKeepsInv(d.live, BoundEvent(BoundEvent(rawEvent)), maxHistory);
      ConsumeAndPersist(d, rawEvent, limits, maxHistory)
    case Restart =>
      LoadKeepsInv(d.file, maxHistory);
      Daemon(Load(d.file, maxHistory), d.file, false)
  }

  /** The daemon after a run of events and restarts. */
  ghost function Run(start: Daemon, steps: seq<Step>, limits: Limits, maxHistory: nat): (r: Daemon)
    requires Inv(start.live, maxHistory)
    ensures Inv(r.live, maxHistory)
  {
    if steps == [] then start
    else Next(Run(start, steps[..|steps| - 1], limits, maxHistory), steps[|steps| - 1], limits, maxHistory)
  }

  /** The events of the run as the stores see them. */
  function EventsOf(steps: seq<Step>): seq<Event> {
    if steps == [] then []
    else
      var front, last := EventsOf(steps[..|steps| - 1]), steps[|steps| - 1];
      if last.Consumed? then front + [BoundEvent(last.rawEvent)] else front
  }

  ghost predicate StepFits(step: Step) {
    step.Consumed? ==> Fits(step.rawEvent) && EngineStrings(step.rawEvent)
  }

  /** If the step makes the daemon write a checkpoint, it fits without dropping rows. */
  ghost predicate WritesFit(before: Daemon, step: Step, after: Daemon, limits: Limits, maxHistory: nat)
    requires Inv(after.live, maxHistory)
  {
    step.Consumed? && Compacts(before.file, BoundEvent(step.rawEvent), limits) ==> CheckpointFits(after.live, limits, maxHistory)
  }

  /** Every checkpoint that is written on the way fits without dropping rows. */
  ghost predicate CheckpointsFit(start: Daemon, steps: seq<Step>, limits: Limits, maxHistory: nat)
    requires Inv(start.live, maxHistory)
  {
    forall i :: 0 < i <= |steps| ==>
      WritesFit(Run(start, steps[..i - 1], limits, maxHistory), steps[i - 1],
                Run(start, steps[..i], limits, maxHistory), limits, maxHistory)
  }

  /** The same calls in the same order, and the same device. */
  ghost predicate Alike(a: Session, b: Session) {
    a.order == b.order && a.calls == b.calls && a.control.device == b.control.device
  }

  lemma ApplyKeepsAlike(a: Session, b: Session, e: Event, maxHistory: nat)
    requires Alike(a, b)
    ensures Alike(Apply(a, e, maxHistory), Apply(b, e, maxHistory))
  {
    ApplyApart(b, a.control, e, maxHistory);
    ApplyApart(b, b.control, e, maxHistory);
    assert a == b.(control := a.control);
  }

  /** What the next process loads is again what its file loads to. */
  lemma RestartStaysPersisted(d: Daemon, limits: Limits, maxHistory: nat)
    requires Persisted(d, maxHistory)
    ensures var r := Next(d, Restart, limits, maxHistory);
            Persisted(r, maxHistory) && !r.failed && r.file == d.file && Alike(r.live, d.live)
  {
  }

  /** Over every run of events and restarts, whatever mix of lines and checkpoints was written:
      loading the file gives the live session's calls and device, and these are what they would be
      in one process that never ended. */
  lemma {:induction false} ReplayMirrorsLive(start: Daemon, steps: seq<Step>, limits: Limits, maxHistory: nat)
    requires 0 < maxHistory <= 50 && Persisted(start, maxHistory) && !start.failed
    requires forall step :: step in steps ==> StepFits(step)
    requires CheckpointsFit(start, steps, limits, maxHistory)
    ensures var d := Run(start, steps, limits, maxHistory);
            Persisted(d, maxHistory) && !d.failed && Alike(d.live, Fold(start.live, EventsOf(steps), maxHistory))
  {
    if steps == [] {
    } else {
      var front, last := steps[..|steps| - 1], steps[|steps| - 1];
      assert last in steps;
      assert forall i :: 0 <= i <= |front| ==> front[..i] == steps[..i];
      ReplayMirrorsLive(start, front, limits, maxHistory);
      var d := Run(start, front, limits, maxHistory);
      assert steps[..|steps|] == steps;
      assert WritesFit(d, last, Run(start, steps, limits, maxHistory), limits, maxHistory);
      NextStaysPersisted(d, last, limits, maxHistory);
      if last.Consumed? {
        var e := BoundEvent(last.rawEvent);
        ApplyKeepsAlike(d.live, Fold(start.live, EventsOf(front), maxHistory), e, maxHistory);
        assert EventsOf(steps)[..|EventsOf(steps)| - 1] == EventsOf(front);
      }
    }
  }

  lemma NextStaysPersisted(d: Daemon, step: Step, limits: Limits, maxHistory: nat)
    requires 0 < maxHistory <= 50 && Persisted(d, maxHistory) && !d.failed && StepFits(step)
    requires WritesFit(d, step, Next(d, step, limits, maxHistory), limits, maxHistory)
    ensures var r := Next(d, step, limits, maxHistory);
            && Persisted(r, maxHistory) && !r.failed
            && Alike(r.live, if step.Consumed? then Consume(d.live, step.rawEvent, maxHistory) else d.live)
  {
    if step.Consumed? {
      BoundEventIdempotent(step.rawEvent);
      ApplyKeepsInv(d.live, BoundEvent(step.rawEvent), maxHistory);
      StepStaysPersisted(d, step.rawEvent, limits, maxHistory);
    } else {
      RestartStaysPersisted(d, limits, maxHistory);
    }
  }

  // ---- The class: writes are chained ----

  datatype Write = AppendWrite(event: Event, snapshot: Snapshot) | CompactWrite(snapshot: Snapshot)

  /** The file after one chained write; a rejected write leaves it alone and does not break the chain. */
  function Perform(file: seq<Record>, w: Write, limits: Limits): seq<Record> {
    match w
    case AppendWrite(event, snapshot) =>
      (match Append(file, event, snapshot, limits) case Some(f) => f case None => file)
    case CompactWrite(snapshot) =>
      (match CheckpointOf(snapshot, limits) case Some(record) => [record] case None => file)
  }

  function PerformAll(file: seq<Record>, chain: seq<Write>, limits: Limits): seq<Record>
    decreases |chain|
  {
    if chain == [] then file else PerformAll(Perform(file, chain[0], limits), chain[1..], limits)
  }

  lemma {:induction false} PerformAllSnoc(file: seq<Record>, chain: seq<Write>, w: Write, limits: Limits)
    ensures PerformAll(file, chain + [w], limits) == Perform(PerformAll(file, chain, limits), w, limits)
    decreases |chain|
  {
    if chain == [] {
      assert chain + [w] == [w];
      assert [w][1..] == [];
    } else {
      assert (chain + [w])[1..] == chain[1..] + [w];
      PerformAllSnoc(Perform(file, chain[0], limits), chain[1..], w, limits);
    }
  }
}
