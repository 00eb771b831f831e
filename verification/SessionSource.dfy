/** Model of src/client/session-source.ts with the server's side of a subscription
    (src/daemon/ipc-server.ts:266-325), and of how the two sides converge. */
module SessionSource {
  import opened JavaScript
  import opened Wrappers
  import opened Framing
  import opened TextBounds
  import opened RuntimeStore

  /** `pendingEvents.push(event)`, keeping the last `SESSION_HISTORY_LIMIT`. */
  function PushPending(pending: seq<Event>, e: Event): seq<Event> {
    var grown := pending + [e];
    if |grown| > SESSION_HISTORY_LIMIT then grown[1..] else grown
  }

  /** The store after the snapshot came: restored, then fed the pending events. */
  function Synchronize(snapshot: Snapshot, pending: seq<Event>, maxHistory: nat): Session {
    Fold(Restore(snapshot, maxHistory), pending, maxHistory)
  }

  function LastEvents(log: seq<Event>): seq<Event> {
    if |log| <= SESSION_HISTORY_LIMIT then log else log[|log| - SESSION_HISTORY_LIMIT..]
  }

  // ---- The wire ----

  /** The frames of events and of snapshot rows. */
  datatype Wire = Wire(event: Event -> seq<Byte>, row: Row -> seq<Byte>)

  /** `send` drops what `encodeFrame` refuses, which is a frame of more than 512 KiB, and sends an
      error frame instead. */
  predicate EventFits(wire: Wire, e: Event) { EncodeFrame(wire.event, e).Some? }

  predicate RowFits(wire: Wire, row: Row) { EncodeFrame(wire.row, row).Some? }

  /** The client takes a snapshot of at most `SESSION_HISTORY_LIMIT` rows, none of which was dropped. */
  predicate SnapshotFits(wire: Wire, snapshot: Snapshot) {
    |snapshot.rows| <= SESSION_HISTORY_LIMIT && forall row :: row in snapshot.rows ==> RowFits(wire, row)
  }

  predicate AllFit(wire: Wire, events: seq<Event>) {
    forall e :: e in events ==> EventFits(wire, e)
  }

  /** The events that get through. */
  function Fitting(wire: Wire, events: seq<Event>): seq<Event> {
    if events == [] then []
    else
      var front, last := Fitting(wire, events[..|events| - 1]), events[|events| - 1];
      if EventFits(wire, last) then front + [last] else front
  }

  lemma {:induction false} FittingConcat(wire: Wire, a: seq<Event>, b: seq<Event>)
    ensures Fitting(wire, a + b) == Fitting(wire, a) + Fitting(wire, b)
  {
    if b == [] {
      assert a + b == a;
    } else {
      assert (a + b)[..|a + b| - 1] == a + b[..|b| - 1];
      FittingConcat(wire, a, b[..|b| - 1]);
    }
  }

  lemma {:induction false} FittingAll(wire: Wire, events: seq<Event>)
    ensures AllFit(wire, events) <==> Fitting(wire, events) == events
    ensures |Fitting(wire, events)| <= |events|
  {
    if events == [] {
    } else {
      var front, last := events[..|events| - 1], events[|events| - 1];
      FittingAll(wire, front);
      assert forall e :: e in events <==> e in front || e == last;
    }
  }

  // ---- One subscription, from both ends ----
  //
  // A client that subscribes, asks for a snapshot, and keeps the events that arrive meanwhile ends
  // up with the daemon's own session, as far as the frames are small enough to be sent. Events are
  // shown as the stores see them, after `boundRuntimeEvent`. The socket is a FIFO channel, so what
  // is in flight is given by positions in the daemon's log.

  datatype Link = Link(
    log: seq<Event>,             // what the daemon consumed since the subscription took effect
    snapAt: Option<nat>,         // where in the log it served the snapshot
    served: Option<Snapshot>,
    delivered: nat,              // how many of the events' frames, or error frames, have arrived
    seen: seq<Event>,            // the events among them
    received: Option<Snapshot>,
    failed: bool,                // the request for the snapshot was rejected
    syncAt: Option<nat>,         // how many events were seen when the client went live
    pending: seq<Event>,
    store: Session               // the client's
  )

  datatype Step = DaemonEvent(e: Event) | ServeSnapshot | Deliver | GoLive

  const NEW_LINK: Link := Link([], None, None, 0, [], None, false, None, [], EMPTY_SESSION)

  /** The snapshot's frames arrive; an error frame among them rejects the request. */
  function TakeSnapshot(wire: Wire, l: Link): Link
    requires l.served.Some?
  {
    if SnapshotFits(wire, l.served.value) then l.(received := l.served) else l.(failed := true)
  }

  /** The next event's frame arrives, or the error frame in its place: that rejects a request for
      the snapshot that is under way, and is ignored otherwise. */
  function TakeEvent(wire: Wire, l: Link, maxHistory: nat): Link
    requires l.delivered < |l.log|
  {
    var e := l.log[l.delivered];
    var l' := l.(delivered := l.delivered + 1);
    if !EventFits(wire, e) then (if l.received.None? then l'.(failed := true) else l')
    else if l.syncAt.None? then l'.(seen := l.seen + [e], pending := PushPending(l.pending, e))
    else l'.(seen := l.seen + [e], store := Apply(l.store, e, maxHistory))
  }

  /** Steps that are not enabled change nothing. `base` is the daemon's session when the
      subscription took effect. */
  ghost function Next(base: Session, wire: Wire, l: Link, step: Step, maxHistory: nat): Link
    requires Inv(Fold(base, l.log, maxHistory), maxHistory)
  {
    match step
    case DaemonEvent(e) => l.(log := l.log + [e])
    case ServeSnapshot =>
      if l.snapAt.Some? then l
      else l.(snapAt := Some(|l.log|), served := Some(SnapshotOf(Fold(base, l.log, maxHistory))))
    case Deliver =>
      if l.failed then l
      // the snapshot precedes every event consumed after it was served
      else if l.received.None? && l.snapAt == Some(l.delivered) && l.served.Some? then TakeSnapshot(wire, l)
      else if l.delivered >= |l.log| then l
      else TakeEvent(wire, l, maxHistory)
    case GoLive =>
      if l.received.None? || l.syncAt.Some? then l
      else l.(syncAt := Some(|l.seen|), store := Synchronize(l.received.value, l.pending, maxHistory))
  }

  /** The link after the given steps. */
  ghost function Run(base: Session, wire: Wire, steps: seq<Step>, maxHistory: nat): Link
    requires Inv(base, maxHistory)
  {
    if steps == [] then NEW_LINK
    else
      var l := Run(base, wire, steps[..|steps| - 1], maxHistory);
      FoldKeepsInv(base, l.log, maxHistory);
      Next(base, wire, l, steps[|steps| - 1], maxHistory)
  }

  /** What holds of every reachable link. */
  ghost predicate LinkInv(base: Session, wire: Wire, l: Link, maxHistory: nat) {
    && l.delivered <= |l.log|
    && l.seen == Fitting(wire, l.log[..l.delivered])
    && ServedInv(base, l, maxHistory)
    && ReceivedInv(wire, l)
    && (l.syncAt.None? ==> l.pending == LastEvents(l.seen))
    && LiveInv(base, l, maxHistory)
  }

  ghost predicate ServedInv(base: Session, l: Link, maxHistory: nat) {
    l.snapAt.Some? ==>
      && l.snapAt.value <= |l.log|
      && var t := Fold(base, l.log[..l.snapAt.value], maxHistory);
         Inv(t, maxHistory) && l.served == Some(SnapshotOf(t))
  }

  /** The snapshot is only received when every frame before and of it got through. */
  ghost predicate ReceivedInv(wire: Wire, l: Link)
    requires l.delivered <= |l.log|
  {
    && (l.snapAt.Some? ==> l.snapAt.value <= |l.log|)
    && (l.received.None? ==> l.syncAt.None?)
    && (l.received.None? && !l.failed ==>
          AllFit(wire, l.log[..l.delivered]) && (l.snapAt.Some? ==> l.delivered <= l.snapAt.value))
    && (l.received.Some? ==>
          && !l.failed && l.snapAt.Some? && l.snapAt.value <= l.delivered
          && l.received == l.served && SnapshotFits(wire, l.received.value)
          && AllFit(wire, l.log[..l.snapAt.value])
          && l.snapAt.value <= |l.seen| && l.seen[..l.snapAt.value] == l.log[..l.snapAt.value])
  }

  ghost predicate LiveInv(base: Session, l: Link, maxHistory: nat) {
    l.syncAt.Some? ==>
      && l.snapAt.Some? && l.snapAt.value <= l.syncAt.value <= |l.seen|
      && (SafeSync(base, l.seen, l.snapAt.value, l.syncAt.value, maxHistory) ==>
            l.store == Fold(base, l.seen, maxHistory))
  }

  /** The conditions under which going live at `d` loses nothing, the snapshot having been served
      at `k`: the snapshot is restorable, at most one history of events came after it, and the
      calls that the replayed events are about are settled in it. */
  ghost predicate SafeSync(base: Session, log: seq<Event>, k: nat, d: nat, maxHistory: nat)
    requires k <= d <= |log|
  {
    var t := Fold(base, log[..k], maxHistory);
    && RowsAreOwn(t)
    && d - k <= SESSION_HISTORY_LIMIT
    && AllSettled(t, log[ReplayStart(d)..k])
  }

  /** The client is live, and was safe to go live when it did. */
  ghost predicate WentLiveSafely(base: Session, l: Link, maxHistory: nat) {
    && l.syncAt.Some? && l.snapAt.Some?
    && l.snapAt.value <= l.syncAt.value <= |l.seen|
    && SafeSync(base, l.seen, l.snapAt.value, l.syncAt.value, maxHistory)
  }

  /** Where the pending events begin. */
  function ReplayStart(d: nat): nat {
    if d <= SESSION_HISTORY_LIMIT then 0 else d - SESSION_HISTORY_LIMIT
  }

  lemma FoldSplit(base: Session, log: seq<Event>, i: nat, j: nat, maxHistory: nat)
    requires i <= j <= |log|
    ensures Fold(base, log[..j], maxHistory) == Fold(Fold(base, log[..i], maxHistory), log[i..j], maxHistory)
  {
    assert log[..j] == log[..i] + log[i..j];
    FoldConcat(base, log[..i], log[i..j], maxHistory);
  }

  /** The pending events are those since the replay start: some before the snapshot, some after. */
  lemma PendingSplit(log: seq<Event>, k: nat, d: nat)
    requires k <= d <= |log| && d - k <= SESSION_HISTORY_LIMIT
    ensures LastEvents(log[..d]) == log[ReplayStart(d)..k] + log[k..d]
  {
  }

  /** The heart of it: replaying events that the snapshot already contains changes nothing, and
      the events after it bring the client to where the daemon was. */
  lemma SynchronizeConverges(base: Session, log: seq<Event>, k: nat, d: nat, maxHistory: nat)
    requires Inv(base, maxHistory) && k <= d <= |log|
    requires Inv(Fold(base, log[..k], maxHistory), maxHistory)
    requires SafeSync(base, log, k, d, maxHistory)
    ensures Synchronize(SnapshotOf(Fold(base, log[..k], maxHistory)), LastEvents(log[..d]), maxHistory)
            == Fold(base, log[..d], maxHistory)
  {
    var t := Fold(base, log[..k], maxHistory);
    RestoreSnapshotExactly(t, maxHistory);
    PendingSplit(log, k, d);
    ReplayWindow(base, log, ReplayStart(d), k, maxHistory);
    FoldConcat(t, log[ReplayStart(d)..k], log[k..d], maxHistory);
    FoldSplit(base, log, k, d, maxHistory);
  }

  lemma ReplayWindow(base: Session, log: seq<Event>, i: nat, k: nat, maxHistory: nat)
    requires Inv(base, maxHistory) && i <= k <= |log|
    requires AllSettled(Fold(base, log[..k], maxHistory), log[i..k])
    ensures Fold(Fold(base, log[..k], maxHistory), log[i..k], maxHistory) == Fold(base, log[..k], maxHistory)
  {
    FoldSplit(base, log, i, k, maxHistory);
    FoldKeepsInv(base, log[..i], maxHistory);
    ReplayChangesNothing(Fold(base, log[..i], maxHistory), log[i..k], maxHistory);
  }

  /** When the client goes live with every event it received already in the snapshot, it agrees
      with the daemon if and only if the replayed calls are settled. */
  lemma SynchronizeExactly(base: Session, log: seq<Event>, k: nat, maxHistory: nat)
    requires Inv(base, maxHistory) && k <= |log| && SESSION_HISTORY_LIMIT <= maxHistory
    requires Inv(Fold(base, log[..k], maxHistory), maxHistory) && RowsAreOwn(Fold(base, log[..k], maxHistory))
    ensures Synchronize(SnapshotOf(Fold(base, log[..k], maxHistory)), LastEvents(log[..k]), maxHistory)
            == Fold(base, log[..k], maxHistory)
            <==> AllSettled(Fold(base, log[..k], maxHistory), log[ReplayStart(k)..k])
  {
    var t := Fold(base, log[..k], maxHistory);
    var i := ReplayStart(k);
    RestoreSnapshotExactly(t, maxHistory);
    PendingSplit(log, k, k);
    assert log[i..k] + log[k..k] == log[i..k];
    FoldSplit(base, log, i, k, maxHistory);
    FoldKeepsInv(base, log[..i], maxHistory);
    ReplayExactly(Fold(base, log[..i], maxHistory), log[i..k], maxHistory);
  }

  lemma DaemonEventKeepsInv(base: Session, wire: Wire, l: Link, e: Event, maxHistory: nat)
    requires LinkInv(base, wire, l, maxHistory)
    ensures LinkInv(base, wire, l.(log := l.log + [e]), maxHistory)
  {
    assert (l.log + [e])[..l.delivered] == l.log[..l.delivered];
    if l.snapAt.Some? {
      assert (l.log + [e])[..l.snapAt.value] == l.log[..l.snapAt.value];
    }
  }

  lemma ServeKeepsInv(base: Session, wire: Wire, l: Link, maxHistory: nat)
    requires Inv(Fold(base, l.log, maxHistory), maxHistory) && LinkInv(base, wire, l, maxHistory)
    ensures LinkInv(base, wire, Next(base, wire, l, ServeSnapshot, maxHistory), maxHistory)
  {
    assert l.log[..|l.log|] == l.log;
  }

  lemma TakeSnapshotKeepsInv(base: Session, wire: Wire, l: Link, maxHistory: nat)
    requires LinkInv(base, wire, l, maxHistory) && !l.failed && l.received.None? && l.snapAt == Some(l.delivered)
    ensures l.served.Some? && LinkInv(base, wire, TakeSnapshot(wire, l), maxHistory)
  {
    SameServed(base, l, TakeSnapshot(wire, l), maxHistory);
    TakeSnapshotKeepsReceived(wire, l);
  }

  lemma TakeSnapshotKeepsReceived(wire: Wire, l: Link)
    requires l.delivered <= |l.log| && l.seen == Fitting(wire, l.log[..l.delivered]) && ReceivedInv(wire, l)
    requires l.served.Some? && !l.failed && l.received.None? && l.snapAt == Some(l.delivered)
    ensures ReceivedInv(wire, TakeSnapshot(wire, l))
  {
    FittingAll(wire, l.log[..l.delivered]);
    assert l.seen[..|l.seen|] == l.seen;
  }

  lemma TakeEventKeepsInv(base: Session, wire: Wire, l: Link, maxHistory: nat)
    requires LinkInv(base, wire, l, maxHistory) && !l.failed && l.delivered < |l.log|
    requires l.received.None? ==> l.snapAt != Some(l.delivered)
    ensures LinkInv(base, wire, TakeEvent(wire, l, maxHistory), maxHistory)
  {
    var l' := TakeEvent(wire, l, maxHistory);
    SeenGrows(wire, l.log, l.delivered);
    LastEventsGrow(l.seen, l.log[l.delivered]);
    SameServed(base, l, l', maxHistory);
    TakeEventKeepsReceived(wire, l, l');
    TakeEventKeepsLive(base, wire, l, maxHistory);
  }

  lemma SameServed(base: Session, l: Link, l': Link, maxHistory: nat)
    requires ServedInv(base, l, maxHistory) && l'.log == l.log && l'.snapAt == l.snapAt && l'.served == l.served
    ensures ServedInv(base, l', maxHistory)
  {
  }

  lemma LastEventsGrow(seen: seq<Event>, e: Event)
    ensures PushPending(LastEvents(seen), e) == LastEvents(seen + [e])
  {
  }

  lemma SeenGrows(wire: Wire, log: seq<Event>, d: nat)
    requires d < |log|
    ensures var seen, next := Fitting(wire, log[..d]), Fitting(wire, log[..d + 1]);
            next == if EventFits(wire, log[d]) then seen + [log[d]] else seen
  {
    var next := log[..d + 1];
    assert next[..|next| - 1] == log[..d] && next[|next| - 1] == log[d];
  }

  lemma TakeEventKeepsReceived(wire: Wire, l: Link, l': Link)
    requires l.delivered < |l.log| && ReceivedInv(wire, l) && !l.failed
    requires l.received.None? ==> l.snapAt != Some(l.delivered)
    requires l'.log == l.log && l'.delivered == l.delivered + 1 && l'.snapAt == l.snapAt && l'.served == l.served
    requires l'.received == l.received && l'.syncAt == l.syncAt
    requires var e := l.log[l.delivered];
             && l'.seen == (if EventFits(wire, e) then l.seen + [e] else l.seen)
             && (l'.failed <==> !EventFits(wire, e) && l.received.None?)
    ensures ReceivedInv(wire, l')
  {
    var e := l.log[l.delivered];
    if l.received.Some? {
      assert (l.seen + [e])[..l.snapAt.value] == l.seen[..l.snapAt.value];
    } else {
      assert l.log[..l.delivered + 1] == l.log[..l.delivered] + [e];
    }
  }

  lemma TakeEventKeepsLive(base: Session, wire: Wire, l: Link, maxHistory: nat)
    requires l.delivered < |l.log| && LiveInv(base, l, maxHistory)
    ensures LiveInv(base, TakeEvent(wire, l, maxHistory), maxHistory)
  {
    var e := l.log[l.delivered];
    if EventFits(wire, e) && l.syncAt.Some? {
      assert (l.seen + [e])[..|l.seen|] == l.seen;
      SafeSyncLater(base, l.seen, e, l.snapAt.value, l.syncAt.value, maxHistory);
    }
  }

  /** Whether going live was safe does not depend on later events. */
  lemma SafeSyncLater(base: Session, seen: seq<Event>, e: Event, k: nat, d: nat, maxHistory: nat)
    requires k <= d <= |seen|
    ensures SafeSync(base, seen + [e], k, d, maxHistory) <==> SafeSync(base, seen, k, d, maxHistory)
  {
    var later := seen + [e];
    assert later[..k] == seen[..k];
    if d - k <= SESSION_HISTORY_LIMIT {
      assert later[ReplayStart(d)..k] == seen[ReplayStart(d)..k];
    }
  }

  lemma GoLiveKeepsInv(base: Session, wire: Wire, l: Link, maxHistory: nat)
    requires Inv(base, maxHistory) && Inv(Fold(base, l.log, maxHistory), maxHistory) && LinkInv(base, wire, l, maxHistory)
    ensures LinkInv(base, wire, Next(base, wire, l, GoLive, maxHistory), maxHistory)
  {
    if l.received.Some? && l.syncAt.None? && SafeSync(base, l.seen, l.snapAt.value, |l.seen|, maxHistory) {
      assert l.seen[..|l.seen|] == l.seen;
      SynchronizeConverges(base, l.seen, l.snapAt.value, |l.seen|, maxHistory);
    }
  }

  lemma NextKeepsInv(base: Session, wire: Wire, l: Link, step: Step, maxHistory: nat)
    requires Inv(base, maxHistory) && Inv(Fold(base, l.log, maxHistory), maxHistory) && LinkInv(base, wire, l, maxHistory)
    ensures LinkInv(base, wire, Next(base, wire, l, step, maxHistory), maxHistory)
  {
    match step {
      case DaemonEvent(e) => DaemonEventKeepsInv(base, wire, l, e, maxHistory);
      case ServeSnapshot => ServeKeepsInv(base, wire, l, maxHistory);
      case Deliver =>
        if l.failed {
        } else if l.received.None? && l.snapAt == Some(l.delivered) {
          TakeSnapshotKeepsInv(base, wire, l, maxHistory);
        } else if l.delivered < |l.log| {
          TakeEventKeepsInv(base, wire, l, maxHistory);
        }
      case GoLive => GoLiveKeepsInv(base, wire, l, maxHistory);
    }
  }

  lemma {:induction false} RunKeepsInv(base: Session, wire: Wire, steps: seq<Step>, maxHistory: nat)
    requires Inv(base, maxHistory)
    ensures LinkInv(base, wire, Run(base, wire, steps, maxHistory), maxHistory)
  {
    if steps == [] {
    } else {
      RunKeepsInv(base, wire, steps[..|steps| - 1], maxHistory);
      var l := Run(base, wire, steps[..|steps| - 1], maxHistory);
      FoldKeepsInv(base, l.log, maxHistory);
      NextKeepsInv(base, wire, l, steps[|steps| - 1], maxHistory);
    }
  }

  /** Reconnect convergence, over every run: a client that went live safely has, from then on, what
      the daemon's session would be without the events since the snapshot whose frames were too
      large; without such events it has the daemon's session as of the last event delivered. */
  lemma LiveClientFollowsTheDaemon(base: Session, wire: Wire, steps: seq<Step>, maxHistory: nat)
    requires Inv(base, maxHistory)
    requires WentLiveSafely(base, Run(base, wire, steps, maxHistory), maxHistory)
    ensures var l := Run(base, wire, steps, maxHistory);
            && l.snapAt.value <= l.delivered <= |l.log|
            && AllFit(wire, l.log[..l.snapAt.value])
            && l.store == Fold(base, Fitting(wire, l.log[..l.delivered]), maxHistory)
            && (AllFit(wire, l.log[..l.delivered]) ==> l.store == Fold(base, l.log[..l.delivered], maxHistory))
  {
    RunKeepsInv(base, wire, steps, maxHistory);
    var l := Run(base, wire, steps, maxHistory);
    FittingAll(wire, l.log[..l.delivered]);
  }

  /** The event leaves the session as it is: the connection, device and authentication are what it
      says, or its call is known and has the row it would get. */
  predicate ChangesNothing(s: Session, e: Event) {
    match KeyOf(e)
    case Some(callId) => callId in s.calls && s.calls[callId] == NewRow(e, Some(s.calls[callId]))
    case None => ApplyControl(s.control, e) == s.control
  }

  lemma ChangesNothingExactly(s: Session, e: Event, maxHistory: nat)
    requires Inv(s, maxHistory) && maxHistory > 0
    ensures Apply(s, e, maxHistory) == s <==> ChangesNothing(s, e)
  {
    if KeyOf(e).Some? {
      SetCallCases(s, e.callId, NewRow(e, Lookup(s.calls, e.callId)), maxHistory);
      if e.callId !in s.calls && |s.order| == maxHistory {
        assert (s.order + [e.callId])[1..][maxHistory - 1] == e.callId;
      }
    }
  }

  /** The converse, over every run: at the first event whose frame is too large, a client that went
      live safely differs from the daemon if and only if the event changed the daemon's session. */
  lemma FirstOversizeEventExactly(base: Session, wire: Wire, steps: seq<Step>, maxHistory: nat)
    requires Inv(base, maxHistory) && maxHistory > 0
    requires var l := Run(base, wire, steps, maxHistory);
             && WentLiveSafely(base, l, maxHistory) && 0 < l.delivered <= |l.log|
             && AllFit(wire, l.log[..l.delivered - 1]) && !EventFits(wire, l.log[l.delivered - 1])
    ensures var l := Run(base, wire, steps, maxHistory);
            var before := Fold(base, l.log[..l.delivered - 1], maxHistory);
            && l.store == before
            && (l.store != Fold(base, l.log[..l.delivered], maxHistory) <==> !ChangesNothing(before, l.log[l.delivered - 1]))
  {
    LiveClientFollowsTheDaemon(base, wire, steps, maxHistory);
    var l := Run(base, wire, steps, maxHistory);
    FirstMissed(base, wire, l.log, l.delivered - 1, maxHistory);
  }

  lemma FirstMissed(base: Session, wire: Wire, log: seq<Event>, i: nat, maxHistory: nat)
    requires Inv(base, maxHistory) && maxHistory > 0
    requires i < |log| && AllFit(wire, log[..i]) && !EventFits(wire, log[i])
    ensures Fitting(wire, log[..i + 1]) == log[..i]
    ensures Fold(base, log[..i], maxHistory) == Fold(base, log[..i + 1], maxHistory)
            <==> ChangesNothing(Fold(base, log[..i], maxHistory), log[i])
  {
    SeenGrows(wire, log, i);
    FittingAll(wire, log[..i]);
    FoldKeepsInv(base, log[..i], maxHistory);
    ChangesNothingExactly(Fold(base, log[..i], maxHistory), log[i], maxHistory);
    FoldOneMore(base, log, i, maxHistory);
  }

  lemma FoldOneMore(base: Session, log: seq<Event>, i: nat, maxHistory: nat)
    requires i < |log|
    ensures Fold(base, log[..i + 1], maxHistory) == Apply(Fold(base, log[..i], maxHistory), log[i], maxHistory)
  {
    assert log[..i + 1][..i] == log[..i];
  }

  /** A client cannot go live on a snapshot with a row whose frame is too large. */
  lemma OversizeRowBlocksTheClient(base: Session, wire: Wire, steps: seq<Step>, maxHistory: nat, row: Row)
    requires Inv(base, maxHistory)
    requires var l := Run(base, wire, steps, maxHistory); l.served.Some? && row in l.served.value.rows && !RowFits(wire, row)
    ensures Run(base, wire, steps, maxHistory).syncAt.None?
  {
    RunKeepsInv(base, wire, steps, maxHistory);
  }

  // ---- When going live is safe, and when it is not ----

  /** The events as the stores see them. */
  function Seen(rawEvents: seq<Event>): seq<Event> {
    seq(|rawEvents|, i requires 0 <= i < |rawEvents| => BoundEvent(rawEvents[i]))
  }

  lemma FoldNextSeen(s: Session, rawEvents: seq<Event>, i: nat, maxHistory: nat)
    requires i < |rawEvents|
    ensures Fold(s, Seen(rawEvents)[..i + 1], maxHistory) == Consume(Fold(s, Seen(rawEvents)[..i], maxHistory), rawEvents[i], maxHistory)
  {
    assert Seen(rawEvents)[..i + 1][..i] == Seen(rawEvents)[..i];
  }

  lemma {:induction false} FittingEventsKeepClean(base: Session, rawEvents: seq<Event>, maxHistory: nat)
    requires Inv(base, maxHistory) && Clean(base) && maxHistory > 0
    requires forall e :: e in rawEvents ==> Fits(e) && EngineStrings(e)
    ensures Clean(Fold(base, Seen(rawEvents), maxHistory))
  {
    if rawEvents == [] {
    } else {
      var front, last := rawEvents[..|rawEvents| - 1], rawEvents[|rawEvents| - 1];
      assert Seen(rawEvents)[..|rawEvents| - 1] == Seen(front);
      assert last in rawEvents;
      FittingEventsKeepClean(base, front, maxHistory);
      FoldKeepsInv(base, Seen(front), maxHistory);
      CleanExactly(Fold(base, Seen(front), maxHistory), last, maxHistory);
    }
  }

  /** Going live is safe when ids and names fit, no call is evicted inside the replayed window
      after an event of the window was about it, and the pending events did not overflow. */
  lemma UndisturbedSyncIsSafe(base: Session, rawEvents: seq<Event>, k: nat, d: nat, maxHistory: nat)
    requires Inv(base, maxHistory) && Clean(base) && maxHistory > 0
    requires forall e :: e in rawEvents ==> Fits(e) && EngineStrings(e)
    requires k <= d <= |rawEvents| && d - k <= SESSION_HISTORY_LIMIT
    requires var log := Seen(rawEvents);
             NoTouchedCallEvicted(Fold(base, log[..ReplayStart(d)], maxHistory), log[ReplayStart(d)..k], maxHistory)
    ensures SafeSync(base, Seen(rawEvents), k, d, maxHistory)
  {
    var log, i := Seen(rawEvents), ReplayStart(d);
    assert log[..k] == Seen(rawEvents[..k]);
    FittingEventsKeepClean(base, rawEvents[..k], maxHistory);
    FoldSplit(base, log, i, k, maxHistory);
    FoldKeepsInv(base, log[..i], maxHistory);
    NoEvictionSettles(Fold(base, log[..i], maxHistory), log[i..k], maxHistory);
  }

  lemma {:induction false} LogsChangeNothing(s: Session, n: nat, maxHistory: nat)
    ensures Fold(s, seq(n, _ => RuntimeLog([])), maxHistory) == s
  {
    if n == 0 {
    } else {
      assert seq(n, _ => RuntimeLog([]))[..n - 1] == seq(n - 1, _ => RuntimeLog([]));
      LogsChangeNothing(s, n - 1, maxHistory);
    }
  }

  /** One event more than the pending buffer holds, after the snapshot: the oldest of them is
      lost, and the client goes live without it. */
  lemma OverflowLosesAnEvent(device: Device, maxHistory: nat)
    ensures var logs := seq(SESSION_HISTORY_LIMIT, _ => RuntimeLog([]));
            var log := [DeviceReady(device.user, device.deviceId, device.deviceName)] + logs;
            && Synchronize(SnapshotOf(EMPTY_SESSION), LastEvents(log), maxHistory) == EMPTY_SESSION
            && Fold(EMPTY_SESSION, log, maxHistory).control.device == Some(device)
  {
    var ready := DeviceReady(device.user, device.deviceId, device.deviceName);
    var logs := seq(SESSION_HISTORY_LIMIT, _ => RuntimeLog([]));
    assert LastEvents([ready] + logs) == logs;
    assert SliceLast(SnapshotOf(EMPTY_SESSION).rows, maxHistory) == [];
    assert EntriesOf([]) == [];
    LogsChangeNothing(EMPTY_SESSION, SESSION_HISTORY_LIMIT, maxHistory);
    FoldConcat(EMPTY_SESSION, [ready], logs, maxHistory);
    assert [ready][..0] == [];
    assert Fold(EMPTY_SESSION, [ready], maxHistory) == Apply(Fold(EMPTY_SESSION, [], maxHistory), ready, maxHistory);
    LogsChangeNothing(Fold(EMPTY_SESSION, [ready], maxHistory), SESSION_HISTORY_LIMIT, maxHistory);
  }

  /** Replaying over an eviction, at the history of the program: the client goes live on a snapshot
      that contains all of the pending events, and ends up with another session than the daemon. */
  lemma ReconnectCanDiverge()
    ensures var log := Starts(SESSION_HISTORY_LIMIT) + CompletedAndPushedOut();
            var daemon := Fold(EMPTY_SESSION, log, SESSION_HISTORY_LIMIT);
            Inv(daemon, SESSION_HISTORY_LIMIT)
            && Synchronize(SnapshotOf(daemon), LastEvents(log), SESSION_HISTORY_LIMIT) != daemon
  {
    var starts, last := Starts(SESSION_HISTORY_LIMIT), CompletedAndPushedOut();
    var log := starts + last;
    var daemon := Fold(EMPTY_SESSION, log, SESSION_HISTORY_LIMIT);
    FoldKeepsInv(EMPTY_SESSION, log, SESSION_HISTORY_LIMIT);
    WitnessIsPlain();
    FittingEventsKeepClean(EMPTY_SESSION, log, SESSION_HISTORY_LIMIT);
    FoldConcat(EMPTY_SESSION, starts, last, SESSION_HISTORY_LIMIT);
    PushedOut();
    assert log[ReplayStart(|log|)..|log|] == starts[2..] + last;
    PushedOutIsUnsettled(daemon, starts[2..]);
    assert log[..|log|] == log;
    SynchronizeExactly(EMPTY_SESSION, log, |log|, SESSION_HISTORY_LIMIT);
  }

  /** The events of that input are small: bounding leaves them alone and their ids fit. */
  lemma WitnessIsPlain()
    ensures var log := Starts(SESSION_HISTORY_LIMIT) + CompletedAndPushedOut();
            Seen(log) == log && forall e :: e in log ==> Fits(e) && EngineStrings(e)
  {
    var log := Starts(SESSION_HISTORY_LIMIT) + CompletedAndPushedOut();
    forall i | 0 <= i < |log|
      ensures BoundEvent(log[i]) == log[i] && Fits(log[i]) && EngineStrings(log[i])
    {
      PlainText(0x74);
      assert ByteLength(EMPTY_OBJECT) == 2 && ByteLength([]) == 0;
      if i < SESSION_HISTORY_LIMIT {
        PlainText(0x100 + i);
      } else {
        PlainText(0x100);
        PlainText(0x100 + SESSION_HISTORY_LIMIT);
      }
    }
  }

  lemma PlainText(u: Unit)
    ensures ByteLength([u]) <= 3 && BoundText([u], CONTROL_TEXT_MAX_BYTES) == [u]
  {
    LeastBytes([u]);
  }

  // ---- An event that is too large for its frame ----

  function Quotes(n: nat): (t: Text)
    ensures |t| == n
  {
    seq(n, _ => QUOTE)
  }

  /** Quotes are one byte each, and two in a JSON string. */
  lemma {:induction false} QuotesGrow(n: nat)
    ensures ByteLength(Quotes(n)) == n && ByteLength(EscapeUnits(Quotes(n))) == 2 * n
  {
    if n == 0 {
    } else {
      QuotesGrow(n - 1);
      var rest := Quotes(n - 1);
      assert Quotes(n)[1..] == rest && Quotes(n)[..1] == [QUOTE];
      assert EscapeUnits(Quotes(n)) == [BACKSLASH, QUOTE] + EscapeUnits(rest);
      ByteLengthConcat([BACKSLASH, QUOTE], EscapeUnits(rest));
      assert ByteLength([QUOTE]) == 1 && [BACKSLASH, QUOTE][1..] == [QUOTE];
    }
  }

  /** A result as large as its bound, all quotes. */
  function QuotesEvent(): Event {
    ToolCompleted([0x63], [0x74], Quotes(RESULT_MAX_BYTES), None, 1)
  }

  /** A failed call whose tool's name is as long as a frame, all letters. */
  function LongNameEvent(): Event {
    ToolFailed([0x63], seq(MAX_IPC_FRAME_BYTES, _ => 0x74), [0x65], None, 1)
  }

  lemma {:induction false} LettersAreBytes(n: nat)
    ensures ByteLength(seq(n, _ => 0x74)) == n
  {
    if n == 0 {
    } else {
      LettersAreBytes(n - 1);
      var letters: Text := seq(n, _ => 0x74);
      assert letters[1..] == seq(n - 1, _ => 0x74);
    }
  }

  /** The frame of a failed call holds its tool's name. */
  ghost predicate CarriesNames(wire: Wire) {
    forall e: Event :: e.ToolFailed? ==> |wire.event(e)| >= ByteLength(e.toolName)
  }

  /** The frame of a completed call holds its result as a JSON string. */
  ghost predicate CarriesResults(wire: Wire) {
    && (forall e: Event :: e.ToolCompleted? ==> |wire.event(e)| >= ByteLength(QuoteJson(e.resultText)))
    && (forall row: Row :: row.resultText.Some? ==> |wire.row(row)| >= ByteLength(QuoteJson(row.resultText.value)))
  }

  /** The least frames that do. */
  function EventFrame(e: Event): seq<Byte> {
    Filler(if e.ToolCompleted? then ByteLength(QuoteJson(e.resultText)) else if e.ToolFailed? then ByteLength(e.toolName) else 0)
  }

  function RowFrame(row: Row): seq<Byte> {
    Filler(if row.resultText.Some? then ByteLength(QuoteJson(row.resultText.value)) else 0)
  }

  function Filler(n: nat): (bytes: seq<Byte>)
    ensures |bytes| == n
  {
    seq(n, _ => 0)
  }

  lemma SomeFramesCarryThem()
    ensures CarriesResults(Wire(EventFrame, RowFrame)) && CarriesNames(Wire(EventFrame, RowFrame))
  {
  }

  /** Such an event is within its bounds, but its frame is not, and neither is its row's. */
  lemma QuotesEventIsOversize(wire: Wire)
    requires CarriesResults(wire)
    ensures BoundEvent(QuotesEvent()) == QuotesEvent() && !EventFits(wire, QuotesEvent())
    ensures !RowFits(wire, NewRow(QuotesEvent(), None))
  {
    var text := Quotes(RESULT_MAX_BYTES);
    QuotesGrow(RESULT_MAX_BYTES);
    ByteLengthConcat([QUOTE], EscapeUnits(text));
    ByteLengthConcat([QUOTE] + EscapeUnits(text), [QUOTE]);
    assert ByteLength(QuoteJson(text)) == 2 * RESULT_MAX_BYTES + 2;
  }

  /** The client goes live, a call completes, and the event's frame is dropped. */
  function GoLiveAndMiss(e: Event): seq<Step> {
    [ServeSnapshot, Deliver, GoLive, DaemonEvent(e), Deliver]
  }

  lemma RunOneMore(base: Session, wire: Wire, steps: seq<Step>, i: nat, maxHistory: nat)
    requires Inv(base, maxHistory) && i < |steps|
    ensures var l := Run(base, wire, steps[..i], maxHistory);
            && Inv(Fold(base, l.log, maxHistory), maxHistory)
            && Run(base, wire, steps[..i + 1], maxHistory) == Next(base, wire, l, steps[i], maxHistory)
  {
    assert steps[..i + 1][..i] == steps[..i];
    FoldKeepsInv(base, Run(base, wire, steps[..i], maxHistory).log, maxHistory);
  }

  lemma EmptySnapshot(wire: Wire, maxHistory: nat)
    ensures var empty := SnapshotOf(EMPTY_SESSION); SnapshotFits(wire, empty) && Synchronize(empty, [], maxHistory) == EMPTY_SESSION
  {
    var empty := SnapshotOf(EMPTY_SESSION);
    assert empty.rows == [] && SliceLast(empty.rows, maxHistory) == [] && EntriesOf([]) == [];
  }

  lemma LiveOnNothing(wire: Wire, e: Event, maxHistory: nat)
    ensures Run(EMPTY_SESSION, wire, GoLiveAndMiss(e)[..3], maxHistory)
            == NEW_LINK.(snapAt := Some(0), served := Some(SnapshotOf(EMPTY_SESSION)),
                         received := Some(SnapshotOf(EMPTY_SESSION)), syncAt := Some(0))
  {
    var steps := GoLiveAndMiss(e);
    EmptySnapshot(wire, maxHistory);
    assert Run(EMPTY_SESSION, wire, steps[..1], maxHistory)
        == NEW_LINK.(snapAt := Some(0), served := Some(SnapshotOf(EMPTY_SESSION))) by {
      assert steps[..0] == [];
      RunOneMore(EMPTY_SESSION, wire, steps, 0, maxHistory);
    }
    assert Run(EMPTY_SESSION, wire, steps[..2], maxHistory)
        == NEW_LINK.(snapAt := Some(0), served := Some(SnapshotOf(EMPTY_SESSION)), received := Some(SnapshotOf(EMPTY_SESSION))) by {
      RunOneMore(EMPTY_SESSION, wire, steps, 1, maxHistory);
    }
    RunOneMore(EMPTY_SESSION, wire, steps, 2, maxHistory);
  }

  lemma LiveAndMissed(wire: Wire, e: Event, maxHistory: nat)
    requires !EventFits(wire, e)
    ensures Run(EMPTY_SESSION, wire, GoLiveAndMiss(e), maxHistory)
            == Run(EMPTY_SESSION, wire, GoLiveAndMiss(e)[..3], maxHistory).(log := [e], delivered := 1)
  {
    var steps := GoLiveAndMiss(e);
    LiveOnNothing(wire, e, maxHistory);
    RunOneMore(EMPTY_SESSION, wire, steps, 3, maxHistory);
    RunOneMore(EMPTY_SESSION, wire, steps, 4, maxHistory);
    assert steps[..5] == steps;
  }

  /** Whatever event that ends a call has too large a frame: a client that went live safely misses
      it and is left with another session than the daemon. */
  lemma OversizeEventIsLost(wire: Wire, e: Event, maxHistory: nat)
    requires !EventFits(wire, e) && (e.ToolCompleted? || e.ToolFailed?) && maxHistory > 0
    ensures var l := Run(EMPTY_SESSION, wire, GoLiveAndMiss(e), maxHistory);
            && WentLiveSafely(EMPTY_SESSION, l, maxHistory) && l.log == [e] && l.delivered == 1
            && l.store == EMPTY_SESSION
            && l.store != Fold(EMPTY_SESSION, l.log, maxHistory)
  {
    LiveOnNothing(wire, e, maxHistory);
    LiveAndMissed(wire, e, maxHistory);
    FoldOneMore(EMPTY_SESSION, [e], 0, maxHistory);
    assert [e][..0] == [] && [e][..1] == [e];
    ChangesNothingExactly(EMPTY_SESSION, e, maxHistory);
  }

  /** And there is one: a result within its bound. */
  lemma QuotesEventIsLost(wire: Wire, maxHistory: nat)
    requires CarriesResults(wire) && maxHistory > 0
    ensures var l := Run(EMPTY_SESSION, wire, GoLiveAndMiss(QuotesEvent()), maxHistory);
            && BoundEvent(QuotesEvent()) == QuotesEvent() && WentLiveSafely(EMPTY_SESSION, l, maxHistory)
            && l.delivered == |l.log| && l.store != Fold(EMPTY_SESSION, l.log, maxHistory)
  {
    QuotesEventIsOversize(wire);
    OversizeEventIsLost(wire, QuotesEvent(), maxHistory);
  }

  lemma LongNameEventIsOversize(wire: Wire)
    requires CarriesNames(wire)
    ensures BoundEvent(LongNameEvent()) == LongNameEvent() && !EventFits(wire, LongNameEvent())
  {
    LettersAreBytes(MAX_IPC_FRAME_BYTES);
    assert BoundText([0x65], ERROR_MAX_BYTES) == [0x65] by { LeastBytes([0x65]); }
  }

  /** And another: bounding leaves the tool's name of a failed call alone. */
  lemma LongNameEventIsLost(wire: Wire, maxHistory: nat)
    requires CarriesNames(wire) && maxHistory > 0
    ensures var l := Run(EMPTY_SESSION, wire, GoLiveAndMiss(LongNameEvent()), maxHistory);
            && BoundEvent(LongNameEvent()) == LongNameEvent() && WentLiveSafely(EMPTY_SESSION, l, maxHistory)
            && l.delivered == |l.log| && l.store != Fold(EMPTY_SESSION, l.log, maxHistory)
  {
    LongNameEventIsOversize(wire);
    OversizeEventIsLost(wire, LongNameEvent(), maxHistory);
  }
}
