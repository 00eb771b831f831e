/** Model of src/core/operation-scheduler.ts: one bounded queue and one concurrency limit per
    class of operation, and a bound on all queues together.

    One step is one stretch of code between awaits. Operations are numbered as they are submitted,
    and every call of `resolve` or `reject` is recorded, so that the model can tell that each operation
    is settled once. */
module SchedulerSpec {
  import opened JavaScript
  import opened Wrappers

  datatype OpClass = Light | Heavy | Process | Document

  datatype Op = Op(id: nat, signal: bool, deadlineAt: Option<int>)

  datatype Outcome = Busy | Cancelled | DeadlineExceeded | Done

  /** Where an operation is. */
  datatype Place = Waiting(c: OpClass) | Running(c: OpClass) | Settled(outcome: Outcome)

  datatype Start = Start(id: nat, c: OpClass, at: int, deadlineAt: Option<int>, aborted: bool)

  datatype Limits = Limits(concurrency: map<OpClass, nat>, maxQueueSize: nat, maxQueueSizeByClass: map<OpClass, nat>)

  datatype State = State(
    active: map<OpClass, nat>,
    queues: map<OpClass, seq<Op>>,
    totalQueued: int,
    nextId: nat,
    aborted: set<nat>,         // operations whose signal is aborted
    place: map<nat, Place>,
    starts: seq<Start>,        // in order
    settlements: seq<nat>      // every call of an operation's resolve or reject, in order
  )

  datatype Step =
    | Submit(c: OpClass, signal: bool, aborted: bool, deadlineAt: Option<int>, now: int)
    | SignalAborts(id: nat)
    | AbortListener(id: nat)
    | DeadlineTimer(id: nat)
    | Finish(id: nat, now: int)

  ghost predicate Total<T>(m: map<OpClass, T>) { forall c: OpClass :: c in m }

  function IsPastDeadline(deadlineAt: Option<int>, now: int): bool {
    deadlineAt.Some? && deadlineAt.value <= now
  }

  function Settle(s: State, id: nat, outcome: Outcome): State {
    s.(place := s.place[id := Settled(outcome)], settlements := s.settlements + [id])
  }

  function StartOp(s: State, op: Op, c: OpClass, now: int): State
    requires c in s.active
  {
    s.(active := s.active[c := s.active[c] + 1], place := s.place[op.id := Running(c)],
       starts := s.starts + [Start(op.id, c, now, op.deadlineAt, op.signal && op.id in s.aborted)])
  }

  function IndexOfId(queue: seq<Op>, id: nat): (i: nat)
    ensures i <= |queue| && (i < |queue| ==> queue[i].id == id)
    ensures forall j :: 0 <= j < i ==> queue[j].id != id
  {
    FindIndex(queue, (op: Op) => op.id == id)
  }

  /** An operation leaves its queue. */
  function Unqueue(s: State, c: OpClass, i: nat): State
    requires c in s.queues && i < |s.queues[c]|
  {
    s.(queues := s.queues[c := RemoveAt(s.queues[c], i)], totalQueued := s.totalQueued - 1)
  }

  /** One round of the drain loop: the head is rejected or started. */
  function DrainOne(s: State, c: OpClass, now: int): State
    requires c in s.queues && c in s.active && s.queues[c] != []
  {
    var op := s.queues[c][0];
    var s := Unqueue(s, c, 0);
    if op.signal && op.id in s.aborted then Settle(s, op.id, Cancelled)
    else if IsPastDeadline(op.deadlineAt, now) then Settle(s, op.id, DeadlineExceeded)
    else StartOp(s, op, c, now)
  }

  function Drain(s: State, c: OpClass, now: int, limits: Limits): (r: State)
    requires c in s.queues && c in s.active && c in limits.concurrency
    decreases |s.queues[c]|
  {
    if s.active[c] < limits.concurrency[c] && s.queues[c] != [] then Drain(DrainOne(s, c, now), c, now, limits) else s
  }

  /** `cancel`: takes effect only while the operation waits. */
  function Cancel(s: State, id: nat, outcome: Outcome): State {
    if id in s.place && s.place[id].Waiting? && s.place[id].c in s.queues then
      var c := s.place[id].c;
      var i := IndexOfId(s.queues[c], id);
      if i < |s.queues[c]| then Settle(Unqueue(s, c, i), id, outcome) else s
    else s
  }

  function SubmitOp(s: State, op: Op, c: OpClass, aborted: bool, now: int, limits: Limits): State
    requires c in s.queues && c in s.active && c in limits.concurrency && c in limits.maxQueueSizeByClass
  {
    if op.signal && aborted then Settle(s, op.id, Cancelled)
    else if IsPastDeadline(op.deadlineAt, now) then Settle(s, op.id, DeadlineExceeded)
    else if s.active[c] < limits.concurrency[c] then StartOp(s, op, c, now)
    else if s.totalQueued >= limits.maxQueueSize then Settle(s, op.id, Busy)
    else if |s.queues[c]| >= limits.maxQueueSizeByClass[c] then Settle(s, op.id, Busy)
    else s.(queues := s.queues[c := s.queues[c] + [op]], totalQueued := s.totalQueued + 1, place := s.place[op.id := Waiting(c)])
  }

  /** Whether the operation that waits under `id` has a signal, or a deadline. */
  function WaitingOp(s: State, id: nat): Option<Op> {
    if id in s.place && s.place[id].Waiting? && s.place[id].c in s.queues then
      var queue := s.queues[s.place[id].c];
      if IndexOfId(queue, id) < |queue| then Some(queue[IndexOfId(queue, id)]) else None
    else None
  }

  ghost predicate Sized(s: State, limits: Limits) {
    Total(s.active) && Total(s.queues) && Total(limits.concurrency) && Total(limits.maxQueueSizeByClass)
  }

  function Next(s: State, step: Step, limits: Limits): State
    requires Sized(s, limits)
  {
    match step
    case Submit(c, signal, aborted, deadlineAt, now) =>
      SubmitOp(s.(nextId := s.nextId + 1), Op(s.nextId, signal, deadlineAt), c, aborted, now, limits)
    case SignalAborts(id) => s.(aborted := s.aborted + {id})
    case AbortListener(id) =>
      if id in s.aborted && WaitingOp(s, id).Some? && WaitingOp(s, id).value.signal then Cancel(s, id, Cancelled) else s
    case DeadlineTimer(id) =>
      if WaitingOp(s, id).Some? && WaitingOp(s, id).value.deadlineAt.Some? then Cancel(s, id, DeadlineExceeded) else s
    case Finish(id, now) =>
      if id in s.place && s.place[id].Running? && s.active[s.place[id].c] > 0 then
        var c := s.place[id].c;
        Drain(GiveBack(s, id, c), c, now, limits)
      else s
  }

  // ---- What every run keeps ----

  ghost function InPlace(place: map<nat, Place>, p: Place): set<nat> {
    set id | id in place && place[id] == p
  }

  ghost function IdsOf(queue: seq<Op>): set<nat> {
    set op | op in queue :: op.id
  }

  ghost predicate Increasing(queue: seq<Op>) {
    forall i, j :: 0 <= i < j < |queue| ==> queue[i].id < queue[j].id
  }

  /** One class: its limits, its count of running operations, and its queue in order of arrival. */
  ghost predicate LaneInv(active: nat, queue: seq<Op>, place: map<nat, Place>, c: OpClass, concurrency: nat, maxQueue: nat) {
    && active <= concurrency && |queue| <= maxQueue
    && active == |InPlace(place, Running(c))|
    && IdsOf(queue) == InPlace(place, Waiting(c))
    && Increasing(queue)
  }

  /** Every operation is in one place, and was settled once if that place says so. */
  ghost predicate LedgerInv(place: map<nat, Place>, settlements: seq<nat>, nextId: nat) {
    && (forall id: nat :: id in place <==> id < nextId)
    && (forall i, j :: 0 <= i < j < |settlements| ==> settlements[i] != settlements[j])
    && (forall id :: id in settlements <==> id in place && place[id].Settled?)
  }

  /** Starts: never aborted or past the deadline, and in order of arrival within a class. */
  ghost predicate StartsInv(starts: seq<Start>, nextId: nat) {
    && (forall i :: 0 <= i < |starts| ==>
          !starts[i].aborted && !IsPastDeadline(starts[i].deadlineAt, starts[i].at) && starts[i].id < nextId)
    && (forall i, j :: 0 <= i < j < |starts| && starts[i].c == starts[j].c ==> starts[i].id < starts[j].id)
  }

  /** What was started in a class came before what waits in it. */
  ghost predicate StartedBefore(starts: seq<Start>, c: OpClass, queue: seq<Op>) {
    forall i, j :: 0 <= i < |starts| && starts[i].c == c && 0 <= j < |queue| ==> starts[i].id < queue[j].id
  }

  function QueuedTotal(queues: map<OpClass, seq<Op>>): nat
    requires Light in queues && Heavy in queues && Process in queues && Document in queues
  {
    |queues[Light]| + |queues[Heavy]| + |queues[Process]| + |queues[Document]|
  }

  function ActiveTotal(active: map<OpClass, nat>): nat
    requires Light in active && Heavy in active && Process in active && Document in active
  {
    active[Light] + active[Heavy] + active[Process] + active[Document]
  }

  ghost predicate Lane(s: State, c: OpClass, limits: Limits)
    requires Sized(s, limits)
  {
    && LaneInv(s.active[c], s.queues[c], s.place, c, limits.concurrency[c], limits.maxQueueSizeByClass[c])
    && StartedBefore(s.starts, c, s.queues[c])
  }

  ghost predicate Core(s: State, limits: Limits) {
    && Sized(s, limits)
    && (forall c: OpClass :: Lane(s, c, limits))
    && LedgerInv(s.place, s.settlements, s.nextId)
    && StartsInv(s.starts, s.nextId)
    && s.totalQueued == QueuedTotal(s.queues) <= limits.maxQueueSize
    && s.nextId == s.totalQueued + ActiveTotal(s.active) + |s.settlements|
  }

  /** A waiting operation means its class is full. */
  ghost predicate Full(s: State, c: OpClass, limits: Limits)
    requires Sized(s, limits)
  {
    s.queues[c] != [] ==> s.active[c] == limits.concurrency[c]
  }

  ghost predicate Inv(s: State, limits: Limits) {
    && Core(s, limits)
    && (forall c: OpClass :: Full(s, c, limits))
    && (forall id :: id in s.aborted ==> id < s.nextId)
  }

  lemma PlaceChanges(place: map<nat, Place>, id: nat, to: Place, p: Place)
    ensures InPlace(place[id := to], p) == if to == p then InPlace(place, p) + {id} else InPlace(place, p) - {id}
  {
  }

  lemma IdsAfterRemoval(queue: seq<Op>, i: nat)
    requires Increasing(queue) && i < |queue|
    ensures Increasing(RemoveAt(queue, i)) && IdsOf(RemoveAt(queue, i)) == IdsOf(queue) - {queue[i].id}
    ensures queue[i].id in IdsOf(queue)
  {
    forall id
      ensures id in IdsOf(RemoveAt(queue, i)) <==> id in IdsOf(queue) - {queue[i].id}
    {
      IdAfterRemoval(queue, i, id);
    }
  }

  lemma IdAfterRemoval(queue: seq<Op>, i: nat, id: nat)
    requires Increasing(queue) && i < |queue|
    ensures id in IdsOf(RemoveAt(queue, i)) <==> id in IdsOf(queue) && id != queue[i].id
  {
    var rest := RemoveAt(queue, i);
    if j :| 0 <= j < |queue| && queue[j].id == id && j != i {
      assert rest[if j < i then j else j - 1] == queue[j];
    }
    if j :| 0 <= j < |rest| && rest[j].id == id {
      assert rest[j] == queue[if j < i then j else j + 1];
    }
  }

  /** A lane none of whose operations moves. */
  lemma OtherLane(active: nat, queue: seq<Op>, place: map<nat, Place>, c: OpClass, concurrency: nat, maxQueue: nat, id: nat, to: Place)
    requires LaneInv(active, queue, place, c, concurrency, maxQueue)
    requires to != Running(c) && to != Waiting(c)
    requires id in place ==> place[id] != Running(c) && place[id] != Waiting(c)
    ensures LaneInv(active, queue, place[id := to], c, concurrency, maxQueue)
  {
    PlaceChanges(place, id, to, Running(c));
    PlaceChanges(place, id, to, Waiting(c));
  }

  /** An operation leaves the queue to be rejected. */
  lemma LaneReject(active: nat, queue: seq<Op>, place: map<nat, Place>, c: OpClass, concurrency: nat, maxQueue: nat, i: nat, outcome: Outcome)
    requires LaneInv(active, queue, place, c, concurrency, maxQueue) && i < |queue|
    ensures LaneInv(active, RemoveAt(queue, i), place[queue[i].id := Settled(outcome)], c, concurrency, maxQueue)
  {
    IdsAfterRemoval(queue, i);
    PlaceChanges(place, queue[i].id, Settled(outcome), Running(c));
    PlaceChanges(place, queue[i].id, Settled(outcome), Waiting(c));
    assert place[queue[i].id] == Waiting(c);
  }

  /** The head of the queue is started. */
  lemma LaneStart(active: nat, queue: seq<Op>, place: map<nat, Place>, c: OpClass, concurrency: nat, maxQueue: nat)
    requires LaneInv(active, queue, place, c, concurrency, maxQueue) && queue != [] && active < concurrency
    ensures LaneInv(active + 1, RemoveAt(queue, 0), place[queue[0].id := Running(c)], c, concurrency, maxQueue)
  {
    IdsAfterRemoval(queue, 0);
    PlaceChanges(place, queue[0].id, Running(c), Running(c));
    PlaceChanges(place, queue[0].id, Running(c), Waiting(c));
    assert place[queue[0].id] == Waiting(c);
  }

  /** A new operation is started at once. */
  lemma LaneStartNew(active: nat, queue: seq<Op>, place: map<nat, Place>, c: OpClass, concurrency: nat, maxQueue: nat, id: nat)
    requires LaneInv(active, queue, place, c, concurrency, maxQueue) && active < concurrency && id !in place
    ensures LaneInv(active + 1, queue, place[id := Running(c)], c, concurrency, maxQueue)
  {
    PlaceChanges(place, id, Running(c), Running(c));
    PlaceChanges(place, id, Running(c), Waiting(c));
  }

  /** A new operation is queued. */
  lemma LaneQueue(active: nat, queue: seq<Op>, place: map<nat, Place>, c: OpClass, concurrency: nat, maxQueue: nat, op: Op)
    requires LaneInv(active, queue, place, c, concurrency, maxQueue) && |queue| < maxQueue
    requires op.id !in place && forall id :: id in place ==> id < op.id
    ensures LaneInv(active, queue + [op], place[op.id := Waiting(c)], c, concurrency, maxQueue)
  {
    PlaceChanges(place, op.id, Waiting(c), Running(c));
    PlaceChanges(place, op.id, Waiting(c), Waiting(c));
    assert IdsOf(queue + [op]) == IdsOf(queue) + {op.id};
    forall i | 0 <= i < |queue|
      ensures queue[i].id < op.id
    {
      assert queue[i].id in IdsOf(queue);
    }
  }

  /** A running operation is done. */
  lemma LaneFinish(active: nat, queue: seq<Op>, place: map<nat, Place>, c: OpClass, concurrency: nat, maxQueue: nat, id: nat, outcome: Outcome)
    requires LaneInv(active, queue, place, c, concurrency, maxQueue) && id in place && place[id] == Running(c)
    ensures active > 0 && LaneInv(active - 1, queue, place[id := Settled(outcome)], c, concurrency, maxQueue)
  {
    assert id in InPlace(place, Running(c));
    PlaceChanges(place, id, Settled(outcome), Running(c));
    PlaceChanges(place, id, Settled(outcome), Waiting(c));
  }

  lemma LedgerMove(place: map<nat, Place>, settlements: seq<nat>, nextId: nat, id: nat, to: Place)
    requires LedgerInv(place, settlements, nextId) && id in place && !place[id].Settled? && !to.Settled?
    ensures LedgerInv(place[id := to], settlements, nextId)
  {
  }

  lemma LedgerSettle(place: map<nat, Place>, settlements: seq<nat>, nextId: nat, id: nat, outcome: Outcome)
    requires LedgerInv(place, settlements, nextId) && id in place && !place[id].Settled?
    ensures LedgerInv(place[id := Settled(outcome)], settlements + [id], nextId)
  {
  }

  lemma LedgerNew(place: map<nat, Place>, settlements: seq<nat>, nextId: nat, to: Place)
    requires LedgerInv(place, settlements, nextId)
    ensures LedgerInv(place[nextId := to], if to.Settled? then settlements + [nextId] else settlements, nextId + 1)
  {
    assert nextId !in place;
  }

  // ---- One micro-step at a time ----

  /** The lane of another class, when an operation of class `c` moves. */
  lemma LaneElsewhere(s: State, s': State, id: nat, to: Place, c: OpClass, d: OpClass, limits: Limits)
    requires Sized(s, limits) && Sized(s', limits) && Lane(s, d, limits) && d != c
    requires s'.active[d] == s.active[d] && s'.queues[d] == s.queues[d] && s'.place == s.place[id := to]
    requires (to == Waiting(c) || to == Running(c) || to.Settled?)
    requires id in s.place ==> s.place[id] == Waiting(c) || s.place[id] == Running(c)
    requires s'.starts == s.starts || exists x :: s'.starts == s.starts + [x] && x.c == c
    ensures Lane(s', d, limits)
  {
    OtherLane(s.active[d], s.queues[d], s.place, d, limits.concurrency[d], limits.maxQueueSizeByClass[d], id, to);
  }

  lemma RejectKeepsCore(s: State, c: OpClass, i: nat, outcome: Outcome, limits: Limits)
    requires Core(s, limits) && i < |s.queues[c]|
    ensures Core(Settle(Unqueue(s, c, i), s.queues[c][i].id, outcome), limits)
  {
    var id := s.queues[c][i].id;
    var s' := Settle(Unqueue(s, c, i), id, outcome);
    assert Lane(s, c, limits);
    IdsAfterRemoval(s.queues[c], i);
    assert s.place[id] == Waiting(c);
    LaneReject(s.active[c], s.queues[c], s.place, c, limits.concurrency[c], limits.maxQueueSizeByClass[c], i, outcome);
    assert Lane(s', c, limits);
    forall d: OpClass | d != c
      ensures Lane(s', d, limits)
    {
      LaneElsewhere(s, s', id, Settled(outcome), c, d, limits);
    }
    LedgerSettle(s.place, s.settlements, s.nextId, id, outcome);
  }

  lemma StartsGrow(starts: seq<Start>, x: Start, nextId: nat, queue: seq<Op>)
    requires StartsInv(starts, nextId) && StartedBefore(starts, x.c, queue) && Increasing(queue)
    requires queue != [] && queue[0].id == x.id && x.id < nextId
    requires !x.aborted && !IsPastDeadline(x.deadlineAt, x.at)
    ensures StartsInv(starts + [x], nextId) && StartedBefore(starts + [x], x.c, RemoveAt(queue, 0))
  {
  }

  lemma StartKeepsCore(s: State, c: OpClass, now: int, limits: Limits)
    requires Core(s, limits) && s.queues[c] != [] && s.active[c] < limits.concurrency[c]
    requires var op := s.queues[c][0]; !(op.signal && op.id in s.aborted) && !IsPastDeadline(op.deadlineAt, now)
    ensures Core(StartOp(Unqueue(s, c, 0), s.queues[c][0], c, now), limits)
  {
    var op := s.queues[c][0];
    var s' := StartOp(Unqueue(s, c, 0), op, c, now);
    assert Lane(s, c, limits);
    IdsAfterRemoval(s.queues[c], 0);
    assert s.place[op.id] == Waiting(c);
    StartsGrow(s.starts, s'.starts[|s.starts|], s.nextId, s.queues[c]);
    LaneStart(s.active[c], s.queues[c], s.place, c, limits.concurrency[c], limits.maxQueueSizeByClass[c]);
    assert Lane(s', c, limits);
    forall d: OpClass | d != c
      ensures Lane(s', d, limits)
    {
      LaneElsewhere(s, s', op.id, Running(c), c, d, limits);
    }
    LedgerMove(s.place, s.settlements, s.nextId, op.id, Running(c));
  }

  /** Only class `c` is touched. */
  ghost predicate OnlyClass(s: State, s': State, c: OpClass) {
    && Total(s.active) && Total(s.queues) && Total(s'.active) && Total(s'.queues)
    && forall d: OpClass :: d != c ==> s'.active[d] == s.active[d] && s'.queues[d] == s.queues[d]
  }

  lemma DrainOneKeepsCore(s: State, c: OpClass, now: int, limits: Limits)
    requires Core(s, limits) && s.queues[c] != [] && s.active[c] < limits.concurrency[c]
    ensures Core(DrainOne(s, c, now), limits) && OnlyClass(s, DrainOne(s, c, now), c)
    ensures DrainOne(s, c, now).aborted == s.aborted && DrainOne(s, c, now).nextId == s.nextId
  {
    var op := s.queues[c][0];
    if op.signal && op.id in s.aborted {
      RejectKeepsCore(s, c, 0, Cancelled, limits);
    } else if IsPastDeadline(op.deadlineAt, now) {
      RejectKeepsCore(s, c, 0, DeadlineExceeded, limits);
    } else {
      StartKeepsCore(s, c, now, limits);
    }
  }

  /** Draining keeps everything, and leaves the class full or its queue empty. */
  lemma {:induction false} DrainKeepsCore(s: State, c: OpClass, now: int, limits: Limits)
    requires Core(s, limits)
    ensures var r := Drain(s, c, now, limits); Core(r, limits) && Full(r, c, limits) && OnlyClass(s, r, c)
    ensures Drain(s, c, now, limits).aborted == s.aborted && Drain(s, c, now, limits).nextId == s.nextId
    decreases |s.queues[c]|
  {
    if s.active[c] < limits.concurrency[c] && s.queues[c] != [] {
      DrainOneKeepsCore(s, c, now, limits);
      DrainKeepsCore(DrainOne(s, c, now), c, now, limits);
    } else {
      assert Lane(s, c, limits);
    }
  }

  // ---- Steps and runs ----

  lemma CancelKeepsInv(s: State, id: nat, outcome: Outcome, limits: Limits)
    requires Inv(s, limits)
    ensures Inv(Cancel(s, id, outcome), limits)
  {
    if id in s.place && s.place[id].Waiting? {
      var c := s.place[id].c;
      var i := IndexOfId(s.queues[c], id);
      if i < |s.queues[c]| {
        RejectKeepsCore(s, c, i, outcome, limits);
        assert Full(s, c, limits);
        forall d: OpClass
          ensures Full(Cancel(s, id, outcome), d, limits)
        {
          assert Full(s, d, limits);
        }
      }
    }
  }

  /** The slot of a running operation is given back. */
  function GiveBack(s: State, id: nat, c: OpClass): State
    requires c in s.active && s.active[c] > 0
  {
    Settle(s.(active := s.active[c := s.active[c] - 1]), id, Done)
  }

  lemma GiveBackKeepsCore(s: State, id: nat, c: OpClass, limits: Limits)
    requires Core(s, limits) && id in s.place && s.place[id] == Running(c)
    ensures s.active[c] > 0 && Core(GiveBack(s, id, c), limits)
  {
    assert Lane(s, c, limits);
    LaneFinish(s.active[c], s.queues[c], s.place, c, limits.concurrency[c], limits.maxQueueSizeByClass[c], id, Done);
    var s' := GiveBack(s, id, c);
    assert Lane(s', c, limits);
    forall d: OpClass | d != c
      ensures Lane(s', d, limits)
    {
      LaneElsewhere(s, s', id, Settled(Done), c, d, limits);
    }
    LedgerSettle(s.place, s.settlements, s.nextId, id, Done);
  }

  lemma FinishKeepsInv(s: State, id: nat, now: int, limits: Limits)
    requires Inv(s, limits) && id in s.place && s.place[id].Running?
    ensures s.active[s.place[id].c] > 0 && Inv(Next(s, Finish(id, now), limits), limits)
  {
    var c := s.place[id].c;
    GiveBackKeepsCore(s, id, c, limits);
    DrainKeepsCore(GiveBack(s, id, c), c, now, limits);
    var r := Drain(GiveBack(s, id, c), c, now, limits);
    forall d: OpClass
      ensures Full(r, d, limits)
    {
      assert Full(s, d, limits);
    }
  }

  /** A new operation is rejected. */
  lemma SubmitRejected(s: State, c: OpClass, outcome: Outcome, limits: Limits)
    requires Inv(s, limits)
    ensures Inv(Settle(s.(nextId := s.nextId + 1), s.nextId, outcome), limits)
  {
    var s' := Settle(s.(nextId := s.nextId + 1), s.nextId, outcome);
    forall d: OpClass
      ensures Lane(s', d, limits) && Full(s', d, limits)
    {
      assert Lane(s, d, limits) && Full(s, d, limits);
      OtherLane(s.active[d], s.queues[d], s.place, d, limits.concurrency[d], limits.maxQueueSizeByClass[d], s.nextId, Settled(outcome));
    }
    LedgerNew(s.place, s.settlements, s.nextId, Settled(outcome));
  }

  /** A new operation is started at once, which only happens when nothing of its class waits. */
  lemma SubmitStarted(s: State, op: Op, c: OpClass, now: int, limits: Limits)
    requires Inv(s, limits) && op.id == s.nextId && s.active[c] < limits.concurrency[c] && !IsPastDeadline(op.deadlineAt, now)
    ensures Inv(StartOp(s.(nextId := s.nextId + 1), op, c, now), limits)
  {
    LedgerNew(s.place, s.settlements, s.nextId, Running(c));
    LanesAfterStart(s, op, c, now, limits);
  }

  lemma LanesAfterStart(s: State, op: Op, c: OpClass, now: int, limits: Limits)
    requires Inv(s, limits) && op.id == s.nextId && s.active[c] < limits.concurrency[c]
    ensures var s' := StartOp(s.(nextId := s.nextId + 1), op, c, now);
            Sized(s', limits) && forall d: OpClass :: Lane(s', d, limits) && Full(s', d, limits)
  {
    var s' := StartOp(s.(nextId := s.nextId + 1), op, c, now);
    assert Lane(s, c, limits) && Full(s, c, limits);
    LaneStartNew(s.active[c], s.queues[c], s.place, c, limits.concurrency[c], limits.maxQueueSizeByClass[c], op.id);
    forall d: OpClass
      ensures Lane(s', d, limits) && Full(s', d, limits)
    {
      assert Lane(s, d, limits) && Full(s, d, limits);
      if d != c {
        LaneElsewhere(s, s', op.id, Running(c), c, d, limits);
      }
    }
  }

  lemma SubmitQueued(s: State, op: Op, c: OpClass, limits: Limits)
    requires Inv(s, limits) && op.id == s.nextId && s.active[c] == limits.concurrency[c]
    requires s.totalQueued < limits.maxQueueSize && |s.queues[c]| < limits.maxQueueSizeByClass[c]
    ensures Inv(s.(nextId := s.nextId + 1, queues := s.queues[c := s.queues[c] + [op]], totalQueued := s.totalQueued + 1,
                   place := s.place[op.id := Waiting(c)]), limits)
  {
    var s' := s.(nextId := s.nextId + 1, queues := s.queues[c := s.queues[c] + [op]], totalQueued := s.totalQueued + 1,
                 place := s.place[op.id := Waiting(c)]);
    assert Lane(s, c, limits);
    LedgerNew(s.place, s.settlements, s.nextId, Waiting(c));
    LaneQueue(s.active[c], s.queues[c], s.place, c, limits.concurrency[c], limits.maxQueueSizeByClass[c], op);
    forall d: OpClass
      ensures Lane(s', d, limits) && Full(s', d, limits)
    {
      assert Lane(s, d, limits) && Full(s, d, limits);
      if d != c {
        LaneElsewhere(s, s', op.id, Waiting(c), c, d, limits);
      }
    }
  }

  lemma SubmitKeepsInv(s: State, op: Op, c: OpClass, aborted: bool, now: int, limits: Limits)
    requires Inv(s, limits) && op.id == s.nextId
    ensures Inv(SubmitOp(s.(nextId := s.nextId + 1), op, c, aborted, now, limits), limits)
  {
    assert Lane(s, c, limits);
    if op.signal && aborted {
      SubmitRejected(s, c, Cancelled, limits);
    } else if IsPastDeadline(op.deadlineAt, now) {
      SubmitRejected(s, c, DeadlineExceeded, limits);
    } else if s.active[c] < limits.concurrency[c] {
      SubmitStarted(s, op, c, now, limits);
    } else if s.totalQueued >= limits.maxQueueSize || |s.queues[c]| >= limits.maxQueueSizeByClass[c] {
      SubmitRejected(s, c, Busy, limits);
    } else {
      SubmitQueued(s, op, c, limits);
    }
  }

  /** A signal only aborts for operations that were submitted with it. */
  ghost predicate ValidStep(s: State, step: Step) {
    step.SignalAborts? ==> step.id < s.nextId
  }

  lemma SignalKeepsInv(s: State, id: nat, limits: Limits)
    requires Inv(s, limits) && id < s.nextId
    ensures Inv(s.(aborted := s.aborted + {id}), limits)
  {
    forall d: OpClass
      ensures Lane(s.(aborted := s.aborted + {id}), d, limits) && Full(s.(aborted := s.aborted + {id}), d, limits)
    {
      assert Lane(s, d, limits) && Full(s, d, limits);
    }
  }

  lemma SubmitStepKeepsInv(s: State, step: Step, limits: Limits)
    requires Inv(s, limits) && step.Submit?
    ensures Inv(Next(s, step, limits), limits)
  {
    SubmitKeepsInv(s, Op(s.nextId, step.signal, step.deadlineAt), step.c, step.aborted, step.now, limits);
  }

  lemma CancelStepKeepsInv(s: State, step: Step, limits: Limits)
    requires Inv(s, limits) && (step.AbortListener? || step.DeadlineTimer?)
    ensures Inv(Next(s, step, limits), limits)
  {
    CancelKeepsInv(s, step.id, if step.AbortListener? then Cancelled else DeadlineExceeded, limits);
  }

  lemma FinishStepKeepsInv(s: State, step: Step, limits: Limits)
    requires Inv(s, limits) && step.Finish?
    ensures Inv(Next(s, step, limits), limits)
  {
    if step.id in s.place && s.place[step.id].Running? {
      FinishKeepsInv(s, step.id, step.now, limits);
    }
  }

  lemma NextKeepsInv(s: State, step: Step, limits: Limits)
    requires Inv(s, limits) && ValidStep(s, step)
    ensures Inv(Next(s, step, limits), limits)
  {
    match step {
      case Submit(_, _, _, _, _) => SubmitStepKeepsInv(s, step, limits);
      case SignalAborts(id) => SignalKeepsInv(s, id, limits);
      case AbortListener(_) => CancelStepKeepsInv(s, step, limits);
      case DeadlineTimer(_) => CancelStepKeepsInv(s, step, limits);
      case Finish(_, _) => FinishStepKeepsInv(s, step, limits);
    }
  }

  function Initial(): State {
    State(map[Light := 0, Heavy := 0, Process := 0, Document := 0], map[Light := [], Heavy := [], Process := [], Document := []],
          0, 0, {}, map[], [], [])
  }

  lemma InitialInv(limits: Limits)
    requires Total(limits.concurrency) && Total(limits.maxQueueSizeByClass)
    requires forall c: OpClass :: limits.concurrency[c] > 0
    ensures Inv(Initial(), limits)
  {
    forall c: OpClass
      ensures c in Initial().active && c in Initial().queues
    {
      match c { case Light => case Heavy => case Process => case Document => }
    }
    forall c: OpClass
      ensures Lane(Initial(), c, limits)
    {
      match c { case Light => case Heavy => case Process => case Document => }
      assert InPlace(map[], Running(c)) == {} && InPlace(map[], Waiting(c)) == {} && IdsOf([]) == {};
    }
  }

  /** The states of a run from `s`, first to last. */
  ghost predicate IsRun(states: seq<State>, steps: seq<Step>, limits: Limits)
    requires Total(limits.concurrency) && Total(limits.maxQueueSizeByClass)
  {
    && |states| == |steps| + 1
    && states[0] == Initial()
    && forall i :: 0 <= i < |steps| ==>
         Sized(states[i], limits) && ValidStep(states[i], steps[i]) && states[i + 1] == Next(states[i], steps[i], limits)
  }

  /** Over every run: limits are respected, a waiting operation means its class is full, starts
      follow the order of arrival and never happen to an aborted or late operation, and every
      operation is queued, running or settled exactly once. */
  lemma {:induction false} EveryStateIsGood(states: seq<State>, steps: seq<Step>, limits: Limits, i: nat)
    requires Total(limits.concurrency) && Total(limits.maxQueueSizeByClass)
    requires forall c: OpClass :: limits.concurrency[c] > 0
    requires IsRun(states, steps, limits) && i < |states|
    ensures Inv(states[i], limits)
  {
    if i == 0 {
      InitialInv(limits);
    } else {
      EveryStateIsGood(states, steps, limits, i - 1);
      NextKeepsInv(states[i - 1], steps[i - 1], limits);
    }
  }
}
