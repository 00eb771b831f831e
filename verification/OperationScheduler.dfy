/** The class of src/core/operation-scheduler.ts, proved against the functions of SchedulerSpec. */
module OperationSchedulers {
  import opened JavaScript
  import opened Wrappers
  import opened SchedulerSpec

  /** What a submission comes to before its first await. */
  datatype RunResult = StartedNow | QueuedBehind | RejectedWith(outcome: Outcome)

  class OperationScheduler {
    const limits: Limits
    var active: map<OpClass, nat>
    var queues: map<OpClass, seq<Op>>
    var totalQueued: int
    /** Stands for the identity of the queued objects. */
    var nextId: nat
    /** The state of the operations' abort signals. */
    var aborted: set<nat>
    ghost var place: map<nat, Place>
    ghost var starts: seq<Start>
    ghost var settlements: seq<nat>

    ghost function Abs(): State
      reads this
    {
      State(active, queues, totalQueued, nextId, aborted, place, starts, settlements)
    }

    ghost predicate Valid()
      reads this
    {
      Inv(Abs(), limits)
    }

    /** Limits are validated: concurrency is positive, queue sizes are not negative. */
    constructor (limits: Limits)
      requires Total(limits.concurrency) && Total(limits.maxQueueSizeByClass)
      requires forall c: OpClass :: limits.concurrency[c] > 0
      ensures Valid() && this.limits == limits && Abs() == Initial()
    {
      this.limits := limits;
      active := map[Light := 0, Heavy := 0, Process := 0, Document := 0];
      queues := map[Light := [], Heavy := [], Process := [], Document := []];
      totalQueued, nextId, aborted := 0, 0, {};
      place, starts, settlements := map[], [], [];
      new;
      InitialInv(limits);
    }

    ghost method RecordSettlement(id: nat, outcome: Outcome)
      modifies `place, `settlements
      ensures Abs() == Settle(old(Abs()), id, outcome)
    {
      place := place[id := Settled(outcome)];
      settlements := settlements + [id];
    }

    ghost method RecordStart(op: Op, c: OpClass, now: int)
      modifies `place, `starts
      ensures place == old(place)[op.id := Running(c)]
      ensures starts == old(starts) + [Start(op.id, c, now, op.deadlineAt, op.signal && op.id in aborted)]
    {
      place := place[op.id := Running(c)];
      starts := starts + [Start(op.id, c, now, op.deadlineAt, op.signal && op.id in aborted)];
    }

    /** `run`, up to its first await. */
    method Run(c: OpClass, signal: bool, signalAborted: bool, deadlineAt: Option<int>, now: int) returns (result: RunResult)
      requires Valid()
      modifies this
      ensures Valid() && Abs() == Next(old(Abs()), Submit(c, signal, signalAborted, deadlineAt, now), limits)
      ensures old(nextId) in place
      ensures place[old(nextId)] == match result case StartedNow => Running(c) case QueuedBehind => Waiting(c) case RejectedWith(o) => Settled(o)
    {
      NextKeepsInv(Abs(), Submit(c, signal, signalAborted, deadlineAt, now), limits);
      nextId := nextId + 1;
      result := Admit(c, Op(nextId - 1, signal, deadlineAt), signalAborted, now);
    }

    method Admit(c: OpClass, op: Op, signalAborted: bool, now: int) returns (result: RunResult)
      requires c in active && c in queues && c in limits.concurrency && c in limits.maxQueueSizeByClass
      modifies `active, `queues, `totalQueued, `place, `starts, `settlements
      ensures Abs() == SubmitOp(old(Abs()), op, c, signalAborted, now, limits)
      ensures op.id in place
      ensures place[op.id] == match result case StartedNow => Running(c) case QueuedBehind => Waiting(c) case RejectedWith(o) => Settled(o)
    {
      if op.signal && signalAborted {
        RecordSettlement(op.id, Cancelled);
        return RejectedWith(Cancelled);
      }
      if IsPastDeadline(op.deadlineAt, now) {
        RecordSettlement(op.id, DeadlineExceeded);
        return RejectedWith(DeadlineExceeded);
      }
      if active[c] < limits.concurrency[c] {
        active := active[c := active[c] + 1];
        RecordStart(op, c, now);
        return StartedNow;
      }
      if totalQueued >= limits.maxQueueSize {
        RecordSettlement(op.id, Busy);
        return RejectedWith(Busy);
      }
      if |queues[c]| >= limits.maxQueueSizeByClass[c] {
        RecordSettlement(op.id, Busy);
        return RejectedWith(Busy);
      }
      queues := queues[c := queues[c] + [op]];
      totalQueued := totalQueued + 1;
      place := place[op.id := Waiting(c)];
      result := QueuedBehind;
    }

    /** `cancel` for an operation that was queued in class `c`. */
    method CancelQueued(c: OpClass, id: nat, outcome: Outcome)
      requires c in queues && id in place && (place[id].Waiting? ==> place[id] == Waiting(c))
      requires IndexOfId(queues[c], id) < |queues[c]| ==> place[id] == Waiting(c)
      modifies `queues, `totalQueued, `place, `settlements
      ensures Abs() == Cancel(old(Abs()), id, outcome)
    {
      var index := IndexOfId(queues[c], id);
      if index < |queues[c]| {
        queues := queues[c := RemoveAt(queues[c], index)];
        totalQueued := totalQueued - 1;
        RecordSettlement(id, outcome);
      }
    }

    /** The abort listener of an operation that was queued in class `c`; it does nothing once the
        operation has started or was rejected. */
    method OnAbort(c: OpClass, id: nat)
      requires Valid() && id in aborted && id in place && (place[id].Waiting? ==> place[id] == Waiting(c))
      requires WaitingOp(Abs(), id).Some? ==> WaitingOp(Abs(), id).value.signal
      modifies this
      ensures Valid() && Abs() == Next(old(Abs()), AbortListener(id), limits)
    {
      QueuedMeansWaiting(Abs(), c, id, limits);
      NextKeepsInv(Abs(), AbortListener(id), limits);
      CancelQueued(c, id, Cancelled);
    }

    /** The deadline timer of an operation that was queued in class `c`. */
    method OnDeadline(c: OpClass, id: nat)
      requires Valid() && id in place && (place[id].Waiting? ==> place[id] == Waiting(c))
      requires WaitingOp(Abs(), id).Some? ==> WaitingOp(Abs(), id).value.deadlineAt.Some?
      modifies this
      ensures Valid() && Abs() == Next(old(Abs()), DeadlineTimer(id), limits)
    {
      QueuedMeansWaiting(Abs(), c, id, limits);
      NextKeepsInv(Abs(), DeadlineTimer(id), limits);
      CancelQueued(c, id, DeadlineExceeded);
    }

    /** One round of `drain`. */
    method DrainHead(c: OpClass, now: int)
      requires c in queues && c in active && queues[c] != []
      modifies `active, `queues, `totalQueued, `place, `starts, `settlements
      ensures Abs() == DrainOne(old(Abs()), c, now)
    {
      var queued := queues[c][0];
      queues := queues[c := RemoveAt(queues[c], 0)];
      totalQueued := totalQueued - 1;
      if queued.signal && queued.id in aborted {
        RecordSettlement(queued.id, Cancelled);
        return;
      }
      if IsPastDeadline(queued.deadlineAt, now) {
        RecordSettlement(queued.id, DeadlineExceeded);
        return;
      }
      active := active[c := active[c] + 1];
      RecordStart(queued, c, now);
    }

    method DrainClass(c: OpClass, now: int)
      requires c in queues && c in active && c in limits.concurrency
      modifies `active, `queues, `totalQueued, `place, `starts, `settlements
      ensures Abs() == Drain(old(Abs()), c, now, limits)
    {
      while active[c] < limits.concurrency[c] && |queues[c]| > 0
        invariant c in queues && c in active
        invariant Drain(Abs(), c, now, limits) == Drain(old(Abs()), c, now, limits)
        decreases |queues[c]|
      {
        DrainHead(c, now);
      }
    }

    /** The `finally` of a running operation of class `c`. */
    method OnFinished(c: OpClass, ghost id: nat, now: int)
      requires Valid() && id in place && place[id] == Running(c)
      modifies this
      ensures Valid() && Abs() == Next(old(Abs()), Finish(id, now), limits)
    {
      FinishKeepsInv(Abs(), id, now, limits);
      ReleaseAndDrain(c, id, now);
    }

    method ReleaseAndDrain(c: OpClass, ghost id: nat, now: int)
      requires c in active && active[c] > 0 && c in queues && c in limits.concurrency
      modifies `active, `queues, `totalQueued, `place, `starts, `settlements
      ensures Abs() == Drain(GiveBack(old(Abs()), id, c), c, now, limits)
    {
      active := active[c := active[c] - 1];
      RecordSettlement(id, Done);
      DrainClass(c, now);
    }
  }

  lemma QueuedMeansWaiting(s: State, c: OpClass, id: nat, limits: Limits)
    requires Inv(s, limits)
    ensures IndexOfId(s.queues[c], id) < |s.queues[c]| <==> id in s.place && s.place[id] == Waiting(c)
  {
    assert Lane(s, c, limits);
    var queue := s.queues[c];
    if IndexOfId(queue, id) < |queue| {
      assert queue[IndexOfId(queue, id)].id in IdsOf(queue);
    }
    if id in s.place && s.place[id] == Waiting(c) {
      assert id in InPlace(s.place, Waiting(c));
    }
  }
}
