/** Model of the admission queue in src/mcp/handler.ts (`createOperationHandler`).

    One step is one stretch of code between awaits: a request arrives, a running one releases its
    slot, a queue timer fires. Requesters are only compared. */
module McpQueue {
  import opened JavaScript
  import opened Wrappers

  datatype Entry<R> = Entry(id: nat, requester: R)

  /** The closure variables, and what happened so far. */
  datatype State<R> = State(
    active: nat,
    queue: seq<Entry<R>>,
    lastRequester: Option<R>,
    nextId: nat,
    dequeued: seq<Entry<R>>,   // in order
    arrivals: nat,
    released: nat,
    rejected: nat,
    timedOut: nat
  )

  datatype Limits = Limits(maxConcurrent: nat, maxQueued: nat)

  datatype Step<R> = Arrive(requester: R) | Release | Timeout(id: nat)

  /** The first entry of another requester, or `|queue|`. */
  function FirstOther<R(==)>(queue: seq<Entry<R>>, requester: R): (i: nat)
    ensures i <= |queue| && (i < |queue| ==> queue[i].requester != requester)
    ensures forall j :: 0 <= j < i ==> queue[j].requester == requester
  {
    FindIndex(queue, (e: Entry<R>) => e.requester != requester)
  }

  /** Alternates: the first entry of a requester other than the one served last, if there is one. */
  function NextIndex<R(==)>(queue: seq<Entry<R>>, lastRequester: Option<R>): (i: nat)
    requires queue != []
    ensures i < |queue|
  {
    if lastRequester.None? then 0
    else
      var alternate := FirstOther(queue, lastRequester.value);
      if alternate < |queue| then alternate else 0
  }

  /** One entry leaves the queue for a slot. */
  function Dequeue<R(==)>(s: State<R>): State<R>
    requires s.queue != []
  {
    var i := NextIndex(s.queue, s.lastRequester);
    s.(queue := RemoveAt(s.queue, i), active := s.active + 1, lastRequester := Some(s.queue[i].requester),
       dequeued := s.dequeued + [s.queue[i]])
  }

  /** `startNextFromQueue` */
  function Drain<R(==)>(s: State<R>, limits: Limits): State<R>
    decreases |s.queue|
  {
    if s.active < limits.maxConcurrent && s.queue != [] then Drain(Dequeue(s), limits) else s
  }

  function IndexOfId<R>(queue: seq<Entry<R>>, id: nat): (i: nat)
    ensures i <= |queue| && (i < |queue| ==> queue[i].id == id)
    ensures forall j :: 0 <= j < i ==> queue[j].id != id
  {
    FindIndex(queue, (e: Entry<R>) => e.id == id)
  }

  /** A running request gives its slot back. */
  function Freed<R>(s: State<R>): State<R>
    requires s.active > 0
  {
    s.(active := s.active - 1, released := s.released + 1)
  }

  function Next<R(==)>(s: State<R>, step: Step<R>, limits: Limits): State<R> {
    match step
    case Arrive(requester) =>
      var s := s.(arrivals := s.arrivals + 1);
      if s.active < limits.maxConcurrent then s.(active := s.active + 1)
      else if |s.queue| >= limits.maxQueued then s.(rejected := s.rejected + 1)
      else s.(queue := s.queue + [Entry(s.nextId, requester)], nextId := s.nextId + 1)
    case Release =>
      if s.active == 0 then Drain(s, limits)
      else Drain(Freed(s), limits)
    case Timeout(id) =>
      var i := IndexOfId(s.queue, id);
      if i == |s.queue| then s else s.(queue := RemoveAt(s.queue, i), timedOut := s.timedOut + 1)
  }

  function Run<R(==)>(s: State<R>, steps: seq<Step<R>>, limits: Limits): State<R> {
    if steps == [] then s
    else Next(Run(s, steps[..|steps| - 1], limits), steps[|steps| - 1], limits)
  }

  function Initial<R>(): State<R> { State(0, [], None, 0, [], 0, 0, 0, 0) }

  // ---- Capacity, work conservation and accounting ----

  ghost predicate Inv<R>(s: State<R>, limits: Limits) {
    && s.active <= limits.maxConcurrent
    && |s.queue| <= limits.maxQueued
    && (s.queue != [] ==> s.active == limits.maxConcurrent)
    && s.arrivals == s.active + |s.queue| + s.released + s.rejected + s.timedOut
    && Tickets(s.queue, s.dequeued, s.nextId)
  }

  /** Entries keep the order they came in; a requester's entries are started in that order. */
  ghost predicate Tickets<R>(queue: seq<Entry<R>>, dequeued: seq<Entry<R>>, nextId: nat) {
    && Increasing(queue)
    && (forall i :: 0 <= i < |queue| ==> queue[i].id < nextId)
    && (forall i :: 0 <= i < |dequeued| ==> dequeued[i].id < nextId)
    && (forall i, j :: 0 <= i < |dequeued| && 0 <= j < |queue| && dequeued[i].requester == queue[j].requester ==>
          dequeued[i].id < queue[j].id)
    && (forall i, j :: 0 <= i < j < |dequeued| && dequeued[i].requester == dequeued[j].requester ==>
          dequeued[i].id < dequeued[j].id)
  }

  ghost predicate Increasing<R>(queue: seq<Entry<R>>) {
    forall i, j :: 0 <= i < j < |queue| ==> queue[i].id < queue[j].id
  }

  /** What a dequeue takes is the oldest entry of its requester. */
  lemma DequeueKeepsTickets<R>(queue: seq<Entry<R>>, dequeued: seq<Entry<R>>, nextId: nat, lastRequester: Option<R>)
    requires queue != [] && Tickets(queue, dequeued, nextId)
    ensures var i := NextIndex(queue, lastRequester); Tickets(RemoveAt(queue, i), dequeued + [queue[i]], nextId)
  {
    var i := NextIndex(queue, lastRequester);
    assert forall j :: 0 <= j < i ==> queue[j].requester != queue[i].requester;
  }

  lemma ArriveKeepsTickets<R>(queue: seq<Entry<R>>, dequeued: seq<Entry<R>>, nextId: nat, requester: R)
    requires Tickets(queue, dequeued, nextId)
    ensures Tickets(queue + [Entry(nextId, requester)], dequeued, nextId + 1)
  {
  }

  lemma TimeoutKeepsTickets<R>(queue: seq<Entry<R>>, dequeued: seq<Entry<R>>, nextId: nat, i: nat)
    requires Tickets(queue, dequeued, nextId) && i < |queue|
    ensures Tickets(RemoveAt(queue, i), dequeued, nextId)
  {
  }

  /** Draining after a release starts at most one entry. */
  lemma ReleaseStartsAtMostOne<R>(s: State<R>, limits: Limits)
    requires Inv(s, limits) && limits.maxConcurrent >= 1
    ensures Next(s, Release, limits)
            == if s.active == 0 then s else if s.queue == [] then Freed(s) else Dequeue(Freed(s))
  {
    if s.queue != [] {
      var started := Dequeue(Freed(s));
      assert Drain(started, limits) == started;
    }
  }

  lemma NextKeepsInv<R>(s: State<R>, step: Step<R>, limits: Limits)
    requires Inv(s, limits) && limits.maxConcurrent >= 1
    ensures Inv(Next(s, step, limits), limits)
  {
    match step {
      case Arrive(requester) => ArriveKeepsTickets(s.queue, s.dequeued, s.nextId, requester);
      case Release =>
        ReleaseStartsAtMostOne(s, limits);
        if s.queue != [] {
          DequeueKeepsTickets(s.queue, s.dequeued, s.nextId, s.lastRequester);
        }
      case Timeout(id) =>
        if IndexOfId(s.queue, id) < |s.queue| {
          TimeoutKeepsTickets(s.queue, s.dequeued, s.nextId, IndexOfId(s.queue, id));
        }
    }
  }

  /** Over every run: the limits hold, a waiting entry means every slot is busy, every arrival is
      accounted for once, and each requester is served in the order it asked. */
  lemma {:induction false} RunKeepsInv<R>(steps: seq<Step<R>>, limits: Limits)
    requires limits.maxConcurrent >= 1
    ensures Inv(Run(Initial(), steps, limits), limits)
  {
    if steps == [] {
    } else {
      RunKeepsInv(steps[..|steps| - 1], limits);
      NextKeepsInv(Run(Initial(), steps[..|steps| - 1], limits), steps[|steps| - 1], limits);
    }
  }

  // ---- Alternation ----

  /** The requester of the last entry that left the queue for a slot. */
  function LastServed<R>(dequeued: seq<Entry<R>>): Option<R> {
    if dequeued == [] then None else Some(dequeued[|dequeued| - 1].requester)
  }

  /** The entry at `i` is the first one that waits for a requester other than the one served last;
      if nobody else waits, or nobody was served yet, it is the head. */
  ghost predicate TakesTurns<R>(queue: seq<Entry<R>>, served: Option<R>, i: nat) {
    && i < |queue|
    && (if served.Some? && exists e :: e in queue && e.requester != served.value then
          queue[i].requester != served.value && forall j :: 0 <= j < i ==> queue[j].requester == served.value
        else i == 0)
  }

  lemma NextTakesTurns<R>(queue: seq<Entry<R>>, served: Option<R>)
    requires queue != []
    ensures TakesTurns(queue, served, NextIndex(queue, served))
  {
  }

  lemma {:induction false} LastRequesterIsLastServed<R>(steps: seq<Step<R>>, limits: Limits)
    requires limits.maxConcurrent >= 1
    ensures var s := Run(Initial(), steps, limits); s.lastRequester == LastServed(s.dequeued)
  {
    if steps == [] {
    } else {
      var front, last := steps[..|steps| - 1], steps[|steps| - 1];
      LastRequesterIsLastServed(front, limits);
      RunKeepsInv(front, limits);
      if last.Release? {
        ReleaseStartsAtMostOne(Run(Initial(), front, limits), limits);
      }
    }
  }

  /** The `i`th entry left the queue for a slot, in its turn. */
  ghost predicate Served<R>(s: State<R>, t: State<R>, i: nat) {
    var served := LastServed(s.dequeued);
    && TakesTurns(s.queue, served, i)
    && t.dequeued == s.dequeued + [s.queue[i]] && t.queue == s.queue[..i] + s.queue[i + 1..]
    && (served == Some(s.queue[i].requester) ==> forall e :: e in s.queue ==> e.requester == served.value)
  }

  lemma ReleaseServes<R>(s: State<R>, limits: Limits)
    requires Inv(s, limits) && limits.maxConcurrent >= 1 && s.lastRequester == LastServed(s.dequeued) && s.queue != []
    ensures exists i: nat :: Served(s, Next(s, Release, limits), i)
  {
    ReleaseStartsAtMostOne(s, limits);
    NextTakesTurns(s.queue, s.lastRequester);
    assert Served(s, Next(s, Release, limits), NextIndex(s.queue, s.lastRequester));
  }

  /** Over every run, a step takes at most one entry from the queue to a slot, and only a release
      does; the entry takes turns, so that the requester served last is served again only if nobody
      else waits. */
  lemma RequestersTakeTurns<R>(steps: seq<Step<R>>, step: Step<R>, limits: Limits)
    requires limits.maxConcurrent >= 1
    ensures var s := Run(Initial(), steps, limits);
            var t := Next(s, step, limits);
            if step.Release? && s.queue != [] then exists i: nat :: Served(s, t, i) else t.dequeued == s.dequeued
  {
    var s := Run(Initial(), steps, limits);
    RunKeepsInv(steps, limits);
    LastRequesterIsLastServed(steps, limits);
    if step.Release? {
      if s.queue != [] {
        ReleaseServes(s, limits);
      } else {
        ReleaseStartsAtMostOne(s, limits);
      }
    }
  }

  /** What becomes of a request, a queue timer and a release; `i` is where the entry of the timer is. */
  ghost predicate Accounted<R>(s: State<R>, t: State<R>, step: Step<R>, limits: Limits, i: nat)
    requires i <= |s.queue|
  {
    match step
    case Arrive(requester) =>
      if s.active < limits.maxConcurrent then t == s.(arrivals := s.arrivals + 1, active := s.active + 1)
      else if |s.queue| >= limits.maxQueued then t == s.(arrivals := s.arrivals + 1, rejected := s.rejected + 1)
      else t == s.(arrivals := s.arrivals + 1, queue := s.queue + [Entry(s.nextId, requester)], nextId := s.nextId + 1)
    case Timeout(id) =>
      if i < |s.queue| then t == s.(queue := s.queue[..i] + s.queue[i + 1..], timedOut := s.timedOut + 1)
      else (forall e :: e in s.queue ==> e.id != id) ==> t == s
    case Release =>
      if s.active == 0 then t == s
      else if s.queue == [] then t == s.(active := s.active - 1, released := s.released + 1)
      else t.active == s.active && t.released == s.released + 1 && |t.queue| == |s.queue| - 1
  }

  lemma NextIsAccounted<R>(s: State<R>, step: Step<R>, limits: Limits, i: nat)
    requires Inv(s, limits) && limits.maxConcurrent >= 1
    requires i <= |s.queue| && (i < |s.queue| && step.Timeout? ==> s.queue[i].id == step.id)
    ensures Accounted(s, Next(s, step, limits), step, limits, i)
  {
    match step {
      case Arrive(_) =>
      case Timeout(id) =>
        if i < |s.queue| {
          assert IndexOfId(s.queue, id) == i;
        }
      case Release => ReleaseStartsAtMostOne(s, limits);
    }
  }

  /** Over every run: a request starts if a slot is free, else is rejected if the queue is full, else
      waits last; a timer takes its own entry out of the queue, if it still waits; a release hands its
      slot to a waiting entry, or frees it when nothing waits. */
  lemma EveryStepIsAccounted<R>(steps: seq<Step<R>>, step: Step<R>, limits: Limits, i: nat)
    requires limits.maxConcurrent >= 1
    requires var s := Run(Initial(), steps, limits);
             i <= |s.queue| && (i < |s.queue| && step.Timeout? ==> s.queue[i].id == step.id)
    ensures var s := Run(Initial(), steps, limits); Accounted(s, Next(s, step, limits), step, limits, i)
  {
    RunKeepsInv(steps, limits);
    NextIsAccounted(Run(Initial(), steps, limits), step, limits, i);
  }

  // ---- Bounded overtaking ----

  /** Twice the position, plus one while the head is of the requester served last. */
  function Measure<R(==)>(s: State<R>, id: nat): nat {
    2 * IndexOfId(s.queue, id) + if s.queue != [] && s.lastRequester == Some(s.queue[0].requester) then 1 else 0
  }

  predicate Waits<R>(s: State<R>, id: nat) { IndexOfId(s.queue, id) < |s.queue| }

  lemma IndexAfterRemoval<R>(queue: seq<Entry<R>>, i: nat, id: nat)
    requires i < |queue| && IndexOfId(queue, id) < |queue| && IndexOfId(queue, id) != i
    requires Increasing(queue)
    ensures IndexOfId(RemoveAt(queue, i), id)
            == if i < IndexOfId(queue, id) then IndexOfId(queue, id) - 1 else IndexOfId(queue, id)
  {
    var k, rest := IndexOfId(queue, id), RemoveAt(queue, i);
    var k' := if i < k then k - 1 else k;
    assert rest[k'] == queue[k];
  }

  lemma IndexGone<R>(queue: seq<Entry<R>>, i: nat)
    requires i < |queue| && Increasing(queue)
    ensures IndexOfId(RemoveAt(queue, i), queue[i].id) == |queue| - 1
  {
  }

  /** A dequeue takes the entry or lowers its measure. */
  lemma DequeueLowersMeasure<R>(s: State<R>, id: nat)
    requires Waits(s, id) && Increasing(s.queue)
    ensures Waits(Dequeue(s), id) ==> Measure(Dequeue(s), id) < Measure(s, id)
  {
    var i, k := NextIndex(s.queue, s.lastRequester), IndexOfId(s.queue, id);
    if k == i {
      IndexGone(s.queue, i);
    } else {
      IndexAfterRemoval(s.queue, i, id);
    }
  }

  lemma ArriveKeepsMeasure<R>(s: State<R>, e: Entry<R>, id: nat)
    requires Waits(s, id)
    ensures IndexOfId(s.queue + [e], id) == IndexOfId(s.queue, id)
  {
    var k := IndexOfId(s.queue, id);
    assert (s.queue + [e])[k] == s.queue[k];
  }

  /** A timeout takes the entry or does not raise its measure. */
  lemma TimeoutKeepsMeasure<R>(s: State<R>, i: nat, id: nat)
    requires Waits(s, id) && Increasing(s.queue) && i < |s.queue|
    ensures var s' := s.(queue := RemoveAt(s.queue, i), timedOut := s.timedOut + 1);
            Waits(s', id) ==> Measure(s', id) <= Measure(s, id)
  {
    if i == IndexOfId(s.queue, id) {
      IndexGone(s.queue, i);
    } else {
      IndexAfterRemoval(s.queue, i, id);
    }
  }

  lemma ReleaseLowersMeasure<R>(s: State<R>, limits: Limits, id: nat)
    requires Inv(s, limits) && limits.maxConcurrent >= 1 && Waits(s, id)
    ensures var s' := Next(s, Release, limits);
            Waits(s', id) ==> Measure(s', id) + |s'.dequeued| <= Measure(s, id) + |s.dequeued|
  {
    ReleaseStartsAtMostOne(s, limits);
    DequeueLowersMeasure(Freed(s), id);
  }

  /** No step raises the measure, and a dequeue lowers it. */
  lemma NextLowersMeasure<R>(s: State<R>, step: Step<R>, limits: Limits, id: nat)
    requires Inv(s, limits) && limits.maxConcurrent >= 1 && Waits(s, id)
    ensures var s' := Next(s, step, limits);
            Waits(s', id) ==> Measure(s', id) + |s'.dequeued| <= Measure(s, id) + |s.dequeued|
  {
    match step {
      case Arrive(requester) => ArriveKeepsMeasure(s, Entry(s.nextId, requester), id);
      case Release => ReleaseLowersMeasure(s, limits, id);
      case Timeout(other) =>
        if IndexOfId(s.queue, other) < |s.queue| {
          TimeoutKeepsMeasure(s, IndexOfId(s.queue, other), id);
        }
    }
  }

  /** An entry that has left the queue does not come back. */
  lemma GoneForGood<R>(s: State<R>, step: Step<R>, limits: Limits, id: nat)
    requires Inv(s, limits) && limits.maxConcurrent >= 1 && id < s.nextId
    ensures !Waits(s, id) ==> !Waits(Next(s, step, limits), id)
    ensures s.nextId <= Next(s, step, limits).nextId
  {
    if step.Release? {
      ReleaseStartsAtMostOne(s, limits);
    }
  }

  lemma {:induction false} RunLowersMeasure<R>(s: State<R>, steps: seq<Step<R>>, limits: Limits, id: nat)
    requires Inv(s, limits) && limits.maxConcurrent >= 1 && Waits(s, id)
    ensures var s' := Run(s, steps, limits);
            && Inv(s', limits) && id < s'.nextId
            && (Waits(s', id) ==> Measure(s', id) + |s'.dequeued| <= Measure(s, id) + |s.dequeued|)
  {
    if steps == [] {
      assert s.queue[IndexOfId(s.queue, id)].id < s.nextId;
    } else {
      var before, last := Run(s, steps[..|steps| - 1], limits), steps[|steps| - 1];
      RunLowersMeasure(s, steps[..|steps| - 1], limits, id);
      NextKeepsInv(before, last, limits);
      GoneForGood(before, last, limits, id);
      if Waits(before, id) {
        NextLowersMeasure(before, last, limits, id);
      }
    }
  }

  /** Bounded overtaking: an entry at position `k` has left the queue after 2k + 2 dequeues,
      whatever arrives or times out meanwhile. */
  lemma BoundedOvertaking<R>(s: State<R>, steps: seq<Step<R>>, limits: Limits, k: nat)
    requires Inv(s, limits) && limits.maxConcurrent >= 1 && k < |s.queue|
    requires |Run(s, steps, limits).dequeued| >= |s.dequeued| + 2 * k + 2
    ensures forall e :: e in Run(s, steps, limits).queue ==> e.id != s.queue[k].id
  {
    var id := s.queue[k].id;
    assert IndexOfId(s.queue, id) == k;
    RunLowersMeasure(s, steps, limits, id);
  }

  // ---- The closure ----

  datatype AcquireResult = Started | Rejected | Queued(id: nat)

  class OperationHandler<R(==)> {
    const limits: Limits
    var activeRequests: nat
    var queue: seq<Entry<R>>
    var lastDequeuedRequester: Option<R>
    var rejectedRequests: nat
    var queueTimeouts: nat
    var nextId: nat
    ghost var dequeued: seq<Entry<R>>
    ghost var arrivals: nat
    ghost var released: nat

    ghost function Abs(): State<R>
      reads this
    {
      State(activeRequests, queue, lastDequeuedRequester, nextId, dequeued, arrivals, released, rejectedRequests, queueTimeouts)
    }

    ghost predicate Valid()
      reads this
    {
      limits.maxConcurrent >= 1 && Inv(Abs(), limits)
    }

    /** The limits are raised to at least one slot (`Math.max(1, …)`) and no negative queue. */
    constructor (maxConcurrentOperations: int, maxQueuedOperations: int)
      ensures Valid() && Abs() == Initial()
      ensures limits.maxConcurrent == (if maxConcurrentOperations > 1 then maxConcurrentOperations else 1)
      ensures limits.maxQueued == (if maxQueuedOperations > 0 then maxQueuedOperations else 0)
    {
      limits := Limits(if maxConcurrentOperations > 1 then maxConcurrentOperations else 1,
                       if maxQueuedOperations > 0 then maxQueuedOperations else 0);
      activeRequests, queue, lastDequeuedRequester := 0, [], None;
      rejectedRequests, queueTimeouts, nextId := 0, 0, 0;
      dequeued, arrivals, released := [], 0, 0;
    }

    method StartNextFromQueue()
      modifies `activeRequests, `queue, `lastDequeuedRequester, `dequeued
      ensures Abs() == Drain(old(Abs()), limits)
    {
      while activeRequests < limits.maxConcurrent && |queue| > 0
        invariant Drain(Abs(), limits) == Drain(old(Abs()), limits)
        decreases |queue|
      {
        StartOne();
      }
    }

    /** One round of the loop. */
    method StartOne()
      requires queue != []
      modifies `activeRequests, `queue, `lastDequeuedRequester, `dequeued
      ensures Abs() == Dequeue(old(Abs()))
    {
      var index := NextIndex(queue, lastDequeuedRequester);
      var queued := queue[index];
      queue := RemoveAt(queue, index);
      lastDequeuedRequester := Some(queued.requester);
      activeRequests := activeRequests + 1;
      dequeued := dequeued + [queued];
    }

    /** A release only follows a start, so there is an active request. */
    method ReleaseSlot()
      requires Valid()
      modifies this
      ensures Valid() && Abs() == Next(old(Abs()), Release, limits)
    {
      NextKeepsInv(Abs(), Release, limits);
      if activeRequests > 0 {
        FreeSlot();
      }
      StartNextFromQueue();
    }

    method FreeSlot()
      requires activeRequests > 0
      modifies `activeRequests, `released
      ensures Abs() == Freed(old(Abs()))
    {
      activeRequests := activeRequests - 1;
      released := released + 1;
    }

    method AcquireSlot(requester: R) returns (result: AcquireResult)
      requires Valid()
      modifies this
      ensures Valid() && Abs() == Next(old(Abs()), Arrive(requester), limits)
      ensures result.Started? <==> old(activeRequests) < limits.maxConcurrent
      ensures result.Rejected? <==> old(activeRequests) == limits.maxConcurrent && old(|queue|) == limits.maxQueued
      ensures result.Queued? ==> result.id == old(nextId)
    {
      NextKeepsInv(Abs(), Arrive(requester), limits);
      arrivals := arrivals + 1;
      if activeRequests < limits.maxConcurrent {
        activeRequests := activeRequests + 1;
        return Started;
      }
      if |queue| >= limits.maxQueued {
        rejectedRequests := rejectedRequests + 1;
        return Rejected;
      }
      result := Queued(nextId);
      queue := queue + [Entry(nextId, requester)];
      nextId := nextId + 1;
    }

    /** The queue timer of an entry; nothing happens when it was started before. */
    method QueueTimeout(id: nat)
      requires Valid()
      modifies `queue, `queueTimeouts
      ensures Valid() && Abs() == Next(old(Abs()), Timeout(id), limits)
    {
      NextKeepsInv(Abs(), Timeout(id), limits);
      var index := IndexOfId(queue, id);
      if index == |queue| {
        return;
      }
      queue := RemoveAt(queue, index);
      queueTimeouts := queueTimeouts + 1;
    }
  }
}
