/** What becomes of each operation of src/core/operation-scheduler.ts, over every run. */
module SchedulerOutcomes {
  import opened JavaScript
  import opened Wrappers
  import opened SchedulerSpec

  predicate IsLate(deadlineAt: Option<int>, now: int) { deadlineAt.Some? && deadlineAt.value <= now }

  predicate IsAborted(op: Op, aborted: set<nat>) { op.signal && op.id in aborted }

  predicate IsDead(op: Op, aborted: set<nat>, now: int) { IsAborted(op, aborted) || IsLate(op.deadlineAt, now) }

  /** Other operations than these stay where they are. */
  ghost predicate OthersStay(before: map<nat, Place>, after: map<nat, Place>, moved: set<nat>) {
    forall id: nat :: id !in moved ==> (id in after <==> id in before) && (id in before ==> after[id] == before[id])
  }

  // ---- Submitting ----

  /** Over every run, a submission is cancelled if its signal is aborted, else exceeds its deadline if
      that is past, else runs if its class has a free slot, else is turned away as busy if one of the
      two queue limits is reached, and else waits last in its class. */
  lemma SubmissionIsPlaced(states: seq<State>, steps: seq<Step>, limits: Limits, i: nat)
    requires Total(limits.concurrency) && Total(limits.maxQueueSizeByClass)
    requires forall c: OpClass :: limits.concurrency[c] > 0
    requires IsRun(states, steps, limits) && i < |steps| && steps[i].Submit?
    ensures var s, r, id, c := states[i], states[i + 1], states[i].nextId, steps[i].c;
            var cancelled, late := steps[i].signal && steps[i].aborted, IsLate(steps[i].deadlineAt, steps[i].now);
            && Sized(s, limits) && id !in s.place && id in r.place && OthersStay(s.place, r.place, {id})
            && var free := s.active[c] < limits.concurrency[c];
               var crowded := || |s.queues[Light]| + |s.queues[Heavy]| + |s.queues[Process]| + |s.queues[Document]| >= limits.maxQueueSize
                              || |s.queues[c]| >= limits.maxQueueSizeByClass[c];
               && (r.place[id] == Settled(Cancelled) <==> cancelled)
               && (r.place[id] == Settled(DeadlineExceeded) <==> !cancelled && late)
               && (r.place[id] == Running(c) <==> !cancelled && !late && free)
               && (r.place[id] == Settled(Busy) <==> !cancelled && !late && !free && crowded)
               && (r.place[id] == Waiting(c) <==> !cancelled && !late && !free && !crowded)
               && r.queues == (if r.place[id] == Waiting(c) then s.queues[c := s.queues[c] + [Op(id, steps[i].signal, steps[i].deadlineAt)]]
                               else s.queues)
               && r.active == (if r.place[id] == Running(c) then s.active[c := s.active[c] + 1] else s.active)
  {
    EveryStateIsGood(states, steps, limits, i);
  }

  // ---- Draining ----

  /** What a dead operation is told. */
  function Reason(op: Op, aborted: set<nat>): Place {
    Settled(if IsAborted(op, aborted) then Cancelled else DeadlineExceeded)
  }

  /** `i` is where the first live operation is, or the end. */
  ghost predicate FirstLive(queue: seq<Op>, aborted: set<nat>, now: int, i: nat) {
    && i <= |queue|
    && (forall j :: 0 <= j < i ==> IsDead(queue[j], aborted, now))
    && (i < |queue| ==> !IsDead(queue[i], aborted, now))
  }

  /** The operations before the `i`th are rejected for their reason, and that one runs. */
  ghost predicate Placed(queue: seq<Op>, i: nat, c: OpClass, aborted: set<nat>, before: map<nat, Place>, after: map<nat, Place>)
    requires i <= |queue|
  {
    && (forall j :: 0 <= j < i ==> queue[j].id in after && after[queue[j].id] == Reason(queue[j], aborted))
    && (i < |queue| ==> queue[i].id in after && after[queue[i].id] == Running(c))
    && OthersStay(before, after, IdsOf(queue[..if i < |queue| then i + 1 else i]))
  }

  /** The queue behind the first live operation. */
  function Behind(queue: seq<Op>, i: nat): seq<Op>
    requires i <= |queue|
  {
    if i < |queue| then queue[i + 1..] else []
  }

  lemma StayBoth(p: map<nat, Place>, q: map<nat, Place>, r: map<nat, Place>, a: set<nat>, b: set<nat>)
    requires OthersStay(p, q, a) && OthersStay(q, r, b)
    ensures OthersStay(p, r, a + b)
  {
  }

  lemma FrontIds(queue: seq<Op>, n: nat)
    requires 0 < n <= |queue| && Increasing(queue)
    ensures IdsOf(queue[..n]) == {queue[0].id} + IdsOf(queue[1..][..n - 1])
    ensures queue[0].id !in IdsOf(queue[1..][..n - 1])
  {
    assert queue[..n] == [queue[0]] + queue[1..][..n - 1];
  }

  lemma DeadThenPlaced(queue: seq<Op>, i: nat, c: OpClass, aborted: set<nat>, before: map<nat, Place>, after: map<nat, Place>)
    requires 0 < i <= |queue| && Increasing(queue)
    requires Placed(queue[1..], i - 1, c, aborted, before[queue[0].id := Reason(queue[0], aborted)], after)
    ensures Placed(queue, i, c, aborted, before, after)
  {
    var rest := queue[1..];
    var next := before[queue[0].id := Reason(queue[0], aborted)];
    var n := if i < |queue| then i + 1 else i;
    FrontIds(queue, n);
    StayBoth(before, next, after, {queue[0].id}, IdsOf(rest[..n - 1]));
    assert after[queue[0].id] == next[queue[0].id];
    forall j | 0 <= j < i
      ensures queue[j].id in after && after[queue[j].id] == Reason(queue[j], aborted)
    {
      if j > 0 {
        assert rest[j - 1] == queue[j];
      }
    }
  }

  /** One free slot and a live head: it runs, and the drain is over. */
  lemma LiveHeadRuns(s: State, c: OpClass, now: int, limits: Limits)
    requires Sized(s, limits) && s.queues[c] != [] && s.active[c] + 1 == limits.concurrency[c]
    requires !IsDead(s.queues[c][0], s.aborted, now)
    ensures var r, queue := Drain(s, c, now, limits), s.queues[c];
            && r.queues == s.queues[c := queue[1..]] && r.active == s.active[c := s.active[c] + 1]
            && r.place == s.place[queue[0].id := Running(c)]
  {
    var t := DrainOne(s, c, now);
    assert RemoveAt(s.queues[c], 0) == s.queues[c][1..];
    assert Drain(t, c, now, limits) == t;
  }

  lemma HeadPlaced(queue: seq<Op>, c: OpClass, aborted: set<nat>, place: map<nat, Place>)
    requires queue != []
    ensures Placed(queue, 0, c, aborted, place, place[queue[0].id := Running(c)])
  {
    assert queue[..1] == [queue[0]];
    assert queue[0].id in IdsOf(queue[..1]);
  }

  lemma BehindDead(queue: seq<Op>, aborted: set<nat>, now: int, i: nat)
    requires FirstLive(queue, aborted, now, i) && i > 0 && Increasing(queue)
    ensures IsDead(queue[0], aborted, now) && FirstLive(queue[1..], aborted, now, i - 1) && Increasing(queue[1..])
    ensures Behind(queue[1..], i - 1) == Behind(queue, i)
  {
  }

  lemma UpdateTwice<V>(m: map<OpClass, V>, c: OpClass, v: V, w: V)
    ensures m[c := v][c := w] == m[c := w]
  {
  }

  /** Class `c` has one free slot if anything waits, and its first live operation is the `i`th. */
  ghost predicate OneSlot(s: State, c: OpClass, now: int, limits: Limits, i: nat) {
    && Sized(s, limits) && Increasing(s.queues[c])
    && (s.queues[c] != [] ==> s.active[c] + 1 == limits.concurrency[c])
    && FirstLive(s.queues[c], s.aborted, now, i)
  }

  lemma DrainUnfolds(s: State, c: OpClass, now: int, limits: Limits, i: nat) returns (t: State)
    requires OneSlot(s, c, now, limits, i) && s.queues[c] != []
    ensures t == DrainOne(s, c, now) && Drain(s, c, now, limits) == Drain(t, c, now, limits)
  {
    t := DrainOne(s, c, now);
  }

  /** A dead head is rejected for its reason. */
  lemma DeadHeadGoes(s: State, c: OpClass, now: int)
    requires c in s.queues && c in s.active && s.queues[c] != [] && IsDead(s.queues[c][0], s.aborted, now)
    ensures var t := DrainOne(s, c, now);
            && t.queues == s.queues[c := s.queues[c][1..]] && t.active == s.active && t.aborted == s.aborted
            && t.place == s.place[s.queues[c][0].id := Reason(s.queues[c][0], s.aborted)]
  {
    assert RemoveAt(s.queues[c], 0) == s.queues[c][1..];
  }

  lemma DeadThenDrain(s: State, c: OpClass, now: int, limits: Limits, i: nat) returns (t: State)
    requires OneSlot(s, c, now, limits, i) && i > 0
    ensures OneSlot(t, c, now, limits, i - 1) && Drain(s, c, now, limits) == Drain(t, c, now, limits)
    ensures t.queues == s.queues[c := s.queues[c][1..]] && t.active == s.active && t.aborted == s.aborted
    ensures t.place == s.place[s.queues[c][0].id := Reason(s.queues[c][0], s.aborted)]
  {
    BehindDead(s.queues[c], s.aborted, now, i);
    t := DrainUnfolds(s, c, now, limits, i);
    DeadHeadGoes(s, c, now);
  }

  /** A drain with one free slot empties the queue up to the first live operation, which takes it. */
  lemma {:induction false} DrainTakesTheFirstLive(s: State, c: OpClass, now: int, limits: Limits, i: nat, queue: seq<Op>)
    requires OneSlot(s, c, now, limits, i) && queue == s.queues[c]
    ensures var r := Drain(s, c, now, limits);
            && r.queues == s.queues[c := Behind(queue, i)]
            && r.active == if i < |queue| then s.active[c := s.active[c] + 1] else s.active
    decreases i
  {
    if queue == [] {
    } else if i == 0 {
      LiveHeadRuns(s, c, now, limits);
    } else {
      BehindDead(queue, s.aborted, now, i);
      var t := DeadThenDrain(s, c, now, limits, i);
      DrainTakesTheFirstLive(t, c, now, limits, i - 1, queue[1..]);
      UpdateTwice(s.queues, c, queue[1..], Behind(queue, i));
    }
  }

  lemma NoneDead(s: State, c: OpClass, now: int, limits: Limits)
    requires OneSlot(s, c, now, limits, 0)
    ensures Placed(s.queues[c], 0, c, s.aborted, s.place, Drain(s, c, now, limits).place)
  {
    if s.queues[c] != [] {
      LiveHeadRuns(s, c, now, limits);
      HeadPlaced(s.queues[c], c, s.aborted, s.place);
    }
  }

  /** A drain with one free slot rejects what is dead before the first live operation, which runs. */
  lemma {:induction false} DrainPlaces(s: State, c: OpClass, now: int, limits: Limits, i: nat,
                                       queue: seq<Op>, aborted: set<nat>, place: map<nat, Place>)
    requires OneSlot(s, c, now, limits, i) && queue == s.queues[c] && aborted == s.aborted && place == s.place
    ensures Placed(queue, i, c, aborted, place, Drain(s, c, now, limits).place)
    decreases i
  {
    if i == 0 {
      NoneDead(s, c, now, limits);
    } else {
      var t := DeadThenDrain(s, c, now, limits, i);
      DrainPlaces(t, c, now, limits, i - 1, queue[1..], aborted, place[queue[0].id := Reason(queue[0], aborted)]);
      DeadThenPlaced(queue, i, c, aborted, place, Drain(s, c, now, limits).place);
    }
  }

  lemma OneSlotAfterFinish(s: State, id: nat, c: OpClass, now: int, limits: Limits, i: nat) returns (t: State)
    requires Inv(s, limits) && id in s.place && s.place[id] == Running(c)
    requires FirstLive(s.queues[c], s.aborted, now, i)
    ensures s.active[c] > 0 && OneSlot(t, c, now, limits, i)
    ensures Next(s, Finish(id, now), limits) == Drain(t, c, now, limits)
    ensures t.queues == s.queues && t.active == s.active[c := s.active[c] - 1] && t.aborted == s.aborted
    ensures t.place == s.place[id := Settled(Done)]
  {
    assert Lane(s, c, limits) && Full(s, c, limits);
    assert id in InPlace(s.place, Running(c));
    t := GiveBack(s, id, c);
  }

  lemma FinishTakesTheFirstLive(s: State, id: nat, c: OpClass, now: int, limits: Limits, i: nat)
    requires Inv(s, limits) && id in s.place && s.place[id] == Running(c)
    requires FirstLive(s.queues[c], s.aborted, now, i)
    ensures s.active[c] > 0
    ensures var r, queue := Next(s, Finish(id, now), limits), s.queues[c];
            && r.queues == s.queues[c := Behind(queue, i)]
            && r.active == if i < |queue| then s.active else s.active[c := s.active[c] - 1]
  {
    var t := OneSlotAfterFinish(s, id, c, now, limits, i);
    DrainTakesTheFirstLive(t, c, now, limits, i, s.queues[c]);
    UpdateTwice(s.active, c, s.active[c] - 1, s.active[c]);
  }

  lemma FinishPlaces(s: State, id: nat, c: OpClass, now: int, limits: Limits, i: nat)
    requires Inv(s, limits) && id in s.place && s.place[id] == Running(c)
    requires FirstLive(s.queues[c], s.aborted, now, i)
    ensures var r, queue := Next(s, Finish(id, now), limits), s.queues[c];
            && Placed(queue, i, c, s.aborted, s.place[id := Settled(Done)], r.place)
            && id in r.place && r.place[id] == Settled(Done)
  {
    var t := OneSlotAfterFinish(s, id, c, now, limits, i);
    DrainPlaces(t, c, now, limits, i, s.queues[c], s.aborted, t.place);
    RunningDoesNotWait(s, id, c, if i < |s.queues[c]| then i + 1 else i, limits);
  }

  lemma RunningDoesNotWait(s: State, id: nat, c: OpClass, n: nat, limits: Limits)
    requires Inv(s, limits) && id in s.place && s.place[id] == Running(c) && n <= |s.queues[c]|
    ensures id !in IdsOf(s.queues[c][..n])
  {
    assert Lane(s, c, limits);
    forall x | x in IdsOf(s.queues[c][..n])
      ensures x in InPlace(s.place, Waiting(c))
    {
      assert x in IdsOf(s.queues[c]);
    }
  }

  /** Over every run: when an operation finishes, the operations that wait in its class before the
      first live one are rejected, as cancelled if aborted and else as late; the first live one, if
      there is one, runs in its place; all others stay where they are. */
  lemma FinishStartsTheFirstLive(states: seq<State>, steps: seq<Step>, limits: Limits, n: nat, c: OpClass, i: nat)
    requires Total(limits.concurrency) && Total(limits.maxQueueSizeByClass)
    requires forall d: OpClass :: limits.concurrency[d] > 0
    requires IsRun(states, steps, limits) && n < |steps| && steps[n].Finish?
    requires steps[n].id in states[n].place && states[n].place[steps[n].id] == Running(c)
    requires Sized(states[n], limits) && FirstLive(states[n].queues[c], states[n].aborted, steps[n].now, i)
    ensures var s, r, id := states[n], states[n + 1], steps[n].id;
            var queue := s.queues[c];
            && id in r.place && r.place[id] == Settled(Done)
            && Placed(queue, i, c, s.aborted, s.place[id := Settled(Done)], r.place)
            && r.queues == s.queues[c := Behind(queue, i)]
            && s.active[c] > 0 && r.active == if i < |queue| then s.active else s.active[c := s.active[c] - 1]
  {
    EveryStateIsGood(states, steps, limits, n);
    FinishTakesTheFirstLive(states[n], steps[n].id, c, steps[n].now, limits, i);
    FinishPlaces(states[n], steps[n].id, c, steps[n].now, limits, i);
  }

  // ---- Cancelling ----

  /** Cancelling takes a waiting operation out of its queue. */
  lemma CancelWaiting(s: State, c: OpClass, j: nat, outcome: Outcome, limits: Limits)
    requires Inv(s, limits) && j < |s.queues[c]|
    ensures var queue, id := s.queues[c], s.queues[c][j].id;
            var r := Cancel(s, id, outcome);
            && WaitingOp(s, id) == Some(queue[j])
            && r.place == s.place[id := Settled(outcome)] && r.active == s.active
            && r.queues == s.queues[c := queue[..j] + queue[j + 1..]]
  {
    assert Lane(s, c, limits);
    var queue, id := s.queues[c], s.queues[c][j].id;
    assert id in IdsOf(queue) && id in InPlace(s.place, Waiting(c));
    assert IndexOfId(queue, id) == j;
  }

  /** Over every run: the listener of a waiting operation rejects it if it is aborted, and its timer
      if it has a deadline; otherwise, and when it does not wait, nothing changes. */
  lemma CancellingExactly(states: seq<State>, steps: seq<Step>, limits: Limits, n: nat, c: OpClass, j: nat)
    requires Total(limits.concurrency) && Total(limits.maxQueueSizeByClass)
    requires forall d: OpClass :: limits.concurrency[d] > 0
    requires IsRun(states, steps, limits) && n < |steps| && (steps[n].AbortListener? || steps[n].DeadlineTimer?)
    requires Sized(states[n], limits) && j <= |states[n].queues[c]|
    requires j < |states[n].queues[c]| ==> states[n].queues[c][j].id == steps[n].id
    ensures var s, r, id := states[n], states[n + 1], steps[n].id;
            var queue := s.queues[c];
            && ((id in s.place && s.place[id].Waiting?) || r == s)
            && (j < |queue| ==>
                  if (if steps[n].AbortListener? then !IsAborted(queue[j], s.aborted) else queue[j].deadlineAt.None?) then
                    r == s
                  else
                    && r.place == s.place[id := Settled(if steps[n].AbortListener? then Cancelled else DeadlineExceeded)]
                    && r.active == s.active && r.queues == s.queues[c := queue[..j] + queue[j + 1..]])
  {
    EveryStateIsGood(states, steps, limits, n);
    if j < |states[n].queues[c]| {
      CancelWaiting(states[n], c, j, if steps[n].AbortListener? then Cancelled else DeadlineExceeded, limits);
    }
  }
}
