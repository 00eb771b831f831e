/** Model of the call tracking in src/runtime/upstream-parser.ts: four redundant collections that
    act as one list of active calls. */
module CallTracker {
  import opened JavaScript
  import opened Wrappers

  const MAX_ACTIVE_CALLS: nat := 128

  /** Ids and tool names are only compared. */
  datatype Call<I, T> = Call(callId: I, tool: T, startedAt: int)

  // ---- The list ----

  function Ids<I(==), T(==)>(calls: seq<Call<I, T>>): (ids: seq<I>)
    ensures |ids| == |calls| && forall i :: 0 <= i < |calls| ==> ids[i] == calls[i].callId
  {
    seq(|calls|, i requires 0 <= i < |calls| => calls[i].callId)
  }

  /** The ids of a tool's calls, oldest first. */
  function QueueOf<I(==), T(==)>(calls: seq<Call<I, T>>, tool: T): seq<I> {
    if calls == [] then []
    else
      var rest := QueueOf(calls[..|calls| - 1], tool);
      if calls[|calls| - 1].tool == tool then rest + [calls[|calls| - 1].callId] else rest
  }

  ghost predicate Unique<I, T>(calls: seq<Call<I, T>>) {
    forall i, j :: 0 <= i < j < |calls| ==> calls[i].callId != calls[j].callId
  }

  ghost predicate IsActive<I, T>(calls: seq<Call<I, T>>, callId: I) {
    exists i :: 0 <= i < |calls| && calls[i].callId == callId
  }

  function IndexOf<I(==)>(ids: seq<I>, id: I): (r: int)
    ensures -1 <= r < |ids|
    ensures r >= 0 ==> ids[r] == id
    ensures r < 0 ==> id !in ids
  {
    if ids == [] then -1
    else if ids[0] == id then 0
    else
      var r := IndexOf(ids[1..], id);
      if r < 0 then -1 else r + 1
  }

  /** The list without a call. */
  function Remove<I(==), T(==)>(calls: seq<Call<I, T>>, callId: I): seq<Call<I, T>> {
    var i := IndexOf(Ids(calls), callId);
    if i < 0 then calls else RemoveAt(calls, i)
  }

  /** Tracking: the call goes last, even if it was active before; the oldest is evicted on overflow. */
  function Track<I(==), T(==)>(calls: seq<Call<I, T>>, c: Call<I, T>): seq<Call<I, T>> {
    var grown := Remove(calls, c.callId) + [c];
    if |grown| > MAX_ACTIVE_CALLS then grown[1..] else grown
  }

  /** Completing a tool's call ends its oldest one. */
  function Complete<I(==), T(==)>(calls: seq<Call<I, T>>, tool: T): seq<Call<I, T>> {
    var queue := QueueOf(calls, tool);
    if queue == [] then calls else Remove(calls, queue[0])
  }

  // ---- Facts about the list ----

  lemma {:induction false} QueueOfConcat<I, T>(a: seq<Call<I, T>>, b: seq<Call<I, T>>, tool: T)
    ensures QueueOf(a + b, tool) == QueueOf(a, tool) + QueueOf(b, tool)
  {
    if b == [] {
      assert a + b == a;
    } else {
      assert (a + b)[..|a + b| - 1] == a + b[..|b| - 1];
      QueueOfConcat(a, b[..|b| - 1], tool);
    }
  }

  lemma {:induction false} QueueMembers<I, T>(calls: seq<Call<I, T>>, tool: T, id: I)
    ensures id in QueueOf(calls, tool) <==> exists i :: 0 <= i < |calls| && calls[i].callId == id && calls[i].tool == tool
  {
    if calls == [] {
    } else {
      var front, last := calls[..|calls| - 1], calls[|calls| - 1];
      QueueMembers(front, tool, id);
      if last.tool == tool && last.callId == id {
        assert calls[|calls| - 1].callId == id;
      }
      if exists i :: 0 <= i < |front| && front[i].callId == id && front[i].tool == tool {
        var i :| 0 <= i < |front| && front[i].callId == id && front[i].tool == tool;
        assert calls[i].callId == id;
      }
    }
  }

  /** Taking out the call at `i` takes its id out of its own tool's queue, at the right place, and
      leaves the other queues alone. */
  lemma QueueOfRemoveAt<I, T>(calls: seq<Call<I, T>>, i: nat, tool: T)
    requires Unique(calls) && i < |calls|
    ensures var queue, id := QueueOf(calls, tool), calls[i].callId;
            var rest := QueueOf(RemoveAt(calls, i), tool);
            if calls[i].tool == tool
            then id in queue && rest == RemoveAt(queue, IndexOf(queue, id)) && (queue == [id] <==> rest == [])
            else rest == queue && id !in queue
  {
    UniqueAround(calls, i);
    QueueOfWithout(calls[..i], calls[i], calls[i + 1..], tool);
  }

  lemma UniqueAround<I, T>(calls: seq<Call<I, T>>, i: nat)
    requires Unique(calls) && i < |calls|
    ensures calls == calls[..i] + [calls[i]] + calls[i + 1..]
    ensures !IsActive(calls[..i], calls[i].callId) && !IsActive(calls[i + 1..], calls[i].callId)
  {
  }

  lemma QueueOfWithout<I, T>(a: seq<Call<I, T>>, c: Call<I, T>, b: seq<Call<I, T>>, tool: T)
    requires !IsActive(a, c.callId) && !IsActive(b, c.callId)
    ensures var queue, id, rest := QueueOf(a + [c] + b, tool), c.callId, QueueOf(a + b, tool);
            if c.tool == tool
            then id in queue && rest == RemoveAt(queue, IndexOf(queue, id)) && (queue == [id] <==> rest == [])
            else rest == queue && id !in queue
  {
    QueueOfSplit(a, c, b, tool);
    QueueMembers(a, tool, c.callId);
    QueueMembers(b, tool, c.callId);
    RemoveFromMiddle(QueueOf(a, tool), if c.tool == tool then Some(c.callId) else None, QueueOf(b, tool));
  }

  lemma RemoveFromMiddle<I>(a: seq<I>, id: Option<I>, b: seq<I>)
    requires id.Some? ==> id.value !in a
    ensures id.Some? ==>
              var queue := a + [id.value] + b;
              && id.value in queue && RemoveAt(queue, IndexOf(queue, id.value)) == a + b
              && (queue == [id.value] <==> a + b == [])
    ensures id.None? ==> a + [] + b == a + b
  {
    if id.Some? {
      IndexOfMiddle(a, id.value, b);
    }
  }

  lemma QueueOfSplit<I, T>(a: seq<Call<I, T>>, c: Call<I, T>, b: seq<Call<I, T>>, tool: T)
    ensures QueueOf(a + b, tool) == QueueOf(a, tool) + QueueOf(b, tool)
    ensures QueueOf(a + [c] + b, tool)
            == QueueOf(a, tool) + (if c.tool == tool then [c.callId] else []) + QueueOf(b, tool)
  {
    QueueOfConcat(a + [c], b, tool);
    QueueOfConcat(a, [c], tool);
    QueueOfConcat(a, b, tool);
    assert [c][..0] == [];
  }

  lemma {:induction false} IndexOfMiddle<I>(a: seq<I>, id: I, b: seq<I>)
    requires id !in a
    ensures IndexOf(a + [id] + b, id) == |a|
    ensures RemoveAt(a + [id] + b, |a|) == a + b
  {
    if a == [] {
    } else {
      assert (a + [id] + b)[1..] == a[1..] + [id] + b;
      IndexOfMiddle(a[1..], id, b);
    }
  }

  lemma RemoveKeepsUnique<I, T>(calls: seq<Call<I, T>>, callId: I)
    requires Unique(calls)
    ensures Unique(Remove(calls, callId)) && !IsActive(Remove(calls, callId), callId)
    ensures forall c :: c in Remove(calls, callId) <==> c in calls && c.callId != callId
  {
    var i := IndexOf(Ids(calls), callId);
    if i >= 0 {
      var r := RemoveAt(calls, i);
      assert forall k :: 0 <= k < |r| ==> r[k] == calls[if k < i then k else k + 1];
      forall c | c in calls && c.callId != callId
        ensures c in r
      {
        var k :| 0 <= k < |calls| && calls[k] == c;
        assert r[if k < i then k else k - 1] == c;
      }
    } else {
      assert forall k :: 0 <= k < |calls| ==> Ids(calls)[k] in Ids(calls);
    }
  }

  lemma TrackKeepsUnique<I, T>(calls: seq<Call<I, T>>, c: Call<I, T>)
    requires Unique(calls) && |calls| <= MAX_ACTIVE_CALLS
    ensures Unique(Track(calls, c)) && |Track(calls, c)| <= MAX_ACTIVE_CALLS && Track(calls, c) != []
  {
    RemoveKeepsUnique(calls, c.callId);
    var rest := Remove(calls, c.callId);
    assert forall i :: 0 <= i < |rest| ==> rest[i] in rest;
  }

  // ---- Runs ----

  datatype Step<I, T> = TrackStep(call: Call<I, T>) | CompleteStep(tool: T)

  function Apply<I(==), T(==)>(calls: seq<Call<I, T>>, step: Step<I, T>): seq<Call<I, T>> {
    match step
    case TrackStep(c) => Track(calls, c)
    case CompleteStep(tool) => Complete(calls, tool)
  }

  function Run<I(==), T(==)>(steps: seq<Step<I, T>>): seq<Call<I, T>> {
    if steps == [] then [] else Apply(Run(steps[..|steps| - 1]), steps[|steps| - 1])
  }

  /** The ids of a tool's calls, in the order they were tracked. */
  function Arrivals<I(==), T(==)>(steps: seq<Step<I, T>>, tool: T): seq<I> {
    if steps == [] then []
    else
      var last := steps[|steps| - 1];
      Arrivals(steps[..|steps| - 1], tool) + if last.TrackStep? && last.call.tool == tool then [last.call.callId] else []
  }

  /** The ids of a tool's calls, in the order they were completed or evicted. */
  function Departures<I(==), T(==)>(steps: seq<Step<I, T>>, tool: T): seq<I> {
    if steps == [] then []
    else Departures(steps[..|steps| - 1], tool) + Departing(Run(steps[..|steps| - 1]), steps[|steps| - 1], tool)
  }

  function Departing<I(==), T(==)>(before: seq<Call<I, T>>, step: Step<I, T>, tool: T): seq<I> {
    match step
    case TrackStep(c) =>
      var grown := Remove(before, c.callId) + [c];
      if |grown| > MAX_ACTIVE_CALLS && grown[0].tool == tool then [grown[0].callId] else []
    case CompleteStep(t) => if t == tool && QueueOf(before, t) != [] then [QueueOf(before, t)[0]] else []
  }

  /** No call is tracked while a call with the same id is active. */
  ghost predicate FreshIds<I, T>(steps: seq<Step<I, T>>) {
    forall i :: 0 <= i < |steps| && steps[i].TrackStep? ==> !IsActive(Run(steps[..i]), steps[i].call.callId)
  }

  lemma {:induction false} RunInvariant<I, T>(steps: seq<Step<I, T>>)
    ensures Unique(Run(steps)) && |Run(steps)| <= MAX_ACTIVE_CALLS
  {
    if steps == [] {
    } else {
      var before := Run(steps[..|steps| - 1]);
      RunInvariant(steps[..|steps| - 1]);
      match steps[|steps| - 1] {
        case TrackStep(c) => TrackKeepsUnique(before, c);
        case CompleteStep(tool) =>
          if QueueOf(before, tool) != [] {
            RemoveKeepsUnique(before, QueueOf(before, tool)[0]);
          }
      }
    }
  }

  lemma FrontOfQueue<I, T>(calls: seq<Call<I, T>>, tool: T)
    requires calls != []
    ensures QueueOf(calls, tool) == (if calls[0].tool == tool then [calls[0].callId] else []) + QueueOf(calls[1..], tool)
  {
    assert calls == [calls[0]] + calls[1..];
    QueueOfConcat([calls[0]], calls[1..], tool);
    assert [calls[0]][..0] == [];
  }

  /** Completing a call of `t` takes the first one out of its queue and leaves the others alone. */
  lemma QueueOfComplete<I, T>(calls: seq<Call<I, T>>, t: T, tool: T)
    requires Unique(calls) && QueueOf(calls, t) != []
    ensures QueueOf(Complete(calls, t), tool) == if tool == t then QueueOf(calls, t)[1..] else QueueOf(calls, tool)
  {
    var queue := QueueOf(calls, t);
    var i := FirstOfQueue(calls, t);
    QueueOfRemoveAt(calls, i, tool);
    assert IndexOf(queue, queue[0]) == 0;
  }

  /** Where the oldest call of a tool is. */
  lemma FirstOfQueue<I, T>(calls: seq<Call<I, T>>, t: T) returns (i: nat)
    requires Unique(calls) && QueueOf(calls, t) != []
    ensures i < |calls| && calls[i].tool == t && calls[i].callId == QueueOf(calls, t)[0]
    ensures Complete(calls, t) == RemoveAt(calls, i)
  {
    QueueMembers(calls, t, QueueOf(calls, t)[0]);
    i :| 0 <= i < |calls| && calls[i].callId == QueueOf(calls, t)[0] && calls[i].tool == t;
    IndexOfUnique(calls, i);
  }

  lemma IndexOfUnique<I, T>(calls: seq<Call<I, T>>, i: nat)
    requires Unique(calls) && i < |calls|
    ensures IndexOf(Ids(calls), calls[i].callId) == i
  {
    assert Ids(calls)[i] == calls[i].callId;
  }

  lemma LedgerOfTrack<I, T>(before: seq<Call<I, T>>, c: Call<I, T>, tool: T)
    requires Unique(before) && !IsActive(before, c.callId)
    ensures Departing(before, TrackStep(c), tool) + QueueOf(Track(before, c), tool)
            == QueueOf(before, tool) + if c.tool == tool then [c.callId] else []
  {
    assert Remove(before, c.callId) == before;
    var grown := before + [c];
    QueueOfConcat(before, [c], tool);
    assert [c][..0] == [];
    assert Unique(grown);
    FrontOfQueue(grown, tool);
  }

  lemma LedgerOfComplete<I, T>(before: seq<Call<I, T>>, t: T, tool: T)
    requires Unique(before)
    ensures Departing(before, CompleteStep(t), tool) + QueueOf(Complete(before, t), tool) == QueueOf(before, tool)
  {
    if QueueOf(before, t) != [] {
      QueueOfComplete(before, t, tool);
    }
  }

  /** Per tool, calls leave in the order they came, whether they are completed or evicted: what
      left followed by what is active is what arrived, over every run that does not track an
      active call again. */
  lemma {:induction false} FirstInFirstOut<I, T>(steps: seq<Step<I, T>>, tool: T)
    requires FreshIds(steps)
    ensures Departures(steps, tool) + QueueOf(Run(steps), tool) == Arrivals(steps, tool)
  {
    if steps == [] {
    } else {
      var front, last := steps[..|steps| - 1], steps[|steps| - 1];
      FreshPrefix(steps);
      FirstInFirstOut(front, tool);
      RunInvariant(front);
      match last {
        case TrackStep(c) => LedgerOfTrack(Run(front), c, tool);
        case CompleteStep(t) => LedgerOfComplete(Run(front), t, tool);
      }
      Regroup(Departures(front, tool), Departing(Run(front), last, tool), QueueOf(Run(steps), tool));
    }
  }

  lemma FreshPrefix<I, T>(steps: seq<Step<I, T>>)
    requires FreshIds(steps) && steps != []
    ensures FreshIds(steps[..|steps| - 1])
    ensures var last := steps[|steps| - 1]; last.TrackStep? ==> !IsActive(Run(steps[..|steps| - 1]), last.call.callId)
  {
    var front := steps[..|steps| - 1];
    assert forall i :: 0 <= i <= |front| ==> front[..i] == steps[..i];
  }

  lemma Regroup<I>(a: seq<I>, b: seq<I>, c: seq<I>)
    ensures a + b + c == a + (b + c)
  {
  }

  // ---- Tracking an active call again ----

  /** The tool whose queue loses a call because its id is tracked again. */
  function LostBy<I(==), T(==)>(before: seq<Call<I, T>>, step: Step<I, T>, tool: T): nat {
    if step.CompleteStep? then 0
    else
      var i := IndexOf(Ids(before), step.call.callId);
      if i >= 0 && before[i].tool == tool then 1 else 0
  }

  function Lost<I(==), T(==)>(steps: seq<Step<I, T>>, tool: T): nat {
    if steps == [] then 0
    else Lost(steps[..|steps| - 1], tool) + LostBy(Run(steps[..|steps| - 1]), steps[|steps| - 1], tool)
  }

  lemma CountsOfTrack<I, T>(before: seq<Call<I, T>>, c: Call<I, T>, tool: T)
    requires Unique(before)
    ensures |Departing(before, TrackStep(c), tool)| + |QueueOf(Track(before, c), tool)| + LostBy(before, TrackStep(c), tool)
            == |QueueOf(before, tool)| + if c.tool == tool then 1 else 0
  {
    var i := IndexOf(Ids(before), c.callId);
    if i >= 0 {
      QueueOfRemoveAt(before, i, tool);
    }
    var grown := Remove(before, c.callId) + [c];
    QueueOfConcat(Remove(before, c.callId), [c], tool);
    assert [c][..0] == [];
    FrontOfQueue(grown, tool);
  }

  /** Over every run, what left a tool's queue, what is in it and what was lost by tracking it again
      add up to what arrived. */
  lemma {:induction false} LedgerCounts<I, T>(steps: seq<Step<I, T>>, tool: T)
    ensures |Departures(steps, tool)| + |QueueOf(Run(steps), tool)| + Lost(steps, tool) == |Arrivals(steps, tool)|
  {
    if steps == [] {
    } else {
      var front, last := steps[..|steps| - 1], steps[|steps| - 1];
      LedgerCounts(front, tool);
      RunInvariant(front);
      match last {
        case TrackStep(c) => CountsOfTrack(Run(front), c, tool);
        case CompleteStep(t) => LedgerOfComplete(Run(front), t, tool);
      }
    }
  }

  lemma {:induction false} LostStaysLost<I, T>(steps: seq<Step<I, T>>, i: nat, tool: T)
    requires i <= |steps|
    ensures Lost(steps[..i], tool) <= Lost(steps, tool)
    decreases |steps|
  {
    if i == |steps| {
      assert steps[..i] == steps;
    } else {
      LostStaysLost(steps[..|steps| - 1], i, tool);
      assert steps[..|steps| - 1][..i] == steps[..i];
    }
  }

  /** Every tool's calls leave in the order they came if and only if no active call is tracked
      again. */
  lemma FirstInFirstOutExactly<I, T(!new)>(steps: seq<Step<I, T>>)
    ensures FreshIds(steps)
            <==> forall tool: T :: Departures(steps, tool) + QueueOf(Run(steps), tool) == Arrivals(steps, tool)
  {
    if FreshIds(steps) {
      forall tool: T
        ensures Departures(steps, tool) + QueueOf(Run(steps), tool) == Arrivals(steps, tool)
      {
        FirstInFirstOut(steps, tool);
      }
    } else {
      var i :| 0 <= i < |steps| && steps[i].TrackStep? && IsActive(Run(steps[..i]), steps[i].call.callId);
      var tool := TrackedAgain(steps, i);
      LedgerCounts(steps, tool);
      assert Departures(steps, tool) + QueueOf(Run(steps), tool) != Arrivals(steps, tool);
    }
  }

  lemma TrackedAgain<I, T>(steps: seq<Step<I, T>>, i: nat) returns (tool: T)
    requires i < |steps| && steps[i].TrackStep? && IsActive(Run(steps[..i]), steps[i].call.callId)
    ensures Lost(steps, tool) > 0
  {
    var before, id := Run(steps[..i]), steps[i].call.callId;
    var k :| 0 <= k < |before| && before[k].callId == id;
    assert Ids(before)[k] in Ids(before);
    tool := before[IndexOf(Ids(before), id)].tool;
    assert steps[..i + 1][..i] == steps[..i];
    LostStaysLost(steps, i + 1, tool);
  }
}
