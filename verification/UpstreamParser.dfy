/** The tracking fields of `UpstreamParser` in src/runtime/upstream-parser.ts, proved to act as the
    list of CallTracker. Parsing of log lines is not part of this model. */
module UpstreamParsers {
  import opened JavaScript
  import opened Wrappers
  import opened CallTracker

  function Digit(d: nat): (c: char)
    requires d < 10
    ensures c != '-' && c as int == '0' as int + d
  {
    '0' + d as char
  }

  function Digits(n: nat): string {
    if n < 10 then [Digit(n)] else Digits(n / 10) + [Digit(n % 10)]
  }

  /** The id made up for a completion without an active call. */
  function SyntheticId(tool: string, completedAt: nat): string {
    "unknown-" + tool + "-" + Digits(completedAt)
  }

  /** The number that decimal digits stand for. */
  function NumberOf(digits: string): int {
    if digits == [] then 0 else 10 * NumberOf(digits[..|digits| - 1]) + digits[|digits| - 1] as int - '0' as int
  }

  lemma {:induction false} DigitsAreRead(n: nat)
    ensures NumberOf(Digits(n)) == n && Digits(n) != [] && '-' !in Digits(n)
  {
    if n < 10 {
      assert NumberOf([]) == 0;
    } else {
      DigitsAreRead(n / 10);
      assert Digits(n)[..|Digits(n)| - 1] == Digits(n / 10);
    }
  }

  /** A made-up id tells its tool and its time, whatever the tool is called. */
  lemma SyntheticIdTells(tool: string, completedAt: nat, tool': string, completedAt': nat)
    requires SyntheticId(tool, completedAt) == SyntheticId(tool', completedAt')
    ensures tool == tool' && completedAt == completedAt'
  {
    var a, b := Digits(completedAt), Digits(completedAt');
    DigitsAreRead(completedAt);
    DigitsAreRead(completedAt');
    SplitAtLastDash("unknown-" + tool, a, "unknown-" + tool', b);
    assert ("unknown-" + tool)[8..] == tool && ("unknown-" + tool')[8..] == tool';
  }

  lemma NoDashBehind(front: string, a: string)
    requires '-' !in a
    ensures var s := front + "-" + a; forall k :: |front| < k < |s| ==> s[k] != '-'
  {
    var s := front + "-" + a;
    forall k | |front| < k < |s|
      ensures s[k] != '-'
    {
      assert s[k] == a[k - |front| - 1];
    }
  }

  lemma SplitAtLastDash(front: string, a: string, front': string, b: string)
    requires '-' !in a && '-' !in b && front + "-" + a == front' + "-" + b
    ensures front == front' && a == b
  {
    var s, t := front + "-" + a, front' + "-" + b;
    assert s[|front|] == '-' && t[|front'|] == '-';
    NoDashBehind(front, a);
    NoDashBehind(front', b);
    assert |front| == |front'|;
    assert s[..|front|] == front && t[..|front'|] == front';
    assert s[|front| + 1..] == a && t[|front'| + 1..] == b;
  }

  // ---- The collections a list of calls stands for ----

  function StartTimes<I(==), T(==)>(calls: seq<Call<I, T>>): map<I, int> {
    if calls == [] then map[]
    else StartTimes(calls[..|calls| - 1])[calls[|calls| - 1].callId := calls[|calls| - 1].startedAt]
  }

  function Tools<I(==), T(==)>(calls: seq<Call<I, T>>): map<I, T> {
    if calls == [] then map[]
    else Tools(calls[..|calls| - 1])[calls[|calls| - 1].callId := calls[|calls| - 1].tool]
  }

  function Queues<I(==), T(==)>(calls: seq<Call<I, T>>): map<T, seq<I>> {
    if calls == [] then map[]
    else Enqueue(Queues(calls[..|calls| - 1]), calls[|calls| - 1].tool, calls[|calls| - 1].callId)
  }

  function Enqueue<I(==), T(==)>(byTool: map<T, seq<I>>, tool: T, id: I): map<T, seq<I>> {
    byTool[tool := (if tool in byTool then byTool[tool] else []) + [id]]
  }

  /** A sequence without an element: `indexOf` and `splice`. */
  function Minus<I(==)>(ids: seq<I>, id: I): seq<I> {
    if IndexOf(ids, id) < 0 then ids else RemoveAt(ids, IndexOf(ids, id))
  }

  /** An id taken out of a tool's queue; an empty queue is deleted. */
  function Dequeue<I(==), T(==)>(byTool: map<T, seq<I>>, tool: T, id: I): map<T, seq<I>> {
    if tool !in byTool then byTool
    else if Minus(byTool[tool], id) == [] then byTool - {tool}
    else byTool[tool := Minus(byTool[tool], id)]
  }

  function ToolOf<I(==), T>(toolBy: map<I, T>, id: I): Option<T> { if id in toolBy then Some(toolBy[id]) else None }

  lemma {:induction false} KnownIds<I, T>(calls: seq<Call<I, T>>, id: I)
    ensures id in StartTimes(calls) <==> id in Ids(calls)
    ensures id in Tools(calls) <==> id in Ids(calls)
  {
    if calls == [] {
    } else {
      KnownIds(calls[..|calls| - 1], id);
      assert Ids(calls) == Ids(calls[..|calls| - 1]) + [calls[|calls| - 1].callId];
    }
  }

  lemma {:induction false} KnownCall<I, T>(calls: seq<Call<I, T>>, i: nat)
    requires Unique(calls) && i < |calls|
    ensures calls[i].callId in StartTimes(calls) && StartTimes(calls)[calls[i].callId] == calls[i].startedAt
    ensures calls[i].callId in Tools(calls) && Tools(calls)[calls[i].callId] == calls[i].tool
  {
    if i == |calls| - 1 {
    } else {
      KnownCall(calls[..|calls| - 1], i);
    }
  }

  lemma {:induction false} QueuesAre<I, T>(calls: seq<Call<I, T>>, tool: T)
    ensures tool in Queues(calls) <==> QueueOf(calls, tool) != []
    ensures tool in Queues(calls) ==> Queues(calls)[tool] == QueueOf(calls, tool)
  {
    if calls == [] {
    } else {
      QueuesAre(calls[..|calls| - 1], tool);
    }
  }

  lemma {:induction false} IndexOfSnoc<I>(queue: seq<I>, last: I, id: I)
    requires id in queue
    ensures IndexOf(queue + [last], id) == IndexOf(queue, id)
  {
    if queue[0] == id {
    } else {
      assert (queue + [last])[1..] == queue[1..] + [last];
      IndexOfSnoc(queue[1..], last, id);
    }
  }

  lemma MinusSnoc<I>(queue: seq<I>, last: I, id: I)
    requires id in queue
    ensures Minus(queue + [last], id) == Minus(queue, id) + [last]
  {
    IndexOfSnoc(queue, last, id);
    RemoveAtBeforeLast(queue, last, IndexOf(queue, id));
  }

  lemma RemoveAtBeforeLast<I>(queue: seq<I>, last: I, i: nat)
    requires i < |queue|
    ensures RemoveAt(queue + [last], i) == RemoveAt(queue, i) + [last]
  {
  }

  lemma MinusLast<I>(queue: seq<I>, id: I)
    requires id !in queue
    ensures Minus(queue + [id], id) == queue
  {
    IndexOfMiddle(queue, id, []);
    assert queue + [id] + [] == queue + [id];
  }

  /** Queueing and then taking another id out, or the other way around. */
  lemma DequeueOfEnqueue<I, T>(byTool: map<T, seq<I>>, last: Call<I, T>, tool: T, id: I)
    requires tool in byTool && id in byTool[tool]
    ensures Dequeue(Enqueue(byTool, last.tool, last.callId), tool, id) == Enqueue(Dequeue(byTool, tool, id), last.tool, last.callId)
  {
    if last.tool == tool {
      MinusSnoc(byTool[tool], last.callId, id);
    }
  }

  lemma DequeueLast<I, T>(byTool: map<T, seq<I>>, tool: T, id: I)
    requires tool in byTool ==> id !in byTool[tool] && byTool[tool] != []
    ensures Dequeue(Enqueue(byTool, tool, id), tool, id) == byTool
  {
    var queue := if tool in byTool then byTool[tool] else [];
    MinusLast(queue, id);
  }

  lemma RemoveAtSnoc<I, T>(calls: seq<Call<I, T>>, i: nat)
    requires i < |calls|
    ensures var rest := RemoveAt(calls, i);
            if i == |calls| - 1 then rest == calls[..i]
            else rest != [] && rest[|rest| - 1] == calls[|calls| - 1] && rest[..|rest| - 1] == RemoveAt(calls[..|calls| - 1], i)
  {
  }

  lemma {:induction false} RemoveAtStartTimes<I, T>(calls: seq<Call<I, T>>, i: nat)
    requires Unique(calls) && i < |calls|
    ensures StartTimes(RemoveAt(calls, i)) == StartTimes(calls) - {calls[i].callId}
    ensures Tools(RemoveAt(calls, i)) == Tools(calls) - {calls[i].callId}
  {
    RemoveAtSnoc(calls, i);
    if i < |calls| - 1 {
      RemoveAtStartTimes(calls[..|calls| - 1], i);
    } else {
      KnownIds(calls[..i], calls[i].callId);
    }
  }

  lemma {:induction false} RemoveAtQueues<I, T>(calls: seq<Call<I, T>>, i: nat)
    requires Unique(calls) && i < |calls|
    ensures Queues(RemoveAt(calls, i)) == Dequeue(Queues(calls), calls[i].tool, calls[i].callId)
  {
    var front, last := calls[..|calls| - 1], calls[|calls| - 1];
    RemoveAtSnoc(calls, i);
    QueuesAre(front, calls[i].tool);
    QueueMembers(front, calls[i].tool, calls[i].callId);
    if i < |calls| - 1 {
      RemoveAtQueues(front, i);
      assert front[i] == calls[i];
      DequeueOfEnqueue(Queues(front), last, calls[i].tool, calls[i].callId);
    } else {
      DequeueLast(Queues(front), last.tool, last.callId);
    }
  }

  /** The collections without a call. */
  ghost predicate TakenOut<I, T>(calls: seq<Call<I, T>>, rest: seq<Call<I, T>>, id: I) {
    && Unique(rest)
    && Ids(rest) == Minus(Ids(calls), id)
    && StartTimes(rest) == StartTimes(calls) - {id}
    && Tools(rest) == Tools(calls) - {id}
    && Queues(rest) == var tool := ToolOf(Tools(calls), id);
                       if tool.None? then Queues(calls) else Dequeue(Queues(calls), tool.value, id)
  }

  lemma RemoveTakesOutKnown<I, T>(calls: seq<Call<I, T>>, i: nat)
    requires Unique(calls) && i < |calls| && IndexOf(Ids(calls), calls[i].callId) == i
    ensures TakenOut(calls, RemoveAt(calls, i), calls[i].callId)
  {
    RemoveKeepsUnique(calls, calls[i].callId);
    RemoveAtStartTimes(calls, i);
    RemoveAtQueues(calls, i);
    KnownCall(calls, i);
    IdsOfRemoveAt(calls, i);
  }

  lemma IdsOfRemoveAt<I, T>(calls: seq<Call<I, T>>, i: nat)
    requires i < |calls|
    ensures Ids(RemoveAt(calls, i)) == RemoveAt(Ids(calls), i)
  {
  }

  lemma RemoveTakesOut<I, T>(calls: seq<Call<I, T>>, id: I)
    requires Unique(calls)
    ensures TakenOut(calls, Remove(calls, id), id)
  {
    var i := IndexOf(Ids(calls), id);
    if i >= 0 {
      RemoveTakesOutKnown(calls, i);
    } else {
      KnownIds(calls, id);
    }
  }

  /** What the oldest call of a tool looks like in the collections. */
  lemma OldestCall<I, T>(calls: seq<Call<I, T>>, tool: T)
    requires Unique(calls) && QueueOf(calls, tool) != []
    ensures var id := QueueOf(calls, tool)[0];
            && id in StartTimes(calls) && Call(id, tool, StartTimes(calls)[id]) in calls
            && ToolOf(Tools(calls), id) == Some(tool)
            && Minus(QueueOf(calls, tool), id) == QueueOf(calls, tool)[1..]
  {
    var id := QueueOf(calls, tool)[0];
    QueueMembers(calls, tool, id);
    var i :| 0 <= i < |calls| && calls[i].callId == id && calls[i].tool == tool;
    KnownCall(calls, i);
    assert calls[i] == Call(id, tool, StartTimes(calls)[id]);
    assert IndexOf(QueueOf(calls, tool), id) == 0;
  }

  /** What tracking does to the list, step by step. */
  lemma TrackSteps<I, T>(calls: seq<Call<I, T>>, c: Call<I, T>)
    requires Unique(calls)
    ensures c.callId !in StartTimes(calls) ==> Remove(calls, c.callId) == calls
    ensures var grown := Remove(calls, c.callId) + [c]; Unique(grown)
  {
    var rest := Remove(calls, c.callId);
    RemoveKeepsUnique(calls, c.callId);
    RemoveTakesOut(calls, c.callId);
    KnownIds(calls, c.callId);
    UniqueSnoc(rest, c);
  }

  lemma UniqueSnoc<I, T>(calls: seq<Call<I, T>>, c: Call<I, T>)
    requires Unique(calls) && !IsActive(calls, c.callId)
    ensures Unique(calls + [c])
  {
  }

  lemma PushCollections<I, T>(calls: seq<Call<I, T>>, c: Call<I, T>)
    ensures Ids(calls + [c]) == Ids(calls) + [c.callId]
    ensures StartTimes(calls + [c]) == StartTimes(calls)[c.callId := c.startedAt]
    ensures Tools(calls + [c]) == Tools(calls)[c.callId := c.tool]
    ensures Queues(calls + [c]) == Enqueue(Queues(calls), c.tool, c.callId)
  {
    assert (calls + [c])[..|calls|] == calls;
  }

  lemma RemoveFirst<I, T>(calls: seq<Call<I, T>>)
    requires Unique(calls) && calls != []
    ensures Ids(calls)[0] == calls[0].callId && Remove(calls, calls[0].callId) == calls[1..]
  {
    IndexOfUnique(calls, 0);
  }

  /** Taking out a start time changes the start times exactly when the id is active. */
  lemma NoCallOf<I, T>(calls: seq<Call<I, T>>, id: I)
    ensures StartTimes(calls) - {id} == StartTimes(calls) <==> id !in Ids(calls)
    ensures id in StartTimes(calls) <==> id in Ids(calls)
  {
    KnownIds(calls, id);
  }

  /** `pushLine` only tracks calls with an id and a tool name (line 118). */
  ghost predicate Named(calls: seq<Call<string, string>>) {
    forall c :: c in calls ==> c.callId != "" && c.tool != ""
  }

  lemma KnownToolIsNamed(calls: seq<Call<string, string>>, id: string)
    requires Unique(calls) && Named(calls) && id in Tools(calls)
    ensures Tools(calls)[id] != ""
  {
    KnownIds(calls, id);
    var i := IndexOf(Ids(calls), id);
    KnownCall(calls, i);
    assert calls[i] in calls;
  }

  lemma RemoveKeepsNamed(calls: seq<Call<string, string>>, id: string)
    requires Unique(calls) && Named(calls)
    ensures Named(Remove(calls, id))
  {
    RemoveKeepsUnique(calls, id);
  }

  /** A call may carry the id that a completion of another tool makes up: then the start time of the
      active call is lost, and the collections are no longer those of any list of calls. */
  lemma MadeUpIdCanBeActive(tool: string, other: string, completedAt: nat)
    requires tool != other && other != ""
    ensures var id := SyntheticId(tool, completedAt);
            var calls := Track([], Call(id, other, 0));
            && Unique(calls) && Named(calls) && QueueOf(calls, tool) == [] && id in Ids(calls)
            && forall list: seq<Call<string, string>> ::
                 !(StartTimes(list) == StartTimes(calls) - {id} && Tools(list) == Tools(calls))
  {
    OneCallWithoutItsStart(SyntheticId(tool, completedAt), tool, other);
  }

  lemma OneCallWithoutItsStart<I(!new), T(!new)>(id: I, tool: T, other: T)
    requires tool != other
    ensures var calls := Track([], Call(id, other, 0));
            && calls == [Call(id, other, 0)] && Unique(calls) && QueueOf(calls, tool) == [] && id in Ids(calls)
            && forall list: seq<Call<I, T>> :: !(StartTimes(list) == StartTimes(calls) - {id} && Tools(list) == Tools(calls))
  {
    var calls := [Call(id, other, 0)];
    assert Ids<I, T>([]) == [] && [] + calls == calls;
    assert Track([], Call(id, other, 0)) == calls && calls[..0] == [];
    KnownIds(calls, id);
    assert Ids(calls)[0] == id;
    forall list: seq<Call<I, T>>
      ensures !(StartTimes(list) == StartTimes(calls) - {id} && Tools(list) == Tools(calls))
    {
      KnownIds(list, id);
    }
  }

  class UpstreamParser {
    var activeByTool: map<string, seq<string>>
    var startedAtByCall: map<string, int>
    var toolByCall: map<string, string>
    var activeOrder: seq<string>
    /** The list the four collections stand for. */
    ghost var calls: seq<Call<string, string>>

    ghost predicate Valid()
      reads this
    {
      Tied() && |calls| <= MAX_ACTIVE_CALLS
    }

    ghost predicate Tied()
      reads this
    {
      && Unique(calls) && Named(calls)
      && activeOrder == Ids(calls)
      && startedAtByCall == StartTimes(calls)
      && toolByCall == Tools(calls)
      && activeByTool == Queues(calls)
    }

    constructor ()
      ensures Valid() && calls == []
    {
      activeByTool, startedAtByCall, toolByCall, activeOrder := map[], map[], map[], [];
      calls := [];
    }

    method SpliceOrder(callId: string)
      modifies `activeOrder
      ensures activeOrder == Minus(old(activeOrder), callId)
    {
      var orderIndex := IndexOf(activeOrder, callId);
      if orderIndex >= 0 {
        activeOrder := RemoveAt(activeOrder, orderIndex);
      }
    }

    method SpliceQueue(toolName: string, callId: string)
      modifies `activeByTool
      ensures activeByTool == Dequeue(old(activeByTool), toolName, callId)
    {
      if toolName !in activeByTool {
        return;
      }
      var queue := Minus(activeByTool[toolName], callId);
      activeByTool := activeByTool[toolName := queue];
      if |queue| == 0 {
        activeByTool := activeByTool - {toolName};
        assert activeByTool == old(activeByTool) - {toolName};
      }
    }

    method RemoveTrackedCall(callId: string)
      requires Tied()
      modifies this
      ensures Tied() && calls == Remove(old(calls), callId)
    {
      RemoveTakesOut(calls, callId);
      RemoveKeepsNamed(calls, callId);
      if callId in Tools(calls) {
        KnownToolIsNamed(calls, callId);
      }
      startedAtByCall := startedAtByCall - {callId};
      var toolName := ToolOf(toolByCall, callId);
      toolByCall := toolByCall - {callId};
      SpliceOrder(callId);
      if toolName.Some? && toolName.value != "" {
        SpliceQueue(toolName.value, callId);
      }
      calls := Remove(calls, callId);
    }

    method PushCall(callId: string, toolName: string, startedAt: int)
      requires Tied() && callId != "" && toolName != "" && Unique(calls + [Call(callId, toolName, startedAt)])
      modifies this
      ensures Tied() && calls == old(calls) + [Call(callId, toolName, startedAt)]
    {
      PushCollections(calls, Call(callId, toolName, startedAt));
      startedAtByCall := startedAtByCall[callId := startedAt];
      toolByCall := toolByCall[callId := toolName];
      activeOrder := activeOrder + [callId];
      var queue := if toolName in activeByTool then activeByTool[toolName] else [];
      activeByTool := activeByTool[toolName := queue + [callId]];
      calls := calls + [Call(callId, toolName, startedAt)];
    }

    method TrackCall(callId: string, toolName: string, startedAt: int) returns (overflow: bool)
      requires Valid() && callId != "" && toolName != ""
      modifies this
      ensures Valid() && calls == Track(old(calls), Call(callId, toolName, startedAt))
      ensures overflow <==> |Remove(old(calls), callId)| == MAX_ACTIVE_CALLS
    {
      TrackSteps(calls, Call(callId, toolName, startedAt));
      ghost var rest := Remove(calls, callId);
      if callId in startedAtByCall {
        RemoveTrackedCall(callId);
      }
      assert calls == rest;
      PushCall(callId, toolName, startedAt);
      if |activeOrder| <= MAX_ACTIVE_CALLS {
        return false;
      }
      EvictOldest();
      overflow := true;
    }

    method EvictOldest()
      requires Tied() && calls != []
      modifies this
      ensures Tied() && calls == old(calls)[1..]
    {
      RemoveFirst(calls);
      assert calls[0] in calls;
      var oldest := activeOrder[0];
      if oldest != "" {
        RemoveTrackedCall(oldest);
      }
    }

    /** `takeCallId`: the oldest active call of the tool, or a made-up id. The start times keep
        the call for the caller to look up. */
    method TakeCallId(toolName: string, completedAt: nat) returns (callId: string)
      requires Tied()
      modifies `activeByTool, `toolByCall, `activeOrder, `calls
      ensures calls == Complete(old(calls), toolName)
      ensures if QueueOf(old(calls), toolName) != []
              then
                && callId == QueueOf(old(calls), toolName)[0]
                && Unique(calls) && Named(calls) && activeOrder == Ids(calls) && toolByCall == Tools(calls)
                && activeByTool == Queues(calls) && startedAtByCall - {callId} == StartTimes(calls)
              else callId == SyntheticId(toolName, completedAt) && unchanged(this)
    {
      QueuesAre(calls, toolName);
      if toolName !in activeByTool {
        return SyntheticId(toolName, completedAt);
      }
      OldestCall(calls, toolName);
      var queue := activeByTool[toolName];
      callId := queue[0];
      RemoveTakesOut(calls, callId);
      RemoveKeepsNamed(calls, callId);
      ShiftQueue(toolName);
      toolByCall := toolByCall - {callId};
      SpliceOrder(callId);
      calls := Remove(calls, callId);
    }

    method ShiftQueue(toolName: string)
      requires toolName in activeByTool && activeByTool[toolName] != []
      modifies `activeByTool
      ensures activeByTool == Dequeue(old(activeByTool), toolName, old(activeByTool[toolName][0]))
    {
      var queue := activeByTool[toolName];
      assert Minus(queue, queue[0]) == queue[1..];
      activeByTool := activeByTool[toolName := queue[1..]];
      if |queue[1..]| == 0 {
        activeByTool := activeByTool - {toolName};
        assert activeByTool == old(activeByTool) - {toolName};
      }
    }

    /** `completeTool` and `failTool`. With an active call of the tool, the oldest one ends.
        Without one, the collections stay tied exactly when the made-up id is not the id of an
        active call. */
    method CompleteTool(toolName: string, completedAt: nat) returns (callId: string, durationMs: Option<int>)
      requires Valid()
      modifies this
      ensures calls == Complete(old(calls), toolName)
      ensures QueueOf(old(calls), toolName) != [] ==>
                && Tied() && callId == QueueOf(old(calls), toolName)[0]
                && durationMs.Some? && Call(callId, toolName, completedAt - durationMs.value) in old(calls)
      ensures QueueOf(old(calls), toolName) == [] ==>
                && callId == SyntheticId(toolName, completedAt)
                && (Tied() <==> callId !in Ids(calls))
                && (Tied() ==> durationMs == None)
    {
      ghost var before := calls;
      callId := TakeCallId(toolName, completedAt);
      if QueueOf(before, toolName) != [] {
        OldestCall(before, toolName);
      } else {
        NoCallOf(before, callId);
      }
      durationMs := TakeDuration(callId, completedAt);
    }

    method TakeDuration(callId: string, completedAt: nat) returns (durationMs: Option<int>)
      modifies `startedAtByCall
      ensures startedAtByCall == old(startedAtByCall) - {callId}
      ensures durationMs.Some? <==> callId in old(startedAtByCall)
      ensures durationMs.Some? ==> completedAt - durationMs.value == old(startedAtByCall)[callId]
    {
      durationMs := if callId in startedAtByCall then Some(completedAt - startedAtByCall[callId]) else None;
      startedAtByCall := startedAtByCall - {callId};
    }
  }
}
