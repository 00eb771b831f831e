# Verified model of the Desktop-remote daemon

Desktop-remote is a local daemon. It admits and schedules tool calls, follows its runtime's output,
keeps the session as an event log, streams that session to a terminal client over a socket, restarts
its runtime, repairs its tunnel and updates its own files. This project models the in-memory state
machines and byte algorithms that do this, in Dafny, and proves what they promise.

`dafny verify dfyconfig.toml` checks everything.

## How the model is built

What the program changes step by step is a class or a loop here; its methods are proved to do what a
specification function of the old state says. The properties are then proved about those functions:
for every input, or for every state of every run. Asynchrony is modelled by atomic steps, one for
each stretch of code between two awaits. Clocks, sizes of records, the outcome of a launch, the
pattern matcher, and the JSON reader and writer are parameters.

| file | what it models |
|---|---|
| `Wrappers.dfy`, `JavaScript.dfy` | an optional value, and the few built-ins that several files use |
| `TextBounds.dfy` | cutting text to a byte budget, over UTF-16 units |
| `ProcessBuffer.dfy` | the bounded tail of a process's output and its paging |
| `RuntimeStore.dfy`, `RuntimeSessionStore.dfy` | the session built from events, replay, snapshots |
| `SessionHistory.dfy` | what a session says about its events |
| `SessionSource.dfy`, `IpcTuiSessionSource.dfy` | reconnecting clients and their convergence |
| `VisualLease.dfy`, `DaemonIpcServer.dfy` | which client is attached, and when it loses the lease |
| `HistoryStore.dfy`, `HistoryWriter.dfy` | the event log on disk |
| `CallTracker.dfy`, `UpstreamParser.dfy` | the tracker of active tool calls |
| `McpQueue.dfy` | the requester-alternating admission queue |
| `SchedulerSpec.dfy`, `OperationScheduler.dfy` | the scheduler with one queue per class |
| `SchedulerOutcomes.dfy` | what becomes of each operation |
| `ResponseBudget.dfy` | pruning JSON responses |
| `ResponseSize.dfy` | the estimated size of a response and the size of its JSON text |
| `Framing.dfy` | JSON lines over a socket |
| `Grep.dfy`, `SearchManager.dfy` | content search with context lines |
| `RecoveryPolicy.dfy` | the repair budget of the tunnel |
| `SupervisorSpec.dfy`, `DaemonSupervisor.dfy` | the supervisor and its restart policy |
| `SupervisorHistory.dfy` | what its delays, run times and status say about the past |
| `InstallSpec.dfy`, `Installer.dfy` | promoting and rolling back a build |

## What came out of the proofs

Where a promise holds only under a condition, the exact condition is proved.

- Going live again after a reconnect replays events that the snapshot already contains. That changes
  nothing if and only if every call they are about is *settled* in the snapshot
  (`RuntimeStore.ReplayExactly`); an eviction inside the replayed window breaks it
  (`RuntimeStore.ReplayCanDiverge`, `SessionSource.ReconnectCanDiverge`), and so does one event more than
  the pending buffer holds (`SessionSource.OverflowLosesAnEvent`).
- The server drops an event or a snapshot row whose frame is over 512 KiB. A live client then misses the
  event for good: at the first of them it differs from the daemon if and only if the event changed anything
  (`SessionSource.FirstOversizeEventExactly`); one that waits for its snapshot cannot go live
  (`SessionSource.OversizeRowBlocksTheClient`). The bounds do not prevent it: JSON escapes can double a
  result (`SessionSource.QuotesEventIsLost`), and a failed call's tool name has no bound
  (`SessionSource.LongNameEventIsLost`).
- Completions keep their call id and tool name unbounded, while a restored row is bounded; and an empty
  call id is never deleted from the call map. `RuntimeStore.CleanExactly` gives the events that keep a
  session restorable.
- The process buffer also reports truncation when a single append fills it to the byte and nothing is
  lost (`ProcessBuffer.FlaggedExactly`), and a search does when it finds exactly as many matches as its
  limit (`SearchManagers.SearchJob.SearchFiles`).
- A completion without an active call makes up an id; if that id is the id of an active call, the
  tracker's collections come apart (`UpstreamParsers.UpstreamParser.CompleteTool`,
  `UpstreamParsers.MadeUpIdCanBeActive`). A tool's calls end in the order they came if and only if no
  active call is tracked again (`CallTracker.FirstInFirstOutExactly`).
- `slice(-0)` keeps everything: with no context lines asked for, a match carries the whole file before
  it (`Grep.BeforeExactly`).
- The tunnel's cooldown separates any two restarts if and only if it is no longer than the window plus a
  millisecond and no longer than the healthy reset, is not positive, or no restart is allowed
  (`RecoveryPolicy.CooldownExactly`).
- A runtime whose creation throws leaves the supervisor wanting a runtime that nothing starts, until it is
  stopped (`SupervisorSpec.StallsAreReachable`, `SupervisorSpec.StalledUntilStopped`).
- A failed rollback changes nothing, wherever the fault is, if and only if none of the artifacts it swaps
  and not the schema hash has a previous file without a current one (`InstallSpec.FailedRollbackExactly`,
  `InstallSpec.RollbackLeavesAnOrphan`). Two rollbacks undo each other if and only if the same is true with
  the metadata among the names (`InstallSpec.TwoRollbacks`).
- A failed promotion leaves every current file as it was, wherever the fault is, if and only if every
  destination but the last one has a current file (`InstallSpec.FailedPromotionExactly`,
  `InstallSpec.PromotionLeavesANewFile`). A rollback after it installs the files of the build that failed
  (`InstallSpec.SpoiledRollback`, `InstallSpec.RollbackInstallsTheFailedBuild`).
- A rollback right after an update brings every file back if and only if each file of the update replaced
  one and no other swapped name has a previous file left over from an earlier build
  (`InstallSpec.PromoteThenRollback`); an update whose schema hash could not be staged breaks this
  (`InstallSpec.RollbackCanMixBuilds`).
- The frame decoder takes frames one byte longer than the encoder produces (`Framing.LimitsDifferByOne`).
- The size estimate of a response does not count the escapes of strings: it is the size of the JSON text if and
  only if no string in the response has anything to escape, and otherwise less (`ResponseSize.SizeExactly`).

## Model

| member | source | states |
|---|---|---|
| `TextBounds.ByteLengthConcat` | src/session/bounds.ts:17-29 | Byte lengths add up except that a surrogate pair joined at the seam costs two bytes less |
| `TextBounds.HeadOfIsLongest` | src/session/bounds.ts:95-104 | A prefix fits the budget exactly when it is no longer than the kept head |
| `TextBounds.TailOfIsLongest` | src/session/bounds.ts:106-115 | A suffix fits the budget exactly when it is no longer than the kept tail |
| `TextBounds.TakeUtf8Head` | src/session/bounds.ts:95-104 | The binary search finds the longest prefix within the budget |
| `TextBounds.TakeUtf8Tail` | src/session/bounds.ts:106-115 | The binary search finds the longest suffix within the budget |
| `TextBounds.BoundTextFits` | src/session/bounds.ts:17-29 | A bounded text is never over its budget |
| `TextBounds.BoundTextIdempotent` | src/session/bounds.ts:17-29 | Bounding twice is bounding once |
| `TextBounds.CutTextExactly` | src/session/bounds.ts:17-29 | A text over its budget is the longest head and the longest tail that fit half of the rest each, around the marker with its byte count in decimal, and the two ends share no unit of it |
| `TextBounds.CutMarkerExactly` | src/session/bounds.ts:23 | When the marker fills the budget, the longest part of it that fits is all there is |
| `TextBounds.PreviewIsTheFirstThatFits` | src/session/bounds.ts:36-46 | A value over its budget becomes the record with the first preview that fits, the budgets shrinking by a fifth, or with an empty one |
| `TextBounds.BoundUnknownLoop` | src/session/bounds.ts:31-47 | The shrinking loop computes the specified preview record |
| `TextBounds.BoundUnknownFits` | src/session/bounds.ts:31-47 | The budget is kept if and only if the value fits or there is room for the record with an empty preview |
| `TextBounds.BoundUnknownFitsStrings` | src/session/bounds.ts:31-47 | From 256 bytes on, for every string a JavaScript engine can hold, the budget is kept and bounding again changes nothing |
| `ProcessBuffer.SafeTailIsLongest` | src/process/manager.ts:563-567 | No longer suffix of whole characters fits than the one that is kept |
| `ProcessBuffer.SafeTailNearlyFills` | src/process/manager.ts:563-567 | The kept tail is well-formed UTF-8 and is everything or misses the budget by at most three bytes |
| `ProcessBuffer.SafeTailAbsorbs` | src/process/manager.ts:386-400 | Trimming as one goes is trimming at the end: cutting the tail of what was already cut gives the tail of the whole stream |
| `ProcessBuffer.BoundedUtf8Buffer.Append` | src/process/manager.ts:374-401 | After any appends the chunks hold the longest whole-character tail of the whole stream that fits, with its counters, and the flag is set exactly when one of the appends overfilled |
| `ProcessBuffer.BoundedUtf8Buffer.PushAndTrim` | src/process/manager.ts:386-400 | The trimming loop ends, whatever the chunks, with the tail of what was kept and pushed |
| `ProcessBuffer.BoundedUtf8Buffer.SafeUtf8Start` | src/process/manager.ts:569-572 | The next character boundary, or the end |
| `ProcessBuffer.BoundedUtf8Buffer.SafeUtf8End` | src/process/manager.ts:574-579 | The last character boundary not after the end |
| `ProcessBuffer.BoundedUtf8Buffer.Read` | src/process/manager.ts:403-426 | A read, though only the tail is kept, is the page of the whole stream; it is refused exactly for an offset that is negative or a length that is not positive, or for either above 2^53 - 1 |
| `ProcessBuffer.PageExactly` | src/process/manager.ts:403-426 | A page begins with the first character at or after the position asked for or what is retained, spans at most the length where one more character would not fit, ends with the stream without a length, and reports truncation exactly when the flag is set or the position is gone |
| `ProcessBuffer.PageAfterAppends` | src/process/manager.ts:374-426 | After any appends a page reports truncation if and only if the stream is over the limit, one append filled the buffer, or the position asked for is gone; without an offset it begins with what is retained |
| `ProcessBuffer.PageIsWholeCharacters` | src/process/manager.ts:412-414 | Every page is whole characters |
| `ProcessBuffer.PageAdvances` | src/process/manager.ts:403-426 | A read from a retained boundary starts there, and moves on exactly when the next character fits the length |
| `ProcessBuffer.NoSilentGap` | src/process/manager.ts:419-424 | A page that starts after the requested boundary reports truncation |
| `ProcessBuffer.PagesReconstruct` | src/process/manager.ts:403-426 | Paging by four bytes or more, each page from the end of the last, ends and yields everything without gap or overlap |
| `ProcessBuffer.PagesJoinUp` | src/process/manager.ts:374-426 | Over every run of appends and reads, each read from the end of the last page, the pages join up to the stream if and only if none of them starts later than asked; if they do not, one of them reports truncation |
| `ProcessBuffer.FlaggedExactly` | src/process/manager.ts:378-400 | Over any appends the truncated flag is set if and only if the stream is over the limit or one append filled the buffer by itself |
| `RuntimeStore.SetCallCases` | src/session/runtime-store.ts:127-134 | A known call is replaced in place; a new one goes last and evicts the oldest when full |
| `RuntimeStore.ApplyKeepsInv` | src/session/runtime-store.ts:30-95 | Every event keeps the order within its limit, free of duplicates and tied to the call map |
| `RuntimeStore.ReplayChangesNothing` | src/session/runtime-store.ts:30-95 | Consuming applied events again changes nothing when the calls they are about are settled |
| `RuntimeStore.ReplayExactly` | src/session/runtime-store.ts:30-134 | Over at most one history of events, replay changes nothing if and only if the calls are settled |
| `RuntimeStore.NoEvictionSettles` | src/session/runtime-store.ts:127-134 | Without an eviction inside the events, their calls are settled |
| `RuntimeStore.ReplayCanDiverge` | src/session/runtime-store.ts:62-76 | From fifty starts of the empty session, at the default history, two events with an eviction on which replay changes the state |
| `RuntimeStore.RestoreSnapshotExactly` | src/session/runtime-store.ts:97-125 | Restoring a snapshot gives the session back if and only if each row is listed under its own id and within its bounds |
| `RuntimeStore.CleanExactly` | src/session/runtime-store.ts:30-134 | Exactly the events whose ids and names fit keep a session restorable |
| `RuntimeSessionStores.RuntimeSessionStore.Consume` | src/session/runtime-store.ts:30-95 | Consuming moves the fields to the session after one more event, which `SessionHistory` describes, and keeps the invariant |
| `RuntimeSessionStores.RuntimeSessionStore.SetCall` | src/session/runtime-store.ts:127-134 | The eviction loop computes the specified session |
| `RuntimeSessionStores.RuntimeSessionStore.Restore` | src/session/runtime-store.ts:97-106 | Whatever was there is replaced by the snapshot's last rows, bounded |
| `RuntimeSessionStores.RuntimeSessionStore.TakeSnapshot` | src/session/runtime-store.ts:108-125 | The rows in order, with connection, device and authentication |
| `SessionHistory.RowTellsTheLastEvent` | src/session/runtime-store.ts:48-91 | After any events, each call that is still there is running, completed or failed as the last event about it says, with that event's name, times, result or error, and keeps from before only start time and payloads |
| `SessionHistory.CallIsListed` | src/session/runtime-store.ts:127-134 | An event about a call lists it in place, last, or last instead of the oldest; no other row changes, and no other event changes any |
| `SessionHistory.ControlTellsTheLastEvents` | src/session/runtime-store.ts:32-55 | After any events, device, authentication and connection are those of the last events that set them |
| `SessionHistory.EventsAreBounded` | src/session/bounds.ts:49-84 | Each text of a bounded event is within its limit, and the original when that is; ids and names of events that end a call are not bounded |
| `SessionHistory.RestoreListsTheLastRows` | src/session/runtime-store.ts:97-106 | A restored session lists the last rows of the snapshot in order and bounded, when their ids are distinct |
| `SessionSource.SynchronizeConverges` | src/client/session-source.ts:119-124 | A restored snapshot fed the pending events, some of which it contains, is the daemon's session at the last delivered event |
| `SessionSource.SynchronizeExactly` | src/client/session-source.ts:119-124 | With all pending events inside the snapshot, the client agrees with the daemon if and only if the replayed calls are settled |
| `SessionSource.LiveClientFollowsTheDaemon` | src/client/session-source.ts:100-152 | Over every run, a client that went live safely has, from then on, the daemon's session without the events whose frames were too large, which is the daemon's own as of the last delivered event when all frames fit |
| `SessionSource.NextKeepsInv` | src/daemon/ipc-server.ts:266-325 | Each step of daemon, socket and client, with frames that are dropped, keeps the positions of snapshot and events consistent |
| `SessionSource.OversizeRowBlocksTheClient` | src/client/ipc-client.ts:242-247 | No client goes live on a snapshot with a row whose frame is over 512 KiB |
| `SessionSource.OversizeEventIsLost` | src/daemon/ipc-server.ts:318-325 | A completed or failed call whose frame is over 512 KiB leaves a live client with another session than the daemon |
| `SessionSource.FirstOversizeEventExactly` | src/daemon/ipc-server.ts:318-325 | Over every run, at the first event whose frame is over 512 KiB a client that went live safely differs from the daemon if and only if the event changed the daemon's session: a new call, another row, or another connection, device or authentication |
| `SessionSource.QuotesEventIsLost` | src/ipc/protocol.ts:127-133 | There is such an event within all bounds: a result of 262144 quotes |
| `SessionSource.LongNameEventIsLost` | src/session/bounds.ts:60-63 | And another: a failed call keeps a tool name of any length |
| `SessionSource.ReconnectCanDiverge` | src/client/session-source.ts:119-124 | At the default history, a client goes live on a snapshot that contains all pending events and ends up with another session |
| `SessionSource.UndisturbedSyncIsSafe` | src/client/session-source.ts:100-124 | Going live is safe when ids fit, no replayed call was evicted and the pending buffer did not overflow |
| `SessionSource.OverflowLosesAnEvent` | src/client/session-source.ts:112-116 | One event too many for the pending buffer is lost for good |
| `SessionSources.IpcTuiSessionSource.SnapshotSettled` | src/client/session-source.ts:119-135 | A current attempt goes live with the synchronized store; a stale one touches neither store nor state |
| `SessionSources.IpcTuiSessionSource.ConnectSettled` | src/client/session-source.ts:108-118 | A connected attempt of the current generation waits for its snapshot; any other closes |
| `SessionSources.IpcTuiSessionSource.EventArrived` | src/client/session-source.ts:110-118 | Events are buffered before going live, consumed after, and dropped for a stale client |
| `SessionSources.IpcTuiSessionSource.HandleDisconnect` | src/client/session-source.ts:137-146 | Losing the live client starts one attempt of a new generation; there is never a second one |
| `SessionSources.IpcTuiSessionSource.Stop` | src/client/session-source.ts:65-74 | Everything under way is stale and the store is left alone |
| `SessionSources.IpcTuiSessionSource.CloseSettled` | src/client/session-source.ts:82-94 | A stale loop ends; the current one sleeps for the next delay of its schedule |
| `VisualLease.EveryStateIsGood` | src/daemon/ipc-server.ts:106-170 | Over every run only the holder is subscribed, a lease has exactly one timer, due at the end of the timeout, and no lease ran out before that |
| `VisualLease.FireKeepsInv` | src/daemon/ipc-server.ts:298-306 | A timer that runs ends its lease if and only if the holder was silent for the timeout, and is set again otherwise |
| `VisualLease.OverdueLeaseEnds` | src/daemon/ipc-server.ts:292-308 | Over every run a lease held past its timeout, whatever happens except a heartbeat of its holder, has ended for good or has its own timer as the only one, due, and running it ends the lease |
| `VisualLease.LeaseEndsExactly` | src/daemon/ipc-server.ts:123-165 | A lease ends if and only if its holder detaches or disconnects, the server stops, or the timeout is over; until then nobody else gets it |
| `VisualLease.LeaseBeginsExactly` | src/daemon/ipc-server.ts:236-259 | A lease begins if and only if a connected visual client attaches while nobody holds one |
| `VisualLease.NextBeats` | src/daemon/ipc-server.ts:156-163 | A heartbeat of the holder, and nothing else, is a sign of life after attaching |
| `VisualLease.ExpiryMeansSilence` | src/daemon/ipc-server.ts:292-308 | Over every run a lease that runs out was neither attached nor had a heartbeat of its holder within the timeout |
| `VisualLease.RecipientExactly` | src/daemon/ipc-server.ts:282-290 | Events go to the holder from its subscription on until its lease ends |
| `VisualLease.ClientsExactly` | src/daemon/ipc-server.ts:106-135 | Who is connected, with the mode of its last greeting |
| `DaemonIpcServers.DaemonIpcServer.AttachVisual` | src/daemon/ipc-server.ts:236-259 | A visual client gets a free lease or keeps its own; otherwise it is told since when another one is attached |
| `DaemonIpcServers.DaemonIpcServer.ScheduleLeaseExpiry` | src/daemon/ipc-server.ts:292-308 | The lease's timer is replaced by one for the rest of the timeout |
| `DaemonIpcServers.DaemonIpcServer.OnTimer` | src/daemon/ipc-server.ts:298-306 | The callback moves the fields to the specified state; a timer of another lease does nothing |
| `DaemonIpcServers.DaemonIpcServer.ReleaseVisualLease` | src/daemon/ipc-server.ts:310-317 | The timer, the subscription and the lease are gone |
| `DaemonIpcServers.DaemonIpcServer.OnClose` | src/daemon/ipc-server.ts:123-126 | A disconnect releases only the socket's own lease |
| `HistoryStore.AppendKeepsLimit` | src/daemon/history-store.ts:89-103 | After a successful write the file is within its limit, whatever it was before |
| `HistoryStore.CheckpointExactly` | src/daemon/history-store.ts:124-137 | A written checkpoint loads to a mirror of the live session if and only if no row was dropped to make it fit |
| `HistoryStore.CheckpointKeepsTheNewestRows` | src/daemon/history-store.ts:124-137 | A checkpoint keeps the longest suffix of the last fifty rows that fits, and is rejected exactly when not even none fit |
| `HistoryStore.AppendExactly` | src/daemon/history-store.ts:89-103 | An event becomes a line if and only if the file is below its compaction size and has room, and otherwise a checkpoint replaces the file; authentication is not written |
| `HistoryStore.LoadHasNoAuth` | src/daemon/history-store.ts:70-74 | Whatever the file holds, authentication is not brought back |
| `HistoryStore.ApplyKeepsMirror` | src/daemon/history-store.ts:70-74 | A replayed event keeps the loaded session a mirror of the live one |
| `HistoryStore.AppendMirrors` | src/daemon/history-store.ts:89-103 | One persisted event, as a line or as a checkpoint that fits, leaves a file that loads to the live session |
| `HistoryStore.ReplayMirrorsLive` | src/daemon/daemon.ts:62-176 | Over every run of events whose ids and names fit and of restarts, across any mix of lines and checkpoints, as long as those that are written fit, loading the file gives the live calls and device, and these are what they would be in one process that never ended |
| `HistoryStore.NoFileIsPersisted` | src/daemon/history-store.ts:42-87 | A daemon without a file is a start of such runs |
| `HistoryStore.BoundEventIdempotent` | src/session/bounds.ts:49-84 | Bounding an event twice is bounding it once |
| `HistoryWriter.HistoryStore.Append` | src/daemon/history-store.ts:89-103 | A queued append adds one specified write to what the chain will leave on disk |
| `HistoryWriter.HistoryStore.RunNext` | src/daemon/history-store.ts:118-122 | A chained write either happens and leaves the file within its limit, or leaves it alone; the chain goes on |
| `HistoryWriter.HistoryStore.WriteCheckpoint` | src/daemon/history-store.ts:124-157 | The row-dropping loop writes the specified checkpoint or fails without a write |
| `HistoryWriter.LoadInto` | src/daemon/history-store.ts:42-87 | The records applied to a store, one after the other, give the specified session |
| `CallTracker.QueueOfRemoveAt` | src/runtime/upstream-parser.ts:235-247 | Removing a call takes its id out of its tool's queue and leaves the other queues alone |
| `CallTracker.RunInvariant` | src/runtime/upstream-parser.ts:208-247 | Over every run no id is active twice and at most 128 are |
| `CallTracker.FirstInFirstOutExactly` | src/runtime/upstream-parser.ts:208-233 | Over a run, what left each tool's queue followed by what is in it is what arrived, if and only if no active call is tracked again |
| `CallTracker.LedgerCounts` | src/runtime/upstream-parser.ts:220-221 | Over every run what left a tool's queue, what is in it and what was lost by tracking it again add up to what arrived |
| `UpstreamParsers.RemoveTakesOut` | src/runtime/upstream-parser.ts:235-247 | The four collections of a list without a call are the four collections with that call taken out |
| `UpstreamParsers.UpstreamParser.TrackCall` | src/runtime/upstream-parser.ts:220-233 | The four collections become those of the list with the call last, the oldest evicted on overflow and only then reported |
| `UpstreamParsers.UpstreamParser.RemoveTrackedCall` | src/runtime/upstream-parser.ts:235-247 | The four collections become those of the list without the call |
| `UpstreamParsers.UpstreamParser.TakeCallId` | src/runtime/upstream-parser.ts:208-218 | The oldest active call of the tool is taken, or an id is made up and nothing changes |
| `UpstreamParsers.UpstreamParser.CompleteTool` | src/runtime/upstream-parser.ts:178-206 | The oldest call of the tool ends with its own duration; without one the collections stay tied if and only if the made-up id is not active |
| `UpstreamParsers.MadeUpIdCanBeActive` | src/runtime/upstream-parser.ts:178-182 | For any two tools and any time there is an active call with the made-up id, after whose completion the collections are those of no list of calls |
| `UpstreamParsers.SyntheticIdTells` | src/runtime/upstream-parser.ts:217 | A made-up id tells its tool and its time, so that it is never that of another completion of another tool or time |
| `McpQueue.NextKeepsInv` | src/mcp/handler.ts:150-201 | Every step keeps the limits, keeps slots busy while anyone waits, accounts for each arrival once, and serves each requester in order |
| `McpQueue.RunKeepsInv` | src/mcp/handler.ts:143-201 | The same over every run |
| `McpQueue.RequestersTakeTurns` | src/mcp/handler.ts:143-170 | Over every run only a release takes an entry from the queue to a slot, at most one: the first that waits for a requester other than the one served last, or the head if there is none; so one requester is served twice in a row only if nobody else waits |
| `McpQueue.EveryStepIsAccounted` | src/mcp/handler.ts:150-201 | Over every run a request starts, is rejected or waits last, a timer takes out its own entry, and a release hands its slot over or frees it |
| `McpQueue.DequeueLowersMeasure` | src/mcp/handler.ts:143-164 | A dequeue takes an entry or lowers twice its position plus one while the head's requester was served last |
| `McpQueue.BoundedOvertaking` | src/mcp/handler.ts:143-201 | An entry at position k has left the queue after 2k + 2 dequeues, whatever arrives or times out |
| `McpQueue.OperationHandler.StartNextFromQueue` | src/mcp/handler.ts:150-164 | The drain loop computes the specified state |
| `McpQueue.OperationHandler.ReleaseSlot` | src/mcp/handler.ts:166-170 | A release frees a slot and drains |
| `McpQueue.OperationHandler.AcquireSlot` | src/mcp/handler.ts:172-201 | Started exactly with a free slot, rejected exactly with a full queue, queued last otherwise |
| `McpQueue.OperationHandler.QueueTimeout` | src/mcp/handler.ts:188-196 | A timer removes its own entry, and nothing once that was started |
| `SchedulerSpec.DrainKeepsCore` | src/core/operation-scheduler.ts:206-233 | Draining keeps every count and leaves the class full or its queue empty |
| `SchedulerSpec.CancelKeepsInv` | src/core/operation-scheduler.ts:177-204 | An abort or a deadline keeps all invariants |
| `SchedulerSpec.SubmitKeepsInv` | src/core/operation-scheduler.ts:110-146 | A submission, whether refused, started or queued, keeps all invariants |
| `SchedulerSpec.EveryStateIsGood` | src/core/operation-scheduler.ts:110-233 | Over every run: limits hold, counts agree, a waiting operation means a full class, starts follow arrival within a class and are never aborted or late, and each operation is queued, running or settled exactly once |
| `SchedulerOutcomes.SubmissionIsPlaced` | src/core/operation-scheduler.ts:118-146 | Over every run a submission is cancelled if aborted, else exceeds its deadline if late, else runs if a slot is free, else is busy if a queue limit is reached, and else waits last; nothing else moves |
| `SchedulerOutcomes.FinishStartsTheFirstLive` | src/core/operation-scheduler.ts:206-233 | Over every run, when an operation finishes, those that wait before the first live one are rejected for their reason, aborted or late, that one runs, and the others stay |
| `SchedulerOutcomes.CancellingExactly` | src/core/operation-scheduler.ts:177-204 | Over every run the listener of a waiting operation rejects it if it is aborted and its timer if it has a deadline; otherwise nothing changes |
| `OperationSchedulers.OperationScheduler.Run` | src/core/operation-scheduler.ts:110-146 | A submission moves the fields to the specified state, and its answer says where the operation is |
| `OperationSchedulers.OperationScheduler.DrainClass` | src/core/operation-scheduler.ts:206-233 | The drain loop computes the specified state |
| `OperationSchedulers.OperationScheduler.OnAbort` | src/core/operation-scheduler.ts:183-186 | The listener rejects a waiting operation and does nothing to any other |
| `OperationSchedulers.OperationScheduler.OnDeadline` | src/core/operation-scheduler.ts:188-191 | The timer rejects a waiting operation and does nothing to any other |
| `OperationSchedulers.OperationScheduler.OnFinished` | src/core/operation-scheduler.ts:228-231 | A finished operation gives its slot back, is settled once and the class is drained |
| `ResponseBudget.Estimate` | src/core/response-budget.ts:174-212 | The early-exit estimator returns the exact size up to the limit and something larger beyond it |
| `ResponseBudget.TruncateUtf8Loop` | src/core/response-budget.ts:52-66 | The binary search keeps the longest prefix that leaves room for the ellipsis |
| `ResponseBudget.TruncateUtf8Idempotent` | src/core/response-budget.ts:52-66 | Truncating twice is truncating once, and the budget is kept from three bytes on |
| `ResponseBudget.BoundItemsIsPrefix` | src/core/response-budget.ts:128-148 | A bounded array holds the bounded forms of a prefix of the items, each prefix fits, and it stops at the limit or at the first item that does not fit |
| `ResponseBudget.BoundMembersIsPrefix` | src/core/response-budget.ts:150-172 | The same for objects, in key order |
| `ResponseBudget.BoundFits` | src/core/response-budget.ts:128-172 | A bounded array or object is within its budget if and only if the budget has room for an empty one |
| `ResponseBudget.BoundIdempotent` | src/core/response-budget.ts:96-172 | Bounding a second time changes nothing, for every value and budget |
| `ResponseBudget.UntouchedExactly` | src/core/response-budget.ts:96-172 | A value comes back as it is if and only if every string, count and size inside it is within the budget |
| `ResponseBudget.BoundValue` | src/core/response-budget.ts:96-126 | The pruner returns the specified value and raises the flag exactly when that differs from its input |
| `ResponseBudget.BoundArray` | src/core/response-budget.ts:128-148 | The loop over items, driven by the estimator, returns the specified items |
| `ResponseBudget.BoundObject` | src/core/response-budget.ts:150-172 | The loop over keys, driven by the estimator, returns the specified members |
| `ResponseBudget.BoundResponse` | src/core/response-budget.ts:31-44 | The reported size is exact, arrays and objects are within the budget, and they are reported truncated exactly when they came back changed, given room for an empty one |
| `ResponseSize.SizeExactly` | src/core/response-budget.ts:22-29 | The size aimed at is never more than that of the JSON text, and is that if and only if no string has anything to escape |
| `ResponseSize.CutStringExactly` | src/core/response-budget.ts:52-66 | A string that is cut is the longest prefix that fits beside the ellipsis, and the ellipsis |
| `ResponseSize.StringResponseFits` | src/core/response-budget.ts:80-94 | Limits are positive, and the limit for strings leaves room for the quotes |
| `Framing.FeedInTwo` | src/ipc/framing.ts:6-31 | Feeding two stretches is feeding the second from where the first ended |
| `Framing.JsonLineDecoder.Push` | src/ipc/framing.ts:6-31 | A push decodes what the stream decodes to; on a failure it delivers nothing and leaves nothing; the remainder stays within the limit |
| `Framing.JsonLineDecoder.End` | src/ipc/framing.ts:33-40 | What is left is decoded or fails, and is gone either way |
| `Framing.JsonLineDecoder.Append` | src/ipc/framing.ts:42-51 | A segment is added, or the frame is too long and everything is dropped |
| `Framing.ChunkingIsInvisible` | src/ipc/framing.ts:6-31 | Some push fails exactly when the stream does; otherwise the messages and the remainder do not depend on the chunks; before a failure only a prefix is delivered |
| `Framing.DecodesLines` | src/ipc/framing.ts:6-61 | A stream decodes if and only if each line is short enough and is blank or parses, and then yields the lines' messages |
| `Framing.RoundTrip` | src/ipc/protocol.ts:127-133 | Encoded messages, cut into chunks anywhere, come back in order with nothing left over |
| `Framing.LimitsDifferByOne` | src/ipc/protocol.ts:129-131 | The encoder's limit counts the line feed and the decoder's does not |
| `Grep.BeforeExactly` | src/search/manager.ts:354 | The context before a match is the last lines asked for if and only if some are asked for or the match is in the first line |
| `Grep.ContextIsWindow` | src/search/manager.ts:330-354 | With some context, each match carries the window of the file around its own line |
| `Grep.FoundExactly` | src/search/manager.ts:342-352 | Every match of every line is reported at its place in line and column order |
| `Grep.FoundInOrder` | src/search/manager.ts:300-314 | Matches come in line order |
| `Grep.AllWithMore` | src/search/manager.ts:334-352 | A further line completes the contexts that wait for it and brings its own matches |
| `Grep.StreamRefines` | src/search/manager.ts:286-367 | The streaming reader with its queue computes the file's matches as far as they fit |
| `SearchManagers.SearchJob.AddResult` | src/search/manager.ts:254-271 | A result is added below the limit, and the flag is set at it |
| `SearchManagers.SearchJob.EmitReady` | src/search/manager.ts:300-314 | What is ready at the head is reported in order up to the limit; beyond it the file is closed |
| `SearchManagers.SearchJob.OnLine` | src/search/manager.ts:330-359 | A line moves the reader to its specified state |
| `SearchManagers.SearchJob.MatchFileContent` | src/search/manager.ts:279-367 | The results grow by the file's matches as far as they fit |
| `SearchManagers.SearchJob.SearchFiles` | src/search/manager.ts:210-252 | The results are the first matches over all files up to the limit, and truncation is reported exactly when the limit is reached |
| `RecoveryPolicy.DecideCases` | src/doctor/recovery-policy.ts:58-108 | A restart is within the budget and past the cooldown; anything else keeps the recent restarts or forgets them late enough |
| `RecoveryPolicy.RunKeepsInv` | src/doctor/recovery-policy.ts:46-109 | Over every run in time order the stored history is a suffix of all restarts since the last reset and lacks only what is older than the window |
| `RecoveryPolicy.TrimmingIsInvisible` | src/doctor/recovery-policy.ts:53-56 | Over every run each decision is the one that the untrimmed log would give |
| `RecoveryPolicy.DecisionsExactly` | src/doctor/recovery-policy.ts:46-124 | Over every run each action by conditions on the observation and on all restarts since the last reset: restart if broken with budget left and past the cooldown, open circuit if broken with the budget spent, healthy if nothing speaks against it |
| `RecoveryPolicy.LogExactly` | src/doctor/recovery-policy.ts:62-109 | Over every run a restart is added to those that count, and a healthy tunnel forgets them if the last one, within the window, is the healthy time ago |
| `RecoveryPolicy.BudgetHolds` | src/doctor/recovery-policy.ts:87-93 | Between resets any `maxRestarts` + 1 restarts in a row span more than the window |
| `RecoveryPolicy.ResetsComeLate` | src/doctor/recovery-policy.ts:132-139 | A reset that forgets a restart comes at least the healthy time after the last restart |
| `RecoveryPolicy.DefaultPolicyKeepsTheCooldown` | src/doctor/recovery-policy.ts:39-44 | The default policy keeps its cooldown over every run |
| `RecoveryPolicy.CooldownExactly` | src/doctor/recovery-policy.ts:95-102 | The cooldown separates any two restarts of every run if and only if no restart is allowed, the cooldown is not positive, or no way of forgetting is faster than it |
| `SupervisorSpec.NextKeepsInv` | src/daemon/supervisor.ts:60-168 | Each step keeps exactly one owned runtime or one current restart while running is wanted, and neither otherwise |
| `SupervisorSpec.EveryStateIsGood` | src/daemon/supervisor.ts:60-168 | Over every run: one life at a time, restarts counted as runtimes created minus one, and degraded after an exit if and only if there were ten failures since the last healthy run |
| `SupervisorSpec.DownMeansRestarting` | src/daemon/supervisor.ts:164-168 | A wanted runtime that is down has a delay that brings it back, if and only if no creation has failed |
| `SupervisorSpec.StallsAreReachable` | src/daemon/supervisor.ts:105-107 | Runs that reach a failed creation, at the start and at a restart |
| `SupervisorSpec.StalledUntilStopped` | src/daemon/supervisor.ts:105-108 | After a failed creation nothing but a stop changes anything |
| `SupervisorSpec.RestartIsFresh` | src/daemon/supervisor.ts:60-81 | Stopping and starting while old delays are under way gives one fresh life |
| `SupervisorSpec.DelaysGrow` | src/daemon/restart-policy.ts:17-27 | Delays never get shorter without a healthy run, never exceed the degraded one, and start over after a healthy run |
| `SupervisorHistory.BackoffReachesTheRestart` | src/daemon/supervisor.ts:148-168 | Over every run the restart under way waits 1, 2, 5, 10, 30, then 60 seconds, and five minutes from the tenth failure since a healthy run on |
| `SupervisorHistory.RunsAreLifetimes` | src/daemon/supervisor.ts:105-146 | Over every run each run time is the time from the creation of its runtime to its end, never negative, and the last restart created the last runtime |
| `SupervisorHistory.EveryStepIsShown` | src/daemon/supervisor.ts:60-168 | Over every run the status after each step: phase, start times and counts, with no effect of events of other runtimes and of stale delays |
| `DaemonSupervisors.RestartPolicy.NextAfterExit` | src/daemon/restart-policy.ts:17-27 | The counters and the decision after an exit |
| `DaemonSupervisors.DaemonSupervisor.Start` | src/daemon/supervisor.ts:60-69 | The fields move to the specified state; starting twice does nothing |
| `DaemonSupervisors.DaemonSupervisor.Stop` | src/daemon/supervisor.ts:71-81 | The fields move to the specified state and every delay under way becomes stale |
| `DaemonSupervisors.DaemonSupervisor.StartRuntime` | src/daemon/supervisor.ts:105-128 | A launch that works, a start that throws and a creation that throws lead to the specified states |
| `DaemonSupervisors.DaemonSupervisor.HandleRuntimeEvent` | src/daemon/supervisor.ts:130-146 | Only events of the owned runtime have an effect |
| `DaemonSupervisors.DaemonSupervisor.HandleRuntimeExit` | src/daemon/supervisor.ts:148-162 | An exit asks for one restart of the current generation after the policy's delay |
| `DaemonSupervisors.DaemonSupervisor.RestartAfter` | src/daemon/supervisor.ts:164-168 | The end of a delay moves the fields to the specified state |
| `Installers.Disk.PromoteStagedFile` | src/platform/install.ts:246-263 | A staged file becomes current and the current one previous; a fault at any operation leaves the current one in place, and costs the previous one from the second operation on |
| `Installers.Disk.SwapCurrentAndPrevious` | src/platform/install.ts:265-288 | Both files change places, or, at any single fault, nothing changes; which of the two is fixed by the place of the fault |
| `Installers.Disk.SwapEach` | src/platform/install.ts:154-163 | What has a previous file is swapped in order up to the fault |
| `Installers.Disk.RollbackInstalledBuild` | src/platform/install.ts:138-174 | For a fault at any place or none, success and all files are as specified |
| `Installers.Disk.RollbackAll` | src/platform/install.ts:153-171 | Artifacts, then schema hash, then metadata are swapped, or what was swapped is swapped back |
| `Installers.Disk.PromoteEach` | src/platform/install.ts:202-219 | Staged files are promoted in order, or, at any fault, those before it are swapped back |
| `Installers.Disk.Stage` | src/platform/install.ts:194-200 | Staging touches nothing that is installed; a schema hash that cannot be written is left out of the build |
| `Installers.Disk.PromoteInstalledBuild` | src/platform/install.ts:176-225 | For a fault at any place or none, success and all installed files are as specified |
| `InstallSpec.FailedPromotionExactly` | src/platform/install.ts:202-219 | Wherever the fault is, a failed promotion leaves every current file as it was, if and only if every destination but the last has one or a file of the build is missing |
| `InstallSpec.FailedPromotionKeepsFiles` | src/platform/install.ts:202-219 | Whatever the disk and wherever the fault, a failed promotion leaves every current file in place; a destination that had none has none or the file of the build |
| `InstallSpec.PromotionLeavesANewFile` | src/platform/install.ts:214-219 | A disk and a fault at which a failed promotion leaves a file that was not there |
| `InstallSpec.SpoiledRollback` | src/platform/install.ts:138-225 | After a promotion that failed at any fault, a rollback with the names it then finds installs, for what had been promoted, the file of the failed build, and rolls back the rest |
| `InstallSpec.SpoiledRollbackFinds` | src/platform/install.ts:146-150 | If that rollback is possible it finds every artifact of the installed build |
| `InstallSpec.RollbackInstallsTheFailedBuild` | src/platform/install.ts:138-225 | A disk and a fault after which a rollback pairs the artifact of the failed build with the metadata of an older one |
| `InstallSpec.FailedRollbackExactly` | src/platform/install.ts:153-171 | Wherever the fault is, a failed rollback changes nothing, if and only if no artifact it swaps and not the schema hash has a previous file without a current one |
| `InstallSpec.RollbackLeavesAnOrphan` | src/platform/install.ts:166-171 | A disk and a fault at which a failed rollback leaves a file swapped |
| `InstallSpec.TwoRollbacks` | src/platform/install.ts:138-174 | A second rollback is possible if and only if there were current metadata, swaps the same names, and undoes the first if and only if none of them lacked a current file |
| `InstallSpec.PromoteThenRollback` | src/platform/install.ts:138-225 | After an update a rollback is possible if and only if there were valid metadata before, and then brings every current file back if and only if the update is reversible |
| `InstallSpec.RollbackCanMixBuilds` | src/platform/install.ts:160-163 | An update without a staged schema hash, after one with it, is not undone by a rollback |

## Left out

- Of `src/daemon/ipc-server.ts`, operation requests, status requests and the claiming of the socket path; a destroyed socket counts as connected until its `close` event.
- Frames as bytes: the size of an event's or a row's frame is a parameter of the reconnect model; of JSON only that a frame holds its result as a JSON string, and a tool's name, is used.
- Real sockets, files, child processes, timers and `fetch`: they are abstract steps, a map of files, and clock parameters.
- JSON text: a value is its tree or its serialization; `undefined`, big integers, functions, cycles and `__proto__` keys in responses, and the original value that `boundUnknown` hands through, are not part of this model. A value that `boundUnknown` leaves alone is its own serialization.
- Numbers are whole: the fractional factor 0.8 in `boundUnknown` is taken as four fifths, and fractional or non-finite options and timestamps are not part of this model.
- The line patterns and the other states of `UpstreamParser.pushLine`; the text and time of events, which the store does not keep; the texts of error messages and reasons.
- Redaction of persisted events, corrupt or oversized history files (a load stops at the first bad record), and write errors of the file system other than a checkpoint that is too large.
- Peak counters, log lines and the `started` flag of the queue in `src/mcp/handler.ts`; an entry in that queue is never marked as started.
- When timers fire: a deadline timer of the scheduler, a queue timer and a restart delay may end at any time; the length of the restart delay is recorded.
- Early termination, time-outs and stopping of searches, and searching for file names.
- Partially written copies, directory creation, permissions and read errors during an update. A failing operation on files has no effect, and at most one fails.
- Rollback between a single-file and a split layout is covered only through the names that the two metadata files give.
- Listeners that call back into the supervisor, the session store or the client while it notifies them; telemetry, the terminal interface, command dispatch, document formats and platform scripts.
- SearchManagers.SearchJob.MatchFileContent: a read error of the stream, which ends the file early, is not part of this model.
- HistoryStore.ReplayMirrorsLive: a restart comes between two writes, on a new store; what was queued and not yet written when a process ends is lost. It compares calls and device; the connection is compared only while the live session does not wait for authentication, since that is never persisted.
