# Verification of the Postgres-native chat pipeline

A Dafny model of how a chat message travels from an insert to the sockets of its room, and of the two
other places where the application's promises rest on interleaving: cursor readers and migrations.

- `Sequencer`, `MessageStore`: per-room numbering by the database triggers under concurrent transactions.
- `ListenManager`, `Backoff`, `ListenClients`, `PostgresService`: reference-counted LISTEN/UNLISTEN through a
  FIFO client queue, rollback on failure, re-listening over the live count map, the reconnect timer, and which
  client is open around a shutdown.
- `Batching`, `Registry`, `ChatWsService`: batch buffers with one flush timer, broadcast through the
  immediate queue, socket registries, cleanup, heartbeat, join and leave frames.
- `Membership`, `Frames`: join, leave and close frames against the subscription count, first with each frame
  handled at once, then with anything between the two parts of a join or a leave.
- `Pipeline`, `Seam`, `Sessions`, `Isolation`, `Guarantees`, `Scenarios`: all of it together, for any number of
  transactions, nodes, rooms and sockets: delivery order, the seam between history and live stream, what closes
  it, which rooms reach a socket, and concrete histories where a guarantee fails.
- `History`, `Pagination`, `ParseInt`, `Readers`: forward catch-up and backward pages on a log that grows
  between pages.
- `Migrations`: one runner's loop and any number of runners at once.
- `Delivery`: the load test's receiver monitor and sender ledger.
- `ChatTypes`, `EcmaMap`: shared entities, and the ECMAScript `Map` with its live iterator.

Each stateful piece appears twice. A step function on a value says what one step does to the whole state;
the run theorems are about sequences of these steps. A class with the service's own fields has one method
per service method, and its `ensures` equates the new state with the step function of the old one. An
`async` method is split at its awaits, so that steps of other calls can come in between: a join after its
registration and after its subscribe, a leave after its removal, a reconnect after it has begun to end the old
client. Only `Membership` also speaks of frames whose two parts run at once.

## What the environment is assumed to do

PostgreSQL: an UPDATE locks its row until the transaction ends; a commit publishes the transaction's
notifications, in the order raised, to the sessions listening at that moment; a primary-key insert waits for
an open transaction that inserted the same key and fails once that key is committed. The event loop runs
immediates in order. A list of a room's messages stands for the room's rows in `seq` order
(`Sequencer.GaplessSequencing` shows commit order is that order). `doReconnect` runs do not overlap, and ending
the old client rejects what it had not answered before the new one takes over. Whether a socket is open and
under the send threshold, whether a send throws, whether a command, a query or a migration fails, and which step
comes next are arbitrary.

## What does not hold, and exactly when

- A failed LISTEN or UNLISTEN with other calls on the room in between sets the count to 0 or 1 whoever has
  subscribed meanwhile. `OverlappedListenFailure` and `OverlappedUnlistenFailure` say exactly when that is still
  the count of the calls that succeeded, `ListenFailureSafety` and `UnlistenFailureSafety` exactly when the
  listening invariant survives; `ForgottenSubscriber` and `ForgottenAfterUnlisten` are concrete histories. With
  any number of failures the count is that of the calls since the last one (`CountAfterFailures`).
- A second subscriber does not wait for the first one's LISTEN (`SecondSubscriberDoesNotWait`) and may read its
  page before the node listens. The seam then has no gap exactly when, besides, no row is committed before the
  node listens (`HeardGapIff`); one that is committed before the answer is lost for good
  (`UnansweredListenLoses`), as in the run `SecondSubscriberMisses`.
- A joined socket can end up uncounted and deaf although nothing failed: a leave awaits a deletion before it
  unsubscribes, and other frames can come in between (`LateUnsubscribe`, `EarlyLeave`). Exactly two steps do it
  (`StepBackedIff`, `Harmful`): a join that goes on to subscribe when nobody is joined and more leaves are under
  way than are counted, and a leave by a socket that has not joined, without a spare subscription. Every joined
  socket is backed throughout a run exactly when neither is taken (`BackedIffHarmless`); then joined sockets are
  listened for (`JoinedImpliesListened`) and their seam stays closed (`Sessions.JoinedSeam`).
- A socket whose join is refused stays registered and is handed the room's messages (`RefusedStillServed`). A
  socket is registered exactly as long as no leave frame or close has followed its last join frame
  (`RegisteredIff`), and is served exactly the batches flushed while it is registered and open
  (`ServedExactly`), member or not; only if no one else sends join frames are all receivers members
  (`MembersOnly`).
- A listen client can be open after the service is destroyed, exactly when the destroy came while `doReconnect`
  was awaiting the end of the old client (`OutlivesIff`).
- Shutting the service down with buffered messages leaves them without a timer (`TimerArmedIffBuffered`) until
  a further notification is dispatched (`FlushPossibleIff`).
- While the node listens, the seam between history page and live stream has a gap exactly when some row that the
  page leaves out was not in flight to the socket already (`JoinGapIff`); with none of them in flight that is a
  backlog of more than 100 rows (`BacklogGapIff`), and such a state is reachable (`GapReachable`). The next page
  starts at the gap.
- A migration runner fails without fault of its own exactly when another runner commits a migration between its
  snapshot and its end (`FailsIffOvertaken`, `FailedIff`); two runners on a new database show it (`TwoRunners`).
- The repository's README speaks of 20 ms batch windows; the code uses 30 ms. The model has no clock.

## Model

| member | source | states |
|---|---|---|
| Sequencer.GaplessSequencing | db/migrations/001_init.sql:155-169 | Over all interleavings of insert transactions with commits and aborts, a room's committed numbers are exactly 1..next_seq-1, each once, in commit order, and the notification stream is the committed log. |
| Sequencer.LogExact | db/migrations/001_init.sql:155-169 | Over every run, read off its steps: the log is what the committed transactions inserted, in commit order, and nothing of open, aborted or failed ones. |
| Sequencer.WaitsIff | db/migrations/001_init.sql:158-161 | Over every run, read off its steps: an insert waits exactly while another transaction has inserted into the room and not ended; a transaction can end exactly while it has inserted something. |
| Sequencer.SeqUnique | db/migrations/001_init.sql:60 | Two committed messages of one room never share a number: the unique index (room_id, seq) is never violated. |
| Sequencer.StepInv | db/migrations/001_init.sql:140-169 | Each of room creation, insert, commit and abort keeps the numbering invariant: only the lock holder has uncommitted numbers, continuing the committed ones. |
| Sequencer.HistoryGrows | db/migrations/001_init.sql:47-55 | A snapshot of a room is a prefix of every later snapshot. |
| Sequencer.AbortUndoes | db/migrations/001_init.sql:155-165 | An abort, or an insert that fails, after any sequence of inserts restores every sequence row and the log. |
| MessageStores.MessageStore.InsertMessage | db/migrations/001_init.sql:155-169 | The two row triggers in place: the number assigned, the transaction's rows and notifications, and failure when the room has no sequence row; keeps the invariant. |
| MessageStores.MessageStore.AssignRoomSequence | db/migrations/001_init.sql:158-161 | Returns the value next_seq had, moves the row up by one and leaves it locked by the transaction. |
| MessageStores.MessageStore.InitRoomSequence | db/migrations/001_init.sql:140-152 | A room's row starts at 1 and is created once. |
| MessageStores.MessageStore.Commit | db/migrations/001_init.sql:86-107 | A commit appends the transaction's rows and notifications and releases its locks. |
| ListenManager.QueueRefinesCounts | src/postgres/postgres.service.ts:277-318 | For every failure-free interleaving, replaying the queue on the server's listening set gives exactly the counted rooms, and every stored count is positive. |
| ListenManager.Resubscription | src/postgres/postgres.service.ts:188-230 | After a reconnect from any earlier history, failures included, every counted room is listened to after draining or still ahead of the map iterator, nothing uncounted is, and when the loop ends the drained set is the map's keys. |
| ListenManager.RelisteningCompletes | src/postgres/postgres.service.ts:188-225 | After a reconnect from any earlier history, turns of the loop and answers take it to its end, with nothing queued and exactly the counted rooms listened to; with nothing in between that is its only way, of two steps per room and one more. |
| ListenManager.LoopGoesOn | src/postgres/postgres.service.ts:191-193 | In every run the loop awaits exactly while its one re-LISTEN is queued; a good answer to it enables the next turn, a bad one ends the loop, any other answer leaves it alone. |
| ListenManager.LostSessionIsDeaf | src/postgres/postgres.service.ts:183-185 | From a lost session until a reconnect nothing is listened to and no command succeeds. |
| ListenManager.AlwaysRecovers | src/postgres/postgres.service.ts:212-230 | From every state, once the queued commands are rejected, a reconnect and turns of the loop lead to a live session that listens to exactly the counted rooms. |
| ListenManager.StepListened | src/postgres/postgres.service.ts:188-194 | Each failure-free step, a turn of the live iteration included, keeps that invariant. |
| ListenManager.ReplayLast | src/postgres/postgres.service.ts:285-312 | Whether a room is listened to after draining depends only on its last queued command. |
| ListenManager.ReflectedWalk | src/postgres/postgres.service.ts:277-318 | As long as no call on the room has its LISTEN or UNLISTEN fail, whatever fails for others and however often sessions are lost, the count is the walk of +1 and -1 calls reflected at zero: last prefix sum less least prefix sum. |
| ListenManager.LowestIsLeastPrefix | src/postgres/postgres.service.ts:300-301 | The reflecting term is the least of all prefix sums and is attained. |
| ListenManager.CommandsAlternate | src/postgres/postgres.service.ts:282-312 | Under the same condition the commands issued for a room strictly alternate LISTEN, UNLISTEN, LISTEN, ... |
| ListenManager.IssuedAreQueued | src/postgres/postgres.service.ts:285-312 | Those commands are exactly what a call appends to the client's queue. |
| ListenManager.FailedCallsCountForNothing | src/postgres/postgres.service.ts:277-318 | With failures that no other call on their room overlaps, and any failures of other rooms, lost sessions and reconnects, the count is the reflected walk of the calls that succeeded. |
| ListenManager.FirstInFirstOut | src/postgres/postgres.service.ts:285-312 | After k answers the commands that were queued behind the first k are at the front of the queue, in order. |
| ListenManager.CountAfterFailures | src/postgres/postgres.service.ts:277-318 | After any run whatsoever, with any number of failing and overlapping commands, the count is that of the calls since the last failure on the room, from the 0 or 1 that failure restored. |
| ListenManager.OverlappedListenFailure | src/postgres/postgres.service.ts:286-290 | When the LISTEN of a given subscribe fails after any calls in between, with no other command of the room failing meanwhile, the count becomes 0; it is the count of the calls that succeeded exactly when it stood for the failed call alone, or for nobody once unsubscribes had used that call up. |
| ListenManager.OverlappedUnlistenFailure | src/postgres/postgres.service.ts:313-317 | When the UNLISTEN of a given unsubscribe fails after any calls in between, with no other command of the room failing meanwhile, the count becomes 1; it is the count of the calls that succeeded exactly when it stood for nobody, or for one once unsubscribes had taken the failed call's place. |
| ListenManager.ForgottenSubscriber | src/postgres/postgres.service.ts:282-290 | A concrete history in which a second subscriber's count is lost. |
| ListenManager.ForgottenAfterUnlisten | src/postgres/postgres.service.ts:304-317 | A concrete history in which a failed UNLISTEN leaves count 1 for three subscribers. |
| ListenManager.ListenFailureSafety | src/postgres/postgres.service.ts:286-290 | After a failed LISTEN the safety invariant holds exactly when no later LISTEN for the room is last in the queue and the server was not listening. |
| ListenManager.UnlistenFailureSafety | src/postgres/postgres.service.ts:313-317 | After a failed UNLISTEN it holds exactly when the room stays listened to or a re-listening loop is under way. |
| ListenManager.CountedStaysListened | src/postgres/postgres.service.ts:299-312 | While a room's count stays positive and the session and client stay up, whichever commands fail, a listened room with no UNLISTEN in flight stays so. |
| Backoff.ReconnectBackoff | src/postgres/postgres.service.ts:196-230 | In every run, read off its steps: one timer is pending and can fire exactly while a reconnect is asked for and not attempted, it is the known one, and the k-th arming since the last success waits min(1000*2^k, 30000) ms. |
| Backoff.AskingArms | src/postgres/postgres.service.ts:183-205 | An error or a failed attempt on a service not destroyed leaves one timer pending: the one there was, or a new one that waits min(1000*2^k, 30000) ms, k timers having been armed since the last success. |
| Backoff.NoTimerAfterDestroy | src/postgres/postgres.service.ts:236-241 | After a destroy, wherever it comes in a run, no timer is pending or armed again. |
| PostgresServices.PostgresService.SubscribeToRoomChannel | src/postgres/postgres.service.ts:277-285 | Count up, LISTEN only from zero, nothing else changed. |
| PostgresServices.PostgresService.UnsubscribeFromRoomChannel | src/postgres/postgres.service.ts:299-312 | Count down, UNLISTEN and entry removal only at zero, no effect on an absent room. |
| PostgresServices.PostgresService.OnRejected | src/postgres/postgres.service.ts:286-317 | The rollback of the failed command. |
| PostgresServices.PostgresService.EnsureListenChannelsTurn | src/postgres/postgres.service.ts:191-193 | One turn of the loop: the live iterator's next key is re-listened, or the loop ends. |
| PostgresServices.PostgresService.ScheduleReconnect | src/postgres/postgres.service.ts:196-210 | Arms one timer with the current delay and doubles the next, unless destroyed or already armed. |
| PostgresServices.PostgresService.OnReconnectTimer | src/postgres/postgres.service.ts:206-217 | The callback clears the timer and goes on to replace the client unless destroyed; nothing else changes yet. |
| PostgresServices.PostgresService.OnOldClientEnded | src/postgres/postgres.service.ts:217-225 | Once the old client has ended, a new one with an empty session takes its place and the room loop starts, destroyed or not. |
| ListenClients.OutlivesIff | src/postgres/postgres.service.ts:212-244 | In every run of reconnects and losses, a client can be open after a destroy exactly when the destroy came while the old client was being ended. |
| ListenClients.ClosedUntilConnected | src/postgres/postgres.service.ts:212-244 | Once the connection breaks, the service is destroyed or a live service starts to replace its client, no client is open until a later connection succeeds. |
| PostgresServices.PostgresService.OnModuleDestroy | src/postgres/postgres.service.ts:236-241 | Marks the service destroyed and cancels the pending timer. |
| Batching.Conservation | src/chat/chat-ws.service.ts:103-129 | Per room, broadcast batches followed by the buffer are exactly what was enqueued, in order and unmixed; no broadcast batch is empty. |
| Batching.TimerArmedIffBuffered | src/chat/chat-ws.service.ts:90-129 | In every run of the service the timer is armed exactly when a message is buffered. |
| Batching.BufferedIsDelivered | src/chat/chat-ws.service.ts:111-129 | In every state of a running service with a message buffered, the timer can fire and the jobs can run; then nothing is left and each registered open socket has been handed what was scheduled and the buffer behind it. |
| Batching.FlushSchedules | src/chat/chat-ws.service.ts:118-129 | A flush schedules for a socket exactly the buffers of its rooms, provided it is open and under the threshold. |
| Batching.BatchesInOrder | src/chat/chat-ws.service.ts:118-129 | A flush broadcasts in the order in which the map holds the buffers. |
| ChatWsServices.ChatWsService.EnqueueRoomMessage | src/chat/chat-ws.service.ts:103-116 | The message joins its room's buffer and the timer is armed. |
| ChatWsServices.ChatWsService.FlushRoomMessageBatches | src/chat/chat-ws.service.ts:118-129 | The loop broadcasts every non-empty buffer in map order and clears the map. |
| ChatWsServices.ChatWsService.BroadcastToRoom | src/chat/chat-ws.service.ts:402-427 | Schedules one job for the room's open sockets under the threshold, or none. |
| Batching.NoIdleJobs | src/chat/chat-ws.service.ts:402-427 | In every run no job is scheduled without a message or without a socket. |
| ChatWsServices.ChatWsService.RunImmediate | src/chat/chat-ws.service.ts:418-426 | The loop hands the batch to each socket, skipping failed sends. |
| ChatWsServices.ChatWsService.CleanupSocket | src/chat/chat-ws.service.ts:370-395 | The loop over the live room map removes the socket everywhere and unsubscribes the emptied rooms in order. |
| ChatWsServices.ChatWsService.RemoveSocketFromRoom | src/chat/chat-ws.service.ts:349-361 | Removes one registration; the last one drops the entry and unsubscribes once. |
| ChatWsServices.ChatWsService.Heartbeat | src/chat/chat-ws.service.ts:312-326 | The loop cleans up and terminates exactly the clients marked dead and marks the others. |
| ChatWsServices.ChatWsService.HandleJoinFrame | src/chat/chat-ws.service.ts:266-270 | Up to the await of the membership query: the socket is registered, nothing else. |
| ChatWsServices.ChatWsService.ResumeJoin | src/chat/chat.service.ts:46-60 | The answer of the membership query: a member subscribes, anyone else stays as registered as before. |
| ChatWsServices.ChatWsService.HandleLeaveFrame | src/chat/chat-ws.service.ts:274-279 | Up to the await of the deletion: the removal, with its own unsubscribe when it empties the room. |
| ChatWsServices.ChatWsService.ResumeLeave | src/chat/chat.service.ts:113-117 | The leave's own unsubscribe, if the deletion succeeded. |
| Registry.CleanupExact | src/chat/chat-ws.service.ts:370-395 | Cleanup removes the socket from every room and user set, changes no other registration and drops exactly the sets left empty. |
| Registry.CleanupUnsubscribesOnce | src/chat/chat-ws.service.ts:386-393 | Each room emptied is unsubscribed exactly once, and no other room. |
| Registry.CleanupInOrder | src/chat/chat-ws.service.ts:381-393 | The rooms are unsubscribed in the order in which the map holds them. |
| Registry.CleanupIdempotent | src/chat/chat-ws.service.ts:179-185 | A second cleanup changes nothing and unsubscribes nothing. |
| Registry.CleanupWellFormed | src/chat/chat-ws.service.ts:376-388 | No stored set is ever empty after a cleanup. |
| Registry.SweptAhead | src/chat/chat-ws.service.ts:381-388 | While the live iteration deletes entries behind it, the entry it comes to is still in its place with its sockets. |
| Registry.BeatExact | src/chat/chat-ws.service.ts:312-326 | One beat removes exactly the clients marked dead from all rooms and users, keeps all other registrations, and leaves every client marked. |
| Registry.TerminatedIff | src/chat/chat-ws.service.ts:312-326 | Over every history of connections, pongs and beats, a beat terminates exactly those of its clients that an earlier beat has reached and that have been silent since. |
| Pipeline.EndToEndOrder | src/chat/chat-ws.service.ts:103-129 | In every run of writers, nodes, rooms and sockets, with joins, leaves, closes, skips, failed sends and reconnects, the live messages handed to a socket for a room, and all those behind them, are committed rows in strictly increasing number order. |
| Pipeline.StepInv | src/postgres/postgres.service.ts:144-161 | Each step of the database or of a node keeps that invariant for every node, socket and room. |
| Pipeline.NotifyStream | src/postgres/postgres.service.ts:144-161 | The notifications of a commit lengthen a listening node's stream by exactly the room's new rows, and leave the stream of a node that does not listen. |
| Pipeline.DispatchStream | src/postgres/postgres.service.ts:145-161 | Dispatching a notification into its buffer changes no stream. |
| Pipeline.NodeStepStream | src/chat/chat-ws.service.ts:402-427 | Every step of a node leaves a stream as it is or loses one contiguous stretch of it; nothing is added or reordered. |
| Pipeline.LostNotifications | src/postgres/postgres.service.ts:212-225 | What a lost session or a replaced client costs a stream: exactly the room's notifications not yet dispatched, past those that still arrive. |
| Pipeline.FlushPossibleIff | src/chat/chat-ws.service.ts:90-116 | In every run a node's flush is possible exactly when a notification was dispatched on it that neither a flush nor its shutdown followed. |
| Seam.AttachedRun | src/chat/chat.service.ts:60-84 | While a socket is registered and able to receive, listened for or not, its stream grows by exactly the rows committed while its node listens. |
| Seam.HeardGapIff | src/chat/chat.service.ts:60-84 | For every run up to the page and every run after it with the socket registered and able to receive, there is no gap exactly when every row from the page's cursor on was in flight at the page or heard after it; for a client not ahead of the log, when every row the page leaves out was in flight and no row was committed while the node did not listen. |
| Seam.UnansweredListenLoses | src/postgres/postgres.service.ts:282-290 | A row committed after a page was read and before the room's LISTEN is answered is a gap in every later state. |
| Scenarios.SecondSubscriberMisses | src/postgres/postgres.service.ts:277-285 | A concrete run in which the second of two members joins, reads its page and never gets the message posted next. |
| Seam.SeamRun | src/chat/chat.service.ts:60-84 | While a socket is registered, listened for and able to receive, its stream grows by exactly the rows committed meanwhile. |
| Seam.JoinSeam | src/chat/chat.service.ts:60-84 | Every row beyond last_seen_seq committed by a later state is in the history page, handed over or in the node's pipeline, or in the part of a backlog over 100 that the next page starts at. |
| Seam.SubscribedSeam | src/postgres/postgres.service.ts:277-312 | The same from the node's own bookkeeping: an answered LISTEN with no UNLISTEN queued, and then a count that stays positive, failed commands included. |
| Sessions.JoinedSeam | src/chat/chat-ws.service.ts:266-280 | The same from the frames alone: once a socket has joined and its LISTEN is answered, the seam stays closed through every interleaving of other joins, leaves, closes and steps of the system without a harmful one. |
| Seam.BacklogGapIff | src/chat/chat.service.ts:63-76 | While the node listens and none of the rows the page leaves out is in flight, there is no gap exactly when the backlog is at most 100. |
| Seam.JoinGapIff | src/chat/chat.service.ts:63-76 | Over every run before the page and every later run during which the node listens, there is no gap exactly when every row the page leaves out was in flight to the socket. |
| Scenarios.GapReachable | src/chat/chat.service.ts:63-76 | For every last_seen_seq a run leads to a joined, listened-for socket with such a gap. |
| Isolation.OnlyJoinedRooms | src/chat/chat-ws.service.ts:402-427 | In every run a socket is registered for, scheduled for and handed messages of only the rooms it has sent a join frame for on that node. |
| Isolation.HandedAfterJoin | src/chat/chat-ws.service.ts:266-272 | A message reaches a socket only after a join frame of that socket for the message's room. |
| Isolation.RegisteredIff | src/chat/chat-ws.service.ts:266-280 | In every run a socket is registered for a room exactly when the last of its join frames, leave frames and closes for it is a join frame, refused or not. |
| Isolation.ServedExactly | src/chat/chat-ws.service.ts:402-427 | In every run in which its sends succeed, what a socket has been handed of a room and is scheduled for is exactly the batches flushed while it was registered and open. |
| Scenarios.RefusedStillServed | src/chat/chat-ws.service.ts:269-270 | A concrete run in which a socket whose join is refused is handed the room's next message. |
| Frames.StepBackedIff | src/chat/chat.service.ts:46-117 | Exactly which steps, among frame parts, answers, closes and queue steps, can leave a joined socket without a subscription of its own: two, both found by looking at the counts. |
| Frames.BackedIffHarmless | src/chat/chat-ws.service.ts:266-280 | Over every interleaving, every joined socket is backed in every state exactly when no such step is taken. |
| Frames.BackedIffSurvives | src/chat/chat.service.ts:108-118 | Being backed is exactly staying counted however many of the leaves under way come to their unsubscribe. |
| Frames.JoinedImpliesListened | src/chat/chat-ws.service.ts:266-280 | In failure-free runs without such a step the count covers the joined sockets, and a room with one is listened to once the queue drains, whatever comes between the parts of the frames. |
| Frames.RegisteredImpliesListened | src/chat/chat-ws.service.ts:266-280 | Among members, the same for every registered socket whose joins are answered. |
| Frames.AnswersPossibleIff | src/chat/chat-ws.service.ts:266-280 | In every run, read off its steps: a join or a leave is answered exactly as long as more of them have been sent than answered; frames and the client's own steps can always come. |
| Frames.LateUnsubscribe | src/chat/chat.service.ts:113-117 | A concrete failure-free run of members in which a leave unsubscribes after another join: the new member is registered, joined, uncounted and not listened for. |
| Frames.EarlyLeave | src/chat/chat.service.ts:46-60 | A concrete run in which a leave that overtakes its own join takes another member's subscription. |
| Membership.LateUnsubscribeIff | src/chat/chat.service.ts:113-117 | A leave's own unsubscribe, whenever it comes, keeps the counts sufficient exactly when the room has no sockets or a spare subscription. |
| Membership.CloseEnough | src/chat/chat-ws.service.ts:381-393 | A close keeps them sufficient although it decrements only emptied rooms. |
| Guarantees.OneRoomReceiver | loadtest/k6-message-delivery.js:54-62 | In every run the duplicate and order counters of a receiver that joins one room only stay 0. |
| History.PageOfLog | src/chat/chat.service.ts:62-76 | A history page is the stretch of at most 100 rows just after last_seen_seq, and next_cursor is its end. |
| History.CatchUpContiguous | src/chat/chat.service.ts:62-84 | From any last_seen_seq, joins that follow next_cursor on a growing log return exactly the rows last_seen+1..cursor, and nothing while the client is ahead of the log. |
| History.CatchUpDrains | src/chat/chat.service.ts:62-84 | A fixed backlog of n takes exactly ceil(n/100) non-empty pages, after which the cursor is a fixed point. |
| History.CursorAhead | src/chat/chat.service.ts:75-76 | On a growing log a client keeps its cursor and gets nothing exactly as long as no join has seen a row beyond it. |
| Pagination.Traversal | src/chat/chat.controller.ts:74-118 | Following next_cursor from a first call until null returns the exact reverse of the log at the first call, whatever is inserted meanwhile. |
| Pagination.CallBelow | src/chat/chat.controller.ts:84-113 | Each returned cursor is accepted by the next call and strictly smaller, so the traversal ends, also when the length is a multiple of the limit. |
| Pagination.PageOfLog | src/chat/chat.controller.ts:84-113 | A page is the newest eligible rows in reverse; its cursor is null exactly when it came up short. |
| Pagination.LimitOfNumber | src/chat/chat.controller.ts:74-77 | A numeric limit is clamped to 1..100; 0, absent and no number mean 50. |
| Pagination.AnsweredIff | src/chat/chat.controller.ts:69-82 | Whatever the room holds and whatever limit is asked for, a request is answered exactly for a member whose cursor is absent, empty or reads as at least 1; a non-member is refused as such, a member with any other cursor for the cursor. |
| Pagination.PrintedCursor | src/chat/chat.controller.ts:69-82 | A cursor printed from a number is answered to members exactly from 1 up, and never when negative. |
| ParseInt.ParseDecimal | src/chat/chat.controller.ts:78 | A cursor printed into the URL parses back to itself. |
| ParseInt.ReadsIff | src/chat/chat.controller.ts:74-80 | A text is read as a number exactly when it splits into white space, a sign or none, the digits of that number and a rest that starts with no digit; otherwise it is no number. |
| Readers.ReadersUnderInserts | src/chat/chat.controller.ts:84-113 | Over every interleaving of insert transactions between the pages, pagination returns the reverse of the first call's log and catch-up the rows last_seen+1..cursor. |
| Migrations.ConcurrentMigrations | scripts/migrate.js:30-66 | For any number of interleaved runners, committed versions are always a prefix of the files, each effect is committed at most once, and a runner that ends without failure leaves all applied. |
| Migrations.OvertakenRunnerFails | scripts/migrate.js:39-64 | A runner with a file ahead of it that was applied after its snapshot never records a migration or ends without failure again, whatever happens. |
| Migrations.FailsIffOvertaken | scripts/migrate.js:32-64 | In every interleaving, a runner that has ended, whose own SQL did not fail and that did not crash, has failed exactly when another runner committed a migration between its snapshot and its end. |
| Migrations.FailedIff | scripts/migrate.js:32-64 | In every interleaving a runner that has ended has failed exactly when its own SQL failed, it crashed, or it was overtaken so. |
| Migrations.SqlFailureStops | scripts/migrate.js:60-64 | A runner whose SQL fails takes no further step, whatever the others do, and stays failed. |
| Migrations.NeverStuck | scripts/migrate.js:41-66 | In every reachable state a runner that has not ended can take its next step, unless it inserts a key another runner holds uncommitted; and that runner can commit. |
| Migrations.LoneRunFinishes | scripts/migrate.js:41-66 | A lone runner whose SQL does not fail has a run that applies every missing file and ends well. |
| Migrations.TwoRunners | scripts/migrate.js:32-64 | A concrete run of two runners in which one fails although no migration does. |
| Migrations.MigrationRunner.Run | scripts/migrate.js:41-66 | The loop skips applied files, applies the others in order and stops with exit code 1 at the first failure. |
| Migrations.LoneRunExtendsPrefix | scripts/migrate.js:41-66 | A lone run extends an applied prefix exactly up to the first unapplied file whose SQL fails. |
| Delivery.DuplicatesExact | loadtest/k6-message-delivery.js:331-336 | The duplicate counter is the number of valid messages less the number of distinct seqs. |
| Delivery.OrderCounterExact | loadtest/k6-message-delivery.js:338-345 | The order counter is the number of valid messages behind one of the same sender with at least their seq, so zero exactly when each sender's arrive in strictly increasing order; the monitor always holds each sender's largest seq. |
| Delivery.MonitorStaysSilent | loadtest/k6-message-delivery.js:320-346 | A stream that selects a room's rows in order raises neither counter. |
| Delivery.Receiver.ProcessBatch | loadtest/k6-message-delivery.js:377-381 | A batch frame is observed message by message. |
| Delivery.Receiver.ProcessMessage | loadtest/k6-message-delivery.js:320-346 | The monitor's update for one message, invalid ones only counted as received. |
| Delivery.SenderConservation | loadtest/k6-message-delivery.js:198-294 | Pending contents are the unconfirmed ones, sent is delivered plus outstanding and at most the limit, and after close there is one rate sample per message sent. |
| Delivery.LedgerExact | loadtest/k6-message-delivery.js:198-294 | The ledger from the events alone: a content is outstanding exactly when it was sent and nothing carrying it has arrived since; delivered counts those with such an arrival, successes those whose first is valid; sent, samples and send times likewise. |
| Delivery.EventsPossibleIff | loadtest/k6-message-delivery.js:192-296 | The sender takes whatever comes until its socket closes, and nothing after it. |
| Delivery.FreshContent | loadtest/k6-message-delivery.js:201-205 | The next content differs from every outstanding one. |
| Delivery.Sender.SendLoop | loadtest/k6-message-delivery.js:198-217 | Sends the next unique content until the limit. |
| Delivery.Sender.ProcessReceivedMessage | loadtest/k6-message-delivery.js:223-237 | Counts the first echo of an outstanding content and ignores everything else. |
| Delivery.Sender.OnClose | loadtest/k6-message-delivery.js:283-294 | The loop counts each outstanding content as a failure and clears both records. |

## Left out

- Authentication, sessions, users, payload validators, DTOs and routing: flat branches and library internals.
- Presence and typing rows, their notifications, broadcasts and the sweep: single statements and wall-clock time.
- Message content, ids, user names and timestamps of a message: carried along unchanged, nothing depends on them.
- The membership query and `handleSendMessage`'s checks: the answer is a parameter, an accepted send is an insert.
- The statement-timeout wrapper, `transaction` and the driver's text form of BIGINT; `seq` is a natural number without double rounding.
- The LISTENs of the two global channels before the room loop: they touch no room.
- EnsureListenChannelsTurn: models one turn of the re-listening loop, because other calls come in at each `await`; the loop over turns is a sequence of steps.
- Fairness of the network and the scheduler: `AlwaysRecovers`, `BufferedIsDelivered` and `NeverStuck` say what can always happen next, not that it does.
- OnOldClientEnded: assumes that ending the old client has rejected its commands, each as `OnRejected`, and that no second `doReconnect` is under way; the timer results (`ReconnectBackoff`, `NoTimerAfterDestroy`) do not need this.
- OverlappedListenFailure: compares with the successful calls when no second command of the room fails in between; with any number of failures `CountAfterFailures` gives the count without that comparison.
- OverlappedUnlistenFailure: likewise.
- Membership: its own results are about frames whose two parts run at once, a special case of `Frames`.
- The creation race of the migrations table, and what a migration's SQL does; a migration does not control its own transaction.
- A negative or fractional `last_seen_seq`.
