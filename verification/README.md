# A verified model of the libp2p plugin for Mercury NA

The plugin has a synchronous side, called by Mercury, and an asynchronous side
that owns the libp2p swarm. They share receive queues, early-message stashes, a
completion channel with an eventfd, and a registry of memory handles. This
project models those parts in Dafny and proves what they guarantee over whole
runs: every interleaving of calls, arrivals, cancellations, polls, timeouts,
stream failures and writer deaths.

`dafny verify dfyconfig.toml` checks everything.

## How it is laid out

| files | what they model |
|---|---|
| `Lane`, `LaneSpec`, `Groups` | one matching lane (queue of posted receives, stash of early messages); what its pairing means; groups served first come, first served |
| `Engine`, `Runs` | both lanes, completion channel, callback queue, source addresses and buffer copies as one step system, and its guarantees over runs |
| `RunSpec` | what a run's posts, arrivals and cancel calls demand of its pairings and withdrawals, and that the engine computes just that |
| `Confluence` | what the user is handed for each receive, independent of the interleaving |
| `Plugin` | the same steps as methods on operation objects, queues and user buffers, tied to runs by a ghost history |
| `Codec`, `Reader`, `Writer` | frames, the read loop, the per-peer writer with its three tries |
| `SwarmLoop`, `SwarmRuns`, `SwarmOrder`, `Swarm` | relay lookups and the sender pool as a step system, its guarantees, which messages share a writer and how each is reported, and the loop's arms as methods |
| `EventFd` | the channel and eventfd hand-shake, one operation at a time |
| `Rma`, `Gets`, `GetRuns`, `Registry`, `RmaNode` | puts and gets along a stream, pending gets, which get a response completes, live handles, and the methods on arrays |
| `Serialize`, `AddrString` | byte encodings of addresses and handles, address strings |
| `EndToEnd` | from the sender's command to the receiver's buffer |
| `Prelude`, `Buffers` | shared sequence facts and copying into buffers |

The unexpected lane is the expected lane with receives that accept everything:
popping the front of a queue is taking the first match. So the matching
invariant, non-overtaking and uniqueness are proved once for both.

Every step of a step system is one critical section, and its number is the
identity of the posting, arrival, lookup, message or writer it creates. A peer id
is its byte string; which byte strings are peer ids, and which texts are
multiaddrs, are parameters. Times are milliseconds given with the events. The
outcomes of opening, writing and dialing are given with the events too, so the
theorems hold for every pattern of failures.

## What turned out not to hold

* A payload of 2^32 bytes or more does not survive the size field:
  `Codec.PayloadSurvives` says exactly which payloads do, `Codec.OversizedPayloadIsLost`
  shows a lost one.
* Delivery is not exactly once. If a flush fails after the whole frame was
  written, the retry duplicates the message (`Writer.FailedFlushDuplicates`).
  `Writer.ExactlyOnceIff` gives the exact condition on the tries.
* A get whose request is reported as failed stays pending and can complete
  again (`Gets.FailedRequestCompletesTwice`). `Gets.CompletionsCounted` counts the
  completions of every run and `Gets.AtMostOnceIff` says exactly when there can be
  too many.
* A response completes the first pending get with its local handle and offset,
  not always the one it answers: with two gets into one place it completes the
  earlier (`GetRuns.SharedPlaceCompletesFirst`), and after a cancelled get it
  completes the next one into the place, which then reports success with the
  bytes fetched for the cancelled one (`GetRuns.LateAnswerCompletesNext`). `GetRuns.DirectedIff` gives the
  exact discipline under which this cannot happen: a get is issued on an idle
  operation into a place of no get that may still be answered. Where requests or
  responses may be duplicated on their way, that means a place is used only once.
* An address with an empty text, or a text of 2^16 bytes or more, does not
  round-trip (`Serialize.AddrRoundTripIff`, `Serialize.LongTextIsLost`,
  `AddrString.PrintedAddressLooksUp`, `AddrString.EmptyMultiaddrIsLost`).
* The registry stops agreeing with the live handles when a wrapped id is still
  in use (`Registry.RegistryAgreesIff`, `Registry.WrappedIdIsTaken`).

Where `design.md` and the code differ, the code is followed. `design.md:762` says
that `queues` and `mem_handles` are never held together, while
`src/runtime.rs:1088-1099` takes the second while holding the first; here matching
a get response and writing its data are one step. `design.md:763` says that only
`poll` touches the completion channel, while `src/plugin.rs:1287-1294` also locks
it; that function only reads.

## Model

| member | source | states |
|---|---|---|
| Lane.FirstMessage | src/plugin.rs:970-983 | the place of the oldest stashed message the receive accepts; nothing before it is accepted |
| Lane.FirstRecv | src/runtime.rs:951-968 | the place of the oldest posted receive that accepts the message |
| Lane.FirstOf | src/plugin.rs:1364-1380 | the place of the first queue entry for the operation being cancelled |
| Lane.PostKeeps | src/plugin.rs:962-1016 | posting a receive keeps the whole matching invariant: no posted receive accepts a stashed message, postings and arrivals are conserved as multisets, pairings match and are non-overtaking in both directions |
| Lane.ArriveKeeps | src/runtime.rs:942-1007 | an arriving message keeps the same invariant, matched or stashed |
| Lane.CancelKeeps | src/plugin.rs:1361-1387 | a cancellation keeps the same invariant |
| LaneSpec.LaneIsLegal | src/runtime.rs:951-1007 | any lane satisfying the invariant pairs legally: within its history, exclusively, eagerly and without overtaking |
| LaneSpec.AgreeFrom | src/plugin.rs:970-986 | two legal pairings of the same postings, arrivals and cancellations are equal |
| LaneSpec.OnlyLegalPairing | src/runtime.rs:951-971 | a pairing is legal if and only if it is the one the lane computed |
| Groups.PostInOrder | src/plugin.rs:970-1015 | posting keeps a group's arrivals equal to delivered plus stashed, and its uncancelled postings equal to served plus queued, in order |
| Groups.ArriveInOrder | src/runtime.rs:951-1007 | an arrival keeps the same |
| Groups.CancelInOrder | src/plugin.rs:1377-1382 | a cancellation removes just its posting from the group's order |
| Groups.ServedIsZip | src/runtime.rs:962-971 | the i-th receive of a group was paired with its i-th message, for as many as both sides have |
| Engine.RunKeepsLanes | src/plugin.rs:858-1016 | in every run both lanes satisfy the matching invariant, in particular no posted receive matches a stashed message |
| Engine.RunTracksHistory | src/plugin.rs:858-1016 | the lanes' postings and arrivals are the run's own, and every withdrawal stems from a cancel call on its operation |
| Engine.EachOpInOnePlace | src/plugin.rs:1341-1387 | in every run each posted receive or reported operation is in exactly one of queue, channel and callback queue, exactly once |
| Engine.EachAddrInOnePlace | src/plugin.rs:1315-1339 | in every run the address of each arrival is in exactly one of stash, channel, user's hands and freed, exactly once |
| Engine.RunsAreTruthful | src/plugin.rs:1309-1339 | size, source and tag told to the user are those of the receive's pairing, and a cancelled completion belongs to a withdrawn receive, on every path |
| Engine.RunTellsAll | src/runtime.rs:983-994 | every paired or cancelled receive has its completion in the channel or the callback queue |
| Runs.RunPairsTheOnlyWay | src/runtime.rs:942-1007 | given a run's withdrawals, wildcards included, the pairing is the only legal one for its postings and arrivals |
| RunSpec.RunIsLegal | src/plugin.rs:1361-1387 | a run's pairings and withdrawals on both lanes are what its events demand |
| RunSpec.RunIsTheOnlyMatching | src/runtime.rs:942-1007 | they are the only ones: for any pairings and withdrawals, legal for the run's posts, arrivals and cancel calls if and only if equal to the engine's |
| RunSpec.CancelTakesTheOldest | src/plugin.rs:1363-1387 | a posting is withdrawn at a step if and only if the step cancels its operation and it is the oldest posting on it neither paired nor withdrawn before, unexpected lane first |
| Runs.NobodyOvertakes | src/plugin.rs:970-986 | an earlier message the receive accepts was already paired; an earlier receive that accepts the message was already paired or cancelled |
| Runs.UnexpectedIsZip | src/plugin.rs:860-884 | unexpected arrivals are the delivered messages then the stash, uncancelled postings the served receives then the queue, and one of queue and stash is empty |
| Runs.RunServesInOrder | src/runtime.rs:962-1006 | in every run a group that each receive takes whole or not at all is served in order |
| Runs.KeyServedInOrder | src/plugin.rs:962-1016 | with source-specific receives and no cancels for a (tag, source) key, its i-th receive gets its i-th message in every interleaving |
| Confluence.PairIsToldOnce | src/runtime.rs:983-994 | in every run a paired receive has exactly one completion, in the channel or with the user, and it carries the message's size, source and tag |
| Confluence.WithdrawnIsToldOnce | src/plugin.rs:1369-1373 | in every run a cancelled receive is reported to the user exactly once, as cancelled, and never through the channel |
| Confluence.ReportIsToldOnce | src/runtime.rs:738-754 | in every run the report of a send, a put or a failed get is in the channel or with the user exactly once, names its operation, and says success if and only if the task succeeded |
| Confluence.HandedAreTold | src/plugin.rs:1318-1326 | in every run the addresses handed over are exactly the sources the user was told, in order; the plugin frees none of them |
| Confluence.PairIsCopiedOnce | src/runtime.rs:974-980 | in every run exactly one copy is made to a paired receive with a buffer, of the message's bytes cut to the buffer, on the stash path and on the late path |
| Confluence.CopyFills | src/plugin.rs:862-867 | that copy leaves a buffer of any contents as filling it with the payload does |
| Confluence.BufferHoldsMessage | src/runtime.rs:974-980 | in every run, whatever the buffer held, byte k of a paired receive's buffer is byte k of its message if k is below message length and buffer size, and unchanged otherwise |
| Confluence.NothingElseIsCopied | src/plugin.rs:863 | a receive that is not paired or has no buffer gets no copy |
| Confluence.KeyIsHanded | src/plugin.rs:985-1010 | with source-specific receives, no cancels and the channel drained, the i-th receive of a key has been handed the i-th message's size and bytes, and nothing when there is no i-th message |
| Confluence.ExpectedMatchingIsConfluent | src/runtime.rs:974-987 | two runs with the same postings and messages for a key hand the user the same completions and bytes for each posting once both channels are drained |
| Plugin.Fill | src/runtime.rs:975-980 | byte k of the buffer is the payload's if k is below payload length and buffer size, and its old value otherwise; a null buffer is left alone |
| Buffers.Filled | src/plugin.rs:987-996 | byte k is the payload's if k is below payload length and buffer size, and unchanged otherwise; the size stays |
| Plugin.Queues.MsgRecvUnexpected | src/plugin.rs:847-885 | adds the posting to the history; fills the buffer, sets the completion data and completes at once on a stash hit, leaves the buffer alone otherwise |
| Plugin.Queues.FindStashed | src/plugin.rs:964-983 | finds the oldest stashed message with the tag and, if given, the source |
| Plugin.Queues.MsgRecvExpected | src/plugin.rs:946-1017 | adds the posting to the history; buffer, completion data and callback as the oldest fitting stashed message says, or queued with the buffer untouched |
| Plugin.Queues.TakeUnexpected | src/plugin.rs:861-879 | takes the oldest stashed message, completes the operation and hands the source address to the user |
| Plugin.Queues.TakeExpected | src/plugin.rs:985-1010 | takes one stashed message, completes the operation and frees the source address |
| Plugin.Queues.Enqueue | src/plugin.rs:1013-1016 | appends the operation to its queue and completes nothing |
| Plugin.Queues.FindRecv | src/runtime.rs:950-968 | finds the oldest posted receive that takes the message, read from the operation objects |
| Plugin.Queues.HandOver | src/runtime.rs:970-993 | the matched operation leaves the queue and its completion item enters the channel |
| Plugin.Queues.Stash | src/runtime.rs:995-1007 | the message joins the end of its stash |
| Plugin.Queues.FillFor | src/runtime.rs:971-980 | fills the matched operation's buffer and no other posted one |
| Plugin.Queues.HandleIncomingMsg | src/runtime.rs:934-1008 | adds the arrival to the history; only the matched operation's buffer changes, as the payload says |
| Plugin.Queues.FindOp | src/plugin.rs:1364-1368 | finds the operation's first place in a receive queue, if it is there |
| Plugin.Queues.WithdrawUnexpected | src/plugin.rs:1369-1373 | the operation leaves the unexpected queue and completes as cancelled |
| Plugin.Queues.WithdrawExpected | src/plugin.rs:1382-1386 | the operation leaves the expected queue and completes as cancelled |
| Plugin.Queues.Cancel | src/plugin.rs:1353-1387 | adds the cancel to the history; a queued operation completes as cancelled, one in neither receive queue is untouched |
| Plugin.Queues.ReportDone | src/runtime.rs:738-754 | adds the report of a send or put task to the history and to the end of the channel, with success if and only if the task succeeded |
| Plugin.Queues.Unpack | src/plugin.rs:1314-1339 | the receive data for the user by operation kind, and whether the address goes to the user or is freed |
| Plugin.Queues.Advance | src/plugin.rs:1341-1342 | the head of the channel moves to the callback queue and its address is handed over or freed |
| Plugin.Queues.PollNext | src/plugin.rs:1309-1342 | adds one turn of the poll loop to the history, with return code and receive data set by operation kind |
| Plugin.Queues.Poll | src/plugin.rs:1296-1351 | hands over every item of the channel, oldest first, and counts them; each operation ends with the data of its last item |
| Plugin.Queues.ReportAndPoll | src/runtime.rs:749-754 | a report and the poll after it: the operation's return code is success if and only if the task succeeded |
| Plugin.NothingMatchable | src/runtime.rs:942-1007 | between calls no queued operation could take a stashed message, and the unexpected queue or stash is empty |
| Plugin.AddressesInOnePlace | src/plugin.rs:1315-1339 | between calls each arrival's address is in a stash, the channel, the user's hands or freed, exactly once |
| Buffers.CopyAt | src/runtime.rs:1015-1023 | the buffer is its old contents patched with the data at the offset |
| Codec.FromU8 | src/protocol.rs:16-25 | accepts exactly the type bytes and gives back their type |
| Codec.TypeNumbers | src/protocol.rs:7-25 | the types are numbered 1 to 5 when written and when read, and no other byte is a type |
| Codec.WriteMessage | src/protocol.rs:42-71 | the bytes written are the frame of the message |
| Codec.FrameHead | src/protocol.rs:49-57 | layout of type, tag, size and peer length |
| Codec.FramePeer | src/protocol.rs:58-66 | place of the peer id and of the payload |
| Codec.FrameTail | src/protocol.rs:59-64 | layout of the five RMA fields |
| Codec.FrameIsBigEndian | src/protocol.rs:51-64 | every integer of a frame, by place: the byte at place i of a w-byte field has weight 256^(w-1-i) |
| Codec.ToBEDigit | src/protocol.rs:52-64 | byte i of a number written in w bytes is the number divided by 256^(w-1-i), modulo 256 |
| Codec.FromBEFirst | src/protocol.rs:87-114 | reading gives the first byte the highest weight |
| Codec.DecodeEncode | src/protocol.rs:74-134 | reading a written frame gives back header, payload and the rest of the stream |
| Codec.EncodeDecode | src/protocol.rs:74-134 | whatever is accepted is the frame of the message returned, so accepted bytes have one meaning and one form |
| Codec.CutFrameIsEof | src/protocol.rs:77-118 | every proper prefix of a frame reads as end of stream |
| Codec.BadFrameIsInvalid | src/protocol.rs:80-99 | an unknown type byte or a peer id that is none makes the frame invalid |
| Codec.PayloadSurvives | src/runtime.rs:721-735 | a payload survives the trip if and only if its length is below 2^32 |
| Codec.OversizedPayloadIsLost | src/runtime.rs:725 | 2^32 zero bytes arrive as an empty payload with all of it left on the stream |
| Reader.InStream.ReadExact | src/protocol.rs:78-79 | all the bytes asked for, or the end of the stream |
| Reader.InStream.ReadMessage | src/protocol.rs:74-134 | returns what the frame at the front of the stream says and leaves the rest |
| Reader.HandleStream | src/runtime.rs:903-929 | handles every message up to the first incomplete or invalid frame or the first get request whose response fails, and says whether it ended quietly, which a reset stream does not |
| Reader.HandledMeans | src/runtime.rs:904-928 | message n read is handled if and only if every get request before it could be answered; the loop ends quietly if and only if all could, every frame was valid and the stream just ended |
| Reader.AllHandled | src/runtime.rs:904-928 | when every response can be sent and the stream just ends, all messages read are handled |
| Reader.StreamReadsWholeFrames | src/runtime.rs:904-910 | whole frames followed by at most one broken frame read as exactly the whole frames, ending quietly |
| Reader.BadFrameEndsLoop | src/runtime.rs:906-910 | an invalid frame after whole frames ends the loop with an error, the whole frames handled |
| Writer.PeerWriter.SendOneMessage | src/runtime.rs:196-237 | does what trying until a success or three failures does, stream contents included; Ok if and only if one of the three tries opens a stream, or is the first with one open, and its write succeeds |
| Writer.SendOkIff | src/runtime.rs:203-234 | for any number of tries: Ok if and only if one of them finds a stream, an open one only the first, and its write succeeds |
| Writer.TaskOkIff | src/runtime.rs:185-192 | over a whole task: message i is Ok if and only if one of its tries opens a stream, or is the first after an Ok message, and its write succeeds |
| Writer.WriterTask | src/runtime.rs:180-193 | drains its queue in order and reports each message's own result |
| Writer.StreamsHoldFrames | src/runtime.rs:196-237 | for every pattern of failures each stream holds whole frames in submission order plus at most one trailing partial frame of a later message |
| Writer.WriterDelivers | src/runtime.rs:180-237 | the receiver reads every message as often as its whole frame was written, in submission order over the streams, and every read loop ends quietly |
| Writer.OkMeansDelivered | src/runtime.rs:223-224 | a message reported Ok is delivered at least once, and none more often than it was tried |
| Writer.ExactlyOnceIff | src/runtime.rs:217-233 | exactly the messages reported Ok arrive, once each and in order, if and only if no try that was made failed after its whole frame was out |
| Writer.CutTriesMeans | src/runtime.rs:221-233 | the condition on the tries in closed form: every try that is made and fails in its write sent less than the frame |
| Writer.FailedFlushDuplicates | src/protocol.rs:68-70 | a failed flush followed by a successful retry delivers the message twice |
| SwarmLoop.StepShows | src/runtime.rs:564-707 | one turn of the loop moves a lookup's table entry as the lookup's own history says |
| SwarmLoop.EachLookupOnItsOwn | src/runtime.rs:546-880 | in every run each lookup is, once, in exactly one of pending, answered, superseded and dropped, as judged from its own events alone |
| SwarmRuns.AnswerIsJustified | src/runtime.rs:567-660 | every answer was decided by a fitting event seen while the lookup was pending |
| SwarmRuns.RepliesAreJustified | src/runtime.rs:617-660 | what a caller is told is told once and justified: Direct, RelayOnly and Failed each need their events |
| SwarmRuns.NoLookupOutlives | src/runtime.rs:855-877 | no lookup is pending after the first timeout at or after its start plus ten seconds |
| SwarmRuns.FiringShrinks | src/runtime.rs:557-562 | a firing at the sleep target with lookups pending strictly shrinks the table and leaves no deadline due |
| SwarmRuns.SendUsesFreshWriter | src/runtime.rs:155-175 | a message sent after a reset goes to a writer created after it |
| SwarmRuns.DirectIsReset | src/runtime.rs:579-584 | a lookup that turns Direct removes the peer's sender |
| SwarmRuns.WriterIsLive | src/runtime.rs:161-173 | the writer a message is handed to is not dead, in every run |
| SwarmRuns.WritersKeepOrder | src/runtime.rs:155-193 | each writer finishes its messages in command order, even after its sender left the pool |
| SwarmRuns.EachMessageInOnePlace | src/runtime.rs:708-736 | each accepted message is queued at its writer or done with, exactly once |
| SwarmRuns.ExactlyOneCompletion | src/runtime.rs:737-802 | each accepted send or put has exactly one completion item once done with, and none before |
| SwarmOrder.SameWriterIff | src/runtime.rs:155-175 | two messages to one peer get the same writer if and only if in between its last connection did not close, no direct connection or successful hole punch met a waiting lookup, and the writer did not die |
| SwarmOrder.PeerInOrder | src/runtime.rs:180-193 | messages to one peer that nothing parted are done with in command order, at every moment of every run |
| SwarmOrder.FinishIsReported | src/runtime.rs:737-754 | a message is finished by its own writer, and what is reported is how that step went: Ok if and only if the writer said so; once, or not at all for a get request that was sent |
| Swarm.EventLoop.ConnectionEstablished | src/runtime.rs:567-587 | adds to the history a new connection, relayed or direct; the sender goes only if a direct connection meets a pending lookup |
| Swarm.EventLoop.ConnectionClosed | src/runtime.rs:588-616 | adds to the history a closed connection: the sender goes if and only if no connection remains |
| Swarm.EventLoop.OutgoingConnectionError | src/runtime.rs:617-634 | adds to the history a dial error: fails a lookup that saw no relayed connection |
| Swarm.EventLoop.DcutrEvent | src/runtime.rs:641-660 | adds to the history a hole-punch result; the sender goes only if a success meets a pending lookup |
| Swarm.EventLoop.ConnectThroughRelay | src/runtime.rs:684-707 | adds to the history a lookup command, superseding an earlier one |
| Swarm.EventLoop.GetOrCreate | src/runtime.rs:155-175 | the peer's writer if it is alive, else a new one entered in the pool |
| Swarm.EventLoop.SendCommand | src/runtime.rs:718-736 | adds to the history handing a message to a writer |
| Swarm.EventLoop.WriterDone | src/runtime.rs:185-192 | adds to the history that a writer is done with its oldest message and reports the result |
| Swarm.EventLoop.WriterEnds | src/runtime.rs:744-748 | adds to the history the end of a writer: its queued messages fail, oldest first |
| Swarm.EventLoop.NextDeadline | src/runtime.rs:557-562 | the sleep target is at or before every pending deadline and is one of them, or a day ahead |
| Swarm.EventLoop.AnswerAll | src/runtime.rs:862-876 | answers each expired lookup by whether a relayed connection was seen, in any order |
| Swarm.EventLoop.TimeoutFired | src/runtime.rs:855-877 | adds to the history a timeout |
| Swarm.EventLoop.Stop | src/runtime.rs:671 | adds the loop's end to the history: pending lookups are dropped unanswered |
| Swarm.PendingIsWaiting | src/runtime.rs:554-562 | a lookup in the table was started for its peer, waits by its own history with its own deadline, and was answered, superseded or dropped by nobody |
| Swarm.MessagesAreKept | src/runtime.rs:708-736 | between turns each accepted message is queued or done with once, in command order at its writer |
| EventFd.NoLostWakeup | src/runtime.rs:989-994 | in every reachable state a waiting completion means a readable fd, a producer about to signal, or a poller yet to see the channel empty; completions come out once each, in order |
| EventFd.QuietMeansReadable | src/plugin.rs:1287-1294 | with all threads between operations a waiting completion makes the fd readable |
| EventFd.PollTakesAll | src/plugin.rs:1304-1343 | a poll that runs undisturbed takes everything and leaves the fd drained |
| Rma.PutInto | src/runtime.rs:1013-1022 | each byte of the buffer is the put's byte if the put names it and else unchanged; the size stays |
| Rma.GetFrom | src/runtime.rs:1038-1050 | the buffer's bytes from the offset, as many as asked for and present |
| Rma.MemoryIsLastWritten | src/runtime.rs:1010-1027 | after any messages each byte is what the last put naming it wrote, or its initial value, also under aliased handles |
| Rma.GetSeesEarlierPuts | src/runtime.rs:1035-1055 | the data a get is served is the memory all earlier puts of its stream left, clamped to the buffer |
| Rma.RepliesServeRequests | src/runtime.rs:1035-1068 | the n-th response sent is the response to the n-th request for a registered handle, echoes its header and carries the memory as the puts before it left it; there are no other responses |
| Rma.StreamIsServedInOrder | src/runtime.rs:904-929 | the same over the bytes of a stream, whole but for a broken last frame |
| Rma.PutIsAnswered | src/runtime.rs:919-924 | the response to a get of the range of an earlier put, with no put into it in between, carries the put's bytes, clamped to the buffer |
| Gets.FirstWith | src/runtime.rs:1089-1092 | the first pending get whose fields match the response |
| Gets.CompletionsCounted | src/runtime.rs:832-851 | completions plus still pending equals issues plus failed requests, for every operation in every run |
| Gets.AtMostOnceIff | src/runtime.rs:841-850 | an operation completes no more often than it is issued, in every continuation without further failed requests, if and only if none of its requests was reported as failed |
| Gets.FailedRequestCompletesTwice | src/runtime.rs:843-850 | issue, failed request, response: two completions of one get |
| GetRuns.DisciplinedIsDirected | src/runtime.rs:1087-1095 | in every run whose gets are issued on idle operations into places of no get that may still be answered, every response that completes a get completes the one it answers |
| GetRuns.IssueIsSafeIff | src/plugin.rs:1247-1255 | after such a run, issuing a get is safe in every continuation if and only if its operation is idle and its place belongs to no get that may still be answered |
| GetRuns.DirectedIff | src/runtime.rs:1087-1095 | over whole runs: responses complete the get they answer, at every point and in every continuation without further gets, if and only if every get kept to the discipline |
| GetRuns.SharedPlaceCompletesFirst | src/runtime.rs:1089-1095 | of two gets into one place, the response to the second completes the first |
| GetRuns.LateAnswerCompletesNext | src/plugin.rs:1389-1400 | a response to a cancelled get completes the next get into the place, although that is the only one pending, and that get's own response is dropped |
| GetRuns.PendingIsOnlyOne | src/plugin.rs:1247-1255 | under the discipline a pending get is the only one for its place, from issue to response |
| GetRuns.UntouchedIsPending | src/runtime.rs:1089-1095 | under the discipline a get neither answered nor cancelled is still pending |
| GetRuns.ResponseLands | src/runtime.rs:1094-1120 | a response completes its get and changes just its clamped range |
| GetRuns.GetEndToEnd | src/runtime.rs:1035-1120 | in every disciplined run, the answer to a get neither answered nor cancelled, as it comes off the wire, completes the issuing operation and replaces exactly min(length, remote rest, local rest) bytes with the remote ones; nothing else changes |
| Registry.CreateAgreesIff | src/plugin.rs:1030-1049 | creating a handle keeps registry and live handles in agreement if and only if the next id is unused |
| Registry.FreeAgrees | src/plugin.rs:1055-1067 | freeing keeps the agreement, and freeing a deserialized handle unregisters nothing |
| Registry.DeserializeAgrees | src/plugin.rs:1158-1166 | deserializing registers nothing |
| Registry.RegistryAgreesIff | src/plugin.rs:1030-1066 | over every run: registry and live handles agree all along if and only if every creation met an unused id |
| Registry.RegistryAgrees | src/state.rs:60-64 | with at most 2^64 creations and any number of other calls, the registry holds exactly the unfreed local handles, under distinct ids |
| Registry.WrappedIdIsTaken | src/state.rs:60-64 | a handle that outlives 2^64 - 1 others loses its entry to the next creation |
| Registry.FreedIdIsInert | src/runtime.rs:1024-1026 | a put naming an id without a live local handle changes no memory |
| RmaNode.Node.MemHandleCreate | src/plugin.rs:1023-1053 | adds the creation to the history and enters the buffer under the new id |
| RmaNode.Node.MemHandleDeserialize | src/plugin.rs:1126-1168 | a received handle is live for its owner and registers nothing; malformed bytes change nothing |
| RmaNode.Node.MemHandleFree | src/plugin.rs:1055-1067 | adds the free to the history; only a local handle is unregistered |
| RmaNode.Node.HandleRmaPut | src/runtime.rs:1010-1027 | writes the clamped put into the named array; all its handles see it, no other array changes |
| RmaNode.Node.HandleRmaGetRequest | src/runtime.rs:1029-1068 | the response carries the buffer's bytes and the request's local place; an unknown handle gets none |
| RmaNode.Node.Get | src/plugin.rs:1247-1255 | adds the issue to the history and the operation to the pending list |
| RmaNode.Node.FindGet | src/runtime.rs:1089-1092 | finds the first pending get with the response's handle and offset |
| RmaNode.Node.Complete | src/runtime.rs:1094-1120 | one pending operation leaves the list and completes |
| RmaNode.Node.HandleRmaGetResponse | src/runtime.rs:1087-1124 | adds the response to the history; data is written, clamped, only if a pending get was found |
| RmaNode.Node.GetRequestFailed | src/runtime.rs:843-850 | adds the failure to the history: an error completion, the get stays pending |
| RmaNode.Node.CancelGet | src/plugin.rs:1390-1400 | adds the cancel to the history: the operation's first pending get completes as cancelled |
| RmaNode.RegisteredIsLive | src/runtime.rs:1012-1026 | while creations meet unused ids, an id is registered if and only if an unfreed local handle has it |
| RmaNode.PendingPlacesDiffer | src/runtime.rs:1089-1092 | under the discipline no two pending operations write to one place |
| Serialize.WriteBytes | src/plugin.rs:695-704 | one bounded write: appended, or refused with nothing written |
| Serialize.AddrSize | src/plugin.rs:664-676 | the advertised size is the size of the encoding |
| Serialize.AddrSerialize | src/plugin.rs:678-712 | the whole encoding at the front of the buffer, or overflow exactly when it does not fit, with only a prefix of it written and nothing past the limit |
| Serialize.AddrIsBigEndian | src/plugin.rs:706-709 | places of peer id and text, and both length fields big-endian |
| Serialize.ParseAddrBytes | src/plugin.rs:714-768 | what an encoded address is read as, its text cut to its length modulo 2^16 |
| Serialize.AddrRoundTripIff | src/plugin.rs:678-768 | an address round-trips if and only if its text is absent, or non-empty and shorter than 2^16 |
| Serialize.CutAddrIsRefused | src/plugin.rs:721-752 | every proper prefix of an encoded address is refused, as an invalid argument below four bytes and as a protocol error above |
| Serialize.LongTextIsLost | src/plugin.rs:706-709 | a text of 2^16 bytes is read back as absent |
| Serialize.HandleSize | src/plugin.rs:1069-1084 | the advertised size is the size of the encoding |
| Serialize.HandleSerialize | src/plugin.rs:1086-1124 | as for addresses |
| Serialize.HandleIsBigEndian | src/plugin.rs:1112-1121 | places of all fields, and every integer big-endian |
| Serialize.HandleRoundTrip | src/plugin.rs:1126-1168 | a received handle has the same id, size and flags and names the original owner |
| Serialize.CutHandleIsRefused | src/plugin.rs:1132-1151 | every proper prefix of an encoded handle is refused, as an invalid argument below 26 bytes and as a protocol error above |
| Serialize.OwnerSurvivesHops | src/plugin.rs:1116-1121 | through any number of peers the bytes and the owner stay the same |
| AddrString.TransportPrefix | src/state.rs:198-210 | relay if a circuit part occurs anywhere, else quic if one occurs, else tcp |
| AddrString.LastBefore | src/plugin.rs:417-423 | the last occurrence of the separator |
| AddrString.LastSeparator | src/plugin.rs:416-425 | the last separator is the one before the peer id, whatever the multiaddr contains |
| AddrString.PrintedAddressLooksUp | src/plugin.rs:409-458 | looking up a printed address gives it back, through the relay exactly for circuit addresses, if and only if its multiaddr is absent or non-empty |
| AddrString.BareNameIsDialed | src/plugin.rs:409-446 | a name without a transport prefix is dialed directly |
| AddrString.EmptyMultiaddrIsLost | src/plugin.rs:436-437 | a printed empty multiaddr comes back as absent |
| EndToEnd.UnbrokenTask | src/runtime.rs:185-237 | a writer none of whose writes fails puts exactly the messages it reports Ok on one stream, however often opening failed |
| EndToEnd.SentIsRead | src/runtime.rs:903-910 | the receiver reads exactly those, in order |
| EndToEnd.SentIsReceived | src/runtime.rs:903-918 | over such a stream, with source-specific uncancelled receives and any part of the stream delivered so far, the i-th receive posted for a key gets the payload of the i-th message reported Ok for it; its buffer has the payload's bytes as far as both reach, and once the channel is drained the user has been told so |
| EndToEnd.PutIsReadBack | src/runtime.rs:919-924 | over such a stream the response to a get of the range of an earlier put, with no put into it in between, carries the put's bytes, clamped to the buffer |

## Left out

- libp2p itself: swarm, transports, relay reservation, identify and hole punching appear only as events and failure patterns.
- Start-up and shut-down: building the swarm, listening, environment variables, finalize.
- Choice of the self address and transport hints: simple searches over listen addresses.
- Re-dialing and the table of known peer addresses: they steer libp2p and touch none of the tables modelled.
- Limits on message sizes and tags: constants only.
- Copying the local data of a put into its command (src/plugin.rs:1199-1205): the message already carries the data here.
- Reader.HandleStream: whether a response can be sent is a parameter; the response itself is Rma.RepliesServeRequests, and when the loop ends early the statements there are about the messages handled.
- Plugin.Queues.Cancel: covers the two receive queues; the third search, over pending gets, is RmaNode.Node.CancelGet.
- Plugin.Queues.HandleIncomingMsg: a receive buffer starts at the beginning of its array, so two receives may share one array but not overlapping parts of one allocation.
- Plugin.Queues.MsgRecvUnexpected: asks that the operation is not already outstanding, which the code leaves to Mercury; posting one operation twice is covered by the step system only.
- Plugin.Queues.MsgRecvExpected: asks the same.
- Order of arrivals read from different streams of one peer: their read loops run concurrently and the code promises none.
- Liveness beyond the timeout arm: a get on an unknown remote handle is never answered, and commands waiting at shut-down are dropped.
- Address strings that are not valid UTF-8, and the text forms of peer ids and multiaddrs beyond reading back what they print.
