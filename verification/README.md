# Verified model of the streaming media server

The server takes preview requests from clients, keeps one session and one DVR connection per
stream, and fans every frame of the DVR out to the clients of the session. This project models
its protocol, its packet codec, its stream reader, its containers and its log writer in Dafny, and
proves what they promise over every input and every run.

| module | models |
|---|---|
| PreviewModel | the preview protocol as a state machine: each libuv callback is one step |
| PreviewInvariants | what every step keeps: closing, membership, lifetimes, reference counts, memory, histories |
| PreviewRuns | what that means for whole runs: the order of frames |
| PreviewSafety | what is freed, closed and touched, and when |
| PreviewStops | how long a stopped client stays stopped, and a closed one silent |
| PreviewEffects | what each callback does to each client and each session, told from their own records |
| PreviewPhases | the phases of a session over whole runs, and that its end is final |
| PreviewEnds | what every failure leads to, and when a client has come to its end |
| PreviewDrain | from every reachable state the server can come to rest |
| PreviewAnswers | no client waits in vain for its preview response |
| PreviewKeys | when delete_session finds a session other than the one it is given |
| PreviewLoops | the loops over the clients of a session, turn by turn |
| PreviewServer | the callbacks as they are written, each proved to be one step |
| SessionRegistry | the session manager on the circular list |
| CircularList | the intrusive list, its macros and its traversal |
| IntegerCodec, PacketLayout, PacketReads, PacketCodec | integers, field tables, what decoders read, gather buffers and reference-counted commands |
| PacketFields | the declared messages byte by byte |
| PacketSplit, Deframer | the stream of length-prefixed packets and the reader that cuts it |
| Dispatch, PacketStream | the life of a received packet, and messages end to end |
| PacketRelay | the way of a frame from the packet of the DVR to the packets of the clients |
| Logger, LogRotation | the buffered logger and its twenty files |
| IntegerText | the integer formatter |

## How it is stated

**Preview protocol.** A state holds the allocated clients, sessions and frames, the registry, what
libuv still has pending, and three records that only proofs read: which structures are allocated
and how often each was freed, the frames each session received, and the frames accepted for each
client. An event is a callback together with the outcomes of the calls made inside it, so a run
ranges over every order of callbacks and every pattern of failing writes. `PreviewRuns.Sent` and
`PreviewRuns.Stream` observe a run from outside: a write that becomes pending, a frame that
arrives. `PreviewServer.Server` is the imperative form, with the loops, the counting of references
inside the fan-out loop, and preconditions that are memory safety: nothing freed is used, nothing
is closed or freed twice.

The steps are pinned from outside as well: `PreviewEffects.ClientNext` and `PreviewEffects.SessionNext` say what
becomes of one client and of one session, from its own record and the callback alone, and are proved to be
what every step does; `PreviewEnds` and `PreviewPhases` say in words of the protocol what follows.

The environment is libuv as documented: a write fails at once without a callback or has exactly one
later callback; closing a handle ends its reads, and its pending writes and connects are reported
before its close callback; a timer fires only while armed, and once; a connect
is cancelled and reading cannot start on a handle that is being closed. Pending writes may end in any
order. Two assumptions are about use: a
connection sends one preview command, and no session is registered for a key while an earlier session
with that key, already unregistered, may still call `delete_session`, that is, until it is closing with
neither its connect nor its preview command pending. `PreviewKeys` proves of the second one that with it
`delete_session` never finds another session under the key of the one it is given, that without it some
callback can at once make such a call, and that a run leads there. It is exact for that, and not for a loss of
sessions: what such a call does to size and list is `SessionRegistry.SessionManager.DeleteTwice`.

**Codec and reader.** A layout is the list of fields of a declared command; one interpreter stands for
the functions that the macros generate for each of them. A gather buffer is a slice of an array, so
borrowing and ownership are visible.

**Logger.** Messages are formatted text. Files are a map from slot to content, with slot 0 active.

## Where the code differs from its intent

- `src/smts_abstract_tcp_client.c:99` decodes libuv's out-parameter; the prefix it means is in
  `packet_len`, and that is what the model decodes. A read of zero bytes right after the prefix, which
  libuv makes when the prefix arrives alone, then leads to a second decode and a second allocation, and
  this is harmless on no host: `Deframer.TcpReader.EmptyReadThenAnother` proves that either the first
  body is lost or a good packet is refused, `Deframer.TcpReader.Schedule` that such reads are the only
  ones that do harm, and `Deframer.EveryHostLosesABody` and `Deframer.LittleEndianRefusesFive` are inputs.
- `src/smts_abstract_tcp_client.c:131` reports an invalid length without looking whether there is a
  callback; the reader ends in the state `NullCall` where there is none.
- `src/protocol/nvmp_protocol_def.h:76` computes the payload length of `smts_frame_res` as
  `packet_len-20`, although 24 bytes precede it. `PacketLayout.RoundTrip` says when a layout round-trips,
  `PacketLayout.DeclaredAdjustments` that this is the only declared one that does not, and
  `PacketLayout.FrameResponseNeverDecodes` that its decoder then points past the packet. The server only
  encodes it, and sends the whole payload (`PacketRelay.RelayedBytes`); received, it is freed unread, see
  `Dispatch.DispatchFrameResponse`.
- `src/session_manager.c:102` tests the key and unlinks the given session.
  `SessionRegistry.SessionManager.DeleteSession` states when that is right, in both directions, and what it
  does otherwise: the size is one short, and the old neighbours of the session are linked to each other.
  `CircularList.SplicedIsList` says exactly what list that leaves, and
  `SessionRegistry.SessionManager.DeleteTwice` what it means here: with both old neighbours still in the list,
  where the head always is, the sessions added since are lost if the deleted one was the first in the list, and
  none if it was not. With just one of them gone from the list the head leads no list any more, and with both
  gone the list is as it was; a neighbour that is
  gone has as a rule been freed, and then the call writes to freed memory. `PreviewKeys` says when the callbacks
  make such calls; in its run the session was the only one, so the new one is lost, as in
  `SessionRegistry.StaleDeleteDropsAnother`.
- `src/smts_client_impl.c:92` sets the ready status even on a closed client, so the stopped status is
  not final. `PreviewStops.StopIsFinal` says when it is: exactly when no preview response to the client is
  pending; `PreviewStops.StopIsUndone` is a run in which one is. What holds in any case is that a client is
  closed at most once and that no frame goes to it in any run from then on
  (`PreviewStops.ClosedIsSilentForGood`); `PreviewSafety.LateResponse` says why a late response does no harm.
- `src/common/css_logger.c:601` retries with a pointer into the buffer that was handed to the writer.
  `Logger.OverflowUnreachableIff` gives the exact message size up to which that line is unreachable, and
  `Logger.OverflowIsReachable` the messages with which one is lost and printed past the end of a buffer.
- `src/smts_session.c:115` stops a session that the failed preview command has already stopped;
  `PreviewSafety.StopSessionTwice` shows that this changes nothing.

## Main results

- Order of frames: `PreviewRuns.FramesFollowTheResponse`, `PreviewRuns.NoFrameBeforeTheResponse`
- Invariant of every run, and the code that keeps it: `PreviewInvariants.StepInv`, `PreviewServer.Server.Serve`
- Reference counts: `PreviewLoops.CountInTheMiddle`, `PreviewSafety.LastWriteReleases`
- Memory: `PreviewSafety.OnlyLiveIsTouched`, `PreviewSafety.FreedIsFinal`, `PreviewSafety.NothingLeaks`
- Failures: `PreviewEffects.ClientEffect`, `PreviewEffects.SessionEffect`, `PreviewEnds.FailureEndsSession`, `PreviewEnds.FailedWriteEnds`, `PreviewEnds.EndIsFinal`, `PreviewEnds.OverIffEnded`
- Phases: `PreviewPhases.EveryPhase`, `PreviewPhases.PastForGood`
- Lifetimes: `PreviewSafety.ClosedAtMostOnce`, `PreviewStops.StopIsFinal`, `PreviewStops.ClosedIsSilentForGood`, `PreviewSafety.SessionFreedSafely`
- Nothing is stranded: `PreviewDrain.CanComeToRest`, `PreviewAnswers.NobodyWaitsInVain`
- Keys: `PreviewKeys.DeletesOnlyItself`, `PreviewKeys.OtherwiseDeletesAnother`
- Containers: `CircularList.ForEachRemoving`, `CircularList.SplicedIsList`, `SessionRegistry.SessionManager.Operate`, `SessionRegistry.SessionManager.DeleteTwice`
- Messages in bytes: `PacketFields.PreviewCmdDecoded`, `PacketFields.PreviewCmdEncoded`, `Dispatch.DispatchPacket`
- Codec: `PacketLayout.RoundTrip`, `PacketCodec.Command.Encode`, `PacketCodec.Command.UseAndDestroy`
- Reader: `Deframer.TcpReader.Feed`, `Deframer.TcpReader.Schedule`, `Deframer.TcpReader.EmptyReadThenAnother`
- End to end: `PacketStream.EndToEnd`, `PacketStream.Transfer`, `PacketRelay.RelayFrame`, `PacketRelay.RelayedBytes`, `Dispatch.ForwardAndComplete`
- Logger: `Logger.CssLogger.Run`, `Logger.CssLogger.Retention`, `Logger.OverflowUnreachableIff`, `LogRotation.LogDirectory.RenameOldLogs`
- Integers: `IntegerCodec.DecodeOfEncode`, `IntegerCodec.EncodeOfDecode`, `IntegerText.ParseOfText`

## Model

| member | source | states |
|---|---|---|
| PreviewRuns.FramesFollowTheResponse | src/smts_session.c:133-166 | in every run that answers a client at some point, the frames handed to its socket over the whole run are a prefix of the frames its session receives after that point, without repetition; they are all of them as long as the client is attached and ready |
| PreviewRuns.NoFrameBeforeTheResponse | src/smts_client_impl.c:134-150 | in a run in which the preview response callback of a client never comes, no frame is handed to its socket |
| PreviewRuns.EveryRun | src/smts_session.c:40-286 | every state reached by any run of callbacks from a state with the invariant has the invariant: clients, membership, sessions, reference counts, memory and histories |
| PreviewRuns.RunsConcat | src/smts_session.c:40-286 | a run may be cut anywhere: the second part is a run from where the first one ends |
| PreviewRuns.HistoryRun | src/smts_session.c:133-166 | the recorded histories are what an observer sees: the frames of the receive events, and the writes that become pending, in order |
| PreviewRuns.HistoryStep | src/smts_session.c:133-166 | the same for a single callback; no callback other than a received frame changes either history |
| PreviewRuns.FanOutSends | src/smts_client_impl.c:134-150 | a received frame is added to the history of exactly those clients to which a write of it becomes pending |
| PreviewRuns.StartStep | src/smts_client_impl.c:83-93 | only the response callback of a client sets where its frames begin, and nothing moves that point afterwards |
| PreviewRuns.BlockOfRun | src/smts_session.c:133-166 | a block of the received frames that begins where an earlier state ended is a prefix of what was received since, and equals it for a client that is attached and ready |
| PreviewInvariants.StepInv | src/smts_session.c:40-286 | every callback, with every outcome of the writes and calls inside it, keeps the invariant |
| PreviewInvariants.InitialInv | src/session_manager.c:20-24 | the empty server satisfies the invariant |
| PreviewInvariants.StopOneInv | src/smts_client_impl.c:35-48 | stopping a client that was not closed, or is already stopped, keeps the invariant |
| PreviewInvariants.StopSessionInv | src/smts_session.c:40-52 | stopping all clients of a session and unregistering it keeps the invariant, whatever responses can be written |
| PreviewInvariants.RespondAllInv | src/smts_session.c:180-186 | answering all clients of a session, some of which cannot be written to and leave, keeps the invariant |
| PreviewInvariants.FanOutInv | src/smts_session.c:133-166 | a received frame keeps the invariant: either it is kept and its count is the number of clients that took it, or it is gone when the callback ends |
| PreviewInvariants.FanOutClients | src/smts_session.c:156-161 | clients that take a frame, fail to take it or are not ready stay in step with their history |
| PreviewInvariants.FrameWrittenInv | src/smts_session.c:122-131 | the end of one write keeps every reference count equal to the number of pending writes |
| PreviewInvariants.WriteOver | src/smts_session.c:125-130 | one write fewer is pending and the count is one less; at zero nobody waits for the frame |
| PreviewInvariants.Departure | src/smts_session.c:83-96 | when any set of clients leaves a session the lists, pointers, sizes and timer stay consistent: the session lists exactly the clients that point to it, and an idle session has its timer armed |
| PreviewInvariants.LeaveKeepsMembership | src/smts_session.c:87-89 | removing leaving clients from the list and clearing their pointers keeps lists and pointers in agreement |
| PreviewInvariants.LeaveKeepsSessions | src/smts_session.c:90-93 | the last client to leave arms the exit timer, so no session is left idle without one |
| PreviewInvariants.ExitTimerInv | src/smts_session.c:61-74 | the exit timer callback keeps the invariant: it closes only a session without clients, and unregisters it |
| PreviewInvariants.DvrClosedInv | src/smts_session.c:54-59 | freeing a session whose connection was closed keeps the invariant; no client is left pointing to it |
| PreviewInvariants.ClientClosedInv | src/smts_client_impl.c:27-33 | freeing a closed client with nothing pending keeps the invariant |
| PreviewInvariants.ResponseDoneInv | src/smts_client_impl.c:83-93 | a preview response callback, even a late one on a closed client, keeps the invariant |
| PreviewInvariants.ConnectInv | src/smts_client_impl.c:61-81 | a new connection keeps the invariant, also when reading cannot start and it is closed at once |
| PreviewInvariants.PreviewJoinInv | src/smts_session.c:278-283 | joining a registered session keeps the invariant, also when the response cannot be written |
| PreviewInvariants.CreateInv | src/smts_session.c:238-271 | registering a session for a key keeps the invariant if every earlier session with that key only waits for its close callback |
| PreviewInvariants.CreateFailedInv | src/smts_session.c:272-276 | a session that cannot be initialised or connected is gone again: freed once, not registered, its client detached |
| PreviewInvariants.NewFrameCounts | src/smts_session.c:155-161 | after the fan-out the count of the frame is the number of clients that took it, and no other count changes |
| PreviewSafety.OnlyLiveIsTouched | src/smts_session.c:40-286 | every callback touches only structures that are allocated, the neighbours in the lists it changes included |
| PreviewSafety.FreedIsFinal | src/smts_session.c:54-59 | a structure that was freed in some state of a run is touched by no later callback and never freed again |
| PreviewSafety.NothingLeaks | src/smts_session.c:122-131 | when no client and no session is left, no client, session, frame header, payload or record is allocated, and each client, session, payload and record was freed exactly once |
| PreviewSafety.LastWriteReleases | src/smts_session.c:122-131 | between callbacks the reference count is the number of pending writes; header, payload and record are released together by the callback of the last one, and by no earlier one |
| PreviewSafety.ClosedAtMostOnce | src/smts_client_impl.c:35-48 | after any callback a client has been closed at most once |
| PreviewSafety.ClosedIsSilent | src/smts_client_impl.c:134-150 | no callback hands a frame to a closed client |
| PreviewSafety.LateResponse | src/smts_client_impl.c:83-93 | a late preview response moves a closed client to the ready status, with nothing pending and no session, so that nothing can close it again; how long the stopped status lasts is in PreviewStops |
| PreviewStops.ClosedStep | src/smts_client_impl.c:83-93 | after any callback a closed client that still exists is closed as often as before, and its status has changed if and only if the callback was its preview response: then it is ready |
| PreviewStops.StopIsFinal | src/smts_client_impl.c:83-93 | a stopped client keeps the stopped status in every run if and only if no preview response to it is pending |
| PreviewStops.StopIsUndone | src/smts_client_impl.c:35-93 | a concrete run from the empty server: a client is answered and its connection breaks before the answer is written; it is stopped and closed, and its next callback makes it ready |
| PreviewStops.ClosedIsSilentForGood | src/smts_client_impl.c:134-150 | in every run from a state in which a client is closed or gone, no frame is handed to its socket |
| PreviewStops.OnlyItsOwn | src/smts_client_impl.c:35-48 | a client that is in no session is changed by no callback but its own |
| PreviewStops.GoneForGood | src/smts_client_impl.c:27-33 | a client that was freed does not come back |
| PreviewSafety.StopSessionEmpties | src/smts_session.c:40-52 | a stopped session is unregistered and empty with size zero, and has its exit timer armed if it had any client |
| PreviewSafety.StopSessionCloses | src/smts_session.c:44-49 | stopping a session closes each of its clients for the first time and leaves every other client as it was |
| PreviewSafety.StopSessionTwice | src/mock/smts_mock_dvr_impl.c:117-123 | stopping a session twice, as happens when the preview command cannot be written, is stopping it once |
| PreviewSafety.SessionFreedSafely | src/smts_session.c:54-59 | a session is freed for the first time, with no client attached, no client pointing to it, no timer armed, and unregistered |
| PreviewAnswers.NobodyWaitsInVain | src/smts_session.c:99-196 | in every run, a client that belongs to a session and was sent no preview response belongs to one that is still connecting, or whose preview command is still being written |
| PreviewAnswers.TheCallbackAnswers | src/smts_session.c:169-196 | after the callback of the preview command, whatever its outcome, no client of the session is left unanswered and open |
| PreviewAnswers.ExpectedStep | src/smts_session.c:40-286 | every callback keeps it so that whoever waits can expect an answer |
| PreviewKeys.DeletesOnlyItself | src/session_manager.c:97-110 | in every reachable state a callback that calls delete_session, the undoing of a session that cannot connect included, finds no other session registered under the key |
| PreviewKeys.QuietStaysQuiet | src/smts_session.c:54-74 | a closing session with no connect and no write pending never calls delete_session again |
| PreviewKeys.OtherwiseDeletesAnother | src/session_manager.c:102-107 | the condition is needed for that: if a session is registered while an earlier, unregistered one with the key is not quiet, some callback can at once call delete_session for the earlier one and find the later one under the key |
| PreviewKeys.StaleRunExists | src/smts_session.c:61-74 | a concrete run to such a state: the only client leaves before the DVR answers, the only session closes with its connect pending, and a second client asks for the same key |
| PreviewEffects.ClientEffect | src/smts_client_impl.c:27-191 | every callback does to every client exactly what its own record and the callback say: which callbacks close it, answer it, tell it of a failure, put it into a session or make a frame write pending, and that all others leave it as it is |
| PreviewEffects.SessionEffect | src/smts_session.c:40-286 | every callback does to every session exactly what its own record, the callback and the clients that are closed say: its clients, size, timer, pending connect and preview command, reading and closing |
| PreviewPhases.RegistryEffect | src/session_manager.c:61-110 | the registry loses exactly the session whose connect, preview command, start of reading or read fails, or whose timer fires while it is idle, and gets exactly the one that starts |
| PreviewPhases.PhaseStep | src/smts_session.c:40-286 | a session goes from connecting to asking to streaming, or from any of them to its end, as the callback says |
| PreviewPhases.EveryPhase | src/smts_session.c:40-286 | in every run a registered session is connecting, or its preview command is being written, or it reads, never two of these, and no other session reads |
| PreviewPhases.PastForGood | src/smts_session.c:40-52 | a session that has left the registry is never registered again in any run, has no client, and no frame is received for it |
| PreviewPhases.NewSessionIs | src/smts_session.c:226-283 | the only session that can be new is the one that a preview command starts, connecting, with its one client |
| PreviewEnds.FailedWriteEnds | src/smts_client_impl.c:124-133 | a frame write that fails closes the client for the first time, stops it and takes it out of its session |
| PreviewEnds.WriteOnlyEnds | src/smts_client_impl.c:124-133 | a frame write that succeeds is no longer pending, and nothing else changes for any client or session |
| PreviewEnds.SilentAfterFailedWrite | src/smts_client_impl.c:124-150 | in every run after a failed frame write nothing is sent to the client and no session lists it |
| PreviewEnds.FailureEndsSession | src/smts_session.c:40-52 | a failed connect, a preview command that cannot be written, reading that cannot start and a read error unregister and empty the session, close each of its clients, and send an answer to those that had none if it can be written |
| PreviewEnds.AskedEndsOrStreams | src/smts_session.c:169-196 | after the callback of the preview command the session is over, unless the command was written and reading began; then it reads and each client has been answered or closed |
| PreviewEnds.ToldOrBroken | src/smts_client_impl.c:152-158 | a client is closed after it was told of a failure, and when its connection breaks |
| PreviewEnds.PreviewFails | src/smts_client_impl.c:172-191 | when no session can be had the client is told so if it can be written to, and nothing else changes |
| PreviewEnds.ConnectionStarts | src/smts_client_impl.c:62-80 | a new connection is open, and closed at once if reading cannot start |
| PreviewEnds.EndIsFinal | src/smts_client_impl.c:35-48 | a client that a callback has closed is sent nothing and is in no session in every later run |
| PreviewEnds.OverIffEnded | src/smts_client_impl.c:35-48 | an open client is closed or gone after a run if and only if one of the callbacks of the run was one of those that close it |
| PreviewDrain.CanComeToRest | src/smts_session.c:17-95 | after any run there is a continuation after which no client, session or part of a frame is allocated: none is ever stranded |
| PreviewDrain.DrainSession | src/smts_session.c:61-96 | an idle session can always leave, whatever is pending on its DVR connection, and every client and every other session is as before |
| PreviewDrain.DrainClient | src/smts_client_impl.c:27-48 | a client can always be closed and freed, whatever is pending, and every other client and every session but its own is as before |
| PreviewLoops.SendTurn | src/smts_session.c:156-161 | in the fan-out loop the next client exists, is open and listed, the frame is allocated, and after the turn the count is again the clients that took the frame plus those still to be visited |
| PreviewLoops.CountInTheMiddle | src/smts_session.c:155-161 | at every turn of the fan-out loop the reference count is the number of pending writes of the frame plus the clients still to be visited; at zero the frame is gone |
| PreviewLoops.StopTurnIsNext | src/smts_session.c:44-49 | one turn of the stop loop answers the client if it had no response, closes it once and unlinks it |
| PreviewLoops.RespondTurn | src/smts_session.c:181-185 | one turn of the response loop answers a client that had no response, or stops it when it cannot be written to |
| PreviewLoops.FanOutEnds | src/smts_session.c:146-165 | the loop over all clients adds up to the simultaneous fan-out |
| PreviewLoops.StopEnds | src/smts_session.c:44-49 | the stop loop adds up to stopping all clients at once |
| PreviewLoops.RespondEnds | src/smts_session.c:180-186 | the response loop adds up to answering all clients at once |
| PreviewLoops.DetachTwice | src/smts_session.c:83-96 | clients leaving one after the other leave the session as if they had left together, timer included |
| PreviewServer.Server.Serve | src/smts_session.c:40-286 | whatever the order of callbacks, the server goes through the states of the run and ends with the invariant |
| PreviewServer.Server.Handle | src/smts_session.c:40-286 | every callback as written, with its loops and early returns, makes exactly the step of the model, and calls delete_session exactly as PreviewKeys says |
| PreviewServer.Server.constructor | src/session_manager.c:20-24 | the server starts empty |
| PreviewServer.Server.StopMediaSession | src/smts_session.c:40-52 | the loop over the list stops every client once and leaves the session unregistered and empty |
| PreviewServer.Server.FanOutFrame | src/smts_session.c:146-161 | count set to client_size, one use taken back per client that does not keep it; the frame is allocated at every turn and gone after the last if nobody took it |
| PreviewServer.Server.OnSmtsDvrClientRecvFrame | src/smts_session.c:133-166 | a received frame is fanned out, or destroyed when the session has no client |
| PreviewServer.Server.SmtsClientSendFrame | src/smts_client_impl.c:134-150 | a ready client gets the frame, or drops its use and is stopped; any other client drops its use |
| PreviewServer.Server.OnSmtsClientSendFrame | src/smts_session.c:122-131 | one use of a frame is over; the last one frees header, payload and record |
| PreviewServer.Server.OnSmtsClientSendFrameCb | src/smts_client_impl.c:124-133 | the use is dropped first, and a failed write then stops the client |
| PreviewServer.Server.StopSmtsClient | src/smts_client_impl.c:35-48 | a client that is not stopped leaves its session and is closed; requires that it was not closed |
| PreviewServer.Server.MediaClientStopPreview | src/smts_session.c:83-96 | the client is unlinked, the size is the length of the list again, and the last one arms the timer |
| PreviewServer.Server.SmtsClientSendPreviewRes | src/smts_client_impl.c:95-122 | a client is answered once; a response that cannot be written, or a nonzero status, stops it |
| PreviewServer.Server.RespondToClients | src/smts_session.c:180-186 | all clients without a response are answered |
| PreviewServer.Server.OnSmtsDvrClientSendPreview | src/smts_session.c:169-196 | clients are answered before reading starts; failures stop the session |
| PreviewServer.Server.OnConnectedToDvr | src/smts_session.c:99-120 | a connection leads to the preview command; failure of either stops the session |
| PreviewServer.Server.SmtsDvrClientPreview | src/mock/smts_mock_dvr_impl.c:106-125 | a command that cannot be written reports its failure at once and again to its caller |
| PreviewServer.Server.OnDvrReadError | src/mock/smts_mock_dvr_impl.c:44-49 | a read error ends reading and stops the session |
| PreviewServer.Server.SessionExitCb | src/smts_session.c:61-74 | an idle session is unregistered and its connection closed; a session that woke up goes on |
| PreviewServer.Server.ClientOnConnection | src/smts_client_impl.c:61-81 | a client is allocated, and closed at once when reading cannot start |
| PreviewServer.Server.OnSmtsClientSendErrorPreviewResCb | src/smts_client_impl.c:152-158 | a client that was told of a failure is stopped |
| PreviewServer.Server.SmtsStartPreview | src/smts_client_impl.c:163-193 | a preview command joins the registered session with the key or starts one, and a failure is told |
| PreviewServer.Server.StartNewSession | src/smts_session.c:238-276 | a new session is registered and connecting, or every trace of it is undone |
| PreviewServer.Server.JoinSession | src/smts_session.c:278-283 | the client is put at the head of the list and answered |
| PreviewServer.Server.GetSession | src/session_manager.c:83-95 | a registered session with the key, or none if no registered session has it |
| PreviewServer.Server.DeleteSession | src/session_manager.c:97-110 | the session is out of the registry; requires that no other registered session has its key, which holds at every call |
| PreviewServer.Server.AddSession | src/session_manager.c:61-81 | a session with a free key is registered at the head |
| SessionRegistry.SessionManager.AddSession | src/session_manager.c:61-81 | on the circular list: adds under a free key, refuses a taken one, keeps keys distinct and the size |
| SessionRegistry.SessionManager.GetSession | src/session_manager.c:83-95 | returns the session the represented map holds under the key |
| SessionRegistry.SessionManager.IsContain | src/session_manager.c:40-59 | -1 exactly when the key is registered |
| SessionRegistry.SessionManager.DeleteSession | src/session_manager.c:97-110 | removes exactly the given session, keeping size and map right, if and only if it is the registered one or its key is free; if another session has the key, the size is one short and the old neighbours of the session are linked to each other |
| SessionRegistry.SessionManager.constructor | src/session_manager.c:20-24 | an empty list, size zero |
| SessionRegistry.SessionManager.DeleteTwice | src/session_manager.c:97-110 | a second delete of a session, after any script in between: with a free key it does nothing; otherwise the size is one short and, its old neighbours still being there, the list has lost everything added in between, the present owner of the key included, if the session was the first one, and nothing if it was not; with just one neighbour gone the head leads no list |
| SessionRegistry.GapAfter | src/session_manager.c:61-110 | under any script of adds and deletes two neighbours stay side by side, except that everything added stands between the head and the first of the earlier elements |
| SessionRegistry.ScriptShape | src/session_manager.c:61-110 | any script of adds and deletes leaves newcomers in front and a part of the earlier list, in order, behind them |
| SessionRegistry.StaleDeleteDropsAnother | src/session_manager.c:102-107 | the calls add, delete, add, delete, of which the last is of the first session again, leave the list empty although by intent the second session is still registered |
| SessionRegistry.SessionManager.Operate | src/session_manager.c:61-110 | under any script of adds, lookups and deletes on an empty manager, each delete being of the registered session or of a free key: the list holds sessions with distinct keys, the size counts them and the map, and every lookup returns the session added under its key and not deleted since |
| SessionRegistry.AsMapSize | src/session_manager.c:32-35 | the length of the list, which the size field keeps, is the number of keys of the map |
| SessionRegistry.AsMapRemove | src/session_manager.c:106-107 | unlinking a session removes exactly its key from the map |
| CircularList.Init | src/common/queue.h:40-45 | a link that is its own list is the empty list |
| CircularList.InsertHead | src/common/queue.h:67-74 | prepends |
| CircularList.InsertTail | src/common/queue.h:76-83 | appends |
| CircularList.Remove | src/common/queue.h:85-90 | deletes one element and leaves its own pointers, with which a traversal goes on; for a link of no list, as for any, the old neighbours are linked to each other |
| CircularList.SplicedIsList | src/common/queue.h:85-90 | after two links were linked to each other the head leads a list if and only if both are in it, the first not behind the second, or neither is; it is the list of before if and only if nothing stood between them |
| CircularList.SplicedForward | src/common/queue.h:85-90 | what was between them, and nothing else, is lost |
| CircularList.SplicedBackward | src/common/queue.h:85-90 | linked the other way round, they leave no list of the head at all |
| CircularList.SplicedAcross | src/common/queue.h:85-90 | nor does linking an element to a link outside |
| CircularList.Add | src/common/queue.h:47-54 | concatenates, with either list empty or not |
| CircularList.Split | src/common/queue.h:56-65 | cuts the list at an element |
| CircularList.SplitThenAdd | src/common/queue.h:47-65 | cutting and appending the tail restores the list |
| CircularList.ForEachRemoving | src/common/queue.h:31-32 | a traversal whose body may unlink the current element visits every original element once, in order, and terminates |
| CircularList.SameRing | src/common/queue.h:21-25 | the pointers determine the contents of a list |
| CircularList.StepProgress | src/common/queue.h:31-32 | one turn of the traversal moves exactly one element from ahead of the cursor to behind it |
| IntegerCodec.DecodeOfEncode | src/protocol/encode_decode_util.c:21-75 | decoding the big-endian bytes of any value of a width gives the value back |
| IntegerCodec.EncodeOfDecode | src/protocol/encode_decode_util.c:21-75 | encoding what was decoded from any bytes gives the bytes back, and the value fits the width |
| IntegerCodec.Widths | src/protocol/encode_decode_util.c:29-41 | the widths are 16, 32 and 64 bits |
| IntegerCodec.EncodeInt | src/protocol/encode_decode_util.c:21-27 | the shift loop writes those bytes and nothing else |
| IntegerCodec.DecodeInt | src/protocol/encode_decode_util.c:46-52 | the shift loop, which truncates to the width at each turn, computes that value |
| IntegerCodec.BytesIntIsTruncated | src/protocol/encode_decode_util.c:46-52 | truncating at each turn is truncating the whole unsigned number once |
| PacketLayout.RoundTrip | src/protocol/smts_proto.c:68-204 | decoding an encoded packet gives the stamped message back if and only if the length expression of its payload subtracts exactly the fixed part |
| PacketLayout.DecodeOfBytes | src/protocol/smts_proto.c:90-98 | fields decode to their values wherever in a packet they stand |
| PacketLayout.PacketIsStamped | src/protocol/smts_proto.c:195-199 | an encoded packet starts with its own length and its command, and is as long as the length function says |
| PacketLayout.DeclaredAdjustments | src/protocol/nvmp_protocol_def.h:36-114 | of the declared layouts exactly smts_frame_res has a payload length that is not the rest of the packet |
| PacketLayout.DeclaredLayoutsAreWellFormed | src/protocol/nvmp_protocol_def.h:36-114 | every declared layout has the two header fields and at most one borrowed payload, after a scalar |
| PacketLayout.CommandsAreDistinct | src/protocol/nvmp_protocol_def.h:36-114 | no two declared commands are equal as 32-bit numbers |
| PacketLayout.FrameResponseNeverDecodes | src/protocol/nvmp_protocol_def.h:73-78 | an encoded smts_frame_res of any payload makes its own decoder run past the packet |
| PacketLayout.DecodedInsidePacket | src/protocol/smts_proto.c:90-97 | the bytes that the length function counts for a decoded message lie inside its packet |
| PacketCodec.Command.constructor | src/protocol/smts_proto.c:44-63 | a new command has its command number, no buffers and no references |
| PacketCodec.Command.PacketLength | src/protocol/smts_proto.c:68-83 | the length function counts the bytes of the encoded fields |
| PacketCodec.Command.BufsAlloc | src/protocol/smts_proto.c:147-164 | as many slots as the allocation pass fills; owned ones are new and disjoint, and the bitmap marks exactly the borrowed one |
| PacketCodec.Command.BufsInnerAlloc | src/protocol/smts_proto.c:116-143 | each owned slot is as long as the run of fields it is for |
| PacketCodec.Command.FillBuffers | src/protocol/smts_proto.c:170-199 | every owned slot is filled exactly; the slots in order are the bytes of the message |
| PacketCodec.Command.Encode | src/protocol/smts_proto.c:190-202 | the gathered slots are the packet of the message, stamped with its length and command |
| PacketCodec.Command.EncodeField | src/protocol/smts_proto.c:170-173 | one field is written behind what is there |
| PacketCodec.Command.Decode | src/protocol/smts_proto.c:90-110 | the scalars are those read from the packet, the payload points into it with the claimed length, the packet is the one owned buffer, and where the specified decode exists the message is that |
| PacketReads.DeclaredReads | src/protocol/smts_proto.c:90-97 | a declared layout is read inside a packet exactly when the packet is as long as its fixed fields, whatever length it claims |
| PacketReads.DecodeIsRead | src/protocol/smts_proto.c:90-94 | where the specified decode exists the reads are its scalars and strings |
| PacketReads.PayloadIsView | src/protocol/smts_proto.c:95-95 | and the payload view lies inside the packet and shows its payload |
| PacketCodec.Command.Destroy | src/protocol/smts_proto.c:217-240 | drops a reference, or frees each owned buffer once, no borrowed one, and the structure |
| PacketCodec.Command.UseAndDestroy | src/protocol/smts_proto.c:217-251 | under any sequence of increments and destroys the command lives until the last of its increments-plus-one destroys, and is freed then |
| PacketCodec.Command.OwnedAfterEncode | src/protocol/smts_proto.c:121-141 | what a command owns after an encode is the buffers before and after the payload and never the payload |
| PacketCodec.Command.EncodeAndDestroy | src/protocol/smts_proto.c:190-240 | an encoded message is the stamped packet, and its destroy frees the header and trailer blocks once and not the payload |
| PacketSplit.SplitLosesNothing | src/smts_abstract_tcp_client.c:88-167 | the packets of a stream and what is left of it are the stream |
| PacketSplit.SplitDeliversPackets | src/smts_abstract_tcp_client.c:99-101 | each packet is as long as it announces, prefix included; a stream is bad exactly where the announced length is not above 4 or is above 64 MiB |
| PacketSplit.SplitExtend | src/smts_abstract_tcp_client.c:88-167 | splitting can be interrupted anywhere: the rest and the new bytes go on as the whole stream would; nothing follows a bad length |
| PacketSplit.SplitOfConcat | src/smts_abstract_tcp_client.c:88-167 | a concatenation of packets splits into them |
| Deframer.TcpReader.constructor | src/smts_abstract_tcp_client.c:53-59 | a reader starts with an empty temporary packet |
| Deframer.TcpReader.AllocCb | src/smts_abstract_tcp_client.c:88-120 | offers the room that is left of the length prefix or of the body; a bad length offers none; at offset 4 with a body already allocated it allocates another or marks the packet invalid |
| Deframer.TcpReader.AllocBody | src/smts_abstract_tcp_client.c:107-112 | a new body of the announced length starts with the prefix |
| Deframer.TcpReader.ReadCb | src/smts_abstract_tcp_client.c:124-167 | an invalid length or a read error is reported, the former even through a missing callback; a complete packet is delivered and the temporary packet reset; anything else goes on |
| Deframer.TcpReader.PrefixNotComplete | src/smts_abstract_tcp_client.c:149-149 | the completion test cannot hold while only prefix bytes are there |
| Deframer.TcpReader.CompletePacket | src/smts_abstract_tcp_client.c:149-160 | the body is handed over, or freed when there is no callback, exactly once |
| Deframer.TcpReader.ReadTurn | src/smts_abstract_tcp_client.c:88-167 | one allocation and one read take as many bytes as the transport likes, is able to and has room for, or report a bad length; a turn that takes none right after the prefix has allocated the body |
| Deframer.TcpReader.ReadNothing | src/smts_abstract_tcp_client.c:148-148 | a read of nothing changes nothing, except that right after the prefix the body is allocated |
| Deframer.TcpReader.EmptyReadThenAnother | src/smts_abstract_tcp_client.c:97-112 | a read of nothing right after the prefix, followed by another read, is harmless on no host: a valid second decode loses the first body, an invalid one refuses a good packet; the length survives exactly on a big-endian host or when it reads the same backwards |
| Deframer.TcpReader.Schedule | src/smts_abstract_tcp_client.c:88-167 | under any schedule of reads, empty ones included, the reader is where the stream leads it if and only if no empty read comes right after a prefix and before another read; the bytes consumed are the first ones of the data, as many as the reads up to there take |
| Deframer.EverythingIsRead | src/smts_abstract_tcp_client.c:88-167 | a schedule of non-empty reads, long enough, takes every byte of a stream without a bad length |
| Deframer.EveryHostLosesABody | src/smts_abstract_tcp_client.c:97-112 | on every host, for a packet of 0x10100 bytes, the length survives and the first body is unaccounted for |
| Deframer.LittleEndianRefusesFive | src/smts_abstract_tcp_client.c:97-105 | on a little-endian host a five-byte packet is reported invalid although its stream is good |
| Deframer.TcpReader.Feed | src/smts_abstract_tcp_client.c:88-167 | for every chunk of every stream, cut into non-empty reads in any way, the packets delivered are those of the split of all bytes so far; a bad length is reported and nothing later is delivered |
| Deframer.TcpReader.ReadFails | src/smts_abstract_tcp_client.c:135-146 | a read error frees the body and is reported, unless the length was already invalid |
| Deframer.TcpReader.SocketCloseCb | src/smts_abstract_tcp_client.c:33-64 | after closing, every body ever allocated was handed over once or freed once |
| Deframer.SecondDecode | src/smts_abstract_tcp_client.c:97-107 | the length alone survives a second decode, from its converted form, if and only if the host is big-endian or the length reads the same backwards |
| Deframer.SecondDecodeRefusesFive | src/smts_abstract_tcp_client.c:97-103 | on a little-endian host the second decode refuses a packet of five bytes |
| Deframer.TurnSplit | src/smts_abstract_tcp_client.c:88-167 | what one read does to the split of the stream, in each phase |
| Dispatch.DispatchPacket | src/smts_dispatch.c:24-52 | for every packet, by its bytes: one with command bytes 0 5 1 4 asks for the session of the DVR, channel and frame mode in its bytes 148 to 161; one with 0 1 128 16 goes to the DVR if and only if there is a session and the write is accepted; no other reaches the DVR or starts anything; an unknown command is ignored; the packet is freed once, later if it was forwarded |
| Dispatch.DispatchCase | src/smts_dispatch.h:28-42 | decode, handle, destroy: the command holds one reference exactly when it was forwarded, whatever its payload points to |
| Dispatch.LayoutByBytes | src/smts_dispatch.c:29-43 | the switch finds the layout that the four command bytes stand for, and none for any other bytes |
| Dispatch.SizeByBytes | src/protocol/nvmp_protocol_def.h:36-114 | the fixed fields of the layouts are 8, 162, 40, 24, 16, 24, 24 and 24 bytes |
| Dispatch.ReactionByBytes | src/smts_dispatch.h:28-42 | what the handler of a layout does is what the bytes of the packet say |
| Dispatch.PreviewReads | src/smts_client_impl.c:163-172 | the key that a preview command asks for is in its bytes 148 to 161 |
| Dispatch.HandleAndDestroy | src/smts_dispatch.h:28-42 | a preview command is turned into the key it asks for, a channel command is sent on, others do nothing; then the command is destroyed |
| Dispatch.DispatchFrameResponse | src/smts_dispatch.h:28-42 | an encoded smts_frame_res of any payload, whose decoder points past its end, is handled by nobody and freed once |
| Dispatch.SendCmd | src/smts_session.c:207-224 | one more reference while the write is pending; none without a session or when the write fails |
| Dispatch.OnSendCmdToDvr | src/smts_session.c:198-202 | the write callback frees what is left of the command |
| Dispatch.ForwardAndComplete | src/smts_session.c:198-224 | for every packet of at least 24 bytes with command bytes 0 1 128 16: the bytes written to the DVR are the bytes received, prefix included, and the packet is freed once |
| Dispatch.EncodedFindsItsLayout | src/smts_dispatch.c:29-43 | an encoded message is dispatched to its own layout |
| PacketStream.EndToEnd | src/smts_abstract_tcp_client.c:88-167 | the stream of any list of messages, of all declared layouts but smts_frame_res, splits into their packets, each of which is received as its message |
| PacketStream.Transfer | src/smts_abstract_tcp_client.c:88-167 | whatever chunks the stream is cut into, the reader delivers exactly the packets sent, in order, and holds nothing back |
| PacketStream.OneMessage | src/protocol/smts_proto.c:68-204 | an encoded message is a packet that is received as that message |
| PacketRelay.RelayFrame | src/smts_session.c:122-166 | for every packet the DVR can send and every order in which the clients write and finish: each write hands over the frame of the DVR, both packets are held until the last use is over, and the block of the one and the packet of the other are then freed once; without clients the packet is freed at once |
| PacketRelay.RelayedBytes | src/smts_session.c:146-155 | the packet for the clients has the length, the number, the type and the payload of the packet from the DVR, byte for byte, the command of a frame response and zero addresses |
| PacketRelay.ReceiveFrame | src/mock/smts_mock_dvr_impl.c:24-44 | a delivered packet is read inside its bounds exactly when it has the 24 bytes of the fixed fields; it is then held by one structure whose payload is a view of it |
| PacketRelay.ShareFrame | src/smts_session.c:146-155 | the packet for the clients owns one block, borrows the payload from the packet of the DVR, and has one reference for each client |
| PacketRelay.UseOver | src/smts_session.c:122-131 | the last use releases both packets, no earlier one any |
| PacketRelay.DeliveredDecodes | src/protocol/nvmp_protocol_def.h:94-100 | a packet that is as long as it claims decodes as a frame if and only if it holds the fixed fields |
| PacketRelay.FrameOf | src/protocol/nvmp_protocol_def.h:94-100 | its number, type and payload are the bytes 8 to 11, 12 to 15 and all from 24 on |
| PacketFields.PreviewCmdDecoded | src/protocol/nvmp_protocol_def.h:45-53 | a preview_cmd packet decodes if and only if it has 162 bytes or more, and then to the header, the token of bytes 20 to 147, the DVR of bytes 148 to 155, the channel of bytes 156 and 157 and the frame mode of bytes 158 to 161 |
| PacketFields.PreviewCmdEncoded | src/protocol/nvmp_protocol_def.h:45-53 | an encoded preview_cmd has exactly those 162 bytes |
| PacketFields.PreviewCmdResDecoded | src/protocol/nvmp_protocol_def.h:59-68 | a preview_cmd_res decodes from 40 bytes: the header, the status at 20 and four settings behind it |
| PacketFields.PreviewCmdResEncoded | src/protocol/nvmp_protocol_def.h:59-68 | an encoded preview_cmd_res has exactly those 40 bytes |
| PacketFields.MockDvrPreviewDecoded | src/protocol/nvmp_protocol_def.h:89-93 | a mock_dvr_preview decodes from 16 bytes: the bitrate at 8 and the frame rate at 12 |
| PacketFields.MockDvrPreviewEncoded | src/protocol/nvmp_protocol_def.h:89-93 | an encoded mock_dvr_preview has exactly those 16 bytes |
| PacketFields.TestPtzCmdDecoded | src/protocol/nvmp_protocol_def.h:105-109 | a test_PTZ_cmd decodes from 24 bytes, the movement at 20 |
| PacketFields.TestPtzCmdEncoded | src/protocol/nvmp_protocol_def.h:105-109 | an encoded test_PTZ_cmd has exactly those 24 bytes |
| PacketFields.CommonResDecoded | src/protocol/nvmp_protocol_def.h:110-113 | a common_res decodes from 24 bytes, the status at 20 |
| PacketFields.CommonResEncoded | src/protocol/nvmp_protocol_def.h:110-113 | an encoded common_res has exactly those 24 bytes |
| PacketFields.FieldsDecode | src/protocol/smts_proto.c:90-97 | a packet of any layout without payload decodes exactly when it reaches to the end of the fields, and each field comes from its offset |
| PacketFields.FieldEncoded | src/protocol/smts_proto.c:170-199 | and an encoded message has each field at its offset |
| PacketFields.CommandBytes | src/protocol/nvmp_protocol_def.h:36-114 | the four command bytes of the requests |
| PacketFields.ResponseBytes | src/protocol/nvmp_protocol_def.h:36-114 | the four command bytes of the responses |
| PacketFields.WholePacketDecodes | src/protocol/smts_proto.c:90-98 | any layout whose payload comes last and is what the fixed fields leave decodes from every packet that holds the fixed fields |
| Logger.CssLogger.Run | src/common/css_logger.c:589-616 | for any messages below the headroom, with timer dumps in between: what rolling has dropped, then the files oldest first, then the live buffer are exactly all that was logged; nothing is dropped before the twenty numbers are used up, each rolled file is above 15 MiB, so a logger that began with no more than number 0 keeps more than 19 times 15 MiB once it drops anything; each file it made is at most 18 MiB |
| Logger.CssLogger.LogInner | src/common/css_logger.c:589-616 | a message is lost if and only if it does not fit behind the buffer as it stands; the retry prints past the end of the old buffer if and only if it is lost and that buffer was not empty; below the headroom neither happens |
| Logger.CssLogger.DumpToFile | src/common/css_logger.c:169-242 | the buffer goes to the active file, and dropped text, files and buffer stay the whole history |
| Logger.CssLogger.SwapBuffers | src/common/css_logger.c:199-206 | the next buffer is empty and the old one still holds the text to be written |
| Logger.CssLogger.WriteAndRoll | src/common/css_logger.c:207-236 | the text is appended, and the files are rolled if and only if the active one is then above the limit; only the text of the last number is dropped |
| Logger.CssLogger.NewFile | src/common/css_logger.c:331-356 | old files move up one slot and slot 0 is empty |
| Logger.CssLogger.PrintToBuffer | src/common/css_logger.c:594-594 | a message that fits is in the buffer with its terminator, behind what was there |
| Logger.CssLogger.constructor | src/common/css_logger.c:331-356 | a logger starts with slot 0 active and its history in the files |
| Logger.OverflowUnreachableIff | src/common/css_logger.c:596-605 | the overflow branch is unreachable from every offset that messages below the headroom lead to if and only if the message is below the headroom too |
| Logger.OverflowIsReachable | src/common/css_logger.c:596-605 | a logger that has just started and logs one-character messages up to the threshold and then a message of the size of the headroom keeps all of them but the last, which is lost and overruns a buffer |
| Logger.EveryOffsetIsReached | src/common/css_logger.c:606-612 | every offset up to the threshold is reached by messages below the headroom |
| Logger.RollDrops | src/common/css_logger.c:301-322 | rolling drops the text of the last number and nothing else |
| Logger.RollKeeps | src/common/css_logger.c:217-236 | after a roll of a file above the limit, one more of the files in front is above it, and a text was dropped only if the numbers were used up |
| Logger.ClosedFilesAddUp | src/common/css_logger.c:217-236 | files that were closed above the limit add up |
| Logger.CssLogger.Retention | src/common/css_logger.c:169-242 | as long as fewer files were rolled than there were numbers left nothing has been dropped, and each roll has left more than 15 MiB |
| LogRotation.LogDirectory.RenameOldLogs | src/common/css_logger.c:301-322 | the descending loop maps slot i to i + 1, drops only slot 19 and leaves slot 0 free |
| LogRotation.RotationDropsTheOldest | src/common/css_logger.c:301-322 | the text of all files is the text of slot 19 and then the text of the rotated files |
| IntegerText.ParseOfText | src/common/smts_util.c:73-97 | parsing the text of any number in any base from 2 to 36 gives the number back, and there is no leading zero |
| IntegerText.TextLength | src/common/smts_util.c:73-97 | the text of a 32-bit number has at most 33 characters |
| IntegerText.Itoa | src/common/smts_util.c:73-97 | the terminated text is in the buffer; a base out of range gives the empty text |
| IntegerText.WriteDigits | src/common/smts_util.c:81-87 | the digit loop writes the digits in reverse and remembers the sign |
| IntegerText.TruncDiv | src/common/smts_util.c:83-83 | the quotient is rounded toward zero and the remainder has the sign of the dividend |
| IntegerText.MirroredTable | src/common/smts_util.c:84-86 | entry 35 + d of the mirrored table is the digit of the magnitude of d |
| IntegerText.ReverseInPlace | src/common/smts_util.c:91-95 | the swapping loop reverses the text in place |

## Left out

- PreviewServer.Server.Handle: clients, sessions and frames are entries of maps under identifiers that are not reused, not objects of their own, so aliasing between their fields is not modelled; in return allocation and freeing are explicit. The pointer form of the lists is in CircularList.
- PreviewServer.Server.StopMediaSession: iterates over the list as it was when the loop began; that a traversal of the linked list does so is CircularList.ForEachRemoving.
- PreviewServer.Server.SmtsStartPreview: one preview command per connection, a second one would link a client that is already linked; and no earlier session with the key may still call `delete_session`, see above.
- PreviewInvariants.CreateInv: requires the same of earlier sessions; without it the registry and its size would disagree after a stale delete, as SessionRegistry.SessionManager.DeleteTwice describes.
- PreviewRuns.FramesFollowTheResponse: speaks of the order in which frames are handed to libuv; that the transport keeps it is libuv's.
- PreviewDrain.CanComeToRest: says that a way to rest exists from every reachable state, not that the environment takes it.
- Deframer.TcpReader.Feed: cuts a chunk into non-empty reads; empty ones are in Deframer.TcpReader.Schedule, which follows a schedule up to the first read that does harm.
- Deframer.TcpReader.AllocCb: models the intended decode of the prefix bytes, see above; the size hint of libuv is taken to be positive.
- Dispatch.DispatchPacket: for a packet shorter than the fixed fields of its layout nothing is claimed beyond the outcome OutOfBounds, because the decoders read past its end without looking; a preview command ends with the key it asks for, which is the key of a `Preview` event of the protocol, and the handler of mock_dvr_preview, which belongs to the test DVR, is only named.
- PreviewServer.Server.DeleteSession: on identifiers only the case is modelled in which no other registered session has the key; SessionRegistry.SessionManager.DeleteSession has the other one, on the linked list, and PreviewKeys shows when it would come up.
- SessionRegistry.SessionManager.DeleteTwice: links are never freed in this model, so a neighbour that has left the list is written to like any other memory; that it is freed memory in the source is said above.
- Logger.CssLogger.Run: file operations succeed and finish in order, calls are atomic; the mutex, a buffer that is refilled while its write is pending, and failing opens are not modelled.
- Logger.CssLogger.constructor: starts from a directory with number 0 or an empty one; the source reopens the file whose name comes first as a string, which is number 0 whenever it exists, and what follows when it does not is not modelled.
- Logger.CssLogger.LogInner: says when the retry overruns a buffer, and nothing of the memory after that.
- PreviewSafety.NothingLeaks: speaks of clients, sessions and frames; the request structures of writes and connects, which the source does not free when the call fails at once, the response packets and the preview packet are not tracked.
- PreviewSafety.FreedIsFinal: does not cover libuv's own lists; the exit timer of a session is initialised and never closed before the session is freed (`src/smts_session.c:54-59`, `src/smts_session.c:272-276`), so the loop keeps a handle inside freed memory.
- LogRotation.LogDirectory.RenameOldLogs: file names are canonical decimal numbers; directory scanning, reopening and choosing the active file are not modelled, nor is an operation that fails.
- PacketCodec.Command.Encode: at most one borrowed payload per layout, preceded by a scalar, as all declared layouts have; `BinaryBuf` is used by no layout.
- PacketCodec.Command.constructor: the sequence number and the other public fields of a new command are zero; `FixedString` contents are whatever the caller gives.
- Status codes sent to clients carry no claim: some are overwritten before they are sent.
- The responses to transparent-channel commands, and the preview command to the DVR, which is not freed when it cannot be written, are not among the structures whose lifetime is tracked.
- PacketRelay.RelayFrame: follows the bytes and the memory of one frame under any use by its clients; the protocol refers to a frame by identity, and that the uses there are those of its clients is not one theorem.
- libuv, sockets, listening and accepting, address and DVR configuration, error texts, the memory guard, console output and time stamps are not part of this model.
- Formatting of log lines, `printf` and variable arguments are not part of this model.
- The test DVR and the test client are not part of this model.
