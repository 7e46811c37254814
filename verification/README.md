# A verified model of terminald

terminald runs a command in a PTY and serves it to a browser or to a command-line
client over one WebSocket. The hard part of it is not any single function but a
handful of protocols: the browser's reconnect machine, the server's two session
tasks, the cleanup of the child process, and the codecs, credentials and URLs on
which the two ends must agree. This project models those and proves what holds over
every run.

## How it is built

* **Browser** (`Browser`, `BrowserInvariant`, `BrowserRuns`, `BrowserTraffic`, `BrowserAnswers`, `BrowserEffect`). The
  `useEffect` machine is a transition system over the events that reach it. One
  inductive invariant ties the displayed phase and reason to exactly the timer,
  fetch or socket that is live; the theorems over whole runs follow from it, and those
  of `BrowserTraffic` say what one open socket carries both ways meanwhile.
  `BrowserAnswers` fixes what every answer of the environment leads to, in every
  reachable state, and which event caused what is displayed. The
  class `Shell` is the component itself: its fields are the refs, the state and the
  variables of each effect run, its methods are the inner functions and the event
  handlers, and every method is proved to perform the transition.
* **Session** (`Session`, `SessionRuns`, `SessionAnswers`, `SessionTasks`,
  `SessionWrites`). The reading task, the
  32-slot channel and the serving task interleave in any order. The class `Tasks`
  holds the one reused read buffer and refines the transitions; `SessionWrites` puts the
  PTY's writing loop inside the session. `SessionAnswers` says by the bytes of the
  client's messages what is typed, resized and answered, and why a session ends.
* **PTY** (`Pty`, `PtyRuns`, `PtyIo`, `PtyCleanup`). Any number of `wait`,
  `terminate` and `Drop` calls share the mutex and the once-flag while the processes
  of the group fork, exit, leave and change their signal masks. `PtyCleanup` is the
  sequential cleanup body, with arbitrary steps of everybody else between any two
  of its system calls. `PtyIo` holds the partial-write and polling loops.
* **Wire** (`Utf8`, `Decimal`, `Protocol`, `ProtocolExact`). Both encoders and both
  decoders, and for every result of a decoder exactly the bytes that give it.
* **End to end** (`EndToEnd`, `CommandLine`). The machines and the wire put together,
  from the keyboard to the PTY and from the PTY to the screen or to standard output.
* **Credentials and addresses** (`Base64`, `Auth`, `Paths`, `Routing`, `Endpoints`).

The environment follows the WebSockets Standard: a socket is pending, then open,
possibly closing, then gone; the change to open and the `open` event are one step;
messages arrive only while it is open; `error` fires on a socket that is closed
already and waits for its `close` only; `close` fires once and last. Results of system
calls, arrival orders, clocks and the choice of `select!` are arbitrary.

## What turned out not to hold as it might be expected

Each of these comes with an input that shows the failure and with the exact condition,
which can be checked before the step it speaks of.

* A mount prefix ending in a slash, without "assets/" in it, leads to the same asset
  as no prefix if and only if the rest is a page, mentions "assets/", or the prefix
  is only slashes (`Routing.MountPrefixLaw`): `/mount/favicon.ico` is looked up with
  its prefix (`Routing.MountedIconDiffers`).
* For clients that resolve references by RFC 3986, a redirect stays on this server if and
  only if the path does not start with two slashes (`Endpoints.RedirectReachesIndex`): a GET of `//host/x` is sent to another
  authority (`Endpoints.RedirectLeavesServer`).
* A successful `terminate` has reaped the child if and only if, when it swaps the
  once-flag, the flag is not set yet or the child is reaped already
  (`PtyRuns.ReapGuarantee`, `PtyRuns.SkippedWhileRunning`).
* A successful cleanup has killed the whole group if and only if its first status check
  finds the child running or the group is empty then (`PtyRuns.GroupGuarantee`,
  `PtyRuns.AlreadyExitedWithSurvivor`). Since the child may exit just before that check,
  a caller of `terminate` can rely on a dead group only if nobody is left at the call
  (`PtyRuns.TerminateGuarantee`); `wait` never kills anybody (`PtyRuns.WaitGuarantee`,
  `PtyRuns.WaitedWithSurvivor`).
* A queued cleanup can end while the processes do nothing if and only if no `wait` holds
  the mutex with the child running (`PtyRuns.QueuedCleanupCanEnd`): a `terminate` that
  comes after such a `wait` does not end (`PtyRuns.BlockedByWait`).
* The browser reads an encoded server message as Rust does if and only if it is not
  an error text with a leading byte order mark (`Protocol.ServerDecodersAgree`,
  `Protocol.ByteOrderMarkIsLost`).

Browser and command-line client derive the same WebSocket URL wherever both can be given
the URL, which is for http and https (`Endpoints.SocketUrlsAgree`).

## Model

| member | source | states |
|---|---|---|
| BrowserInvariant.StepKeeps | frontend/src/App.tsx:33-213 | every event, of any run of the effect, keeps the invariant that ties the displayed state to the live resources |
| BrowserRuns.AlwaysInv | frontend/src/App.tsx:33-213 | the invariant holds after every sequence of mounts, unmounts, fetch results, socket events, timers, keystrokes and resizes |
| BrowserRuns.DisplayNamesLiveResources | frontend/src/App.tsx:78-195 | reconnecting has exactly one of timer, fetch and unopened socket; connected and server_error exactly a socket that has opened and whose `close` is still to come; the final errors nothing |
| BrowserRuns.WebSocketErrorBecomesFinal | frontend/src/App.tsx:151-176 | after websocket_error only the close of that socket is left, and it shows the final websocket_upgrade |
| BrowserRuns.NothingElseIsLive | frontend/src/App.tsx:78-195 | every pending reconnect timer, current fetch and unfinished current socket is the one the refs name, so the display misses nothing |
| BrowserRuns.AtMostOneOfEach | frontend/src/App.tsx:78-136 | two sockets of one run have different attempt numbers and one of them is closed; at most one reconnect timer is pending |
| BrowserRuns.SocketFollowsAcceptedCheck | frontend/src/App.tsx:95-136 | every socket ever created comes from a 204 to the auth check of its own run and attempt |
| BrowserRuns.LateEventsAreInert | frontend/src/App.tsx:103-182 | events of a cancelled run or older attempt change no display, terminal, timer, counter or newer socket reference |
| BrowserRuns.UnmountedIsQuiet | frontend/src/App.tsx:205-212 | after unmount and until a remount no socket, fetch or timer is ever started and nothing shown changes |
| BrowserRuns.SettledForever | frontend/src/App.tsx:110-132 | a final error or closed state stays displayed in every continuation of the run and starts nothing |
| BrowserRuns.RemoteExitIsFinal | frontend/src/App.tsx:151-194 | once an Exited frame is handled, every continuation shows that exit code and starts no fetch, socket or timer |
| BrowserRuns.ReconnectingCanSucceed | frontend/src/App.tsx:78-150 | from every reachable connecting or reconnecting state, a failed socket included, at most four events lead to connected: it is never a dead end |
| BrowserRuns.ServerKnowsLatestSize | frontend/src/App.tsx:25-31 | while a socket is open the last resize sent on it is the last size the terminal reported, in any order of events |
| BrowserRuns.FirstFrameIsSize | frontend/src/App.tsx:139-150 | when a size is known at open, the first frame of the socket is that size, for ever after |
| BrowserTraffic.UserEventsAreSent | frontend/src/App.tsx:18-31 | over every run an open socket carries every keystroke and resize once and in order, up to the event that closes it, whatever frames, timers and late events come between |
| BrowserTraffic.ReceivedIsShown | frontend/src/App.tsx:177-194 | over every run the screen of an open socket shows exactly the output received on it; after an exit, screen and code stay until a remount |
| BrowserTraffic.NeverReopens | frontend/src/App.tsx:134-168 | a socket that has been open is never opened again |
| BrowserRuns.NoticeMatchesTimer | frontend/src/App.tsx:46-93 | the notice timer is pending exactly when the connected state shows new_session, and firing only removes the notice |
| BrowserAnswers.AnswerShows | frontend/src/App.tsx:122-137 | in every reachable state the answer to the current check shows auth_required if and only if it is 401, auth_check_failed if and only if it is neither 401 nor 204, and a 204 makes one connecting socket |
| BrowserAnswers.FailureShows | frontend/src/App.tsx:102-121 | a failed check shows network with its own text: final on a first attempt, reconnecting with a pending timer on a later one |
| BrowserAnswers.OpenShows | frontend/src/App.tsx:60-76 | an opened socket shows connected, with the new-session notice if and only if it is of a later attempt |
| BrowserAnswers.CloseShows | frontend/src/App.tsx:151-168 | the close of a socket that had opened, or of a later attempt, leads to reconnecting with exactly a pending timer unless the session exited; websocket_upgrade if and only if it is an unopened first attempt |
| BrowserAnswers.DroppedSessionReconnects | frontend/src/App.tsx:151-168 | every session that drops without an exit can connect again in three more events, with the notice shown |
| BrowserAnswers.ErrorShows | frontend/src/App.tsx:169-176 | an error shows if and only if a first attempt never opened |
| BrowserAnswers.FrameShows | frontend/src/App.tsx:177-194 | by its tag a frame on the open socket is written, shown as an error with its own text, shown as the exit with its own code, or changes nothing |
| BrowserAnswers.TimerShows | frontend/src/App.tsx:67-92 | the reconnect timer starts the check of the next attempt, the notice timer removes the notice |
| BrowserAnswers.MountShows | frontend/src/App.tsx:95-101 | a mount starts the first check of a new run and keeps screen and size |
| BrowserAnswers.DisplayHasCause | frontend/src/App.tsx:53-194 | whatever is displayed after any run was caused by an event of the matching kind in that run and has been displayed since: auth_required by a 401 to the check that counted then |
| BrowserEffect.Shell.ClearReconnect | frontend/src/App.tsx:39-44 | the pending reconnect timer and its ref go together |
| BrowserEffect.Shell.ClearNotice | frontend/src/App.tsx:46-51 | the pending notice timer and its variable go together |
| BrowserEffect.Shell.Show | frontend/src/App.tsx:53-58 | the whole new state of setState, the notice timer included |
| BrowserEffect.Shell.Announce | frontend/src/App.tsx:60-76 | the whole new state of showConnected |
| BrowserEffect.Shell.Schedule | frontend/src/App.tsx:78-93 | the whole new state of scheduleReconnect, its two early outs and the kept network detail |
| BrowserEffect.Shell.Attempt | frontend/src/App.tsx:95-101 | connect up to its await: the attempt is counted and its own fetch is in flight |
| BrowserEffect.Shell.HandleMount | frontend/src/App.tsx:33-37 | a new run with its first attempt; the invariant holds |
| BrowserEffect.Shell.HandleUnmount | frontend/src/App.tsx:205-212 | the cleanup performs the unmount transition and keeps the invariant |
| BrowserEffect.Shell.HandleFetchFailed | frontend/src/App.tsx:102-121 | a rejected check performs its transition: ignored, retried or shown |
| BrowserEffect.Shell.HandleFetchDone | frontend/src/App.tsx:122-137 | an answered check performs its transition: ignored, refused, or a new socket |
| BrowserEffect.Shell.HandleOpen | frontend/src/App.tsx:139-150 | `open` performs its transition, the late-open branch included |
| BrowserEffect.Shell.HandleClose | frontend/src/App.tsx:151-168 | `close` performs its transition |
| BrowserEffect.Shell.HandleError | frontend/src/App.tsx:169-176 | `error` performs its transition |
| BrowserEffect.Shell.HandleMessage | frontend/src/App.tsx:177-194 | a frame performs its transition on screen, state and socket |
| BrowserEffect.Shell.HandleTimer | frontend/src/App.tsx:67-92 | each timer performs its transition |
| BrowserEffect.Shell.SendInput | frontend/src/App.tsx:18-23 | input is sent only on an open current socket |
| BrowserEffect.Shell.SendResize | frontend/src/App.tsx:25-31 | the size is remembered and sent only on an open current socket |
| Session.AlwaysInv | crates/terminald-server/src/session.rs:13-94 | conservation of messages through reader, channel and driver, exit last, and the client's dues hold after every interleaving |
| SessionRuns.RelayedInOrder | crates/terminald-server/src/session.rs:20-70 | the relayed messages are outputs, at most one error, then at most one exit; their bytes are a prefix of what was read from the PTY |
| SessionRuns.ExitComesLast | crates/terminald-server/src/session.rs:40-70 | once an exit is sent, all bytes read were sent before it and nothing follows it |
| SessionRuns.BlockedReaderIsExcused | crates/terminald-server/src/session.rs:16-46 | the channel holds at most 32 messages, and a reader blocked on it waits for a driver that can receive, is sending or writing, or has stopped |
| SessionRuns.DeliveryShrinks | crates/terminald-server/src/session.rs:24-80 | every step that moves messages on shrinks the backlog |
| SessionRuns.DeliveryPossible | crates/terminald-server/src/session.rs:62-91 | while anything is left and the driver has not stopped, such a step is possible |
| SessionRuns.EverythingIsDelivered | crates/terminald-server/src/session.rs:20-94 | if PTY and socket keep accepting, some schedule no longer than the backlog sends every message made |
| SessionRuns.EveryScheduleDelivers | crates/terminald-server/src/session.rs:20-94 | if PTY and socket keep accepting, every schedule ends within the backlog, and when no step is left every message made has been sent |
| SessionRuns.EveryByteCanArrive | crates/terminald-server/src/session.rs:20-94 | in every reachable state whose driver has not stopped, all bytes read so far can still arrive |
| SessionRuns.ClientIsServedInOrder | crates/terminald-server/src/session.rs:71-89 | at each select the PTY holds exactly the bytes asked for, the size is the last one asked for, and each bad frame and ping has its one answer in order |
| SessionRuns.InputIsTakenIff | crates/terminald-server/src/session.rs:62-92 | with an accepting PTY and socket, any given client messages can be taken if and only if the client is open and the driver neither stopped nor is sending the exit |
| SessionAnswers.HistoryIsRecorded | crates/terminald-server/src/session.rs:20-47 | after every interleaving the recorded chunks, error, exit code and client messages are exactly those the environment gave; every chunk has 1 to 8192 bytes |
| SessionAnswers.ReadsUntilTheEnd | crates/terminald-server/src/session.rs:22-39 | the reading loop goes on if and only if no end, error or closed channel was met |
| SessionAnswers.OffersWhatItGot | crates/terminald-server/src/session.rs:25-46 | the message at hand is the last chunk read, the error met or the exit code of the child |
| SessionAnswers.ServedByTheBytes | crates/terminald-server/src/session.rs:71-89 | at each select the PTY holds the UTF-8 of the texts and the payloads of the frames tagged 1, the size is that of the last readable resize frame or 80 by 24, and every ping got its own bytes and every other frame its own error, in order |
| SessionAnswers.CloseEndsSession | crates/terminald-server/src/session.rs:85-92 | a client close is the last message taken, stops the driver cleanly, and nothing reaches PTY or socket in any continuation |
| SessionAnswers.StopsExactly | crates/terminald-server/src/session.rs:62-93 | the driver has left its loop if and only if the exit was sent, a send, the client, the PTY or a resize failed, the client closed, or both sources ended; the client is read until its stream ends |
| SessionAnswers.StopsCleanlyIff | crates/terminald-server/src/session.rs:62-93 | the driver ends without an error if and only if nothing it took is unsent and it sent the exit, took a close, or both sources ended |
| SessionTasks.Tasks.Read | crates/terminald-server/src/session.rs:21-33 | a read into the reused buffer becomes a message that owns its bytes |
| SessionTasks.Tasks.ReadEnds | crates/terminald-server/src/session.rs:24-24 | the end of the stream leads to the wait for the child |
| SessionTasks.Tasks.ReadFails | crates/terminald-server/src/session.rs:34-37 | a read error is offered once and then the child is waited for |
| SessionTasks.Tasks.Send | crates/terminald-server/src/session.rs:26-29 | a message enters the channel; the reader goes on, to wait or is done |
| SessionTasks.Tasks.SendRefused | crates/terminald-server/src/session.rs:29-36 | without a receiver the reader leaves its loop |
| SessionTasks.Tasks.ChildExited | crates/terminald-server/src/session.rs:40-46 | the exit code, or -1 without one, is the last message |
| SessionTasks.Tasks.TakeMessage | crates/terminald-server/src/session.rs:64-66 | the oldest message is taken to be sent |
| SessionTasks.Tasks.SendCompletes | crates/terminald-server/src/session.rs:65-69 | after a relayed exit the driver leaves its loop |
| SessionTasks.Tasks.SendFails | crates/terminald-server/src/session.rs:66-66 | a failed send ends the loop with its message unsent |
| SessionTasks.Tasks.Receive | crates/terminald-server/src/session.rs:71-89 | every kind of client message performs its transition |
| SessionTasks.Tasks.ServeFrame | crates/terminald-server/src/session.rs:73-81 | a binary frame is written, resizes, or is answered with its error |
| SessionTasks.Tasks.WriteSome | crates/terminald-server/src/session.rs:75-75 | one accepted part of a PTY write |
| SessionWrites.SessionWritesAll | crates/terminald-server/src/session.rs:75-83 | the answers to the writing loop, taken as session steps, leave exactly the accepted bytes typed and the driver at select, still writing or out of its loop |
| SessionTasks.Tasks.Fail | crates/terminald-server/src/session.rs:72-90 | a client error, a refused PTY write or both sources at their end leave the loop |
| SessionTasks.Tasks.ClientStreamEnds | crates/terminald-server/src/session.rs:71-71 | at the end of the client stream the other arm goes on |
| SessionTasks.Tasks.DropReceiver | crates/terminald-server/src/session.rs:49-53 | leaving closes the channel |
| Pty.AlwaysInv | crates/terminald-pty/src/process.rs:92-202 | mutex, once-flag, signals and every call's promises hold after every interleaving |
| PtyRuns.OneCleanup | crates/terminald-pty/src/process.rs:178-202 | at most one call ever claims the cleanup and at most one holds the mutex |
| PtyRuns.SignalOrder | crates/terminald-pty/src/process.rs:252-294 | SIGTERM is sent at most once and only while the child is unreaped, SIGKILL at most once and after it |
| PtyRuns.SignalsAreTimely | crates/terminald-pty/src/process.rs:285-288 | at the call that sends SIGTERM the child is unreaped and nothing was sent; at the one that sends SIGKILL exactly SIGTERM was |
| PtyRuns.PollSeesExit | crates/terminald-pty/src/process.rs:263-269 | a status check of the grace loop goes to the kill if and only if the child is dead, and reaps it |
| PtyRuns.GraceGoesOn | crates/terminald-pty/src/process.rs:270-273 | a sleep leads to another status check, the deadline to the kill |
| PtyRuns.SuccessMeans | crates/terminald-pty/src/process.rs:277-294 | what each successful path guarantees: reaped child, dead group, or no signal |
| PtyRuns.DeathIsFinal | crates/terminald-pty/src/process.rs:277-294 | a dead group and a reaped child stay so under all later events |
| PtyRuns.NoSignalAfterReap | crates/terminald-server/src/session.rs:40-52 | once the child is reaped with no signal sent, as after a relayed exit, nobody is ever signalled: what the shell left running goes on |
| PtyRuns.ReapGuarantee | crates/terminald-pty/src/process.rs:92-95 | success has reaped the child, however things go on, if and only if at the swap the flag is not set or the child is reaped |
| PtyRuns.GroupGuarantee | crates/terminald-pty/src/process.rs:277-294 | success has killed the group, SIGTERM-ignorers included, if and only if the first status check finds the child running or nobody is left |
| PtyRuns.TerminateGuarantee | crates/terminald-pty/src/process.rs:92-105 | seen from the call, success guarantees a dead group if and only if nobody is left when the flag is swapped |
| PtyRuns.WaitGuarantee | crates/terminald-pty/src/process.rs:117-128 | a successful wait has reaped the child, and guarantees a dead group if and only if nobody is left when it has the mutex |
| PtyRuns.QueuedCleanupCanEnd | crates/terminald-pty/src/process.rs:97-128 | while the processes do nothing, a queued cleanup can end if and only if no wait holds the mutex with the child running |
| PtyRuns.BlockedByWait | crates/terminald-pty/src/process.rs:92-128 | a run after which a cleanup is queued behind a waiting `wait` and cannot end while the processes do nothing |
| PtyRuns.SkippedWhileRunning | crates/terminald-pty/src/process.rs:92-95 | a run in which `terminate` returns Ok while the child runs |
| PtyRuns.WaitedWithSurvivor | crates/terminald-pty/src/process.rs:117-128 | a run in which `wait` succeeds while a group member lives |
| PtyRuns.AlreadyExitedWithSurvivor | crates/terminald-pty/src/process.rs:278-284 | a run in which the cleanup finds the child dead and signals nobody |
| PtyRuns.CleanupCanFinish | crates/terminald-pty/src/process.rs:277-294 | a cleanup inside the mutex can end in at most six of its own steps even if nobody reacts to SIGTERM |
| PtyCleanup.OthersRun | crates/terminald-pty/src/process.rs:97-102 | whatever others do while a cleanup holds the mutex, they neither reap the child, send signals nor move the cleanup |
| PtyCleanup.Cleanup.TerminateGroup | crates/terminald-pty/src/process.rs:277-294 | the sequential body, under any interference, ends with the child reaped, and on the signalling path with one SIGTERM, at most 21 status checks, one SIGKILL and a dead group |
| PtyCleanup.Cleanup.AlreadyGone | crates/terminald-pty/src/process.rs:278-284 | the first status check ends the cleanup exactly when the child is dead |
| PtyCleanup.Cleanup.WaitForExit | crates/terminald-pty/src/process.rs:260-275 | the grace loop under interference reaches the kill with its outcome, within the bound on its checks, and gives up only past the deadline |
| PtyCleanup.Cleanup.KillAndReap | crates/terminald-pty/src/process.rs:288-293 | SIGKILL goes out in both outcomes and the child ends up reaped |
| PtyIo.SuccessIsEverything | crates/terminald-pty/src/process.rs:149-161 | success means every byte was accepted, anything else a proper prefix |
| PtyIo.SucceedsIffRoom | crates/terminald-pty/src/process.rs:149-161 | success exactly when the answers offer room for all bytes before any error or empty write; interrupts and would-blocks do not matter |
| PtyIo.FailsOnFirstBadAnswer | crates/terminald-pty/src/process.rs:153-158 | the write fails with the system error, or for a write of nothing, if and only if that is the first bad answer before all bytes are taken |
| PtyIo.Source.ReadPty | crates/terminald-pty/src/process.rs:208-219 | one read, repeated while interrupted; its bytes fill the front of the buffer only |
| PtyIo.Source.Read | crates/terminald-pty/src/process.rs:137-147 | interrupts and would-blocks leave no trace, the first other answer decides, and a hangup reads as the end |
| PtyIo.Master.WritePty | crates/terminald-pty/src/process.rs:221-232 | one write, repeated while interrupted, appends exactly what it reports |
| PtyIo.Master.WriteAll | crates/terminald-pty/src/process.rs:149-161 | the accepted bytes are a prefix of the data, all of it exactly on success; no byte twice or skipped |
| PtyIo.WaitForExit | crates/terminald-pty/src/process.rs:260-275 | bounded number of checks; true exactly when the last check saw the exit, false exactly when it saw the child alive, past the deadline |
| PtyIo.GracePeriod | crates/terminald-pty/src/process.rs:26-27 | the grace period of the cleanup makes at most 21 checks and gives up no earlier than after 200 milliseconds |
| PtyIo.CleanupFlag.StartCleanup | crates/terminald-pty/src/process.rs:193-195 | only the first swap wins |
| Protocol.ClientRoundTrip | crates/terminald-protocol/src/message.rs:18-46 | decoding an encoded client message returns it, for all inputs and all `u16` pairs |
| Protocol.ServerRoundTrip | crates/terminald-protocol/src/message.rs:57-97 | decoding an encoded server message returns it, for all outputs, texts and `i32` codes |
| ProtocolExact.ClientExactly | crates/terminald-protocol/src/message.rs:18-30 | input is exactly a frame tagged 1 with that payload, a resize exactly one tagged 0 with a readable size, and the empty frame, other tags and unreadable sizes are refused with their own errors |
| ProtocolExact.ServerExactly | crates/terminald-protocol/src/message.rs:57-73 | for every result of the decoder exactly the frames that give it |
| ProtocolExact.ParseExactly | crates/terminald-protocol/src/message.rs:66-68 | a text parses as an `i32` if and only if it is a signed decimal of that value |
| ProtocolExact.BrowserExactly | frontend/src/terminal/protocol.ts:31-44 | for every result of the browser's decoder exactly the frames that give it |
| ProtocolExact.NumberOf | frontend/src/terminal/protocol.ts:40-42 | blank text is zero, and otherwise exactly the signed decimals with blanks around them are read as their value |
| Protocol.EncodeClient | crates/terminald-protocol/src/message.rs:32-46 | the frame built in place decodes to the message |
| Protocol.EncodeServer | crates/terminald-protocol/src/message.rs:75-97 | the frame built in place decodes to the message |
| Protocol.SizeRoundTrip | crates/terminald-protocol/src/resize.rs:11-17 | the printed two-field object reads back as the size |
| ProtocolExact.SizeExactly | crates/terminald-protocol/src/resize.rs:11-13 | a text is read as a size if and only if it is the two-field object, in either order, with blanks between its parts |
| ProtocolExact.PrintsAs | crates/terminald-protocol/src/resize.rs:15-17 | the printed object character for character |
| Protocol.ServerDecodersAgree | frontend/src/terminal/protocol.ts:31-44 | the browser reads every encoded server message as Rust does if and only if it is no error text with a leading byte order mark |
| Protocol.ByteOrderMarkIsLost | frontend/src/terminal/protocol.ts:37-39 | an error text on which the two decoders differ |
| Protocol.BrowserEncodeInput | frontend/src/terminal/protocol.ts:15-21 | the buffer filled in place is the frame Rust reads as the UTF-8 of a string or as the bytes of an array |
| Protocol.BrowserEncodeResize | frontend/src/terminal/protocol.ts:23-29 | the buffer filled in place is the frame Rust encodes for the size |
| Decimal.PrintReads | crates/terminald-protocol/src/resize.rs:15-17 | printing is canonical and reads back |
| Decimal.ReadU16Exact | crates/terminald-protocol/src/resize.rs:11-13 | what the integer reader takes is exactly the printed form of a `u16` |
| Decimal.ParsesPrintedI32 | crates/terminald-protocol/src/message.rs:65-70 | parsing a printed `i32` returns it, the minimum included |
| Decimal.NumberReadsPrinted | frontend/src/terminal/protocol.ts:40-42 | `Number` reads every printed code |
| Utf8.RoundTrip | crates/terminald-protocol/src/message.rs:64-66 | lossy decoding of encoded text returns the text |
| Utf8.BitsOf | crates/terminald-protocol/src/message.rs:83-87 | the bits of a character stand in its bytes as RFC 3629 lays out |
| Utf8.DecodesExactly | crates/terminald-protocol/src/message.rs:64-66 | a character other than the replacement is decoded from its own encoding only |
| Utf8.ReplacesLongestBeginning | crates/terminald-protocol/src/message.rs:64-66 | of malformed bytes the longest beginning of a character is replaced, or else one byte |
| Utf8.DecodersAgree | frontend/src/terminal/protocol.ts:37-42 | `TextDecoder` agrees with lossy decoding on encoded text if and only if no byte order mark leads |
| EndToEnd.WireMeans | crates/terminald-server/src/session.rs:73-81 | the server reads off encoded frames exactly the input bytes and last size the client meant, and owes no answer |
| EndToEnd.MessagesReachPty | crates/terminald-server/src/session.rs:71-84 | for any keystrokes and resizes delivered and accepted, the PTY receives exactly their bytes, has the last size, and no error is answered |
| EndToEnd.PrefixReachesPty | crates/terminald-server/src/session.rs:71-84 | at any moment of the delivery the PTY has received a prefix of those bytes and no error was answered |
| EndToEnd.MessagesCanReachPty | crates/terminald-server/src/session.rs:71-84 | from every state that can still take input, any further messages can be delivered in full |
| EndToEnd.GarbageOnlyAddsAnswer | crates/terminald-server/src/session.rs:77-79 | of two sessions, one of which also got a frame that is empty, of an unknown tag or a resize without a size, the same bytes and size reached the PTY, and the one error answer stands between the same other answers |
| EndToEnd.PtyHasLatestSize | frontend/src/App.tsx:25-31 | a session that took in an open socket's frames has the size the terminal last reported, whatever came before |
| EndToEnd.KeystrokesReachPty | frontend/src/App.tsx:18-23 | over every run from the open event, exactly the UTF-8 of the text typed while the socket was open reaches the PTY, at every moment a prefix of it |
| EndToEnd.OutputsReachScreen | frontend/src/App.tsx:184-188 | over every run that leaves the socket open, every output byte received is on the screen in order |
| EndToEnd.PrefixReachesScreen | frontend/src/App.tsx:184-188 | at every moment at which the socket is open and has received a prefix of the frames sent, the screen has grown by a prefix of the bytes read from the PTY |
| EndToEnd.WholeSessionIsShown | frontend/src/App.tsx:177-194 | over every run without a remount that receives the frames of a session that relayed its exit, error answers included, all bytes read from the PTY are on the screen and the status shows the code |
| EndToEnd.WholeConversation | frontend/src/App.tsx:139-194 | both directions in one run: the PTY got a prefix of the text typed while open, and the session is on the screen in full |
| EndToEnd.WholeSessionIsPrinted | crates/terminald-cli/src/client.rs:78-112 | the command-line client prints such a session in full and then a notice whose number reads as exactly the exit code, unless reading the PTY failed: then it fails with that text and shows no exit |
| EndToEnd.RefusalEndsClient | crates/terminald-cli/src/client.rs:99-102 | the first error answer ends the command-line client with its text, after the output before it |
| CommandLine.StoppedForGood | crates/terminald-cli/src/client.rs:78-92 | once stopped the client reads nothing more |
| CommandLine.NoticeReads | crates/terminald-cli/src/client.rs:102-107 | the notice is the fixed text around the canonical decimal that reads as the code |
| CommandLine.NoticesDiffer | crates/terminald-cli/src/client.rs:102-107 | different codes are announced by different bytes |
| CommandLine.FirstEndDecides | crates/terminald-cli/src/client.rs:78-112 | by the bytes: outputs and texts are printed as they come, and the first other arrival ends the client in its own way |
| CommandLine.Client.HandleServerFrame | crates/terminald-cli/src/client.rs:95-112 | one frame: what is printed, whether to stop, and why it fails, a broken standard output included |
| CommandLine.Client.WriteServerOutput | crates/terminald-cli/src/client.rs:114-121 | output is flushed at once; a standard output that breaks has shown what it had room for |
| CommandLine.Client.Receive | crates/terminald-cli/src/client.rs:78-89 | the receiving loop ends as the fold over all arrivals does if standard output has room for it, and otherwise fails having shown what there was room for |
| Base64.RoundTrip | crates/terminald-server/src/auth.rs:25-27 | decoding undoes encoding for all lengths and paddings |
| Base64.DecodedIsEncoded | crates/terminald-server/src/auth.rs:25-27 | whatever decodes is the one encoding of its octets |
| Base64.AlphabetIsStandard | crates/terminald-server/src/auth.rs:25-27 | the alphabet symbol by symbol |
| Base64.BigEndian | crates/terminald-server/src/auth.rs:25-27 | four symbols carry three octets most significant first, missing octets as padding |
| Auth.PairRoundTrip | crates/terminald-server/src/auth.rs:29-31 | splitting the joined pair returns the credential when the user name has no colon |
| Auth.NewRoundTrip | crates/terminald-server/src/auth.rs:17-23 | the split succeeds exactly with a colon, at the first one, and joining returns the text |
| Auth.AcceptsIffSame | crates/terminald-server/src/auth.rs:60-74 | a server accepts a client's header if and only if the credentials are equal |
| Auth.AcceptsIffSameText | crates/terminald-cli/src/client.rs:142-147 | the same for the configured texts |
| Auth.HeaderOpens | crates/terminald-cli/src/client.rs:142-147 | the header is "Basic " and what decodes to the UTF-8 of user name, colon and password |
| Auth.AnonymousClient | crates/terminald-server/src/auth.rs:60-66 | a client without credential is accepted exactly by a server without one |
| Auth.ConstantTimeEq | crates/terminald-server/src/auth.rs:97-106 | the accumulated difference is zero exactly for equal byte strings |
| Auth.ValidateHeaders | crates/terminald-server/src/auth.rs:60-74 | the chain of tests accepts exactly the one header value |
| Auth.FileIsOneLine | crates/terminald-cli/src/args/credentials.rs:39-61 | a file is accepted exactly when it is one line free of CR, LF and NUL with a colon, bare or ended by one LF or CRLF, and then means what that line means |
| Auth.FileExactly | crates/terminald-cli/src/args/credentials.rs:44-60 | when a file is refused for not being one line, and when for having no colon |
| Routing.AssetPathIsContained | crates/terminald-server/src/assets.rs:81-100 | without a parent segment the asset path is relative, has none either and stays under every root |
| Routing.AssetPathIdempotent | crates/terminald-server/src/assets.rs:81-90 | deriving the asset path again changes nothing |
| Routing.AssetPathExactly | crates/terminald-server/src/assets.rs:81-96 | the asset of every path: the index page, the path without leading slashes, or its part from the first "assets/" on |
| Routing.MountPrefixLaw | crates/terminald-server/src/assets.rs:81-90 | exactly when a mount prefix leads to the same asset as no prefix |
| Routing.MountedIconDiffers | crates/terminald-server/src/assets.rs:81-90 | an icon that a mount prefix changes |
| Routing.SelectsFirst | crates/terminald-server/src/assets.rs:118-128 | the first allowed and present candidate is taken |
| Routing.LoadedIsContained | crates/terminald-server/src/assets.rs:43-56 | a climbing request finds nothing; any other gets the external file, else the generated one, else the fallback, else nothing, at a path without a climbing segment |
| Endpoints.DispatchExactly | crates/terminald-server/src/routes.rs:35-70 | every answer and exactly when it is given; nothing without authorisation |
| Endpoints.RedirectReachesIndex | crates/terminald-server/src/routes.rs:59-86 | a redirect leads back to this server if and only if the path does not start with two slashes, then in one hop to the index page |
| Endpoints.RedirectLeavesServer | crates/terminald-server/src/routes.rs:59-61 | a path whose redirect names another authority |
| Endpoints.EnsureTrailingSlash | frontend/src/terminal/urls.ts:11-17 | the assigned path ends in a slash and nothing else changes |
| Endpoints.ResolveWebSocketUrl | frontend/src/terminal/urls.ts:1-5 | the URL assigned step by step is the browser's socket URL |
| Endpoints.ResolveWsUrl | crates/terminald-cli/src/client.rs:123-140 | the URL changed in place is the client's socket URL, or none for another scheme |
| Endpoints.DerivedUrlsReachEndpoints | crates/terminald-server/src/routes.rs:35-58 | for every mount URL, what both clients derive is dispatched to the check and the upgrade |
| Endpoints.SocketUrlsAgree | crates/terminald-cli/src/client.rs:123-140 | browser and client derive the same socket URL if and only if the scheme is http, https or ws |
| Endpoints.SecurityIsKept | frontend/src/terminal/urls.ts:1-9 | wss if and only if the page or connect URL is secure; authority is kept, query and fragment dropped |
| Endpoints.EndpointsBelowMount | frontend/src/terminal/urls.ts:1-17 | without dot segments the socket and the check lie directly below the mount path |
| Paths.DotsCancel | frontend/src/terminal/urls.ts:1-9 | joining leaves out a segment followed by two dots and ignores one dot |

## Left out

- WebSocket constructors that throw, the final `catch` of the first attempt, and what a
  browser does after a listener throws: an unknown frame changes nothing here.
- React: state updates apply in issue order, and an effect run's closures are rows of
  `runs`. Rendering, the terminal widget and the status bar are not modelled.
- General JSON: the reader takes the two-field object with its fields in either order and
  blanks anywhere; further fields, arrays and escaped names, which serde accepts, are
  errors in the model.
- Error texts of anyhow and serde: a decoding error is a value, and the end-to-end theorems
  hold for any wording of it.
- JavaScript numbers other than blank and decimal integers are one value, `Other`. No frame
  the server encodes leads to it.
- Text is a sequence of Unicode scalar values; lone surrogates of JavaScript strings do not
  occur.
- Unconditional progress of a session: the driver waits inside a select arm for the PTY to
  accept, so delivery is proved for a PTY and socket that keep accepting.
- Unconditional progress of a cleanup: `wait` holds the mutex while it blocks, so the
  cleanup is proved to finish once it has the mutex.
- A poisoned mutex, a cleanup thread that cannot be spawned and the reuse of process
  numbers after the reap.
- The interleavings of `wait`, `terminate` and `Drop` are a transition system on values;
  only the cleanup body, the loops and the flag are imperative.
- Signals act with the call that sends them: members that do not ignore SIGTERM may die then
  or later, SIGKILL empties the group at once. A process that leaves the group is out of
  reach and out of the model.
- The error numbers behind a hangup (EIO and unexpected end) are one answer.
- The sending half of the command-line client, raw mode and window-size signals.
- URLs are records of their parts with the joining rules of RFC 3986; the parser, ports,
  percent-encoding and pages whose scheme a browser refuses to change are not modelled.
- WebSocket upgrade rejections, content types, the router, listeners, command-line argument
  tables and build files.
