# Models of the message server, the thread pools and the HTTP server

Three parts of this repository carry real protocols, and each is modelled twice:
as code (classes, arrays, loops, in the form of the C++) and as a step system over
values, so that statements can be made about every interleaving. Each method
of a server, a pool or a transfer that changes its state is proved to be a step, or
a sequence of steps, of the second.
Runs of a step system are defined once, in `Runs`. What a state holds is also stated in
terms of the steps alone: the bytes that arrived, the results of `send` and `write`, the
times at which a client was active.

**Message server** (`Bytes`, `Messages`, `NetParser`, `NetServer`, `NetCode`,
`NetRuns`, `NetFraming`, `NetRaces`, `NetForgery`, `NetHistory`, `NetClient`). A message
is printed as a 100-byte frame, a 60-byte head and a 40-byte body padded with '#'. The
server has one thread per accepted connection; each reads a head, perhaps registers the sender's name, reads
the body and shows it or sends the same 100 bytes to the socket registered for the
destination. Accepting, starting a thread, arrival of bytes, the head part and the
body part are separate steps. The two uses of `recvsock.back()` are kept as the code
has them: a thread takes its socket, and a registration takes its value, from
whatever connection was accepted last. What that costs is stated exactly: framing,
order and the bytes on the wire are proved for every run whose started threads read
from distinct sockets. Once two of them share one, any frame can be handled in some
continuation, and sent on if its destination is registered, although no peer sends it;
that is so even if the peers send well-formed messages only.

**Thread pools** (`ThreadingCtrl`, `Pool`, `PoolCode`, `SenderMessages`,
`SenderFile`, `SenderLiveness`, `ReceiverFile`, `FileCopy`, `FileLosses`). The sender and the
receiver share one machine: a boss that reads shared data, locks, creates, informs
the controller and unlocks; workers that report under the lock and later pop the
queue under the lock. Each unlocked read of the permit (the count passed as an
argument, the length in the sum, the length in the comparison) is a step of its own.
Therefore the limit `msg_amount` is proved for schedules whose permits are snapshots;
over all schedules, `d` threads too many are possible exactly when d (d - 1) / 2 is
below both sizes, which makes 104 for the 100 messages and 10 threads of the sources.
The file transfer adds to the pool the stream that all senders share, the socket and one
thread of the receiver: what comes through is stated for every pool size and every number
of failures.

**HTTP server** (`HttpIO`, `HttpTable`, `HttpCode`, `HttpRuns`). The read and write loops,
the table of clients against the open and watched descriptors, the event loop with its
batch of events, and the timeout sweep. The sweep's look at an entry and its closing it,
and the event loop's read and its append, are separate steps.

## Assumptions

- One `char` stands for one byte.
- `recv` in the message server returns the full 60 or 40 bytes (the code does not loop
  on short reads), `accept` succeeds with a descriptor that is positive and not open
  (data sockets are never closed), one `send` of 100 bytes is whole or fails as a whole.
  Descriptor 0, which the look-up gives for an unknown name, is not a socket: `send` on it fails.
  Operations on the registration table are atomic; the code does not lock it.
- `pthread_create`, `send`, `write` and the scheduler are free choices.
- The loop's `MSG_AMOUNT` and the controller's `msg_amount` are one number, as in the sources.
- The sum in the permit is taken in `size_t` and does not wrap; `msg_count` stays below 2^32. In file mode fewer than
  2^32 threads are started: a failed one ends the process.
- The counters that are changed without a lock (`file_thread_fail_count++`, my_sdr.cpp:69) are
  changed in one step; so is the shared file stream by each `peek` and each `read`.
- In the HTTP server `accept` and `epoll_ctl` succeed; `epoll_wait` reports descriptors that
  are watched at that moment, each once and only for what it is watched for. When their turn
  comes they may have been closed.

## Where the code falls short of its intent

- Ports are not padded: a frame has 100 bytes only for five-digit ports
  (`Messages.FrameLengthIff`, `Messages.RoundTripIff`).
- A registration binds the name to the connection accepted last
  (`NetRuns.RegisteredSocketIsOwn`, `NetRaces.RegistrationCanMissItsSocket`).
- A thread that starts after the next accept serves the wrong connection
  (`NetRuns.OwnIffPrompt`). Two threads can then share a socket, and frames that no peer
  sent go out to registered clients (`NetRaces.LateStartMixesFrames`,
  `NetRaces.SharedSocketForges`, `NetRaces.GenuineIff`, `NetForgery.NeverForgedIff`).
- The permit's reads are not a snapshot, so too many threads can be started
  (`SenderMessages.LimitHoldsIff`, `SenderMessages.ExcessIff`).
- A file sender that fails keeps its queue entry while its place is given away, so the
  queue exceeds `max_thread` (`SenderFile.QueueWithinLimitIff`).
- A sender started after a failed one, or a second live one, reads on from the shared
  stream: bytes get lost, swapped or added although the file counts as finished
  (`FileLosses.AlwaysAPrefixIff`, `FileLosses.AlwaysWholeIff`, `FileLosses.NeverLongerIff`).
- A file sender may count its failure before its creator counts its start
  (`SenderFile.FailureCanPrecedeItsStart`, `SenderFile.FailureAheadIff`); at the permit this
  is no longer visible.
- `readn` returns the truth value of a comparison (`HttpIO.Readn`), so the error branch of
  its caller is never taken and 8192 bytes are appended whatever was read.
- After a `write` of 0 bytes the HTTP response is sent again from its start
  (`HttpRuns.ResponseIsRepeated`, `HttpRuns.NeverRepeatsIff`).
- The sweep can close a client between the report of its event and its turn, or between a
  read and its append, and the event loop then uses a null entry
  (`HttpRuns.CrashIffRace`, `HttpRuns.SweepCanCrashTheServer`). It can also close a client
  that has just been active (`HttpRuns.ActiveClientIsClosed`).

## Model

| member | source | states |
|---|---|---|
| `Bytes.PadThenRead` | socket/netapi/msg.cpp:109-149 | for any field and width: padding and reading the width back gives the longest '#'-free prefix of what fits, hence the field exactly when it fits and has no '#' |
| `Bytes.PaddedShape` | socket/netapi/msg.cpp:109-149 | padding never cuts: the field is kept whole and followed by '#' up to the width |
| `Bytes.UpToHash` | socket/netapi/netapi.cpp:206-211 | what the reader collects is a prefix, free of '#', and stops only at a '#' or the end |
| `Bytes.ValueOfDecimal` | socket/netapi/msg.cpp:156-157 | the printed port denotes the port |
| `Bytes.DecimalLength` | socket/netapi/msg.cpp:156-157 | a number has at most k digits exactly when it is below 10^k |
| `Bytes.ChunksOfFlatten` | socket/netapi/netapi.cpp:306-311 | cutting a concatenation of 100-byte frames gives the frames back |
| `Messages.Msg.constructor` | socket/netapi/msg.cpp:92-107 | the defaults of a new message |
| `Messages.Msg.IpPadding` | socket/netapi/msg.cpp:109-121 | the loop pads to 15, longer text is untouched |
| `Messages.Msg.BodyPadding` | socket/netapi/msg.cpp:123-135 | the loop pads to 40, longer text is untouched |
| `Messages.Msg.NamePadding` | socket/netapi/msg.cpp:137-149 | the loop pads to 8, longer text is untouched |
| `Messages.Msg.Serialize` | socket/netapi/msg.cpp:151-160 | the nine fields in the order the reader's slices assume |
| `Messages.FrameLengthIff` | socket/netapi/msg.cpp:151-160 | fields within their widths fill exactly 100 bytes if and only if both ports have five digits, and never more |
| `Messages.FrameLength` | socket/netapi/msg.cpp:151-160 | the length of every frame, over-long fields included |
| `Messages.OverlongIff` | socket/netapi/msg.cpp:123-135 | with five-digit ports and a three-byte type a frame exceeds 100 bytes exactly when some field exceeds its width |
| `Messages.FrameLayout` | socket/netapi/msg.cpp:151-160 | which bytes of a well-formed message's frame are which field, and that the file flag is '1' or '0' |
| `Messages.ExampleFrame` | socket/netapi/msg.cpp:151-160 | one registration, byte by byte |
| `Messages.WellFormedRoundTrips` | socket/netapi/netapi.cpp:205-263 | every slice of a well-formed message's frame is the field it should be |
| `Messages.RoundTripIff` | socket/netapi/netapi.cpp:205-263 | for every message: the frame has 100 bytes and the reader gets all fields back exactly when the fields fit, hold no '#', the type has three bytes and both ports five digits |
| `Messages.StreamRoundTrip` | socket/netapi/netapi.cpp:346-359 | slicing the concatenated frames of any list of well-formed messages returns that list |
| `Messages.TextIsInjective` | socket/netapi/msg.cpp:151-160 | the decoded text determines the message, ports included |
| `Messages.UniquelyDecodable` | socket/netapi/msg.cpp:151-160 | two lists of well-formed messages with the same bytes are equal |
| `NetParser.ReadField` | socket/netapi/netapi.cpp:206-211 | the loop with `break` over a buffer slice collects the longest '#'-free prefix |
| `NetParser.ReadRaw` | socket/netapi/netapi.cpp:214-217 | the loop without `break` collects the whole slice |
| `NetParser.ParseHead` | socket/netapi/netapi.cpp:205-263 | the seven loops and the flag byte decode the 60-byte head |
| `NetParser.ParseBody` | socket/netapi/netapi.cpp:353-359 | the shown text is the decoded body |
| `NetParser.FillTransBuf` | socket/netapi/netapi.cpp:306-311 | the relay buffer is head followed by body, unchanged |
| `NetParser.FindSock` | socket/netapi/netapi.cpp:317-326 | the scan finds the registered socket, or leaves 0 |
| `NetCode.NetApi.constructor` | socket/netapi/netapi.cpp:134-143 | a new server has no connection, name or frame |
| `NetCode.NetApi.ServerHandleAccept` | socket/netapi/server.cpp:86-101 | is the accept step: the socket is queued and a handler exists, not yet started |
| `NetCode.NetApi.MsgHandleCalling` | socket/netapi/netapi.cpp:390-393 | is the start step: the handler's socket is the one at the back of the queue at that time |
| `NetCode.NetApi.Regist` | socket/netapi/netapi.cpp:465-467 | an existing name keeps its socket |
| `NetCode.NetApi.ReceiveHead` | socket/netapi/netapi.cpp:192-268 | is the head step: 60 bytes consumed, the table changed only by a "reg" head |
| `NetCode.NetApi.HandleMsgBody` | socket/netapi/netapi.cpp:278-282 | is the body step for the server's own name, and shows the decoded body |
| `NetCode.NetApi.RelayBody` | socket/netapi/netapi.cpp:283-336 | is the body step for any other name: the frame goes out or is lost |
| `NetCode.NetApi.HandleMsgHead` | socket/netapi/netapi.cpp:192-343 | whichever branch is taken, an undisturbed call consumes exactly 100 bytes and accounts for exactly that frame |
| `NetRuns.InvStep` | socket/netapi/netapi.cpp:192-343 | every step keeps: distinct sockets, cursors within what arrived, table values accepted earlier, every event a whole frame delivered or routed as its destination requires |
| `NetRuns.RunInv` | socket/netapi/netapi.cpp:192-399 | that invariant in every state of every run |
| `NetRuns.LaterExtends` | socket/netapi/netapi.cpp:465-467 | over all runs a name never changes socket and is never removed, and queue, log, received bytes and threads' sockets are only extended |
| `NetRuns.RegistrationOrigin` | socket/netapi/netapi.cpp:265-268 | each table entry stems from one "reg" head for that name, and has the socket accepted last when it was read |
| `NetRuns.RegisteredSocketIsOwn` | socket/netapi/netapi.cpp:265-268 | the entry is the connection the "reg" head came from exactly when nothing was accepted since that connection |
| `NetRuns.OwnIffPrompt` | socket/netapi/netapi.cpp:390-399 | all started threads serve the connections they were created for exactly when each started before the next accept |
| `NetRuns.LateStartIsWrong` | socket/netapi/netapi.cpp:390-399 | a thread that starts late serves the connection accepted last at that moment, not its own, for the rest of the run |
| `NetRuns.DistinctIffPrompt` | socket/netapi/netapi.cpp:390-399 | once all threads have started, their sockets are distinct exactly when each thread started before the next accept |
| `NetFraming.FramedStep` | socket/netapi/netapi.cpp:278-336 | every step that leaves the sockets of started threads distinct keeps: received bytes of a connection = frames its thread handled + the head it holds |
| `NetFraming.FramesHandledAreFramesRead` | socket/netapi/netapi.cpp:278-336 | in every run whose started threads read from distinct sockets, promptly or not: framing, conservation and order; the frames a thread delivered, relayed or lost are one for one the 100-byte frames of its connection, and the cursor is a multiple of 100 between messages |
| `NetFraming.HandledFramesAreGenuine` | socket/netapi/netapi.cpp:278-336 | in every run whose started threads read from distinct sockets, each handled frame is one that some peer sent |
| `NetFraming.RegisteredNameIsRouted` | socket/netapi/netapi.cpp:317-332 | in every run, after a name is registered every later frame for it goes to that socket |
| `NetFraming.HandledSince` | socket/netapi/netapi.cpp:390-399 | in every run whose started threads read from distinct sockets: what a thread handled after a point of the run is what it read after that point |
| `NetFraming.RelayIsFifo` | socket/netapi/netapi.cpp:278-332 | in every run whose started threads read from distinct sockets: first in, first out per source; the frames a thread tried to send to a registered name's socket are exactly those its connection carried for that name since, in order |
| `NetFraming.AttemptsReachTheWire` | socket/netapi/netapi.cpp:327-332 | with no failed `send` to a socket the attempts are what was put on it |
| `NetFraming.HandledMessages` | socket/netapi/netapi.cpp:278-336 | in every run whose started threads read from distinct sockets, with peers that send well-formed messages: a thread handles exactly the first ones its peer sent |
| `NetFraming.MessagesReachTheSocketInOrder` | socket/netapi/netapi.cpp:278-332 | in every run whose started threads read from distinct sockets, with such peers and no failed `send` to the socket since the name was registered: what a thread put on the socket under the name is, in order, the frames of exactly the messages for it that its peer sent since and that were read, and a subsequence of all that went out there |
| `NetFraming.WireIsWholeFrames` | socket/netapi/netapi.cpp:327-332 | in every run the bytes on a descriptor are whole frames, one per relay |
| `NetFraming.WireDecodesToSentMessages` | socket/netapi/netapi.cpp:283-332 | in every run whose started threads read from distinct sockets, with peers that send well-formed messages: decoding what a socket was sent gives messages some peer sent, byte for byte, each addressed to a name registered with that socket |
| `NetRaces.RegistrationCanMissItsSocket` | socket/netapi/netapi.cpp:265-268 | for every registration there is a run with prompt starts that binds its name to another connection |
| `NetRaces.LateStartMixesFrames` | socket/netapi/netapi.cpp:390-399 | for any two frames of one peer, the first for a registered name, there is a run with late starts in which the client registered on socket 4 is sent the head of the first with 40 bytes of the second |
| `NetRaces.SharedSocketForges` | socket/netapi/netapi.cpp:278-332 | from any reachable state with two threads on one socket, any frame that no peer has sent can be handled without any peer ever sending it, and goes out to its destination if that is registered |
| `NetRaces.GenuineIff` | socket/netapi/netapi.cpp:278-336 | from any reachable state in which some frame is unsent: all continuations without further thread starts handle only frames that a peer sent, exactly when no two started threads share a socket |
| `NetHistory.NothingArrivesOrGetsLost` | socket/netapi/server.cpp:86-101 | in every run the socket queue is the list of accepted connections, each with a thread, and a connection's stream is the bytes of its arrivals, in order |
| `NetHistory.RegisteredIff` | socket/netapi/netapi.cpp:265-268 | in every run the registered names are exactly the source names of the heads with "reg" in their last three bytes received so far |
| `NetHistory.FrameGoesOutIffSendSucceeds` | socket/netapi/netapi.cpp:327-332 | in every reachable state, for a thread with a head and 40 more bytes: the completed frame is shown if it is for the server; if its destination is registered, that socket's bytes grow by it exactly if `send` succeeds and it is lost exactly if `send` fails; no other socket is sent anything |
| `NetHistory.NothingForARegisteredNameIsLost` | socket/netapi/netapi.cpp:327-332 | while every `send` succeeds nothing is lost but frames for unknown names |
| `NetHistory.SuccessfulSendsReachTheSocket` | socket/netapi/netapi.cpp:278-332 | in every run whose started threads read from distinct sockets, with well-formed peers and every `send` successful since a name was registered: what a thread put on the name's socket under it is, in order, the frames of exactly the messages for it that its peer sent since and that were read |
| `NetHistory.AllThatArrivedCanBeHandled` | socket/netapi/netapi.cpp:192-343 | from every reachable state with distinct sockets a thread can by itself handle all whole frames that have arrived on its connection, with every `send` successful |
| `NetForgery.RunAligned` | socket/netapi/netapi.cpp:192-343 | in every run, sharing or not: the bytes received from a socket and the bodies still owed for heads held are whole frames |
| `NetForgery.WellFormedPeersForge` | socket/netapi/netapi.cpp:278-336 | from any reachable state with two threads on one socket, for any well-formed message nobody sends: peers that send other well-formed messages only can make the server handle its frame, and send it on if its destination is registered |
| `NetForgery.NeverForgedIff` | socket/netapi/netapi.cpp:278-336 | a well-formed message that no peer sends is never handled, in any continuation without further thread starts and with well-formed messages only, exactly when no two started threads share a socket |
| `NetClient.Client.constructor` | socket/netapi/client.cpp:58-65 | a client's stream begins with its registration |
| `NetClient.Client.Compose` | socket/netapi/netapi.cpp:442-457 | filling, padding and printing gives the frame of the caller's message |
| `NetClient.ClientFrameText` | socket/netapi/netapi.cpp:442-457 | what a reader finds in a fitting client's frame, in literals: its address and port, the server's, flag '0', its own name as source, the addressee as destination, type and text |
| `NetClient.Client.SendMsg` | socket/netapi/netapi.cpp:442-464 | the stream grows by exactly that frame; for fitting parts by 100 bytes that decode to them |
| `NetClient.Client.ClientSendMsgTo` | socket/netapi/client.cpp:108-112 | one "nor" message is added and the registration stays first |
| `NetClient.Client.ClientHeartbeat` | socket/netapi/client.cpp:66-78 | each round adds one "hrt" message to the server |
| `NetClient.Client.ClientDereg` | socket/netapi/client.cpp:101-107 | adds one "deg" message to the server |
| `NetClient.ClientMessageFits` | socket/netapi/client.cpp:94-112 | a client's message is well formed exactly when names, address and text fit and its port has five digits |
| `NetClient.FirstFrameRegisters` | socket/netapi/netapi.cpp:265-268 | a client's first frame enters its name, bound to the connection it came on exactly when the name was free and nobody was accepted since, or the name was already bound to that connection |
| `NetClient.RegistrationText` | socket/netapi/client.cpp:94-100 | what every client sends first, in literals |
| `NetClient.ClientRegistersItsName` | socket/netapi/client.cpp:58-65 | once a thread has received the first 60 bytes of a fitting client's stream the client's own name is in the table, bound to that connection exactly when it was free and nobody was accepted since, or was bound to it already |
| `ThreadingCtrl.FilePermitIsTheDifference` | api/threading_ctrl.cpp:81 | exactly when the unsigned test means starts minus failures below the limit |
| `ThreadingCtrl.ThreadCtrl.Init` | api/threading_ctrl.cpp:27-37 | the limits of both modes and zeroed counters |
| `ThreadingCtrl.ThreadCtrl.ThreadCreatingInfo` | api/threading_ctrl.cpp:39-58 | a created thread is queued, and in file mode counted modulo 2^32 |
| `ThreadingCtrl.ThreadCtrl.ThreadExitingInfo` | api/threading_ctrl.cpp:60-65 | the front entry leaves |
| `ThreadingCtrl.ThreadCtrl.ThreadCreatingPermit` | api/threading_ctrl.cpp:67-89 | the two nested tests decide the permit, with unsigned subtraction |
| `Pool.PopFindsAnEntry` | socket/sdr/my_sdr.cpp:97-99 | a worker at its pop finds the queue non-empty, even if it ran at once after creation |
| `Pool.CountsStep` | socket/sdr/my_sdr.cpp:147-155 | every step keeps: count = workers that reported, failures = failed workers, queue = created, informed and not yet popped |
| `Pool.LockStep` | socket/sdr/my_sdr.cpp:88-99 | every step keeps mutual exclusion of the critical sections |
| `Pool.QueueCountsLiveWorkers` | socket/rcvr/my_rcvr.cpp:164-171 | in every run and mode the queue's length is the number of created workers that have not left, although pop removes the front |
| `PoolCode.Process.constructor` | socket/rcvr/my_rcvr.cpp:155-160 | the initial state of the pool |
| `PoolCode.Process.BossTest` | socket/sdr/my_sdr.cpp:145 | is the test step of the main loop in each mode |
| `PoolCode.Process.FailSend` | socket/sdr/my_sdr.cpp:66-71 | is the failure step: counted without the lock, before the process ends |
| `PoolCode.Process.ReceiveByte` | socket/rcvr/my_rcvr.cpp:80-84 | is the receive step: one byte to the shared file |
| `PoolCode.Process.CreateSection` | socket/sdr/my_sdr.cpp:151-154 | the boss's critical section adds one worker and its queue entry, or nothing |
| `PoolCode.Process.PthreadCreate` | socket/sdr/my_sdr.cpp:152 | is the create step: the worker exists before it is queued |
| `PoolCode.Process.Inform` | socket/rcvr/my_rcvr.cpp:170 | is the inform step |
| `PoolCode.Process.Permit` | socket/sdr/my_sdr.cpp:147 | an undisturbed permit is the sequence of the boss's separate reads |
| `PoolCode.Process.ReportSection` | socket/sdr/my_sdr.cpp:88-92 | the first critical section counts the worker once |
| `PoolCode.Process.ExitSection` | socket/rcvr/my_rcvr.cpp:113-116 | the second one pops an existing entry |
| `SenderMessages.ExcessIsBounded` | socket/sdr/my_sdr.cpp:166-187 | in every schedule, a run with d > 0 threads more than `msg_amount` has d (d - 1) / 2 below both `msg_amount` and `max_thread`; hence never more than their sum |
| `SenderMessages.SnapshotsStartExactlyTheAmount` | socket/sdr/my_sdr.cpp:166-176 | with snapshot permits popped <= counted <= started <= `msg_amount` always, and all of the last three are equal when the loop ends |
| `SenderMessages.QuietIsReachable` | socket/sdr/my_sdr.cpp:166-176 | any number of messages up to the amount can be sent one after the other |
| `SenderMessages.ExcessIsReachable` | api/threading_ctrl.cpp:71 | the schedule: all messages under way but 1 + d (d - 1) / 2 counted, then between the reads of each of d further permits one worker more leaves than the time before |
| `SenderMessages.ExcessIff` | api/threading_ctrl.cpp:71 | some schedule starts exactly d > 0 threads too many if and only if d (d - 1) / 2 is below `msg_amount` and below `max_thread` |
| `SenderMessages.AtTheSourcesValues` | api/threading_ctrl.cpp:27-37 | at 100 messages and 10 threads: at most 104 threads, and some schedule starts 104 |
| `SenderMessages.LimitHoldsIff` | api/threading_ctrl.cpp:71 | the limit holds in all schedules exactly when there is nothing to send or no thread to send it |
| `SenderLiveness.WorkDrops` | socket/sdr/my_sdr.cpp:143-187 | in both modes every step but refused permits and failed creations lowers the remaining work |
| `SenderLiveness.OnlyFinitelyManyDecisiveSteps` | socket/sdr/my_sdr.cpp:143-187 | a run without failed creations has at most 12 (amount + pool) + 3 such steps in message mode and 12 (pool + failures) + 3 in file mode |
| `SenderLiveness.NeverStuck` | socket/sdr/my_sdr.cpp:143-187 | in every reachable state before the end, unless a file sender has failed, somebody can move, and with all workers gone and something missing the permit is granted |
| `SenderLiveness.EveryRunCanFinish` | socket/sdr/my_sdr.cpp:143-187 | from every reachable state, unless a file sender has failed, the loop can still end with the messages counted or the file finished |
| `SenderLiveness.TheLoopEnds` | socket/sdr/my_sdr.cpp:143-187 | both main loops end: in every endless schedule that is fair to the workers and in which no creation and no file sender fails, the messages get counted, or the file finished |
| `SenderFile.PermitIsTheDifference` | api/threading_ctrl.cpp:81 | at every permit failures do not exceed starts, nothing wraps, and the test is starts minus failures below the limit |
| `SenderFile.FileSendersBounded` | socket/sdr/my_sdr.cpp:145-155 | over all runs created minus failed file senders stay within the limit; with limit 1 and no failure there is only one |
| `SenderFile.FailureCanPrecedeItsStart` | socket/sdr/my_sdr.cpp:69 | inside the creating section the failure count can be ahead |
| `SenderFile.FailureAheadIff` | socket/sdr/my_sdr.cpp:69 | in every run: failures exceed starts exactly while the boss has created a thread and not yet counted it, and all threads including that one have failed |
| `SenderFile.FileQueueBounded` | api/threading_ctrl.cpp:81 | in every run the queue is at most `max_thread` plus failures minus the threads that have left |
| `SenderFile.QueueCanGrowByFailures` | socket/sdr/my_sdr.cpp:66-71 | with f failures a run has max_thread + f queue entries, so that bound is reached |
| `SenderFile.QueueWithinLimitIff` | socket/sdr/my_sdr.cpp:66-71 | the queue stays within `max_thread` in all schedules with f failures exactly when f is 0, or no thread may be started at all |
| `SenderFile.LiveWorkersBounded` | api/threading_ctrl.cpp:67-89 | in every run of every mode: never more than `max_thread` queued or live workers, but for failed file senders |
| `ReceiverFile.EveryByteIsWritten` | socket/rcvr/my_rcvr.cpp:80-84 | for every pool size, in every run: the file is its initial content and then the bytes of all receive steps in order, and each worker's share those of its own |
| `ReceiverFile.RunOneAtATime` | socket/rcvr/my_rcvr.cpp:75-84 | with a pool of one, in every run the file is the initial content and then what each worker received, one worker after the other |
| `ReceiverFile.TwoWorkersInterleave` | socket/rcvr/my_rcvr.cpp:80-84 | with two workers a run exists whose file is neither order of the streams |
| `ReceiverFile.NeverInterleavesIff` | api/threading_ctrl.cpp:33-34 | streams stay apart in all schedules exactly when the pool holds at most one worker |
| `ReceiverFile.AnyConnectionsAreServed` | socket/rcvr/my_rcvr.cpp:162-171 | with any pool above 0, any list of byte streams can be received one after the other; the file is the initial content and then these streams |
| `ReceiverFile.ServiceGoesOn` | socket/rcvr/my_rcvr.cpp:162-171 | in both modes of the receiver, with any pool above 0, from every reachable state a further worker can be started |
| `FileCopy.Transfer.SendingLoop` | socket/sdr/my_sdr.cpp:63-73 | the loop of one sender, undisturbed, from wherever the shared stream stands: it sends the rest of the file, or exactly the bytes before the failing one and counts its failure |
| `FileCopy.Transfer.ReceivingLoop` | socket/rcvr/my_rcvr.cpp:80-84 | the loop, made of receive steps, appends what is in the channel, in order, and sees the end |
| `FileCopy.RunConserved` | socket/sdr/my_sdr.cpp:58-83 | in every run, for any number of senders and failures: sent, in hand and lost bytes are the bytes read of the file plus a zero for each read at its end, and the receiver's file followed by the channel is what was sent |
| `FileCopy.CopyIsAPrefixAndCompleteIff` | socket/sdr/my_sdr.cpp:58-83 | with a limit of one, as the controller sets it for files, in every interleaving of all senders: sent is the file less one byte per failed sender, in order, and a prefix of it without failures; when the loop ends, the socket is closed or the receiver sees the end, the whole file is through exactly if no sender has failed |
| `FileLosses.FailuresLoseTheStart` | socket/sdr/my_sdr.cpp:66-71 | for every file and number of failures up to its length there is a run in which the loop ends, the file counts as finished, and that many bytes at its start are missing |
| `FileLosses.AnyFileComesThrough` | socket/sdr/my_sdr.cpp:58-83 | with any limit above 0, for every file some run ends with the receiver having seen the end and appended all of it |
| `FileLosses.TwoSendersSwap` | socket/sdr/my_sdr.cpp:63-66 | with two live senders and no failure, any two bytes can be sent the other way round and the loop ends |
| `FileLosses.TwoSendersAddAByte` | socket/sdr/my_sdr.cpp:63-66 | with two live senders a zero byte that the file does not have can be sent |
| `FileLosses.AlwaysAPrefixIff` | socket/sdr/my_sdr.cpp:58-83 | what is sent is a prefix of the file in all schedules with f failures exactly when no sender may be started, or one and f is 0 |
| `FileLosses.AlwaysWholeIff` | socket/sdr/my_sdr.cpp:145-163 | exactly then every loop that ends with f failures has sent the whole file |
| `FileLosses.NeverLongerIff` | socket/sdr/my_sdr.cpp:63-66 | no schedule sends more bytes than the file has exactly when the limit is at most one sender |
| `HttpIO.Readn` | httpserver/main.cpp:112-132 | exactly one `read` is made, for a buffer that is not empty; the result is 1 if it failed and 0 otherwise, never the count; what was read is at the front and the rest untouched |
| `HttpIO.Writen` | httpserver/main.cpp:93-110 | for any results of `write`: the length is returned exactly if all results are positive, and then everything is out; otherwise the last result is returned, it is not positive, all before it are, and a proper prefix is out |
| `HttpRuns.AgreesStep` | httpserver/main.cpp:286-342 | every step of event loop and sweep keeps table, open descriptors and epoll set in agreement |
| `HttpRuns.TableAgreesWithDescriptors` | httpserver/main.cpp:286-292 | in every reachable state, also within a pass of the sweep and between a read and its append: an entry is non-null exactly when its descriptor is open and watched, an accept hides no live client, and allocations minus deletions are the live entries |
| `HttpRuns.NoCrashWithoutARace` | httpserver/main.cpp:293-343 | in every run in which the sweep closes nothing whose event is reported or being handled, and the write branch closes nothing the sweep is about to close, no null entry is ever used |
| `HttpRuns.CrashIffRace` | httpserver/main.cpp:165-176 | while there has been no such race, a step can be followed by the use of a null entry (with no other race) exactly when it races itself |
| `HttpRuns.SweepCanCrashTheServer` | httpserver/main.cpp:160-180 | such a run exists |
| `HttpRuns.ActiveClientIsClosed` | httpserver/main.cpp:165-176 | in some run the sweep closes a client whose last active time was renewed after the sweep had looked at it |
| `HttpRuns.UntouchedIsStillIdle` | httpserver/main.cpp:165-176 | an entry that the event loop leaves alone between the look and the lock is as idle then as it was |
| `HttpRuns.PassIsSteps` | httpserver/main.cpp:160-180 | from any reachable state the undisturbed steps of the sweep, entry by entry, come to one pass over the table |
| `HttpRuns.LiveEntryIs` | httpserver/main.cpp:286-342 | in every run a live entry was made by the latest accept of its descriptor, which has not ended since; its time is that of the latest accept, append or write for it, its buffer all that was appended since, its writes all that was put out since |
| `HttpRuns.LiveIffOpen` | httpserver/main.cpp:286-342 | in every run a descriptor has a live entry exactly if some accept of it was followed by no completed or failed response and no expiry |
| `HttpRuns.ExpiredIff` | httpserver/main.cpp:165-168 | in every run a live entry is expired at a time exactly if the latest accept, append or write for it is 30 seconds or more before |
| `HttpRuns.OneWrite` | httpserver/main.cpp:323-343 | a client that waits for its response can be written to with any outcome of the write loop |
| `HttpRuns.ClosedConnectionsGotResponses` | httpserver/main.cpp:332-341 | in every run a connection closed by the write branch was sent some proper prefixes of the response, each from the start, and a last attempt, whole exactly on the equal-length test |
| `HttpRuns.ClosedConnectionsGotOneResponse` | httpserver/main.cpp:332-341 | with no write of 0 bytes it was sent a prefix of one response, all of it exactly on the equal-length test |
| `HttpRuns.ResponseIsRepeated` | httpserver/main.cpp:102-103 | for every response of two bytes or more a run sends its first byte and then all of it |
| `HttpRuns.NeverRepeatsIff` | httpserver/main.cpp:332-341 | no run sends a closed connection more than one response, exactly when the response has at most one byte |
| `HttpTable.SweepClearsExactlyTheIdle` | httpserver/main.cpp:160-180 | a pass leaves open exactly the live entries idle for less than 30 seconds, and is idempotent |
| `HttpCode.HttpServer.HandleAccept` | httpserver/main.cpp:286-292 | a new client object under its descriptor, nothing else touched |
| `HttpCode.HttpServer.HandleReadable` | httpserver/main.cpp:296-319 | a whole zero-filled buffer is appended, the descriptor is then watched for output and its last active time set; the error branch is not reached |
| `HttpCode.HttpServer.HandleWritable` | httpserver/main.cpp:323-343 | one response is written; the client is removed on completion or error and kept otherwise |
| `HttpCode.HttpServer.Remove` | httpserver/main.cpp:172-176 | unwatch, close, delete and clear, for an object that is allocated |
| `HttpCode.HttpServer.CheckTimeOut` | httpserver/main.cpp:160-180 | the loop over the table, of any size, is one sweep: entry by entry, null exactly if it was null or idle for 30 seconds or more, else the same object |

## Left out

- Short `recv` results, end of stream inside a message and errors of `recv` in the message server.
- A failed `accept` in the message server, whose -1 is queued like a socket.
- Data races on the registration table and the socket queue below the level of one operation.
- `regist_table`, `server_close`, `server_routinechek`, `client_close`, `recvmsg`, `sendfile`, `recvfile`: no behaviour in the sources.
- What the server does with "deg", "hrt" and file messages: nothing beyond local delivery.
- Closing the shared `localsock` in each message-mode sender thread: admission and counting only.
- The endless outer loops of `main`, of the heartbeat and of the sweep thread are runs of the step systems; their bodies are methods.
- `filectrl`'s progress and speed arithmetic, console output, sleeps and timing.
- A receiver whose `recv` fails during a file transfer: its process exits.
- The content of a request: nothing in the server looks at it.
- The `continue` paths of the HTTP server that keep the mutex locked; what the sweep's two unlocked reads of one entry (null, time) can see in between.
- The text of the HTTP response is a parameter.
- The language demonstrations, `cs/` and `socket/talk/`.
