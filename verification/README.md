# rPerf3, verified

A Dafny model of rPerf3, a throughput tool that speaks the iPerf3 protocol, with proofs of what its
parts promise each other: the sender, the wire, the receivers, and the exchange of results.

- **Control protocol** (`ControlProtocol`, `ControlLiveness`, `ClientLoop`, `ServerLoops`, `ResultsExchange`). A
  forward TCP test is a state machine: the server's session function, the client's polling loop, one
  client thread and one server reader per stream, and the queues between them. Any process may take
  the next step. One inductive invariant gives the safety results for every interleaving. A measure
  and a readiness argument give termination under every fair schedule. The loops of the source that
  change state in place are methods that refine the steps of the machine; the client's whole loop is one.
- **Concurrent accept loop** (`AcceptLoop`). Cookie registry, capacity, per-address counter and
  session threads that finish in any order, or panic. Each lock-protected region is one step.
- **UDP data path** (`UdpHeaders`, `UdpSender`, `UdpLoss`, `Jitter`, `UdpSession`, `UdpEndToEnd`). A
  paced sender, a network that drops, repeats and reorders, and a demultiplexing receiver that counts
  loss and reordering and stops after a grace period. Jitter is the estimator of appendix A.8 of
  RFC 1889.
- **Measurement** (`Receipts`, `Interval`, `Pacing`, `Streams`). Receipts and the omit window, interval
  rows, the token bucket, and the TCP loops.
- **Codecs and the replay cache** (`BigEndian`, `Wire`, `AuthToken`, `NonceCache`). Framing over sockets with short reads and writes,
  the auth payload, and a cache that forgets.

`Common` holds arithmetic and sequences shared by all of them. Time is a natural number of
nanoseconds and never runs backwards. `f64` is `real`. An endless loop is driven by a script of what
each iteration observes; a script is any finite prefix of a run, so a result for every script holds at
every moment of every run. A socket moves any number of bytes per call, and may fail unless it is
`reliable`.

The code does not keep four things one would expect of it. In each case the model follows the code,
and the exact condition is proved.

- A copy of a UDP sender's cookie that arrives after registration is taken for a data packet with an
  enormous sequence number. The largest number stays within the packets sent exactly when no copy arrives
  or the cookie's number is that small, which takes more than 0x3030303030303030 packets. The bytes are
  packets times length exactly when no copy arrives or the length is the cookie's (`EndToEnd`,
  `BytesMatchExactly`, `RepeatedCookie`).
- Registry entries from an address can exceed its session count, after a panic; the entry stays for good
  (`EntriesAgainstCount`, `PanicLeaksEntry`, `PanicsStay`).
- The client writes its results on a non-blocking socket, so it can give up, and then the exchange is never
  completed. Every fair schedule completes it exactly when the client's frame fits the server-bound buffer;
  some schedule does exactly when one of the two frames fits (`FairCompletesIff`, `CompletableIff`).
- A frame of more than 16 MiB can be sent and is refused by the receiver (`ItemRoundTrip`).

## Model

| member | source | states |
|---|---|---|
| `ControlProtocol.ServerKeeps` | src/server.rs:743-808 | Every step of the server's session keeps the invariant over both transcripts, the streams, the queues and the results. |
| `ControlProtocol.ClientKeeps` | src/client.rs:39-83 | So does every step of the client's loop. |
| `ControlProtocol.HandleKeeps` | src/client.rs:85-147 | So does handling a control message: streams are created with nothing ended, and results are built only when every thread has reported. |
| `ControlProtocol.AllReported` | src/client.rs:55-77 | Once the server has sent ExchangeResults, the single TestEnd has gone out and every thread is past its report and its end signal. |
| `ControlProtocol.ThreadKeeps` | src/common/stream.rs:520-531 | So does every step of a stream thread, which reports its receipt before it signals its end. |
| `ControlProtocol.ReaderKeeps` | src/server.rs:1368-1434 | So does every read on the server's side of a data connection. |
| `ControlProtocol.FinalCounts` | src/server.rs:1166-1175 | After the join the server's per-stream results are the full counts of the streams, in the order it accepted them. |
| `ControlProtocol.AlwaysInv` | src/server.rs:743-808 | The invariant holds after any number of steps of any interleaving. |
| `ControlProtocol.ConversationFollowsScript` | src/server.rs:743-808 | Neither side ever reads a message of the wrong kind, and both transcripts are always prefixes of the scripted conversation. |
| `ControlProtocol.ClientResultsComplete` | src/client.rs:149-162 | Whenever the client has built its results, they hold exactly one receipt for each stream id from 1 to n, with that stream's full count. |
| `ControlProtocol.CompleteTotals` | src/client.rs:149-162 | A complete list has n entries and adds up to everything sent, whatever the order of the reports. |
| `ControlProtocol.ResultsAgree` | src/server.rs:1219-1239 | When the server is done, the two exchanged results agree stream by stream, and both add up to everything sent. |
| `ControlLiveness.StepMoves` | src/client.rs:46-83 | Every step decreases the measure or is an idle poll, and only the client polls idly. |
| `ControlLiveness.StreamCanMove` | src/server.rs:872-876 | A stream that has not been read to its end can move: its thread, or its reader when the connection is full. |
| `ControlLiveness.SomeoneCanMove` | src/server.rs:743-808 | No reachable state is stuck before both sides are done. |
| `ControlLiveness.EventualProgress` | src/client.rs:46-83 | Under a fair schedule a process that can move leads to progress, even if it is the client and must poll first. |
| `ControlLiveness.FairRunsFinish` | src/server.rs:743-808 | Under every fair schedule the test finishes on both sides, with every stream read to its end and results that agree. |
| `ControlLiveness.RoundRobinIsFair` | src/client.rs:46-83 | Fair schedules exist: turns in rotation are one. |
| `ServerLoops.WaitForTestEnd` | src/server.rs:1157-1164 | Returns having read up to the first TestEnd and no further; on a reliable socket it fails only if there is none to reach. |
| `ServerLoops.FinalizeTest` | src/server.rs:1130-1138 | Sends DisplayResults and returns at the first IperfDone or ClientTerminate, with the same two directions. |
| `ServerLoops.ProtocolWaitsAlike` | src/server.rs:1130-1164 | The server of the protocol waits as these two loops do: it reads any message, and goes on if and only if it is a wanted one. |
| `ClientLoop.NextMessage` | src/client.rs:149-162 | In every run the client's next message is on script, and what it is about to send as results covers every stream once, in full. |
| `ClientLoop.DeniedClientLeaves` | src/client.rs:121-124 | A client whose next message is AccessDenied sends nothing more and ends its loop. |
| `ClientLoop.OtherMessages` | src/client.rs:85-147 | Any message that needs no answer changes nothing, and ends the loop if and only if it is IperfDone or AccessDenied. |
| `ClientLoop.Client.constructor` | src/common/test.rs:223-243 | A new client is the client of the protocol's initial state. |
| `ClientLoop.Client.DrainReceipts` | src/common/test.rs:247-251 | Moves every waiting receipt to the list, in order. |
| `ClientLoop.Client.Drain` | src/client.rs:51-53 | Refines the model's drain step. |
| `ClientLoop.Client.TryRecv` | src/client.rs:55-77 | Refines the step that counts finished streams and sends one TestEnd with the last. |
| `ClientLoop.Client.SendOptions` | src/client.rs:89-91 | Refines the answer to ParamExchange. |
| `ClientLoop.Client.CreateStreams` | src/client.rs:93-95 | Refines the answer to CreateStreams. |
| `ClientLoop.Client.SendResults` | src/client.rs:149-210 | Refines the answer to ExchangeResults: the results sent are all the receipts reported so far. |
| `ClientLoop.Client.SendIperfDone` | src/client.rs:112-115 | Refines the answer to DisplayResults. |
| `ClientLoop.Client.HandleMessage` | src/client.rs:85-147 | Refines the model's reaction to each control message, and says whether the loop must end or the results must be read. |
| `ClientLoop.Client.Recv` | src/client.rs:26-37 | Refines one non-blocking look at the control channel. |
| `ClientLoop.Client.ReadServerResults` | src/client.rs:212-217 | Refines the blocking read of the server's results, and returns exactly those. |
| `ClientLoop.ReadTurn` | src/client.rs:212-217 | Lets the other processes run up to the client's next turn, which takes the results if they have arrived and otherwise changes nothing. |
| `ClientLoop.AwaitResults` | src/client.rs:212-217 | The blocking read ends, with the server's results read. |
| `ClientLoop.Loop` | src/client.rs:46-83 | The loop, each turn refining a step while the other processes run, ends with the client done. |
| `ClientLoop.RunClient` | src/client.rs:39-83 | Under every fair schedule the client's loop ends, holding one receipt for every stream, each in full. |
| `ResultsExchange.NoDeadlock` | src/client.rs:207-217 | For all frame and buffer sizes, in every reachable state before the frames are exchanged one side can move, unless the client has given up. |
| `ResultsExchange.GivingUpIsFinal` | src/client.rs:207-210 | Once the client has given up, part of its frame stays unsent and the exchange is never completed, whatever follows. |
| `ResultsExchange.GivesUpIff` | src/client.rs:207-210 | Some run makes the client give up if and only if its frame is larger than the server-bound buffer. |
| `ResultsExchange.CanFinish` | src/server.rs:1219-1239 | If the client's frame fits, the exchange can be completed from every state. |
| `ResultsExchange.CompletableIff` | src/server.rs:1219-1239 | Some run completes the exchange if and only if one of the two frames fits its buffer. |
| `ResultsExchange.FairCompletesIff` | src/client.rs:207-217 | Every schedule fair to both sides completes it if and only if the client's frame fits the server-bound buffer. |
| `ResultsExchange.BoundedWork` | src/server.rs:1219-1239 | No run has more than a bounded number of turns that do anything. |
| `AcceptLoop.PerIpCounter.TryAcquire` | src/server.rs:84-95 | The counter's new state and answer, at and below the limit. |
| `AcceptLoop.PerIpCounter.DropHandle` | src/server.rs:103-114 | The counter's new state, without empty entries. |
| `AcceptLoop.InvStep` | src/server.rs:444-497 | Every step of the accept loop and of the session threads, panics included, keeps the registry, counter and channel invariants. |
| `AcceptLoop.ReachableInv` | src/server.rs:444-497 | In every reachable state the registry is within capacity and one to one with the sessions that hold an entry, the counter is the number of live handles and within 1 to 4, and each session saw its own streams. |
| `AcceptLoop.AdmittedIff` | src/server.rs:467-486 | A connection with a new cookie opens exactly one session if and only if fewer than the allowed sessions are registered and its address has fewer than 4 live handles; otherwise neither registry nor sessions change. |
| `AcceptLoop.UnregisterOwnEntry` | src/server.rs:494-494 | A finishing thread removes its own entry and no other. |
| `AcceptLoop.EntriesAgainstCount` | src/server.rs:472-495 | An address's entries against its count, exactly; the entries stay within the count if and only if no more sessions panicked than are between the two cleanups. |
| `AcceptLoop.PanicLeaksEntry` | src/server.rs:489-495 | A run after which an address has an entry and no live handle. |
| `AcceptLoop.PanicsStay` | src/server.rs:489-495 | A panicked session and its registry entry survive every later run. |
| `AcceptLoop.PanicsFillTheServer` | src/server.rs:467-471 | Once as many sessions have panicked as may run at a time, no session is ever opened again. |
| `AcceptLoop.SessionsAreIsolated` | src/server.rs:458-466 | Every stream given to a session carries its cookie, the first n it takes are the first n that arrived with that cookie after its own connection, and a session that has returned or panicked is given none. |
| `AcceptLoop.Listener.OnConnection` | src/server.rs:444-497 | One turn of the accept loop refines the arrival step, and sends AccessDenied if and only if the cookie is new and the registry is full or the address already has 4 live handles. |
| `AcceptLoop.Listener.OnReturn` | src/server.rs:493-493 | Refines a session function's return, which drops its receiver. |
| `AcceptLoop.Listener.OnUnregister` | src/server.rs:494-494 | Refines the registry cleanup. |
| `AcceptLoop.Listener.OnRelease` | src/server.rs:103-114 | Refines the release of the per-address handle. |
| `AcceptLoop.Listener.OnTake` | src/common/session.rs:48-64 | Refines a receive on a session's channel: the oldest stream is taken. |
| `AcceptLoop.Listener.OnPanic` | src/server.rs:489-495 | Refines a panic: the receiver and the handle are dropped, the registry entry stays. |
| `AcceptLoop.Listener.Receive` | src/common/session.rs:48-64 | While the other threads do anything they can, a receive takes the next stream, or times out with an empty channel. |
| `AcceptLoop.Listener.AcceptStreamsFromChannel` | src/common/session.rs:42-66 | Returns the next n streams the session takes, which are the next n that arrived with its cookie, or fails at the first timeout. |
| `UdpHeaders.EncodeHeader` | src/common/udp_header.rs:20-31 | Writes the header's bytes in place and nothing else, or fails on a short buffer and leaves it alone. |
| `UdpHeaders.HeaderRoundTrip` | src/common/udp_header.rs:20-44 | Decoding an encoded header with anything after it gives the header back, negative numbers included. |
| `UdpHeaders.HeaderLayout` | src/common/udp_header.rs:20-31 | Which byte of the seconds, the microseconds or the number in two's complement each of the 16 bytes is. |
| `UdpHeaders.DecodedHeaderIsEncoded` | src/common/udp_header.rs:33-44 | Whatever decodes is in range and is the encoding of what it decodes to. |
| `UdpSender.Iterate` | src/common/stream.rs:258-311 | One iteration takes the specified step: limits, wait, header, send, accounting. |
| `UdpSender.SendLoop` | src/common/stream.rs:251-311 | The send loop computes the specified run: receipt, packets, exit, and the datagrams in order. What such a run is, without naming its steps, is `UdpRunsUntil`. |
| `UdpSender.UdpRunsUntil` | src/common/stream.rs:258-311 | The run sends exactly what its iterations let through before the first that must end it; that one leaves because the time is up, a limit is reached or the send fails, checked in that order, and none before it had cause to. |
| `UdpSender.StartUdp` | src/common/stream.rs:215-327 | Everything handed to the network, in order: nothing if the cookie cannot be sent, only the cookie if the length is too small, else the cookie, the run's datagrams and the sentinel. |
| `UdpSender.Sentinel` | src/common/stream.rs:313-325 | The closing datagram is a bare header with number -1. |
| `UdpSender.PacketsAreNumbered` | src/common/stream.rs:256-295 | The datagrams of a run are full packets with the numbers 0, 1, 2, ... and filler, as recorded. |
| `UdpSender.PacketStamp` | src/common/stream.rs:274-284 | Packet i decodes to the number i and to the microseconds and the seconds modulo 2^32 of the iteration that sent it. |
| `UdpSender.UdpWithinLimits` | src/common/stream.rs:258-304 | The byte total never reaches the byte limit plus one packet and never counts more than the block limit, and an exit by a limit means it was reached. |
| `UdpSender.BlocksArePackets` | src/common/stream.rs:258-304 | With whole packets, at most the block limit is sent, and leaving by it means exactly that many. |
| `UdpSender.NeverSleepsTwice` | src/common/stream.rs:269-273 | After a sleep the loop sends or leaves. |
| `UdpSender.PacingBound` | src/common/stream.rs:254-311 | At every instant 8,000,000,000 times the bytes counted, and the bytes sent while they fit a u64, exceeds the rate in bits per second times the nanoseconds since the start by at most one packet's worth. |
| `UdpLoss.GapIsExact` | src/common/udp_session.rs:174-176 | The wrapping gap is the true gap for every i64; the first subtraction overflows in exactly one case. |
| `UdpLoss.CounterIdentity` | src/common/udp_session.rs:171-179 | Packets less out-of-order plus lost is the largest number plus one, for any arrivals; the saturating addition never saturates. |
| `UdpLoss.InOrderPacketsAreDistinct` | src/common/udp_session.rs:171-179 | The largest number is one that arrived, and the packets counted in order all differ. |
| `UdpLoss.TrueLoss` | src/common/udp_session.rs:171-179 | The numbers truly missing are exactly lost less out-of-order plus repeats, hence never more than lost. |
| `UdpLoss.CleanIffInOrder` | src/common/udp_session.rs:171-179 | Nothing is counted lost or out of order if and only if the numbers arrived as 0, 1, 2, ... |
| `UdpSession.RegisteredExactly` | src/common/udp_session.rs:59-74 | Registration lists exactly the sources of valid inits, once each, by first arrival. |
| `UdpEndToEnd.FirstDatagramRegisters` | src/common/udp_session.rs:59-74 | The first datagram of a sender of this session registers it, and so do the bytes 9876. |
| `UdpEndToEnd.RegistrationNeedsInit` | src/common/udp_session.rs:62-66 | Whoever is registered sent the session's cookie or those four bytes. |
| `UdpSession.AcceptUdpStreams` | src/common/udp_session.rs:51-76 | Returns and acknowledges the first n of them, or fails if a receive error comes first. |
| `UdpSession.Iterate` | src/common/udp_session.rs:118-203 | One iteration routes the datagram to its source's state, sets the deadline once, and leaves exactly when the specification does. |
| `UdpSession.ReceiveLoop` | src/common/udp_session.rs:110-204 | The loop ends, at the first iteration that must leave and for that reason, with each state the fold of its own source's datagrams. |
| `UdpSession.RunUdpReceiver` | src/common/udp_session.rs:96-215 | The i-th result is the single-stream fold over the datagrams from the i-th source. |
| `UdpSession.TakeReceipts` | src/common/udp_session.rs:206-214 | States leave the map in registration order, and a repeated address gets an empty receipt. |
| `UdpEndToEnd.FoldDescribes` | src/common/udp_session.rs:156-191 | The running state is the closed form over the data packets that arrived. |
| `UdpEndToEnd.ClockOffsetInvisible` | src/common/udp_session.rs:181-191 | Shifting every data packet's stamp by a constant changes nothing in the report, whatever else arrives. |
| `UdpEndToEnd.ReportedJitter` | src/common/udp_session.rs:181-191 | The jitter is the 1/16 smoothing of the differences between the spacing of consecutive data packets at arrival and at sending, in milliseconds, from their arrival times and stamps alone. |
| `UdpEndToEnd.StreamJitter` | src/common/udp_session.rs:181-191 | In the demultiplexed result this holds for each stream's own packets. |
| `UdpEndToEnd.SteadyStreamHasNoJitter` | src/common/udp_session.rs:181-191 | Packets that arrive spaced as they were sent report zero jitter. |
| `UdpEndToEnd.JitterOfTwo` | src/common/udp_session.rs:181-191 | Two packets report a sixteenth of the size of the difference of their spacings. |
| `UdpEndToEnd.StartUdpWire` | src/common/stream.rs:242-325 | What a client's UDP stream hands to the network is its cookie, k numbered packets and a sentinel, and it records k times the length. |
| `UdpEndToEnd.CookieIsData` | src/common/udp_session.rs:138-154 | Every cookie passes for a data packet, with a number of at least 0x3030303030303030. |
| `UdpEndToEnd.EndToEnd` | src/common/udp_session.rs:156-179 | Over a network that drops, repeats and reorders all that was sent: the identity and the true loss hold always; the largest number is below k if and only if no copy of the cookie arrives or the cookie's number is below k; the bytes are exact; without copies the missing numbers are the packets that did not arrive. |
| `UdpEndToEnd.BytesMatchExactly` | src/common/udp_session.rs:156-160 | The bytes are packets times length if and only if no copy of the cookie was counted, or it has that length. |
| `UdpEndToEnd.RepeatedCookie` | src/common/udp_session.rs:138-179 | One copy of the cookie after registration is reported as one packet with as many lost as the cookie's number. |
| `UdpEndToEnd.RepeatedCookieExample` | src/common/udp_session.rs:138-179 | With a cookie of 36 letters a, 0x6161616161616161 packets are reported lost. |
| `UdpEndToEnd.CleanIffFirstPackets` | src/common/udp_session.rs:171-179 | A report is clean if and only if every data arrival is in its place; without copies of the cookie, if and only if they are the first packets in order; a copy among fewer than 0x3030303030303030 arrivals spoils it. |
| `UdpEndToEnd.LosslessDelivery` | src/common/udp_session.rs:156-191 | Loss-free delivery in order gives a clean report with the sender's totals. |
| `UdpEndToEnd.RegisteredStreamsKeepTheirReceipts` | src/common/udp_session.rs:206-214 | For registered streams no receipt is lost or replaced by an empty one. |
| `UdpEndToEnd.ReportIsAboutItsSender` | src/common/udp_session.rs:104-215 | In the demultiplexed result, each stream's report has the end-to-end properties against its own sender, whatever the others do. |
| `UdpEndToEnd.StopDiscipline` | src/common/udp_session.rs:110-137 | Before a stop request only a socket error ends the loop; afterwards no iteration passes the check 500 ms or more later. |
| `UdpEndToEnd.LeavesBySentinelsIff` | src/common/udp_session.rs:118-134 | The loop leaves by sentinels if and only if a stop was requested and every registered source has sent a negative number. |
| `UdpEndToEnd.LeavesOtherwiseIff` | src/common/udp_session.rs:118-203 | Otherwise it leaves if and only if 500 ms have passed since the stop was first seen, or the receive failed, or it timed out after a stop. |
| `Jitter.JitterBounded` | src/common/jitter.rs:9-11 | The estimate stays between zero and the largest difference so far. |
| `Jitter.JitterIgnoresClockOffset` | src/common/udp_session.rs:181-191 | A constant clock offset does not change it. |
| `Jitter.JitterConvergesFrom` | src/common/jitter.rs:9-11 | From any packet on, if every difference has the same size, whatever its sign, the gap to it shrinks by exactly 15/16 per packet and keeps its sign. |
| `Jitter.JitterDistance` | src/common/jitter.rs:9-11 | The same for the size of the gap. |
| `Jitter.JitterConverges` | src/common/udp_session.rs:181-191 | The same for a whole run, which starts from zero. |
| `Receipts.OmitWindow` | src/server.rs:1378-1392 | The omitted bytes are exactly the prefix of deliveries earlier than the omit time after the first, and the whole receipt is fixed by that cut. |
| `Receipts.ReceiptOrdered` | src/server.rs:1378-1392 | First, first measured and last are ordered, and something is measured if and only if the measured bytes are positive. |
| `Receipts.MeasuredBytes` | src/common/test.rs:59-62 | The measured bytes are the total of the deliveries from the omit cut on. |
| `Receipts.DurationSpansAllDeliveries` | src/server.rs:1181-1188 | The duration runs from the earliest to the latest delivery of any stream, on the server and on the client. |
| `Receipts.NothingDelivered` | src/server.rs:1181-1188 | Without deliveries the duration is zero, and the client has none. |
| `Receipts.SteadyStateExcludesOmit` | src/server.rs:1193-1200 | If anything was measured, the duration is at least the steady state plus the omit time; otherwise the steady state is zero. |
| `Receipts.SteadyStateSpans` | src/server.rs:1193-1200 | The steady state runs exactly from the earliest delivery of any stream past that stream's omit window to the latest delivery of any stream. |
| `Receipts.NoSteadyState` | src/server.rs:1193-1200 | It is zero if no delivery is past its window. |
| `Interval.IntervalReporter.OnBytes` | src/common/interval.rs:68-94 | Refines the specified step of the reporter. |
| `Interval.IntervalReporter.Flush` | src/common/interval.rs:99-115 | Refines the specified flush. |
| `Interval.RowsCharacterised` | src/common/interval.rs:68-94 | Row k is labelled with the k-th interval and holds the deliveries since the previous row, all at or after its start and all but the closing one before its end. |
| `Interval.PrintedCharacterised` | src/common/interval.rs:68-115 | A flushing loop prints those rows and then, if any bytes are left, one row from the end of the last to the last delivery, with exactly those bytes. |
| `Interval.FlushAt` | src/common/interval.rs:99-115 | At any time a flush returns the bytes since the last row, labelled from the end of that row, or nothing, if nothing was delivered or that row is empty and has not begun. |
| `Interval.RowCutsUnique` | src/common/interval.rs:68-94 | No other way to cut the deliveries into rows meets that description. |
| `Interval.RowsConserveBytes` | src/common/interval.rs:68-115 | With the final flush, the printed rows hold every byte exactly once. |
| `Pacing.TokenBucket.Record` | src/common/pacing.rs:22-24 | Counts the bytes sent, saturating. |
| `Pacing.NoWaitIff` | src/common/pacing.rs:26-38 | In whole numbers: there is no wait if and only if the rate is zero or 8,000,000,000 times the bytes sent is at most the rate times the elapsed nanoseconds. |
| `Pacing.WaitIsLeastDelay` | src/common/pacing.rs:26-38 | A delay clears the wait if and only if it is at least the wait. |
| `Streams.RecvStreamBytes` | src/server.rs:1368-1434 | The receive loop accounts for exactly the reads up to the end of stream or the first error, and prints their rows. |
| `Streams.ReceivedUntilEnd` | src/server.rs:1375-1416 | Those reads are every read with bytes before the first empty read or error; an interrupted read ends nothing. |
| `Streams.StartTcp` | src/common/stream.rs:132-201 | The send loop computes the specified run: receipt, one-second rows and exit. What such a run is, without naming its steps, is `TcpRunsUntil`. |
| `Streams.TcpRunsUntil` | src/common/stream.rs:132-183 | The run is exactly the non-empty sends before the first iteration that must end it; that one leaves because the time is up, a limit is reached or the send fails, checked in that order, and none before it had cause to. |
| `Streams.TcpLimits` | src/common/stream.rs:132-183 | Byte and block limits, for any pattern of partial writes. |
| `Streams.ReceivedIsOrdered` | src/server.rs:1378-1392 | The receive loop's receipt is in order, and something is measured if and only if its measured bytes are positive. |
| `Streams.RowsMatchReceipt` | src/server.rs:1375-1433 | The printed rows add up to the receipt's byte total. |
| `Wire.WriteAll` | src/common/wire.rs:210-223 | Writes everything, or fails after a proper prefix. |
| `Wire.ReadExact` | src/common/wire.rs:227-241 | Fills the buffer from the stream and leaves the rest, or fails; on a reliable socket it fails only if the stream is too short. |
| `Wire.MessageByteRoundTrip` | src/common/mod.rs:30-56 | A byte names a message if and only if it is that message's byte, negative codes included. |
| `Wire.MessageOfByte` | src/common/mod.rs:30-56 | The message of each of the 256 bytes: 1 to 17, 254 and 255, and no other. |
| `Wire.SendControlByte` | src/common/wire.rs:144-147 | Writes the message's encoding. |
| `Wire.RecvControlByte` | src/common/wire.rs:152-161 | Reads as the decoder does, in success and failure. |
| `Wire.SendU16` | src/common/wire.rs:165-167 | Writes the port's encoding. |
| `Wire.RecvU16` | src/common/wire.rs:170-174 | Reads as the decoder does. |
| `Wire.SendFrame` | src/common/wire.rs:178-186 | Writes length and body, or refuses a body of 4 GiB or more and writes nothing. |
| `Wire.RecvFrame` | src/common/wire.rs:190-205 | Reads as the decoder does, refusing lengths above 16 MiB. |
| `Wire.GenerateCookie` | src/common/cookie.rs:13-21 | A cookie is 36 alphanumeric samples and a NUL. |
| `Wire.RecvCookie` | src/common/cookie.rs:27-42 | Reads exactly one cookie; on a reliable socket it fails only if the peer closed too early. |
| `Wire.ItemRoundTrip` | src/common/wire.rs:144-205 | An item followed by anything decodes to itself and leaves the rest, if and only if it is within the receiver's limits. |
| `Wire.DecodedWasEncoded` | src/common/wire.rs:152-205 | Whatever decodes is receivable, and the bytes consumed are its encoding. |
| `Wire.AcceptsIff` | src/common/wire.rs:152-205 | A reader accepts a stream if and only if it starts with an item of the wanted kind, with at most 16 MiB of body. |
| `Wire.RefusedBecause` | src/common/wire.rs:152-205 | Why it refuses, and what it has read by then: an unknown byte, a length above 16 MiB, or else the end of the stream. |
| `BigEndian.ByteOrder` | src/common/wire.rs:165-186 | Byte i of k is the digit of weight 256 to the power k - 1 - i: most significant first. |
| `Wire.ConversationRoundTrip` | src/common/wire.rs:144-205 | A whole list of items decodes to the same list, and leaves what follows. |
| `Wire.SendAll` | src/common/wire.rs:144-186 | Sending a list writes its encoding, under any short writes. |
| `Wire.RecvAll` | src/common/wire.rs:152-205 | Receiving a list decodes it, under any short reads. |
| `Wire.Converse` | src/common/wire.rs:144-241 | A list sent on one reliable socket and received on another arrives unchanged, with the rest of the stream untouched. |
| `AuthToken.PayloadRoundTrip` | src/common/auth.rs:143-167 | The client builds a token if and only if both fields are non-empty and without control characters; it is timestamp, name and digest on three lines, and the server reads the same three back. |
| `AuthToken.DecodesIff` | src/common/auth.rs:199-219 | The server accepts a text if and only if it is a payload with a readable timestamp and valid fields. |
| `AuthToken.TimestampSpellings` | src/common/auth.rs:199-204 | A text is read as the number n if and only if it is an optional plus sign, any zeros and the digits of n, and n fits a u64. |
| `AuthToken.DecimalDigits` | src/common/auth.rs:167-167 | Which digit of a number each character of its decimal text is. |
| `AuthToken.RefusedBecause` | src/common/auth.rs:199-213 | The error for a refused text is for the first part that is missing or wrong. |
| `NonceCache.Cache.CheckAndRecord` | src/common/auth.rs:74-90 | Refines the specified check on the map. |
| `NonceCache.CacheAgreesWithHistory` | src/common/auth.rs:60-91 | The evicting cache refuses a digest if and only if it was accepted less than the time-to-live ago, and holds only running acceptances. |
| `NonceCache.AcceptancesAreSpaced` | src/common/auth.rs:60-91 | Two acceptances of one digest are at least the time-to-live apart. |

## Left out

- Reverse and bidirectional tests: the receiving client and sending server loops account for bytes as the modelled loops do; their control flow ignores a failed wait for TestEnd, and the connection counts of bidirectional TCP do not match the server's.
- The control protocol of UDP tests, including SetDataPort and the concurrent UDP reverse path, which waits for TestEnd twice.
- Faults, timeouts, rejected options and failed authentication in the control protocol: its model is of a fault-free session with valid options and at least one stream.
- ControlProtocol.ServerKeeps: a chunk stands for one successful send, and the readers' counts are of chunks; byte counts per connection are in `Streams`.
- ControlProtocol.ResultsAgree: the control channel is unbounded here; what bounded buffers do to the results exchange is in `ResultsExchange`.
- Server UDP sender: the same loop as the client's, without limits and without a flush, so row conservation is not claimed for it.
- Streams.StartTcp: the script's deliveries are unbounded naturals, so the u64 byte total of a receipt does not wrap.
- UdpSender.SendLoop: scripts have at most 2^63 - 1 iterations, so the i64 sequence number does not overflow.
- UdpSender.PacketsAreNumbered: this and `PacketStamp` are for datagram sends that transfer the whole packet, as `send_to` does.
- UdpEndToEnd.StopDiscipline: takes a bound on how long one iteration lasts, which stands for the read timeout.
- Jitter.JitterConverges: over exact reals, like every result about jitter; rounding of f64, and of durations, is not modelled.
- Pacing.WaitIsLeastDelay: over exact reals, likewise.
- ResultsExchange.BoundedWork: frames are byte counts here; their contents are in `Wire`.
- ClientLoop.Client.Recv: messages arrive whole; the bytes of a message are in `Wire`.
- Real sockets, socket options, CPU accounting, affinity, log files: foreign calls and input or output.
- Token timestamps: the cache is modelled on its own, not together with the validity window of a token.
- JSON, RSA, SHA-256 and base64: libraries; the password digest is a function parameter.
- Command line, text and JSON output, bandwidth suffixes, option validation: easy members only.
- Lock poisoning in the accept loop.
