# A model of the UART-to-Ethernet bridge

The bridge connects byte streams on a Linux client with the serial ports of an AVR board.  Both ends exchange
fixed-size packages that carry one command and one payload slot per port.  Underneath are ring buffers, a windowed
flow control with session numbers, package reassembly in a shared buffer, 16-bit sequence windows, a wrapping timer
and a table-driven checksum.  This project models these parts and proves what they promise.

## How it is organised

| file | content |
|---|---|
| `Arithmetic.dfy`, `Bytes.dfy`, `Command.dfy` | products and remainders, octets, requests and responses |
| `RingBuffer.dfy` | the ring: cells and indices, the FIFO queue it stands for, class `DataBuffer` |
| `SharedRing.dfy` | the client's ring under interleaved producer and consumer |
| `Loopback.dfy` | the loopback tester: a turn, and any run of turns |
| `SendWindow.dfy` | class `RemoteBufferTracker`, unconfirmed packages |
| `UartWorker.dfy`, `PortWorker.dfy` | the per-port handlers of firmware and client |
| `Protocol.dfy` | both handlers and two channels as a transition system |
| `LinkSafety.dfy` | the invariant of every run; buffering bound, end-to-end FIFO, window, sessions |
| `LinkLimits.dfy` | runs showing that those results cannot be improved, and the exact conditions that follow |
| `LinkStart.dfy` | from a fresh connection to the start of the link |
| `LinkTurn.dfy` | a turn of the firmware `loop` as a run of the link |
| `ForwardPath.dfy` | the way out, from the local client to the UART, over any run of the link |
| `ReturnPath.dfy` | the way back, from a UART to the local client, over any run of the link |
| `Receive.dfy` | TCP and UDP receive machine on one buffer; the client's receive loop |
| `SeqWindow.dfy`, `Timer.dfy`, `Crc8.dfy`, `Wire.dfy` | sequence window, poll timer, checksum, package layout |
| `DataProcessor.dfy` | the client's loops over its ports: building a request package, splitting an answer package |
| `Uplink.dfy` | gathering UART bytes over poll intervals; counter echo; class `MainLoop` |
| `FirmwareLoop.dfy` | the whole `loop` of a board with one UART |
| `FirmwareRuns.dfy` | runs of it against a reference in unbounded time: polling, echoing, answering |
| `Broker.dfy` | the debug message broker's recursion guard |

Code that changes state is a class or method proved equal to a function of the old state (`Handled`, `Drained`,
`Filled`, `Reply` for the firmware handler; `Polled`, `Reopened`, `Confirmed`, `Accepts` for the client handler).  The
transition system in `Protocol.dfy` is built from those same functions, so its theorems are about what the methods do;
`LinkTurn.TurnIsRun` ties it to whole turns of the firmware loop, and `LinkStart.BootEndsInStart` shows that its starts
are where every way of connecting ends.

What such a function says is in turn held against a description that does not use it: `ForwardPath` and `ReturnPath`
put a byte stream at either end of the link, `FirmwareRuns` runs whole turns of `loop` beside a reference that counts
requests and intervals in unbounded time, and lemmas such as `UartWorker.ModeIsLastWord`, `Receive.TurnMeans` and
`DataProcessor.AnswerReachesPorts` say what requests, turns and packages come to.

## What turned out not to hold

* Session isolation cannot be counted in reopenings since an answer was emitted: the firmware may lag behind, and
  `LinkLimits.OneReopeningIsTooMany` accepts a payload of session 1 in session 128 one reopening after its emission.
  The exact condition, for all runs, is `LinkSafety.AcceptedAnswers`: the distance to the answer's session must not be a
  positive multiple of 127, and an id left by an earlier client must not be the current one.
* A Reset does not clear the firmware's transmit aggregate.  For every segment count and every point at which it comes,
  the first payload under the new session id is the aggregate the Reset found followed by what was read since, so it is
  free of older bytes if and only if the Reset found no aggregate in the making or an empty one
  (`Uplink.FirstPayloadAfterReset`; smallest witness `Uplink.ResetKeepsOldBytes`).
* `OnPortOpen` may empty the client's ring while `Worker` holds a handle.  Whatever is stored in between, committing the
  stale handle leaves the number of stored bytes as it is exactly when no byte was used (`SharedRing.ResetUnderHandle`).
* An Open request drops what an open port had stored, but not what a closed one had: data that arrives for a closed port
  is stored all the same, and is written once the port is opened (Firmware/UARTEthernetBridge/uartworker.cpp:22-50).
  The ring is empty after it if and only if the port was open or the ring empty before (`UartWorker.OpenSetsMode`).
* The client's `ProcessRX` decides under one lock and stores under another.  If a local client connects in between, the
  decision still stands exactly when the port does not reset on connect (`PortWorker.ReopenBetweenSections`).
* The poll interval is decoded with byte 2 in place of byte 3; it survives exactly when the two are equal
  (`Wire.IntervalRoundTrip`, smallest failure `Wire.IntervalFails`).
* A firmware that starts at sequence number 0 rejects exactly the client's first two datagrams
  (`SeqWindow.FirmwareRejectsFirstTwo`).
* The buffering bound needs the Open to be the first request the firmware sees.  A package built before the connection
  was up may precede it: in TCP-only mode `OnSendPackage` opens the connection itself and sends the package it was
  called with (Client/Src/TCPTransport.cpp:215-252).  The firmware then takes that package's counter for the poll
  interval, and echoes the interval, 8192 by default (Client/Src/Main.cpp:136), as a counter; both orders are reachable
  from a fresh connection (`LinkStart.BothOrdersHappen`).  Until the next processed request, every answer still echoes
  the interval, and while that is ahead of the client's own counter each such answer may confirm a full payload that has
  not arrived.
* Nor do all answers that a client receives speak of its own packages.  The firmware answers as soon as a client is
  connected (Firmware/UARTEthernetBridge/main_loop.cpp:183 and 247), and only a request changes the counter field
  (205-208).  A board that has served another client therefore answers a new one, until it has processed the Open, with
  the earlier client's last counter and session id (`LinkStart.AnswersPrecedeOpen`).  If the counter is ahead, each such
  answer that arrives after data has been sent confirms it unseen (`LinkLimits.StaleAttains`); and whatever the id is
  from 1 to 127, after that many local clients the old payload is accepted (`LinkStart.LeftoverIdLetsIn`).
* What both of these cost is exact.  Over all ways of connecting and all runs after them, all data in flight stays
  accounted for if and only if neither the counter field left on the board nor the poll interval is ahead of the
  client's first counters (`LinkStart.AllCoveredIff`), and floor(N/2)+L holds if and only if full payloads for as many
  polls as either is ahead stay within half the ring (`LinkStart.AllBoundedIff`).  `LinkStart.EarlyPackageCost` says it
  for each way of connecting; `LinkSafety.RemoteBufferingBounded` gives the bound that holds from every start, and
  `LinkLimits.BoundAttained` reaches it.
* Not everything that `Worker` takes out of the client's ring reaches the local client.  It commits the whole handle
  when there is no client, when polling or writing fails, and also when the client is merely not ready in time
  (Client/Src/PortWorker.cpp:200-232).  What was taken out has reached the client if and only if none of this happened
  to a handle with bytes in it (`ReturnPath.UartToClient`); after a timeout later bytes follow the missing ones
  (`ReturnPath.TimeoutSkips`).

## Assumptions

* Runs of the link start when the firmware has processed the Open, with no request in flight; answers from before the
  Open may be, with any counters and session ids.  The counter the firmware then echoes is arbitrary.  An orderly start
  is one where neither that counter nor one in such an answer is ahead of the client's.  Reconnecting within a run is
  not modelled.
* All ports of a board send their Open in the same package.  A connection that comes up between two ports' turns of one
  poll would split them over two packages.
* Ports opened as closed get neither listener nor data (Client/Src/Main.cpp:251).
* The 32-bit event counter does not wrap: confirmation compares counters with plain `<=`.
* The firmware's `loop` lags less than 2^32 microseconds behind its poll timer.
* The channels keep order.  Requests other than Reset, and responses, may be lost; Reset travels over TCP.  The byte
  stream theorem speaks of runs without lost requests.
* Every step of the link is atomic: the two sections of the client's `ProcessRX` run there without a reopening in
  between.
* No command claims more payload than the package still holds, and payload sizes stay below 256; the receivers do not
  check either.
* Ring storage has at least one cell, payload slots at least the four bytes of a port speed.

## Model

| member | source | states |
|---|---|---|
| RingBuffer.PushIsAppend | Firmware/UARTEthernetBridge/databuffer.cpp:11-29 | writing around the end of the storage is FIFO append of the longest prefix that fits; capacity N-1 is never exceeded and the tail does not move |
| RingBuffer.PopIsDrop | Firmware/UARTEthernetBridge/databuffer.cpp:17-29 | moving the tail around the end removes exactly the oldest bytes |
| RingBuffer.HeadRoomFacts | Client/Src/DataBuffer.cpp:17-21 | the head handle offers exactly the free cells up to the end of the storage, and none only when the ring is full |
| RingBuffer.TailRoomFacts | Client/Src/DataBuffer.cpp:23-27 | the tail handle shows exactly the oldest bytes up to the end of the storage, and none only when the ring is empty |
| RingBuffer.CommitHeadIsEnqueue | Client/Src/DataBuffer.cpp:17-35 | filling handed-out head cells and committing is FIFO append |
| RingBuffer.CommitTailIsPop | Client/Src/DataBuffer.cpp:23-35 | committing a tail handle of a non-empty ring moves the tail, although the pointer is chosen by comparing addresses |
| RingBuffer.FillLevel | Client/Src/DataBuffer.cpp:37-45 | the client and firmware fill level is exact when not wrapped and one too high when wrapped, zero only when empty, at most N; "not half used" means at most N/2 bytes; the loopback form is exact |
| RingBuffer.DataBuffer.Commit | Client/Src/DataBuffer.cpp:29-35 | the handle's address decides which index moves; past the end it returns to the start |
| RingBuffer.DataBuffer.IsHalfUsed | Firmware/UARTEthernetBridge/databuffer.cpp:36-39 | answers the queue-level half-full test |
| RingBuffer.DataBuffer.Put | Firmware/UARTEthernetBridge/uartworker.cpp:28-33 | memcpy to the head handle and commit appends the chunk to the queue |
| RingBuffer.DataBuffer.Take | Firmware/UARTEthernetBridge/uartworker.cpp:90-95 | reading from the tail handle and committing removes and returns the oldest bytes |
| SharedRing.SharedRingSafe | Client/Src/PortWorker.cpp:152-168 | in every interleaving a held tail handle keeps its bytes and its address apart from the head, and bytes committed followed by bytes stored are exactly those accepted |
| SharedRing.ReleaseMovesTail | Client/Src/PortWorker.cpp:179-233 | the late commit moves the tail, not the head, and removes exactly the bytes visible when the handle was taken |
| SharedRing.TwoHandlesEmpty | Client/Src/PortWorker.cpp:176-233 | two handles committed in full deliver everything stored, wherever it lies in the storage |
| SharedRing.ResetUnderHandle | Client/Src/PortWorker.cpp:57-67 | whatever was stored since a reset, committing a handle from before it leaves the stored byte count alone exactly when it commits nothing |
| Loopback.LoopTurn | LoopbackTestingFirmware/SerialLoopbackTester/main_loop.cpp:15-34 | a turn moves exactly as many bytes as port and storage allow, in one piece each way, and loses, doubles and reorders nothing, also when a read or write moves fewer bytes than asked |
| Loopback.LoopRun | LoopbackTestingFirmware/SerialLoopbackTester/main_loop.cpp:15-34 | over any run, what was written, the ring and what waits are exactly the initial ring and everything that arrived |
| SendWindow.RemoteBufferTracker.AddPackage | Client/Src/RemoteBufferTracker.cpp:13-16 | appends the package; keeps the window invariant exactly when the counter is newer than all in the window and the size fits |
| SendWindow.RemoteBufferTracker.ConfirmPackage | Client/Src/RemoteBufferTracker.cpp:18-25 | popping from the front keeps exactly the packages newer than the reference |
| SendWindow.RemoteBufferTracker.GetAvailSpace | Client/Src/RemoteBufferTracker.cpp:27-37 | zero when blocked, else the exact remainder: the over-limit branch is unreachable |
| SendWindow.PopIsFilter | Client/Src/RemoteBufferTracker.cpp:23-24 | front popping equals filtering by counter on an ordered window |
| UartWorker.Store | Firmware/UARTEthernetBridge/uartworker.cpp:25-35 | the copy loop appends exactly the first min(plSz, free) bytes |
| UartWorker.Drain | Firmware/UARTEthernetBridge/uartworker.cpp:88-97 | the drain loop emits and removes exactly the oldest min(available, stored) bytes |
| UartWorker.UARTWorker.ProcessRequest | Firmware/UARTEthernetBridge/uartworker.cpp:18-77 | new port state for every request kind, unknown ones included, and when a board reset starts |
| UartWorker.OpenSetsMode | Firmware/UARTEthernetBridge/uartworker.cpp:46-64 | an open request opens the port if and only if mode and speed are configured, in that mode and in the initial session; what an open port had stored is dropped, what a closed one had is kept |
| UartWorker.ModeIsLastWord | Firmware/UARTEthernetBridge/uartworker.cpp:43-71 | over any run of requests, the last one that opens or closes the port decides whether it is open and in which mode |
| UartWorker.DrainsAll | Firmware/UARTEthernetBridge/uartworker.cpp:79-98 | over any number of calls the oldest bytes are written in order, as many as there are and as the UART takes within PORT_IO_SIZE a call |
| UartWorker.UARTWorker.ProcessRX | Firmware/UARTEthernetBridge/uartworker.cpp:79-98 | nothing moves while resetting or closed; otherwise min(available, PORT_IO_SIZE, stored) bytes in order |
| UartWorker.UARTWorker.FillTXBuff | Firmware/UARTEthernetBridge/uartworker.cpp:100-114 | takes the first waiting bytes behind the aggregate, never beyond the slot, other slots untouched |
| UartWorker.UARTWorker.ProcessTX | Firmware/UARTEthernetBridge/uartworker.cpp:116-121 | the response carries aggregate size, half-full flag and session id so that the client decodes them back |
| Command.ArgRoundTrip | Firmware/UARTEthernetBridge/uartworker.cpp:119-120 | flag and seven-bit id packed in one byte are recovered |
| PortWorker.PortWorker.OnPortOpen | Client/Src/PortWorker.cpp:43-68 | a new client of this port, and of no other, starts a new session with empty window and ring when so configured |
| PortWorker.PortWorker.ProcessTX | Client/Src/PortWorker.cpp:70-127 | state, request and slot bytes of a poll in every case: not connected, open, reset, no room, no data, disconnect, data |
| PortWorker.PortWorker.ConfirmSection | Client/Src/PortWorker.cpp:131-142 | the first locked section confirms always and accepts exactly for an attached client of the answer's session |
| PortWorker.PortWorker.StoreSection | Client/Src/PortWorker.cpp:150-168 | the second locked section stores the longest prefix of the payload that fits |
| PortWorker.PortWorker.ProcessRX | Client/Src/PortWorker.cpp:129-171 | both sections in a row |
| PortWorker.ReopenBetweenSections | Client/Src/PortWorker.cpp:131-154 | a decision taken before a reopening stands after it exactly when the port does not reset on connect |
| PortWorker.PortWorker.StorePayload | Client/Src/PortWorker.cpp:153-168 | the copy loop appends the longest prefix that fits |
| LinkSafety.StepKeeps | Firmware/UARTEthernetBridge/main_loop.cpp:199-249 | every step of either side and every loss keeps counter order, session structure, window, load bound and byte streams |
| LinkSafety.RemoteBufferingBounded | Client/Src/PortWorker.cpp:98-126 | on every lossy run from any start, answers from before the Open in flight included, ring plus data in flight for it is at most max(floor(N/2), gap times a full payload)+L, where gap is how far the initial echo or such an answer is ahead; each later session in the channel adds at most a gap's worth and L; from an orderly start the gap is zero |
| LinkSafety.EndToEndFifo | Client/Src/DataProcessor.cpp:39-62 | when the bound fits the ring nothing is dropped; without lost requests UART output, ring and channel make up what the polls have read from the local clients, told from the steps of the run alone, per session, across reopenings |
| LinkSafety.SentIsRead | Client/Src/PortWorker.cpp:98-126 | what a session has sent is, poll by poll, the first bytes the client had to offer, up to what payload slot, limit and half-full flag allow |
| ForwardPath.ClientToUart | Client/Src/PortWorker.cpp:98-126 | for any run of writes, polls, hang-ups, failures and reopenings: sent bytes and waiting bytes are, in order, what the session's client has written; a client is dropped with bytes unread only if reading failed; with room and without losses UART output, ring, channel and waiting bytes are everything written |
| ForwardPath.TurnTakesAll | Client/Src/PortWorker.cpp:98-124 | a poll takes the first waiting bytes until slot or limit is full or none are left, and drops the client exactly when it asked and met the end of the stream or a failure |
| LinkSafety.WindowSafe | Client/Src/RemoteBufferTracker.cpp:13-42 | on every run counters increase and the limit holds; from an orderly start an answer of an older session, or from before the Open, confirms nothing newer |
| LinkSafety.AcceptedAnswers | Client/Src/PortWorker.cpp:131-142 | a payload is accepted by an attached client exactly when its session is the current one, or lies a positive multiple of 127 reopenings back and is not the initial one, or when it was sent before the Open and the id an earlier client left equals the current one |
| LinkSafety.SessionIsolation | Firmware/UARTEthernetBridge/uartworker.cpp:37-41 | below 127 reopenings since its session, an accepted answer sent after the Open was emitted after the current Reset was processed |
| Protocol.SidNext | Client/Src/PortWorker.cpp:60-62 | the id after k reopenings is 0 for k=0 and ((k-1) mod 127)+1 otherwise |
| Protocol.SidEqual | Client/Src/PortWorker.cpp:60-62 | which reopenings share an id |
| LinkLimits.BoundAttained | Client/Src/RemoteBufferTracker.cpp:27-37 | from every start with the ring's tail at its first cell and no answer in flight ahead of what the firmware can repeat, and a positive payload per poll, some run reaches the bound exactly, for every ring size and limit |
| LinkLimits.NeverDropsIffRoom | Firmware/UARTEthernetBridge/uartworker.cpp:26-35 | from any such start, with a positive payload size, no run drops a byte if and only if the bound of that start fits N-1 |
| LinkLimits.OrderlyNeverDropsIffRoom | Firmware/UARTEthernetBridge/uartworker.cpp:26-35 | over all orderly starts, with a positive payload size, no run drops a byte if and only if floor(N/2)+L <= N-1 |
| LinkLimits.HalfRingBoundIff | Firmware/UARTEthernetBridge/main_loop.cpp:204-219 | with a positive payload per poll, floor(N/2)+L holds on every run from such a start if and only if what its echo confirms early stays within half the ring |
| LinkLimits.CoveredIffOrderly | Firmware/UARTEthernetBridge/main_loop.cpp:204-219 | with a positive payload per poll, on every run from a start the window accounts for all data in flight of the session if and only if neither the echo nor an answer in flight is ahead; for a blocked client where no answer is ahead of what the firmware can repeat |
| LinkLimits.StaleAttains | Client/Src/RemoteBufferTracker.cpp:18-25 | n answers from before the Open that are far enough ahead let n full payloads through on top of a full window |
| LinkLimits.OneReopeningIsTooMany | Client/Src/PortWorker.cpp:136-142 | a run in which one reopening after emission lets an old payload in |
| LinkStart.BootEndsInStart | Firmware/UARTEthernetBridge/main_loop.cpp:180-219 | however the connection comes up and whatever is answered meanwhile, processing the Open ends in a start of the link, with the UART open if and only if speed and mode are configured, and in that mode; the echo is zero unless a package built earlier went out first, when it is the interval, and no answer in flight carries more than the counter left on the board |
| LinkStart.AnswersPrecedeOpen | Firmware/UARTEthernetBridge/main_loop.cpp:183-247 | any number of answers with the counter and session id left on the board can be in flight when the Open is processed |
| LinkStart.BothOrdersHappen | Client/Src/TCPTransport.cpp:215-252 | both orders are reachable from a fresh connection |
| LinkStart.EarlyPackageCost | Client/Src/DataProcessor.cpp:49-56 | for each way of connecting: when nothing is ahead all data is accounted for and floor(N/2)+L holds on every run; the first holds only then for an unblocked client; the second has its exact condition when no answer is ahead of the echo |
| LinkStart.AllCoveredIff | Client/Src/DataProcessor.cpp:39-62 | with a positive payload per poll, over all ways of connecting and all runs, full accounting holds if and only if the counter field left on the board and the poll interval are not ahead of the client's first counters |
| LinkStart.AllBoundedIff | Client/Src/PortWorker.cpp:98-126 | with a positive payload per poll and I/O size, over all ways of connecting and all runs, floor(N/2)+L holds if and only if full payloads for as many polls as either is ahead stay within half the ring |
| LinkStart.LeftoverIdLetsIn | Client/Src/PortWorker.cpp:136-142 | for every id from 1 to 127 left on the board, a way of connecting after which a payload sent before the Open is accepted |
| ReturnPath.UartToClient | Client/Src/PortWorker.cpp:150-233 | on every run, without a gap, bytes stored, payloads on their way and partial aggregate are what the aggregate held at the Reset and what the UART gave since; bytes taken out of the ring and bytes in it are those stored; those taken out have all reached the local client if and only if no non-empty handle was thrown away, and are then a prefix of what the UART gave |
| ReturnPath.TimeoutSkips | Client/Src/PortWorker.cpp:200-232 | from any state in which nothing was thrown away, a timeout makes the local client get later bytes without earlier ones, with no gap before the ring |
| ReturnPath.AnswerTaken | Client/Src/PortWorker.cpp:131-168 | an answer that leaves no gap is stored in full if it is of the client's session and not at all otherwise |
| Receive.CrcOkIsPasses | Firmware/UARTEthernetBridge/tcpserver.cpp:57 | the receivers' test is the checksum test on metadata and checksum byte |
| Receive.DamagedPackageRejected | Firmware/UARTEthernetBridge/tcpserver.cpp:57 | no receiver takes a package damaged by an odd number of bits, or by a burst of at most eight, in that part |
| Receive.TcpPackagesAreTheStream | Firmware/UARTEthernetBridge/tcpserver.cpp:45-68 | for every fragmentation and every interleaved datagram, TCP packages are the stream cut into blocks up to the first bad checksum, and the shared buffer holds the package in progress |
| Receive.TurnMeans | Firmware/UARTEthernetBridge/tcpserver.cpp:22-69 | when a connection comes up, what ends it (alarm, the other side, a bad checksum, nothing else), that all that has arrived is read up to the end of a package, and exactly when a datagram is read |
| Receive.UdpPackagesAreFiltered | Firmware/UARTEthernetBridge/udpserver.cpp:55-81 | UDP packages are, of the datagrams read since the connection, those whose first package-size bytes pass the checksum test and which the sequence window lets through; no damaged datagram is ever handed over |
| Receive.UdpFollowsConnection | Firmware/UARTEthernetBridge/udpserver.cpp:28-79 | the UDP server runs exactly while a connection lasts of which some package has had a port opened; it serves that connection's address at the first port a package came from |
| Receive.UdpNeverRepeats | Firmware/UARTEthernetBridge/udpserver.cpp:17-26 | within the window no datagram is handed over twice or out of order |
| Receive.CutWhole | Client/Src/TCPTransport.cpp:176-210 | a cut loses no byte of the stream |
| Receive.TCPServer.ProcessRX | Firmware/UARTEthernetBridge/tcpserver.cpp:22-69 | one turn of TCP reassembly with all events, and whether it puts off the alarm |
| Receive.UDPServer.ProcessRX | Firmware/UARTEthernetBridge/udpserver.cpp:28-82 | one turn of the UDP server for every event of the TCP server, and whether it puts off the alarm |
| Receive.UDPServer.DropOldSeq | Firmware/UARTEthernetBridge/udpserver.cpp:17-26 | drops exactly what is not newer and remembers what is |
| Receive.ReceiveTurn | Firmware/UARTEthernetBridge/main_loop.cpp:176-197 | `loop` runs TCP first and hands its event to UDP, on one buffer; the connection alarm is put off by a connection and by every request handed over |
| Receive.ClientReceive | Client/Src/TCPTransport.cpp:176-210 | whatever the pieces, the client's packages are the same cut of what was read, and unless a block fails that is exactly what the calls give: at least one byte per uninterrupted call while there are any |
| Receive.ReadsWholePackages | Client/Src/TCPTransport.cpp:176-210 | calls that may return a whole package each get one, as long as there is enough to read |
| SeqWindow.NewerIsSerialGreater | Client/Src/UDPConnection.cpp:36-44 | accepts exactly 1 to 32767 ahead modulo 2^16, the order of section 3.2 of RFC 1982 |
| SeqWindow.ReceiverKeepsLater | Client/Src/UDPConnection.cpp:36-44 | over any number of wrap-arounds the 16-bit test keeps what true indices would |
| SeqWindow.NoDuplicateNoReorder | Firmware/UARTEthernetBridge/udpserver.cpp:17-26 | kept indices strictly increase |
| SeqWindow.ClientAcceptsAll | Client/Src/UDPConnection.cpp:12 | in a loss-free run the client accepts every datagram, the first included |
| SeqWindow.FirmwareRejectsFirstTwo | Firmware/UARTEthernetBridge/udpserver.cpp:41 | in a loss-free run the firmware rejects exactly the first two |
| SeqWindow.UDPConnection.RXSeqCheckIncrement | Client/Src/UDPConnection.cpp:36-44 | the object's check and what it remembers |
| SeqWindow.UDPConnection.TXSeqIncrement | Client/Src/UDPConnection.cpp:31-34 | numbers count up modulo 2^16 |
| Crc8.TableIsStepTable | Client/Src/CRC8.cpp:3-36 | every table entry is eight division steps by 0x31 on its index |
| Crc8.TablesAgree | Firmware/UARTEthernetBridge/crc8.cpp:8-41 | both copies of the table are equal |
| Crc8.Crc8Client | Client/Src/CRC8.cpp:38-44 | the table loop is bit-serial division with the register preset to 0xFF |
| Crc8.Crc8Firmware | Firmware/UARTEthernetBridge/crc8.cpp:44-58 | so is the firmware's loop over its own table |
| Crc8.AppendedChecksumPasses | Client/Src/TCPTransport.cpp:230 | a block followed by its checksum passes and has residue zero |
| Crc8.UndetectedIffZeroResidue | Firmware/UARTEthernetBridge/tcpserver.cpp:57 | an error goes unnoticed exactly when it alone divides to zero |
| Crc8.OddErrorsDetected | Client/Src/CRC8.cpp:38-44 | every odd number of flipped bits is caught |
| Crc8.ChecksumParity | Client/Src/CRC8.cpp:38-44 | the parity of the checksum is the parity of the message |
| Crc8.BurstsDetected | Client/Src/CRC8.cpp:38-44 | every burst within eight consecutive bits is caught, across byte boundaries and in the checksum byte too |
| Wire.RegionsDisjoint | Client/Src/Config.cpp:3-6 | no two fields of a package overlap, for any port count and payload size |
| Wire.RegionsCover | Client/Src/Config.cpp:3-6 | every byte of a package belongs to a field |
| Wire.RegionInside | Client/Src/Config.cpp:93-106 | no field sticks out of the package |
| Wire.PackageIsItsFields | Client/Src/Config.cpp:3-6 | a package is header, counter, commands port by port, checksum and payloads port by port, one after the other |
| Wire.SlotRoundTrip | Client/Src/Command.cpp:4-18 | commands are decoded as written |
| Wire.CounterRoundTrip | Client/Src/Command.cpp:16-26 | the counter field round-trips every 32-bit value |
| Wire.CounterReadsBack | Client/Src/DataProcessor.cpp:55-56 | a counter field written from the event counter stands for that counter modulo 2^32 |
| Wire.IntervalRoundTrip | Firmware/UARTEthernetBridge/main_loop.cpp:214-215 | the interval survives exactly when bytes 2 and 3 are equal, hence below 65536 |
| DataProcessor.OnPollEvent | Client/Src/DataProcessor.cpp:29-63 | every port is polled once; its command and payload are readable from the package; the counter field stands for the event counter, or the poll interval when a port is opened; when TCP is required |
| DataProcessor.SendPackage | Firmware/UARTEthernetBridge/main_loop.cpp:157-161 | a whole request package, from the ports to the wire, is decoded exactly as the ports put it together |
| DataProcessor.FirstRequestOpens | Client/Src/PortWorker.cpp:76-85 | a connected port's first request opens the firmware's port if and only if mode and speed are configured, and in that mode |
| DataProcessor.OnIncomingPackageEvent | Client/Src/DataProcessor.cpp:65-75 | every port is confirmed by its own response and takes bytes of its own slot only: whatever responses and payloads went into the package, those are what the ports get |
| DataProcessor.AnswerIsSplit | Client/Src/Command.cpp:12-18 | of a package that carries responses and payloads each port is given its own response and the first bytes of its own payload |
| DataProcessor.AnswerReachesPorts | Client/Src/DataProcessor.cpp:65-75 | from the firmware's sealed answer to the client's ports: port i is confirmed by the i-th response and stores the bytes it announces of the i-th payload, if they are for its current client |
| Wire.SealPackage | Client/Src/TCPTransport.cpp:225-230 | header and checksum go in, the package passes the check and nothing else changes |
| Wire.SendAnswer | Firmware/UARTEthernetBridge/main_loop.cpp:163-169 | an answer package is decoded as written, with echoed counter and payloads untouched |
| Timer.DueIsTrueTime | Firmware/UARTEthernetBridge/intervaltimer.cpp:15-19 | with lag below 2^32 microseconds the wrapping test is the test in true time |
| Timer.NoDrift | Firmware/UARTEthernetBridge/intervaltimer.cpp:26-29 | after k firings the checkpoint is k intervals after the start and not ahead of the clock |
| Timer.RateBound | Firmware/UARTEthernetBridge/uartworker.cpp:106-112 | at most PORT_IO_SIZE bytes are read per whole interval since the start |
| Uplink.UartBytesConserved | Firmware/UARTEthernetBridge/main_loop.cpp:227-248 | payloads sent plus partial aggregate are, in order, what the UART has given, told from the steps alone; within slot size and segment count |
| Uplink.PollTakesAll | Firmware/UARTEthernetBridge/uartworker.cpp:100-114 | a poll of an open port takes the first bytes waiting, all of them up to PORT_IO_SIZE: the slot always has room |
| Uplink.FirstPayloadAfterReset | Firmware/UARTEthernetBridge/main_loop.cpp:230-238 | for every segment count and every moment of a Reset, the first payload under the new id is the aggregate it found and what was read since; free of old bytes if and only if there was none |
| Uplink.ResetKeepsOldBytes | Firmware/UARTEthernetBridge/main_loop.cpp:230-238 | a smallest witness with two segments |
| Uplink.EchoDecodes | Firmware/UARTEthernetBridge/main_loop.cpp:204-213 | the echoed octets decode to the request's counter, or to zero for the first request of a connection |
| Uplink.MainLoop.OnTick | Firmware/UARTEthernetBridge/main_loop.cpp:227-245 | one poll of the port, answered on the last segment |
| Uplink.MainLoop.OnRequest | Firmware/UARTEthernetBridge/main_loop.cpp:204-219 | counters are echoed, except that the first request after a connection is echoed as zero and sets the poll timer to its share of the interval unless that is zero; nothing else of the loop's state changes |
| Uplink.MainLoop.Turn | Firmware/UARTEthernetBridge/main_loop.cpp:199-245 | request, echo, drain and timed poll of one port, in that order: whether the poll is due follows from the interval the request has just set; whole state of the loop, UART output and answer |
| FirmwareLoop.Board.ReceivePart | Firmware/UARTEthernetBridge/main_loop.cpp:176-197 | TCP, then connection flags, segment counter and poll timer, then UDP |
| FirmwareLoop.Board.SendAnswer | Firmware/UARTEthernetBridge/main_loop.cpp:246-247 | UDP with the next sequence number if it can send, else TCP with an empty header; the package passes the check and keeps all other fields |
| FirmwareLoop.Board.AggregateInPlace | Firmware/UARTEthernetBridge/uartworker.cpp:100-121 | the answer's payload slot starts with the aggregate that the response announces |
| FirmwareLoop.Board.Loop | Firmware/UARTEthernetBridge/main_loop.cpp:171-249 | a whole turn of a one-UART board: connection, flags, echo, segment counter, poll timer, port state and UART output afterwards, and exactly when and over what an answer leaves and what it holds |
| FirmwareLoop.RequestIsRead | Firmware/UARTEthernetBridge/main_loop.cpp:157-161 | the port is given the command and the payload that a client put into the package |
| FirmwareRuns.LoopKeepsTime | Firmware/UARTEthernetBridge/main_loop.cpp:171-249 | on every run of whole turns: the connection flag is the TCP server's; the first request of a connection and no other sets the interval and is echoed as zero; polls come at whole intervals since the timer was set last, without drift, so that a port gives at most PORT_IO_SIZE bytes for each; the segment counter counts a connection's polls; UDP answers are numbered consecutively from zero and all accepted by the client |
| FirmwareRuns.AnswerLeaves | Firmware/UARTEthernetBridge/main_loop.cpp:225-247 | an answer leaves exactly with every multiplier-th poll of a connection, and by UDP exactly when a package of it has had a port opened, a datagram has shown the client's port and one can be started |
| LinkTurn.TurnIsRun | Firmware/UARTEthernetBridge/main_loop.cpp:199-245 | a turn is a run of the link: same port state, UART output, echoed counter and answer |
| Broker.MessageBroker.SendMessage | Client/Src/MessageBroker.cpp:72-112 | nested sends terminate and nest at most once per idle sender plus one rejected call; an accepted call delivers this message, and of its sender no other, to every interested subscriber once and in order, and nothing goes to a subscriber that is not interested; the active senders are left as they were |

## Left out

- Sockets, name lookup, PTY and inotify handling, poll and error codes: I/O; byte counts, losses and read results are
  parameters instead.
- UART, reset-pin, LED and watchdog calls: hardware; UART input and output are sequences, board reset an arbitrary flag.
- Logging, option parsing, process start-up and shutdown: plumbing.
- `IPAddress` and `IPEndpoint`: off the data path.
- Threads and mutexes: steps are atomic at lock granularity.
- Wrap-around of the 32-bit event counter, and order between a TCP and a UDP channel used side by side.
- Close requests and mode changes within a run of the link: the client never sends Close, and Open only at the start.
- The send loops of `TCPServer::ProcessTX` and `TCPTransport::OnSendPackage`: they write one buffer out in pieces.
- The release-mode message broker and `ImmutableStorage`: no guard to speak of.
- FirmwareLoop.Board.Loop: a board with one UART; with more, the other ports run the same code on their own slots.
- Receive.UDPServer.ProcessRX: leaves out the `udpSrvStarted` member of the returned union, which `loop` never reads.
- Receive.TCPServer.ProcessRX: leaves out setting the alarm's delay on a new connection, always to the same constant.
- Receive.ReceiveTurn: leaves out flags, segment counter and poll timer, set between the two calls;
  `FirmwareLoop.Board.ReceivePart` has them.
- ReturnPath.UartToClient: the consumer's handle is taken and committed in one move; `SharedRing` has the interleavings.
- Broker.MessageBroker.SendMessage: other threads' entries are present but do not change during the call.
