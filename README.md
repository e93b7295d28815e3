# A verified model of a small TCP engine

This project is a Dafny model of the sequential connection engine of a
TCP-over-simulated-network implementation. The original is written in Java
(`proj/*.java`). The model covers seven parts of that engine:

- **Segments** (`Segment`, `Segment.Buffer`): sent or received pieces of the
  byte stream, ordered by sequence number. They are held in a min-priority
  queue whose `peekSeqNum` reports -1 when it is empty.
- **The demultiplexer** (`SocketManager`): maps each local port to a set of
  sockets keyed by the peer's address and port, plus a wildcard entry (the
  listener).
- **The accept backlog** (`TCPSockServer`): a bounded FIFO of established
  connections.
- **Receiver reassembly** (`TCPSockServerClient`): delivers the run of
  adjacent buffered segments into a 1024-byte `java.nio.ByteBuffer`, and
  reads back out of it. The part of `ByteBuffer` it uses is modelled in
  `byte_buffer.dfy`.
- **Sender bookkeeping** (`TCPSockClient`): the next sequence number, the
  send base, and the queue of unacknowledged segments that a cumulative ACK
  prunes.
- **The retransmission timer** (`TCPSockClientTimer`): on a timeout it
  resends the head of the queue. On a cumulative ACK it prunes the queue
  and feeds the RTT estimator the sample of every sequence number
  acknowledged once whose sample is not -1; when no acknowledged segment
  is newer than the clock reading, that is exactly one sample per sequence
  number polled once. Segments seen twice give no sample (Karn's rule).
- **The socket state machine** (`TCPSock`): bind, listen, accept, connect
  and receive. A listener spawns an established passive socket for every
  SYN while its backlog has room.

Each Java class is one module. A class whose fields the Java updates in
place is a Dafny `class` with the same fields. Java collections are modelled
as follows:

- A `PriorityQueue` is a sequence kept sorted by sequence number.
- A `HashMap` is a `map`.
- An `ArrayBlockingQueue` is a sequence with a fixed capacity.
- The `ByteBuffer` keeps an `array`.

Loops stay loops. Each loop is proved against specification functions
(`RunLength`, `Fitting`, `PruneCount`, `SampleMap`, `FoldRtt`), and lemmas
state what those functions mean. The clock and the random initial sequence
numbers are method parameters. Timers armed, segments resent and segments
sent are recorded in ghost logs (`armed`, `resent`, `sent`).

## Model

| member | source | states |
|---|---|---|
| Segments.Segment.CompareTo | proj/Segment.java:50-52 | the sign of the result is the sign of the comparison of the two sequence numbers (both directions of each case); the result is -1, 0 or 1 |
| Segments.CompareToOrdersBySeqNum | proj/Segment.java:50-52 | the comparison ignores the type and the payload, and is antisymmetric |
| Segments.Segment.PayloadSize | proj/Segment.java:46 | the definition is the contract: the payload's length |
| Segments.Segment.RTT | proj/Segment.java:47-48 | the definition is the contract: the clock reading `now` minus the start time |
| Segments.Segment.IsNextTo | proj/Segment.java:54-56 | the definition is the contract: `o` ends (sequence number plus payload length) exactly where this segment starts; RunIsMaximalChain and RunIsContiguous state what chains of it mean |
| Segments.Insert | proj/Segment.java:6 | the queue after `PriorityQueue.add`: one longer; InsertAddsOne, InsertKeepsOrder and InsertCommutes state its meaning |
| Segments.DataSegment | proj/Segment.java:32-34 | the two-argument constructor makes a DATA segment with the given sequence number and payload; its payload size is the payload's length |
| Segments.InsertAddsOne | proj/Segment.java:7-12 | adding a segment grows the queue's multiset by exactly that segment |
| Segments.InsertKeepsOrder | proj/Segment.java:6 | adding to a queue ordered by sequence number leaves it ordered |
| Segments.InsertCommutes | proj/Segment.java:6 | segments with distinct sequence numbers give the same queue in either order of arrival |
| Segments.PruneCount | proj/TCPSockClient.java:57-60 | the prefix removed by polling while the least sequence number is not -1 and below n: every segment in it qualifies, and the next one does not |
| Segments.PruneRemovesExactlyBelow | proj/TCPSockClient.java:56-60 | on an ordered queue without sequence number -1, the prefix that is polled holds exactly the segments below n |
| Segments.PruneIsIdempotent | proj/TCPSockClient.java:57-60 | pruning again with the same n removes nothing |
| Segments.Buffer.constructor | proj/Segment.java:6 | a new buffer is empty |
| Segments.Buffer.AddSegment | proj/Segment.java:8 | `PriorityQueue.add`: queues the segment in order, adding exactly it to the multiset |
| Segments.Buffer.AddData | proj/Segment.java:7-9 | `add(seqNum, payload)` queues a DATA segment, in order, adding exactly it to the multiset |
| Segments.Buffer.Add | proj/Segment.java:10-12 | `add(type, seqNum, payload)` queues a segment of the given type, in order, adding exactly it to the multiset |
| Segments.Buffer.Peek | proj/Segment.java:6 | none exactly when empty; otherwise a queued segment of least sequence number |
| Segments.Buffer.PeekSeqNum | proj/Segment.java:19-24 | -1 on an empty buffer; otherwise the head's sequence number, which is the least in the buffer |
| Segments.PeekSeqNumSentinel | proj/Segment.java:14-24 | when sequence numbers are non-negative, -1 is reported exactly when the buffer is empty |
| Segments.Buffer.Poll | proj/Segment.java:6 | removes and returns a segment of least sequence number; the multiset loses exactly that segment; an empty buffer gives none and is unchanged |
| SocketManagement.SockSet.Get | proj/SocketManager.java:14-21 | the exact peer's socket when registered, otherwise the wildcard socket, otherwise none (both directions) |
| SocketManagement.SockSet.HasAddress | proj/SocketManager.java:23-25 | the definition is the contract: the set has an entry under the key |
| SocketManagement.ListenerSet | proj/SocketManager.java:7-9 | the definition is the contract: the one-argument constructor, a set whose only entry is the wildcard |
| SocketManagement.PeerSet | proj/SocketManager.java:10-12 | the definition is the contract: the two-argument constructor, a set whose only entry is the given peer |
| SocketManagement.ListenerSetServesEveryPeer | proj/SocketManager.java:7-9 | a set made by the one-argument constructor answers every peer with its socket |
| SocketManagement.PeerSetServesOnlyItsPeer | proj/SocketManager.java:10-12 | a set made for one peer answers that peer with its socket and every other peer with none |
| SocketManagement.SocketManager.constructor | proj/SocketManager.java:28 | no port is registered |
| SocketManagement.SocketManager.IsPortValid | proj/SocketManager.java:59-61 | the definition is the contract: the port lies in 0..MAX_PORT_NUM |
| SocketManagement.SocketManager.IsPortAvailable | proj/SocketManager.java:63-67 | the definition is the contract: the port is valid and has no set |
| SocketManagement.SocketManager.IsSockAvailable | proj/SocketManager.java:69-75 | true exactly when the port is valid and its set, if any, has no entry under the key |
| SocketManagement.SocketManager.Find | proj/SocketManager.java:52-57 | none for an unregistered port; otherwise the exact peer's entry, else the wildcard entry, else none |
| SocketManagement.SocketManager.Assign | proj/SocketManager.java:30-36 | succeeds exactly when the port is in 0..255 and unregistered; the port then maps to a wildcard-only set, and every peer finds the socket; on failure nothing changes; other ports never change |
| SocketManagement.SocketManager.AssignPeer | proj/SocketManager.java:38-46 | as written: succeeds exactly when the port is valid and has no entry for the peer; the port's whole set is then replaced by one holding only the peer, so every other peer finds nothing |
| SocketManagement.SocketManager.AssignPeerKeepingSet | proj/SocketManager.java:38-46 | corrected: the same success condition; the peer's entry is added to the port's existing set, so every other peer finds what it found before |
| SocketManagement.SocketManager.Deassign | proj/SocketManager.java:48-50 | true exactly when the port had a set; afterwards the port is unregistered and finds nothing; other ports unchanged |
| SocketManagement.FirstPeerHidesListener | proj/SocketManager.java:38-46 | a listener on a port, then the first peer registered there as written: another peer no longer reaches the listener |
| SocketManagement.FirstPeerKeepsListener | proj/SocketManager.java:38-46 | the same steps with the corrected registration: the peer reaches its socket and another peer still reaches the listener |
| SockServer.TCPSockServer.constructor | proj/TCPSockServer.java:6-9 | an empty backlog of the given capacity (at least 1) |
| SockServer.TCPSockServer.RemainingCapacity | proj/TCPSockServer.java:13 | the remaining capacity plus the size is the capacity |
| SockServer.TCPSockServer.IsBacklogFull | proj/TCPSockServer.java:13 | full exactly when the size equals the capacity |
| SockServer.TCPSockServer.PollBacklog | proj/TCPSockServer.java:12 | none on an empty backlog; otherwise removes and returns the oldest entry |
| SockServer.TCPSockServer.AddToBacklog | proj/TCPSockServer.java:14-19 | succeeds exactly when the backlog is below capacity, appending at the tail; a full backlog is unchanged; the size never exceeds the capacity |
| SockServer.SecondConnectionIsRefused | proj/TCPSockServer.java:14-19 | with capacity 1, a second add is refused and the first entry is the one polled |
| SockServerClient.PayloadsAppend | proj/TCPSockServerClient.java:33 | appending one segment appends its payload to the delivered bytes |
| SockServerClient.RunIsMaximalChain | proj/TCPSockServerClient.java:25-38 | the run the loop follows is a chain of adjacent segments starting next to the last segment, and the segment after it is not adjacent |
| SockServerClient.RunIsContiguous | proj/Segment.java:54-56 | a chain of adjacent segments covers one contiguous stretch of the stream, as long as its total payload |
| SockServerClient.Sentinel | proj/TCPSockServerClient.java:23 | the zero-length start segment ends exactly at the head's sequence number |
| SockServerClient.HeadIsAlwaysDelivered | proj/TCPSockServerClient.java:20-31 | starting from the sentinel, the lowest segment always belongs to the run |
| SockServerClient.FittingIsLongestFit | proj/TCPSockServerClient.java:33 | the payloads counted fit in the free space, and one more would not |
| SockServerClient.UnloadStep | proj/TCPSockServerClient.java:31-34 | delivering an adjacent head that fits keeps the loop's bookkeeping (bytes counted, bytes written, queue left) consistent |
| SockServerClient.UnloadStops | proj/TCPSockServerClient.java:26-27 | the loop leaves at an empty queue or a gap exactly when the whole run is delivered |
| SockServerClient.UnloadOverflows | proj/TCPSockServerClient.java:33 | a put that does not fit happens exactly when the run is longer than what fits |
| SockServerClient.TCPSockServerClient.constructor | proj/TCPSockServerClient.java:4-5 | an empty segment buffer and an empty 1024-byte read buffer |
| SockServerClient.TCPSockServerClient.BufferSegment | proj/TCPSockServerClient.java:8-10 | queues a DATA segment in order |
| SockServerClient.TCPSockServerClient.UnloadSegmentBuffer | proj/TCPSockServerClient.java:17-41 | 0 on an empty buffer; otherwise delivers the maximal adjacent run from the head in sequence order, appends exactly their payloads to the read buffer and returns their total size; leaves the rest queued; a run that does not fit ends in an overflow after what fits |
| SockServerClient.TCPSockServerClient.DeliverHead | proj/TCPSockServerClient.java:26-34 | one pass of the loop: a gap or an empty queue stops with nothing changed; an adjacent head is written and polled, or overflows with the queue unchanged |
| SockServerClient.Min | proj/TCPSockServerClient.java:45 | the definition is the contract: `Math.min` on ints |
| SockClientTimer.Abs | proj/TCPSockClientTimer.java:101 | the definition is the contract: `Math.abs` on the difference |
| SockServerClient.TCPSockServerClient.Read | proj/TCPSockServerClient.java:43-50 | as written: returns the smaller of the bytes written and len and copies the oldest bytes into buf at pos; afterwards the position is 0 and the limit is the count read |
| SockServerClient.TCPSockServerClient.ReadCompacting | proj/TCPSockServerClient.java:43-50 | corrected: the same result and copy; the unread bytes stay written, in order, and the limit returns to the capacity |
| SockServerClient.OneSegmentUnloads | proj/TCPSockServerClient.java:17-41 | a single segment that fits is delivered whole, and its size is reported |
| SockServerClient.PartialReadLosesTheRest | proj/TCPSockServerClient.java:43-50 | as written: 10 bytes unloaded, 4 read, and a second read finds 0 |
| SockServerClient.PartialReadKeepsTheRest | proj/TCPSockServerClient.java:43-50 | corrected: 10 bytes unloaded, 4 read, and a second read returns the other 6; the two reads return the 10 bytes in order |
| SockClient.TCPSockClient.constructor | proj/TCPSockClient.java:17-24 | the next sequence number is the initial one in 0..2^16-1 and the send base equals it; the window is twice the maximum payload; no FIN; timer stopped with a 200 ms delay; empty queue |
| SockClient.TCPSockClient.StartTimer | proj/TCPSockClient.java:26-49 | a queue whose least sequence number reads -1 (empty, or a head numbered -1), or a callback that cannot be built, arms nothing and changes nothing; otherwise one timer of 200 ms carrying the least queued sequence number is armed and the timer runs |
| SockClient.TCPSockClient.StopTimer | proj/TCPSockClient.java:50 | the timer is not running |
| SockClient.TCPSockClient.IsTimerRunning | proj/TCPSockClient.java:51 | the definition is the contract: the running flag |
| SockClient.TCPSockClient.AddToTimerQueue | proj/TCPSockClient.java:53-55 | queues a segment of the given type, adding exactly it to the multiset |
| SockClient.TCPSockClient.PruneTimerQueue | proj/TCPSockClient.java:56-60 | removes the prefix polled while the least sequence number is not -1 and below n; without -1 in the queue it keeps exactly the segments at or above n |
| SockClient.PruneKeepsExactlyAbove | proj/TCPSockClient.java:56-60 | on an ordered queue without -1, a segment is kept exactly when it was queued and is at or above n |
| SockClient.TCPSockClient.PeekTimerQueue | proj/TCPSockClient.java:61 | none exactly when the queue is empty; otherwise a queued segment of least sequence number |
| SockClient.TCPSockClient.IncNextSeqNum | proj/TCPSockClient.java:69 | the next sequence number grows by exactly the amount; nothing else changes |
| SockClient.TCPSockClient.SetNextSeqNum | proj/TCPSockClient.java:70 | sets only the next sequence number, with no ordering against the send base |
| SockClient.TCPSockClient.SetSendBase | proj/TCPSockClient.java:71 | sets only the send base |
| SockClient.TCPSockClient.SetWindowSize | proj/TCPSockClient.java:72 | sets only the window size |
| SockClient.TCPSockClient.SetSeqNumFIN | proj/TCPSockClient.java:73 | sets only the FIN sequence number |
| SockClient.AckThenRearm | proj/TCPSockClient.java:26-60 | three queued segments, an ACK for 300, then the timer: only 300 stays queued and the timer armed carries 300 |
| SockClientTimer.TruncToInt | proj/TCPSockClientTimer.java:102 | the (int) cast truncates toward zero, for both signs |
| SockClientTimer.Recalculate | proj/TCPSockClientTimer.java:99-104 | the estimator's update, gains 1/8 and 1/4, deviation against the new estimate, timeout truncated; RecalculateBounds and FoldStaysWithin state its bounds |
| SockClientTimer.RecalculateBounds | proj/TCPSockClientTimer.java:99-104 | one update moves the estimate between the old estimate and the sample, keeps the deviation non-negative, and sets a timeout at least the truncated estimate |
| SockClientTimer.FoldStaysWithin | proj/TCPSockClientTimer.java:92-95 | feeding samples within a range keeps an estimate that starts in the range inside it, with a non-negative deviation |
| SockClientTimer.FoldStep | proj/TCPSockClientTimer.java:92-95 | feeding one more sample is one more update |
| SockClientTimer.SampleMapSpec | proj/TCPSockClientTimer.java:78-89 | the map has a key for each polled sequence number; one polled once maps to its RTT sample, one polled two or more times maps to -1 |
| SockClientTimer.SampleMapStep | proj/TCPSockClientTimer.java:83-88 | one polled segment updates the map by the two puts |
| SockClientTimer.TCPSockClientTimer.constructor | proj/TCPSockClientTimer.java:5-17 | timeout and estimated RTT 1000, deviation 0, not running, empty queue, nothing armed or resent |
| SockClientTimer.TCPSockClientTimer.Timeout | proj/TCPSockClientTimer.java:19-39 | an empty queue stops the timer and sends nothing; otherwise the head's type, sequence number and payload are resent, it stays queued, and the timer is started; the seqNum argument plays no part |
| SockClientTimer.TCPSockClientTimer.Start | proj/TCPSockClientTimer.java:41-65 | a queue whose least sequence number reads -1 (empty, or a head numbered -1), or a callback that cannot be built, changes nothing; otherwise one timer of timeoutInterval carrying the least queued sequence number is armed and the timer runs |
| SockClientTimer.TCPSockClientTimer.Stop | proj/TCPSockClientTimer.java:66 | the timer is not running |
| SockClientTimer.TCPSockClientTimer.IsRunning | proj/TCPSockClientTimer.java:67 | the definition is the contract: the running flag |
| SockClientTimer.TCPSockClientTimer.AddToQueue | proj/TCPSockClientTimer.java:69-71 | queues a segment of the given type, adding exactly it to the multiset |
| SockClientTimer.TCPSockClientTimer.PeekQueue | proj/TCPSockClientTimer.java:97 | none exactly when the queue is empty; otherwise the head, of least sequence number |
| SockClientTimer.TCPSockClientTimer.RecalculateTimeoutInterval | proj/TCPSockClientTimer.java:99-104 | the state after one sample is the estimator's update of the state before |
| SockClientTimer.TCPSockClientTimer.PollAcked | proj/TCPSockClientTimer.java:80-89 | removes the prefix below n and returns the map the two puts build from it |
| SockClientTimer.TCPSockClientTimer.FeedSamples | proj/TCPSockClientTimer.java:91-95 | feeds each map value other than -1 exactly once, in some iteration order, and nothing else |
| SockClientTimer.TCPSockClientTimer.PruneQueue | proj/TCPSockClientTimer.java:74-96 | removes the prefix polled while the least sequence number is not -1 and below n; the estimator is fed, once each, exactly the sequence numbers whose map value is not -1, none for one polled twice; when no polled segment is newer than `now`, the fed numbers are exactly those polled once; with nothing polled the estimate is unchanged |
| SockClientTimer.KarnFeedsPolledOnce | proj/TCPSockClientTimer.java:78-95 | when no polled segment is newer than `now`, a sequence number has a map value other than -1 exactly when it was polled once |
| Sockets.TCPSock.constructor | proj/TCPSock.java:28-49 | a new socket is unbound, of no type, and has sent nothing |
| Sockets.TCPSock.Passive | proj/TCPSock.java:51-67 | established, a server-side client, the peer's sequence number plus one and its window; it has sent exactly one ACK carrying that number |
| Sockets.TCPSock.CanBind | proj/TCPSock.java:268 | the definition is the contract: the state is UNBOUND |
| Sockets.TCPSock.CanListen | proj/TCPSock.java:269 | the definition is the contract: the state is BOUND |
| Sockets.TCPSock.CanConnect | proj/TCPSock.java:270 | the definition is the contract: the state is BOUND |
| Sockets.TCPSock.IsListening | proj/TCPSock.java:271 | the definition is the contract: the type is SERVER_LISTENER |
| Sockets.TCPSock.IsServerClient | proj/TCPSock.java:272 | the definition is the contract: the type is SERVER_CLIENT |
| Sockets.TCPSock.IsClient | proj/TCPSock.java:273 | the definition is the contract: the type is CLIENT |
| Sockets.TCPSock.IsConnectionPending | proj/TCPSock.java:118 | the definition is the contract: the state is SYN_SENT |
| Sockets.TCPSock.IsClosed | proj/TCPSock.java:119 | the definition is the contract: the state is CLOSED |
| Sockets.TCPSock.IsConnected | proj/TCPSock.java:120 | the definition is the contract: the state is ESTABLISHED |
| Sockets.TCPSock.IsClosurePending | proj/TCPSock.java:121 | the definition is the contract: the state is SHUTDOWN |
| Sockets.TCPSock.Close | proj/TCPSock.java:154-156 | a stub: it modifies nothing |
| Sockets.TCPSock.Release | proj/TCPSock.java:161-163 | a stub: it modifies nothing |
| Sockets.TCPSock.Bind | proj/TCPSock.java:77-87 | succeeds exactly from UNBOUND on a port the table accepts; the socket is then BOUND to the port and is its wildcard; on failure -1 and nothing changes |
| Sockets.TCPSock.Listen | proj/TCPSock.java:94-105 | succeeds exactly from BOUND: LISTEN, a listener, with a new empty backlog of the given capacity; otherwise -1 and nothing changes |
| Sockets.TCPSock.Accept | proj/TCPSock.java:112-116 | none unless a listener; otherwise the oldest pending connection, removed, or none when there is none |
| Sockets.TCPSock.Connect | proj/TCPSock.java:130-149 | succeeds exactly from BOUND: one SYN carrying the initial number is sent; then the next number is one more, the window twice the maximum payload, SYN_SENT, a client; otherwise -1 and nothing changes |
| Sockets.TCPSock.Write | proj/TCPSock.java:175-178 | always fails with -1 |
| Sockets.TCPSock.Read | proj/TCPSock.java:190-193 | always fails with -1 |
| Sockets.TCPSock.Receive | proj/TCPSock.java:197-222 | a listener handles SYNs only, with the effect of receiveSYN; a client in SYN_SENT becomes ESTABLISHED on any ACK, with no sequence-number check; everything else changes nothing |
| Sockets.TCPSock.ReceiveSyn | proj/TCPSock.java:224-236 | a full backlog refuses the SYN and creates nothing; otherwise a passive socket for the peer is created; it is queued exactly when the port table registers it, and the port's whole set is then replaced by one holding only that peer, so every other peer (the listener's wildcard included) finds nothing; the backlog never exceeds its capacity |
| Sockets.TCPSock.ReceiveSynKeepingSet | proj/TCPSock.java:224-236 | corrected registration: the same refusal, creation and queueing; the peer's entry is added to the port's set, so every other peer finds what it found before |
| Sockets.TCPSock.Send | proj/TCPSock.java:253-261 | appends one segment from this socket's port to the peer to what was sent |
| Sockets.ListenerAcceptsOne | proj/TCPSock.java:197-236 | a listener with backlog 1: the first SYN is accepted as an established connection that has acknowledged it; a second SYN is refused; afterwards the port answers the first peer with its socket and any other peer with nothing, not even the listener |
| Sockets.ListenerKeepsServing | proj/TCPSock.java:224-236 | with the corrected registration, after the first connection the port answers that peer with its socket and any other peer with the listener |
| Sockets.ClientConnects | proj/TCPSock.java:130-149 | bind, connect and the ACK: the socket is connected, has sent one SYN, and its next sequence number is one past it |
| ByteBuffers.ByteBuffer.Allocate | proj/TCPSockServerClient.java:5 | an empty buffer in write mode with the limit at the capacity |
| ByteBuffers.ByteBuffer.Remaining | proj/TCPSockServerClient.java:45 | the definition is the contract: the room between the position and the limit |
| ByteBuffers.ByteBuffer.Put | proj/TCPSockServerClient.java:33 | succeeds exactly when the bytes fit before the limit, appending them after what was written; otherwise nothing changes |
| ByteBuffers.ByteBuffer.Flip | proj/TCPSockServerClient.java:44 | the limit becomes the position and the position 0 |
| ByteBuffers.ByteBuffer.Get | proj/TCPSockServerClient.java:46 | copies the bytes at the position into the destination range and advances the position |
| ByteBuffers.ByteBuffer.Compact | proj/TCPSockServerClient.java:43-50 | the unread bytes move to the front and stay written; the limit returns to the capacity |

## Left out

- The TCP manager (`proj/TCPManager.java`) is not part of this model. It only delegates to the port table, and to the network and timer services. Its `bind` returns a boolean where the table returns an int, and it calls an `unassign` that the table does not have. The model uses the table's int result directly.
- Network I/O, the wire format and `Transport.pack` are not modelled. A send appends the segment's header fields and payload to a ghost log. `Transport.java` and `Node` are not part of this model. The constants are assumed to be MAX_PORT_NUM = 255 and MAX_PAYLOAD_SIZE = 107.
- Logging and console output are left out.
- The wall clock is a parameter `now`. An RTT sample is `now - startTime`. One pruning pass reads the clock once, for all the segments it polls.
- The -1 sentinel is modelled as the Java uses it, so a genuine -1 collides with it. A segment numbered -1 at the head reads as an empty queue to `peekSeqNum`, so pruning, `StartTimer` and `Start` stop there. A sample of -1, which needs `now` one below the segment's `startTime` (the clock stepping back), reads as "polled twice" and is not fed. `KarnFeedsPolledOnce` and `PruneQueue` state the Karn outcome only for segments no newer than `now`.
- The random initial sequence numbers are a parameter, required to lie in 0..2^16-1.
- Timer callbacks built by reflection are modelled as an entry appended to a ghost list of armed timers (delay and sequence number). The exception path is a boolean parameter `created`. Timer expiry itself is not modelled; `Timeout` is the callback's body. The `TCPSock` class shown declares only a private `timeout()` without parameters (proj/TCPSock.java:264), so the lookup of `timeout` with an `Integer` parameter in `startTimer` (proj/TCPSockClient.java:37) finds nothing there, and with that class `created` is always false in `TCPSockClient.StartTimer` (and in `AckThenRearm`); `created` is left free so that the contract also covers a socket class that does declare the callback.
- `TCPSockClientTimer` calls `client.send`, which `TCPSockClient` does not define; the timer's `client` field is not modelled. A resend is recorded in a ghost log.
- Java `int` overflow is not modelled; integers are unbounded.
- The RTT estimator uses exact real arithmetic instead of IEEE doubles; `(int)` truncation is modelled exactly.
- The order in which `HashMap.values()` is iterated is not determined. `FeedSamples` picks any order, and its contract holds for every order.
- The priority queue's order among segments with equal sequence numbers is not modelled. A tie is queued after the equal keys, which the Java does not promise.
- Getters are plain field reads and have no members of their own; the `is*`/`can*` guards and the one-line predicates are listed in the table with their definitions as contracts.
- `TCPSock.dummy` is treated as an empty payload.
- Sockets.TCPSock.Listen: requires a capacity of at least 1 from a bound socket. With a smaller capacity the Java queue constructor throws after the state has already been set to LISTEN and the type to SERVER_LISTENER, so the socket is left a listener with no backlog, and its next SYN throws NullPointerException in receiveSYN; the model does not capture that state.
- The unused `serverClientAddresses` set and the never-called `appendToBacklog` are left out. So are the private `timeout` stub of `TCPSock` and the `close`/`release` stubs, which have no behaviour. `Close` and `Release` exist as empty methods.
- A passive socket's own port is never set (it stays 0), as in the Java; its ACK is sent from port 0.
- Sockets.TCPSock.ReceiveSyn: the dispatch of segments to sockets by the TCP manager is not modelled, so the scenarios call the listener directly; the effect of the lost wildcard entry is stated on the port table (`Find`).
- Segments.Buffer.Peek: for a queue with ties, it promises only some segment of least sequence number, as the Java does.
- SockServer.TCPSockServer.constructor: requires a capacity of at least 1, since `ArrayBlockingQueue` throws IllegalArgumentException below that. Nothing in the source constructs this class, so no reachable behaviour is lost.
- Segments.Segment: the payload is an immutable sequence, taken by value, where the Java keeps a reference to the caller's `byte[]`. Nothing in the model's scope changes a payload after it is queued, so aliasing is not captured and no behaviour depends on it.
- SockServerClient.TCPSockServerClient.UnloadSegmentBuffer: the overflow is an error outcome (`Overflowed`) instead of an exception.
- SockServerClient.TCPSockServerClient.Read: requires a non-negative `pos` and `len` and the destination range to fit in `buf`. A negative `len` makes `Math.min` negative, and `get` then throws as well. Java throws from `get` when it does not, and by then the first flip has already run, leaving the limit at the old position and the position at 0; the model does not capture that state.

## Findings

| source | as written | input that shows it | evidently intended | confidence | as-written member | corrected member |
|---|---|---|---|---|---|---|
| proj/SocketManager.java:38-46 | registering a peer replaces the port's whole set with one holding only that peer | socket 1 assigned to port 80 as its listener, then socket 2 registered for peer (5, 6) on port 80: peer (7, 9), which found socket 1 before, now finds no socket | add the peer's entry to the port's existing set, keeping the listener's wildcard | high, not executed | SocketManagement.FirstPeerHidesListener | SocketManagement.FirstPeerKeepsListener |
| proj/TCPSockServerClient.java:43-50 | after a partial read the second flip sets position 0 and limit to the count read, so the unread bytes are lost and the buffer shrinks | 10 bytes unloaded, read with len 4: a second read returns 0 instead of the other 6 | compact the buffer, keeping the unread bytes | high, not executed | SockServerClient.PartialReadLosesTheRest | SockServerClient.PartialReadKeepsTheRest |
