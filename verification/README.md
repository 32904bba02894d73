# Verified model of the reechat_base transport

reechat_base carries length-prefixed packets between threads and hosts: a user thread writes packets
into a lock-free byte ring, a network event loop drains the ring into a socket, the peer's network loop
fills another ring from its socket, and a worker event loop parses that ring into packets. This project
models that pipeline, the event loops under it, the growable socket buffer and the reconnecting client
task, and proves what they keep over every run.

| file | what it models |
|---|---|
| `Words.dfy`, `Sequences.dfy` | wrapping 32-bit counters, bit masks, regrouping of concatenations |
| `RingBuffer.dfy` | the single-producer single-consumer ring as a class, refined to a FIFO of bytes |
| `RingProtocol.dfy` | the same ring with a reader and a writer interleaved at every load, byte copy and store |
| `Framing.dfy` | the packet format, its parser as a function, and why it is a prefix code |
| `TcpSocketWrapper.dfy` | sending, draining, reading and parsing as methods on two rings and a kernel socket |
| `Transport.dfy` | one connection end to end, as interleaved steps of four threads |
| `TransportWitnesses.dfy` | runs of it from the start that stall a send and close a healthy connection |
| `TransportProgress.dfy` | why its work never gets stuck on a healthy connection, ends, and delivers everything |
| `EventLoop.dfy` | the functor queue and wakeup byte as a class whose drain can be re-entered |
| `EventLoopProtocol.dfy` | the same queue with other threads queueing between any two steps |
| `Codec.dfy`, `SocketBuffer.dfy` | the growable buffer as a byte sequence, and its big-endian integers |
| `TcpClientTask.dfy` | the connect, verify and reconnect machine over any sequence of callbacks |

The classes are proved method by method against functions of their state. Concurrency is modelled by
state machines: `RingProtocol.RefinesFifo` shows that each ring is a FIFO whose fill a thread may
remember too low and never too high, also when it consumes several times on one old load or looks at
bytes and leaves them, as the parser does; `Transport` builds on exactly that. System calls are
nondeterministic: `send` and `read` move any nonzero number of bytes they may move, or fault.
`TcpClientTasks.TcpClientTask.Dispatch` ties the class to the function `Run`, so what is proved of every
run holds of every such object.

Safety comes with progress: `TransportProgress` shows that on a healthy connection some thread can always
work, that work comes to an end under every schedule, and that everything accepted has then arrived.

Where the code does less than one would expect, the model follows the code and states the exact
condition:

- `SendData` accepts buffers of fewer than three bytes. They do not arrive as packets
  (`Framing.SentPacketArrivesIff`).
- A packet accepted before the connection is up can stay in the ring with nothing left to send it
  (`Transport.StallsExactly`; from the start in `TransportWitnesses.FirstSendStalls`); the check that
  `TcpClientTask::SendData` makes is enough to rule this out (`Transport.DisciplineKeepsServed`).
- A full receive ring makes `read` ask for zero bytes, which closes a healthy connection: exactly then
  (`TcpSockets.TcpSocketWrapper.TryReadDataFromSocket`, `Transport.FullRingCloses`), and 256 ordinary packets
  with a late worker are enough (`TransportWitnesses.HealthyConnectionCloses`).
- `RingBuffer::AvailableRead` asserts that the ring is not full, although every other method allows a
  full ring. The model returns the outcome of the assertion.
- A drain re-entered by `StopInLoop` runs new functors before older ones of the enclosing batch
  (`EventLoopProtocol.OrderKeptIff`; a run that does is in `EventLoopProtocol.OrderCanBeLost`).
- `PipeEventWatcher::HandlerFn` keeps the result of `recv` in a `size_t`, so it also drains the queue
  when `recv` fails. This is harmless and modelled.
- Unreading does not undo a skip that emptied the buffer (`SocketBuffers.SocketBuffer.SkipThenUnread`).

## Model

| member | source | states |
|---|---|---|
| Words.AndMask | src/socket_buffer.cpp:311-318 | masking with a power of two minus one, bit by bit, is the remainder |
| Words.MaskOfTotal | src/socket_buffer.cpp:351 | a counter cut to 32 bits still selects the slot of the unbounded total |
| RingBuffers.IndexAdvance | src/socket_buffer.cpp:366-371 | advancing a wrapping counter moves its slot round the ring with at most one wrap, and index plus length stays below 2^32 |
| RingBuffers.TwoRuns | src/socket_buffer.cpp:342-358 | at most two contiguous windows, the second from cell 0, cover any part of the ring in order |
| RingBuffers.WindowExtends | src/socket_buffer.cpp:386-395 | bytes stored just past the contents extend the contents by exactly those bytes |
| RingBuffers.WriteKeeps | src/socket_buffer.cpp:386-394 | the two-part copy fills exactly the free cells at the write position and touches no unread byte |
| RingBuffers.RingBuffer.IsEmpty | src/socket_buffer.cpp:325-328 | equal counters mean exactly that no byte is unread |
| RingBuffers.RingBuffer.AvailableRead | src/socket_buffer.cpp:335-340 | the exact number of unread bytes; its own assertion holds if and only if the ring is not full |
| RingBuffers.RingBuffer.AvailableSeriesRead | src/socket_buffer.cpp:342-358 | the part of the contents before the end of the array |
| RingBuffers.RingBuffer.CurrentSeriesReadHead | src/socket_buffer.cpp:330-333 | from the head on, memory holds the front of the contents, and from cell 0 the rest |
| RingBuffers.RingBuffer.ConsumeSeriesReadLen | src/socket_buffer.cpp:366-371 | drops exactly the consumed bytes from the front |
| RingBuffers.RingBuffer.WriteContent | src/socket_buffer.cpp:373-398 | appends all of the content or, exactly when it does not fit, nothing |
| RingBuffers.RingBuffer.AvailableWrite | src/socket_buffer.cpp:400-405 | the exact number of free cells |
| RingBuffers.RingBuffer.CurrentSeriesWriteHead | src/socket_buffer.cpp:407-411 | the cell just past the contents |
| RingBuffers.RingBuffer.AvailableSeriesWrite | src/socket_buffer.cpp:413-428 | the free cells before the end of the array, zero exactly on a full ring |
| RingBuffers.RingBuffer.ConsumeSeriesWriteLen | src/socket_buffer.cpp:430-435 | publishes exactly the bytes that were stored at the write position |
| RingProtocol.CountersExact | src/socket_buffer.cpp:337-345 | after any number of laps of 2^32 the difference of the counters is the true fill and the masked counters are the true slots |
| RingProtocol.CopyHitsFreeCell | src/socket_buffer.cpp:386-394 | under interleaving, a copied-in byte never lands on an unread byte |
| RingProtocol.CopyReadsPublished | src/socket_buffer.cpp:360-364 | under interleaving, a copied-out byte is the next published byte |
| RingProtocol.StepKeeps | src/socket_buffer.cpp:335-435 | every step of either thread keeps the ring's invariant, also consuming again on an old load and giving up a copy |
| RingProtocol.RefinesFifo | src/socket_buffer.cpp:335-435 | only the counter stores change the abstract FIFO, a load reports it exactly, and what is remembered of one, also after consuming, only under-reports |
| RingProtocol.RunsAreFifo | src/socket_buffer.hpp:301-305 | over every run and schedule, with as many partial consumes and looks per load as the reader likes, the bytes taken are a prefix of the bytes published and the ring holds the difference |
| RingProtocol.PassesThrough | src/socket_buffer.cpp:330-398 | from any state between two calls, whatever fits can be written byte by byte and read out again, behind everything there was |
| Framing.WireForm | src/tcp_socket_wrapper.cpp:166-168 | the packet has the length of the buffer, its bytes after the header, and the length less two, cut to 16 bits, in the header |
| Framing.HeaderOctets | src/tcp_socket_wrapper.cpp:166-167 | the header is the payload length cut to 16 bits, its low octet first |
| Framing.ParseSound | src/tcp_socket_wrapper.cpp:332-387 | parsing loses and reorders nothing and stops only where no packet is complete, with at most 65536 bytes left unless a header is refused |
| Framing.ParseUnique | src/tcp_socket_wrapper.cpp:341-367 | there is only one way to cut a stream into packets and an incomplete rest |
| Framing.RoundTrip | src/tcp_socket_wrapper.cpp:155-171 | the concatenation of well-formed packets parses back to exactly those packets |
| Framing.ParseAppend | src/tcp_socket_wrapper.cpp:332-387 | two passes with bytes arriving in between deliver what one pass delivers |
| Framing.ChunkingIndependent | src/tcp_socket_wrapper.cpp:291-314 | however the stream is cut into reads and passes, deliveries and residue depend on the stream alone |
| Framing.ParsePrefix | src/tcp_socket_wrapper.cpp:332-387 | any initial part of a stream of packets parses to a prefix of them and meets no refused header |
| Framing.RejectedIsFinal | src/tcp_socket_wrapper.cpp:353-362 | after a refused header nothing more is ever delivered |
| Framing.SentPacketArrivesIff | src/tcp_socket_wrapper.cpp:155-168 | an accepted buffer arrives as the packet sent if and only if it has at least three bytes |
| TcpSockets.TcpSocketWrapper.SendData | src/tcp_socket_wrapper.cpp:155-171 | accepts exactly the packets that are short enough and fit with two bytes to spare, stamps the caller's buffer and queues its wire form last; a refusal changes nothing, a call off the network thread leaves the connection alone and queues one drain, a call on it drains at once |
| TcpSockets.TcpSocketWrapper.StampHeader | src/tcp_socket_wrapper.cpp:166-167 | turns the caller's buffer into its wire form and leaves the bytes after the header |
| TcpSockets.TcpSocketWrapper.SendDataWithHead | src/tcp_socket_wrapper.cpp:173-178 | queues all or nothing behind all earlier bytes, of a length cut to 32 bits, and reports success either way; then drains at once on the network thread, and elsewhere queues a drain |
| TcpSockets.TcpSocketWrapper.TryWriteBufferToSocket | src/tcp_socket_wrapper.cpp:267-288 | moves bytes to the kernel without loss or reordering up to the first refusal; closes exactly if that is an error with bytes left, and otherwise arms the write event exactly if bytes are left; it goes on while the kernel takes bytes and moves none when the first call is refused |
| TcpSockets.TcpSocketWrapper.SendSome | src/tcp_socket_wrapper.cpp:271-284 | what the kernel takes is what the ring drops |
| TcpSockets.TcpSocketWrapper.TryReadDataFromSocket | src/tcp_socket_wrapper.cpp:291-314 | moves bytes from the kernel to the ring and queues a pass exactly when there are any, room for them and no fault; closes exactly on an error, end of stream or full ring, with both events gone, and otherwise leaves the connection alone |
| TcpSockets.TcpSocketWrapper.ReadInto | src/tcp_socket_wrapper.cpp:294 | a read into the ring's free cells leaves its contents alone |
| TcpSockets.TcpSocketWrapper.OnErrorEvent | src/tcp_socket_wrapper.cpp:486-495 | both events are gone, the state is closed and one close signal is raised |
| TcpSockets.TcpSocketWrapper.TryProcessBufferedDataInWorkLoop | src/tcp_socket_wrapper.cpp:332-387 | delivers exactly the packets of `Parse`, keeps its rest, and raises one close signal exactly on a refused header |
| TcpSockets.TcpSocketWrapper.TryProcessOne | src/tcp_socket_wrapper.cpp:334-386 | delivers the first packet exactly if the ring has a complete one |
| TcpSockets.TcpSocketWrapper.ReadHeader | src/tcp_socket_wrapper.cpp:341-351 | reads the true header also where it straddles the end of the array |
| TcpSockets.TcpSocketWrapper.TakePacket | src/tcp_socket_wrapper.cpp:369-385 | takes the first bytes of the contents also where they straddle the end of the array |
| Transport.WriteNeverRefused | src/tcp_socket_wrapper.cpp:161-168 | the write after the room check never fails, whatever the network thread does in between |
| Transport.StepKeeps | src/tcp_socket_wrapper.cpp:155-387 | every step of all four threads keeps byte conservation from sender to parser, the parser's view of the ring, a drain window within the sender's ring, a read window within the receiver's array and its free cells, and a pass due for every complete packet or refused header of an open connection |
| Transport.DecideReadsTruth | src/tcp_socket_wrapper.cpp:335-385 | with two snapshots of different age the parser reads the true header and enters the split branches only where the array really ends, going on from cell 0 |
| Transport.DeliveredIsPrefix | src/tcp_socket_wrapper.cpp:332-387 | if all accepted packets have at least three bytes, the delivered packets are a prefix of them and no header is refused |
| Transport.ScheduleIndependent | src/tcp_socket_wrapper.cpp:291-387 | with no pass due, deliveries and residue are those of one parse of all bytes received, and the residue is below 65537 bytes unless a header is refused |
| Transport.FullRingCloses | src/tcp_socket_wrapper.cpp:293-298 | a read asks for zero bytes exactly on a full ring, and then can only close; the worker is then running or due, and between packets the ring begins with a complete one unless a header is refused, which no stream of packets of three bytes or more has |
| Transport.DisciplineKeepsServed | src/tcp_client_task.cpp:71-74 | if packets are accepted only on a connected socket, bytes in the sender ring always have someone due to drain them |
| Transport.StallsExactly | src/tcp_socket_wrapper.cpp:433-446 | the one step that can leave bytes with no one to drain them is the end of connecting, exactly when bytes were put in early and no drain is under way |
| TransportWitnesses.EarlySendStalls | src/tcp_socket_wrapper.cpp:433-446 | in any connecting state with no drain under way, any nonempty packet that is accepted can end up in the ring of a connected socket with no one due to drain it |
| TransportWitnesses.FirstSendStalls | src/tcp_socket_wrapper.cpp:433-446 | so from the start, with any nonempty packet as the first one sent |
| TransportWitnesses.HealthyConnectionCloses | src/tcp_socket_wrapper.cpp:293-298 | a run from the start, with disciplined senders, 256 packets of 65536 bytes and no failure, that leaves the receiver nothing to do but close because its ring is full |
| Transport.RunsKeep | src/tcp_socket_wrapper.cpp:310-313 | in every state of every run no complete packet, and no refused header of an open connection, waits without a pass due, and with disciplined senders no send is stalled |
| Transport.EndToEnd | src/tcp_socket_wrapper.cpp:155-387 | over every run deliveries are a prefix of accepted packets; with disciplined senders all of them, once a healthy connection falls quiet, which `TransportProgress` shows it does |
| Transport.NeverReused | src/tcp_socket_wrapper.cpp:433-495 | over every run a connection goes from not begun over connecting and connected to failed and never back, and a closed receiver stays closed |
| Transport.ClosedForGood | src/tcp_socket_wrapper.cpp:291-314 | over every run, once the receiver is closed and no read is under way, not a byte more is received |
| TransportProgress.WorkSpends | src/tcp_socket_wrapper.cpp:155-387 | every step of any thread that gets something done lowers a number, whatever the kernels do |
| TransportProgress.WorkerNeverStuck | src/tcp_socket_wrapper.cpp:332-387 | a queued pass can start and a pass under way can step, in every state |
| TransportProgress.NeverStuck | src/tcp_socket_wrapper.cpp:155-387 | a healthy connection with anything left to do has a working step that keeps it healthy |
| TransportProgress.WorkEnds | src/tcp_socket_wrapper.cpp:155-387 | no schedule has more working steps in a row than the number of its first state |
| TransportProgress.StuckMeansDelivered | src/tcp_socket_wrapper.cpp:155-387 | a healthy connection in which no working step is possible has delivered everything accepted |
| TransportProgress.EverythingCanArrive | src/tcp_socket_wrapper.cpp:155-387 | from every state of every disciplined run in which the connection is up on both sides, some continuation delivers everything accepted |
| TransportProgress.PacketsArrive | src/tcp_socket_wrapper.cpp:155-387 | any sequence of buffers of 3 to 65537 bytes can be sent from the start and arrives packet by packet, in order |
| EventLoops.EventLoop.QueueInLoop | src/event_loop.cpp:112-132 | queues last, counts, and leaves a wakeup due, also when the pipe is full |
| EventLoops.EventLoop.Notify | src/event_watcher.cpp:204-211 | afterwards there is a byte in the pipe, new or old |
| EventLoops.EventLoop.Stop | src/event_loop.cpp:90-96 | the status leaves running and the stop is queued last |
| EventLoops.EventLoop.RunInLoop | src/event_loop.cpp:103-110 | runs inline only on the running loop's own thread and loses no functor either way |
| EventLoops.EventLoop.DoPendingFunctors | src/event_loop.cpp:182-199 | runs each taken-over functor once, keeps the count exact, without a stop runs them in queue order, and calls the loop exit exactly once for each stop that runs |
| EventLoops.EventLoop.StopInLoop | src/event_loop.cpp:154-180 | terminates with an empty queue, having run everything queued, what other threads queued around the loop exit and everything that queued in turn, also from inside a batch, and calls the loop exit exactly once for each stop |
| EventLoops.EventLoop.HandlerFn | src/event_watcher.cpp:188-197 | drains also when `recv` fails, never strands a pending functor, and leaves the loop exactly if a stop ran |
| EventLoops.AllAppend | src/event_loop.cpp:112-117 | the functors accounted for by a queue are those of its parts |
| EventLoops.WorkAccount | src/event_loop.cpp:194-197 | running a functor turns its own account into what it queues, so the total strictly shrinks |
| EventLoopProtocol.StepKeeps | src/event_loop.cpp:112-199 | every step of every thread keeps: `notified_` exactly when functors are pending, no lost wakeup, each functor in one place, exact count, one loop exit for each stop that is past it |
| EventLoopProtocol.OrderKeptIff | src/event_loop.cpp:154-192 | queue order is lost exactly when a nested drain takes over functors while an enclosing batch still has some to call |
| EventLoopProtocol.OrderCanBeLost | src/event_loop.cpp:154-192 | a run from the start in which the third functor queued is called before the second |
| EventLoopProtocol.RunsKeep | src/event_loop.cpp:182-199 | the invariants over every run, and queue order in every run without a re-entered drain |
| EventLoopProtocol.ExactlyOnce | src/event_loop.cpp:186-197 | every functor is started, waiting in one batch or pending, and only one of these, so it is called at most once |
| EventLoopProtocol.StopHasDrained | src/event_loop.cpp:159-177 | when the stop returns, the loop exit has been called for it and every functor queued before its last look at the queue, after that call, was called or waits in an enclosing batch |
| EventLoopProtocol.StopsExit | src/event_loop.cpp:154-177 | once no stop is under way the loop exit has been called exactly once for each |
| EventLoopProtocol.NeverStuck | src/event_watcher.cpp:188-211 | while functors are pending the loop thread can step, and if it sleeps there is a byte to wake it |
| EventLoopProtocol.DrainTerminates | src/event_loop.cpp:159-167 | between two queueings every step of the draining loops lowers a well-founded measure |
| EventLoopProtocol.DrainingBounded | src/event_loop.cpp:159-192 | over any part of any run the number of draining steps is bounded by the state it starts in and by the functors queued, stops entered and wakeups received in it |
| EventLoopProtocol.DrainingEnds | src/event_loop.cpp:159-192 | a part of a run with draining steps alone is no longer than its first state allows |
| EventLoopProtocol.DrainingPaidFor | src/event_loop.cpp:112-192 | from the start, all draining steps are paid for by queueings, stops and wakeups: 6, 10 and 2 steps each |
| Codec.SwapInvolution | src/socket_buffer.hpp:107-115 | swapping bytes twice is the identity |
| Codec.StoresBigEndian | src/socket_buffer.cpp:116-137 | swapping and storing puts the most significant byte first |
| Codec.BigEndianDigits | src/socket_buffer.cpp:116-137 | the octets of an integer in that form are its digits in base 256, the most significant first |
| Codec.LoadInvertsStore | src/socket_buffer.hpp:164-183 | reading what was stored gives the integer back |
| Codec.StoreInvertsLoad | src/socket_buffer.hpp:164-183 | every octet string of the right width is the encoding of what it reads as |
| Codec.CodecRoundTrip | src/socket_buffer.cpp:183-216 | any mix of integer widths is read back exactly, whatever follows; `ReadItems` connects it to the buffer |
| Codec.AppendEachEncodes | src/socket_buffer.cpp:116-137 | the layout that appends one by one leave; `AppendItems` connects it to the buffer |
| Codec.PrependEachEncodes | src/socket_buffer.cpp:139-160 | the layout that prepends one by one leave, last in first; `PrependItems` connects it to the buffer |
| SocketBuffers.SocketBuffer.Skip | src/socket_buffer.cpp:44-51 | drops from the front; emptying the buffer resets the indices |
| SocketBuffers.SocketBuffer.Truncate | src/socket_buffer.cpp:58-66 | keeps the first n octets, or everything if there are fewer |
| SocketBuffers.SocketBuffer.Grow | src/socket_buffer.cpp:286-309 | keeps the contents and yields the room; the compacting branch's assertion holds |
| SocketBuffers.SocketBuffer.Reserve | src/socket_buffer.cpp:73-81 | does nothing or enlarges by a known amount, and never compacts |
| SocketBuffers.SocketBuffer.EnsureWritableBytes | src/socket_buffer.cpp:83-90 | yields the room asked for and keeps the contents, and changes nothing if the room is there |
| SocketBuffers.SocketBuffer.Write | src/socket_buffer.cpp:98-104 | appends exactly the octets given, through any growth, and in place if they fit |
| SocketBuffers.SocketBuffer.Prepend | src/socket_buffer.cpp:163-169 | puts exactly the octets given in front |
| SocketBuffers.SocketBuffer.UnwriteBytes | src/socket_buffer.cpp:171-175 | drops exactly the last octets |
| SocketBuffers.SocketBuffer.Next | src/socket_buffer.cpp:250-254 | drops from the front only what is there, and keeps the indices |
| SocketBuffers.SocketBuffer.ReadByte | src/socket_buffer.cpp:256-263 | takes the first octet, or returns zero and changes nothing on an empty buffer |
| SocketBuffers.SocketBuffer.UnreadBytes | src/socket_buffer.cpp:265-269 | puts the octets before the read index back in front |
| SocketBuffers.SocketBuffer.ToText | src/socket_buffer.cpp:92-96 | keeps the contents and terminates them with a zero |
| SocketBuffers.SocketBuffer.ReadFromFD | src/socket_buffer.cpp:223-248 | appends exactly the octets read: at most what fits, and 65536 more only if fewer than 65536 fit; the storage is replaced or compacted exactly if they do not fit, and an error changes nothing |
| SocketBuffers.SocketBuffer.SkipThenUnread | src/socket_buffer.cpp:265-269 | unreading restores the indices after a skip exactly if the skip left something or the buffer ended at the prepend space |
| SocketBuffers.SocketBuffer.NextThenUnread | src/socket_buffer.cpp:250-269 | unreading always undoes `Next` |
| SocketBuffers.SocketBuffer.AppendInt | src/socket_buffer.cpp:116-137 | appends the big-endian form |
| SocketBuffers.SocketBuffer.PrependInt | src/socket_buffer.cpp:139-160 | puts the big-endian form in front |
| SocketBuffers.SocketBuffer.PeekInt | src/socket_buffer.hpp:164-183 | the integer whose big-endian form the contents begin with |
| SocketBuffers.SocketBuffer.ReadInt | src/socket_buffer.cpp:183-216 | takes the big-endian form of its result off the front |
| SocketBuffers.SocketBuffer.AppendItems | src/socket_buffer.cpp:116-137 | any sequence of appended integers, of any widths and through any growth and compaction, adds exactly their encodings |
| SocketBuffers.SocketBuffer.PrependItems | src/socket_buffer.cpp:139-160 | any sequence of prepended integers that fits in front adds exactly their encodings, last first |
| SocketBuffers.SocketBuffer.ReadItems | src/socket_buffer.cpp:183-216 | any sequence of reads takes off the front what `ReadAll` takes, and re-encodes to it |
| SocketBuffers.SocketBuffer.AppendThenRead | src/socket_buffer.cpp:116-216 | on any buffer, integers appended behind what is there and before what follows come back exactly from the matching reads |
| SocketBuffers.SocketBuffer.PrependThenRead | src/socket_buffer.cpp:139-216 | prepended integers come back last in, first out, and leave the contents as they were |
| TcpClientTasks.TcpClientTask.OnCloseEvent | src/tcp_client_task.cpp:148-171 | the N-th failure in a row since a connection, and every later one, is reported and leaves no socket and no timer; an earlier one leaves the task unverified with its timer armed |
| TcpClientTasks.TcpClientTask.OnInternalPacket | src/tcp_client_task.cpp:122-137 | exactly a connection verified since the last reconnect parses the packet; otherwise it is verified and added, or the task is left with no socket and no timer |
| TcpClientTasks.TcpClientTask.ConnectToServer | src/tcp_client_task.cpp:109-120 | an armed timer gives the task a socket again with one connect, and never after a stop |
| TcpClientTasks.TcpClientTask.OnStopProcess | src/tcp_client_task.cpp:48-59 | nothing is left that could connect: no socket, no timer, none armed |
| TcpClientTasks.TcpClientTask.OnConnectEvent | src/tcp_client_task.cpp:139-146 | the failures in a row start over, the 30 s of the server start, and the connection stays as verified as it was |
| TcpClientTasks.TcpClientTask.BeginProcess | src/tcp_client_task.cpp:38-46 | the task begins unverified, with one connect made and a timer that is not armed |
| TcpClientTasks.TcpClientTask.OnScheduleEvent | src/tcp_client_task.cpp:86-102 | a hello is sent exactly when none has been or the last is at least 10 s old; the connection fails exactly when hellos are checked and the server's last one is more than 30 s old |
| TcpClientTasks.TcpClientTask.Dispatch | src/tcp_client_task.cpp:38-176 | under any sequence of callbacks the object stays in step with `Run`, so every run theorem below holds of its log |
| TcpClientTasks.ReconnectKeeps | src/tcp_client_task.cpp:154-171 | a failure reports and leaves no socket and no timer exactly from the N-th in a row on, and otherwise arms the timer if there is one |
| TcpClientTasks.RunKeeps | src/tcp_client_task.cpp:38-177 | the machine's invariant over every sequence of callbacks |
| TcpClientTasks.ParseIsVerified | src/tcp_client_task.cpp:122-137 | each parsed message follows a successful verification with no reconnect in between |
| TcpClientTasks.StoppedForGood | src/tcp_client_task.cpp:48-59 | after a stop there is no connecting and no arming of the timer |
| TcpClientTasks.ReconnectsBounded | src/tcp_client_task.cpp:154-160 | at most N - 1 re-arms between two resets of the round, and an error only after N failures in a row |
| TcpClientTasks.AddedOncePerConnection | src/tcp_client_task.cpp:122-171 | between two additions to the manager there is a reconnect |
| TcpClientTasks.VerifiedOncePerConnection | src/tcp_client_task.cpp:122-171 | between two successful verifications there is a reconnect |
| TcpClientTasks.RetriesExactly | src/tcp_client_task.cpp:154-171 | after a connection, k failures in a row arm the timer k times if k is below N, and from the N-th on each one is reported and the timer is gone |
| TcpClientTasks.ConnectsBounded | src/tcp_client_task.cpp:109-167 | over every run there is at most one connect for each arming of the timer, and the first one |
| TcpClientTasks.HelloKeepsAlive | src/tcp_client_task.cpp:86-102 | over any sequence of periodic checks and server hellos, the connection is kept if and only if each check finds a hello at most 30 s old |
| TcpClientTasks.ConnectionKeptAlive | src/tcp_client_task.cpp:98-145 | a new connection is kept if and only if each check finds it, or a later hello, at most 30 s old |
| TcpClientTasks.NoTimeoutWhileConnecting | src/tcp_client_task.cpp:98-171 | before the first connection, and between a failure and the next one, periodic checks report nothing |
| TcpClientTasks.FailureReconnects | src/tcp_client_task.cpp:109-171 | a failure that does not stop the task is followed by a connect when the timer fires |
| TcpClientTasks.NeverStranded | src/tcp_client_task.cpp:162-170 | over every run a task that has reconnected and not been stopped has its timer armed |
| TcpClientTasks.HellosPaced | src/tcp_client_task.cpp:86-96 | over every run hellos after the first one sent are at least 10 s apart, and each check that finds one due sends it |

## Left out

- Sockets, libevent, `readv`, clocks and the network: environment choices, with a FIFO byte stream, partial counts, EAGAIN and errors.
- Weak memory: the counters are sequentially consistent atomics and are modelled as such; `IsPendingQueueEmpty` reads without the lock and is one atomic step here.
- The byte order of the header and of word memory is fixed to little-endian.
- RingBuffers.RingBuffer.constructor: requires a power-of-two capacity up to 2^31, because the masks need it and the only users pass 2^24.
- Rings hold bytes as numbers and the socket buffer holds them as bit vectors, because the codec works on bits.
- TcpSockets.TcpSocketWrapper: an inline `RunInLoop` from the network thread is a parameter of `SendData` and `SendDataWithHead`; in `Transport` it is the schedule in which the queued drain runs next.
- The packet callback is always set and does not change the ring; `SignalReadPacket` being cleared by the callee is not modelled.
- `BeginListen`, `AcceptConnection`, socket options, `share_this_helper_` and object lifetimes: plumbing. Only the connection steps that set the state and the write event are modelled.
- EventLoops.EventLoop.StopInLoop: its assertion that the status is `kStopping` and the effect of `event_base_loopexit` beyond being called are not modelled; of other threads' functors only those queued around that call are in the class, and all in `EventLoopProtocol`.
- EventLoops.EventLoop.QueueInLoop: its assertion that a loop without a watcher is not running is not modelled.
- Codec: integers are bit patterns, so signed and unsigned readers of the same width are one member, and the four widths share `AppendInt`, `PrependInt`, `PeekInt` and `ReadInt`.
- SocketBuffers.SocketBuffer.Truncate: `size_t` overflow of an index plus a length is not modelled, here and in the growth arithmetic.
- `FindCRLF`, `FindEOL`, `PoolBuffer` and the string helpers: easy.
- `TcpServerTask`: a weaker copy of the client machine.
- TcpClientTasks.TcpClientTask.TryReconnectServerInner: `connect_round_` is unbounded here; the reconnect limit is fixed for the life of the task, and one failure may be reported by more than one close event.
