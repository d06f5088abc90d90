# RPC benchmark suite: models and proofs

The suite measures RPC stacks. Its own protocol, the socket bandwidth benchmark, sends a frame (two `u32`
sizes, a header, data) and waits until the header has come back. The server parses frames incrementally across
edge-triggered readiness events, with buffers that share memory, and dispatches events through raw addresses.
Around it stand asynchronous gRPC clients and servers, closed-loop Rust clients, a pseudo-random workload
generator and a throughput meter.

The files, bottom up:

- `Wire`, `EndpointSpec`: bytes, frames and streams of frames; the endpoint as a state machine over single
  system call results, with the invariant that holds at every system call and handler boundary.
- `Parser`, `Reply`: the incremental parser against a one-shot reading of the same bytes; the partial sends of
  a reply against the header that was received.
- `Echo`, `EchoProof`, `EchoRuns`: one client, two bounded byte channels and one endpoint, interleaved one
  system call at a time, any split of the bytes. Safety of every run is one invariant: what is in flight on each
  channel is a slice of the whole stream, and positions in the two streams say who is ahead.
- `EchoProgress`, `EchoNaps`, `EchoPileUp`: the same system with edge-triggered readiness. Wake-ups, deadlock freedom
  and a bound on the length of runs; and, for requests whose empty header lets the client run ahead, exactly when a
  wake-up is lost and exactly when a frame is swallowed by the one before it.
- `Sockets`, `Buffer`, `Client`, `Benchmark`, `Endpoint`, `EventLoop`: the program's objects, updated in place. `SendAll` and
  `RecvAll` under every schedule of short and failing calls; the client; the endpoint with its shared buffers,
  each handler of which is proved to take the steps of `EndpointSpec`; the event loop with its map of owners.
- `Powers`, `Lcg`, `Workload`: the generator has full period 2^32, and the exact mix of requests that follows.
- `Bits`, `Meter`: `x & -x`, rounding up to a power of two, the sampled meter.
- `Ledger`, `ClosedLoop`, `CompletionLoop`: the in-flight windows of the asynchronous clients.
- `ServerCalls`, `ServerLoop`: the self-replacing, self-deleting server calls under any interleaving of threads
  over queues, and the single-threaded server loop as code whose every `Proceed` is a run of those steps.

What the proofs found about the code:

- An owner buffer is replaced only when a size grows, and views take the owner's length. The endpoint therefore
  waits for the running maximum of each size. Some run completes every RPC if and only if both size sequences never
  decrease, for any sizes and channels of one byte and more; the benchmark itself repeats one message (`Benchmark`).
- At the first request that is smaller than its predecessor the endpoint wants more bytes than the frame has. If that
  request's header is nonempty, the client waits for its ack and every run hangs before the reply. If it is empty,
  `PushData` goes on, and the frames behind it can be swallowed: the endpoint then answers with their bytes, and a
  later ack can be wrong (`WrongAck`). `EchoesIff` and `RepliesInsideDropIff` say exactly when, at any capacity.
- With an empty header frames can also pile up without any size decreasing. An idle endpoint reads one frame per
  readable edge, and only the first RPC, which still has WRITABLE registered, re-arms the fd. Every run that cannot go
  on is complete if and only if there are at most two requests, or the second header is nonempty, or the inbound
  channel is too small to hold the last frame that the client sends without an answer together with the end of the
  frame before it: its last data byte, or its eight size bytes if it has no data. Otherwise that frame can stay unread
  and the client can hang (`AlwaysCompletesIff`, `NonDecreasingClientHangsIff`). A single byte already goes unnoticed,
  until more arrives, as soon as there is room for it behind that end (`NoLostWakeupIff`). No run goes on for ever,
  whatever the sizes and the capacities (`EveryRunIsBounded`).
- The read of the sizes blocks inside the handler. A peer that stops after one to seven bytes holds the only thread of
  the server, and every other connection waits (`HoldsTheLoopIff`).
- The listener is edge-triggered too and one event accepts one connection. If two connections come between two polls,
  one is left behind for good.
- The comment at `src/socket/poll.h:89` says level-triggered; the code registers edge-triggered, and the model
  follows the code.
- `endpoints_.erase(endpoint->fd())` runs after the fd has been set to -1 and erases nothing. Closed endpoints stay
  in the map, and alive, until their fd number is reused. Tokens stay safe all the same.
- The "1%" of the workload is 328 in 32768 over a full period, not 327.68.
- A negative sample request gives a meter that never reads the clock.
- The closed-loop client panics on `unwrap` only with concurrency 0, and its last line underflows exactly for a
  run that did not finish its warm-up.

## Model

| member | source | states |
|---|---|---|
| Wire.U32RoundTrip | src/socket/socket_bw_app.cc:41-43 | a stored size reads back modulo 2^32, so exactly when it is below 2^32 |
| Wire.U32Canonical | src/socket/bw_server_endpoint.cc:84-91 | any four bytes are the encoding of the size they decode to |
| Wire.MetaRoundTrip | src/socket/socket_bw_app.cc:41-43 | both sizes survive the wire if and only if both fit in 32 bits |
| Wire.FrameRoundTrip | src/socket/socket_bw_app.cc:40-51 | decoding a frame followed by anything gives the request and that rest if and only if the sizes fit |
| Wire.MessageAt | src/socket/socket_bw_app.cc:45-51 | cutting the client's whole stream at the positions of message n gives message n |
| EndpointSpec.StepKeepsInv | src/socket/bw_server_endpoint.cc:49-182 | every system call result keeps it: replying iff one reply is queued, the data-received state is never seen at a boundary, cursors stay within their messages, a pending reply at a boundary has WRITABLE registered |
| EndpointSpec.ReceiveAdvances | src/socket/bw_server_endpoint.cc:83-143 | a receive appends exactly its bytes, sizes are read once, owners only grow, a reply is queued whole |
| EndpointSpec.MetaRunAll | src/socket/bw_server_endpoint.cc:83-108 | any splitting of the eight size bytes, with any would-blocks between, ends in the same allocation |
| ParserRefinement.ParserRefinesOneShot | src/socket/bw_server_endpoint.cc:83-143 | for every splitting into receives the endpoint is replying exactly when the one-shot reading of the concatenated bytes is complete, and with the same header and data |
| ParserRefinement.ParserDecodesFrame | src/socket/bw_server_endpoint.cc:90-143 | it extracts the encoded request if and only if neither size is below its owner's length |
| ParserRefinement.HoldsTheLoopIff | src/socket/bw_server_endpoint.cc:83-88 | the blocking read of the sizes holds the server's one thread exactly as long as the peer neither closes nor completes the eight bytes |
| ReplyIntegrity.RepliesWithTheHeader | src/socket/bw_server_endpoint.cc:145-182 | over any number of handler calls and partial sends the bytes sent concatenate to the received header; while a reply is under way a part of a nonempty header is still to go, and the RPC is over with all of it out |
| EchoSystem.OwnersAreMaxima | src/socket/bw_server_endpoint.cc:93-104 | owner lengths are the maxima of the sizes announced so far, and are attained |
| EchoCorrect.AckIsHeader | src/socket/socket_bw_app.cc:58-66 | an ack read in full is the header sent, and it comes only for requests the client can get past |
| EchoCorrect.HoldsTheFrame | src/socket/bw_server_endpoint.cc:145-153 | while a reply is queued the endpoint holds exactly the frame of its request |
| EchoCorrect.StepKeeps | src/socket/bw_server_endpoint.cc:49-182 | every step of client, endpoint or kernel keeps the stream invariant, on the whole domain of the echo |
| EchoRuns.RunKeeps | src/socket/socket_bw_app.cc:32-68 | so does every run of any interleaving and segmentation |
| EchoRuns.EchoIsCorrect | src/socket/socket_bw_app.cc:32-68 | in every run of the domain the i-th ack is the i-th header and the endpoint has extracted exactly the frames sent, in order |
| EchoPileUp.EchoesIff | src/socket/bw_server_endpoint.cc:90-104 | that domain is exact, for channels of one byte and more: some run fails to echo if and only if a request smaller than its predecessor can be completed with bytes of the frames behind it |
| EchoRuns.ChannelsEmptyBetweenRpcs | src/socket/socket_bw_app.cc:57-67 | between RPCs both channels are empty and the endpoint has consumed exactly the acknowledged frames |
| EchoRuns.WaitsForRunningMaxima | src/socket/bw_server_endpoint.cc:90-104 | in every run of the domain the awaited lengths are the running maxima of the announced sizes |
| EchoRuns.FirstDropHangs | src/socket/bw_server_endpoint.cc:90-104 | if some size decreases and the domain condition holds, the endpoint never replies to the first such request and the client gets no further than the next nonempty header |
| EchoRuns.HeaderAtDropStarves | src/socket/socket_bw_app.cc:57-67 | the domain condition holds whenever the first smaller request has a nonempty header |
| EchoPileUp.RepliesInsideDropIff | src/socket/bw_server_endpoint.cc:90-153 | for channels of one byte and more, some run answers the first smaller request if and only if the bytes the client can send without an answer reach as far as the owners' lengths ask |
| EchoCorrect.StepKeepsOrSwallows | src/socket/bw_server_endpoint.cc:83-143 | whatever the sizes, a step keeps the stream invariant or answers the first smaller request with bytes of later frames, and the latter only outside the domain |
| EchoPileUp.WrongAck | src/socket/bw_server_endpoint.cc:90-153 | an input and a run in which all RPCs return and the third ack is a byte that is not its header |
| EchoRuns.HandlerIsARun | src/socket/bw_server_endpoint.cc:49-182 | the endpoint state a handler leaves, for any results the channels allow, is one reached by a run of the system |
| EchoProgress.WakeKeeps | src/socket/bw_server_endpoint.cc:155-182 | every step from a state where nothing has piled up behind a reply keeps the wake-up invariant: outside handlers, unread input or room for an unsent reply is covered by an edge or a pending handler call |
| EchoProgress.NoLostWakeup | src/socket/poll.h:84-99 | in every run of a client that waits from its second request on, a quiet endpoint has nothing unread, and an unfinished reply has WRITABLE registered and no room to go on |
| EchoProgress.NextCallWakes | src/socket/poll.h:84-99 | the client call a quiet endpoint is waiting for raises an edge that reports the right readiness |
| EchoProgress.MeasureFalls | src/socket/bw_server_endpoint.cc:49-182 | whatever the sizes and the capacities, every step that changes the state lowers a measure of the bytes still to move, the RPCs still to return and the handler work left |
| EchoProgress.Progress | src/socket/socket_bw_app.cc:45-58 | deadlock freedom, in every state with the wake-up invariant: until every RPC is served and the endpoint quiet, some state-changing step is enabled, down to channels of one byte |
| EchoProgress.EveryRunIsBounded | src/socket/socket_bw_app.cc:32-68 | for any sizes, headers and capacities, a run whose steps all change the state is no longer than a bound in the bytes and requests |
| EchoProgress.EveryRunCompletes | src/socket/socket_bw_app.cc:32-68 | with non-decreasing sizes, and a client that waits for every ack from its second request on or makes at most two, a run that cannot go on has served and returned every RPC |
| EchoPileUp.AlwaysCompletesIff | src/socket/bw_server_endpoint.cc:155-182 | for non-decreasing sizes and every capacity, each stuck run is complete if and only if there are at most two requests, or the second header is nonempty, or the inbound channel is too small for the last frame the client sends without an answer together with the end of the frame before |
| EchoPileUp.CompletesInBound | src/socket/socket_bw_app.cc:32-68 | under that condition every run of state-changing steps is bounded and, once stuck, complete |
| EchoPileUp.NoLostWakeupIff | src/socket/bw_server_endpoint.cc:155-182 | for non-decreasing sizes and every capacity, a quiet endpoint never has anything unread if and only if there are at most two requests, or the second header is nonempty, or the inbound channel has no room for one byte behind the end of the frame before the last one that the client sends without an answer |
| EchoPileUp.ByteGoesUnread | src/socket/bw_server_endpoint.cc:155-182 | with that room a run leaves a byte unread in front of a quiet endpoint |
| EchoNaps.DrowsyKeeps | src/socket/bw_server_endpoint.cc:49-182 | every step keeps the account behind it: without an edge, what is unread was in the channel together with what the handler call has read |
| EchoNaps.NoRoomForNaps | src/socket/bw_server_endpoint.cc:155-182 | with a channel below that size every stuck run is complete |
| EchoPileUp.PiledUpFramesAreLost | src/socket/bw_server_endpoint.cc:155-182 | from that size on, with two empty headers and a third request, a run gets stuck with that frame unread, and the client hangs if the last header is nonempty |
| EchoPileUp.NonDecreasingClientHangsIff | src/socket/socket_bw_app.cc:57-67 | an input of three requests whose client can hang from eleven bytes of channel on, and not below |
| EchoProgress.CompletesIffNonDecreasing | src/socket/bw_server_endpoint.cc:90-104 | for any sizes that fit and channels of one byte and more, some run serves and returns every RPC if and only if both size sequences never decrease |
| Sockets.TcpSocket.SendAll | src/socket/socket.h:219-233 | for every schedule exactly the first n bytes are sent, in order, and n falls short exactly when a call failed |
| Sockets.TcpSocket.RecvAll | src/socket/socket.h:235-251 | for every schedule exactly the next n bytes are stored, in order, nothing else is touched, and n falls short only on an error or at the end of the stream |
| Buffers.Buffer.View | src/socket/buffer.h:51-52 | a view shares memory, size and message length and starts unread |
| Buffers.Buffer.RemainSize | src/socket/buffer.h:63 | the 32-bit difference is the exact number of bytes left, never wrapped |
| Buffers.Buffer.MarkHandled | src/socket/buffer.h:67 | the cursor moves by n and stays within the message |
| Client.SocketBwClientApp.PushData | src/socket/socket_bw_app.cc:32-68 | writes exactly one frame and reads exactly one ack, or says which side broke off |
| Client.SocketBwClientApp.Run | src/bw_app.cc:12-48 | sends a whole number of copies of one frame, stops at the first clock reading past the duration, and counts and meters the messages whose header has been read back; every round counts unless a call fails or the peer delivers too little |
| Benchmark.LoopSendsTheStream | src/bw_app.cc:19-30 | what the client's loop has sent after n rounds is the stream of a configuration of n equal requests |
| Benchmark.BenchmarkEchoes | src/bw_app.cc:19-30 | one message repeated is in the domain: every run of the benchmark echoes |
| Benchmark.BenchmarkCompletes | src/bw_app.cc:19-30 | and with its nonempty header every run is bounded and ends complete |
| Endpoint.BwServerEndpoint.constructor | src/socket/bw_server_endpoint.cc:15-32 | a new endpoint is in the initial state, registered for both directions |
| Endpoint.BwServerEndpoint.ReceiveMeta | src/socket/bw_server_endpoint.cc:83-108 | the object's receive of the sizes is a run of the specification and either allocates or gives up |
| Endpoint.BwServerEndpoint.ReceiveHeader | src/socket/bw_server_endpoint.cc:110-122 | one receive into the shared header memory, with the same bytes as the specification and the same answer |
| Endpoint.BwServerEndpoint.ReceiveData | src/socket/bw_server_endpoint.cc:124-143 | the same for data, with the reply view made exactly when the data is complete and still holding the header; it ends the process only on a failed receive |
| Endpoint.BwServerEndpoint.Reply | src/socket/bw_server_endpoint.cc:145-153 | queues the view and sends; the object is back at a valid handler boundary |
| Endpoint.BwServerEndpoint.SendFront | src/socket/bw_server_endpoint.cc:158-169 | what goes out of the shared memory is the next part of the header received |
| Endpoint.BwServerEndpoint.OnSendReady | src/socket/bw_server_endpoint.cc:155-182 | the send loop is a run of the specification, keeps the interest set and the kernel's copy equal, makes exactly the re-registrations of that run, and ends the process only on a failed call, which is its last |
| Endpoint.BwServerEndpoint.OnRecvReady | src/socket/bw_server_endpoint.cc:49-81 | a readable event takes the object from one valid boundary state to the one the specification reaches with the same system call results and the same re-registrations; it ends the process only on a failed call, which is its last |
| Endpoint.BwServerEndpoint.OnWritable | src/socket/socket_bw_app.cc:124-126 | the same for a writable event |
| EventLoop.EraseIsNoOp | src/socket/socket_bw_app.cc:128-131 | failing an endpoint removes nothing from the map and the closed object stays alive |
| EventLoop.AcceptEffect | src/socket/socket_bw_app.cc:70-75 | releasing the overwritten endpoint closes no socket and unregisters nothing |
| EventLoop.KernelBatchesAreReported | src/socket/socket_bw_app.cc:99-106 | at most one event per fd is enough for a batch of distinct safe tokens |
| EventLoop.PendingTokensAreSafe | src/socket/socket_bw_app.cc:104-132 | throughout a batch every pending token names a live endpoint stored under its own fd |
| EventLoop.SlotsAreKept | src/socket/socket_bw_app.cc:128-131 | a map entry never disappears and changes only when its fd is reused |
| EventLoop.SocketBwServerApp.HandleNewConnection | src/socket/socket_bw_app.cc:70-75 | the in-place map updates have that effect and keep the invariant |
| EventLoop.SocketBwServerApp.RunBatch | src/socket/socket_bw_app.cc:104-132 | a batch dereferences only live endpoints; OnRecvReady, OnSendReady and OnError are each called once for a token if its event is readable, writable or closed, in that order, and for no other; exactly the closed endpoints are closed and unregistered, and the accepted connection is registered |
| EventLoop.BatchServes | src/socket/socket_bw_app.cc:116-131 | the calls of a batch, whatever else is in it, hold for each token exactly those its event names, in the program's order |
| EventLoop.BatchCloses | src/socket/socket_bw_app.cc:128-131 | after a batch an endpoint is closed and unregistered if and only if its event said so, and otherwise still safe |
| EventLoop.AcceptedIsSafe | src/socket/socket_bw_app.cc:70-75 | the connection accepted in a batch is alive, registered and stored under its fd at the end of it |
| EventLoop.SharedEdgesLoseConnections | src/socket/socket_bw_app.cc:70-85 | the edge-triggered listener accepts one connection an event, so nobody is left waiting if and only if at most one connection comes between any two polls, and whoever is left stays |
| Lcg.AffineForm | src/grpc/hotel_reservation_app.cc:26-29 | 2^k steps of the generator are one affine map |
| Lcg.SlopeAndShift | src/grpc/hotel_reservation_app.cc:26-29 | its slope is 1 modulo 2^(k+2) and its shift an odd multiple of 2^k |
| Lcg.ReturnsIff | src/grpc/hotel_reservation_app.cc:26-29 | for every k, n steps return to the same residue modulo 2^k if and only if 2^k divides n |
| Lcg.FullPeriod | src/grpc/hotel_reservation_app.cc:26-29 | from every seed two positions hold the same state exactly when they are a multiple of 2^32 apart |
| Lcg.VisitsEveryState | src/grpc/hotel_reservation_app.cc:26-29 | every state occurs exactly once in 2^32 steps |
| Workload.Generator.FastRand | src/grpc/hotel_reservation_app.cc:26-29 | advances the seed and returns bits 16 to 30 |
| Workload.KnownSequence | src/grpc/hotel_reservation_app.cc:26-29 | from seed 1 the first numbers are 41, 18467 and 6334 |
| Workload.Generator.GenerateMany | src/grpc/hotel_reservation_app.cc:62-65 | n calls leave the n-th state of the orbit and count its picks |
| Workload.ExactMix | src/grpc/hotel_reservation_app.cc:62-65 | from every seed any 2^32 consecutive calls pick "danyang" 328 * 2^17 times |
| Bits.LowPowerIsLargest | src/meter.h:66 | a power of two divides x if and only if it is at most the low bit's value |
| Bits.LowbitIsLowPower | src/meter.h:66 | in 64-bit two's complement x & -x is the largest power of two dividing x, and 0 for 0 |
| Bits.NextPow2IsLeast | src/meter.h:68-71 | the target is the least power of two that is at least x |
| Bits.RoundUpPower2 | src/meter.h:68-71 | the loop ends with that power, for every x up to 2^62, and with 0 for x up to 0 |
| Metering.Meter.constructor | src/meter.h:22-28 | the sample is one less than the least power of two above the request |
| Metering.Meter.AddBytes | src/meter.h:30-45 | the counters, the report and the clock reading of one call |
| Metering.Meter.AddQps | src/meter.h:47-64 | the same with operations |
| Metering.Meter.AddAll | src/meter.h:30-64 | a sequence of calls makes the specified reports and reads the clock at the specified call numbers |
| Metering.SampledIff | src/meter.h:33 | on 32-bit ints the mask test succeeds exactly at call numbers congruent to sample modulo sample + 1 |
| Metering.MinusOneIff | src/meter.h:33 | with the sample -1 it succeeds exactly when the low 32 bits of the call number are all ones |
| Metering.SampleIsMask | src/meter.h:25-26 | every meter's sample for a nonnegative request is a mask of at most 31 ones, not below the request |
| Metering.NegativeNeverSamples | src/meter.h:25-34 | so with a negative request no call reads the clock before the counter overflows |
| Metering.ClockIsReadPeriodically | src/meter.h:33-34 | over n calls the clock is read at exactly those call numbers, and how often |
| Metering.Conservation | src/meter.h:30-64 | bytes and operations reported plus those accumulated equal those added, for any mix of calls |
| Metering.WindowsAreContiguous | src/meter.h:35-43 | reported windows are back to back and none is shorter than the interval |
| Metering.ReportsIff | src/meter.h:30-64 | a call reports if and only if its number is sampled and its window is at least the interval; the line holds all that was added since the last one and the next window starts empty there |
| ClosedLoop.Fill | rpc_bench_tonic/src/client.rs:156-160 | the first phase fills the window |
| ClosedLoop.RunBench | rpc_bench_tonic/src/client.rs:156-224 | sent = min(concurrency + replied, T) and the in-flight set has min(concurrency, T - replied) calls; how the run ends and how many replies it takes follow from the clock and the arguments; windows end exactly at the turns that are past the interval and hold the replies and bytes between; recordings are the replies past the warm-up and those held are the ones since the last report past it; a timed-out run has dropped one reply; the unwrap fails only with concurrency 0, an untimed run ends with replied = T |
| ClosedLoop.DueIff | rpc_bench_tonic/src/client.rs:190-212 | a window ends with a turn if and only if reporting is on and more than the interval has passed since the last one ended; the ends are in order |
| ClosedLoop.UnderflowIff | rpc_bench_tonic/src/client.rs:259-266 | a timed-out run underflows if and only if some turn before the warm-up count is past the timeout |
| ClosedLoop.UnderflowingRun | rpc_bench_tonic/src/client.rs:259-266 | such an input |
| ClosedLoop.FinalReport | rpc_bench_tonic/src/client.rs:259-266 | the subtractions underflow if and only if the warm-up was not finished, and otherwise give the measured calls and bytes |
| CompletionLoop.Sample | src/grpc/grpc_tput_app.cc:52-57 | the clock is looked at in turns that are multiples of the period, and with a monotone clock a set flag stays set |
| CompletionLoop.FlagIff | src/grpc/grpc_tput_app.cc:52-57 | the flag says whether the clock was past the deadline at the last turn whose number is a multiple of 1000 |
| CompletionLoop.Job | src/grpc/grpc_tput_app.cc:25-63 | for any clock count and overlimit are the numbers of successful and failed completions taken, issued = concurrency plus the turns without the flag that have a call to send, the flag is that of the last look at the clock, every call is live or deleted once, and the live calls equal the concurrency exactly until a turn sets the flag; for a monotone clock the flag never reverts, at most a period of calls is issued late, and the window drains |
| ServerCalls.NoUseAfterDelete | src/grpc/hotel_reservation_app.cc:133-150 | in no interleaving does a completion or a step touch a deleted call |
| ServerCalls.OneOutstandingOperation | src/grpc/grpc_lat_app.cc:54-71 | a live call has exactly one outstanding operation, the one its status calls for, or is held by exactly one thread |
| ServerCalls.StartsAreFresh | src/grpc/grpc_lat_app.cc:56-65 | an operation is started only on a call that has none |
| ServerCalls.OneFinishPerRequest | src/grpc/grpc_lat_app.cc:61-65 | each accepted request is finished at most once, only after its accept, and none is left unfinished between events |
| ServerCalls.ProceedReturns | src/grpc/grpc_lat_app.cc:54-71 | a thread inside Proceed can always go on and is back in at most five steps |
| ServerCalls.ArmedCallsMatchThreads | src/grpc/hotel_reservation_app.cc:178-192 | while the threads of a queue are between events it has exactly as many armed calls as threads |
| ServerCalls.OneArmedCall | src/grpc/grpc_lat_app.cc:73-81 | with a queue per thread, exactly one call is armed at each of the thread's event boundaries |
| ServerCalls.MachineKeeps | src/grpc/grpc_lat_app.h:89-94 | every memory step of the constructor and of Proceed keeps ownership and status consistent |
| ServerCalls.HistoryKeeps | src/grpc/grpc_lat_app.cc:54-71 | every step keeps the record of accepted and finished requests exact, and deletes only finished calls |
| ServerLoop.CallServer.Create | src/grpc/hotel_reservation_app.h:93-98 | the constructor, which runs Proceed, is a run of the machine that leaves the new call armed |
| ServerLoop.CallServer.Proceed | src/grpc/hotel_reservation_app.cc:133-150 | one call of Proceed is a run of the thread's own steps, back to where the thread waits |
| ServerLoop.CallServer.HandleRpcs | src/grpc/hotel_reservation_app.cc:178-192 | after any number of events one call is armed, the others await their answer's departure, requests served, accepted and finished are equal in number, and the events are those requests and the departures of the answers of deleted calls |

## Left out

- Sockets, epoll, completion queues and tokio: replaced by byte channels, an edge flag and nondeterministic choice.
  The writable edge is raised by any free space; a kernel that waits for a low-water mark is not modelled.
- Schedules that block for ever: a socket's schedule of answers is finite, and a call beyond its end is an error.
- End of stream and connection errors between the two parties: they are in the endpoint's own specification, its
  class and the event loop; the two-party system has a client that stays connected.
- Protobuf and HDR histograms: header bytes and recordings are opaque. The generated message code is not part of
  this model.
- `PCHECK` and `RPC_CHECK`: a failure ends the process; the classes record it as `aborted` and promise nothing more.
- Memory addresses of buffers: a pointer is an array and an offset, and freeing an owner is dropping it.
- EventLoop.SocketBwServerApp.RunBatch: records which handlers are called, on which tokens and in which order, but does
  not run them, because an endpoint there is an address; what a handler does is in `Endpoint`.
- Several endpoints of one server: each is proved by itself, and `HoldsTheLoopIff` says when one of them keeps the thread
  from the others; a system of two clients is not modelled.
- Endless loops: the event loop is one batch of any length, `HandleRpcs` any number of events, `RunBench` and `Job` a given
  sequence of turns.
- Loop and handler bodies are split into helper methods (`SendTurn`, `SendStep`, `MetaOnwards`, `HeaderOnwards`, `DataOnwards`,
  `DataStep`, `AwaitRoom`, `RecvNext`, `Loop`, `Round`, `PushCopy`, `Count`, `HandleEvent`, `Sample`, `Turn`, `TakeReply`,
  `Report`, `DropReply`, `WriteStatus`, `StartOp`), which the source does not have.
- Server threads: their interleaving is a state machine on values; `ServerLoop` covers the single-threaded server in
  place. A call's request and reply contents and the `ok` result of `Next`, which the source ignores, are not modelled.
- Meter.AddBytes, Meter.AddQps: stated for call counts below 2^31; the signed overflow after that is undefined in C++.
- Counters of the clients, byte totals and the meter's sums are unbounded integers; rates in floating point and the printed
  text are absent.
- `Buffer::CopyFrom`, the receive pool and `HandleReceivedData`: never used.
- The brpc, ZeroMQ and gRPC bandwidth back ends, the Rust servers, the latency application, `content-based-acl`, CPU
  statistics, options, scripts and configuration: thin wrappers or input and output.
