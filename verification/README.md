# A verified model of the ADC acquisition pipeline

The program samples a simulated ADC, queues the samples in a lock-free single-producer
single-consumer ring buffer, moves them in batches to a second ring buffer, packs them into
blocks and sends the blocks over TCP; a small server finds the blocks again in the bytes it
receives. This project models that path in Dafny and proves what it keeps.

`dafny verify dfyconfig.toml` checks everything.

## What is modelled

**Ring buffer.** `Words` has the 32-bit masked index arithmetic and the rounding of the capacity.
`Rings` gives the value of a ring buffer and what each call does to it, as a queue. `RingBuffers`
is the object: masked 32-bit indices over an array, updated in place, each method proved against
`Rings`. `Spsc` is the same buffer under concurrency: every shared read, slot copy and shared
store of `ring_buffer_push`, `push_batch`, `pop` and `pop_batch` is one step, and the steps of one
producer and one consumer interleave arbitrarily. `SpscSafety` has the results over all runs, and
`SpscResults` what each call returns in them.
Memory is sequentially consistent: the fence in `ring_buffer_pop` comes after the data read
(`src/buffer/ring_buffer.c:157-161`), so no claim is made for weaker memory.
The levels meet in `SpscSafety.AlonePush`, `AlonePushBatch`, `AlonePop` and `AlonePopBatch`: run
without interruption, the steps of a call do to the ring what the object's method does.

**Pipeline.** `Pipeline` runs the ADC callback, the process worker and the network worker
concurrently over two of these buffers, each buffer call taking the steps of `Spsc`;
`PipelineInv` has the invariant and `PipelineSafety` the results. `Workers` has the same three
bodies as methods on the real objects, and `Turns` shows that an uninterrupted turn of each stage
in `Pipeline` does what its body does. Updates of the statistics are atomic steps here, although
the C code has two unlocked writers of `dropped_samples`.

**Transmission.** `Wire` is the memory layout of a block and the server's parsing loop, `Tcp` the
client over an arbitrary socket (each `send` call takes any number of bytes, would block, or
fails), and `Framing` what the connections carry over whole runs. `PipelineSafety.EndToEnd` joins
this to the pipeline: from generated samples to recognised blocks.

**Sampling.** `Sampling` is the deadline loop over an arbitrary trace of clock readings, and
`Lossless` composes it with buffer 1 and the process worker's pops in real time.

**Lifecycle.** `Lifecycle` is the thread manager against the worker loops, and `WorkerLoops` has what
the loops do over whole runs: when they work, hold, go on and end. `OneLivePerKind` is
what entitles `Spsc` to a single consumer of buffer 1 and a single producer of buffer 2.

## What the code does that one might not expect

- A full buffer refuses the newest sample (`src/buffer/ring_buffer.c:130-133`);
  `docs/architecture.md:167-181` describes overwriting the oldest. The model follows the code.
- A buffer requested for n samples holds n only if n is not itself a capacity (a power of two from
  2 to 2^31), since one slot stays free; `include/ring_buffer.h:55` promises n. The default
  request of 16384 gives room for 16383 (`RingBuffers.RingBuffer.constructor`,
  `Words.DefaultRequestFallsShort`).
- `ring_buffer_create` never returns for a request above 2^31: the shift overflows to 0
  (`Words.RoundingStops`).
- After a timeout in the middle of a block the client stays connected and the next block goes out
  behind the torn one. Then ADC_OK for a block does not mean that the server recognises it
  (`Framing.TornTimeoutHidesNextBlock`); and a torn block that kept its header is completed by
  whatever comes next, so that the server recognises a block with foreign samples
  (`Framing.TornBlockIsCompleted`). Framing holds exactly in the runs in which no send that a
  timeout tore is followed, on its connection, by a send of which the socket takes a byte
  (`Framing.FramedIff`); a caller keeps it by not sending while connected inside a block
  (`Framing.SendIsSafeIff`).
- When start cannot create its second or third thread it leaves the earlier ones live, and the
  next start creates them a second time (`Lifecycle.FailedStartLeavesWorker`). Two workers of a kind
  come about exactly if one is live when a start takes effect (`Lifecycle.DuplicatesIffLive`).
- An old worker's late STOPPED store can then overwrite RUNNING while the manager runs
  (`Lifecycle.LateStoppedStore`). That can happen exactly if a live worker has not stored STOPPED
  yet when a start takes effect (`Lifecycle.LateStoreIff`, `Lifecycle.NoLateStore`).
- Stop, called after a failed start, returns at once with a worker live
  (`Lifecycle.StopAfterFailedStart`). It can return with a live worker exactly if there is one
  that it does not join when it is called: any, if the manager does not run, and else one that a
  later thread of its kind has displaced (`Lifecycle.StopLeavesWorkerIff`).
- Stop leaves the states STOPPED only if a start took effect before; otherwise they stay IDLE
  (`Lifecycle.WorkerLifecycle`).
- Sequence numbers increase for exactly the first 2^32 samples of a run
  (`PipelineSafety.NumbersIncreaseIff`).

## Model

| member | source | states |
|---|---|---|
| Words.AndMask | src/buffer/ring_buffer.c:60-61 | bitwise `&` with capacity - 1 is the remainder modulo the capacity |
| Words.PowerOfTwoTest | src/buffer/ring_buffer.c:30 | `c & (c - 1)` is 0 exactly for the powers of two |
| Words.MaskIsExact | src/buffer/ring_buffer.c:95-127 | for every capacity up to 2^31 the 32-bit wrapping masked expressions equal the mathematical residues, and `available` never underflows |
| Words.RoundingStops | src/buffer/ring_buffer.c:32-35 | the rounding loop, with its overflowing shift, ends if and only if the request is at most 2^31 |
| Words.RoundCapacity | src/buffer/ring_buffer.c:25-37 | the capacity is the least power of two that is at least the request and at least 2 |
| Words.DefaultRequestFallsShort | include/adc_types.h:37 | the buffer made for the default request holds fewer samples than requested |
| Rings.PushIsEnqueue | src/buffer/ring_buffer.c:123-143 | a push appends one sample, or with capacity - 1 samples queued leaves the queue and counts one drop |
| Rings.PopIsDequeue | src/buffer/ring_buffer.c:146-164 | a pop removes and returns the oldest sample, and fails only on an empty buffer |
| Rings.PushEachClosed | src/buffer/ring_buffer.c:174-210 | pushing samples one by one has the head, slots and drop count that the batch code writes at once |
| Rings.PopEachClosed | src/buffer/ring_buffer.c:224-256 | popping one by one has the tail and output that the batch code produces at once |
| Rings.PushEachIsEnqueue | src/buffer/ring_buffer.c:167-214 | a batch push appends exactly the longest prefix that fits and counts the rest as dropped |
| Rings.PopEachIsDequeue | src/buffer/ring_buffer.c:217-258 | a batch pop delivers the front of the queue, as much as was asked for or is there; output and remainder make up the old queue |
| RingBuffers.RingBuffer.constructor | src/buffer/ring_buffer.c:23-68 | a new buffer is valid and empty with the least fitting capacity; it has room for the request unless the request is itself a capacity |
| RingBuffers.RingBuffer.Count | src/buffer/ring_buffer.c:88-96 | the masked difference of the indices is the length of the queue |
| RingBuffers.RingBuffer.IsEmpty | src/buffer/ring_buffer.c:99-104 | equal indices mean exactly an empty queue |
| RingBuffers.RingBuffer.IsFull | src/buffer/ring_buffer.c:107-113 | the masked test holds exactly when capacity - 1 samples are queued |
| RingBuffers.RingBuffer.Available | src/buffer/ring_buffer.c:116-120 | how many more samples the queue takes |
| RingBuffers.RingBuffer.Push | src/buffer/ring_buffer.c:123-143 | the in-place push does to the buffer what the queue operation does; a null sample changes nothing |
| RingBuffers.RingBuffer.Pop | src/buffer/ring_buffer.c:146-164 | the in-place pop refines the queue operation and writes the caller's cell only on success |
| RingBuffers.CopyIn | src/buffer/ring_buffer.c:185-200 | the two chunks write the samples to consecutive slots around the wrap point and no other slot |
| RingBuffers.CopyOut | src/buffer/ring_buffer.c:234-249 | the two chunks read consecutive slots around the wrap point; other output cells keep their value |
| RingBuffers.RingBuffer.PushBatch | src/buffer/ring_buffer.c:167-214 | leaves the state of pushing each sample in turn, reports how many of those calls succeed, and returns true exactly when all do (false for an empty batch) |
| RingBuffers.RingBuffer.PopBatch | src/buffer/ring_buffer.c:217-258 | leaves the state and output of repeated single pops; output cells past `popped` are untouched |
| RingBuffers.RingBuffer.Clear | src/buffer/ring_buffer.c:261-268 | the queue is empty, the drop count 0, the slots unchanged |
| Spsc.StepKeepsInv | src/buffer/ring_buffer.c:123-258 | every step of either thread keeps the invariant that ties queue, histories and both threads' snapshots together |
| SpscSafety.FifoSafety | src/buffer/ring_buffer.c:123-258 | in every reachable state of every interleaving: popped samples, then unread ones, are exactly the accepted ones in order; refused samples never appear and are what `dropped` counts |
| SpscSafety.IndicesAreCounts | src/buffer/ring_buffer.c:140-161 | head and tail are the unbounded push and pop totals modulo the capacity |
| SpscSafety.OnlySlotWrittenChanges | src/buffer/ring_buffer.c:136-199 | a producer step changes no slot but the one it stores into |
| SpscSafety.SlotOwnership | src/buffer/ring_buffer.c:183-254 | the producer never stores into an unread slot or one that a pop in progress copies; the consumer never loads an unpublished slot; also around the wrap point |
| SpscSafety.SnapshotsAreConservative | src/buffer/ring_buffer.c:88-96 | while a call acts on its count, the producer's is never below and the consumer's never above the real occupancy |
| SpscSafety.PushDecision | src/buffer/ring_buffer.c:126-175 | a push is refused exactly if the buffer is full when it reads `tail`, and a batch takes exactly what fits then |
| SpscSafety.PopDecision | src/buffer/ring_buffer.c:150-225 | a pop acts on the exact count of the instant at which that same call read `head`, and reports empty exactly if the buffer was empty then |
| SpscSafety.PushIsWaitFree | src/buffer/ring_buffer.c:122-214 | over any run a push needs at most 4 own steps, and a batch push its number of samples plus 5, whatever the consumer does |
| SpscSafety.PopIsWaitFree | src/buffer/ring_buffer.c:145-258 | over any run a pop needs at most 5 own steps, and a batch pop the capacity plus 4, whatever the producer does |
| SpscResults.PushResult | src/buffer/ring_buffer.c:123-214 | in every interleaving a push that has its result has put exactly its first samples into the queue, as many as fitted when that call read `tail`, and refused the others |
| SpscResults.PopResult | src/buffer/ring_buffer.c:146-258 | in every interleaving a pop that has its result returns exactly the front of the queue as it was when that call read `head`, as much as was asked for or was there |
| SpscSafety.AlonePush | src/buffer/ring_buffer.c:123-143 | the uninterrupted steps of a push do what the sequential push does, result included |
| SpscSafety.AlonePushBatch | src/buffer/ring_buffer.c:167-214 | the uninterrupted steps of a batch push equal pushing each sample in turn |
| SpscSafety.AlonePop | src/buffer/ring_buffer.c:146-164 | the uninterrupted steps of a pop do what the sequential pop does |
| SpscSafety.AlonePopBatch | src/buffer/ring_buffer.c:217-258 | the uninterrupted steps of a batch pop equal repeated single pops |
| Wire.DecodeOfEncode | include/adc_types.h:84-104 | a block read back from its little-endian image has its fields intact, and its size field agrees with its length |
| Wire.EncodeOfDecode | tests/test_server.c:203-212 | bytes with the magic word and as many samples as they announce are the image of the block read from them |
| Wire.BlockLayout | include/adc_types.h:84-104 | the image of a block: every field of the header and of each sample stands at its offset in the C structures |
| Wire.LittleEndianAt | include/adc_types.h:84-104 | byte k of a field has the weight 256^k |
| Wire.ParseReceived | tests/test_server.c:200-226 | the loop terminates, reads only received bytes, and recognises and counts the blocks of the parse function |
| Wire.ParseOfBlocks | tests/test_server.c:200-226 | encoded blocks followed by a cut-off one parse to exactly those blocks |
| Wire.ParseSkipsFiller | tests/test_server.c:205-209 | whole words without the magic word change nothing in what follows |
| Wire.ParseRoundTrip | tests/test_server.c:200-226 | filler, any blocks, a proper prefix of a block: exactly those blocks, in order |
| Wire.ParseSound | tests/test_server.c:200-226 | on any input, each recognised block stands encoded in it, in order, without overlap, with only filler in between and no further block behind |
| Wire.ParseIff | tests/test_server.c:200-226 | on any input the loop recognises given blocks if and only if the input is these blocks encoded, each behind some filler, then filler and an end too short for a header or its block |
| Tcp.Transmit | src/network/tcp_client.c:260-283 | against any socket, what is accepted is all of the data exactly on ADC_OK and a proper part of it on error, with at most one `send` call per accepted byte and one more |
| Tcp.TransmitOutcome | src/network/tcp_client.c:267-282 | for every socket: a send goes on exactly as long as calls take bytes and some remain; the last call alone decides between success, timeout and failure; what the calls took, up to the length, is what is accepted |
| Tcp.TakingSocketGetsAll | src/network/tcp_client.c:267-282 | partial sends alone never fail: a socket of which every call takes a byte gets all of the data |
| Tcp.TcpClient.Connect | src/network/tcp_client.c:127-205 | connecting succeeds exactly if connected already or reachable; it opens a fresh connection, or changes nothing if already connected or unreachable |
| Tcp.TcpClient.Send | src/network/tcp_client.c:231-257 | one `send` call: the accepted bytes are a prefix of the data; a timeout keeps the client connected, a failure disconnects it |
| Tcp.TcpClient.SendAll | src/network/tcp_client.c:260-283 | the connection gains exactly the accepted prefix; ADC_ERROR_NETWORK, and it alone, disconnects |
| Tcp.TcpClient.SendDataBlock | src/network/tcp_client.c:322-329 | the bytes and the record of the connection stay in step: it gains the block, or the prefix that went out |
| Framing.PlayKeepsInv | src/network/tcp_client.c:260-329 | over any run each connection's acknowledged blocks are exactly the ones whose bytes went out whole |
| Framing.SendIsSafeIff | src/network/tcp_client.c:322-329 | known before the call: a send keeps the framing against every socket if and only if the client is not connected inside a block |
| Framing.MidBlockIffTorn | src/network/tcp_client.c:237-278 | while connections are framed, a connected client is inside a block exactly if a timeout tore one on the current connection |
| Framing.FramedIff | src/network/tcp_client.c:237-283 | over any run every connection has whole blocks up to its last one if and only if no torn send is followed, on the same connection, by a send of which the socket takes a byte |
| Framing.NoTornTimeoutIsFramed | src/network/tcp_client.c:237-278 | errors alone never break the framing, because they disconnect |
| Framing.FramedBytes | src/network/tcp_client.c:260-329 | the bytes of a framed connection are the acknowledged blocks and at most one cut-off block |
| Framing.FramingPerConnection | src/thread/thread_workers.c:190-230 | over any run with partial sends, errors, timeouts and reconnects in which no bytes follow a torn block on its connection: whole blocks, at most one cut one, and the server recognises exactly the acknowledged blocks |
| Framing.TornTimeoutHidesNextBlock | src/network/tcp_client.c:240-248 | whichever two blocks the worker sends, a run in which the first is torn, the second sent with ADC_OK, and none recognised |
| Framing.TornBlockIsCompleted | tests/test_server.c:203-225 | for every block cut behind its header and every sequence of bytes that follows: the server recognises a block with its header and the following bytes as its missing part, which is the block sent only if those bytes agree |
| PipelineInv.StepKeepsInv | src/thread/thread_workers.c:29-238 | every step of the three stages keeps the pipeline's invariant |
| PipelineSafety.BufferBalance | src/buffer/ring_buffer.c:123-258 | everything offered to a buffer is held by the push, refused, queued, held by the pop, or delivered |
| PipelineSafety.Conservation | src/thread/thread_workers.c:29-230 | in every reachable state the generated samples are, as a multiset, the sum of all places a sample can be in |
| PipelineSafety.ConservationOfCounts | src/thread/thread_workers.c:29-230 | the same as numbers, with the buffers' own drop counters |
| PipelineSafety.BufferInOrder | src/buffer/ring_buffer.c:123-258 | a buffer delivers a subsequence of what it is offered |
| PipelineSafety.NumbersIncreaseIff | src/adc/adc_simulator.c:83 | sequence numbers increase if and only if at most 2^32 samples were generated |
| PipelineSafety.SentInOrderOfGeneration | src/thread/thread_workers.c:202-220 | the samples in sent blocks are a subsequence of the generated ones with increasing numbers |
| PipelineSafety.LosslessIsPrefix | src/thread/thread_workers.c:109-220 | without drops and failed sends they are a contiguous prefix |
| PipelineSafety.CountersAgree | src/thread/thread_workers.c:34-228 | with no update pending, the statistics agree with the buffers' drop counters, the samples generated and the blocks sent, each of 1 to 256 samples |
| PipelineSafety.EndToEnd | tests/test_server.c:200-226 | if no bytes follow a torn block on its connection, exactly the sent blocks are recognised over all connections; their samples are in order of generation, and a prefix if nothing was lost |
| Sampling.AdcSimulator.Start | src/adc/adc_simulator.c:186-192 | a start resets sequence and start time, unless already running |
| Sampling.AdcSimulator.CaptureThread | src/adc/adc_simulator.c:66-117 | the loop emits one sample per shot of the schedule: time stamp since the start, signal at that time, number in order, with 32-bit wrap-around, channel and flags 0 |
| Sampling.IntervalOf | src/adc/adc_simulator.c:67 | the interval times the rate is the most that fits into a second |
| Sampling.SamplesWhenDue | src/adc/adc_simulator.c:77-110 | over any readings: a turn takes one sample, at its reading, if and only if the deadline is not after it; late by more than an interval, the next deadline is one interval after the sample, else one after the old deadline |
| Sampling.CatchesUp | src/adc/adc_simulator.c:104-110 | after every turn the next deadline is not before its reading, nor more than an interval after the last sample |
| Sampling.NeverStalls | src/adc/adc_simulator.c:73-111 | with turns at most d apart, the first turn samples and no more than an interval and d pass between samples |
| Sampling.NeverEarly | src/adc/adc_simulator.c:73-111 | the n-th sample is never taken before start + n * interval; the next deadline then lies within one interval |
| Sampling.Spacing | src/adc/adc_simulator.c:104-110 | samples i and j are at least j - i - 1 intervals apart, catch-up included |
| Sampling.WindowBound | src/adc/adc_simulator.c:73-111 | no window of length W holds more than W / interval + 2 samples |
| Sampling.NoDriftIff | src/adc/adc_simulator.c:104-110 | the deadlines stay on the grid start + k * interval if and only if each sample is at most one interval late |
| Lossless.NeverDrops | src/thread/thread_workers.c:105-113 | with pops begun at least once in every P microseconds, P / interval + 2 <= 256 < capacity: buffer 1 never drops a sample, also while a pop is under way |
| Lossless.NeverDropsIff | src/thread/thread_workers.c:105-113 | for every capacity, interval and poll time P > 0: no run with a pop begun at least once in every P microseconds drops a sample if and only if 0 < interval, P <= 256 * interval and 2 * P / interval + 3 <= capacity; from 1024 slots on the last follows from the second |
| Lifecycle.OneLivePerKind | src/thread/thread_manager.c:207-259 | at most one worker of each kind is live, also when creations fail, as long as no start takes effect while a worker is live |
| Lifecycle.WorkerLifecycle | src/thread/thread_manager.c:93-259 | with successful creations: one live worker per kind; all RUNNING from the end of a start until stop clears `running` (no late STOPPED store); none live when stop returns, and all STOPPED exactly if a start took effect before |
| Lifecycle.StartGivesUp | src/thread/thread_manager.c:214-231 | a start whose i-th creation fails leaves the manager not running, the threads created before it live and their states RUNNING |
| WorkerLoops.CallIsChecked | src/thread/thread_manager.c:93-105 | before each call of its worker function, since it was last at the head of its loop, a worker has read `running` true, then `paused` false, then its state RUNNING |
| WorkerLoops.ToldWorkerWorks | src/thread/thread_manager.c:93-128 | while `running`, not `paused` and RUNNING hold, a worker can always go on, and every five of its own steps are one call: the count is exact |
| WorkerLoops.PauseTakesHold | src/thread/thread_manager.c:262-267 | from the step in which pause is stored until a resume or start takes effect, `paused` holds and each worker begins at most one more call, counted over the run |
| WorkerLoops.ResumeTakesHold | src/thread/thread_manager.c:270-275 | from the step in which resume is stored in a running manager until a pause or stop takes effect, each worker on duty whose state is RUNNING begins a call in every five of its own steps, also from sleep |
| WorkerLoops.ResumeWithoutLateStores | src/thread/thread_manager.c:270-275 | the same without a hypothesis on the states, in runs in which every start is in time |
| WorkerLoops.PausedIff | src/thread/thread_manager.c:207-275 | `paused` is true exactly from a pause to the next resume or start that takes effect |
| WorkerLoops.RunningIff | src/thread/thread_manager.c:207-259 | `running` is true exactly from a start that takes effect to the next stop that does, or to the failure of that start |
| WorkerLoops.StoppedWorkerExits | src/thread/thread_manager.c:93-137 | while `running` is false every worker can go on and exits within seven of its own steps, paused or not |
| WorkerLoops.ControlCallsReturn | src/thread/thread_manager.c:207-275 | every control call returns within ten of its own steps and waits for nothing but the live thread that stop joins |
| Lifecycle.DuplicatesIffLive | src/thread/thread_manager.c:214-231 | from every run in which a start takes effect: two live workers of one kind can come about before start is called again if and only if a worker is live at that moment |
| Lifecycle.FailedStartLeavesWorker | src/thread/thread_manager.c:225-229 | a run in which, after a failed creation, the next start ends with two live capture workers |
| Lifecycle.LateStoppedStore | src/thread/thread_manager.c:130 | a run in which, after a failed creation, a late STOPPED store overwrites RUNNING while the manager runs |
| Lifecycle.NoLateStore | src/thread/thread_manager.c:130-231 | in every run, failed creations included, in which no start takes effect before earlier workers have stored STOPPED: all states are RUNNING from the end of a start until stop clears `running` |
| Lifecycle.LateStoreIff | src/thread/thread_manager.c:130-231 | from every run in which a start takes effect: the manager can come to run with a state that is not RUNNING, before start is called again, if and only if a live worker has not stored STOPPED at that moment |
| Lifecycle.StopAfterFailedStart | src/thread/thread_manager.c:240 | a run in which stop, called after a failed start, returns with a live worker |
| Lifecycle.StopLeavesWorkerIff | src/thread/thread_manager.c:238-259 | from every run in which stop has been called: it can return with a live worker if and only if there is a live worker that it does not join |
| Workers.AdcSampleCallback | src/thread/thread_workers.c:29-44 | one push; total plus the buffer's drops grow by exactly one, and the statistics record which |
| Workers.ProcessThreadWorker | src/thread/thread_workers.c:105-121 | moves the front of up to 256 samples, as far as they fit, and counts exactly the others as dropped |
| Workers.NetworkThreadWorker | src/thread/thread_workers.c:189-230 | connects if needed, sends up to 256 samples as one block, and counts bytes or errors; without a connection nothing changes |
| Turns.AloneCapture | src/thread/thread_workers.c:29-44 | the callback's steps in the pipeline, uninterrupted, push and count as its body does |
| Turns.AloneProcess | src/thread/thread_workers.c:105-121 | the process worker's steps, uninterrupted, move and count as its body does |
| Turns.AloneNetwork | src/thread/thread_workers.c:189-230 | the network worker's steps, uninterrupted, connect, take, send and count as its body does |

## Left out

- Weaker memory models: the fences are no steps; memory is sequentially consistent.
- `memcpy` is taken to copy whole samples in ascending order, one slot per step.
- Statistics and drop counters are unbounded numbers; their 64-bit wrap-around is not modelled, and each update is one atomic step.
- Null buffer handles, and a null `pushed` or `popped` pointer.
- Allocation failures (except "no block" in the network worker), alignment, freeing and teardown order.
- RingBuffers.RingBuffer.constructor: assumes a request of at most 2^31, because the code does not return for others.
- RingBuffers.RingBuffer.Clear: not in the concurrent model; its documentation excludes concurrent use.
- Wire.ParseReceived: `size_t` is unbounded, so the block size never wraps; the print of every 100th block is left out; and a block split over two receives is lost, as in the code, since nothing is kept between receives.
- PipelineSafety.EndToEnd: takes the bytes of each connection to be received at once, in one buffer large enough for them, by a server of its own: `tests/test_server.c` accepts one connection and ends when it closes.
- Tcp.TcpClient.Send: does not model the `(int)` cast of lengths of 2^31 or more; the socket sees the whole length.
- Tcp.TcpClient.Connect: socket creation, options, address parsing and the file descriptor are one parameter, `reachable`.
- `tcp_client_receive`, Winsock reference counting and client configuration.
- The block pool: reuse of its 16 blocks is not modelled, since a block is done with when its send returns.
- The pipeline and the thread manager are transition systems on values, because their threads share state; updates in place are in `RingBuffers`, `Tcp` and `Workers`.
- Lossless.NeverDropsIff: like `NeverDrops`, it is about a buffer that starts empty. A sample is taken to be pushed at the clock reading of its turn; pops are the two instants that matter to the producer, the read of the count and the store of `tail`.
- Sampling.AdcSimulator.CaptureThread: clock, sleep and signal are parameters; the callback's lock is left out, and `out` stands for the callback's calls.
- ADC stop and restart, and the capture worker, which only creates and restarts the ADC: a restart resets the sequence, so the ordering results are about one ADC run.
- Lifecycle.WorkerLifecycle: the POSIX branch, one controlling thread, worker calls that return; what is inside a worker call is in the pipeline model.
- Thread priorities, cycle-time averages, logger, configuration, command line and visualisation.
- `network_pool`, which no worker uses.
