/** The three-stage pipeline: the ADC callback, the process worker and the network worker as
    concurrent transitions over two ring buffers, the statistics and the TCP client. The steps of
    the ring buffer calls are those of module Spsc. */
module Pipeline {
  import opened Words
  import opened Rings
  import opened Wire
  import opened Tcp
  import opened Framing
  import S = Spsc

  // ---------------------------------------------------------------- the system

  datatype Capture = CaptureIdle | CapturePushing | CaptureCounts(ok: bool)

  datatype Process = ProcessIdle | ProcessPopping | ProcessPushing | ProcessCounts(lost: nat)

  datatype Network =
    | NetworkIdle
    | NetworkPopping
    | NetworkHolds(xs: seq<Sample>)
    | NetworkSending(b: Block)
    | NetworkCounts(b: Block, ok: bool)

  /** What became of a batch the network worker popped. */
  datatype Fate = Sent(b: Block) | SendFailed(b: Block) | WithoutBlock(xs: seq<Sample>)

  datatype Stats = Stats(totalSamples: nat, droppedSamples: nat, sentBytes: nat, sendErrors: nat)

  /** `b1` is capture_to_process, `b2` is process_to_network. `generated`, `fates` and `events`
      (what the TCP client was asked to do) are history. */
  datatype System = System(
    b1: S.State, b2: S.State,
    capture: Capture, process: Process, network: Network,
    link: Link, stats: Stats,
    generated: seq<Sample>, fates: seq<Fate>, events: seq<Event>)

  datatype Step =
    // the ADC thread inside adc_sample_callback
    | CaptureSample(value: i32, timestamp: u32)
    | CapturePushStep
    | CapturePushed
    | CaptureCounted
    // the process worker
    | ProcessPoll
    | ProcessPopStep
    | ProcessPopped
    | ProcessPushStep
    | ProcessPushed
    | ProcessCounted
    // the network worker
    | NetworkConnect(reachable: bool)
    | NetworkPoll
    | NetworkPopStep
    | NetworkPopped
    | NetworkBlock(available: bool, now: u64)
    | NetworkSend
    | NetworkCounted

  ghost predicate Enabled(s: System, step: Step) {
    match step
    case CaptureSample(_, _) => s.capture == CaptureIdle && S.Typed(s.b1) && s.b1.prod.PIdle?
    case CapturePushStep => s.capture == CapturePushing && S.Enabled(s.b1, S.ProducerStep)
    case CapturePushed => s.capture == CapturePushing && S.Enabled(s.b1, S.EndPush)
    case CaptureCounted => s.capture.CaptureCounts?
    case ProcessPoll => s.process == ProcessIdle && S.Enabled(s.b1, S.BeginPopBatch(BATCH))
    case ProcessPopStep => s.process == ProcessPopping && S.Enabled(s.b1, S.ConsumerStep)
    case ProcessPopped =>
      s.process == ProcessPopping && S.Enabled(s.b1, S.EndPop) && S.Enabled(s.b2, S.BeginPushBatch(s.b1.cons.out))
    case ProcessPushStep => s.process == ProcessPushing && S.Enabled(s.b2, S.ProducerStep)
    case ProcessPushed => s.process == ProcessPushing && S.Enabled(s.b2, S.EndPush)
    case ProcessCounted => s.process.ProcessCounts?
    case NetworkConnect(_) => s.network == NetworkIdle && !s.link.connected
    case NetworkPoll => s.network == NetworkIdle && s.link.connected && S.Enabled(s.b2, S.BeginPopBatch(SAMPLES_PER_BLOCK))
    case NetworkPopStep => s.network == NetworkPopping && S.Enabled(s.b2, S.ConsumerStep)
    case NetworkPopped => s.network == NetworkPopping && S.Enabled(s.b2, S.EndPop)
    case NetworkBlock(_, _) => s.network.NetworkHolds?
    case NetworkSend => s.network.NetworkSending?
    case NetworkCounted => s.network.NetworkCounts?
  }

  function Apply(socket: Socket, s: System, step: Step): System
    requires Enabled(s, step)
  {
    match step
    case CaptureSample(v, ts) =>
      var x := Sample(ts, v, Wrap32(|s.generated|), 0, 0);
      s.(generated := s.generated + [x], b1 := S.Apply(s.b1, S.BeginPush(x)), capture := CapturePushing)
    case CapturePushStep => s.(b1 := S.Apply(s.b1, S.ProducerStep))
    case CapturePushed =>
      s.(b1 := S.Apply(s.b1, S.EndPush), capture := CaptureCounts(s.b1.prod.pushed > 0))
    case CaptureCounted =>
      s.(capture := CaptureIdle,
         stats := if s.capture.ok then s.stats.(totalSamples := s.stats.totalSamples + 1)
                  else s.stats.(droppedSamples := s.stats.droppedSamples + 1))
    case ProcessPoll => s.(b1 := S.Apply(s.b1, S.BeginPopBatch(BATCH)), process := ProcessPopping)
    case ProcessPopStep => s.(b1 := S.Apply(s.b1, S.ConsumerStep))
    case ProcessPopped =>
      var out := s.b1.cons.out;
      if out == [] then s.(b1 := S.Apply(s.b1, S.EndPop), process := ProcessIdle)
      else s.(b1 := S.Apply(s.b1, S.EndPop), b2 := S.Apply(s.b2, S.BeginPushBatch(out)), process := ProcessPushing)
    case ProcessPushStep => s.(b2 := S.Apply(s.b2, S.ProducerStep))
    case ProcessPushed =>
      var lost := |s.b2.prod.xs| - s.b2.prod.pushed;
      s.(b2 := S.Apply(s.b2, S.EndPush), process := if lost > 0 then ProcessCounts(lost) else ProcessIdle)
    case ProcessCounted =>
      s.(process := ProcessIdle,
         stats := s.stats.(droppedSamples := s.stats.droppedSamples + s.process.lost))
    case NetworkConnect(reachable) =>
      s.(link := ConnectLink(s.link, reachable).0, events := s.events + [Connecting(reachable)])
    case NetworkPoll => s.(b2 := S.Apply(s.b2, S.BeginPopBatch(SAMPLES_PER_BLOCK)), network := NetworkPopping)
    case NetworkPopStep => s.(b2 := S.Apply(s.b2, S.ConsumerStep))
    case NetworkPopped =>
      var out := s.b2.cons.out;
      s.(b2 := S.Apply(s.b2, S.EndPop), network := if out == [] then NetworkIdle else NetworkHolds(out))
    case NetworkBlock(available, ts) =>
      if available then s.(network := NetworkSending(Block(BLOCK_VERSION, 0, ts, s.network.xs)))
      else s.(network := NetworkIdle, fates := s.fates + [WithoutBlock(s.network.xs)])
    case NetworkSend =>
      var b := s.network.b;
      var (link, err) := SendBlock(s.link, socket, b);
      s.(link := link, events := s.events + [Sending(b)],
         fates := s.fates + [if err == Ok then Sent(b) else SendFailed(b)],
         network := NetworkCounts(b, err == Ok))
    case NetworkCounted =>
      s.(network := NetworkIdle,
         stats := if s.network.ok then s.stats.(sentBytes := s.stats.sentBytes + Size(s.network.b))
                  else s.stats.(sendErrors := s.stats.sendErrors + 1))
  }

  ghost predicate Init(s: System) {
    && S.Init(s.b1) && S.Init(s.b2)
    && s.capture == CaptureIdle && s.process == ProcessIdle && s.network == NetworkIdle
    && s.link == NEW_LINK && s.stats == Stats(0, 0, 0, 0)
    && s.generated == [] && s.fates == [] && s.events == []
  }

  ghost predicate Next(socket: Socket, s: System, s': System) {
    exists step :: Enabled(s, step) && s' == Apply(socket, s, step)
  }

  ghost predicate IsRun(socket: Socket, run: seq<System>) {
    && |run| > 0
    && Init(run[0])
    && forall i :: 0 <= i < |run| - 1 ==> Next(socket, run[i], run[i + 1])
  }

  // ---------------------------------------------------------------- where samples are

  /** Samples the network worker holds outside the ring buffer calls. */
  function InNetwork(n: Network): seq<Sample> {
    match n
    case NetworkHolds(xs) => xs
    case NetworkSending(b) => b.samples
    case _ => []
  }

  function FateSamples(f: Fate): seq<Sample> {
    match f
    case Sent(b) => b.samples
    case SendFailed(b) => b.samples
    case WithoutBlock(xs) => xs
  }

  function Fated(fates: seq<Fate>): seq<Sample> {
    if fates == [] then [] else Fated(fates[..|fates| - 1]) + FateSamples(fates[|fates| - 1])
  }

  function SentBlocks(fates: seq<Fate>): seq<Block> {
    if fates == [] then []
    else SentBlocks(fates[..|fates| - 1]) + (if fates[|fates| - 1].Sent? then [fates[|fates| - 1].b] else [])
  }

  function SentSamples(fates: seq<Fate>): seq<Sample> {
    if fates == [] then []
    else SentSamples(fates[..|fates| - 1]) + (if fates[|fates| - 1].Sent? then fates[|fates| - 1].b.samples else [])
  }

  function LostSamples(fates: seq<Fate>): seq<Sample> {
    if fates == [] then []
    else LostSamples(fates[..|fates| - 1]) + (if fates[|fates| - 1].Sent? then [] else FateSamples(fates[|fates| - 1]))
  }

  function SentSize(fates: seq<Fate>): nat {
    if fates == [] then 0
    else SentSize(fates[..|fates| - 1]) + (if fates[|fates| - 1].Sent? then Size(fates[|fates| - 1].b) else 0)
  }

  function FailedSends(fates: seq<Fate>): nat {
    if fates == [] then 0
    else FailedSends(fates[..|fates| - 1]) + (if fates[|fates| - 1].SendFailed? then 1 else 0)
  }

  function Acked(streams: seq<Stream>): seq<Block> {
    if streams == [] then [] else Acked(streams[..|streams| - 1]) + streams[|streams| - 1].acked
  }

  // ---------------------------------------------------------------- the invariant

  /** The threads use the ring buffers one call at a time. */
  ghost predicate Phases(s: System) {
    && (s.capture == CapturePushing <==> !s.b1.prod.PIdle?)
    && (s.process == ProcessPopping <==> !s.b1.cons.CIdle?)
    && (s.process == ProcessPushing <==> !s.b2.prod.PIdle?)
    && (s.network == NetworkPopping <==> !s.b2.cons.CIdle?)
    && SinglePush(s.b1.prod)
  }

  /** A pop call that asked for at most `n` samples returns at most `n`. */
  ghost predicate AtMost(q: S.Consumer, n: nat) {
    match q
    case TakeCountHead(m) => m <= n
    case TakeCountTail(m, _) => m <= n
    case TakeReadTail(m, _) => m <= n
    case TakeReadSlot(m, _, _, _) => m <= n
    case TakeStore(m, _, _, out) => |out| <= n
    case CReturn(out) => |out| <= n
    case _ => n >= 1
  }

  /** Samples travel in batches of 1 to 256. */
  ghost predicate BatchSizes(s: System) {
    && AtMost(s.b1.cons, BATCH) && AtMost(s.b2.cons, BATCH)
    && (s.network.NetworkHolds? ==> 1 <= |s.network.xs| <= BATCH)
    && (s.network.NetworkSending? ==> 1 <= |s.network.b.samples| <= BATCH)
    && forall f :: f in s.fates ==> 1 <= |FateSamples(f)| <= BATCH
  }

  /** Each stage starts from what the one before it hands over. */
  ghost predicate Flow(s: System) {
    && s.b1.offered == s.generated
    && s.b2.offered == s.b1.delivered
    && s.b2.delivered == Fated(s.fates) + InNetwork(s.network)
  }

  ghost predicate Numbered(generated: seq<Sample>) {
    forall i :: 0 <= i < |generated| ==> generated[i].sequence == Wrap32(i)
  }

  /** The client's connections carry the sends of the history. */
  ghost predicate LinkHistory(socket: Socket, s: System) {
    && s.link == Play(socket, s.events)
    && AllSendable(s.events)
    && Acked(Streams(s.link)) == SentBlocks(s.fates)
  }

  /** Updates of the statistics that are still to come. */
  function PendingTotal(s: System): nat {
    if s.capture == CaptureCounts(true) then 1 else 0
  }

  function PendingDropped(s: System): nat {
    (if s.capture == CaptureCounts(false) then 1 else 0)
    + (if s.process.ProcessCounts? then s.process.lost else 0)
  }

  function PendingBytes(s: System): nat {
    if s.network.NetworkCounts? && s.network.ok then Size(s.network.b) else 0
  }

  function PendingErrors(s: System): nat {
    if s.network.NetworkCounts? && !s.network.ok then 1 else 0
  }

  ghost predicate PushCounters(s: System) {
    && s.stats.totalSamples + PendingTotal(s) == |S.Taken(s.b1.returned)|
    && s.stats.droppedSamples + PendingDropped(s) == |S.Refused(s.b1.returned)| + |S.Refused(s.b2.returned)|
  }

  /** The ADC callback pushes one sample per call. */
  ghost predicate SinglePush(p: S.Producer) {
    match p
    case PIdle => true
    case PushReadHead(_) => true
    case PushReadTail(_, _) => true
    case PushDrop(_) => true
    case PushWrite(_, _, _) => true
    case PushStore(_, _, _) => true
    case PReturn(xs, _) => |xs| == 1
    case _ => false
  }

  ghost predicate SendCounters(s: System) {
    && s.stats.sentBytes + PendingBytes(s) == SentSize(s.fates)
    && s.stats.sendErrors + PendingErrors(s) == FailedSends(s.fates)
  }

  ghost predicate Inv(socket: Socket, s: System) {
    && S.Inv(s.b1) && S.Inv(s.b2)
    && Phases(s) && BatchSizes(s) && Flow(s) && Numbered(s.generated)
    && LinkHistory(socket, s) && PushCounters(s) && SendCounters(s)
  }
}
