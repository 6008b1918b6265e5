/** One uninterrupted turn of each stage of the pipeline: its steps, run to the end of the turn
    with no other thread in between, do what the worker's body does on the real objects. */
module Turns {
  import opened Words
  import opened Rings
  import opened Wire
  import opened Tcp
  import opened Pipeline
  import I = PipelineInv
  import S = Spsc
  import A = SpscSafety

  // ---------------------------------------------------------------- the ADC callback

  function CapturePhase(c: Capture): nat {
    match c
    case CaptureIdle => 0
    case CaptureCounts(_) => 1
    case CapturePushing => 2
  }

  /** The rest of the callback. */
  function FinishCapture(socket: Socket, s: System): System
    requires S.Typed(s.b1) && (s.capture == CapturePushing ==> !s.b1.prod.PIdle?)
    decreases CapturePhase(s.capture), A.ProducerRank(s.b1.prod)
  {
    if s.capture == CaptureIdle then s
    else if s.capture.CaptureCounts? then Apply(socket, s, CaptureCounted)
    else if s.b1.prod.PReturn? then FinishCapture(socket, Apply(socket, s, CapturePushed))
    else
      S.ProducerTyped(s.b1);
      A.OwnStepLowersRank(s.b1);
      I.ProducerFrame(s.b1);
      FinishCapture(socket, Apply(socket, s, CapturePushStep))
  }

  lemma {:induction false} CapturePushes(socket: Socket, s: System)
    requires S.Typed(s.b1) && s.capture == CapturePushing && !s.b1.prod.PIdle?
    ensures var b := A.FinishPush(s.b1);
            S.Typed(b) && b.prod.PReturn? && FinishCapture(socket, s) == FinishCapture(socket, s.(b1 := b))
    decreases A.ProducerRank(s.b1.prod)
  {
    if !s.b1.prod.PReturn? {
      S.ProducerTyped(s.b1);
      A.OwnStepLowersRank(s.b1);
      I.ProducerFrame(s.b1);
      CapturePushes(socket, Apply(socket, s, CapturePushStep));
    }
  }

  lemma CaptureEnds(socket: Socket, s: System)
    requires S.Typed(s.b1) && s.capture == CapturePushing && s.b1.prod.PReturn?
    ensures var s', ok := FinishCapture(socket, s), s.b1.prod.pushed > 0;
            && s' == s.(b1 := s'.b1, capture := CaptureIdle, stats := s'.stats)
            && s'.b1.ring == s.b1.ring
            && s'.stats == (if ok then s.stats.(totalSamples := s.stats.totalSamples + 1)
                            else s.stats.(droppedSamples := s.stats.droppedSamples + 1))
  {
    var s1 := Apply(socket, s, CapturePushed);
    assert FinishCapture(socket, s) == FinishCapture(socket, s1) == Apply(socket, s1, CaptureCounted);
  }

  /** Undisturbed, the callback does to buffer 1 and the statistics what its body does. */
  lemma AloneCapture(socket: Socket, s: System, value: i32, timestamp: u32)
    requires Inv(socket, s) && s.capture == CaptureIdle
    ensures var x := Sample(timestamp, value, Wrap32(|s.generated|), 0, 0);
            var (r, ok) := PushOne(s.b1.ring, x);
            var s1 := Apply(socket, s, CaptureSample(value, timestamp));
            && S.Typed(s1.b1)
            && var s' := FinishCapture(socket, s1);
            && s' == s.(b1 := s'.b1, generated := s.generated + [x], stats := s'.stats)
            && s'.b1.ring == r
            && s'.stats == (if ok then s.stats.(totalSamples := s.stats.totalSamples + 1)
                            else s.stats.(droppedSamples := s.stats.droppedSamples + 1))
  {
    var x := Sample(timestamp, value, Wrap32(|s.generated|), 0, 0);
    var s1 := Apply(socket, s, CaptureSample(value, timestamp));
    A.AlonePush(s.b1, x);
    CapturePushes(socket, s1);
    CaptureEnds(socket, s1.(b1 := A.FinishPush(s1.b1)));
  }

  // ---------------------------------------------------------------- the process worker

  function ProcessPhase(p: Process): nat {
    match p
    case ProcessIdle => 0
    case ProcessCounts(_) => 1
    case ProcessPushing => 2
    case ProcessPopping => 3
  }

  ghost predicate ProcessReady(s: System) {
    && S.Typed(s.b1) && S.Typed(s.b2)
    && (s.process == ProcessPopping ==> !s.b1.cons.CIdle? && s.b2.prod.PIdle?)
    && (s.process == ProcessPushing ==> !s.b2.prod.PIdle?)
  }

  /** The rest of the process worker's turn. */
  function FinishProcess(socket: Socket, s: System): System
    requires ProcessReady(s)
    decreases ProcessPhase(s.process),
              if s.process == ProcessPopping then A.ConsumerRank(s.b1.cons, s.b1.ring.capacity) else A.ProducerRank(s.b2.prod)
  {
    if s.process == ProcessIdle then s
    else if s.process.ProcessCounts? then Apply(socket, s, ProcessCounted)
    else if s.process == ProcessPushing then
      if s.b2.prod.PReturn? then FinishProcess(socket, Apply(socket, s, ProcessPushed))
      else
        S.ProducerTyped(s.b2);
        A.OwnStepLowersRank(s.b2);
        I.ProducerFrame(s.b2);
        FinishProcess(socket, Apply(socket, s, ProcessPushStep))
    else if s.b1.cons.CReturn? then FinishProcess(socket, Apply(socket, s, ProcessPopped))
    else
      PopStep(s.b1);
      FinishProcess(socket, Apply(socket, s, ProcessPopStep))
  }

  lemma PopStep(b: S.State)
    requires S.Enabled(b, S.ConsumerStep)
    ensures var b' := S.ConsumerRuns(b);
            && S.Typed(b') && !b'.cons.CIdle? && b'.prod == b.prod && b'.ring.capacity == b.ring.capacity
            && A.ConsumerRank(b'.cons, b.ring.capacity) < A.ConsumerRank(b.cons, b.ring.capacity)
  {
    S.ConsumerTyped(b);
    A.OwnStepLowersRank(b);
  }

  lemma {:induction false} ProcessPops(socket: Socket, s: System)
    requires ProcessReady(s) && s.process == ProcessPopping
    ensures var b := A.FinishPop(s.b1);
            S.Typed(b) && b.cons.CReturn? && FinishProcess(socket, s) == FinishProcess(socket, s.(b1 := b))
    decreases A.ConsumerRank(s.b1.cons, s.b1.ring.capacity)
  {
    if !s.b1.cons.CReturn? {
      PopStep(s.b1);
      ProcessPops(socket, Apply(socket, s, ProcessPopStep));
    }
  }

  lemma {:induction false} ProcessPushes(socket: Socket, s: System)
    requires ProcessReady(s) && s.process == ProcessPushing
    ensures var b := A.FinishPush(s.b2);
            S.Typed(b) && b.prod.PReturn? && FinishProcess(socket, s) == FinishProcess(socket, s.(b2 := b))
    decreases A.ProducerRank(s.b2.prod)
  {
    if !s.b2.prod.PReturn? {
      S.ProducerTyped(s.b2);
      A.OwnStepLowersRank(s.b2);
      I.ProducerFrame(s.b2);
      ProcessPushes(socket, Apply(socket, s, ProcessPushStep));
    }
  }

  lemma ProcessEnds(socket: Socket, s: System)
    requires ProcessReady(s) && s.process == ProcessPushing && s.b2.prod.PReturn?
    ensures var s' := FinishProcess(socket, s);
            && s' == s.(b2 := s'.b2, process := ProcessIdle, stats := s'.stats)
            && s'.b2.ring == s.b2.ring
            && s'.stats == s.stats.(droppedSamples := s.stats.droppedSamples + (|s.b2.prod.xs| - s.b2.prod.pushed))
  {
    var s1 := Apply(socket, s, ProcessPushed);
    assert FinishProcess(socket, s) == FinishProcess(socket, s1);
    if s1.process.ProcessCounts? {
      assert FinishProcess(socket, s1) == Apply(socket, s1, ProcessCounted);
    }
  }

  /** The turn from the return of its pop on. */
  lemma ProcessMoves(socket: Socket, s: System)
    requires ProcessReady(s) && S.Inv(s.b2) && s.process == ProcessPopping && s.b1.cons.CReturn?
    ensures var s', r2 := FinishProcess(socket, s), PushEach(s.b2.ring, s.b1.cons.out);
            && s' == s.(b1 := s'.b1, b2 := s'.b2, process := ProcessIdle, stats := s'.stats)
            && s'.b1.ring == s.b1.ring && s'.b2.ring == r2
            && s'.stats == s.stats.(droppedSamples := s'.stats.droppedSamples)
            && s'.stats.droppedSamples == s.stats.droppedSamples + (r2.dropped - s.b2.ring.dropped)
  {
    var xs := s.b1.cons.out;
    PushEachClosed(s.b2.ring, xs);
    var s1 := Apply(socket, s, ProcessPopped);
    assert FinishProcess(socket, s) == FinishProcess(socket, s1);
    if xs != [] {
      A.AlonePushBatch(s.b2, xs);
      ProcessPushes(socket, s1);
      ProcessEnds(socket, s1.(b2 := A.FinishPush(s1.b2)));
    }
  }

  /** Undisturbed, the process worker moves to buffer 2 what its body moves, and counts as
      dropped what buffer 2 refuses. */
  lemma AloneProcess(socket: Socket, s: System)
    requires Inv(socket, s) && s.process == ProcessIdle
    ensures var (r1, xs) := PopEach(s.b1.ring, BATCH);
            var r2 := PushEach(s.b2.ring, xs);
            var s1 := Apply(socket, s, ProcessPoll);
            && ProcessReady(s1)
            && var s' := FinishProcess(socket, s1);
            && s' == s.(b1 := s'.b1, b2 := s'.b2, stats := s'.stats)
            && s'.b1.ring == r1 && s'.b2.ring == r2
            && s'.stats == s.stats.(droppedSamples := s'.stats.droppedSamples)
            && s'.stats.droppedSamples == s.stats.droppedSamples + (r2.dropped - s.b2.ring.dropped)
  {
    var s1 := Apply(socket, s, ProcessPoll);
    A.AlonePopBatch(s.b1, BATCH);
    ProcessPops(socket, s1);
    ProcessMoves(socket, s1.(b1 := A.FinishPop(s1.b1)));
  }

  // ---------------------------------------------------------------- the network worker

  function NetworkPhase(n: Network): nat {
    match n
    case NetworkIdle => 0
    case NetworkCounts(_, _) => 1
    case NetworkSending(_) => 2
    case NetworkHolds(_) => 3
    case NetworkPopping => 4
  }

  ghost predicate NetworkReady(s: System) {
    S.Typed(s.b2) && (s.network == NetworkPopping ==> !s.b2.cons.CIdle?)
  }

  /** The rest of the network worker's turn; `available` and `now` stand for the block pool and
      the clock. */
  function FinishNetwork(socket: Socket, s: System, available: bool, now: u64): System
    requires NetworkReady(s)
    decreases NetworkPhase(s.network), A.ConsumerRank(s.b2.cons, s.b2.ring.capacity)
  {
    match s.network
    case NetworkIdle => s
    case NetworkCounts(_, _) => Apply(socket, s, NetworkCounted)
    case NetworkSending(_) => FinishNetwork(socket, Apply(socket, s, NetworkSend), available, now)
    case NetworkHolds(_) => FinishNetwork(socket, Apply(socket, s, NetworkBlock(available, now)), available, now)
    case NetworkPopping =>
      if s.b2.cons.CReturn? then FinishNetwork(socket, Apply(socket, s, NetworkPopped), available, now)
      else
        PopStep(s.b2);
        FinishNetwork(socket, Apply(socket, s, NetworkPopStep), available, now)
  }

  lemma {:induction false} NetworkPops(socket: Socket, s: System, available: bool, now: u64)
    requires NetworkReady(s) && s.network == NetworkPopping
    ensures var b := A.FinishPop(s.b2);
            && S.Typed(b) && b.cons.CReturn?
            && FinishNetwork(socket, s, available, now) == FinishNetwork(socket, s.(b2 := b), available, now)
    decreases A.ConsumerRank(s.b2.cons, s.b2.ring.capacity)
  {
    if !s.b2.cons.CReturn? {
      PopStep(s.b2);
      NetworkPops(socket, Apply(socket, s, NetworkPopStep), available, now);
    }
  }

  function Counted(st: Stats, b: Block, err: AdcError): Stats {
    if err == Ok then st.(sentBytes := st.sentBytes + Size(b)) else st.(sendErrors := st.sendErrors + 1)
  }

  lemma NetworkSends(socket: Socket, s: System, available: bool, now: u64)
    requires NetworkReady(s) && s.network.NetworkSending?
    ensures var s', (link, err) := FinishNetwork(socket, s, available, now), SendBlock(s.link, socket, s.network.b);
            && s'.link == link && s'.stats == Counted(s.stats, s.network.b, err)
            && s' == s.(link := link, stats := s'.stats, network := NetworkIdle, fates := s'.fates, events := s'.events)
  {
    var s1 := Apply(socket, s, NetworkSend);
    assert FinishNetwork(socket, s, available, now) == FinishNetwork(socket, s1, available, now)
        == Apply(socket, s1, NetworkCounted);
  }

  /** The turn from the return of its pop on. */
  lemma NetworkMoves(socket: Socket, s: System, available: bool, now: u64)
    requires NetworkReady(s) && s.network == NetworkPopping && s.b2.cons.CReturn?
    ensures var s', xs := FinishNetwork(socket, s, available, now), s.b2.cons.out;
            var b := Block(BLOCK_VERSION, 0, now, xs);
            && s' == s.(b2 := s'.b2, link := s'.link, stats := s'.stats, network := NetworkIdle,
                        fates := s'.fates, events := s'.events)
            && s'.b2.ring == s.b2.ring
            && if xs == [] || !available then s'.link == s.link && s'.stats == s.stats
               else var (link, err) := SendBlock(s.link, socket, b); s'.link == link && s'.stats == Counted(s.stats, b, err)
  {
    var s1 := Apply(socket, s, NetworkPopped);
    assert FinishNetwork(socket, s, available, now) == FinishNetwork(socket, s1, available, now);
    if s1.network != NetworkIdle {
      var s2 := Apply(socket, s1, NetworkBlock(available, now));
      assert FinishNetwork(socket, s1, available, now) == FinishNetwork(socket, s2, available, now);
      if available {
        NetworkSends(socket, s2, available, now);
      }
    }
  }

  /** A whole turn; `reachable` stands for the network. */
  function NetworkTurn(socket: Socket, s: System, reachable: bool, available: bool, now: u64): System
    requires S.Inv(s.b2) && s.network == NetworkIdle && s.b2.cons.CIdle?
  {
    var s1 := if s.link.connected then s else Apply(socket, s, NetworkConnect(reachable));
    if !s1.link.connected then s1
    else FinishNetwork(socket, Apply(socket, s1, NetworkPoll), available, now)
  }

  /** The turn of a connected client, from its poll on. */
  lemma NetworkPolls(socket: Socket, s: System, available: bool, now: u64)
    requires S.Inv(s.b2) && s.network == NetworkIdle && s.b2.cons.CIdle? && s.link.connected
    ensures var s1 := Apply(socket, s, NetworkPoll);
            var (r2, xs) := PopEach(s.b2.ring, SAMPLES_PER_BLOCK);
            var b := Block(BLOCK_VERSION, 0, now, xs);
            && NetworkReady(s1)
            && var s' := FinishNetwork(socket, s1, available, now);
            && s' == s.(b2 := s'.b2, link := s'.link, stats := s'.stats, fates := s'.fates, events := s'.events)
            && s'.b2.ring == r2
            && if xs == [] || !available then s'.link == s.link && s'.stats == s.stats
               else var (link, err) := SendBlock(s.link, socket, b); s'.link == link && s'.stats == Counted(s.stats, b, err)
  {
    var s1 := Apply(socket, s, NetworkPoll);
    A.AlonePopBatch(s.b2, SAMPLES_PER_BLOCK);
    NetworkPops(socket, s1, available, now);
    NetworkMoves(socket, s1.(b2 := A.FinishPop(s1.b2)), available, now);
  }

  /** Undisturbed, the network worker takes from buffer 2, puts on the connection and counts what
      its body does. */
  lemma AloneNetwork(socket: Socket, s: System, reachable: bool, available: bool, now: u64)
    requires S.Inv(s.b2) && s.network == NetworkIdle && s.b2.cons.CIdle?
    ensures var s' := NetworkTurn(socket, s, reachable, available, now);
            var linked := ConnectLink(s.link, reachable).0;
            var (r2, xs) := PopEach(s.b2.ring, SAMPLES_PER_BLOCK);
            var b := Block(BLOCK_VERSION, 0, now, xs);
            && s' == s.(b2 := s'.b2, link := s'.link, stats := s'.stats, fates := s'.fates, events := s'.events)
            && if !linked.connected
               then s'.b2 == s.b2 && s'.link == s.link && s'.stats == s.stats
               else && s'.b2.ring == r2
                    && if xs == [] || !available then s'.link == linked && s'.stats == s.stats
                       else var (link, err) := SendBlock(linked, socket, b);
                            s'.link == link && s'.stats == Counted(s.stats, b, err)
  {
    var s1 := if s.link.connected then s else Apply(socket, s, NetworkConnect(reachable));
    if s1.link.connected {
      NetworkPolls(socket, s1, available, now);
    }
  }
}
