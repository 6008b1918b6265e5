/** The pipeline's invariant holds in every reachable state. */
module PipelineInv {
  import opened Words
  import opened Rings
  import opened Wire
  import opened Tcp
  import opened Framing
  import opened Pipeline
  import S = Spsc

  // ---------------------------------------------------------------- frames of the buffer steps

  lemma ProducerFrame(b: S.State)
    requires S.Enabled(b, S.ProducerStep)
    ensures var b' := S.ProducerRuns(b);
            && !b'.prod.PIdle? && b'.cons == b.cons
            && b'.offered == b.offered && b'.returned == b.returned
            && b'.popped == b.popped && b'.delivered == b.delivered
            && (SinglePush(b.prod) ==> SinglePush(b'.prod))
  {
  }

  lemma ConsumerFrame(b: S.State, n: nat)
    requires S.Enabled(b, S.ConsumerStep)
    ensures var b' := S.ConsumerRuns(b);
            && !b'.cons.CIdle? && b'.prod == b.prod
            && b'.offered == b.offered && b'.returned == b.returned && b'.log == b.log
            && b'.delivered == b.delivered
            && (AtMost(b.cons, n) ==> AtMost(b'.cons, n))
  {
  }

  // ---------------------------------------------------------------- one component at a time

  lemma FatesGrow(fates: seq<Fate>, f: Fate)
    ensures Fated(fates + [f]) == Fated(fates) + FateSamples(f)
    ensures SentBlocks(fates + [f]) == SentBlocks(fates) + (if f.Sent? then [f.b] else [])
  {
    assert (fates + [f])[..|fates|] == fates;
  }

  lemma SizesGrow(fates: seq<Fate>, f: Fate)
    ensures SentSize(fates + [f]) == SentSize(fates) + (if f.Sent? then Size(f.b) else 0)
    ensures FailedSends(fates + [f]) == FailedSends(fates) + (if f.SendFailed? then 1 else 0)
  {
    assert (fates + [f])[..|fates|] == fates;
  }

  lemma KeepsBuffers(socket: Socket, s: System, step: Step)
    requires S.Inv(s.b1) && S.Inv(s.b2) && Enabled(s, step)
    ensures var s' := Apply(socket, s, step); S.Inv(s'.b1) && S.Inv(s'.b2)
  {
    match step
    case CaptureSample(v, ts) => S.StepKeepsInv(s.b1, S.BeginPush(Sample(ts, v, Wrap32(|s.generated|), 0, 0)));
    case CapturePushStep => S.StepKeepsInv(s.b1, S.ProducerStep);
    case CapturePushed => S.StepKeepsInv(s.b1, S.EndPush);
    case ProcessPoll => S.StepKeepsInv(s.b1, S.BeginPopBatch(BATCH));
    case ProcessPopStep => S.StepKeepsInv(s.b1, S.ConsumerStep);
    case ProcessPopped =>
      S.StepKeepsInv(s.b1, S.EndPop);
      S.StepKeepsInv(s.b2, S.BeginPushBatch(s.b1.cons.out));
    case ProcessPushStep => S.StepKeepsInv(s.b2, S.ProducerStep);
    case ProcessPushed => S.StepKeepsInv(s.b2, S.EndPush);
    case NetworkPoll => S.StepKeepsInv(s.b2, S.BeginPopBatch(SAMPLES_PER_BLOCK));
    case NetworkPopStep => S.StepKeepsInv(s.b2, S.ConsumerStep);
    case NetworkPopped => S.StepKeepsInv(s.b2, S.EndPop);
    case _ =>
  }

  lemma CaptureKeepsPhases(socket: Socket, s: System, step: Step)
    requires Phases(s) && BatchSizes(s) && Enabled(s, step) && OfCapture(step)
    ensures Phases(Apply(socket, s, step)) && BatchSizes(Apply(socket, s, step))
  {
    if step.CapturePushStep? { ProducerFrame(s.b1); }
  }

  lemma ProcessKeepsPhases(socket: Socket, s: System, step: Step)
    requires Phases(s) && BatchSizes(s) && Enabled(s, step) && OfProcess(step)
    ensures Phases(Apply(socket, s, step)) && BatchSizes(Apply(socket, s, step))
  {
    if step.ProcessPopStep? { ConsumerFrame(s.b1, BATCH); }
    if step.ProcessPushStep? { ProducerFrame(s.b2); }
  }

  lemma NetworkKeepsPhases(socket: Socket, s: System, step: Step)
    requires Phases(s) && BatchSizes(s) && Enabled(s, step) && !OfCapture(step) && !OfProcess(step)
    ensures Phases(Apply(socket, s, step)) && BatchSizes(Apply(socket, s, step))
  {
    if step.NetworkPopStep? { ConsumerFrame(s.b2, BATCH); }
  }

  lemma KeepsPhases(socket: Socket, s: System, step: Step)
    requires Phases(s) && BatchSizes(s) && Enabled(s, step)
    ensures Phases(Apply(socket, s, step)) && BatchSizes(Apply(socket, s, step))
  {
    if OfCapture(step) {
      CaptureKeepsPhases(socket, s, step);
    } else if OfProcess(step) {
      ProcessKeepsPhases(socket, s, step);
    } else {
      NetworkKeepsPhases(socket, s, step);
    }
  }

  predicate OfCapture(step: Step) {
    step.CaptureSample? || step.CapturePushStep? || step.CapturePushed? || step.CaptureCounted?
  }

  predicate OfProcess(step: Step) {
    step.ProcessPoll? || step.ProcessPopStep? || step.ProcessPopped?
    || step.ProcessPushStep? || step.ProcessPushed? || step.ProcessCounted?
  }

  lemma CaptureKeepsFlow(socket: Socket, s: System, step: Step)
    requires Flow(s) && Enabled(s, step) && OfCapture(step)
    ensures Flow(Apply(socket, s, step))
  {
    if step.CapturePushStep? { ProducerFrame(s.b1); }
  }

  lemma ProcessKeepsFlow(socket: Socket, s: System, step: Step)
    requires Flow(s) && Enabled(s, step) && OfProcess(step)
    ensures Flow(Apply(socket, s, step))
  {
    if step.ProcessPopStep? { ConsumerFrame(s.b1, BATCH); }
    if step.ProcessPushStep? { ProducerFrame(s.b2); }
  }

  /** What became of a batch joins the history; nothing is held any more. */
  lemma FateKeepsFlow(s: System, s': System, f: Fate)
    requires Flow(s) && FateSamples(f) == InNetwork(s.network)
    requires s'.fates == s.fates + [f] && InNetwork(s'.network) == []
    requires s'.b1 == s.b1 && s'.b2 == s.b2 && s'.generated == s.generated
    ensures Flow(s')
  {
    FatesGrow(s.fates, f);
  }

  /** A send decides the fate of its batch. */
  lemma SendFrame(socket: Socket, s: System) returns (f: Fate)
    requires s.network.NetworkSending?
    ensures var s', b := Apply(socket, s, NetworkSend), s.network.b;
            && (f == Sent(b) || f == SendFailed(b))
            && s' == s.(link := s'.link, events := s'.events, fates := s.fates + [f], network := NetworkCounts(b, f.Sent?))
  {
    var b := s.network.b;
    f := if SendBlock(s.link, socket, b).1 == Ok then Sent(b) else SendFailed(b);
  }

  lemma SendKeepsFlow(socket: Socket, s: System)
    requires Flow(s) && s.network.NetworkSending?
    ensures Flow(Apply(socket, s, NetworkSend))
  {
    var f := SendFrame(socket, s);
    FateKeepsFlow(s, Apply(socket, s, NetworkSend), f);
  }

  lemma BlockKeepsFlow(socket: Socket, s: System, available: bool, now: u64)
    requires Flow(s) && s.network.NetworkHolds?
    ensures Flow(Apply(socket, s, NetworkBlock(available, now)))
  {
    if !available {
      FateKeepsFlow(s, Apply(socket, s, NetworkBlock(available, now)), WithoutBlock(s.network.xs));
    }
  }

  lemma PopKeepsFlow(socket: Socket, s: System, step: Step)
    requires Flow(s) && Enabled(s, step) && (step.NetworkPoll? || step.NetworkPopStep? || step.NetworkPopped?)
    ensures Flow(Apply(socket, s, step))
  {
    if step.NetworkPopStep? { ConsumerFrame(s.b2, BATCH); }
  }

  lemma NetworkKeepsFlow(socket: Socket, s: System, step: Step)
    requires Flow(s) && Enabled(s, step) && !OfCapture(step) && !OfProcess(step)
    ensures Flow(Apply(socket, s, step))
  {
    match step
    case NetworkSend => SendKeepsFlow(socket, s);
    case NetworkBlock(available, now) => BlockKeepsFlow(socket, s, available, now);
    case NetworkConnect(_) =>
    case NetworkCounted =>
    case _ => PopKeepsFlow(socket, s, step);
  }

  lemma KeepsFlow(socket: Socket, s: System, step: Step)
    requires Phases(s) && Flow(s) && Enabled(s, step)
    ensures Flow(Apply(socket, s, step))
  {
    if OfCapture(step) {
      CaptureKeepsFlow(socket, s, step);
    } else if OfProcess(step) {
      ProcessKeepsFlow(socket, s, step);
    } else {
      NetworkKeepsFlow(socket, s, step);
    }
  }

  lemma KeepsNumbered(socket: Socket, s: System, step: Step)
    requires Numbered(s.generated) && Enabled(s, step)
    ensures Numbered(Apply(socket, s, step).generated)
  {
  }

  lemma AckedOfSend(l: Link, socket: Socket, b: Block)
    ensures var (l', err) := SendBlock(l, socket, b);
            Acked(Streams(l')) == Acked(Streams(l)) + (if err == Ok then [b] else [])
  {
    var l' := SendBlock(l, socket, b).0;
    assert Streams(l')[..|l'.past|] == l.past == Streams(l)[..|l.past|];
  }

  lemma AckedOfConnect(l: Link, reachable: bool)
    ensures Acked(Streams(ConnectLink(l, reachable).0)) == Acked(Streams(l))
  {
    var l' := ConnectLink(l, reachable).0;
    if l' != l {
      assert Streams(l') == Streams(l) + [EMPTY_STREAM];
      assert Streams(l')[..|Streams(l)|] == Streams(l);
    }
  }

  lemma EventsGrow(socket: Socket, events: seq<Event>, e: Event)
    ensures Play(socket, events + [e]) == After(Play(socket, events), socket, e)
  {
    assert (events + [e])[..|events|] == events;
  }

  lemma SendKeepsLinkHistory(socket: Socket, s: System)
    requires BatchSizes(s) && LinkHistory(socket, s) && s.network.NetworkSending?
    ensures LinkHistory(socket, Apply(socket, s, NetworkSend))
  {
    var b := s.network.b;
    var s' := Apply(socket, s, NetworkSend);
    EventsGrow(socket, s.events, Sending(b));
    assert s'.link == Play(socket, s'.events);
    AckedOfSend(s.link, socket, b);
    FatesGrow(s.fates, s'.fates[|s.fates|]);
    assert Sendable(b);
  }

  lemma ConnectKeepsLinkHistory(socket: Socket, s: System, reachable: bool)
    requires LinkHistory(socket, s) && Enabled(s, NetworkConnect(reachable))
    ensures LinkHistory(socket, Apply(socket, s, NetworkConnect(reachable)))
  {
    EventsGrow(socket, s.events, Connecting(reachable));
    AckedOfConnect(s.link, reachable);
  }

  lemma KeepsLinkHistory(socket: Socket, s: System, step: Step)
    requires BatchSizes(s) && LinkHistory(socket, s) && Enabled(s, step)
    ensures LinkHistory(socket, Apply(socket, s, step))
  {
    if step.NetworkSend? {
      SendKeepsLinkHistory(socket, s);
    } else if step.NetworkConnect? {
      ConnectKeepsLinkHistory(socket, s, step.reachable);
    } else if step.NetworkBlock? {
      FatesGrow(s.fates, WithoutBlock(s.network.xs));
    }
  }

  lemma ReturnCounts(b: S.State)
    requires S.Enabled(b, S.EndPush)
    ensures var b' := S.Apply(b, S.EndPush);
            && |S.Taken(b'.returned)| == |S.Taken(b.returned)| + b.prod.pushed
            && |S.Refused(b'.returned)| == |S.Refused(b.returned)| + |b.prod.xs| - b.prod.pushed
  {
    var xs, p := b.prod.xs, b.prod.pushed;
    S.LogGrows(b.returned, S.Call(xs[..p], xs[p..]));
  }

  lemma CaptureKeepsPushCounters(socket: Socket, s: System, step: Step)
    requires S.Typed(s.b1) && Phases(s) && PushCounters(s) && Enabled(s, step) && OfCapture(step)
    ensures PushCounters(Apply(socket, s, step))
  {
    if step.CapturePushStep? {
      ProducerFrame(s.b1);
    } else if step.CapturePushed? {
      ReturnCounts(s.b1);
    }
  }

  lemma PushedKeepsPushCounters(socket: Socket, s: System)
    requires PushCounters(s) && Enabled(s, ProcessPushed)
    ensures PushCounters(Apply(socket, s, ProcessPushed))
  {
    ReturnCounts(s.b2);
  }

  lemma ProcessKeepsPushCounters(socket: Socket, s: System, step: Step)
    requires S.Typed(s.b2) && Phases(s) && PushCounters(s) && Enabled(s, step) && OfProcess(step)
    ensures PushCounters(Apply(socket, s, step))
  {
    if step.ProcessPopStep? {
      ConsumerFrame(s.b1, BATCH);
    } else if step.ProcessPushStep? {
      ProducerFrame(s.b2);
    } else if step.ProcessPushed? {
      PushedKeepsPushCounters(socket, s);
    }
  }

  lemma NetworkKeepsPushCounters(socket: Socket, s: System, step: Step)
    requires PushCounters(s) && Enabled(s, step) && !OfCapture(step) && !OfProcess(step)
    ensures PushCounters(Apply(socket, s, step))
  {
    if step.NetworkPopStep? { ConsumerFrame(s.b2, BATCH); }
  }

  lemma KeepsPushCounters(socket: Socket, s: System, step: Step)
    requires S.Typed(s.b1) && S.Typed(s.b2) && Phases(s) && PushCounters(s) && Enabled(s, step)
    ensures PushCounters(Apply(socket, s, step))
  {
    if OfCapture(step) {
      CaptureKeepsPushCounters(socket, s, step);
    } else if OfProcess(step) {
      ProcessKeepsPushCounters(socket, s, step);
    } else {
      NetworkKeepsPushCounters(socket, s, step);
    }
  }

  lemma SendKeepsSendCounters(s: System, s': System, f: Fate)
    requires SendCounters(s) && s.network.NetworkSending? && s'.stats == s.stats
    requires f == Sent(s.network.b) || f == SendFailed(s.network.b)
    requires s'.fates == s.fates + [f] && s'.network == NetworkCounts(s.network.b, f.Sent?)
    ensures SendCounters(s')
  {
    SizesGrow(s.fates, f);
  }

  lemma BlockKeepsSendCounters(s: System, s': System)
    requires SendCounters(s) && s.network.NetworkHolds? && s'.stats == s.stats
    requires s'.fates == s.fates + [WithoutBlock(s.network.xs)] && s'.network == NetworkIdle
    ensures SendCounters(s')
  {
    SizesGrow(s.fates, WithoutBlock(s.network.xs));
  }

  lemma KeepsSendCounters(socket: Socket, s: System, step: Step)
    requires SendCounters(s) && Enabled(s, step)
    ensures SendCounters(Apply(socket, s, step))
  {
    if step.NetworkSend? {
      var f := SendFrame(socket, s);
      SendKeepsSendCounters(s, Apply(socket, s, step), f);
    } else if step.NetworkBlock? && !step.available {
      BlockKeepsSendCounters(s, Apply(socket, s, step));
    }
  }

  // ---------------------------------------------------------------- all of it

  lemma InitInv(socket: Socket, s: System)
    requires Init(s)
    ensures Inv(socket, s)
  {
    S.InitInv(s.b1);
    S.InitInv(s.b2);
    assert Streams(NEW_LINK)[..0] == [];
  }

  lemma StepKeepsInv(socket: Socket, s: System, step: Step)
    requires Inv(socket, s) && Enabled(s, step)
    ensures Inv(socket, Apply(socket, s, step))
  {
    KeepsBuffers(socket, s, step);
    KeepsPhases(socket, s, step);
    KeepsFlow(socket, s, step);
    KeepsNumbered(socket, s, step);
    KeepsLinkHistory(socket, s, step);
    KeepsPushCounters(socket, s, step);
    KeepsSendCounters(socket, s, step);
  }

  lemma {:induction false} RunKeepsInv(socket: Socket, run: seq<System>, i: nat)
    requires IsRun(socket, run) && i < |run|
    ensures Inv(socket, run[i])
  {
    if i == 0 {
      InitInv(socket, run[0]);
    } else {
      RunKeepsInv(socket, run, i - 1);
      assert Next(socket, run[i - 1], run[i - 1 + 1]);
      var step :| Enabled(run[i - 1], step) && run[i] == Apply(socket, run[i - 1], step);
      StepKeepsInv(socket, run[i - 1], step);
    }
  }
}
