/** What each call returns in a run, whatever the other thread does while it is under way. */
module SpscResults {
  import opened Words
  import opened Rings
  import opened Spsc
  import opened SpscSafety

  // ---------------------------------------------------------------- pops

  /** A pop is about to read `head`: the first thing it does. */
  predicate ReadsHead(q: Consumer) {
    q.PopReadHead? || q.TakeCountHead?
  }

  predicate PastHead(q: Consumer) {
    !q.CIdle? && !ReadsHead(q)
  }

  /** The number of samples that the pop about to read `head` asks for. */
  function Asked(q: Consumer): nat {
    if q.TakeCountHead? then q.n else 1
  }

  /** The samples that the pop returns if it goes by what it finds in `s`. */
  function Due(s: State): (xs: seq<Sample>)
    requires s.ring.Valid()
  {
    s.ring.Contents()[..Min(Asked(s.cons), |s.ring.Contents()|)]
  }

  /** Between `sj` and `s` the queue has only grown. */
  ghost predicate OnlyGrown(sj: State, s: State)
    requires sj.ring.Valid() && s.ring.Valid()
  {
    s.ring.capacity == sj.ring.capacity && s.ring.tail == sj.ring.tail && sj.ring.Contents() <= s.ring.Contents()
  }

  /** The pop under way in `s` read `head` in `sj` and goes by what the queue was then. */
  ghost predicate GoesBy(sj: State, s: State) {
    && Typed(sj) && Typed(s) && ReadsHead(sj.cons)
    && var k := |sj.ring.Contents()|;
    match s.cons
    case CIdle => false
    case PopReadHead => false
    case TakeCountHead(_) => false
    case PopReadTail(h) => sj.cons.PopReadHead? && OnlyGrown(sj, s) && h == sj.ring.head
    case PopReadTailAgain(seen) => sj.cons.PopReadHead? && OnlyGrown(sj, s) && seen == k > 0
    case PopReadSlot(seen, _) => sj.cons.PopReadHead? && OnlyGrown(sj, s) && seen == k > 0
    case PopStore(seen, _, _) => sj.cons.PopReadHead? && OnlyGrown(sj, s) && seen == k > 0
    case TakeCountTail(n, h) => sj.cons == TakeCountHead(n) && OnlyGrown(sj, s) && h == sj.ring.head
    case TakeReadTail(n, seen) => sj.cons == TakeCountHead(n) && OnlyGrown(sj, s) && seen == k
    case TakeReadSlot(n, seen, _, _) => sj.cons == TakeCountHead(n) && OnlyGrown(sj, s) && seen == k
    case TakeStore(n, seen, _, _) => sj.cons == TakeCountHead(n) && OnlyGrown(sj, s) && seen == k
    case CReturn(out) => out == Due(sj)
  }

  lemma ReadsHeadStep(s: State)
    requires Inv(s) && Enabled(s, ConsumerStep) && ReadsHead(s.cons)
    ensures GoesBy(s, ConsumerRuns(s))
  {
    ConsumerTyped(s);
  }

  lemma ConsumerGoesOn(sj: State, s: State)
    requires Typed(s) && ConsumerInv(s) && Enabled(s, ConsumerStep) && GoesBy(sj, s)
    ensures GoesBy(sj, ConsumerRuns(s))
  {
    ConsumerTyped(s);
    if s.cons.PopReadTail? || s.cons.TakeCountTail? {
      assert Between(sj.ring.tail, sj.ring.head, sj.ring.capacity) == |sj.ring.Contents()|;
    } else if s.cons.PopStore? {
      assert [s.cons.x] == sj.ring.Contents()[..1];
    } else if s.cons.TakeStore? {
      assert s.cons.out == sj.ring.Contents()[..|s.cons.out|];
    }
  }

  lemma OtherGoesOn(sj: State, s: State, s': State)
    requires GoesBy(sj, s) && Typed(s') && s'.cons == s.cons
    requires s'.ring.capacity == s.ring.capacity && s'.ring.tail == s.ring.tail && s.ring.Contents() <= s'.ring.Contents()
    ensures GoesBy(sj, s')
  {
  }

  lemma StepGoesOn(sj: State, s: State, step: Step)
    requires Inv(s) && Enabled(s, step) && GoesBy(sj, s) && step != EndPop
    ensures GoesBy(sj, Apply(s, step))
  {
    if step == ConsumerStep {
      ConsumerGoesOn(sj, s);
    } else {
      OtherStepGrows(s, step);
      OtherGoesOn(sj, s, Apply(s, step));
    }
  }

  lemma OtherStepGrows(s: State, step: Step)
    requires Inv(s) && Enabled(s, step) && step != ConsumerStep && step != EndPop && !s.cons.CIdle?
    ensures var s' := Apply(s, step);
            && Typed(s') && s'.cons == s.cons
            && s'.ring.capacity == s.ring.capacity && s'.ring.tail == s.ring.tail
            && s.ring.Contents() <= s'.ring.Contents()
  {
    if step == ProducerStep {
      ProducerTyped(s);
      ProducerFifo(s);
    }
  }

  /** A batch pop of no samples begins, and has its result at once. */
  ghost predicate PopsNothing(s: State, s': State) {
    Enabled(s, BeginPopBatch(0)) && s' == Apply(s, BeginPopBatch(0)) && s'.cons == CReturn([])
  }

  /** One step of a run, seen from a pop that is past its read of `head` after it. */
  ghost predicate PopLeads(s: State, s': State) {
    PastHead(s'.cons) ==>
      || GoesBy(s, s')
      || PopsNothing(s, s')
      || (PastHead(s.cons)
          && (forall sj :: GoesBy(sj, s) ==> GoesBy(sj, s'))
          && (s.cons == CReturn([]) ==> s'.cons == CReturn([])))
  }

  lemma PopInstant(run: seq<State>, i: nat)
    requires IsRun(run) && i + 1 < |run|
    ensures PopLeads(run[i], run[i + 1])
  {
    var s := run[i];
    var step := StepAt(run, i);
    if PastHead(run[i + 1].cons) {
      if step == ConsumerStep && ReadsHead(s.cons) {
        ReadsHeadStep(s);
      } else if PastHead(s.cons) && step != EndPop {
        forall sj | GoesBy(sj, s)
          ensures GoesBy(sj, run[i + 1])
        {
          StepGoesOn(sj, s, step);
        }
      }
    }
  }

  /** From instant j, exclusive, to instant i one and the same pop is under way, past its read of
      `head`. */
  ghost predicate SamePop(run: seq<State>, j: nat, i: nat)
    requires i < |run|
  {
    forall m :: j < m <= i ==> PastHead(run[m].cons)
  }

  lemma {:induction false} PopSince(run: seq<State>, i: nat) returns (j: nat)
    requires i < |run| && run[0].cons == CIdle && PastHead(run[i].cons)
    requires forall m :: 0 <= m < i ==> PopLeads(run[m], run[m + 1])
    ensures j < i && SamePop(run, j, i)
    ensures GoesBy(run[j], run[i]) || (PopsNothing(run[j], run[j + 1]) && run[i].cons == CReturn([]))
  {
    assert PopLeads(run[i - 1], run[i - 1 + 1]);
    if GoesBy(run[i - 1], run[i]) || PopsNothing(run[i - 1], run[i]) {
      j := i - 1;
    } else {
      j := PopSince(run, i - 1);
    }
  }

  /** What a pop returns: when a pop has its result, then that is exactly the front of the queue as
      it was at the instant j at which this very call read `head`, as much as was asked for or was
      there, whatever the producer has done since. */
  lemma PopResult(run: seq<State>, i: nat) returns (j: nat)
    requires IsRun(run) && i < |run| && run[i].cons.CReturn?
    ensures j < i && SamePop(run, j, i) && run[j].ring.Valid()
    ensures if ReadsHead(run[j].cons) then run[i].cons.out == Due(run[j])
            else PopsNothing(run[j], run[j + 1]) && run[i].cons.out == []
  {
    forall m | 0 <= m < i
      ensures PopLeads(run[m], run[m + 1])
    {
      PopInstant(run, m);
    }
    j := PopSince(run, i);
    RunKeepsInv(run, j);
  }

  // ---------------------------------------------------------------- pushes

  /** A push is about to read `tail`. */
  predicate ReadsTail(p: Producer) {
    p.PushReadTail? || p.BatchCountTail?
  }

  predicate PastTail(p: Producer) {
    !p.PIdle? && !p.PushReadHead? && !p.BatchCountHead? && !ReadsTail(p)
  }

  /** The samples of the push about to read `tail`. */
  function Given(p: Producer): seq<Sample> {
    match p
    case PushReadTail(x, _) => [x]
    case BatchCountTail(xs, _) => xs
    case _ => []
  }

  /** How many of them the buffer takes if the push goes by what it finds in `s`. */
  function Fitting(s: State): nat
    requires s.ring.Valid()
  {
    Min(|Given(s.prod)|, s.ring.Available())
  }

  /** The push under way in `s` read `tail` in `sj` and goes by what fitted then. */
  ghost predicate FitsBy(sj: State, s: State) {
    && Typed(sj) && Typed(s) && ReadsTail(sj.prod) && s.ring.capacity == sj.ring.capacity
    && var given, n := Given(sj.prod), Fitting(sj);
    match s.prod
    case PushDrop(x) => sj.prod.PushReadTail? && given == [x] && n == 0
    case PushWrite(x, _, _) => sj.prod.PushReadTail? && given == [x] && n == 1
    case PushStore(x, _, _) => sj.prod.PushReadTail? && given == [x] && n == 1
    case BatchDropAll(xs) => given == xs && n == 0
    case BatchReadHead(xs, k) => given == xs && n == ToPush(xs, k, s.ring.capacity)
    case BatchWrite(xs, k, _, _) => given == xs && n == ToPush(xs, k, s.ring.capacity)
    case BatchStore(xs, k, _) => given == xs && n == ToPush(xs, k, s.ring.capacity)
    case BatchDropRest(xs, pushed) => given == xs && n == pushed
    case PReturn(xs, pushed) => given == xs && n == pushed
    case _ => false
  }

  lemma ReadsTailStep(s: State)
    requires Inv(s) && Enabled(s, ProducerStep) && ReadsTail(s.prod)
    ensures FitsBy(s, ProducerRuns(s))
  {
    ProducerTyped(s);
  }

  lemma ProducerGoesOn(sj: State, s: State)
    requires Enabled(s, ProducerStep) && FitsBy(sj, s)
    ensures FitsBy(sj, ProducerRuns(s))
  {
    ProducerTyped(s);
  }

  lemma StepFits(sj: State, s: State, step: Step)
    requires Inv(s) && Enabled(s, step) && FitsBy(sj, s) && step != EndPush
    ensures FitsBy(sj, Apply(s, step))
  {
    if step == ProducerStep {
      ProducerGoesOn(sj, s);
    } else {
      StepKeepsInv(s, step);
      StepKeepsCapacity(s, step);
      OtherFits(sj, s, Apply(s, step));
    }
  }

  lemma OtherFits(sj: State, s: State, s': State)
    requires FitsBy(sj, s) && Typed(s') && s'.prod == s.prod && s'.ring.capacity == s.ring.capacity
    ensures FitsBy(sj, s')
  {
  }

  /** A batch push of no samples begins, and has its result at once. */
  ghost predicate PushesNothing(s: State, s': State) {
    Enabled(s, BeginPushBatch([])) && s' == Apply(s, BeginPushBatch([])) && s'.prod == PReturn([], 0)
  }

  ghost predicate PushLeads(s: State, s': State) {
    PastTail(s'.prod) ==>
      || FitsBy(s, s')
      || PushesNothing(s, s')
      || (PastTail(s.prod)
          && (forall sj :: FitsBy(sj, s) ==> FitsBy(sj, s'))
          && (s.prod == PReturn([], 0) ==> s'.prod == PReturn([], 0)))
  }

  lemma PushInstant(run: seq<State>, i: nat)
    requires IsRun(run) && i + 1 < |run|
    ensures PushLeads(run[i], run[i + 1])
  {
    var s := run[i];
    var step := StepAt(run, i);
    if PastTail(run[i + 1].prod) {
      if step == ProducerStep && ReadsTail(s.prod) {
        ReadsTailStep(s);
      } else if PastTail(s.prod) && step != EndPush {
        forall sj | FitsBy(sj, s)
          ensures FitsBy(sj, run[i + 1])
        {
          StepFits(sj, s, step);
        }
      }
    }
  }

  /** From instant j, exclusive, to instant i one and the same push is under way, past its read of
      `tail`. */
  ghost predicate SamePush(run: seq<State>, j: nat, i: nat)
    requires i < |run|
  {
    forall m :: j < m <= i ==> PastTail(run[m].prod)
  }

  lemma {:induction false} PushSince(run: seq<State>, i: nat) returns (j: nat)
    requires i < |run| && run[0].prod == PIdle && PastTail(run[i].prod)
    requires forall m :: 0 <= m < i ==> PushLeads(run[m], run[m + 1])
    ensures j < i && SamePush(run, j, i)
    ensures FitsBy(run[j], run[i]) || (PushesNothing(run[j], run[j + 1]) && run[i].prod == PReturn([], 0))
  {
    assert PushLeads(run[i - 1], run[i - 1 + 1]);
    if FitsBy(run[i - 1], run[i]) || PushesNothing(run[i - 1], run[i]) {
      j := i - 1;
    } else {
      j := PushSince(run, i - 1);
    }
  }

  /** What a push does: when a push has its result, then it has put exactly the first samples into
      the queue, as many as fitted at the instant j at which this very call read `tail`, and has
      refused the others, whatever the consumer has done since; the result is that number. */
  lemma PushResult(run: seq<State>, i: nat) returns (j: nat)
    requires IsRun(run) && i < |run| && run[i].prod.PReturn?
    ensures j < i && SamePush(run, j, i) && run[j].ring.Valid()
    ensures var xs, pushed := run[i].prod.xs, run[i].prod.pushed;
            && (if ReadsTail(run[j].prod) then xs == Given(run[j].prod) && pushed == Fitting(run[j])
                else PushesNothing(run[j], run[j + 1]) && xs == [] && pushed == 0)
            && run[i].log == run[i].returned + [Call(xs[..pushed], xs[pushed..])]
  {
    forall m | 0 <= m < i
      ensures PushLeads(run[m], run[m + 1])
    {
      PushInstant(run, m);
    }
    j := PushSince(run, i);
    RunKeepsInv(run, j);
    RunKeepsInv(run, i);
  }
}
