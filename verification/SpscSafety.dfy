/** What every run of one producer and one consumer keeps. */
module SpscSafety {
  import opened Words
  import opened Rings
  import opened Spsc

  /** The step taken at instant i of a run. */
  lemma StepAt(run: seq<State>, i: nat) returns (step: Step)
    requires IsRun(run) && i + 1 < |run|
    ensures Inv(run[i]) && Enabled(run[i], step) && run[i + 1] == Apply(run[i], step)
  {
    RunKeepsInv(run, i);
    assert Next(run[i], run[i + 1]);
    step :| Enabled(run[i], step) && run[i + 1] == Apply(run[i], step);
  }

  // ---------------------------------------------------------------- FIFO

  /** In every reachable state the samples popped so far followed by the unread samples are
      exactly the samples accepted so far, in order. Accepted and refused samples together are
      the samples offered, so a refused sample never reaches the consumer, and `dropped` counts
      the refused ones (a batch call counts them just after it publishes the others). */
  lemma FifoSafety(run: seq<State>, i: nat)
    requires IsRun(run) && i < |run|
    ensures var s := run[i];
            && s.ring.Valid()
            && s.popped + s.ring.Contents() == Taken(s.log)
            && s.delivered + Returning(s.cons) == s.popped
            && Offered(s.log) + Holding(s.prod) == s.offered
            && s.returned + Unreturned(s.prod) == s.log
            && s.ring.dropped + Uncounted(s.prod) == |Refused(s.log)|
  {
    RunKeepsInv(run, i);
  }

  /** The indices are the unbounded push and pop counts, modulo the capacity. */
  lemma IndicesAreCounts(run: seq<State>, i: nat)
    requires IsRun(run) && i < |run|
    ensures var s := run[i];
            && s.ring.Valid()
            && s.ring.tail == |s.popped| % s.ring.capacity
            && s.ring.head == |Taken(s.log)| % s.ring.capacity
  {
    RunKeepsInv(run, i);
    TailCounts(run, i);
    HeadIsCount(run[i]);
  }

  ghost predicate TailIsPopped(s: State) {
    s.ring.capacity > 0 && s.ring.tail == |s.popped| % s.ring.capacity
  }

  lemma {:induction false} TailCounts(run: seq<State>, i: nat)
    requires IsRun(run) && i < |run|
    ensures TailIsPopped(run[i])
  {
    if i > 0 {
      TailCounts(run, i - 1);
      StepKeepsTail(run, i - 1);
    }
  }

  lemma StepKeepsTail(run: seq<State>, i: nat)
    requires IsRun(run) && i + 1 < |run| && TailIsPopped(run[i])
    ensures TailIsPopped(run[i + 1])
  {
    var step := StepAt(run, i);
    TailIsCount(run[i], step);
  }

  lemma HeadIsCount(s: State)
    requires Inv(s) && s.ring.tail == |s.popped| % s.ring.capacity
    ensures s.ring.head == |Taken(s.log)| % s.ring.capacity
  {
    assert |Taken(s.log)| == |s.popped| + s.ring.Count();
    ForwardIsMod(|s.popped|, s.ring.Count(), s.ring.capacity);
    assert Forward(s.ring.tail, s.ring.Count(), s.ring.capacity) == s.ring.head;
  }

  lemma ForwardIsMod(a: nat, n: nat, c: nat)
    requires c > 0 && n <= c
    ensures Forward(a % c, n, c) == (a + n) % c
  {
    var q := a / c;
    assert a == c * q + a % c;
    if a % c + n < c {
      ModUnique(a + n, c, q, a % c + n);
    } else {
      assert c * (q + 1) == c * q + c;
      ModUnique(a + n, c, q + 1, a % c + n - c);
    }
  }

  lemma TailIsCount(s: State, step: Step)
    requires Inv(s) && Enabled(s, step)
    requires s.ring.tail == |s.popped| % s.ring.capacity
    ensures var s' := Apply(s, step);
            s'.ring.capacity == s.ring.capacity && s'.ring.tail == |s'.popped| % s.ring.capacity
  {
    if step == ConsumerStep && s.cons.PopStore? {
      ForwardIsMod(|s.popped|, 1, s.ring.capacity);
    } else if step == ConsumerStep && s.cons.TakeStore? {
      ForwardIsMod(|s.popped|, |s.cons.out|, s.ring.capacity);
    } else if step == ConsumerStep {
      assert ConsumerRuns(s).ring == s.ring;
    } else if step == ProducerStep {
      ProducerTyped(s);
      ProducerFifo(s);
    }
  }

  // ---------------------------------------------------------------- slot ownership

  /** The slot the producer's next step stores into. */
  function SlotWritten(s: State): Option<nat>
    requires Typed(s)
  {
    match s.prod
    case PushWrite(_, h, _) => Some(h)
    case BatchWrite(_, _, h, d) => Some(Forward(h, d, s.ring.capacity))
    case _ => None
  }

  /** The slot the consumer's next step loads from. */
  function SlotRead(s: State): Option<nat>
    requires Typed(s)
  {
    match s.cons
    case PopReadSlot(_, t) => Some(t)
    case TakeReadSlot(_, _, t, out) => Some(Forward(t, |out|, s.ring.capacity))
    case _ => None
  }

  /** Slots holding samples that are published and not yet released by the consumer. */
  ghost predicate Unread(r: Ring, slot: nat)
    requires r.Valid()
  {
    exists i: nat :: i < r.Count() && slot == Forward(r.tail, i, r.capacity)
  }

  /** Slots a batch pop in progress has copied, or is going to copy. */
  ghost predicate BeingCopied(s: State, slot: nat)
    requires Typed(s)
  {
    s.cons.TakeReadSlot? &&
    exists j: nat :: j < Min(s.cons.n, s.cons.seen) && slot == Forward(s.cons.tail, j, s.ring.capacity)
  }

  lemma OnlySlotWrittenChanges(s: State, slot: nat)
    requires Typed(s) && Enabled(s, ProducerStep) && slot < s.ring.capacity
    requires SlotWritten(s) != Some(slot)
    ensures Typed(ProducerRuns(s)) && ProducerRuns(s).ring.cells[slot] == s.ring.cells[slot]
  {
    ProducerTyped(s);
  }

  /** No step of the producer stores into an unread slot, nor into one that a pop in progress
      copies; no step of the consumer loads a slot that is not published. So the two never
      touch the same slot at the same time, around the wrap point too. */
  lemma SlotOwnership(run: seq<State>, i: nat)
    requires IsRun(run) && i < |run|
    ensures var s := run[i];
            && Typed(s)
            && (SlotWritten(s).Some? ==> !Unread(s.ring, SlotWritten(s).value) && !BeingCopied(s, SlotWritten(s).value))
            && (SlotRead(s).Some? ==> Unread(s.ring, SlotRead(s).value))
            && (SlotWritten(s).Some? ==> SlotWritten(s) != SlotRead(s))
  {
    RunKeepsInv(run, i);
    var s := run[i];
    var c := s.ring.capacity;
    if SlotRead(s).Some? {
      var j := if s.cons.PopReadSlot? then 0 else |s.cons.out|;
      assert j < s.ring.Count() && SlotRead(s).value == Forward(s.ring.tail, j, c);
    }
    if SlotWritten(s).Some? {
      var d := if s.prod.PushWrite? then 0 else s.prod.done;
      assert d < s.ring.Available() && SlotWritten(s).value == Forward(s.ring.head, d, c);
      forall j: nat | j < s.ring.Count()
        ensures SlotWritten(s).value != Forward(s.ring.tail, j, c)
      {
      }
    }
  }

  // ---------------------------------------------------------------- snapshots

  /** The element count a call computed, while it is still acting on it. */
  function ProducerCount(p: Producer): Option<nat> {
    match p
    case PushWrite(_, _, k) => Some(k)
    case PushStore(_, _, k) => Some(k)
    case BatchReadHead(_, k) => Some(k)
    case BatchWrite(_, k, _, _) => Some(k)
    case BatchStore(_, k, _) => Some(k)
    case _ => None
  }

  function ConsumerCount(q: Consumer): Option<nat> {
    match q
    case PopReadTailAgain(k) => Some(k)
    case PopReadSlot(k, _) => Some(k)
    case PopStore(k, _, _) => Some(k)
    case TakeReadTail(_, k) => Some(k)
    case TakeReadSlot(_, k, _, _) => Some(k)
    case TakeStore(_, k, _, _) => Some(k)
    case _ => None
  }

  /** A stale count errs on the safe side for as long as its call acts on it. */
  lemma SnapshotsAreConservative(run: seq<State>, i: nat)
    requires IsRun(run) && i < |run|
    ensures var s := run[i];
            && s.ring.Valid()
            && (ProducerCount(s.prod).Some? ==> s.ring.Count() <= ProducerCount(s.prod).value)
            && (ConsumerCount(s.cons).Some? ==> ConsumerCount(s.cons).value <= s.ring.Count())
  {
    RunKeepsInv(run, i);
  }

  /** The step that reads `tail` decides a push: a single push is refused exactly when the buffer
      is full at that instant, and a batch push takes exactly what fits at that instant. */
  lemma PushDecision(run: seq<State>, i: nat)
    requires IsRun(run) && i < |run|
    requires run[i].prod.PushReadTail? || run[i].prod.BatchCountTail?
    ensures var s := run[i];
            && Enabled(s, ProducerStep)
            && var p := ProducerRuns(s).prod;
            && (s.prod.PushReadTail? ==> (p.PushDrop? <==> s.ring.Available() == 0) && (p.PushDrop? || p.PushWrite?))
            && (s.prod.BatchCountTail? ==>
                  if s.ring.Available() == 0 then p == BatchDropAll(s.prod.xs)
                  else p.BatchReadHead? && ToPush(p.xs, p.seen, s.ring.capacity) == Min(|s.prod.xs|, s.ring.Available()))
  {
    RunKeepsInv(run, i);
  }

  ghost predicate AwaitsTail(q: Consumer) {
    q.PopReadTail? || q.TakeCountTail?
  }

  lemma HeadSnapshot(s: State, step: Step)
    requires Inv(s) && Enabled(s, step) && AwaitsTail(Apply(s, step).cons)
    ensures var s' := Apply(s, step);
            && s'.ring.capacity == s.ring.capacity && s'.ring.tail == s.ring.tail
            && if step == ConsumerStep
               then s'.ring == s.ring && s'.cons.head == s.ring.head
                    && s.cons == (if s'.cons.PopReadTail? then PopReadHead else TakeCountHead(s'.cons.n))
               else s'.cons == s.cons
  {
    if step == ProducerStep {
      ProducerTyped(s);
      ProducerFifo(s);
    }
  }

  /** State `j` is the one in which the pop waiting in state `i` read `head`. */
  ghost predicate ReadHeadAt(sj: State, si: State) {
    && Typed(sj) && Typed(si) && AwaitsTail(si.cons)
    && sj.cons == (if si.cons.PopReadTail? then PopReadHead else TakeCountHead(si.cons.n))
    && sj.ring.head == si.cons.head
    && sj.ring.tail == si.ring.tail && sj.ring.capacity == si.ring.capacity
  }

  /** From `s` to `s'` the consumer only waited. */
  ghost predicate Waited(s: State, s': State) {
    s.cons == s'.cons && s.ring.tail == s'.ring.tail && s.ring.capacity == s'.ring.capacity
  }

  /** A pop that waits for `tail` has just read `head`, or it waited before. */
  ghost predicate JustReadOrWaited(s: State, s': State) {
    AwaitsTail(s'.cons) ==> Typed(s') && (ReadHeadAt(s, s') || Waited(s, s'))
  }

  lemma InstantOfWait(run: seq<State>, i: nat)
    requires IsRun(run) && i + 1 < |run|
    ensures JustReadOrWaited(run[i], run[i + 1])
  {
    if AwaitsTail(run[i + 1].cons) {
      RunKeepsInv(run, i + 1);
      var step := StepAt(run, i);
      HeadSnapshot(run[i], step);
    }
  }

  lemma {:induction false} ReadBefore(run: seq<State>, i: nat) returns (j: nat)
    requires i < |run| && AwaitsTail(run[i].cons) && run[0].cons == CIdle
    requires forall m :: 0 <= m < i ==> JustReadOrWaited(run[m], run[m + 1])
    ensures j < i && ReadHeadAt(run[j], run[i])
    ensures forall m :: j < m <= i ==> run[m].cons == run[i].cons
  {
    assert JustReadOrWaited(run[i - 1], run[i - 1 + 1]);
    if ReadHeadAt(run[i - 1], run[i]) {
      j := i - 1;
    } else {
      j := ReadBefore(run, i - 1);
    }
  }

  lemma HeadWasRead(run: seq<State>, i: nat) returns (j: nat)
    requires IsRun(run) && i < |run| && AwaitsTail(run[i].cons)
    ensures j < i && ReadHeadAt(run[j], run[i])
    ensures forall m :: j < m <= i ==> run[m].cons == run[i].cons
  {
    forall m | 0 <= m < i
      ensures JustReadOrWaited(run[m], run[m + 1])
    {
      InstantOfWait(run, m);
    }
    j := ReadBefore(run, i);
  }

  /** The count a pop acts on is the exact count at the instant j at which this very call read
      `head` (from then on to instant i the consumer has not moved); in particular a pop reports
      "empty" exactly if the buffer was empty then. */
  lemma PopDecision(run: seq<State>, i: nat) returns (j: nat)
    requires IsRun(run) && i < |run| && AwaitsTail(run[i].cons)
    ensures j < i && ReadHeadAt(run[j], run[i])
    ensures forall m :: j < m <= i ==> run[m].cons == run[i].cons
    ensures Between(run[i].ring.tail, run[i].cons.head, run[i].ring.capacity) == |run[j].ring.Contents()|
    ensures ConsumerRuns(run[i]).cons == CReturn([]) <==> run[j].ring.Contents() == []
  {
    j := HeadWasRead(run, i);
    RunKeepsInv(run, i);
  }

  // ---------------------------------------------------------------- wait-freedom

  /** Own steps a push call still needs at most. */
  function ProducerRank(p: Producer): nat {
    match p
    case PIdle => 0
    case PReturn(_, _) => 0
    case PushReadHead(_) => 4
    case PushReadTail(_, _) => 3
    case PushDrop(_) => 1
    case PushWrite(_, _, _) => 2
    case PushStore(_, _, _) => 1
    case BatchCountHead(xs) => |xs| + 5
    case BatchCountTail(xs, _) => |xs| + 4
    case BatchDropAll(_) => 1
    case BatchReadHead(xs, _) => |xs| + 3
    case BatchWrite(xs, _, _, d) => if d <= |xs| then |xs| - d + 2 else 0
    case BatchStore(_, _, _) => 2
    case BatchDropRest(_, _) => 1
  }

  /** Own steps a pop call still needs at most, in a buffer of `c` slots. */
  function ConsumerRank(q: Consumer, c: nat): nat {
    match q
    case CIdle => 0
    case CReturn(_) => 0
    case PopReadHead => 5
    case PopReadTail(_) => 4
    case PopReadTailAgain(_) => 3
    case PopReadSlot(_, _) => 2
    case PopStore(_, _, _) => 1
    case TakeCountHead(n) => c + 4
    case TakeCountTail(n, _) => c + 3
    case TakeReadTail(n, k) => k + 2
    case TakeReadSlot(n, k, _, out) => if |out| <= k then k - |out| + 1 else 0
    case TakeStore(_, _, _, _) => 1
  }

  lemma OwnStepLowersRank(s: State)
    requires Typed(s)
    ensures InPush(s.prod) ==> ProducerRank(ProducerRuns(s).prod) < ProducerRank(s.prod)
    ensures InPop(s.cons) ==>
              ConsumerRank(ConsumerRuns(s).cons, s.ring.capacity) < ConsumerRank(s.cons, s.ring.capacity)
  {
  }

  /** A push call is under way that has not got its result yet. */
  predicate InPush(p: Producer) {
    !p.PIdle? && !p.PReturn?
  }

  predicate InPop(q: Consumer) {
    !q.CIdle? && !q.CReturn?
  }

  /** How often the producer moved from instant i to instant k. */
  function ProducerMoves(run: seq<State>, i: nat, k: nat): nat
    requires i <= k < |run|
  {
    if i == k then 0
    else ProducerMoves(run, i, k - 1) + (if run[k].prod == run[k - 1].prod then 0 else 1)
  }

  function ConsumerMoves(run: seq<State>, i: nat, k: nat): nat
    requires i <= k < |run|
  {
    if i == k then 0
    else ConsumerMoves(run, i, k - 1) + (if run[k].cons == run[k - 1].cons then 0 else 1)
  }

  /** What one step of either thread, or a call or return, means for a push under way. */
  lemma StepInPush(s: State, step: Step)
    requires Inv(s) && Enabled(s, step) && InPush(s.prod)
    ensures var p := Apply(s, step).prod; p == s.prod || ProducerRank(p) < ProducerRank(s.prod)
  {
    OwnStepLowersRank(s);
  }

  lemma StepInPop(s: State, step: Step)
    requires Inv(s) && Enabled(s, step) && InPop(s.cons)
    ensures var q := Apply(s, step).cons;
            q == s.cons || ConsumerRank(q, s.ring.capacity) < ConsumerRank(s.cons, s.ring.capacity)
  {
    OwnStepLowersRank(s);
  }

  lemma StepKeepsCapacity(s: State, step: Step)
    requires Inv(s) && Enabled(s, step)
    ensures Apply(s, step).ring.capacity == s.ring.capacity
  {
    if step == ProducerStep {
      ProducerTyped(s);
      ProducerFifo(s);
    }
  }

  /** Between two instants of a push call the producer stays where it is or comes closer. */
  ghost predicate PushNears(s: State, s': State) {
    s'.prod == s.prod || ProducerRank(s'.prod) < ProducerRank(s.prod)
  }

  ghost predicate PopNears(s: State, s': State) {
    s'.ring.capacity == s.ring.capacity
    && (s'.cons == s.cons || ConsumerRank(s'.cons, s.ring.capacity) < ConsumerRank(s.cons, s.ring.capacity))
  }

  lemma InstantInPush(run: seq<State>, i: nat)
    requires IsRun(run) && i + 1 < |run| && InPush(run[i].prod)
    ensures PushNears(run[i], run[i + 1])
  {
    var step := StepAt(run, i);
    StepInPush(run[i], step);
  }

  lemma InstantInPop(run: seq<State>, i: nat)
    requires IsRun(run) && i + 1 < |run| && InPop(run[i].cons)
    ensures PopNears(run[i], run[i + 1])
  {
    var step := StepAt(run, i);
    StepInPop(run[i], step);
    StepKeepsCapacity(run[i], step);
  }

  lemma {:induction false} PushMovesBounded(run: seq<State>, i: nat, k: nat)
    requires i <= k < |run|
    requires forall m :: i <= m < k ==> PushNears(run[m], run[m + 1])
    ensures ProducerMoves(run, i, k) + ProducerRank(run[k].prod) <= ProducerRank(run[i].prod)
  {
    if i < k {
      PushMovesBounded(run, i, k - 1);
      assert PushNears(run[k - 1], run[k - 1 + 1]);
    }
  }

  lemma {:induction false} PopMovesBounded(run: seq<State>, i: nat, k: nat)
    requires i <= k < |run|
    requires forall m :: i <= m < k ==> PopNears(run[m], run[m + 1])
    ensures run[k].ring.capacity == run[i].ring.capacity
    ensures ConsumerMoves(run, i, k) + ConsumerRank(run[k].cons, run[k].ring.capacity)
            <= ConsumerRank(run[i].cons, run[i].ring.capacity)
  {
    if i < k {
      PopMovesBounded(run, i, k - 1);
      assert PopNears(run[k - 1], run[k - 1 + 1]);
    }
  }

  /** Calls are wait-free: over any run, from any instant i of a push call until it has its result,
      the producer makes at most as many steps as its rank at instant i, whatever the consumer
      does: 4 steps for a single push, the number of samples plus 5 for a batch. */
  lemma {:induction false} PushIsWaitFree(run: seq<State>, i: nat, k: nat)
    requires IsRun(run) && i <= k < |run|
    requires forall m :: i <= m < k ==> InPush(run[m].prod)
    ensures ProducerMoves(run, i, k) + ProducerRank(run[k].prod) <= ProducerRank(run[i].prod)
    ensures InPush(run[k].prod) ==> Enabled(run[k], ProducerStep)
  {
    RunKeepsInv(run, k);
    forall m | i <= m < k
      ensures PushNears(run[m], run[m + 1])
    {
      InstantInPush(run, m);
    }
    PushMovesBounded(run, i, k);
  }

  /** So are pops: 5 steps for a single pop, the capacity plus 4 for a batch. */
  lemma {:induction false} PopIsWaitFree(run: seq<State>, i: nat, k: nat)
    requires IsRun(run) && i <= k < |run|
    requires forall m :: i <= m < k ==> InPop(run[m].cons)
    ensures ConsumerMoves(run, i, k) + ConsumerRank(run[k].cons, run[k].ring.capacity)
            <= ConsumerRank(run[i].cons, run[i].ring.capacity)
    ensures InPop(run[k].cons) ==> Enabled(run[k], ConsumerStep)
  {
    RunKeepsInv(run, k);
    forall m | i <= m < k
      ensures PopNears(run[m], run[m + 1])
    {
      InstantInPop(run, m);
    }
    PopMovesBounded(run, i, k);
  }

  // ---------------------------------------------------------------- uninterrupted calls

  /** The push call in progress, run to its return with no step of the consumer in between. */
  function FinishPush(s: State): (s': State)
    requires Typed(s)
    decreases ProducerRank(s.prod)
  {
    if s.prod.PIdle? || s.prod.PReturn? then s
    else
      ProducerTyped(s);
      OwnStepLowersRank(s);
      FinishPush(ProducerRuns(s))
  }

  /** The pop call in progress, run to its return with no step of the producer in between. */
  function FinishPop(s: State): (s': State)
    requires Typed(s)
    decreases ConsumerRank(s.cons, s.ring.capacity)
  {
    if s.cons.CIdle? || s.cons.CReturn? then s
    else
      ConsumerTyped(s);
      OwnStepLowersRank(s);
      assert ConsumerRuns(s).ring.capacity == s.ring.capacity;
      FinishPop(ConsumerRuns(s))
  }

  /** Undisturbed, the steps of `ring_buffer_push` do what the sequential call does. */
  lemma AlonePush(s: State, x: Sample)
    requires Inv(s) && s.prod == PIdle
    ensures var s' := FinishPush(Apply(s, BeginPush(x)));
            && s'.ring == PushOne(s.ring, x).0
            && s'.prod == PReturn([x], if PushOne(s.ring, x).1 then 1 else 0)
  {
    var s0 := Apply(s, BeginPush(x));
    var s1 := ProducerRuns(s0);
    var s2 := ProducerRuns(s1);
    var s3 := ProducerRuns(s2);
    assert FinishPush(s0) == FinishPush(s1) == FinishPush(s2) == FinishPush(s3);
    if s.ring.Available() > 0 {
      assert FinishPush(s3) == ProducerRuns(s3);
    }
  }

  lemma {:induction false} CopyLoop(s: State, cells: seq<Sample>)
    requires Typed(s) && s.prod.BatchWrite?
    requires |cells| == s.ring.capacity
    requires s.ring.cells == Overlay(cells, s.prod.head, s.prod.xs[..s.prod.done])
    ensures var n := ToPush(s.prod.xs, s.prod.seen, s.ring.capacity);
            var s' := s.(ring := s.ring.(cells := Overlay(cells, s.prod.head, s.prod.xs[..n])),
                         prod := BatchStore(s.prod.xs, s.prod.seen, s.prod.head));
            Typed(s') && FinishPush(s) == FinishPush(s')
    decreases |s.prod.xs| - s.prod.done
  {
    var BatchWrite(xs, k, h, d) := s.prod;
    ProducerTyped(s);
    var s1 := ProducerRuns(s);
    assert s1.ring.cells == Overlay(cells, h, xs[..d + 1]);
    assert FinishPush(s) == FinishPush(s1);
    if s1.prod.BatchWrite? {
      CopyLoop(s1, cells);
    }
  }

  lemma StartBatch(s: State, xs: seq<Sample>)
    requires Inv(s) && s.prod == PIdle && xs != []
    ensures var s0 := Apply(s, BeginPushBatch(xs));
            var s2 := s0.(prod := if s.ring.Available() == 0 then BatchDropAll(xs) else BatchReadHead(xs, s.ring.Count()));
            Typed(s0) && Typed(s2) && FinishPush(s0) == FinishPush(s2)
  {
    var s0 := Apply(s, BeginPushBatch(xs));
    var s1 := ProducerRuns(s0);
    assert FinishPush(s0) == FinishPush(s1) == FinishPush(ProducerRuns(s1));
  }

  /** Undisturbed, the steps of `ring_buffer_push_batch` push each sample in turn. */
  lemma AlonePushBatch(s: State, xs: seq<Sample>)
    requires Inv(s) && s.prod == PIdle && xs != []
    ensures var s' := FinishPush(Apply(s, BeginPushBatch(xs)));
            && s'.ring == PushEach(s.ring, xs)
            && s'.prod == PReturn(xs, Successes(s.ring, xs))
  {
    PushEachClosed(s.ring, xs);
    StartBatch(s, xs);
    var s0 := Apply(s, BeginPushBatch(xs));
    assert Overlay(s.ring.cells, s.ring.head, xs[..0]) == s.ring.cells;
    if s.ring.Available() == 0 {
      var s2 := s0.(prod := BatchDropAll(xs));
      assert FinishPush(s2) == ProducerRuns(s2);
    } else {
      var s3 := s0.(prod := BatchWrite(xs, s.ring.Count(), s.ring.head, 0));
      assert FinishPush(s0.(prod := BatchReadHead(xs, s.ring.Count()))) == FinishPush(s3);
      var n := Min(|xs|, s.ring.Available());
      CopyLoop(s3, s.ring.cells);
      FinishStore(s3.(ring := s3.ring.(cells := Overlay(s.ring.cells, s.ring.head, xs[..n])),
                      prod := BatchStore(xs, s.ring.Count(), s.ring.head)), n);
    }
  }

  lemma FinishStore(s: State, n: nat)
    requires Typed(s) && s.prod.BatchStore? && n == ToPush(s.prod.xs, s.prod.seen, s.ring.capacity)
    ensures var s' := FinishPush(s);
            && s'.ring == s.ring.(head := Forward(s.prod.head, n, s.ring.capacity),
                                  dropped := s.ring.dropped + (|s.prod.xs| - n))
            && s'.prod == PReturn(s.prod.xs, n)
  {
    var s1 := ProducerRuns(s);
    ProducerTyped(s);
    assert FinishPush(s) == FinishPush(s1);
    if n < |s.prod.xs| {
      assert FinishPush(s1) == ProducerRuns(s1);
    }
  }

  /** Undisturbed, the steps of `ring_buffer_pop` do what the sequential call does. */
  lemma AlonePop(s: State)
    requires Inv(s) && s.cons == CIdle
    ensures var s' := FinishPop(Apply(s, BeginPop));
            && s'.ring == PopOne(s.ring).0
            && s'.cons == CReturn(if PopOne(s.ring).1.Some? then [PopOne(s.ring).1.value] else [])
  {
    var s0 := Apply(s, BeginPop);
    var s1 := ConsumerRuns(s0);
    var s2 := ConsumerRuns(s1);
    assert FinishPop(s0) == FinishPop(s1) == FinishPop(s2);
    if s.ring.Count() > 0 {
      var s3 := ConsumerRuns(s2);
      var s4 := ConsumerRuns(s3);
      assert FinishPop(s2) == FinishPop(s3) == FinishPop(s4) == ConsumerRuns(s4);
    }
  }

  lemma {:induction false} ReadLoop(s: State)
    requires Typed(s) && s.cons.TakeReadSlot? && s.cons.tail == s.ring.tail
    requires s.cons.seen <= s.ring.Count() && s.cons.out == s.ring.Contents()[..|s.cons.out|]
    ensures var k := Min(s.cons.n, s.cons.seen);
            var s' := s.(cons := TakeStore(s.cons.n, s.cons.seen, s.ring.tail, s.ring.Contents()[..k]));
            Typed(s') && FinishPop(s) == FinishPop(s')
    decreases s.cons.seen - |s.cons.out|
  {
    ConsumerTyped(s);
    var s1 := ConsumerRuns(s);
    assert s1.cons.out == s.ring.Contents()[..|s.cons.out| + 1];
    assert FinishPop(s) == FinishPop(s1);
    if s1.cons.TakeReadSlot? {
      ReadLoop(s1);
    }
  }

  lemma StartTake(s: State, n: nat)
    requires Inv(s) && s.cons == CIdle && n > 0
    ensures var s0 := Apply(s, BeginPopBatch(n));
            var s2 := s0.(cons := if s.ring.Count() == 0 then CReturn([]) else TakeReadSlot(n, s.ring.Count(), s.ring.tail, []));
            Typed(s0) && Typed(s2) && FinishPop(s0) == FinishPop(s2)
  {
    var s0 := Apply(s, BeginPopBatch(n));
    var s1 := ConsumerRuns(s0);
    var s2 := ConsumerRuns(s1);
    assert FinishPop(s0) == FinishPop(s1) == FinishPop(s2);
    if s.ring.Count() > 0 {
      assert FinishPop(s2) == FinishPop(ConsumerRuns(s2));
    }
  }

  /** Undisturbed, the steps of `ring_buffer_pop_batch` pop one sample after another. */
  lemma AlonePopBatch(s: State, n: nat)
    requires Inv(s) && s.cons == CIdle
    ensures var s' := FinishPop(Apply(s, BeginPopBatch(n)));
            (s'.ring, s'.cons) == (PopEach(s.ring, n).0, CReturn(PopEach(s.ring, n).1))
  {
    PopEachClosed(s.ring, n);
    if n > 0 {
      StartTake(s, n);
      if s.ring.Count() > 0 {
        var s3 := Apply(s, BeginPopBatch(n)).(cons := TakeReadSlot(n, s.ring.Count(), s.ring.tail, []));
        ReadLoop(s3);
        var k := Min(n, s.ring.Count());
        var s4 := s3.(cons := TakeStore(n, s.ring.Count(), s.ring.tail, s.ring.Contents()[..k]));
        assert FinishPop(s4) == ConsumerRuns(s4);
      }
    }
  }
}
