/** One producer and one consumer running the ring buffer's calls concurrently.
    Every shared read, slot copy and shared store is a step of its own, and the steps of the
    two threads interleave arbitrarily over sequentially consistent memory. */
module Spsc {
  import opened Words
  import opened Rings

  /** A completed push call: the samples the buffer took and those it refused. */
  datatype Call = Call(taken: seq<Sample>, refused: seq<Sample>)

  function Taken(log: seq<Call>): seq<Sample> {
    if log == [] then [] else Taken(log[..|log| - 1]) + log[|log| - 1].taken
  }

  function Refused(log: seq<Call>): seq<Sample> {
    if log == [] then [] else Refused(log[..|log| - 1]) + log[|log| - 1].refused
  }

  function Offered(log: seq<Call>): seq<Sample> {
    if log == [] then []
    else Offered(log[..|log| - 1]) + log[|log| - 1].taken + log[|log| - 1].refused
  }

  lemma LogGrows(log: seq<Call>, c: Call)
    ensures Taken(log + [c]) == Taken(log) + c.taken
    ensures Refused(log + [c]) == Refused(log) + c.refused
    ensures Offered(log + [c]) == Offered(log) + (c.taken + c.refused)
  {
    assert (log + [c])[..|log|] == log;
  }

  // ---------------------------------------------------------------- program counters

  /** Where the producer is. `seen` is the element count it computed from its snapshots. */
  datatype Producer =
    | PIdle
    // ring_buffer_push
    | PushReadHead(x: Sample)
    | PushReadTail(x: Sample, head: nat)
    | PushDrop(x: Sample)
    | PushWrite(x: Sample, head: nat, seen: nat)
    | PushStore(x: Sample, head: nat, seen: nat)
    // ring_buffer_push_batch
    | BatchCountHead(xs: seq<Sample>)
    | BatchCountTail(xs: seq<Sample>, head: nat)
    | BatchDropAll(xs: seq<Sample>)
    | BatchReadHead(xs: seq<Sample>, seen: nat)
    | BatchWrite(xs: seq<Sample>, seen: nat, head: nat, done: nat)
    | BatchStore(xs: seq<Sample>, seen: nat, head: nat)
    | BatchDropRest(xs: seq<Sample>, pushed: nat)
    // either call, result ready
    | PReturn(xs: seq<Sample>, pushed: nat)

  /** Where the consumer is. */
  datatype Consumer =
    | CIdle
    // ring_buffer_pop
    | PopReadHead
    | PopReadTail(head: nat)
    | PopReadTailAgain(seen: nat)
    | PopReadSlot(seen: nat, tail: nat)
    | PopStore(seen: nat, tail: nat, x: Sample)
    // ring_buffer_pop_batch
    | TakeCountHead(n: nat)
    | TakeCountTail(n: nat, head: nat)
    | TakeReadTail(n: nat, seen: nat)
    | TakeReadSlot(n: nat, seen: nat, tail: nat, out: seq<Sample>)
    | TakeStore(n: nat, seen: nat, tail: nat, out: seq<Sample>)
    // either call, result ready
    | CReturn(out: seq<Sample>)

  /** `ring` is the shared memory. The last five fields are history: samples handed to push
      calls, push calls that took effect, push calls that returned, samples removed from the
      buffer, and samples handed back by pop calls that returned. */
  datatype State = State(
    ring: Ring, prod: Producer, cons: Consumer,
    offered: seq<Sample>, log: seq<Call>, returned: seq<Call>,
    popped: seq<Sample>, delivered: seq<Sample>)

  /** How many of `xs` a batch push copies after it computed the count `seen`. */
  function ToPush(xs: seq<Sample>, seen: nat, capacity: nat): nat
    requires seen < capacity
  {
    Min(|xs|, capacity - seen - 1)
  }

  /** Snapshots are slot numbers; counts are element counts. */
  ghost predicate Typed(s: State) {
    s.ring.Valid() && TypedProducer(s.prod, s.ring.capacity) && TypedConsumer(s.cons, s.ring.capacity)
  }

  ghost predicate TypedProducer(p: Producer, c: nat) {
    match p
    case PushReadTail(x, h) => h < c
    case PushWrite(x, h, k) => h < c && k < c
    case PushStore(x, h, k) => h < c && k < c
    case BatchCountTail(xs, h) => h < c
    case BatchReadHead(xs, k) => k < c && ToPush(xs, k, c) > 0
    case BatchWrite(xs, k, h, d) => k < c && h < c && d < ToPush(xs, k, c)
    case BatchStore(xs, k, h) => k < c && h < c
    case BatchDropRest(xs, p) => p <= |xs|
    case PReturn(xs, p) => p <= |xs|
    case _ => true
  }

  ghost predicate TypedConsumer(q: Consumer, c: nat) {
    match q
    case PopReadTail(h) => h < c
    case PopReadTailAgain(k) => k < c
    case PopReadSlot(k, t) => k < c && t < c
    case PopStore(k, t, x) => k < c && t < c
    case TakeCountTail(n, h) => h < c
    case TakeReadTail(n, k) => 0 < n && 0 < k < c
    case TakeReadSlot(n, k, t, out) => k < c && t < c && |out| < Min(n, k)
    case TakeStore(n, k, t, out) => k < c && t < c && |out| == Min(n, k)
    case _ => true
  }

  // ---------------------------------------------------------------- steps

  /** The producer's next step inside a call. */
  function ProducerRuns(s: State): State
    requires Typed(s)
  {
    var r := s.ring;
    var c := r.capacity;
    match s.prod
    case PushReadHead(x) =>
      s.(prod := PushReadTail(x, r.head))
    case PushReadTail(x, h) =>
      if Forward(h, 1, c) == r.tail then s.(prod := PushDrop(x))
      else s.(prod := PushWrite(x, h, Between(r.tail, h, c)))
    case PushDrop(x) =>
      s.(ring := r.(dropped := r.dropped + 1), log := s.log + [Call([], [x])], prod := PReturn([x], 0))
    case PushWrite(x, h, k) =>
      s.(ring := r.(cells := r.cells[h := x]), prod := PushStore(x, h, k))
    case PushStore(x, h, k) =>
      s.(ring := r.(head := Forward(h, 1, c)), log := s.log + [Call([x], [])], prod := PReturn([x], 1))
    case BatchCountHead(xs) =>
      s.(prod := BatchCountTail(xs, r.head))
    case BatchCountTail(xs, h) =>
      var seen := Between(r.tail, h, c);
      if ToPush(xs, seen, c) == 0 then s.(prod := BatchDropAll(xs))
      else s.(prod := BatchReadHead(xs, seen))
    case BatchDropAll(xs) =>
      s.(ring := r.(dropped := r.dropped + |xs|), log := s.log + [Call([], xs)], prod := PReturn(xs, 0))
    case BatchReadHead(xs, k) =>
      s.(prod := BatchWrite(xs, k, r.head, 0))
    case BatchWrite(xs, k, h, d) =>
      s.(ring := r.(cells := r.cells[Forward(h, d, c) := xs[d]]),
         prod := if d + 1 < ToPush(xs, k, c) then BatchWrite(xs, k, h, d + 1) else BatchStore(xs, k, h))
    case BatchStore(xs, k, h) =>
      var n := ToPush(xs, k, c);
      s.(ring := r.(head := Forward(h, n, c)), log := s.log + [Call(xs[..n], xs[n..])],
         prod := if n < |xs| then BatchDropRest(xs, n) else PReturn(xs, n))
    case BatchDropRest(xs, p) =>
      s.(ring := r.(dropped := r.dropped + (|xs| - p)), prod := PReturn(xs, p))
    case _ => s
  }

  /** The consumer's next step inside a call. */
  function ConsumerRuns(s: State): State
    requires Typed(s)
  {
    var r := s.ring;
    var c := r.capacity;
    match s.cons
    case PopReadHead =>
      s.(cons := PopReadTail(r.head))
    case PopReadTail(h) =>
      if h == r.tail then s.(cons := CReturn([]))
      else s.(cons := PopReadTailAgain(Between(r.tail, h, c)))
    case PopReadTailAgain(k) =>
      s.(cons := PopReadSlot(k, r.tail))
    case PopReadSlot(k, t) =>
      s.(cons := PopStore(k, t, r.cells[t]))
    case PopStore(k, t, x) =>
      s.(ring := r.(tail := Forward(t, 1, c)), popped := s.popped + [x], cons := CReturn([x]))
    case TakeCountHead(n) =>
      s.(cons := TakeCountTail(n, r.head))
    case TakeCountTail(n, h) =>
      var seen := Between(r.tail, h, c);
      if Min(n, seen) == 0 then s.(cons := CReturn([]))
      else s.(cons := TakeReadTail(n, seen))
    case TakeReadTail(n, k) =>
      s.(cons := TakeReadSlot(n, k, r.tail, []))
    case TakeReadSlot(n, k, t, out) =>
      var out' := out + [r.cells[Forward(t, |out|, c)]];
      s.(cons := if |out'| < Min(n, k) then TakeReadSlot(n, k, t, out') else TakeStore(n, k, t, out'))
    case TakeStore(n, k, t, out) =>
      s.(ring := r.(tail := Forward(t, |out|, c)), popped := s.popped + out, cons := CReturn(out))
    case _ => s
  }

  datatype Step =
    | BeginPush(x: Sample)
    | BeginPushBatch(xs: seq<Sample>)
    | ProducerStep
    | EndPush
    | BeginPop
    | BeginPopBatch(n: nat)
    | ConsumerStep
    | EndPop

  ghost predicate Enabled(s: State, step: Step) {
    && Typed(s)
    && match step
       case BeginPush(_) => s.prod.PIdle?
       case BeginPushBatch(_) => s.prod.PIdle?
       case ProducerStep => !s.prod.PIdle? && !s.prod.PReturn?
       case EndPush => s.prod.PReturn?
       case BeginPop => s.cons.CIdle?
       case BeginPopBatch(_) => s.cons.CIdle?
       case ConsumerStep => !s.cons.CIdle? && !s.cons.CReturn?
       case EndPop => s.cons.CReturn?
  }

  function Apply(s: State, step: Step): State
    requires Enabled(s, step)
  {
    match step
    case BeginPush(x) => s.(prod := PushReadHead(x), offered := s.offered + [x])
    case BeginPushBatch(xs) =>
      // an empty batch returns without touching the buffer
      if xs == [] then s.(prod := PReturn([], 0), log := s.log + [Call([], [])])
      else s.(prod := BatchCountHead(xs), offered := s.offered + xs)
    case ProducerStep => ProducerRuns(s)
    case EndPush =>
      s.(prod := PIdle, returned := s.returned + [Call(s.prod.xs[..s.prod.pushed], s.prod.xs[s.prod.pushed..])])
    case BeginPop => s.(cons := PopReadHead)
    case BeginPopBatch(n) => s.(cons := if n == 0 then CReturn([]) else TakeCountHead(n))
    case ConsumerStep => ConsumerRuns(s)
    case EndPop => s.(cons := CIdle, delivered := s.delivered + s.cons.out)
  }

  ghost predicate Init(s: State) {
    && s.ring.Valid() && s.ring.head == 0 && s.ring.tail == 0 && s.ring.dropped == 0
    && s.prod == PIdle && s.cons == CIdle
    && s.offered == [] && s.log == [] && s.returned == [] && s.popped == [] && s.delivered == []
  }

  ghost predicate Next(s: State, s': State) {
    exists step :: Enabled(s, step) && s' == Apply(s, step)
  }

  /** A run: every interleaving of the two threads, with any calls in any order. */
  ghost predicate IsRun(run: seq<State>) {
    && |run| > 0
    && Init(run[0])
    && forall i :: 0 <= i < |run| - 1 ==> Next(run[i], run[i + 1])
  }

  // ---------------------------------------------------------------- the invariant

  /** Samples of the call in progress that are in neither the log nor the buffer. */
  function Holding(p: Producer): seq<Sample> {
    match p
    case PushReadHead(x) => [x]
    case PushReadTail(x, _) => [x]
    case PushDrop(x) => [x]
    case PushWrite(x, _, _) => [x]
    case PushStore(x, _, _) => [x]
    case BatchCountHead(xs) => xs
    case BatchCountTail(xs, _) => xs
    case BatchDropAll(xs) => xs
    case BatchReadHead(xs, _) => xs
    case BatchWrite(xs, _, _, _) => xs
    case BatchStore(xs, _, _) => xs
    case _ => []
  }

  /** The push call that took effect but has not returned. */
  function Unreturned(p: Producer): seq<Call> {
    match p
    case BatchDropRest(xs, n) => if n <= |xs| then [Call(xs[..n], xs[n..])] else []
    case PReturn(xs, n) => if n <= |xs| then [Call(xs[..n], xs[n..])] else []
    case _ => []
  }

  /** Refused samples not yet counted in `dropped`. */
  function Uncounted(p: Producer): int {
    match p
    case BatchDropRest(xs, n) => |xs| - n
    case _ => 0
  }

  /** Samples removed from the buffer by a pop call that has not returned. */
  function Returning(c: Consumer): seq<Sample> {
    match c
    case CReturn(out) => out
    case _ => []
  }

  ghost predicate PushHistory(offered: seq<Sample>, log: seq<Call>, returned: seq<Call>, p: Producer, dropped: nat) {
    && Offered(log) + Holding(p) == offered
    && returned + Unreturned(p) == log
    && dropped + Uncounted(p) == |Refused(log)|
  }

  ghost predicate PopHistory(popped: seq<Sample>, delivered: seq<Sample>, q: Consumer) {
    delivered + Returning(q) == popped
  }

  ghost predicate Histories(s: State) {
    && PushHistory(s.offered, s.log, s.returned, s.prod, s.ring.dropped)
    && PopHistory(s.popped, s.delivered, s.cons)
  }

  /** What the producer relies on: it alone moves `head`, and the free space only grows. */
  ghost predicate ProducerInv(s: State)
    requires Typed(s)
  {
    var r := s.ring;
    var c := r.capacity;
    match s.prod
    case PushReadTail(x, h) => h == r.head
    case PushWrite(x, h, k) => h == r.head && r.Count() <= k < c - 1
    case PushStore(x, h, k) => h == r.head && r.Count() <= k < c - 1 && r.cells[h] == x
    case BatchCountHead(xs) => xs != []
    case BatchCountTail(xs, h) => xs != [] && h == r.head
    case BatchReadHead(xs, k) => r.Count() <= k
    case BatchWrite(xs, k, h, d) =>
      && h == r.head && r.Count() <= k
      && forall j :: 0 <= j < d ==> r.cells[Forward(h, j, c)] == xs[j]
    case BatchStore(xs, k, h) =>
      && h == r.head && r.Count() <= k && ToPush(xs, k, c) > 0
      && forall j :: 0 <= j < ToPush(xs, k, c) ==> r.cells[Forward(h, j, c)] == xs[j]
    case _ => true
  }

  /** What the consumer relies on: it alone moves `tail`, and the unread samples only grow. */
  ghost predicate ConsumerInv(s: State)
    requires Typed(s)
  {
    var r := s.ring;
    match s.cons
    case PopReadTail(h) => Between(r.tail, h, r.capacity) <= r.Count()
    case PopReadTailAgain(k) => 0 < k <= r.Count()
    case PopReadSlot(k, t) => t == r.tail && 0 < k <= r.Count()
    case PopStore(k, t, x) => t == r.tail && 0 < k <= r.Count() && x == r.Contents()[0]
    case TakeCountHead(n) => n > 0
    case TakeCountTail(n, h) => n > 0 && Between(r.tail, h, r.capacity) <= r.Count()
    case TakeReadTail(n, k) => k <= r.Count()
    case TakeReadSlot(n, k, t, out) => t == r.tail && k <= r.Count() && out == r.Contents()[..|out|]
    case TakeStore(n, k, t, out) => t == r.tail && 0 < |out| && k <= r.Count() && out == r.Contents()[..|out|]
    case _ => true
  }

  ghost predicate Inv(s: State) {
    && Typed(s)
    && s.popped + s.ring.Contents() == Taken(s.log)
    && Histories(s)
    && ProducerInv(s)
    && ConsumerInv(s)
  }

  lemma InitInv(s: State)
    requires Init(s)
    ensures Inv(s)
  {
  }

  /** A store to a free slot leaves the queue as it is. */
  lemma WriteIsInvisible(r: Ring, i: nat, x: Sample)
    requires r.Valid() && i < r.Available() + 1
    ensures r.(cells := r.cells[Forward(r.head, i, r.capacity) := x]).Contents() == r.Contents()
  {
  }

  /** Storing `head` publishes the samples written after it. */
  lemma StoreHeadPublishes(r: Ring, xs: seq<Sample>)
    requires r.Valid() && |xs| <= r.Available()
    requires forall j :: 0 <= j < |xs| ==> r.cells[Forward(r.head, j, r.capacity)] == xs[j]
    ensures r.(head := Forward(r.head, |xs|, r.capacity)).Contents() == r.Contents() + xs
  {
    var r' := r.(head := Forward(r.head, |xs|, r.capacity));
    assert r'.Count() == r.Count() + |xs|;
    forall i | 0 <= i < r'.Count()
      ensures r'.Contents()[i] == (r.Contents() + xs)[i]
    {
      if i >= r.Count() {
        assert Forward(r.tail, i, r.capacity) == Forward(r.head, i - r.Count(), r.capacity);
      }
    }
  }

  /** Storing `tail` removes the samples before it. */
  lemma StoreTailRemoves(r: Ring, n: nat)
    requires r.Valid() && n <= r.Count()
    ensures r.(tail := Forward(r.tail, n, r.capacity)).Contents() == r.Contents()[n..]
  {
    var r' := r.(tail := Forward(r.tail, n, r.capacity));
    assert r'.Count() == r.Count() - n;
    forall i | 0 <= i < r'.Count()
      ensures r'.Contents()[i] == r.Contents()[n..][i]
    {
      assert Forward(r'.tail, i, r.capacity) == Forward(r.tail, n + i, r.capacity);
    }
  }

  /** The step at which push call `c` takes effect. */
  lemma CommitKeepsHistories(s: State, s': State, c: Call)
    requires Histories(s)
    requires Holding(s.prod) == c.taken + c.refused && Unreturned(s.prod) == [] && Uncounted(s.prod) == 0
    requires Holding(s'.prod) == [] && Unreturned(s'.prod) == [c]
    requires s'.log == s.log + [c] && s'.ring.dropped + Uncounted(s'.prod) == s.ring.dropped + |c.refused|
    requires s'.offered == s.offered && s'.returned == s.returned
    requires s'.popped == s.popped && s'.delivered == s.delivered && s'.cons == s.cons
    ensures Histories(s')
  {
    LogGrows(s.log, c);
  }

  ghost predicate Commits(p: Producer) {
    p.PushDrop? || p.PushStore? || p.BatchDropAll? || p.BatchStore?
  }

  /** Every other step inside a call leaves the call's samples where they are. */
  lemma QuietStep(s: State)
    requires Enabled(s, ProducerStep) && !Commits(s.prod)
    ensures var s' := ProducerRuns(s);
            && s' == s.(ring := s'.ring, prod := s'.prod)
            && Holding(s'.prod) == Holding(s.prod)
            && Unreturned(s'.prod) == Unreturned(s.prod)
            && s'.ring.dropped + Uncounted(s'.prod) == s.ring.dropped + Uncounted(s.prod)
  {
  }

  lemma ProducerHistories(s: State)
    requires Typed(s) && Histories(s) && Enabled(s, ProducerStep)
    ensures Histories(ProducerRuns(s))
  {
    if s.prod.PushDrop? {
      CommitKeepsHistories(s, ProducerRuns(s), Call([], [s.prod.x]));
    } else if s.prod.PushStore? {
      CommitKeepsHistories(s, ProducerRuns(s), Call([s.prod.x], []));
    } else if s.prod.BatchDropAll? {
      CommitKeepsHistories(s, ProducerRuns(s), Call([], s.prod.xs));
    } else if s.prod.BatchStore? {
      var xs, n := s.prod.xs, ToPush(s.prod.xs, s.prod.seen, s.ring.capacity);
      assert xs[..n] + xs[n..] == xs;
      CommitKeepsHistories(s, ProducerRuns(s), Call(xs[..n], xs[n..]));
    } else {
      QuietStep(s);
    }
  }

  lemma PublishKeepsFifo(s: State, s': State, xs: seq<Sample>, c: Call)
    requires s.ring.Valid() && s.popped + s.ring.Contents() == Taken(s.log)
    requires |xs| <= s.ring.Available()
    requires forall j :: 0 <= j < |xs| ==> s.ring.cells[Forward(s.ring.head, j, s.ring.capacity)] == xs[j]
    requires s'.ring == s.ring.(head := Forward(s.ring.head, |xs|, s.ring.capacity))
    requires s'.popped == s.popped && s'.log == s.log + [c] && c.taken == xs
    ensures s'.popped + s'.ring.Contents() == Taken(s'.log)
    ensures s.ring.Contents() <= s'.ring.Contents()
  {
    LogGrows(s.log, c);
    StoreHeadPublishes(s.ring, xs);
  }

  lemma ProducerTyped(s: State)
    requires Enabled(s, ProducerStep)
    ensures Typed(ProducerRuns(s))
  {
  }

  /** Steps that leave the indices and the push log alone leave the queue alone: they store into
      a free slot, or into none. */
  lemma QuietFifo(s: State)
    requires Typed(s) && ProducerInv(s) && Enabled(s, ProducerStep) && !Commits(s.prod)
    requires Typed(ProducerRuns(s))
    ensures var s' := ProducerRuns(s);
            && s'.log == s.log && s'.popped == s.popped
            && s'.ring.capacity == s.ring.capacity && s'.ring.tail == s.ring.tail
            && s'.ring.Contents() == s.ring.Contents()
  {
    if s.prod.PushWrite? {
      WriteIsInvisible(s.ring, 0, s.prod.x);
    } else if s.prod.BatchWrite? {
      WriteIsInvisible(s.ring, s.prod.done, s.prod.xs[s.prod.done]);
    }
  }

  /** A refusal only logs and counts. */
  lemma RefusalFifo(s: State, c: Call)
    requires s.ring.Valid() && s.popped + s.ring.Contents() == Taken(s.log) && c.taken == []
    ensures s.popped + s.ring.Contents() == Taken(s.log + [c])
  {
    LogGrows(s.log, c);
  }

  lemma PushStoreFifo(s: State)
    requires Typed(s) && ProducerInv(s) && s.prod.PushStore?
    requires s.popped + s.ring.Contents() == Taken(s.log)
    requires Typed(ProducerRuns(s))
    ensures var s' := ProducerRuns(s);
            && s.ring.Contents() <= s'.ring.Contents()
            && s'.popped + s'.ring.Contents() == Taken(s'.log)
  {
    PublishKeepsFifo(s, ProducerRuns(s), [s.prod.x], Call([s.prod.x], []));
  }

  lemma BatchStoreFifo(s: State)
    requires Typed(s) && ProducerInv(s) && s.prod.BatchStore?
    requires s.popped + s.ring.Contents() == Taken(s.log)
    requires Typed(ProducerRuns(s))
    ensures var s' := ProducerRuns(s);
            && s.ring.Contents() <= s'.ring.Contents()
            && s'.popped + s'.ring.Contents() == Taken(s'.log)
  {
    var xs, n := s.prod.xs, ToPush(s.prod.xs, s.prod.seen, s.ring.capacity);
    PublishKeepsFifo(s, ProducerRuns(s), xs[..n], Call(xs[..n], xs[n..]));
  }

  lemma ProducerFifo(s: State)
    requires Typed(s) && ProducerInv(s) && Enabled(s, ProducerStep)
    requires s.popped + s.ring.Contents() == Taken(s.log)
    requires Typed(ProducerRuns(s))
    ensures var s' := ProducerRuns(s);
            && s'.ring.capacity == s.ring.capacity && s'.ring.tail == s.ring.tail
            && s.ring.Contents() <= s'.ring.Contents()
            && s'.popped + s'.ring.Contents() == Taken(s'.log)
  {
    if s.prod.PushDrop? {
      RefusalFifo(s, Call([], [s.prod.x]));
    } else if s.prod.PushStore? {
      PushStoreFifo(s);
    } else if s.prod.BatchDropAll? {
      RefusalFifo(s, Call([], s.prod.xs));
    } else if s.prod.BatchStore? {
      BatchStoreFifo(s);
    } else {
      QuietFifo(s);
    }
  }

  lemma ProducerLocal(s: State)
    requires Typed(s) && ProducerInv(s) && Enabled(s, ProducerStep)
    requires Typed(ProducerRuns(s))
    ensures ProducerInv(ProducerRuns(s))
  {
  }

  /** The producer never disturbs the consumer: it only extends the queue. */
  lemma ConsumerUndisturbed(s: State, s': State)
    requires Typed(s) && Typed(s') && ConsumerInv(s)
    requires s'.cons == s.cons
    requires s'.ring.capacity == s.ring.capacity && s'.ring.tail == s.ring.tail
    requires s.ring.Contents() <= s'.ring.Contents()
    ensures ConsumerInv(s')
  {
  }

  lemma ProducerKeepsInv(s: State)
    requires Inv(s) && Enabled(s, ProducerStep)
    ensures Inv(ProducerRuns(s))
  {
    ProducerTyped(s);
    ProducerFifo(s);
    ProducerHistories(s);
    ProducerLocal(s);
    ConsumerUndisturbed(s, ProducerRuns(s));
  }

  lemma ConsumerTyped(s: State)
    requires Enabled(s, ConsumerStep)
    ensures Typed(ConsumerRuns(s))
  {
  }

  /** Storing `tail` moves the front of the queue to the samples popped. */
  lemma ReleaseKeepsFifo(s: State, s': State, n: nat)
    requires s.ring.Valid() && s.popped + s.ring.Contents() == Taken(s.log) && n <= s.ring.Count()
    requires s'.ring == s.ring.(tail := Forward(s.ring.tail, n, s.ring.capacity))
    requires s'.popped == s.popped + s.ring.Contents()[..n] && s'.log == s.log
    ensures s'.ring.Count() <= s.ring.Count()
    ensures s'.popped + s'.ring.Contents() == Taken(s'.log)
  {
    StoreTailRemoves(s.ring, n);
    assert s'.ring.Count() == |s'.ring.Contents()|;
    assert s.ring.Contents()[..n] + s.ring.Contents()[n..] == s.ring.Contents();
  }

  lemma ConsumerFifo(s: State)
    requires Typed(s) && ConsumerInv(s) && Enabled(s, ConsumerStep)
    requires s.popped + s.ring.Contents() == Taken(s.log)
    requires Typed(ConsumerRuns(s))
    ensures var s' := ConsumerRuns(s);
            && s'.ring == s.ring.(tail := s'.ring.tail)
            && s'.ring.Count() <= s.ring.Count()
            && s'.popped + s'.ring.Contents() == Taken(s'.log)
  {
    if s.cons.PopStore? {
      assert [s.cons.x] == s.ring.Contents()[..1];
      ReleaseKeepsFifo(s, ConsumerRuns(s), 1);
    } else if s.cons.TakeStore? {
      ReleaseKeepsFifo(s, ConsumerRuns(s), |s.cons.out|);
    }
  }

  lemma ConsumerHistories(s: State)
    requires Typed(s) && Histories(s) && Enabled(s, ConsumerStep)
    ensures Histories(ConsumerRuns(s))
  {
    assert Returning(s.cons) == [];
    assert ConsumerRuns(s).popped == s.popped + Returning(ConsumerRuns(s).cons);
  }

  lemma ConsumerLocal(s: State)
    requires Typed(s) && ConsumerInv(s) && Enabled(s, ConsumerStep)
    requires Typed(ConsumerRuns(s))
    ensures ConsumerInv(ConsumerRuns(s))
  {
  }

  /** The consumer never disturbs the producer: it only frees slots. */
  lemma ProducerUndisturbed(s: State, s': State)
    requires Typed(s) && Typed(s') && ProducerInv(s)
    requires s'.prod == s.prod
    requires s'.ring == s.ring.(tail := s'.ring.tail)
    requires s'.ring.Count() <= s.ring.Count()
    ensures ProducerInv(s')
  {
  }

  lemma ConsumerKeepsInv(s: State)
    requires Inv(s) && Enabled(s, ConsumerStep)
    ensures Inv(ConsumerRuns(s))
  {
    ConsumerTyped(s);
    ConsumerFifo(s);
    ConsumerHistories(s);
    ConsumerLocal(s);
    ProducerUndisturbed(s, ConsumerRuns(s));
  }

  lemma BeginPushHistory(s: State, xs: seq<Sample>, p: Producer)
    requires PushHistory(s.offered, s.log, s.returned, s.prod, s.ring.dropped) && s.prod.PIdle?
    requires Holding(p) == xs && Unreturned(p) == [] && Uncounted(p) == 0
    ensures PushHistory(s.offered + xs, s.log, s.returned, p, s.ring.dropped)
  {
    assert Offered(s.log) + [] == Offered(s.log);
  }

  lemma EmptyPushHistory(s: State)
    requires PushHistory(s.offered, s.log, s.returned, s.prod, s.ring.dropped) && s.prod.PIdle?
    ensures PushHistory(s.offered, s.log + [Call([], [])], s.returned, PReturn([], 0), s.ring.dropped)
  {
    LogGrows(s.log, Call([], []));
  }

  lemma EndPushHistory(s: State)
    requires PushHistory(s.offered, s.log, s.returned, s.prod, s.ring.dropped) && Enabled(s, EndPush)
    ensures PushHistory(s.offered, s.log, Apply(s, EndPush).returned, PIdle, s.ring.dropped)
  {
    assert Apply(s, EndPush).returned + [] == s.log;
  }

  lemma PushBoundaryHistory(s: State, step: Step)
    requires PushHistory(s.offered, s.log, s.returned, s.prod, s.ring.dropped) && Enabled(s, step)
    requires step.BeginPush? || step.BeginPushBatch? || step.EndPush?
    ensures var s' := Apply(s, step); PushHistory(s'.offered, s'.log, s'.returned, s'.prod, s'.ring.dropped)
  {
    match step
    case BeginPush(x) => BeginPushHistory(s, [x], PushReadHead(x));
    case BeginPushBatch(xs) =>
      if xs == [] {
        EmptyPushHistory(s);
      } else {
        BeginPushHistory(s, xs, BatchCountHead(xs));
      }
    case EndPush => EndPushHistory(s);
  }

  lemma PopBoundaryHistory(s: State, step: Step)
    requires PopHistory(s.popped, s.delivered, s.cons) && Enabled(s, step)
    requires step.BeginPop? || step.BeginPopBatch? || step.EndPop?
    ensures var s' := Apply(s, step); PopHistory(s'.popped, s'.delivered, s'.cons)
  {
  }

  lemma PushBoundaryFifo(s: State, step: Step)
    requires Typed(s) && s.popped + s.ring.Contents() == Taken(s.log) && Enabled(s, step)
    requires step.BeginPush? || step.BeginPushBatch? || step.EndPush?
    ensures var s' := Apply(s, step);
            && s' == s.(prod := s'.prod, offered := s'.offered, log := s'.log, returned := s'.returned)
            && Typed(s') && ProducerInv(s')
            && s'.popped + s'.ring.Contents() == Taken(s'.log)
  {
    if step.BeginPushBatch? && step.xs == [] {
      LogGrows(s.log, Call([], []));
      assert Taken(s.log) + [] == Taken(s.log);
    }
  }

  lemma PushBoundaryKeepsInv(s: State, step: Step)
    requires Inv(s) && Enabled(s, step)
    requires step.BeginPush? || step.BeginPushBatch? || step.EndPush?
    ensures Inv(Apply(s, step))
  {
    PushBoundaryHistory(s, step);
    PushBoundaryFifo(s, step);
    ConsumerUndisturbed(s, Apply(s, step));
  }

  lemma PopBoundaryKeepsInv(s: State, step: Step)
    requires Inv(s) && Enabled(s, step)
    requires step.BeginPop? || step.BeginPopBatch? || step.EndPop?
    ensures Inv(Apply(s, step))
  {
    PopBoundaryHistory(s, step);
    ProducerUndisturbed(s, Apply(s, step));
  }

  lemma StepKeepsInv(s: State, step: Step)
    requires Inv(s) && Enabled(s, step)
    ensures Inv(Apply(s, step))
  {
    if step == ProducerStep {
      ProducerKeepsInv(s);
    } else if step == ConsumerStep {
      ConsumerKeepsInv(s);
    } else if step.BeginPop? || step.BeginPopBatch? || step.EndPop? {
      PopBoundaryKeepsInv(s, step);
    } else {
      PushBoundaryKeepsInv(s, step);
    }
  }

  lemma {:induction false} RunKeepsInv(run: seq<State>, i: nat)
    requires IsRun(run) && i < |run|
    ensures Inv(run[i])
  {
    if i == 0 {
      InitInv(run[0]);
    } else {
      RunKeepsInv(run, i - 1);
      assert Next(run[i - 1], run[i - 1 + 1]);
      var step :| Enabled(run[i - 1], step) && run[i] == Apply(run[i - 1], step);
      StepKeepsInv(run[i - 1], step);
    }
  }
}
