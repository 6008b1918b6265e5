/** Samples and the value of a ring buffer: what one call of the sequential API does to it. */
module Rings {
  import opened Words

  datatype Sample = Sample(timestamp: u32, value: i32, sequence: u32, channel: u16, flags: u16)

  /** How many samples the workers move at a time. */
  const BATCH: nat := 256

  datatype Option<T> = None | Some(value: T)

  /** The fields of a ring buffer; `cells` is the content of its array. */
  datatype Ring = Ring(capacity: nat, head: nat, tail: nat, cells: seq<Sample>, dropped: nat) {

    ghost predicate Valid() {
      && IsCapacity(capacity)
      && head < capacity && tail < capacity
      && |cells| == capacity
    }

    function Count(): (n: nat)
      requires Valid()
    {
      Between(tail, head, capacity)
    }

    function Available(): (n: nat)
      requires Valid()
    {
      capacity - 1 - Count()
    }

    /** The unread samples, oldest first. */
    function Contents(): (c: seq<Sample>)
      requires Valid()
      ensures |c| == Count()
    {
      seq(Count(), i requires 0 <= i < Count() => cells[Forward(tail, i, capacity)])
    }
  }

  // ---------------------------------------------------------------- single operations

  function PushOne(r: Ring, x: Sample): (res: (Ring, bool))
    requires r.Valid()
    ensures res.0.Valid() && res.0.capacity == r.capacity
  {
    if r.Available() == 0 then (r.(dropped := r.dropped + 1), false)
    else (r.(head := Forward(r.head, 1, r.capacity), cells := r.cells[r.head := x]), true)
  }

  function PopOne(r: Ring): (res: (Ring, Option<Sample>))
    requires r.Valid()
    ensures res.0.Valid() && res.0.capacity == r.capacity
  {
    if r.Count() == 0 then (r, None)
    else (r.(tail := Forward(r.tail, 1, r.capacity)), Some(r.cells[r.tail]))
  }

  /** A push appends to the queue, unless capacity - 1 samples are queued: then it only counts a drop. */
  lemma PushIsEnqueue(r: Ring, x: Sample)
    requires r.Valid()
    ensures var (r', ok) := PushOne(r, x);
            && ok == (|r.Contents()| < r.capacity - 1)
            && r'.Contents() == (if ok then r.Contents() + [x] else r.Contents())
            && r'.dropped == (if ok then r.dropped else r.dropped + 1)
  {
    var (r', ok) := PushOne(r, x);
    if ok {
      assert r'.Count() == r.Count() + 1;
      forall i | 0 <= i < r'.Count()
        ensures r'.Contents()[i] == (r.Contents() + [x])[i]
      {
      }
    }
  }

  /** A pop removes and returns the oldest queued sample. */
  lemma PopIsDequeue(r: Ring)
    requires r.Valid()
    ensures var (r', x) := PopOne(r);
            if r.Contents() == [] then r' == r && x == None
            else x == Some(r.Contents()[0]) && r'.Contents() == r.Contents()[1..] && r'.dropped == r.dropped
  {
    var (r', x) := PopOne(r);
    if r.Contents() != [] {
      assert r'.Count() == r.Count() - 1;
      assert r'.Contents() == r.Contents()[1..];
    }
  }

  // ---------------------------------------------------------------- repeated operations

  /** `ring_buffer_push` called on each sample in turn. */
  function PushEach(r: Ring, xs: seq<Sample>): (r': Ring)
    requires r.Valid()
    ensures r'.Valid() && r'.capacity == r.capacity
    decreases |xs|
  {
    if xs == [] then r else PushEach(PushOne(r, xs[0]).0, xs[1..])
  }

  /** How many of those calls return true. */
  function Successes(r: Ring, xs: seq<Sample>): (n: nat)
    requires r.Valid()
    ensures n <= |xs|
    decreases |xs|
  {
    if xs == [] then 0
    else (if PushOne(r, xs[0]).1 then 1 else 0) + Successes(PushOne(r, xs[0]).0, xs[1..])
  }

  /** `ring_buffer_pop` called until `n` samples are out or the buffer is empty. */
  function PopEach(r: Ring, n: nat): (res: (Ring, seq<Sample>))
    requires r.Valid()
    ensures res.0.Valid() && res.0.capacity == r.capacity
    decreases n
  {
    if n == 0 || PopOne(r).1.None? then (r, [])
    else
      var (r1, x) := PopOne(r);
      var (r2, xs) := PopEach(r1, n - 1);
      (r2, [x.value] + xs)
  }

  // ---------------------------------------------------------------- closed forms

  function Min(a: nat, b: nat): nat { if a < b then a else b }

  /** `cells` after `xs` has been written from slot `at` onwards, around the wrap point. */
  function Overlay(cells: seq<Sample>, at: nat, xs: seq<Sample>): (c: seq<Sample>)
    requires at < |cells| && |xs| <= |cells|
    ensures |c| == |cells|
  {
    seq(|cells|, j requires 0 <= j < |cells| =>
      var d := Between(at, j, |cells|);
      if d < |xs| then xs[d] else cells[j])
  }

  lemma OverlayFirst(cells: seq<Sample>, at: nat, xs: seq<Sample>)
    requires at < |cells| && 0 < |xs| < |cells|
    ensures Overlay(cells, at, xs)
         == Overlay(cells[at := xs[0]], Forward(at, 1, |cells|), xs[1..])
  {
    var lhs := Overlay(cells, at, xs);
    var next := Forward(at, 1, |cells|);
    var rhs := Overlay(cells[at := xs[0]], next, xs[1..]);
    forall j | 0 <= j < |cells|
      ensures lhs[j] == rhs[j]
    {
      if j == at {
        assert Between(next, j, |cells|) == |cells| - 1;
      } else {
        assert Between(at, j, |cells|) == Between(next, j, |cells|) + 1;
      }
    }
  }

  lemma {:induction false} PushEachFull(r: Ring, xs: seq<Sample>)
    requires r.Valid() && r.Available() == 0
    ensures PushEach(r, xs) == r.(dropped := r.dropped + |xs|)
    ensures Successes(r, xs) == 0
    decreases |xs|
  {
    if xs != [] {
      PushEachFull(PushOne(r, xs[0]).0, xs[1..]);
    }
  }

  /** Pushing one by one writes the longest prefix that fits and drops the rest. */
  lemma {:induction false} PushEachClosed(r: Ring, xs: seq<Sample>)
    requires r.Valid()
    ensures var n := Min(|xs|, r.Available());
            && Successes(r, xs) == n
            && PushEach(r, xs) == r.(head := Forward(r.head, n, r.capacity),
                                     cells := Overlay(r.cells, r.head, xs[..n]),
                                     dropped := r.dropped + (|xs| - n))
    decreases |xs|
  {
    if xs == [] {
      assert Overlay(r.cells, r.head, []) == r.cells;
    } else if r.Available() == 0 {
      PushEachFull(r, xs);
      assert Overlay(r.cells, r.head, []) == r.cells;
    } else {
      var r1 := PushOne(r, xs[0]).0;
      assert r1.Available() == r.Available() - 1;
      PushEachClosed(r1, xs[1..]);
      var n := Min(|xs|, r.Available());
      OverlayFirst(r.cells, r.head, xs[..n]);
      assert xs[..n][1..] == xs[1..][..n - 1];
    }
  }

  lemma PopFirst(r: Ring, k: nat)
    requires r.Valid() && 0 < k <= r.Count()
    ensures var (r1, x) := PopOne(r);
            && x.Some? && r1.Count() == r.Count() - 1
            && Forward(r1.tail, k - 1, r.capacity) == Forward(r.tail, k, r.capacity)
            && r.Contents()[..k] == [x.value] + r1.Contents()[..k - 1]
  {
    PopIsDequeue(r);
    var c := r.Contents();
    assert c[..k] == [c[0]] + c[1..][..k - 1];
  }

  /** Popping one by one takes the longest available prefix of the queue, at most `n` samples. */
  lemma {:induction false} PopEachClosed(r: Ring, n: nat)
    requires r.Valid()
    ensures var k := Min(n, r.Count());
            PopEach(r, n) == (r.(tail := Forward(r.tail, k, r.capacity)), r.Contents()[..k])
    decreases n
  {
    if n > 0 && r.Count() > 0 {
      PopFirst(r, Min(n, r.Count()));
      PopEachClosed(PopOne(r).0, n - 1);
    }
  }

  /** Batch calls seen as queue operations: a batch push appends the longest prefix that fits. */
  lemma {:induction false} PushEachIsEnqueue(r: Ring, xs: seq<Sample>)
    requires r.Valid()
    ensures var n := Min(|xs|, r.Available());
            && PushEach(r, xs).Contents() == r.Contents() + xs[..n]
            && PushEach(r, xs).dropped == r.dropped + |xs| - n
    decreases |xs|
  {
    if xs == [] {
    } else {
      PushIsEnqueue(r, xs[0]);
      var r1 := PushOne(r, xs[0]).0;
      PushEachIsEnqueue(r1, xs[1..]);
      var n := Min(|xs|, r.Available());
      if r.Available() > 0 {
        assert xs[..n] == [xs[0]] + xs[1..][..n - 1];
      } else {
        assert xs[..n] == xs[1..][..n] == [];
      }
    }
  }

  /** ... and a batch pop removes the longest prefix it may. */
  lemma PopEachIsDequeue(r: Ring, n: nat)
    requires r.Valid()
    ensures var (r', xs) := PopEach(r, n);
            && |xs| == Min(n, |r.Contents()|)
            && xs + r'.Contents() == r.Contents()
            && r'.dropped == r.dropped
  {
    PopEachClosed(r, n);
    var (r', xs) := PopEach(r, n);
    var k := Min(n, r.Count());
    assert r'.Count() == r.Count() - k;
    forall i | 0 <= i < r'.Count()
      ensures r'.Contents()[i] == r.Contents()[k + i]
    {
      assert Forward(r'.tail, i, r.capacity) == Forward(r.tail, k + i, r.capacity);
    }
    assert xs + r'.Contents() == r.Contents();
  }
}
