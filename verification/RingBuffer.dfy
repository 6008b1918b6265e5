/** The ring buffer object: masked 32-bit indices over an array, updated in place. */
module RingBuffers {
  import opened Words
  import opened Rings

  /** `memcpy` of `n` samples between two different arrays. */
  method CopySamples(src: array<Sample>, s: nat, dst: array<Sample>, d: nat, n: nat)
    requires src != dst
    requires s + n <= src.Length && d + n <= dst.Length
    modifies dst
    ensures forall j :: 0 <= j < dst.Length ==>
              dst[j] == if d <= j < d + n then src[s + (j - d)] else old(dst[j])
  {
    for i := 0 to n
      invariant forall j :: 0 <= j < dst.Length ==>
                  dst[j] == if d <= j < d + i then src[s + (j - d)] else old(dst[j])
    {
      dst[d + i] := src[s + i];
    }
  }

  /** The two chunks of a batch write: up to the wrap point, then from slot 0. */
  method CopyIn(samples: array<Sample>, buffer: array<Sample>, head: nat, toPush: nat)
    requires samples != buffer
    requires head < buffer.Length && toPush <= buffer.Length && toPush <= samples.Length
    modifies buffer
    ensures buffer[..] == Overlay(old(buffer[..]), head, samples[..toPush])
  {
    var firstChunk := toPush;
    var wrapPoint := buffer.Length - head;
    if firstChunk > wrapPoint {
      firstChunk := wrapPoint;
    }
    CopySamples(samples, 0, buffer, head, firstChunk);
    if firstChunk < toPush {
      var secondChunk := toPush - firstChunk;
      CopySamples(samples, firstChunk, buffer, 0, secondChunk);
    }
  }

  /** The two chunks of a batch read. */
  method CopyOut(buffer: array<Sample>, tail: nat, samples: array<Sample>, toPop: nat)
    requires samples != buffer
    requires tail < buffer.Length && toPop <= buffer.Length && toPop <= samples.Length
    modifies samples
    ensures forall j :: 0 <= j < samples.Length ==>
              samples[j] == if j < toPop then buffer[Forward(tail, j, buffer.Length)] else old(samples[j])
  {
    var firstChunk := toPop;
    var wrapPoint := buffer.Length - tail;
    if firstChunk > wrapPoint {
      firstChunk := wrapPoint;
    }
    CopySamples(buffer, tail, samples, 0, firstChunk);
    if firstChunk < toPop {
      var secondChunk := toPop - firstChunk;
      CopySamples(buffer, 0, samples, firstChunk, secondChunk);
    }
  }

  class RingBuffer {
    var head: u32
    var tail: u32
    var dropped: nat
    const capacity: u32
    const mask: u32
    const buffer: array<Sample>

    ghost predicate Valid()
      reads this
    {
      && IsCapacity(capacity)
      && mask == Wrap32(capacity - 1)
      && buffer.Length == capacity
      && head < capacity && tail < capacity
    }

    /** The whole state as a value. */
    ghost function View(): (r: Ring)
      requires Valid()
      reads this, buffer
      ensures r.Valid()
    {
      Ring(capacity, head, tail, buffer[..], dropped)
    }

    constructor (request: u32)
      requires request <= TWO_31
      ensures Valid() && fresh(buffer)
      ensures IsLeastCapacity(capacity, request) && capacity >= request
      ensures View().Contents() == [] && dropped == 0 && head == 0
      // the buffer has room for `request` samples unless `request` is itself a capacity
      ensures View().Available() >= request <==> !IsCapacity(request)
    {
      var c := RoundCapacity(request);
      capacity := c;
      mask := Wrap32(c - 1);
      buffer := new Sample[c];
      head, tail, dropped := 0, 0, 0;
    }

    // -------------------------------------------------------------- observers

    function Count(): (n: u32)
      requires Valid()
      reads this, buffer
      ensures n == |View().Contents()|
    {
      MaskIsExact(capacity, head, tail, 0);
      And(Wrap32(head - tail), mask)
    }

    predicate IsEmpty()
      requires Valid()
      reads this, buffer
      ensures IsEmpty() <==> View().Contents() == []
    {
      head == tail
    }

    predicate IsFull()
      requires Valid()
      reads this, buffer
      ensures IsFull() <==> |View().Contents()| == capacity - 1
    {
      MaskIsExact(capacity, head, tail, 1);
      And(Wrap32(head + 1), mask) == tail
    }

    function Available(): (n: u32)
      requires Valid()
      reads this, buffer
      ensures n == capacity - 1 - |View().Contents()|
    {
      MaskIsExact(capacity, head, tail, 0);
      capacity - Count() - 1
    }

    // -------------------------------------------------------------- single calls

    /** `None` is a null sample pointer. */
    method Push(sample: Option<Sample>) returns (ok: bool)
      requires Valid()
      modifies this, buffer
      ensures Valid()
      ensures sample == None ==> !ok && View() == old(View())
      ensures sample.Some? ==> (View(), ok) == PushOne(old(View()), sample.value)
    {
      if sample == None {
        return false;
      }
      var h := head;
      MaskIsExact(capacity, h, tail, 1);
      var nextHead := And(Wrap32(h + 1), mask);
      if nextHead == tail {
        dropped := dropped + 1;
        return false;
      }
      buffer[h] := sample.value;
      head := nextHead;
      return true;
    }

    /** `sample` is the cell the caller points at, or null. */
    method Pop(sample: array?<Sample>) returns (ok: bool)
      requires Valid()
      requires sample != null ==> sample.Length == 1 && sample != buffer
      modifies this, sample
      ensures Valid()
      ensures buffer[..] == old(buffer[..])
      ensures sample == null ==> !ok && View() == old(View())
      ensures sample != null ==>
                var (r', x) := PopOne(old(View()));
                View() == r' && ok == x.Some? && sample[0] == (if ok then x.value else old(sample[0]))
    {
      if sample == null || head == tail {
        return false;
      }
      var t := tail;
      sample[0] := buffer[t];
      MaskIsExact(capacity, t, t, 1);
      tail := And(Wrap32(t + 1), mask);
      return true;
    }

    // -------------------------------------------------------------- batch calls

    /** Leaves the state, and reports the count, of `Push` called on each sample in turn. */
    method PushBatch(samples: array?<Sample>, count: u32) returns (ok: bool, pushed: u32)
      requires Valid()
      requires samples != null ==> count <= samples.Length && samples != buffer
      modifies this, buffer
      ensures Valid()
      ensures samples == null || count == 0 ==> !ok && pushed == 0 && View() == old(View())
      ensures samples != null && count > 0 ==>
                && View() == PushEach(old(View()), samples[..count])
                && pushed == Successes(old(View()), samples[..count])
                && (ok <==> pushed == count)
    {
      if samples == null || count == 0 {
        return false, 0;
      }
      ghost var xs := samples[..count];
      ghost var r := View();
      var available := Available();
      var toPush := if count < available then count else available;
      if toPush == 0 {
        dropped := dropped + count;
        PushEachFull(r, xs);
        return false, 0;
      }
      PushEachClosed(r, xs);
      var h := head;
      CopyIn(samples, buffer, h, toPush);
      assert samples[..toPush] == xs[..toPush];
      MaskIsExact(capacity, h, tail, toPush);
      head := And(Wrap32(h + toPush), mask);
      if toPush < count {
        dropped := dropped + (count - toPush);
      }
      return toPush == count, toPush;
    }

    /** Delivers what repeated `Pop` delivers; output cells past `popped` are untouched. */
    method PopBatch(samples: array?<Sample>, count: u32) returns (ok: bool, popped: u32)
      requires Valid()
      requires samples != null ==> count <= samples.Length && samples != buffer
      modifies this, samples
      ensures Valid()
      ensures buffer[..] == old(buffer[..])
      ensures ok <==> popped > 0
      ensures samples == null ==> popped == 0 && View() == old(View())
      ensures samples != null ==>
                && popped <= count
                && (View(), samples[..popped]) == PopEach(old(View()), count)
                && forall j :: popped <= j < samples.Length ==> samples[j] == old(samples[j])
    {
      if samples == null || count == 0 {
        return false, 0;
      }
      ghost var r := View();
      PopEachClosed(r, count);
      var currentCount := Count();
      var toPop := if count < currentCount then count else currentCount;
      if toPop == 0 {
        return false, 0;
      }
      var t := tail;
      CopyOut(buffer, t, samples, toPop);
      assert samples[..toPop] == r.Contents()[..toPop];
      MaskIsExact(capacity, t, t, toPop);
      tail := And(Wrap32(t + toPop), mask);
      return toPop > 0, toPop;
    }

    /** Empties the buffer and forgets the drop count; not for use while others run. */
    method Clear()
      requires Valid()
      modifies this
      ensures Valid()
      ensures View().Contents() == [] && dropped == 0 && head == 0
      ensures buffer[..] == old(buffer[..])
    {
      head := 0;
      tail := 0;
      dropped := 0;
    }
  }
}
