/** The ADC simulator's sampling loop: deadlines, catch-up and drift. */
module Sampling {
  import opened Words
  import opened Rings

  // ---------------------------------------------------------------- the deadline rule

  /** A sample taken at `time` against the deadline `deadline`. */
  datatype Shot = Shot(time: nat, deadline: nat)

  /** The loop's `next_sample_time` and the samples taken so far. */
  datatype Schedule = Schedule(next: nat, shots: seq<Shot>) {
    /** Deadline of the k-th sample, taken or next to take. */
    function Deadline(k: nat): nat
      requires k <= |shots|
    {
      if k < |shots| then shots[k].deadline else next
    }
  }

  /** The deadline after `shot`: one interval on, or one interval from now if that has passed. */
  function Following(shot: Shot, interval: nat): nat {
    if shot.deadline + interval < shot.time then shot.time + interval else shot.deadline + interval
  }

  /** One turn of the loop, the clock reading `now`. */
  function Tick(s: Schedule, now: nat, interval: nat): Schedule {
    if now < s.next then s
    else
      var shot := Shot(now, s.next);
      Schedule(Following(shot, interval), s.shots + [shot])
  }

  /** The loop started at `start`, over the clock readings of its turns. */
  function Loop(start: nat, readings: seq<nat>, interval: nat): Schedule {
    if readings == [] then Schedule(start, [])
    else Tick(Loop(start, readings[..|readings| - 1], interval), readings[|readings| - 1], interval)
  }

  /** The sample the loop hands to the callback for the k-th shot of a run begun at `origin`. */
  function Emit(shot: Shot, k: nat, origin: int, value: nat -> i32): Sample {
    Sample(Wrap32(shot.time - origin), value(shot.time), Wrap32(k), 0, 0)
  }

  lemma QuotientBounds(x: nat, y: nat)
    requires y > 0
    ensures (x / y) * y <= x < (x / y + 1) * y
  {
    var q := x / y;
    assert x == q * y + x % y;
    assert (q + 1) * y == q * y + y;
  }

  /** Microseconds between samples: an integer division, 0 for rates above 1 MHz. */
  function IntervalOf(sampleRate: u32): (interval: nat)
    requires sampleRate > 0
    ensures interval * sampleRate <= 1_000_000 < (interval + 1) * sampleRate
  {
    QuotientBounds(1_000_000, sampleRate);
    1_000_000 / sampleRate
  }

  lemma WrapNext(x: int)
    ensures Wrap32(Wrap32(x) + 1) == Wrap32(x + 1)
  {
  }

  class AdcSimulator {
    const sampleRate: u32
    var running: bool
    var sequence: u32
    var startTime: nat

    constructor (sampleRate: u32)
      ensures this.sampleRate == sampleRate && !running && sequence == 0
    {
      this.sampleRate := sampleRate;
      running, sequence, startTime := false, 0, 0;
    }

    /** `adc_simulator_start` up to the creation of its thread. */
    method Start(now: nat)
      modifies this
      ensures running
      ensures old(running) ==> sequence == old(sequence) && startTime == old(startTime)
      ensures !old(running) ==> sequence == 0 && startTime == now
    {
      if running {
        return;
      }
      running := true;
      startTime := now;
      sequence := 0;
    }

    /** The capture thread from its first clock reading `start`, until `running` goes false after
        the turns whose readings are given. `value` stands for the generated signal. */
    method CaptureThread(start: nat, readings: seq<nat>, value: nat -> i32)
        returns (out: seq<Sample>, nextSampleTime: nat)
      requires sampleRate > 0
      modifies this`sequence
      ensures var s := Loop(start, readings, IntervalOf(sampleRate));
              && nextSampleTime == s.next
              && |out| == |s.shots|
              && (forall k :: 0 <= k < |out| ==> out[k] == Emit(s.shots[k], old(sequence) + k, startTime, value))
              && sequence == Wrap32(old(sequence) + |out|)
              // field by field
              && forall k :: 0 <= k < |out| ==>
                   && out[k].timestamp == Wrap32(s.shots[k].time - startTime)
                   && out[k].value == value(s.shots[k].time)
                   && out[k].sequence == Wrap32(old(sequence) + k)
                   && out[k].channel == 0 && out[k].flags == 0
    {
      var interval := IntervalOf(sampleRate);
      nextSampleTime, out := start, [];
      for i := 0 to |readings|
        invariant var s := Loop(start, readings[..i], interval);
                  && nextSampleTime == s.next
                  && |out| == |s.shots|
                  && (forall k :: 0 <= k < |out| ==> out[k] == Emit(s.shots[k], old(sequence) + k, startTime, value))
                  && sequence == Wrap32(old(sequence) + |out|)
      {
        assert readings[..i + 1][..i] == readings[..i];
        var now := readings[i];
        if now >= nextSampleTime {
          out := out + [Sample(Wrap32(now - startTime), value(now), sequence, 0, 0)];
          WrapNext(old(sequence) + |out| - 1);
          sequence := Wrap32(sequence + 1);
          nextSampleTime := nextSampleTime + interval;
          if nextSampleTime < now {
            nextSampleTime := now + interval;
          }
        }
      }
      assert readings[..|readings|] == readings;
    }
  }

  // ---------------------------------------------------------------- when samples are taken

  /** The turn that reads `readings[i]` takes a sample, at that time, exactly if the deadline then
      pending is not after it. A sample that is late by more than an interval sets the next deadline
      one interval from itself, any other one interval from its own deadline. */
  lemma SamplesWhenDue(start: nat, readings: seq<nat>, interval: nat, i: nat)
    requires i < |readings|
    ensures var s, s', now := Loop(start, readings[..i], interval), Loop(start, readings[..i + 1], interval), readings[i];
            && (now >= s.next <==> s'.shots == s.shots + [Shot(now, s.next)])
            && (now < s.next <==> s' == s)
            && (now > s.next + interval ==> s'.next == now + interval)
            && (s.next <= now <= s.next + interval ==> s'.next == s.next + interval)
  {
    assert readings[..i + 1][..i] == readings[..i];
  }

  /** An overdue loop always catches up: after a turn the next deadline is not before its reading,
      nor more than an interval after the last sample. */
  lemma CatchesUp(start: nat, readings: seq<nat>, interval: nat, i: nat)
    requires i < |readings|
    ensures var s' := Loop(start, readings[..i + 1], interval);
            && readings[i] <= s'.next
            && (s'.shots != [] ==> s'.next <= s'.shots[|s'.shots| - 1].time + interval)
  {
    SamplesWhenDue(start, readings, interval, i);
    LoopKeepsInv(start, readings[..i + 1], interval);
    var s' := Loop(start, readings[..i + 1], interval);
    if s'.shots != [] {
      assert ShotOnTime(s', interval, |s'.shots| - 1);
    }
  }

  ghost predicate ReadWithin(readings: seq<nat>, i: nat, d: nat)
    requires i + 1 < |readings|
  {
    readings[i] <= readings[i + 1] <= readings[i] + d
  }

  /** The clock goes on by at most `d` from one turn to the next. */
  ghost predicate ReadEvery(start: nat, readings: seq<nat>, d: nat) {
    && (readings != [] ==> start <= readings[0])
    && forall i :: 0 <= i < |readings| - 1 ==> ReadWithin(readings, i, d)
  }

  ghost predicate GapWithin(shots: seq<Shot>, n: nat, interval: nat, d: nat)
    requires n + 1 < |shots|
  {
    shots[n + 1].time <= shots[n].time + interval + d
  }

  /** Sampled from `first` on, with no gap longer than an interval and `d`, and up to date at `now`. */
  ghost predicate NoStall(shots: seq<Shot>, first: nat, now: nat, interval: nat, d: nat) {
    && shots != [] && shots[0].time == first
    && (forall n :: 0 <= n < |shots| - 1 ==> GapWithin(shots, n, interval, d))
    && now <= shots[|shots| - 1].time + interval
  }

  lemma NoStallGoesOn(shots: seq<Shot>, first: nat, before: nat, now: nat, shot: Shot, interval: nat, d: nat)
    requires NoStall(shots, first, before, interval, d) && now <= before + d && shot.time == now
    ensures NoStall(shots + [shot], first, now, interval, d)
  {
    var shots' := shots + [shot];
    forall n | 0 <= n < |shots'| - 1
      ensures GapWithin(shots', n, interval, d)
    {
      if n < |shots| - 1 {
        assert GapWithin(shots, n, interval, d);
      }
    }
  }

  /** The loop never stalls: with turns at most `d` apart, it samples at its first turn, and from
      one sample to the next no more than an interval and `d` pass. */
  lemma {:induction false} NeverStalls(start: nat, readings: seq<nat>, interval: nat, d: nat)
    requires readings != [] && ReadEvery(start, readings, d)
    ensures NoStall(Loop(start, readings, interval).shots, readings[0], readings[|readings| - 1], interval, d)
  {
    var i := |readings| - 1;
    var before := readings[..i];
    assert readings[..i + 1] == readings;
    SamplesWhenDue(start, readings, interval, i);
    CatchesUp(start, readings, interval, i);
    if i == 0 {
      assert Loop(start, before, interval) == Schedule(start, []);
    } else {
      forall j | 0 <= j < |before| - 1
        ensures ReadWithin(before, j, d)
      {
        assert ReadWithin(readings, j, d);
      }
      NeverStalls(start, before, interval, d);
      assert ReadWithin(readings, i - 1, d);
      var s := Loop(start, before, interval);
      if readings[i] >= s.next {
        NoStallGoesOn(s.shots, readings[0], readings[i - 1], readings[i], Shot(readings[i], s.next), interval, d);
      }
    }
  }

  // ---------------------------------------------------------------- what the schedule keeps

  ghost predicate ShotOnTime(s: Schedule, interval: nat, k: nat)
    requires k < |s.shots|
  {
    s.shots[k].deadline <= s.shots[k].time && s.Deadline(k + 1) == Following(s.shots[k], interval)
  }

  ghost predicate ScheduleInv(s: Schedule, start: nat, interval: nat) {
    && s.Deadline(0) == start
    && forall k :: 0 <= k < |s.shots| ==> ShotOnTime(s, interval, k)
  }

  lemma TickKeepsInv(s: Schedule, now: nat, start: nat, interval: nat)
    requires ScheduleInv(s, start, interval)
    ensures ScheduleInv(Tick(s, now, interval), start, interval)
  {
    var s' := Tick(s, now, interval);
    if s' != s {
      forall k | 0 <= k < |s'.shots|
        ensures ShotOnTime(s', interval, k)
      {
        if k < |s.shots| {
          assert ShotOnTime(s, interval, k);
          assert s'.Deadline(k + 1) == s.Deadline(k + 1);
        }
      }
    }
  }

  lemma {:induction false} LoopKeepsInv(start: nat, readings: seq<nat>, interval: nat)
    ensures ScheduleInv(Loop(start, readings, interval), start, interval)
  {
    if readings != [] {
      LoopKeepsInv(start, readings[..|readings| - 1], interval);
      TickKeepsInv(Loop(start, readings[..|readings| - 1], interval), readings[|readings| - 1], start, interval);
    }
  }

  /** `k` intervals. */
  function Span(k: nat, interval: nat): nat {
    if k == 0 then 0 else Span(k - 1, interval) + interval
  }

  lemma {:induction false} SpanIsProduct(k: nat, interval: nat)
    ensures Span(k, interval) == k * interval
  {
    if k > 0 {
      SpanIsProduct(k - 1, interval);
      assert k * interval == (k - 1) * interval + interval;
    }
  }

  lemma {:induction false} SpanMonotone(a: nat, b: nat, interval: nat)
    requires a <= b
    ensures Span(a, interval) <= Span(b, interval)
  {
    if a < b {
      SpanMonotone(a, b - 1, interval);
    }
  }

  lemma SpanPastQuotient(w: nat, interval: nat)
    requires interval > 0
    ensures Span(w / interval + 1, interval) > w
  {
    var q := w / interval;
    assert w == q * interval + w % interval;
    assert (q + 1) * interval == q * interval + interval;
    SpanIsProduct(q + 1, interval);
  }

  lemma {:induction false} DeadlinesSpread(s: Schedule, start: nat, interval: nat, i: nat, j: nat)
    requires ScheduleInv(s, start, interval) && i <= j <= |s.shots|
    ensures s.Deadline(j) >= s.Deadline(i) + Span(j - i, interval)
    decreases j
  {
    if i < j {
      DeadlinesSpread(s, start, interval, i, j - 1);
      assert ShotOnTime(s, interval, j - 1);
    }
  }

  /** Over any clock trace the n-th sample is never taken before start + n * interval, and after
      a sample the next deadline lies between now and one interval from now. */
  lemma NeverEarly(start: nat, readings: seq<nat>, interval: nat, n: nat)
    requires n < |Loop(start, readings, interval).shots|
    ensures var s := Loop(start, readings, interval);
            && s.shots[n].time >= start + n * interval
            && s.shots[n].time <= s.Deadline(n + 1) <= s.shots[n].time + interval
  {
    LoopKeepsInv(start, readings, interval);
    DeadlinesSpread(Loop(start, readings, interval), start, interval, 0, n);
    assert ShotOnTime(Loop(start, readings, interval), interval, n);
    SpanIsProduct(n, interval);
  }

  /** Samples i and j lie at least j - i - 1 intervals apart, catch-up included. */
  lemma Spacing(s: Schedule, start: nat, interval: nat, i: nat, j: nat)
    requires ScheduleInv(s, start, interval)
    requires i < j < |s.shots|
    ensures s.shots[j].time >= s.shots[i].time + Span(j - i - 1, interval)
  {
    DeadlinesSpread(s, start, interval, i + 1, j);
    assert ShotOnTime(s, interval, i) && ShotOnTime(s, interval, j);
  }

  /** So fewer than `m` samples follow sample i within `w`, if m - 1 intervals exceed `w`. */
  lemma SpacingBound(s: Schedule, start: nat, interval: nat, i: nat, j: nat, w: nat, m: nat)
    requires ScheduleInv(s, start, interval)
    requires i <= j < |s.shots| && s.shots[j].time <= s.shots[i].time + w
    requires m > 0 && Span(m - 1, interval) > w
    ensures j - i < m
  {
    if j - i >= m {
      Spacing(s, start, interval, i, j);
      SpanMonotone(m - 1, j - i - 1, interval);
    }
  }

  // ---------------------------------------------------------------- samples in a window

  /** The samples taken in the `w` microseconds from `from` on. */
  function InWindow(shots: seq<Shot>, from: nat, w: nat): set<nat> {
    set k: nat | k < |shots| && from <= shots[k].time <= from + w
  }

  lemma {:induction false} RangeSize(a: set<nat>, lo: nat, hi: nat)
    requires lo <= hi && forall k :: k in a ==> lo <= k < hi
    ensures |a| <= hi - lo
    decreases hi
  {
    if lo == hi {
      assert a == {};
    } else {
      RangeSize(a - {hi - 1}, lo, hi - 1);
      assert a <= (a - {hi - 1}) + {hi - 1};
      if hi - 1 in a {
        assert a == (a - {hi - 1}) + {hi - 1};
      } else {
        assert a == a - {hi - 1};
      }
    }
  }

  /** Over any clock trace, no window of length `w` holds more than w / interval + 2 samples, even
      after catch-up resets. */
  lemma WindowBound(start: nat, readings: seq<nat>, interval: nat, from: nat, w: nat)
    requires interval > 0
    ensures |InWindow(Loop(start, readings, interval).shots, from, w)| <= w / interval + 2
  {
    var s := Loop(start, readings, interval);
    var window := InWindow(s.shots, from, w);
    if window != {} {
      LoopKeepsInv(start, readings, interval);
      var lo := Least(window, 0, |s.shots|);
      var hi := Greatest(window, |s.shots|);
      SpanPastQuotient(w, interval);
      SpacingBound(s, start, interval, lo, hi, w, w / interval + 2);
      RangeSize(window, lo, hi + 1);
    }
  }

  lemma {:induction false} Least(a: set<nat>, low: nat, bound: nat) returns (m: nat)
    requires a != {} && forall k :: k in a ==> low <= k < bound
    ensures m in a && forall k :: k in a ==> m <= k
    decreases bound - low
  {
    var k :| k in a;
    if low in a {
      m := low;
    } else {
      m := Least(a, low + 1, bound);
    }
  }

  lemma {:induction false} Greatest(a: set<nat>, bound: nat) returns (m: nat)
    requires a != {} && forall k :: k in a ==> k < bound
    ensures m in a && forall k :: k in a ==> k <= m
    decreases bound
  {
    var k :| k in a;
    if bound - 1 in a {
      m := bound - 1;
    } else {
      m := Greatest(a, bound - 1);
    }
  }

  // ---------------------------------------------------------------- drift

  /** No drift: the deadlines stay on the grid start + k * interval exactly as long as each
      sample is taken at most one interval after its deadline, however late each one is. */
  lemma NoDriftIff(start: nat, readings: seq<nat>, interval: nat)
    ensures var s := Loop(start, readings, interval);
            (forall k :: 0 <= k <= |s.shots| ==> s.Deadline(k) == start + k * interval)
            <==> (forall k :: 0 <= k < |s.shots| ==> s.shots[k].time <= s.shots[k].deadline + interval)
  {
    LoopKeepsInv(start, readings, interval);
    var s := Loop(start, readings, interval);
    if forall k :: 0 <= k < |s.shots| ==> s.shots[k].time <= s.shots[k].deadline + interval {
      forall k | 0 <= k <= |s.shots|
        ensures s.Deadline(k) == start + k * interval
      {
        OnGrid(s, start, interval, k);
        SpanIsProduct(k, interval);
      }
    }
    if forall k :: 0 <= k <= |s.shots| ==> s.Deadline(k) == start + k * interval {
      forall k | 0 <= k < |s.shots|
        ensures s.shots[k].time <= s.shots[k].deadline + interval
      {
        assert s.Deadline(k) == start + k * interval && s.Deadline(k + 1) == start + (k + 1) * interval;
        assert (k + 1) * interval == k * interval + interval;
        assert ShotOnTime(s, interval, k);
      }
    }
  }

  lemma {:induction false} OnGrid(s: Schedule, start: nat, interval: nat, k: nat)
    requires ScheduleInv(s, start, interval) && k <= |s.shots|
    requires forall k :: 0 <= k < |s.shots| ==> s.shots[k].time <= s.shots[k].deadline + interval
    ensures s.Deadline(k) == start + Span(k, interval)
  {
    if k > 0 {
      OnGrid(s, start, interval, k - 1);
      assert ShotOnTime(s, interval, k - 1);
    }
  }
}
