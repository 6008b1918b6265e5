/** Sampling loop and process worker over one ring buffer, in real time. */
module Lossless {
  import opened Words
  import opened Rings
  import opened Sampling

  /** A turn of the sampling loop, which pushes a sample if one is due; the instant at which the
      process worker's batch pop reads the element count; and the instant at which it stores
      `tail`. Other samples may come in between these two. */
  datatype Event = Turn(now: nat) | Count(now: nat) | Release(now: nat)

  /** `pending` is what the pop in progress is going to remove; `lastCount` is the time of the last
      count (or of the start). */
  datatype Timed = Timed(schedule: Schedule, ring: Ring, pending: Option<nat>, lastCount: nat)

  /** The fixed data of a run: interval, time origin and signal of the ADC. */
  datatype Setup = Setup(start: nat, interval: nat, origin: int, value: nat -> i32)

  function After(t: Timed, e: Event, u: Setup): (t': Timed)
    requires t.ring.Valid()
    ensures t'.ring.Valid() && t'.ring.capacity == t.ring.capacity
  {
    match e
    case Turn(now) =>
      var s := Tick(t.schedule, now, u.interval);
      var n := |t.schedule.shots|;
      if |s.shots| == n then t.(schedule := s)
      else t.(schedule := s, ring := PushOne(t.ring, Emit(s.shots[n], n, u.origin, u.value)).0)
    case Count(now) =>
      t.(pending := Some(Min(BATCH, t.ring.Count())), lastCount := now)
    case Release(_) =>
      t.(ring := PopEach(t.ring, if t.pending.Some? then t.pending.value else 0).0, pending := None)
  }

  function Play(events: seq<Event>, ring: Ring, u: Setup): (t: Timed)
    requires ring.Valid()
    ensures t.ring.Valid() && t.ring.capacity == ring.capacity
  {
    if events == [] then Timed(Schedule(u.start, []), ring, None, u.start)
    else After(Play(events[..|events| - 1], ring, u), events[|events| - 1], u)
  }

  function Now(events: seq<Event>, start: nat): nat {
    if events == [] then start else events[|events| - 1].now
  }

  /** Event `e` may come next: clock times do not go back, one pop ends before the next begins,
      and no more than `p` microseconds have passed since the last pop began. */
  ghost predicate MayFollow(t: Timed, now: nat, e: Event, p: nat) {
    && now <= e.now <= t.lastCount + p
    && (e.Count? ==> t.pending == None)
    && (e.Release? ==> t.pending.Some?)
  }

  /** A run in which a pop begins at least once in every `p` microseconds. */
  ghost predicate PolledEvery(events: seq<Event>, ring: Ring, u: Setup, p: nat)
    requires ring.Valid()
  {
    events == [] ||
    var before := events[..|events| - 1];
    PolledEvery(before, ring, u, p)
    && MayFollow(Play(before, ring, u), Now(before, u.start), events[|events| - 1], p)
  }

  // ---------------------------------------------------------------- no drops

  /** A way to see the backlog: it is what was taken from `time` on (the samples from `first` on)
      less `full` whole batches. */
  datatype Anchor = Anchor(time: nat, first: nat, full: nat)

  /** The counts since the anchor have taken whole batches, but for the one pending. */
  ghost predicate Anchored(t: Timed, a: Anchor, p: nat)
    requires t.ring.Valid()
  {
    var shots := t.schedule.shots;
    && a.first <= |shots| && a.time <= t.lastCount
    && t.ring.Count() + BATCH * a.full == |shots| - a.first
    && (forall j :: a.first <= j < |shots| ==> a.time <= shots[j].time)
    && t.lastCount <= a.time + (a.full + (if t.pending.Some? then 1 else 0)) * p
  }

  /** A pop that takes less than a batch leaves only samples taken after its count. */
  ghost predicate PendingInv(t: Timed)
    requires t.ring.Valid()
  {
    var shots := t.schedule.shots;
    t.pending.Some? ==>
      && t.pending.value <= BATCH && t.pending.value <= t.ring.Count() <= |shots|
      && (t.pending.value < BATCH ==>
            forall j :: |shots| - (t.ring.Count() - t.pending.value) <= j < |shots| ==> t.lastCount <= shots[j].time)
  }

  ghost predicate TimedInv(t: Timed, a: Anchor, now: nat, u: Setup, p: nat, dropped: nat)
    requires t.ring.Valid()
  {
    && ScheduleInv(t.schedule, u.start, u.interval)
    && t.lastCount <= now && t.ring.dropped == dropped
    && Anchored(t, a, p) && PendingInv(t)
  }

  /** The parameters with which nothing is dropped. */
  predicate Suffices(capacity: nat, interval: nat, p: nat) {
    0 < interval && p <= BATCH * interval && 2 * p / interval + 3 <= capacity
  }

  lemma MulMonotone(a: int, b: int, c: nat)
    requires a <= b
    ensures a * c <= b * c
  {
  }

  lemma AtMostQuotient(y: int, w: nat, interval: nat)
    requires interval > 0 && y * interval <= w
    ensures y <= w / interval
  {
    var q := w / interval;
    assert w == q * interval + w % interval;
    assert (q + 1) * interval == q * interval + interval;
    if y >= q + 1 {
      MulMonotone(q + 1, y, interval);
    }
  }

  lemma QuotientBelow(w: nat, m: nat, interval: nat)
    requires interval > 0 && w < m * interval
    ensures w / interval < m
  {
    var q := w / interval;
    assert w == q * interval + w % interval;
    if q >= m {
      MulMonotone(m, q, interval);
    }
  }

  /** Samples taken over `full + extra` polls, less `full` batches, fit into `extra` polls. */
  lemma BatchesKeepUp(x: int, full: nat, extra: nat, p: nat, interval: nat)
    requires interval > 0 && p <= BATCH * interval
    requires x * interval <= (full + extra) * p
    ensures x - BATCH * full <= extra * p / interval
  {
    assert (full + extra) * p == full * p + extra * p;
    MulMonotone(p, BATCH * interval, full);
    assert (BATCH * interval) * full == (BATCH * full) * interval;
    assert (x - BATCH * full) * interval == x * interval - (BATCH * full) * interval;
    AtMostQuotient(x - BATCH * full, extra * p, interval);
  }

  /** Samples `first` to `last` of the schedule span their distance, less one interval. */
  lemma SpacingTimes(s: Schedule, u: Setup, first: nat, last: nat)
    requires ScheduleInv(s, u.start, u.interval) && first <= last < |s.shots|
    ensures (last - first - 1) * u.interval <= s.shots[last].time - s.shots[first].time
  {
    if first < last {
      Spacing(s, u.start, u.interval, first, last);
      SpanIsProduct(last - first - 1, u.interval);
    }
  }

  /** Whatever is pending, the buffer holds few enough samples that one more fits. */
  lemma RoomForSample(t: Timed, a: Anchor, s: Schedule, now: nat, u: Setup, p: nat, dropped: nat)
    requires t.ring.Valid() && Suffices(t.ring.capacity, u.interval, p)
    requires TimedInv(t, a, now, u, p, dropped) && now <= t.lastCount + p
    requires s == Tick(t.schedule, now, u.interval) && |s.shots| > |t.schedule.shots|
    ensures t.ring.Available() > 0
  {
    var n := |t.schedule.shots|;
    TickKeepsInv(t.schedule, now, u.start, u.interval);
    if a.first < n {
      assert s.shots[n].time == now && s.shots[a.first] == t.schedule.shots[a.first];
      SpacingTimes(s, u, a.first, n);
      WithinPolls(t, a, now, p);
      BatchesKeepUp(n - a.first - 1, a.full, 2, p, u.interval);
    }
  }

  lemma WithinPolls(t: Timed, a: Anchor, now: nat, p: nat)
    requires t.ring.Valid() && Anchored(t, a, p) && now <= t.lastCount + p
    ensures now - a.time <= (a.full + 2) * p
    ensures t.pending == None ==> now - a.time <= (a.full + 1) * p
  {
    assert a.full * p + p == (a.full + 1) * p;
    assert (a.full + 1) * p + p == (a.full + 2) * p;
  }

  lemma TurnKeepsInv(t: Timed, a: Anchor, now0: nat, now: nat, u: Setup, p: nat, dropped: nat)
    requires t.ring.Valid() && Suffices(t.ring.capacity, u.interval, p)
    requires TimedInv(t, a, now0, u, p, dropped) && MayFollow(t, now0, Turn(now), p)
    ensures TimedInv(After(t, Turn(now), u), a, now, u, p, dropped)
  {
    var s := Tick(t.schedule, now, u.interval);
    var n := |t.schedule.shots|;
    TickKeepsInv(t.schedule, now, u.start, u.interval);
    if |s.shots| > n {
      RoomForSample(t, a, s, now, u, p, dropped);
      PushIsEnqueue(t.ring, Emit(s.shots[n], n, u.origin, u.value));
      assert After(t, Turn(now), u).ring.Count() == t.ring.Count() + 1;
      assert s.shots == t.schedule.shots + [s.shots[n]];
    }
  }

  lemma CountKeepsInv(t: Timed, a: Anchor, now0: nat, now: nat, u: Setup, p: nat, dropped: nat)
    requires t.ring.Valid()
    requires TimedInv(t, a, now0, u, p, dropped) && MayFollow(t, now0, Count(now), p)
    ensures TimedInv(After(t, Count(now), u), a, now, u, p, dropped)
  {
    assert a.full * p + p == (a.full + 1) * p;
  }

  lemma ReleaseFrame(t: Timed, now: nat, u: Setup)
    requires t.ring.Valid() && t.pending.Some? && t.pending.value <= t.ring.Count()
    ensures var t' := After(t, Release(now), u);
            && t' == t.(ring := t'.ring, pending := None) && t'.ring.dropped == t.ring.dropped
            && t'.ring.Count() == t.ring.Count() - t.pending.value
  {
    PopEachIsDequeue(t.ring, t.pending.value);
    var t' := After(t, Release(now), u);
    assert t'.ring.Count() == |t'.ring.Contents()|;
  }

  /** A whole batch keeps the anchor; a smaller one has emptied the buffer of all that its count
      saw, and the count becomes the anchor. */
  lemma ReleaseAnchors(t: Timed, t': Timed, a: Anchor, p: nat) returns (a': Anchor)
    requires t.ring.Valid() && t'.ring.Valid() && Anchored(t, a, p) && PendingInv(t) && t.pending.Some?
    requires t' == t.(ring := t'.ring, pending := None) && t'.ring.Count() == t.ring.Count() - t.pending.value
    ensures Anchored(t', a', p)
  {
    if t.pending.value == BATCH {
      a' := a.(full := a.full + 1);
    } else {
      a' := Anchor(t.lastCount, |t.schedule.shots| - t'.ring.Count(), 0);
      assert (0 + 0) * p == 0;
    }
  }

  lemma ReleaseKeepsInv(t: Timed, a: Anchor, now0: nat, now: nat, u: Setup, p: nat, dropped: nat) returns (a': Anchor)
    requires t.ring.Valid()
    requires TimedInv(t, a, now0, u, p, dropped) && MayFollow(t, now0, Release(now), p)
    ensures TimedInv(After(t, Release(now), u), a', now, u, p, dropped)
  {
    ReleaseFrame(t, now, u);
    a' := ReleaseAnchors(t, After(t, Release(now), u), a, p);
  }

  lemma {:induction false} PlayKeepsInv(events: seq<Event>, ring: Ring, u: Setup, p: nat) returns (a: Anchor)
    requires ring.Valid() && ring.Contents() == []
    requires Suffices(ring.capacity, u.interval, p)
    requires PolledEvery(events, ring, u, p)
    ensures TimedInv(Play(events, ring, u), a, Now(events, u.start), u, p, ring.dropped)
  {
    if events == [] {
      a := Anchor(u.start, 0, 0);
    } else {
      var before, e := events[..|events| - 1], events[|events| - 1];
      var t := Play(before, ring, u);
      a := PlayKeepsInv(before, ring, u, p);
      match e
      case Turn(now) => TurnKeepsInv(t, a, Now(before, u.start), now, u, p, ring.dropped);
      case Count(now) => CountKeepsInv(t, a, Now(before, u.start), now, u, p, ring.dropped);
      case Release(now) => a := ReleaseKeepsInv(t, a, Now(before, u.start), now, u, p, ring.dropped);
    }
  }

  lemma NextCapacity(c: nat)
    requires IsCapacity(c) && c > BATCH
    ensures c >= 2 * BATCH
  {
    assert Pow2(8) == BATCH;
    Pow2IsPow2(8);
    NoPow2Between(BATCH, c);
  }

  lemma ShortPollSuffices(capacity: nat, interval: nat, p: nat)
    requires IsCapacity(capacity) && interval > 0 && p / interval + 2 <= BATCH < capacity
    ensures Suffices(capacity, interval, p)
  {
    NextCapacity(capacity);
    SpanPastQuotient(p, interval);
    SpanIsProduct(p / interval + 1, interval);
    SpanMonotone(p / interval + 1, BATCH - 1, interval);
    SpanIsProduct(BATCH - 1, interval);
    QuotientBelow(2 * p, 2 * (BATCH - 1), interval);
  }

  /** A pop in a buffer of more than 256 slots that never saw more than a batch. */
  lemma CountedAll(t: Timed, a: Anchor, now: nat, u: Setup, p: nat, dropped: nat)
    requires t.ring.Valid() && u.interval > 0 && p / u.interval + 2 <= BATCH
    requires TimedInv(t, a, now, u, p, dropped) && now <= t.lastCount + p && t.pending == None
    requires forall j :: 0 <= j < |t.schedule.shots| ==> t.schedule.shots[j].time <= now
    requires p <= BATCH * u.interval
    ensures t.ring.Count() <= BATCH
  {
    var n := |t.schedule.shots|;
    if a.first < n {
      SpacingTimes(t.schedule, u, a.first, n - 1);
      WithinPolls(t, a, now, p);
      assert t.schedule.shots[n - 1].time <= now && a.time <= t.schedule.shots[a.first].time;
      BatchesKeepUp(n - a.first - 2, a.full, 1, p, u.interval);
    }
  }

  /** Lossless real-time bound: a buffer of more than 256 slots that starts empty never drops a
      sample in any run in which the process worker begins a pop at least once in every `p`
      microseconds, where p / interval + 2 <= 256; and every pop takes all it counted. */
  lemma NeverDrops(events: seq<Event>, ring: Ring, u: Setup, p: nat)
    requires ring.Valid() && ring.Contents() == []
    requires u.interval > 0 && p / u.interval + 2 <= BATCH < ring.capacity
    requires PolledEvery(events, ring, u, p)
    ensures var t := Play(events, ring, u);
            && t.ring.dropped == ring.dropped
            && (events != [] && events[|events| - 1].Count? ==> t.pending == Some(|t.ring.Contents()|))
  {
    ShortPollSuffices(ring.capacity, u.interval, p);
    var a := PlayKeepsInv(events, ring, u, p);
    if events != [] && events[|events| - 1].Count? {
      CountTakesAll(events[..|events| - 1], ring, u, p);
    }
  }

  lemma CountTakesAll(events: seq<Event>, ring: Ring, u: Setup, p: nat)
    requires ring.Valid() && ring.Contents() == []
    requires u.interval > 0 && p / u.interval + 2 <= BATCH && Suffices(ring.capacity, u.interval, p)
    requires PolledEvery(events, ring, u, p) && Play(events, ring, u).pending == None
    requires Now(events, u.start) <= Play(events, ring, u).lastCount + p
    ensures Play(events, ring, u).ring.Count() <= BATCH
  {
    var a := PlayKeepsInv(events, ring, u, p);
    ShotsInPast(events, ring, u, p);
    CountedAll(Play(events, ring, u), a, Now(events, u.start), u, p, ring.dropped);
  }

  lemma AfterShots(t: Timed, e: Event, u: Setup)
    requires t.ring.Valid()
    ensures var shots, shots' := t.schedule.shots, After(t, e, u).schedule.shots;
            |shots| <= |shots'|
            && forall j :: 0 <= j < |shots'| ==> shots'[j].time == if j < |shots| then shots[j].time else e.now
  {
  }

  lemma {:induction false} ShotsInPast(events: seq<Event>, ring: Ring, u: Setup, p: nat)
    requires ring.Valid() && PolledEvery(events, ring, u, p)
    ensures var shots := Play(events, ring, u).schedule.shots;
            forall j :: 0 <= j < |shots| ==> shots[j].time <= Now(events, u.start)
  {
    if events != [] {
      var before := events[..|events| - 1];
      ShotsInPast(before, ring, u, p);
      AfterShots(Play(before, ring, u), events[|events| - 1], u);
      assert Now(before, u.start) <= Now(events, u.start);
      var shots := Play(events, ring, u).schedule.shots;
      forall j | 0 <= j < |shots|
        ensures shots[j].time <= Now(events, u.start)
      {
        if j < |Play(before, ring, u).schedule.shots| {
          assert shots[j].time == Play(before, ring, u).schedule.shots[j].time;
        }
      }
    }
  }

  // ---------------------------------------------------------------- drops

  /** One event more. */
  lemma Append(events: seq<Event>, e: Event, ring: Ring, u: Setup, p: nat) returns (events': seq<Event>)
    requires ring.Valid() && PolledEvery(events, ring, u, p)
    requires MayFollow(Play(events, ring, u), Now(events, u.start), e, p)
    ensures PolledEvery(events', ring, u, p)
    ensures Play(events', ring, u) == After(Play(events, ring, u), e, u) && Now(events', u.start) == e.now
  {
    events' := events + [e];
    assert events'[..|events|] == events;
  }

  /** What the buffer has been offered and has not handed on. */
  function Kept(t: Timed): nat
    requires t.ring.Valid()
  {
    t.ring.dropped + t.ring.Count()
  }

  lemma TurnOffers(t: Timed, now: nat, u: Setup)
    requires t.ring.Valid()
    ensures var t' := After(t, Turn(now), u);
            && Kept(t') - Kept(t) == |t'.schedule.shots| - |t.schedule.shots|
            && t' == t.(schedule := Tick(t.schedule, now, u.interval), ring := t'.ring)
  {
    var t' := After(t, Turn(now), u);
    var n := |t.schedule.shots|;
    if |t'.schedule.shots| > n {
      PushIsEnqueue(t.ring, Emit(t'.schedule.shots[n], n, u.origin, u.value));
      assert t'.ring.Count() == |t'.ring.Contents()|;
    }
  }

  /** The loop takes samples on its grid; the clock has not passed the next deadline. */
  ghost predicate OnGridAt(events: seq<Event>, ring: Ring, u: Setup)
    requires ring.Valid()
  {
    var s := Play(events, ring, u).schedule;
    s.next == u.start + |s.shots| * u.interval && Now(events, u.start) <= s.next
  }

  /** A due sample, at most one interval late, keeps the grid. */
  lemma TakeSample(events: seq<Event>, now: nat, ring: Ring, u: Setup, p: nat) returns (events': seq<Event>)
    requires ring.Valid() && PolledEvery(events, ring, u, p)
    requires var t := Play(events, ring, u);
             && t.schedule.next == u.start + |t.schedule.shots| * u.interval
             && t.schedule.next <= now <= t.schedule.next + u.interval
             && Now(events, u.start) <= now <= t.lastCount + p
    ensures PolledEvery(events', ring, u, p) && OnGridAt(events', ring, u) && Now(events', u.start) == now
    ensures var t, t' := Play(events, ring, u), Play(events', ring, u);
            && t'.pending == t.pending && t'.lastCount == t.lastCount
            && t'.schedule.next == t.schedule.next + u.interval
            && Kept(t') - Kept(t) == |t'.schedule.shots| - |t.schedule.shots| == 1
  {
    var t := Play(events, ring, u);
    events' := Append(events, Turn(now), ring, u, p);
    TurnOffers(t, now, u);
    NextMultiple(|t.schedule.shots|, u.interval);
  }

  lemma NextMultiple(n: nat, interval: nat)
    ensures (n + 1) * interval == n * interval + interval
  {
  }

  /** Samples are taken exactly at their deadlines as long as these are not after `limit`. */
  lemma {:induction false} SampleUntil(events: seq<Event>, limit: nat, ring: Ring, u: Setup, p: nat) returns (events': seq<Event>)
    requires ring.Valid() && PolledEvery(events, ring, u, p) && OnGridAt(events, ring, u) && u.interval > 0
    requires Now(events, u.start) <= limit <= Play(events, ring, u).lastCount + p
    ensures PolledEvery(events', ring, u, p) && OnGridAt(events', ring, u)
    ensures var t, t' := Play(events, ring, u), Play(events', ring, u);
            && Now(events', u.start) <= limit < t'.schedule.next
            && t'.pending == t.pending && t'.lastCount == t.lastCount
            && Kept(t') - Kept(t) == |t'.schedule.shots| - |t.schedule.shots|
    decreases limit - Play(events, ring, u).schedule.next
  {
    var t := Play(events, ring, u);
    if limit < t.schedule.next {
      events' := events;
    } else {
      events' := TakeSample(events, t.schedule.next, ring, u, p);
      events' := SampleUntil(events', limit, ring, u, p);
    }
  }

  /** A pop without delay. */
  lemma Poll(events: seq<Event>, now: nat, ring: Ring, u: Setup, p: nat) returns (events': seq<Event>)
    requires ring.Valid() && PolledEvery(events, ring, u, p)
    requires var t := Play(events, ring, u); t.pending == None && Now(events, u.start) <= now <= t.lastCount + p
    ensures PolledEvery(events', ring, u, p) && Now(events', u.start) == now
    ensures var t, t' := Play(events, ring, u), Play(events', ring, u);
            && t'.schedule == t.schedule && t'.pending == None && t'.lastCount == now
            && t'.ring.dropped == t.ring.dropped
            && t'.ring.Count() == t.ring.Count() - Min(BATCH, t.ring.Count())
  {
    var t := Play(events, ring, u);
    events' := Append(events, Count(now), ring, u, p);
    var t1 := Play(events', ring, u);
    PopEachIsDequeue(t1.ring, t1.pending.value);
    events' := Append(events', Release(now), ring, u, p);
    var t' := Play(events', ring, u);
    assert t'.ring.Count() == |t'.ring.Contents()|;
  }

  /** `k` polls, `p` apart, each after all the samples due before it. */
  lemma {:induction false} PollAndSample(k: nat, ring: Ring, u: Setup, p: nat) returns (events: seq<Event>)
    requires ring.Valid() && ring.Contents() == [] && u.interval > 0
    ensures PolledEvery(events, ring, u, p) && OnGridAt(events, ring, u)
    ensures var t := Play(events, ring, u);
            && t.pending == None && t.lastCount == u.start + k * p <= Now(events, u.start) <= t.lastCount
            && (k > 0 ==> t.schedule.next > u.start + k * p)
            && Kept(t) + BATCH * k >= ring.dropped + |t.schedule.shots|
  {
    if k == 0 {
      events := [];
      assert ring.Count() == |ring.Contents()|;
    } else {
      events := PollAndSample(k - 1, ring, u, p);
      var limit := u.start + k * p;
      assert k * p == (k - 1) * p + p;
      events := SampleUntil(events, limit, ring, u, p);
      events := Poll(events, limit, ring, u, p);
    }
  }

  ghost predicate Drops(events: seq<Event>, ring: Ring, u: Setup, p: nat)
    requires ring.Valid()
  {
    PolledEvery(events, ring, u, p) && Play(events, ring, u).ring.dropped > ring.dropped
  }

  lemma TooManySamples(n: nat, c: nat, interval: nat, p: nat)
    requires interval > 0 && c > 0 && p > BATCH * interval && n * interval > (interval * c) * p
    ensures n > BATCH * (interval * c) + c
  {
    var k := interval * c;
    MulMonotone(BATCH * interval + 1, p, k);
    assert (BATCH * interval + 1) * k == (BATCH * k + c) * interval;
    if n <= BATCH * k + c {
      MulMonotone(n, BATCH * k + c, interval);
    }
  }

  /** Polls more than 256 intervals apart cannot keep up. */
  lemma SlowPollsDrop(ring: Ring, u: Setup, p: nat) returns (events: seq<Event>)
    requires ring.Valid() && ring.Contents() == [] && u.interval > 0 && p > BATCH * u.interval
    ensures Drops(events, ring, u, p)
  {
    var k := u.interval * ring.capacity;
    MulMonotone(1, u.interval, ring.capacity);
    events := PollAndSample(k, ring, u, p);
    TooManySamples(|Play(events, ring, u).schedule.shots|, ring.capacity, u.interval, p);
  }

  /** With interval 0 a sample is due at every turn. */
  lemma {:induction false} SampleAtOnce(k: nat, ring: Ring, u: Setup, p: nat) returns (events: seq<Event>)
    requires ring.Valid() && ring.Contents() == [] && u.interval == 0
    ensures PolledEvery(events, ring, u, p)
    ensures var t := Play(events, ring, u);
            && t.schedule.next == u.start == Now(events, u.start) == t.lastCount && |t.schedule.shots| == k
            && Kept(t) == ring.dropped + k
  {
    if k == 0 {
      events := [];
      assert ring.Count() == |ring.Contents()|;
    } else {
      events := SampleAtOnce(k - 1, ring, u, p);
      TurnOffers(Play(events, ring, u), u.start, u);
      events := Append(events, Turn(u.start), ring, u, p);
    }
  }

  /** Polls, but no turns, until a given time. */
  lemma {:induction false} PollUntil(target: nat, ring: Ring, u: Setup, p: nat) returns (events: seq<Event>)
    requires ring.Valid() && ring.Contents() == [] && p > 0 && target >= u.start
    ensures PolledEvery(events, ring, u, p) && Now(events, u.start) == target
    ensures Play(events, ring, u) == Timed(Schedule(u.start, []), Play(events, ring, u).ring, None, target)
    ensures Play(events, ring, u).ring.Count() == 0 && Play(events, ring, u).ring.dropped == ring.dropped
    decreases target
  {
    if target == u.start {
      events := [];
      assert ring.Count() == |ring.Contents()|;
    } else {
      events := PollUntil(if target <= u.start + p then u.start else target - p, ring, u, p);
      events := Poll(events, target, ring, u, p);
    }
  }

  lemma ManySamples(n: nat, w: nat, interval: nat)
    requires interval > 0 && n * interval > interval + w
    ensures n >= w / interval + 2
  {
    var q := w / interval;
    assert w == q * interval + w % interval;
    assert (q + 1) * interval == q * interval + interval;
    if n <= q + 1 {
      MulMonotone(n, q + 1, interval);
    }
  }

  /** A sample that is one interval late. */
  lemma LateSample(ring: Ring, u: Setup, p: nat) returns (events: seq<Event>)
    requires ring.Valid() && ring.Contents() == [] && u.interval > 0 && p > 0
    ensures PolledEvery(events, ring, u, p) && OnGridAt(events, ring, u)
    ensures var t := Play(events, ring, u);
            && t.pending == None && t.lastCount == Now(events, u.start) == u.start + u.interval
            && Kept(t) == ring.dropped + |t.schedule.shots|
  {
    var late := u.start + u.interval;
    events := PollUntil(late, ring, u, p);
    assert Play(events, ring, u).schedule == Schedule(u.start, []);
    events := TakeSample(events, late, ring, u, p);
  }

  /** The longest backlog: a late sample, the next at once, and a pop that takes two polls' time to
      release what it counted. */
  lemma LateReleaseDrops(ring: Ring, u: Setup, p: nat) returns (events: seq<Event>)
    requires ring.Valid() && ring.Contents() == [] && u.interval > 0 && p > 0
    requires 2 * p / u.interval + 3 > ring.capacity
    ensures Drops(events, ring, u, p)
  {
    var late := u.start + u.interval;
    events := LateSample(ring, u, p);
    events := SampleUntil(events, late + p, ring, u, p);
    events := Append(events, Count(late + p), ring, u, p);
    events := SampleUntil(events, late + 2 * p, ring, u, p);
    ManySamples(|Play(events, ring, u).schedule.shots|, 2 * p, u.interval);
  }

  /** Exactly when nothing is dropped: whatever the (positive) time between polls and the interval,
      a buffer that starts empty never drops a sample in any run with a pop begun at least once in
      every `p` microseconds if and only if 256 intervals are not shorter than `p` and the samples
      of two polls fit. From 1024 slots on, the latter follows from the former. */
  lemma NeverDropsIff(ring: Ring, u: Setup, p: nat)
    requires ring.Valid() && ring.Contents() == [] && p > 0
    ensures (forall events :: !Drops(events, ring, u, p)) <==> Suffices(ring.capacity, u.interval, p)
    ensures ring.capacity >= 4 * BATCH ==> (Suffices(ring.capacity, u.interval, p) <==> 0 < u.interval && p <= BATCH * u.interval)
  {
    if Suffices(ring.capacity, u.interval, p) {
      forall events
        ensures !Drops(events, ring, u, p)
      {
        if PolledEvery(events, ring, u, p) {
          var a := PlayKeepsInv(events, ring, u, p);
        }
      }
    } else {
      var events;
      if u.interval == 0 {
        events := SampleAtOnce(ring.capacity, ring, u, p);
      } else if p > BATCH * u.interval {
        events := SlowPollsDrop(ring, u, p);
      } else {
        events := LateReleaseDrops(ring, u, p);
      }
      assert Drops(events, ring, u, p);
    }
    if 0 < u.interval && p <= BATCH * u.interval {
      QuotientBelow(2 * p, 2 * BATCH + 1, u.interval);
    }
  }
}
