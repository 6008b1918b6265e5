/** What every run of the pipeline keeps: nothing is lost unaccounted, order, and the counters. */
module PipelineSafety {
  import opened Words
  import opened Rings
  import opened Wire
  import opened Tcp
  import opened Framing
  import opened Pipeline
  import opened PipelineInv
  import opened Subsequences
  import S = Spsc

  // ---------------------------------------------------------------- conservation

  lemma {:induction false} OfferedSplits(log: seq<S.Call>)
    ensures multiset(S.Offered(log)) == multiset(S.Taken(log)) + multiset(S.Refused(log))
  {
    if log != [] {
      OfferedSplits(log[..|log| - 1]);
    }
  }

  lemma {:induction false} FatesSplit(fates: seq<Fate>)
    ensures multiset(Fated(fates)) == multiset(SentSamples(fates)) + multiset(LostSamples(fates))
  {
    if fates != [] {
      FatesSplit(fates[..|fates| - 1]);
    }
  }

  /** Everything offered to a ring buffer is with the pushing call, refused, queued, with the
      popping call, or delivered. */
  lemma BufferBalance(b: S.State)
    requires S.Inv(b)
    ensures multiset(b.offered)
         == multiset(S.Holding(b.prod)) + multiset(S.Refused(b.log)) + multiset(b.ring.Contents())
            + multiset(S.Returning(b.cons)) + multiset(b.delivered)
  {
    OfferedSplits(b.log);
    assert b.offered == S.Offered(b.log) + S.Holding(b.prod);
    assert S.Taken(b.log) == b.popped + b.ring.Contents();
    assert b.popped == b.delivered + S.Returning(b.cons);
  }

  /** Conservation: in every reachable state each generated sample is in exactly one place: with
      the ADC callback, refused by buffer 1, in buffer 1, with the process worker, refused by
      buffer 2, in buffer 2, with the network worker, in a sent block, or lost in a failed send
      or for want of a block. */
  lemma Conservation(socket: Socket, run: seq<System>, i: nat)
    requires IsRun(socket, run) && i < |run|
    ensures var s := run[i];
            && s.b1.ring.Valid() && s.b2.ring.Valid()
            && multiset(s.generated)
            == multiset(S.Holding(s.b1.prod)) + multiset(S.Refused(s.b1.log)) + multiset(s.b1.ring.Contents())
               + (multiset(S.Returning(s.b1.cons)) + multiset(S.Holding(s.b2.prod)))
               + multiset(S.Refused(s.b2.log)) + multiset(s.b2.ring.Contents())
               + (multiset(S.Returning(s.b2.cons)) + multiset(InNetwork(s.network)))
               + multiset(SentSamples(s.fates)) + multiset(LostSamples(s.fates))
  {
    RunKeepsInv(socket, run, i);
    BufferBalance(run[i].b1);
    BufferBalance(run[i].b2);
    FatesSplit(run[i].fates);
  }

  /** The same as a count, with the ring buffers' own drop counters. */
  lemma ConservationOfCounts(socket: Socket, run: seq<System>, i: nat)
    requires IsRun(socket, run) && i < |run|
    ensures var s := run[i];
            && s.b1.ring.Valid() && s.b2.ring.Valid()
            && |s.generated|
            == |S.Holding(s.b1.prod)| + s.b1.ring.dropped + |s.b1.ring.Contents()|
               + |S.Returning(s.b1.cons)| + |S.Holding(s.b2.prod)|
               + (s.b2.ring.dropped + S.Uncounted(s.b2.prod)) + |s.b2.ring.Contents()|
               + |S.Returning(s.b2.cons)| + |InNetwork(s.network)|
               + |SentSamples(s.fates)| + |LostSamples(s.fates)|
  {
    RunKeepsInv(socket, run, i);
    Conservation(socket, run, i);
    var s := run[i];
    assert |multiset(s.generated)| == |s.generated|;
  }

  // ---------------------------------------------------------------- order

  lemma {:induction false} TakenInOrder(log: seq<S.Call>)
    ensures Subsequence(S.Taken(log), S.Offered(log))
  {
    if log == [] {
      PrefixIsSubsequence<Sample>([], []);
    } else {
      var c := log[|log| - 1];
      TakenInOrder(log[..|log| - 1]);
      PrefixIsSubsequence(c.taken, c.taken + c.refused);
      SubsequenceConcat(S.Taken(log[..|log| - 1]), S.Offered(log[..|log| - 1]), c.taken, c.taken + c.refused);
      assert S.Offered(log) == S.Offered(log[..|log| - 1]) + (c.taken + c.refused);
    }
  }

  lemma {:induction false} SentInOrder(fates: seq<Fate>)
    ensures Subsequence(SentSamples(fates), Fated(fates))
  {
    if fates == [] {
      PrefixIsSubsequence<Sample>([], []);
    } else {
      var f := fates[|fates| - 1];
      SentInOrder(fates[..|fates| - 1]);
      var xs := if f.Sent? then f.b.samples else [];
      PrefixIsSubsequence(xs, FateSamples(f));
      SubsequenceConcat(SentSamples(fates[..|fates| - 1]), Fated(fates[..|fates| - 1]), xs, FateSamples(f));
    }
  }

  /** A ring buffer delivers a subsequence of what it is offered. */
  lemma BufferInOrder(b: S.State)
    requires S.Inv(b)
    ensures Subsequence(b.delivered, b.offered)
  {
    assert b.delivered <= b.popped <= S.Taken(b.log);
    PrefixIsSubsequence(b.delivered, S.Taken(b.log));
    TakenInOrder(b.log);
    SubsequenceTransitive(b.delivered, S.Taken(b.log), S.Offered(b.log));
    PrefixIsSubsequence(S.Offered(b.log), b.offered);
    SubsequenceTransitive(b.delivered, S.Offered(b.log), b.offered);
  }

  lemma SentIsSubsequence(socket: Socket, s: System)
    requires Inv(socket, s)
    ensures Subsequence(SentSamples(s.fates), s.generated)
  {
    SentInOrder(s.fates);
    PrefixIsSubsequence(Fated(s.fates), s.b2.delivered);
    SubsequenceTransitive(SentSamples(s.fates), Fated(s.fates), s.b2.delivered);
    BufferInOrder(s.b2);
    SubsequenceTransitive(SentSamples(s.fates), s.b2.delivered, s.b1.delivered);
    BufferInOrder(s.b1);
    SubsequenceTransitive(SentSamples(s.fates), s.b1.delivered, s.generated);
  }

  ghost predicate Increasing(xs: seq<Sample>) {
    forall i, j :: 0 <= i < j < |xs| ==> xs[i].sequence < xs[j].sequence
  }

  lemma SubsequenceIncreases(a: seq<Sample>, b: seq<Sample>)
    requires Subsequence(a, b) && Increasing(b)
    ensures Increasing(a)
  {
    var f :| Embeds(a, b, f);
    forall i, j | 0 <= i < j < |a|
      ensures a[i].sequence < a[j].sequence
    {
      assert f[i] < f[j];
      assert b[f[i]].sequence < b[f[j]].sequence;
    }
  }

  /** The 32-bit sequence numbers of one ADC run increase exactly as long as at most 2^32 samples
      have been generated; then they start again at 0. */
  lemma NumbersIncreaseIff(generated: seq<Sample>)
    requires Numbered(generated)
    ensures Increasing(generated) <==> |generated| <= TWO_32
  {
    if |generated| > TWO_32 {
      assert generated[0].sequence == 0 && generated[TWO_32].sequence == 0;
    }
  }

  /** Order: the samples in sent blocks are a subsequence of the generated stream, with strictly
      increasing sequence numbers for up to 2^32 samples. */
  lemma SentInOrderOfGeneration(socket: Socket, run: seq<System>, i: nat)
    requires IsRun(socket, run) && i < |run|
    ensures Subsequence(SentSamples(run[i].fates), run[i].generated)
    ensures |run[i].generated| <= TWO_32 ==> Increasing(SentSamples(run[i].fates))
  {
    RunKeepsInv(socket, run, i);
    SentIsSubsequence(socket, run[i]);
    if |run[i].generated| <= TWO_32 {
      NumbersIncreaseIff(run[i].generated);
      SubsequenceIncreases(SentSamples(run[i].fates), run[i].generated);
    }
  }

  lemma {:induction false} NothingRefused(log: seq<S.Call>)
    requires S.Refused(log) == []
    ensures S.Offered(log) == S.Taken(log)
  {
    if log != [] {
      NothingRefused(log[..|log| - 1]);
    }
  }

  lemma {:induction false} NothingLost(fates: seq<Fate>)
    requires LostSamples(fates) == []
    ensures SentSamples(fates) == Fated(fates)
  {
    if fates != [] {
      NothingLost(fates[..|fates| - 1]);
    }
  }

  lemma BufferWithoutDrops(b: S.State)
    requires S.Inv(b) && S.Refused(b.log) == []
    ensures b.delivered <= b.offered
  {
    NothingRefused(b.log);
    assert b.delivered <= b.popped <= S.Taken(b.log) <= b.offered;
  }

  /** If nothing was dropped and no batch lost, what was sent is a prefix of what was generated. */
  lemma LosslessIsPrefix(socket: Socket, run: seq<System>, i: nat)
    requires IsRun(socket, run) && i < |run|
    requires S.Refused(run[i].b1.log) == [] && S.Refused(run[i].b2.log) == []
    requires LostSamples(run[i].fates) == []
    ensures SentSamples(run[i].fates) <= run[i].generated
  {
    RunKeepsInv(socket, run, i);
    var s := run[i];
    NothingLost(s.fates);
    BufferWithoutDrops(s.b1);
    BufferWithoutDrops(s.b2);
    assert SentSamples(s.fates) <= s.b2.delivered <= s.b1.delivered <= s.generated;
  }

  // ---------------------------------------------------------------- counters

  lemma {:induction false} SizeOfSent(fates: seq<Fate>)
    ensures SentSize(fates) == 24 * |SentBlocks(fates)| + 16 * |SentSamples(fates)|
  {
    if fates != [] {
      SizeOfSent(fates[..|fates| - 1]);
    }
  }

  lemma {:induction false} OfferedCount(log: seq<S.Call>)
    ensures |S.Offered(log)| == |S.Taken(log)| + |S.Refused(log)|
  {
    if log != [] {
      OfferedCount(log[..|log| - 1]);
    }
  }

  lemma SettledCounters(b: S.State)
    requires S.Inv(b) && S.Unreturned(b.prod) == []
    ensures b.returned == b.log && b.ring.dropped == |S.Refused(b.returned)|
    ensures |b.offered| == |S.Taken(b.returned)| + b.ring.dropped + |S.Holding(b.prod)|
  {
    OfferedCount(b.log);
    assert b.returned + [] == b.log;
  }

  ghost predicate NothingPending(s: System) {
    !s.capture.CaptureCounts? && !s.process.ProcessCounts? && !s.network.NetworkCounts?
    && S.Unreturned(s.b1.prod) == [] && S.Unreturned(s.b2.prod) == []
  }

  /** Counter agreement: whenever no update is pending, the statistics agree with the ring
      buffers' drop counters, with the samples generated, and with the blocks sent, each of which
      holds 1 to 256 samples. */
  lemma CountersAgree(socket: Socket, run: seq<System>, i: nat)
    requires IsRun(socket, run) && i < |run|
    requires NothingPending(run[i])
    ensures var s := run[i];
            && s.stats.droppedSamples == s.b1.ring.dropped + s.b2.ring.dropped
            && s.stats.totalSamples + s.b1.ring.dropped + |S.Holding(s.b1.prod)| == |s.generated|
            && s.stats.sentBytes == 24 * |SentBlocks(s.fates)| + 16 * |SentSamples(s.fates)|
            && s.stats.sendErrors == FailedSends(s.fates)
            && forall f :: f in s.fates ==> 1 <= |FateSamples(f)| <= SAMPLES_PER_BLOCK
  {
    RunKeepsInv(socket, run, i);
    var s := run[i];
    SizeOfSent(s.fates);
    SettledCounters(s.b1);
    SettledCounters(s.b2);
  }

  // ---------------------------------------------------------------- end to end

  /** The blocks recognised by servers that receive one connection's bytes each, whole. */
  function Recognised(streams: seq<Stream>): seq<Block> {
    if streams == [] then []
    else Recognised(streams[..|streams| - 1]) + Parse(BytesOf(streams[|streams| - 1].parts))
  }

  function SamplesOf(bs: seq<Block>): seq<Sample> {
    if bs == [] then [] else SamplesOf(bs[..|bs| - 1]) + bs[|bs| - 1].samples
  }

  lemma {:induction false} RecognisedIsAcked(streams: seq<Stream>)
    requires forall st :: st in streams ==> Parse(BytesOf(st.parts)) == st.acked
    ensures Recognised(streams) == Acked(streams)
  {
    if streams != [] {
      RecognisedIsAcked(streams[..|streams| - 1]);
    }
  }

  lemma {:induction false} SamplesOfSentBlocks(fates: seq<Fate>)
    ensures SamplesOf(SentBlocks(fates)) == SentSamples(fates)
  {
    if fates != [] {
      SamplesOfSentBlocks(fates[..|fates| - 1]);
      var bs := SentBlocks(fates[..|fates| - 1]);
      if fates[|fates| - 1].Sent? {
        assert (bs + [fates[|fates| - 1].b])[..|bs|] == bs;
      } else {
        assert SentBlocks(fates) == bs;
      }
    }
  }

  /** End to end: if no bytes follow a torn block on its connection, the blocks recognised over all
      connections, by a server of its own for each, are exactly the sent ones; their samples are a
      subsequence of the generated stream, in order, and a prefix of it if nothing was dropped or
      lost. */
  lemma EndToEnd(socket: Socket, run: seq<System>, i: nat)
    requires IsRun(socket, run) && i < |run|
    requires !BytesBehindTorn(socket, run[i].events)
    ensures var s := run[i];
            var seen := SamplesOf(Recognised(Streams(s.link)));
            && Recognised(Streams(s.link)) == SentBlocks(s.fates)
            && Subsequence(seen, s.generated)
            && (|s.generated| <= TWO_32 ==> Increasing(seen))
            && (S.Refused(s.b1.log) == [] && S.Refused(s.b2.log) == [] && LostSamples(s.fates) == []
                ==> seen <= s.generated)
  {
    RunKeepsInv(socket, run, i);
    var s := run[i];
    forall st | st in Streams(s.link)
      ensures Parse(BytesOf(st.parts)) == st.acked
    {
      var _ := FramingPerConnection(socket, s.events, st);
    }
    RecognisedIsAcked(Streams(s.link));
    SamplesOfSentBlocks(s.fates);
    SentInOrderOfGeneration(socket, run, i);
    if S.Refused(s.b1.log) == [] && S.Refused(s.b2.log) == [] && LostSamples(s.fates) == [] {
      LosslessIsPrefix(socket, run, i);
    }
  }
}
