/** One turn of each worker on the real objects, with no other thread in between. Module Turns
    shows that the pipeline's steps do the same. */
module Workers {
  import opened Words
  import opened Rings
  import opened RingBuffers
  import opened Wire
  import opened Tcp

  class SystemStats {
    var totalSamples: nat
    var droppedSamples: nat
    var sentBytes: nat
    var sendErrors: nat
  }

  /** The ADC callback: push to the capture buffer and count the outcome. */
  method AdcSampleCallback(buffer: RingBuffer, stats: SystemStats, sample: Sample)
    requires buffer.Valid()
    modifies buffer, buffer.buffer, stats
    ensures buffer.Valid()
    ensures var (r, ok) := PushOne(old(buffer.View()), sample);
            && buffer.View() == r
            && stats.totalSamples == old(stats.totalSamples) + (if ok then 1 else 0)
            && stats.droppedSamples == old(stats.droppedSamples) + (if ok then 0 else 1)
    ensures stats.totalSamples + buffer.dropped - (old(stats.totalSamples) + old(buffer.dropped)) == 1
    ensures stats.sentBytes == old(stats.sentBytes) && stats.sendErrors == old(stats.sendErrors)
  {
    PushIsEnqueue(buffer.View(), sample);
    var ok := buffer.Push(Some(sample));
    if !ok {
      stats.droppedSamples := stats.droppedSamples + 1;
    } else {
      stats.totalSamples := stats.totalSamples + 1;
    }
  }

  /** The process worker moves the longest prefix of up to BATCH queued samples to the next buffer,
      as far as they fit there, and counts the others as dropped. */
  method ProcessThreadWorker(b1: RingBuffer, b2: RingBuffer, stats: SystemStats)
    requires b1.Valid() && b2.Valid()
    requires b1 != b2 && b1.buffer != b2.buffer
    modifies b1, b2, b2.buffer, stats`droppedSamples
    ensures b1.Valid() && b2.Valid()
    ensures var (r1, xs) := PopEach(old(b1.View()), BATCH);
            && b1.View() == r1
            && b2.View() == PushEach(old(b2.View()), xs)
            && stats.droppedSamples == old(stats.droppedSamples) + (b2.dropped - old(b2.dropped))
  {
    ghost var r2 := b2.View();
    var samples := new Sample[BATCH];
    var ok, popped := b1.PopBatch(samples, BATCH);
    if ok {
      ghost var xs := samples[..popped];
      PushEachClosed(r2, xs);
      var _, pushed := b2.PushBatch(samples, popped);
      if pushed < popped {
        stats.droppedSamples := stats.droppedSamples + (popped - pushed);
      }
    }
  }

  /** The network worker connects if it has to, turns up to SAMPLES_PER_BLOCK queued samples into one block and
      sends it. `reachable`, `blockAvailable` and `now` stand for the network, the block pool and
      the clock. */
  method NetworkThreadWorker(b2: RingBuffer, client: TcpClient, stats: SystemStats,
                             reachable: bool, blockAvailable: bool, now: u64)
    requires b2.Valid() && client.Valid()
    modifies b2, client, stats`sentBytes, stats`sendErrors
    ensures b2.Valid() && client.Valid()
    ensures old(client.connected) || reachable ==>
              var linked := ConnectLink(old(client.View()), reachable).0;
              var (r2, xs) := PopEach(old(b2.View()), SAMPLES_PER_BLOCK);
              && b2.View() == r2
              && if xs == [] || !blockAvailable
                 then client.View() == linked
                      && stats.sentBytes == old(stats.sentBytes) && stats.sendErrors == old(stats.sendErrors)
                 else var (link, err) := SendBlock(linked, client.socket, Block(BLOCK_VERSION, 0, now, xs));
                      && client.View() == link
                      && stats.sentBytes == old(stats.sentBytes) + (if err == Ok then Size(Block(BLOCK_VERSION, 0, now, xs)) else 0)
                      && stats.sendErrors == old(stats.sendErrors) + (if err == Ok then 0 else 1)
    ensures !old(client.connected) && !reachable ==>
              && b2.View() == old(b2.View()) && client.View() == old(client.View())
              && stats.sentBytes == old(stats.sentBytes) && stats.sendErrors == old(stats.sendErrors)
  {
    if !client.connected {
      var err := client.Connect(reachable);
      if err != Ok {
        return;
      }
    }
    var samples := new Sample[SAMPLES_PER_BLOCK];
    ghost var linked := client.View();
    var ok, popped := b2.PopBatch(samples, SAMPLES_PER_BLOCK);
    assert linked == ConnectLink(old(client.View()), reachable).0;
    assert (b2.View(), samples[..popped]) == PopEach(old(b2.View()), SAMPLES_PER_BLOCK);
    if ok {
      if !blockAvailable {
        return;
      }
      var block := Block(BLOCK_VERSION, 0, now, samples[..popped]);
      var err := client.SendDataBlock(block);
      if err == Ok {
        stats.sentBytes := stats.sentBytes + Size(block);
      } else {
        stats.sendErrors := stats.sendErrors + 1;
      }
    }
  }
}
