/** Block framing on every connection, over whole runs of connects, sends and disconnects. */
module Framing {
  import opened Words
  import opened Wire
  import opened Tcp

  datatype Event = Connecting(reachable: bool) | Sending(b: Block) | Disconnecting

  function After(l: Link, socket: Socket, e: Event): Link {
    match e
    case Connecting(ok) => ConnectLink(l, ok).0
    case Sending(b) => SendBlock(l, socket, b).0
    case Disconnecting => DisconnectLink(l)
  }

  function Play(socket: Socket, events: seq<Event>): Link {
    if events == [] then NEW_LINK
    else After(Play(socket, events[..|events| - 1]), socket, events[|events| - 1])
  }

  function Streams(l: Link): seq<Stream> {
    l.past + [l.stream]
  }

  ghost predicate AllSendable(events: seq<Event>) {
    forall e :: e in events && e.Sending? ==> Sendable(e.b)
  }

  // ---------------------------------------------------------------- structure of a stream

  predicate Whole(p: Part) {
    p.accepted == Size(p.block)
  }

  function WholeBlocks(parts: seq<Part>): seq<Block> {
    if parts == [] then []
    else WholeBlocks(parts[..|parts| - 1]) + (if Whole(parts[|parts| - 1]) then [parts[|parts| - 1].block] else [])
  }

  /** Some of a block went out last, but not all of it. */
  predicate MidBlock(st: Stream) {
    st.parts != [] && !Whole(st.parts[|st.parts| - 1])
  }

  /** Every block but the last one on the connection is complete. */
  ghost predicate Aligned(st: Stream) {
    forall i :: 0 <= i < |st.parts| - 1 ==> Whole(st.parts[i])
  }

  ghost predicate StreamInv(st: Stream) {
    && (forall p :: p in st.parts ==> 0 < p.accepted <= Size(p.block) && Sendable(p.block))
    && st.acked == WholeBlocks(st.parts)
  }

  ghost predicate LinkInv(l: Link) {
    forall st :: st in Streams(l) ==> StreamInv(st)
  }

  lemma PartsGrow(parts: seq<Part>, p: Part)
    ensures WholeBlocks(parts + [p]) == WholeBlocks(parts) + (if Whole(p) then [p.block] else [])
  {
    assert (parts + [p])[..|parts|] == parts;
  }

  lemma CarryKeepsStream(st: Stream, b: Block, t: Transmission)
    requires StreamInv(st) && Sendable(b)
    requires t.accepted <= Size(b) && (t.err == Ok <==> t.accepted == Size(b))
    ensures StreamInv(Carry(st, b, t))
  {
    PartsGrow(st.parts, Part(b, t.accepted));
  }

  lemma SendKeepsStream(l: Link, socket: Socket, b: Block)
    requires StreamInv(l.stream) && Sendable(b)
    ensures StreamInv(SendBlock(l, socket, b).0.stream)
  {
    if l.connected {
      CarryKeepsStream(l.stream, b, Transmit(socket, l.calls, Size(b)));
    }
  }

  lemma AfterKeepsInv(l: Link, socket: Socket, e: Event)
    requires LinkInv(l) && (e.Sending? ==> Sendable(e.b))
    ensures LinkInv(After(l, socket, e))
  {
    assert l.stream in Streams(l);
    var l' := After(l, socket, e);
    if e.Sending? {
      SendKeepsStream(l, socket, e.b);
    }
    forall st | st in Streams(l')
      ensures StreamInv(st)
    {
      if st != l'.stream {
        assert st in Streams(l);
      }
    }
  }

  lemma {:induction false} PlayKeepsInv(socket: Socket, events: seq<Event>)
    requires AllSendable(events)
    ensures LinkInv(Play(socket, events))
  {
    if events != [] {
      PlayKeepsInv(socket, events[..|events| - 1]);
      AfterKeepsInv(Play(socket, events[..|events| - 1]), socket, events[|events| - 1]);
    }
  }

  // ---------------------------------------------------------------- when blocks stay framed

  ghost predicate AllAligned(l: Link) {
    forall st :: st in Streams(l) ==> Aligned(st)
  }

  /** A send that puts bytes out although the block before it is cut off. */
  ghost predicate Interleaves(l: Link, socket: Socket, e: Event) {
    e.Sending? && l.connected && MidBlock(l.stream) && Transmit(socket, l.calls, Size(e.b)).accepted > 0
  }

  lemma AfterAligned(l: Link, socket: Socket, e: Event)
    ensures AllAligned(After(l, socket, e)) <==> AllAligned(l) && !Interleaves(l, socket, e)
  {
    var l' := After(l, socket, e);
    assert l.stream in Streams(l) && l'.stream in Streams(l');
    assert forall st :: st in l.past ==> st in Streams(l) && st in Streams(l');
    assert Aligned(EMPTY_STREAM);
    if l'.past == l.past {
      assert AllAligned(l) ==> forall st :: st in Streams(l') ==> st in Streams(l) || st == l'.stream;
      SendAligned(l, socket, e);
    } else {
      assert l.stream in Streams(l');
      assert forall st :: st in Streams(l') ==> st in Streams(l) || st == EMPTY_STREAM;
    }
  }

  lemma SendAligned(l: Link, socket: Socket, e: Event)
    requires After(l, socket, e).past == l.past
    ensures Aligned(After(l, socket, e).stream) <==> Aligned(l.stream) && !Interleaves(l, socket, e)
  {
    var parts, parts' := l.stream.parts, After(l, socket, e).stream.parts;
    if parts' != parts {
      assert parts' == parts + [parts'[|parts|]];
      assert forall i :: 0 <= i < |parts| ==> parts'[i] == parts[i];
    }
  }

  /** What a caller can know before a send: it keeps the framing, whatever the socket is going to
      do, exactly if the client is not connected inside a block. */
  lemma SendIsSafeIff(l: Link, b: Block)
    ensures (forall socket: Socket :: AllAligned(After(l, socket, Sending(b))))
            <==> AllAligned(l) && !(l.connected && MidBlock(l.stream))
  {
    var taking: Socket := k => Accepts(1);
    assert Transmit(taking, l.calls, Size(b)).accepted > 0;
    AfterAligned(l, taking, Sending(b));
    forall socket: Socket
      ensures AllAligned(After(l, socket, Sending(b))) <==> AllAligned(l) && !Interleaves(l, socket, Sending(b))
    {
      AfterAligned(l, socket, Sending(b));
    }
  }

  /** A send in which a timeout strikes after part of its block went out. */
  ghost predicate Tears(l: Link, socket: Socket, e: Event) {
    e.Sending? && l.connected
    && var t := Transmit(socket, l.calls, Size(e.b)); t.err == TimeoutError && t.accepted > 0
  }

  /** A send of which the socket takes a byte. */
  ghost predicate TakesByte(l: Link, socket: Socket, e: Event) {
    e.Sending? && l.connected && socket(l.calls).Accepts? && socket(l.calls).n > 0
  }

  /** The client before each event of a run, and after the last. */
  function History(socket: Socket, events: seq<Event>): (ls: seq<Link>)
    ensures |ls| == |events| + 1
  {
    seq(|events| + 1, j requires 0 <= j <= |events| => Play(socket, events[..j]))
  }

  /** Event `j` tears its block, and event `k`, a later one on the same connection, puts bytes out. */
  ghost predicate Behind(ls: seq<Link>, socket: Socket, events: seq<Event>, j: nat, k: nat)
    requires |ls| == |events| + 1
  {
    && j < k < |events|
    && Tears(ls[j], socket, events[j]) && TakesByte(ls[k], socket, events[k])
    && |ls[j].past| == |ls[k].past|
  }

  ghost predicate BytesBehindTorn(socket: Socket, events: seq<Event>) {
    exists j: nat, k: nat :: Behind(History(socket, events), socket, events, j, k)
  }

  // ---------------------------------------------------------------- ... by induction on the run

  ghost predicate Leads(ls: seq<Link>, socket: Socket, events: seq<Event>, j: nat)
    requires |ls| == |events| + 1 && j < |events|
  {
    ls[j + 1] == After(ls[j], socket, events[j])
  }

  ghost predicate IsHistory(ls: seq<Link>, socket: Socket, events: seq<Event>) {
    && |ls| == |events| + 1
    && ls[0] == NEW_LINK
    && forall j :: 0 <= j < |events| ==> Leads(ls, socket, events, j)
  }

  lemma HistoryIs(socket: Socket, events: seq<Event>)
    ensures IsHistory(History(socket, events), socket, events)
    ensures History(socket, events)[|events|] == Play(socket, events)
  {
    var ls := History(socket, events);
    assert events[..|events|] == events;
    forall j | 0 <= j < |events|
      ensures Leads(ls, socket, events, j)
    {
      assert events[..j + 1][..j] == events[..j];
      assert Play(socket, events[..j + 1]) == After(Play(socket, events[..j]), socket, events[j]);
    }
  }

  lemma {:induction false} ConnectionsGrow(ls: seq<Link>, socket: Socket, events: seq<Event>, j: nat, n: nat)
    requires IsHistory(ls, socket, events) && j <= n <= |events|
    ensures |ls[j].past| <= |ls[n].past|
  {
    if j < n {
      ConnectionsGrow(ls, socket, events, j, n - 1);
      assert Leads(ls, socket, events, n - 1);
    }
  }

  /** Event `j` tore a block on the connection that is current before event `n`. */
  ghost predicate Torn(ls: seq<Link>, socket: Socket, events: seq<Event>, j: nat, n: nat)
    requires |ls| == |events| + 1 && n <= |events|
  {
    j < n && Tears(ls[j], socket, events[j]) && |ls[j].past| == |ls[n].past|
  }

  ghost predicate TornBefore(ls: seq<Link>, socket: Socket, events: seq<Event>, n: nat)
    requires |ls| == |events| + 1 && n <= |events|
  {
    exists j: nat :: Torn(ls, socket, events, j, n)
  }

  lemma TornBeforeGrows(ls: seq<Link>, socket: Socket, events: seq<Event>, n: nat)
    requires IsHistory(ls, socket, events) && n < |events|
    ensures TornBefore(ls, socket, events, n + 1)
            <==> |ls[n].past| == |ls[n + 1].past| && (Tears(ls[n], socket, events[n]) || TornBefore(ls, socket, events, n))
  {
    var m := n + 1;
    if j: nat :| Torn(ls, socket, events, j, m) {
      ConnectionsGrow(ls, socket, events, j, n);
      ConnectionsGrow(ls, socket, events, n, n + 1);
      assert j < n ==> Torn(ls, socket, events, j, n);
    }
    if |ls[n].past| == |ls[n + 1].past| {
      assert Tears(ls[n], socket, events[n]) ==> Torn(ls, socket, events, n, n + 1);
      if j: nat :| Torn(ls, socket, events, j, n) {
        assert Torn(ls, socket, events, j, n + 1);
      }
    }
  }

  ghost predicate BehindBefore(ls: seq<Link>, socket: Socket, events: seq<Event>, n: nat)
    requires |ls| == |events| + 1
  {
    exists j: nat, k: nat :: k < n && Behind(ls, socket, events, j, k)
  }

  lemma BehindBeforeGrows(ls: seq<Link>, socket: Socket, events: seq<Event>, n: nat)
    requires |ls| == |events| + 1 && n < |events|
    ensures BehindBefore(ls, socket, events, n + 1)
            <==> BehindBefore(ls, socket, events, n)
                 || (TakesByte(ls[n], socket, events[n]) && TornBefore(ls, socket, events, n))
  {
    if j: nat, k: nat :| k < n + 1 && Behind(ls, socket, events, j, k) {
      assert k == n ==> Torn(ls, socket, events, j, n);
    }
    if TakesByte(ls[n], socket, events[n]) {
      if j: nat :| Torn(ls, socket, events, j, n) {
        assert Behind(ls, socket, events, j, n);
      }
    }
  }

  /** One event more: how the current connection comes to end, or not to end, inside a block. */
  lemma AfterMidBlock(l: Link, socket: Socket, e: Event)
    requires !Interleaves(l, socket, e)
    ensures var l' := After(l, socket, e);
            l'.connected ==>
              (MidBlock(l'.stream) <==> |l'.past| == |l.past| && (Tears(l, socket, e) || (l.connected && MidBlock(l.stream))))
    ensures |After(l, socket, e).past| == |l.past| && After(l, socket, e).connected ==> l.connected
  {
    if e.Sending? && l.connected && Transmit(socket, l.calls, Size(e.b)).accepted > 0 {
      var l' := After(l, socket, e);
      assert l'.stream.parts[|l'.stream.parts| - 1] == Part(e.b, Transmit(socket, l.calls, Size(e.b)).accepted);
    }
  }

  lemma TakesByteIff(l: Link, socket: Socket, e: Event)
    ensures Interleaves(l, socket, e) <==> TakesByte(l, socket, e) && MidBlock(l.stream)
  {
  }

  /** As long as the connections are framed, a connected client is inside a block exactly if a
      timeout tore one on the current connection; errors never leave it there, because they
      disconnect. */
  lemma {:induction false} MidBlockIffTorn(ls: seq<Link>, socket: Socket, events: seq<Event>, n: nat)
    requires IsHistory(ls, socket, events) && n <= |events|
    requires AllAligned(ls[n]) && ls[n].connected
    ensures MidBlock(ls[n].stream) <==> TornBefore(ls, socket, events, n)
  {
    if n > 0 {
      var l, e := ls[n - 1], events[n - 1];
      assert Leads(ls, socket, events, n - 1);
      AfterAligned(l, socket, e);
      AfterMidBlock(l, socket, e);
      TornBeforeGrows(ls, socket, events, n - 1);
      if l.connected {
        MidBlockIffTorn(ls, socket, events, n - 1);
      }
    }
  }

  lemma {:induction false} FramedBeforeIff(ls: seq<Link>, socket: Socket, events: seq<Event>, n: nat)
    requires IsHistory(ls, socket, events) && n <= |events|
    ensures AllAligned(ls[n]) <==> !BehindBefore(ls, socket, events, n)
  {
    if n == 0 {
      assert Streams(NEW_LINK) == [EMPTY_STREAM];
    } else {
      var l, e := ls[n - 1], events[n - 1];
      FramedBeforeIff(ls, socket, events, n - 1);
      assert Leads(ls, socket, events, n - 1);
      AfterAligned(l, socket, e);
      TakesByteIff(l, socket, e);
      BehindBeforeGrows(ls, socket, events, n - 1);
      if AllAligned(l) && l.connected {
        MidBlockIffTorn(ls, socket, events, n - 1);
      }
    }
  }

  /** Exactly when framing holds: in every run, all connections carry complete blocks up to their
      last one if and only if no send that a timeout tore is followed, on the same connection, by a
      send of which the socket takes a byte. */
  lemma FramedIff(socket: Socket, events: seq<Event>)
    ensures AllAligned(Play(socket, events)) <==> !BytesBehindTorn(socket, events)
  {
    HistoryIs(socket, events);
    FramedBeforeIff(History(socket, events), socket, events, |events|);
  }

  ghost predicate NoTornTimeout(socket: Socket, events: seq<Event>) {
    forall j :: 0 <= j < |events| ==> !Tears(History(socket, events)[j], socket, events[j])
  }

  /** Errors alone never break the framing, nor leave a connected client inside a block. */
  lemma NoTornTimeoutIsFramed(socket: Socket, events: seq<Event>)
    requires NoTornTimeout(socket, events)
    ensures AllAligned(Play(socket, events)) && !BytesBehindTorn(socket, events)
    ensures var l := Play(socket, events); l.connected ==> !MidBlock(l.stream)
  {
    FramedIff(socket, events);
    HistoryIs(socket, events);
    if Play(socket, events).connected {
      MidBlockIffTorn(History(socket, events), socket, events, |events|);
    }
  }

  // ---------------------------------------------------------------- what a framed stream says

  lemma EncodeAllGrows(bs: seq<Block>, b: Block)
    ensures EncodeAll(bs + [b]) == EncodeAll(bs) + Encode(b)
  {
    if bs == [] {
      assert [b][1..] == [];
    } else {
      EncodeAllGrows(bs[1..], b);
      assert (bs + [b])[1..] == bs[1..] + [b];
      Associative(Encode(bs[0]), EncodeAll(bs[1..]), Encode(b));
    }
  }

  lemma {:induction false} WholePartsEncode(parts: seq<Part>)
    requires forall p :: p in parts ==> Whole(p)
    ensures BytesOf(parts) == EncodeAll(WholeBlocks(parts))
    ensures |WholeBlocks(parts)| == |parts|
  {
    if parts != [] {
      WholePartsEncode(parts[..|parts| - 1]);
      EncodeAllGrows(WholeBlocks(parts[..|parts| - 1]), parts[|parts| - 1].block);
    }
  }

  lemma EmptyIsCut()
    ensures IsCutBlock([])
  {
    var b := Block(0, 0, 0, []);
    assert Encode(b)[..0] == [];
  }

  lemma LastPart(st: Stream)
    requires StreamInv(st) && Aligned(st) && MidBlock(st)
    ensures var n := |st.parts| - 1;
            && BytesOf(st.parts) == EncodeAll(WholeBlocks(st.parts[..n])) + PartBytes(st.parts[n])
            && st.acked == WholeBlocks(st.parts[..n])
            && IsCutBlock(PartBytes(st.parts[n]))
  {
    var n := |st.parts| - 1;
    var b := st.parts[n].block;
    assert st.parts[n] in st.parts;
    WholePartsEncode(st.parts[..n]);
    var cut := PartBytes(st.parts[n]);
    assert Sendable(b) && |cut| < |Encode(b)| && cut == Encode(b)[..|cut|];
  }

  /** The bytes of a framed connection: the blocks whose send returned ADC_OK, in order, and
      then at most one cut-off block. */
  lemma FramedBytes(st: Stream) returns (cut: seq<byte>)
    requires StreamInv(st) && Aligned(st)
    ensures BytesOf(st.parts) == EncodeAll(st.acked) + cut && IsCutBlock(cut)
  {
    if MidBlock(st) {
      LastPart(st);
      cut := PartBytes(st.parts[|st.parts| - 1]);
    } else {
      EmptyIsCut();
      WholePartsEncode(st.parts);
      cut := [];
    }
  }

  lemma WholeBlocksSendable(parts: seq<Part>)
    requires forall p :: p in parts ==> Sendable(p.block)
    ensures forall b :: b in WholeBlocks(parts) ==> Sendable(b)
  {
  }

  /** Framing: over any run in which no bytes follow a torn block on its connection, every
      connection carries its acknowledged blocks whole and at most one cut-off block behind them,
      and a server that receives all of it recognises exactly the acknowledged blocks. */
  lemma FramingPerConnection(socket: Socket, events: seq<Event>, st: Stream) returns (cut: seq<byte>)
    requires AllSendable(events) && !BytesBehindTorn(socket, events)
    requires st in Streams(Play(socket, events))
    ensures BytesOf(st.parts) == EncodeAll(st.acked) + cut && IsCutBlock(cut)
    ensures Parse(BytesOf(st.parts)) == st.acked
  {
    FramedIff(socket, events);
    PlayKeepsInv(socket, events);
    cut := FramedBytes(st);
    AlignedStreamParses(st);
  }

  lemma AlignedStreamParses(st: Stream)
    requires StreamInv(st) && Aligned(st)
    ensures Parse(BytesOf(st.parts)) == st.acked
  {
    var cut := FramedBytes(st);
    WholeBlocksSendable(st.parts);
    ParseOfBlocks(st.acked, cut);
  }

  // ---------------------------------------------------------------- the torn timeout

  /** A torn block that keeps its header makes a block of its own: whatever bytes come next
      complete it. The server recognises a block with the header of `b` and, from byte k on, the
      foreign bytes; it is `b` itself only if these happen to be the bytes that are missing. */
  lemma TornBlockIsCompleted(b: Block, k: nat, rest: seq<byte>)
    requires Sendable(b) && HEADER_SIZE <= k < |Encode(b)| <= k + |rest|
    ensures var s := Encode(b)[..k] + rest;
            var missing := |Encode(b)| - k;
            && Parse(s) != []
            && var c := Parse(s)[0];
            && (c.version, c.sequence, c.timestamp, |c.samples|) == (b.version, b.sequence, b.timestamp, |b.samples|)
            && Encode(c) == Encode(b)[..k] + rest[..missing]
            && Parse(s)[1..] == Parse(rest[missing..])
            && (c == b <==> rest[..missing] == Encode(b)[k..])
  {
    var n := |Encode(b)|;
    var s := Encode(b)[..k] + rest;
    assert s[..k] == Encode(b)[..k];
    assert s[..HEADER_SIZE] == Encode(b)[..HEADER_SIZE] by { SamePrefix(s, Encode(b), HEADER_SIZE, k); }
    HeaderAgain(b, s);
    EncodeOfDecode(s);
    var c := DecodeBlock(s);
    assert s[n..] == rest[n - k..];
    assert s[..n] == Encode(b)[..k] + rest[..n - k];
    CompletedIff(b, c, k, rest[..n - k]);
  }

  lemma SamePrefix(s: seq<byte>, t: seq<byte>, n: nat, k: nat)
    requires n <= k <= |s| && k <= |t| && s[..k] == t[..k]
    ensures s[..n] == t[..n]
  {
    assert s[..n] == s[..k][..n] && t[..n] == t[..k][..n];
  }

  /** Bytes that start with the header of `b` decode to a block with that header. */
  lemma HeaderAgain(b: Block, s: seq<byte>)
    requires Sendable(b) && |s| >= Size(b) && s[..HEADER_SIZE] == Encode(b)[..HEADER_SIZE]
    ensures U32(s, 0) == MAGIC && BlockSize(s) == Size(b)
    ensures var c := DecodeBlock(s);
            (c.version, c.sequence, c.timestamp, |c.samples|) == (b.version, b.sequence, b.timestamp, |b.samples|)
  {
    var h := EncodeHeader(b);
    assert Encode(b)[..HEADER_SIZE] == h;
    assert s == h + s[HEADER_SIZE..];
    HeaderLayout(b, s[HEADER_SIZE..]);
  }

  lemma CompletedIff(b: Block, c: Block, k: nat, filled: seq<byte>)
    requires Sendable(b) && Sendable(c) && k <= |Encode(b)|
    requires Encode(c) == Encode(b)[..k] + filled
    ensures c == b <==> filled == Encode(b)[k..]
  {
    assert Encode(b) == Encode(b)[..k] + Encode(b)[k..];
    if Encode(c) == Encode(b) {
      DecodeOfEncode(b, []);
      DecodeOfEncode(c, []);
    }
    assert Encode(c)[k..] == filled;
  }

  /** A block the network worker may send. */
  ghost predicate OfWorker(b: Block) {
    b.version == BLOCK_VERSION && 1 <= |b.samples| <= SAMPLES_PER_BLOCK
  }

  /** Ten bytes go out, the second call times out, all later calls take up to 8192 bytes. */
  function TearingCall(k: nat): SendOutcome {
    if k == 0 then Accepts(10) else if k == 1 then WouldBlock else Accepts(8192)
  }

  lemma TornSend(b: Block)
    requires OfWorker(b)
    ensures Play(TearingCall, [Connecting(true), Sending(b)])
         == Link(true, 2, [EMPTY_STREAM], Stream([Part(b, 10)], []))
  {
    var es := [Connecting(true), Sending(b)];
    assert es[..1] == [Connecting(true)] && es[..1][..0] == [];
    assert Play(TearingCall, es[..1]) == Link(true, 0, [EMPTY_STREAM], EMPTY_STREAM);
    assert Transmit(TearingCall, 0, Size(b)) == Transmission(10, TimeoutError, 2);
  }

  lemma TornStream(b: Block, c: Block)
    requires OfWorker(b) && OfWorker(c)
    ensures Parse(BytesOf([Part(b, 10)] + [Part(c, Size(c))])) == []
  {
    BytesGrow([], Part(b, 10));
    assert [] + [Part(b, 10)] == [Part(b, 10)];
    BytesGrow([Part(b, 10)], Part(c, Size(c)));
    assert PartBytes(Part(b, 10)) == Encode(b)[..10];
    assert PartBytes(Part(c, Size(c))) == Encode(c);
    assert BytesOf([Part(b, 10)]) == [] + Encode(b)[..10] == Encode(b)[..10];
    TornBytes(b, c);
  }

  /** Framing is lost when a timeout tears a block and the client goes on: whichever two blocks
      the worker sends, the second send returns ADC_OK, yet the server recognises no block at all. */
  lemma TornTimeoutHidesNextBlock(b: Block, c: Block)
    requires OfWorker(b) && OfWorker(c)
    ensures var l := Play(TearingCall, [Connecting(true), Sending(b), Sending(c)]);
            && l.stream.acked == [c]
            && Parse(BytesOf(l.stream.parts)) == []
  {
    var es := [Connecting(true), Sending(b), Sending(c)];
    assert es[..2] == [Connecting(true), Sending(b)];
    TornSend(b);
    assert Transmit(TearingCall, 2, Size(c)) == Transmission(Size(c), Ok, 1);
    assert Play(TearingCall, es).stream.parts == [Part(b, 10)] + [Part(c, Size(c))];
    TornStream(b, c);
  }

  lemma FourBytes(bs: seq<byte>)
    requires |bs| == 4
    ensures Number(bs) == bs[0] + 0x100 * (bs[1] + 0x100 * (bs[2] + 0x100 * (bs[3] as int)))
  {
    assert bs[1..][1..] == bs[2..] && bs[2..][1..] == bs[3..] && bs[3..][1..] == [];
    assert Number(bs[3..]) == bs[3];
    assert Number(bs[2..]) == bs[2] + 0x100 * Number(bs[3..]);
    assert Number(bs[1..]) == bs[1] + 0x100 * Number(bs[2..]);
  }

  lemma LowBytes(x: u32)
    ensures var bs := LittleEndian(x, 4);
            bs[0] == x % 0x100 && bs[1] == (x / 0x100) % 0x100
            && bs[2] == (x / 0x100 / 0x100) % 0x100 && bs[3] == (x / 0x100 / 0x100 / 0x100) % 0x100
  {
    assert LittleEndian(x, 4) == [x % 0x100] + LittleEndian(x / 0x100, 3);
    assert LittleEndian(x / 0x100, 3) == [(x / 0x100) % 0x100] + LittleEndian(x / 0x100 / 0x100, 2);
  }

  /** The first eight bytes of a block. */
  lemma FirstBytes(c: Block)
    requires OfWorker(c)
    ensures |Encode(c)| > 8
    ensures Encode(c)[..8] == [0x7A, 0xDA, 0xC0, 0xAD, 1, 0, 0, 0]
  {
    var m, v := LittleEndian(MAGIC, 4), LittleEndian(BLOCK_VERSION, 4);
    LowBytes(MAGIC);
    LowBytes(BLOCK_VERSION);
    assert m == [0x7A, 0xDA, 0xC0, 0xAD] && v == [1, 0, 0, 0];
    var rest := LittleEndian(c.sequence, 4) + LittleEndian(|c.samples|, 4) + LittleEndian(c.timestamp, 8);
    assert EncodeHeader(c) == m + v + rest;
    assert Encode(c) == m + v + (rest + EncodeSamples(c.samples));
  }

  /** Behind ten bytes of another block, a block's magic and version words stand where the server
      looks for the number of samples. */
  lemma TornBytes(b: Block, c: Block)
    requires OfWorker(b) && OfWorker(c)
    ensures Parse(Encode(b)[..10] + Encode(c)) == []
  {
    var s := Encode(b)[..10] + Encode(c);
    FirstBytes(b);
    FirstBytes(c);
    assert s[12..16] == Encode(c)[..8][2..6] == [0xC0, 0xAD, 1, 0];
    FourBytes(s[12..16]);
    assert U32(s, 12) == 0x1ADC0;
    assert s[0..4] == Encode(b)[..8][..4];
    HeaderLayout(b, EncodeSamples(b.samples));
    ShiftedWord(s, Encode(b), 0, 0);
  }
}
