/** The TCP client: partial sends, the `connected` flag, and what each connection carries. */
module Tcp {
  import opened Rings
  import opened Wire

  datatype AdcError = Ok | NetworkError | TimeoutError | InvalidParam

  /** What one `send` call on the socket does: takes up to `n` bytes, would block, or fails. */
  datatype SendOutcome = Accepts(n: nat) | WouldBlock | Broken

  /** A socket is the outcome of its k-th `send` call, for every k. */
  type Socket = nat -> SendOutcome

  // ---------------------------------------------------------------- sending one buffer

  datatype Transmission = Transmission(accepted: nat, err: AdcError, calls: nat)

  /** What `tcp_client_send_all` achieves for `len` bytes on a connected socket whose next `send`
      call is the k-th: success means that every byte was accepted, an error that a proper prefix
      was. */
  function Transmit(socket: Socket, k: nat, len: nat): (t: Transmission)
    requires len > 0
    ensures t.accepted <= len
    ensures t.err == Ok <==> t.accepted == len
    ensures t.err == Ok || t.err == NetworkError || t.err == TimeoutError
    ensures 1 <= t.calls <= t.accepted + 1
    decreases len
  {
    match socket(k)
    case WouldBlock => Transmission(0, TimeoutError, 1)
    case Broken => Transmission(0, NetworkError, 1)
    case Accepts(n) =>
      if n == 0 then Transmission(0, NetworkError, 1)
      else if n >= len then Transmission(len, Ok, 1)
      else
        var t := Transmit(socket, k + 1, len - n);
        t.(accepted := n + t.accepted, calls := 1 + t.calls)
  }

  /** The call takes at least one byte. */
  predicate Takes(o: SendOutcome) {
    o.Accepts? && o.n > 0
  }

  /** What `n` calls from the k-th on were ready to take. */
  function Took(socket: Socket, k: nat, n: nat): nat {
    if n == 0 then 0 else Took(socket, k, n - 1) + (if Takes(socket(k + n - 1)) then socket(k + n - 1).n else 0)
  }

  lemma {:induction false} TookFirst(socket: Socket, k: nat, n: nat)
    requires n > 0
    ensures Took(socket, k, n) == (if Takes(socket(k)) then socket(k).n else 0) + Took(socket, k + 1, n - 1)
  {
    if n > 1 {
      TookFirst(socket, k, n - 1);
    }
  }

  /** Every call before the last takes bytes, and some remain before the last; the last call decides
      the error; and what the calls took, up to `len`, is what is accepted. */
  ghost predicate DecidedByCalls(socket: Socket, k: nat, len: nat, t: Transmission) {
    t.calls > 0
    && var last := socket(k + t.calls - 1);
    && (forall i :: k <= i < k + t.calls - 1 ==> Takes(socket(i)))
    && Took(socket, k, t.calls - 1) < len
    && (t.err == TimeoutError <==> last.WouldBlock?)
    && (t.err == NetworkError <==> last.Broken? || last == Accepts(0))
    && t.accepted == Min(len, Took(socket, k, t.calls))
  }

  lemma OneCallMore(socket: Socket, k: nat, len: nat, t: Transmission)
    requires Takes(socket(k)) && socket(k).n < len
    requires DecidedByCalls(socket, k + 1, len - socket(k).n, t)
    ensures DecidedByCalls(socket, k, len, t.(accepted := socket(k).n + t.accepted, calls := 1 + t.calls))
  {
    TookFirst(socket, k, t.calls + 1);
    TookFirst(socket, k, t.calls);
  }

  lemma OneCall(socket: Socket, k: nat, len: nat, t: Transmission)
    requires len > 0 && t.calls == 1
    requires Takes(socket(k)) ==> socket(k).n >= len && t == Transmission(len, Ok, 1)
    requires !Takes(socket(k)) ==> t == Transmission(0, if socket(k).WouldBlock? then TimeoutError else NetworkError, 1)
    ensures DecidedByCalls(socket, k, len, t)
  {
    assert Took(socket, k, 0) == 0;
    TookFirst(socket, k, 1);
  }

  /** What decides a transmission: it goes on exactly as long as calls take bytes and some remain.
      Its last call decides the error, and what the calls took, up to `len`, is what it accepts. */
  lemma {:induction false} TransmitOutcome(socket: Socket, k: nat, len: nat)
    requires len > 0
    ensures DecidedByCalls(socket, k, len, Transmit(socket, k, len))
    decreases len
  {
    if Takes(socket(k)) && socket(k).n < len {
      TransmitOutcome(socket, k + 1, len - socket(k).n);
      OneCallMore(socket, k, len, Transmit(socket, k + 1, len - socket(k).n));
    } else {
      OneCall(socket, k, len, Transmit(socket, k, len));
    }
  }

  /** Partial sends alone never fail a transmission: a socket of which every call takes at least
      one byte gets all of the data. */
  lemma TakingSocketGetsAll(socket: Socket, k: nat, len: nat)
    requires len > 0 && forall i: nat :: k <= i < k + len ==> Takes(socket(i))
    ensures Transmit(socket, k, len).err == Ok && Transmit(socket, k, len).accepted == len
  {
    TransmitOutcome(socket, k, len);
    var t := Transmit(socket, k, len);
    assert Takes(socket(k + t.calls - 1)) by {
      assert t.err != Ok ==> t.calls <= len;
    }
  }

  /** The whole transmission, seen after `out` bytes and `calls` calls, `remaining` bytes to go. */
  function Continued(socket: Socket, k: nat, remaining: nat, out: nat, calls: nat): Transmission {
    if remaining == 0 then Transmission(out, Ok, calls)
    else
      var rest := Transmit(socket, k, remaining);
      Transmission(out + rest.accepted, rest.err, calls + rest.calls)
  }

  lemma SliceGrows(before: seq<byte>, data: seq<byte>, out: nat, n: nat)
    requires out + n <= |data|
    ensures before + data[..out] + data[out..][..n] == before + data[..out + n]
  {
  }

  // ---------------------------------------------------------------- connections

  /** A block of which `accepted` bytes (at least one) went out in one send. */
  datatype Part = Part(block: Block, accepted: nat)

  /** One connection: the sends that put bytes on it, and the blocks whose send returned ADC_OK. */
  datatype Stream = Stream(parts: seq<Part>, acked: seq<Block>)

  const EMPTY_STREAM := Stream([], [])

  function PartBytes(p: Part): seq<byte> {
    Encode(p.block)[..Min(p.accepted, Size(p.block))]
  }

  /** The bytes the connection carried. */
  function BytesOf(parts: seq<Part>): seq<byte> {
    if parts == [] then [] else BytesOf(parts[..|parts| - 1]) + PartBytes(parts[|parts| - 1])
  }

  lemma BytesGrow(parts: seq<Part>, p: Part)
    ensures BytesOf(parts + [p]) == BytesOf(parts) + PartBytes(p)
  {
    assert (parts + [p])[..|parts|] == parts;
  }

  /** The client and everything it has put on its connections; `stream` is the current or last one. */
  datatype Link = Link(connected: bool, calls: nat, past: seq<Stream>, stream: Stream)

  const NEW_LINK := Link(false, 0, [], EMPTY_STREAM)

  function ConnectLink(l: Link, reachable: bool): (Link, AdcError) {
    if l.connected then (l, Ok)
    else if reachable then (Link(true, l.calls, l.past + [l.stream], EMPTY_STREAM), Ok)
    else (l, NetworkError)
  }

  function DisconnectLink(l: Link): Link {
    l.(connected := false)
  }

  /** The connection after it carried what transmission `t` got out of block `b`. */
  function Carry(st: Stream, b: Block, t: Transmission): Stream {
    Stream(
      if t.accepted == 0 then st.parts else st.parts + [Part(b, t.accepted)],
      if t.err == Ok then st.acked + [b] else st.acked)
  }

  lemma CarryBytes(st: Stream, b: Block, t: Transmission)
    requires t.accepted <= Size(b)
    ensures BytesOf(Carry(st, b, t).parts) == BytesOf(st.parts) + Encode(b)[..t.accepted]
  {
    var p := Part(b, t.accepted);
    if t.accepted > 0 {
      BytesGrow(st.parts, p);
    }
  }

  function SendBlock(l: Link, socket: Socket, b: Block): (Link, AdcError) {
    if !l.connected then (l, NetworkError)
    else
      var t := Transmit(socket, l.calls, Size(b));
      (Link(t.err != NetworkError, l.calls + t.calls, l.past, Carry(l.stream, b, t)), t.err)
  }

  class TcpClient {
    const socket: Socket
    var calls: nat
    var connected: bool
    /** The bytes the socket accepted on the current connection. */
    ghost var wire: seq<byte>
    ghost var past: seq<Stream>
    ghost var stream: Stream

    ghost predicate Valid()
      reads this
    {
      wire == BytesOf(stream.parts)
    }

    ghost function View(): Link
      reads this
    {
      Link(connected, calls, past, stream)
    }

    constructor (socket: Socket)
      ensures Valid() && View() == NEW_LINK && this.socket == socket
    {
      this.socket := socket;
      calls, connected, wire, past, stream := 0, false, [], [], EMPTY_STREAM;
    }

    /** `reachable` stands for the success of `socket`, `inet_pton` and `connect`. */
    method Connect(reachable: bool) returns (err: AdcError)
      requires Valid()
      modifies this
      ensures Valid()
      ensures (View(), err) == ConnectLink(old(View()), reachable)
      ensures connected == (old(connected) || reachable) && (err == Ok <==> connected) && (err == Ok || err == NetworkError)
      ensures calls == old(calls)
      ensures if !old(connected) && reachable then stream == EMPTY_STREAM && past == old(past) + [old(stream)]
              else stream == old(stream) && past == old(past)
    {
      if connected {
        return Ok;
      }
      if !reachable {
        return NetworkError;
      }
      past, stream, wire := past + [stream], EMPTY_STREAM, [];
      connected := true;
      return Ok;
    }

    method Disconnect() returns (err: AdcError)
      modifies this`connected
      ensures View() == DisconnectLink(old(View()))
      ensures !connected && err == Ok
    {
      if connected {
        connected := false;
      }
      return Ok;
    }

    /** One `send` call. A timeout leaves the client connected, a failure does not. */
    method Send(data: seq<byte>) returns (err: AdcError, sent: nat)
      modifies this`calls, this`connected, this`wire
      ensures sent <= |data| && wire == old(wire) + data[..sent]
      ensures data == [] ==> err == InvalidParam && sent == 0 && View() == old(View())
      ensures data != [] && !old(connected) ==> err == NetworkError && sent == 0 && View() == old(View())
      ensures data != [] && old(connected) ==>
                && calls == old(calls) + 1
                && connected == (err != NetworkError)
                && match socket(old(calls))
                   case Accepts(n) => err == Ok && sent == Min(n, |data|)
                   case WouldBlock => err == TimeoutError && sent == 0
                   case Broken => err == NetworkError && sent == 0
    {
      sent := 0;
      if data == [] {
        return InvalidParam, 0;
      }
      if !connected {
        return NetworkError, 0;
      }
      var outcome := socket(calls);
      calls := calls + 1;
      match outcome
      case WouldBlock =>
        return TimeoutError, 0;
      case Broken =>
        connected := false;
        return NetworkError, 0;
      case Accepts(n) =>
        sent := Min(n, |data|);
        wire := wire + data[..sent];
        return Ok, sent;
    }

    /** Retries partial sends until the data is out or a send fails or times out. The bytes that
        went out are the prefix the transmission accounts for. */
    method SendAll(data: seq<byte>) returns (err: AdcError)
      modifies this`calls, this`connected, this`wire
      ensures data == [] ==> err == InvalidParam && View() == old(View()) && wire == old(wire)
      ensures data != [] && !old(connected) ==> err == NetworkError && View() == old(View()) && wire == old(wire)
      ensures data != [] && old(connected) ==>
                var t := Transmit(socket, old(calls), |data|);
                && err == t.err
                && calls == old(calls) + t.calls
                && connected == (err != NetworkError)
                && wire == old(wire) + data[..t.accepted]
    {
      if data == [] {
        return InvalidParam;
      }
      if !connected {
        return NetworkError;
      }
      var ptr: nat, remaining: nat := 0, |data|;
      ghost var before, first := wire, calls;
      while remaining > 0
        invariant connected && first <= calls && ptr + remaining == |data|
        invariant wire == before + data[..ptr]
        invariant Transmit(socket, first, |data|) == Continued(socket, calls, remaining, ptr, calls - first)
        decreases remaining
      {
        var e, sent := Send(data[ptr..]);
        SliceGrows(before, data, ptr, sent);
        if e != Ok {
          return e;
        }
        if sent == 0 {
          connected := false;
          return NetworkError;
        }
        ptr := ptr + sent;
        remaining := remaining - sent;
      }
      return Ok;
    }

    method SendDataBlock(b: Block) returns (err: AdcError)
      requires Valid()
      modifies this`calls, this`connected, this`wire, this`stream
      ensures Valid()
      ensures (View(), err) == SendBlock(old(View()), socket, b)
    {
      var live := connected;
      ghost var t := Transmit(socket, calls, Size(b));
      err := SendAll(Encode(b));
      if !live {
        return;  // nothing went out
      }
      CarryBytes(stream, b, t);
      stream := Carry(stream, b, t);
    }
  }
}
