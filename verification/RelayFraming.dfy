/** Message framing on the TCP-TLS relay connection (rustlib/src/quicwg.rs, lines
    961-984 and 997-1045).

    The byte layout of headers and message codes belongs to a library outside the
    repository, so the codec is a parameter; what is assumed of it is `CodecOk`. */
module RelayFraming {
  import opened Wrappers

  const U32_LIMIT: nat := 0x1_0000_0000
  const U16_MAX: nat := 0xffff

  datatype OpCode = WireGuard | OtherOp(op: nat)
  datatype ResponseCode = ResponseOk | ResponseError(error: nat)
  datatype MessageCode = Op(op: OpCode) | Response(response: ResponseCode)

  datatype Header = Header(contextId: nat, payloadLength: nat)

  datatype Codec = Codec(
    headerBytes: Header -> seq<byte>,
    parseHeader: seq<byte> -> Header,
    codeBytes: MessageCode -> seq<byte>,
    parseCode: (seq<byte>, nat) -> Option<MessageCode>)

  predicate ValidHeader(h: Header) {
    h.contextId < U32_LIMIT && h.payloadLength < U32_LIMIT
  }

  /** Headers are 8 bytes and codes 4 bytes, and headers round-trip. */
  ghost predicate CodecOk(k: Codec) {
    && (forall h :: ValidHeader(h) ==> |k.headerBytes(h)| == 8 && k.parseHeader(k.headerBytes(h)) == h)
    && (forall code :: |k.codeBytes(code)| == 4)
  }

  datatype Message = Message(code: MessageCode, contextId: nat, arg: seq<byte>)

  // -------------------------------------------------------------------------- streams

  /** The receiving half of the connection: the bytes the peer will have sent by the
      time it closes. */
  class ByteStream {
    var unread: seq<byte>

    /** `read_exact`: all `n` bytes, or an error at the end of the stream. */
    method ReadExact(n: nat) returns (bytes: Option<seq<byte>>)
      modifies this
      ensures n <= |old(unread)| ==> bytes == Some(old(unread)[..n]) && unread == old(unread)[n..]
      ensures n > |old(unread)| ==> bytes == None && unread == []
    {
      if n <= |unread| {
        bytes := Some(unread[..n]);
        unread := unread[n..];
      } else {
        bytes := None;
        unread := [];
      }
    }
  }

  /** Consumes exactly `n` bytes, a buffer at a time. */
  method RecvSkip(stream: ByteStream, n: nat) returns (ok: bool)
    modifies stream
    ensures ok <==> n <= |old(stream.unread)|
    ensures stream.unread == if ok then old(stream.unread)[n..] else []
  {
    var left := n;
    while left >= U16_MAX
      invariant 0 <= left <= n && n - left <= |old(stream.unread)|
      invariant stream.unread == old(stream.unread)[n - left..]
    {
      var buffer := stream.ReadExact(U16_MAX);
      if buffer.None? {
        return false;
      }
      left := left - U16_MAX;
    }
    if left > 0 {
      var buffer := stream.ReadExact(left);
      return buffer.Some?;
    }
    return true;
  }

  /** What the receiver makes of a byte stream: the next message it returns, if the
      stream does not end before, and the bytes left after it. */
  function Recv(k: Codec, bytes: seq<byte>): (r: (Option<Message>, seq<byte>))
    ensures |r.1| <= |bytes|
    ensures r.0.Some? ==> |r.1| < |bytes|
    decreases |bytes|
  {
    if |bytes| < 8 then (None, [])
    else
      var header := k.parseHeader(bytes[..8]);
      var len := header.payloadLength;
      var body := bytes[8..];
      if |body| < len then (None, [])
      else if len < 4 || len > U16_MAX + 4 then Recv(k, body[len..])
      else
        var code := k.parseCode(body[..4], header.contextId);
        if code.None? then Recv(k, body[len..])
        else (Some(Message(code.value, header.contextId, body[4..len])), body[len..])
  }

  method RecvMessage(k: Codec, stream: ByteStream) returns (message: Option<Message>)
    modifies stream
    ensures (message, stream.unread) == Recv(k, old(stream.unread))
  {
    while true
      invariant Recv(k, stream.unread) == Recv(k, old(stream.unread))
      decreases |stream.unread|
    {
      ghost var bytes := stream.unread;
      var headerBytes := stream.ReadExact(8);
      if headerBytes.None? {
        return None;
      }
      var header := k.parseHeader(headerBytes.value);
      var len := header.payloadLength;
      if len < 4 || len > U16_MAX + 4 {
        var ok := RecvSkip(stream, len);
        if !ok {
          return None;
        }
        continue;
      }
      var payload := stream.ReadExact(len);
      if payload.None? {
        return None;
      }
      var code, arg := payload.value[..4], payload.value[4..];
      assert code == bytes[8..][..4] && arg == bytes[8..][4..len];
      var parsed := k.parseCode(code, header.contextId);
      if parsed.None? {
        continue;
      }
      return Some(Message(parsed.value, header.contextId, arg));
    }
  }

  // --------------------------------------------------------------------------- frames

  datatype Frame = Frame(contextId: nat, payload: seq<byte>)

  predicate ValidFrame(f: Frame) {
    f.contextId < U32_LIMIT && |f.payload| < U32_LIMIT
  }

  predicate AllFrames(fs: seq<Frame>) {
    forall i :: 0 <= i < |fs| ==> ValidFrame(fs[i])
  }

  function FrameBytes(k: Codec, f: Frame): seq<byte> {
    k.headerBytes(Header(f.contextId, |f.payload|)) + f.payload
  }

  function Wire(k: Codec, fs: seq<Frame>): seq<byte> {
    if fs == [] then [] else FrameBytes(k, fs[0]) + Wire(k, fs[1..])
  }

  /** Acceptable length and known code. */
  predicate Deliverable(k: Codec, f: Frame) {
    && 4 <= |f.payload| <= U16_MAX + 4
    && k.parseCode(f.payload[..4], f.contextId).Some?
  }

  function Deliver(k: Codec, f: Frame): Message
    requires Deliverable(k, f)
  {
    Message(k.parseCode(f.payload[..4], f.contextId).value, f.contextId, f.payload[4..])
  }

  /** One frame is either returned or skipped, and in both cases consumed exactly. */
  lemma {:induction false} RecvFrame(k: Codec, f: Frame, rest: seq<byte>)
    requires CodecOk(k) && ValidFrame(f)
    ensures Recv(k, FrameBytes(k, f) + rest) ==
              if Deliverable(k, f) then (Some(Deliver(k, f)), rest) else Recv(k, rest)
  {
    var header := Header(f.contextId, |f.payload|);
    var bytes := FrameBytes(k, f) + rest;
    var body := f.payload + rest;
    assert ValidHeader(header);
    assert bytes == k.headerBytes(header) + body;
    assert bytes[..8] == k.headerBytes(header) && bytes[8..] == body;
    assert body[|f.payload|..] == rest;
    if 4 <= |f.payload| {
      assert body[..4] == f.payload[..4];
      assert body[4..|f.payload|] == f.payload[4..];
    }
  }

  /** The receiver stays in sync: on complete frames it returns the first
      deliverable one and leaves the stream exactly at that frame's end. */
  lemma {:induction false} StaysInSync(k: Codec, fs: seq<Frame>, i: nat, tail: seq<byte>)
    requires CodecOk(k) && AllFrames(fs) && i <= |fs|
    requires forall j :: 0 <= j < i ==> !Deliverable(k, fs[j])
    requires i < |fs| ==> Deliverable(k, fs[i])
    ensures Recv(k, Wire(k, fs) + tail) ==
              if i < |fs| then (Some(Deliver(k, fs[i])), Wire(k, fs[i + 1..]) + tail) else Recv(k, tail)
  {
    if fs == [] {
      assert Wire(k, fs) + tail == tail;
    } else {
      var rest := Wire(k, fs[1..]) + tail;
      assert Wire(k, fs) + tail == FrameBytes(k, fs[0]) + rest;
      RecvFrame(k, fs[0], rest);
      if i > 0 {
        StaysInSync(k, fs[1..], i - 1, tail);
        if i < |fs| { assert fs[1..][i..] == fs[i + 1..]; }
      }
    }
  }

  /** Everything the receiver returns until the stream ends. */
  function RecvAll(k: Codec, bytes: seq<byte>): seq<Message>
    decreases |bytes|
  {
    var (message, rest) := Recv(k, bytes);
    if message.None? then [] else [message.value] + RecvAll(k, rest)
  }

  function DeliverAll(k: Codec, fs: seq<Frame>): seq<Message> {
    if fs == [] then []
    else (if Deliverable(k, fs[0]) then [Deliver(k, fs[0])] else []) + DeliverAll(k, fs[1..])
  }

  /** Of any list of frames, exactly the deliverable ones arrive, in order. */
  lemma {:induction false} DeliverableFramesArrive(k: Codec, fs: seq<Frame>)
    requires CodecOk(k) && AllFrames(fs)
    ensures RecvAll(k, Wire(k, fs)) == DeliverAll(k, fs)
  {
    if fs != [] {
      RecvFrame(k, fs[0], Wire(k, fs[1..]));
      DeliverableFramesArrive(k, fs[1..]);
    }
  }

  // --------------------------------------------------------------------------- sending

  /** `send_message`: the length field must fit 32 bits. */
  function SendBytes(k: Codec, m: Message): Option<seq<byte>> {
    if 4 + |m.arg| < U32_LIMIT
    then Some(k.headerBytes(Header(m.contextId, 4 + |m.arg|)) + k.codeBytes(m.code) + m.arg)
    else None
  }

  /** The sending half of the connection: it takes `room` more bytes and then fails,
      and the next flush succeeds or not. */
  class ByteSink {
    var written: seq<byte>
    var room: nat
    var flushes: bool

    /** `write_all`: all the bytes, or those that there was room for and an error. */
    method WriteAll(bytes: seq<byte>) returns (ok: bool)
      modifies this`written, this`room
      ensures ok <==> |bytes| <= old(room)
      ensures written == old(written) + Take(bytes, old(room))
      ensures room == if ok then old(room) - |bytes| else 0
    {
      if |bytes| <= room {
        written := written + bytes;
        room := room - |bytes|;
        return true;
      }
      written := written + bytes[..room];
      room := 0;
      return false;
    }

    method Flush() returns (ok: bool)
      ensures ok == flushes
    {
      return flushes;
    }

    /** Three writes and a flush, but one message: what is written is the whole message,
        or as much of its beginning as there was room for; nothing if it is too long.
        Success means that all was written and flushed. */
    method SendMessage(k: Codec, m: Message) returns (ok: bool)
      modifies this`written, this`room
      ensures ok <==> SendBytes(k, m).Some? && |SendBytes(k, m).value| <= old(room) && flushes
      ensures written == old(written) + (if SendBytes(k, m).Some? then Take(SendBytes(k, m).value, old(room)) else [])
    {
      var code := k.codeBytes(m.code);
      var length := 4 + |m.arg|;
      if length >= U32_LIMIT {
        return false;
      }
      var header := k.headerBytes(Header(m.contextId, length));
      ThreeWrites(written, header, code, m.arg, room);
      ok := WriteAll(header);
      if ok {
        ok := WriteAll(code);
      }
      if ok {
        ok := WriteAll(m.arg);
      }
      if ok {
        ok := Flush();
      }
    }
  }

  lemma TakeConcat(w: seq<byte>, a: seq<byte>, b: seq<byte>, n: nat)
    ensures w + Take(a + b, n) == if |a| <= n then w + a + Take(b, n - |a|) else w + Take(a, n)
  {
  }

  /** Writing part after part until one fails is writing the whole until it fails. */
  lemma ThreeWrites(w: seq<byte>, a: seq<byte>, b: seq<byte>, c: seq<byte>, n: nat)
    ensures w + Take(a + b + c, n) ==
              if n < |a| then w + Take(a, n)
              else if n - |a| < |b| then w + Take(a, n) + Take(b, n - |a|)
              else w + Take(a, n) + Take(b, n - |a|) + Take(c, n - |a| - |b|)
  {
    TakeConcat(w, a + b, c, n);
    TakeConcat(w, a, b, n);
    assert w + (a + b) == w + a + b;
  }

  /** The peer can decode the message's code in its context. */
  predicate Decodable(k: Codec, m: Message) {
    m.contextId < U32_LIMIT && k.parseCode(k.codeBytes(m.code), m.contextId) == Some(m.code)
  }

  /** A message can be sent if and only if its length, with that of the code, fits 32
      bits. */
  lemma SendableIff(k: Codec, m: Message)
    requires CodecOk(k)
    ensures SendBytes(k, m).Some? <==> |m.arg| <= 4_294_967_291
    ensures SendBytes(k, m).Some? && m.contextId < U32_LIMIT ==> |SendBytes(k, m).value| == 12 + |m.arg|
  {
    if 4 + |m.arg| < U32_LIMIT && m.contextId < U32_LIMIT { assert ValidHeader(Header(m.contextId, 4 + |m.arg|)); }
  }

  /** Receiving what was sent gives the message back if and only if its argument is
      at most 65535 bytes; a longer one is sent but skipped by the receiver. */
  lemma {:induction false} SendRecv(k: Codec, m: Message, tail: seq<byte>)
    requires CodecOk(k) && Decodable(k, m) && |m.arg| <= 4_294_967_291
    ensures SendBytes(k, m).Some?
    ensures |m.arg| <= 65535 ==> Recv(k, SendBytes(k, m).value + tail) == (Some(m), tail)
    ensures |m.arg| > 65535 ==> Recv(k, SendBytes(k, m).value + tail) == Recv(k, tail)
  {
    var f := Frame(m.contextId, k.codeBytes(m.code) + m.arg);
    assert FrameBytes(k, f) == SendBytes(k, m).value;
    assert f.payload[..4] == k.codeBytes(m.code) && f.payload[4..] == m.arg;
    RecvFrame(k, f, tail);
  }

  // ------------------------------------------------------------------ WireGuard messages

  datatype Outcome = Packet(packet: seq<byte>) | StreamEnded | RelayError(error: nat) | UnexpectedOp(op: nat)

  /** What one call of `receive_wg_message` returns, the context ids it queues for
      acknowledgement, and the bytes left. */
  datatype Receipt = Receipt(outcome: Outcome, acks: seq<nat>, rest: seq<byte>)

  function ReceiveWg(k: Codec, bytes: seq<byte>): Receipt
    decreases |bytes|
  {
    var (message, rest) := Recv(k, bytes);
    if message.None? then Receipt(StreamEnded, [], rest)
    else
      match message.value.code
      case Op(WireGuard) => Receipt(Packet(message.value.arg), [message.value.contextId], rest)
      case Op(OtherOp(op)) => Receipt(UnexpectedOp(op), [message.value.contextId], rest)
      case Response(ResponseOk) => ReceiveWg(k, rest)
      case Response(ResponseError(error)) => Receipt(RelayError(error), [], rest)
  }

  /** The part of the shared traffic state the receiver touches. */
  class AckQueue {
    var queuedOks: seq<nat>

    method ReceiveWgMessage(k: Codec, stream: ByteStream) returns (outcome: Outcome)
      modifies this, stream
      ensures old(queuedOks) <= queuedOks
      ensures Receipt(outcome, queuedOks[|old(queuedOks)|..], stream.unread)
           == ReceiveWg(k, old(stream.unread))
    {
      while true
        invariant queuedOks == old(queuedOks)
        invariant ReceiveWg(k, stream.unread) == ReceiveWg(k, old(stream.unread))
        decreases |stream.unread|
      {
        var message := RecvMessage(k, stream);
        if message.None? {
          return StreamEnded;
        }
        match message.value.code
        case Op(op) =>
          queuedOks := queuedOks + [message.value.contextId];
          match op {
            case WireGuard => return Packet(message.value.arg);
            case OtherOp(code) => return UnexpectedOp(code);
          }
        case Response(ResponseOk) => continue;
        case Response(ResponseError(error)) => return RelayError(error);
      }
    }
  }

  /** What a call is to return when the first message that is not an Ok response is the
      `i`-th: an operation is acknowledged whether it is the expected one or not, an
      error response is not. */
  predicate DecidedBy(k: Codec, receipt: Receipt, messages: seq<Message>, i: nat)
    requires i <= |messages|
  {
    if i == |messages| then receipt.outcome == StreamEnded && receipt.acks == []
    else
      && RecvAll(k, receipt.rest) == messages[i + 1..]
      && (match messages[i].code
          case Op(WireGuard) => receipt.outcome == Packet(messages[i].arg) && receipt.acks == [messages[i].contextId]
          case Op(OtherOp(op)) => receipt.outcome == UnexpectedOp(op) && receipt.acks == [messages[i].contextId]
          case Response(ResponseOk) => false
          case Response(ResponseError(error)) => receipt.outcome == RelayError(error) && receipt.acks == [])
  }

  lemma DecidedLater(k: Codec, receipt: Receipt, m: Message, messages: seq<Message>, i: nat)
    requires i <= |messages| && DecidedBy(k, receipt, messages, i)
    ensures DecidedBy(k, receipt, [m] + messages, i + 1)
  {
    assert i < |messages| ==> ([m] + messages)[i + 2..] == messages[i + 1..];
  }

  /** What a call returns is decided by the first message of the stream that is not an Ok
      response. */
  lemma {:induction false} FirstMessageDecides(k: Codec, bytes: seq<byte>, i: nat)
    requires i <= |RecvAll(k, bytes)|
    requires forall j :: 0 <= j < i ==> RecvAll(k, bytes)[j].code == Response(ResponseOk)
    requires i < |RecvAll(k, bytes)| ==> RecvAll(k, bytes)[i].code != Response(ResponseOk)
    ensures DecidedBy(k, ReceiveWg(k, bytes), RecvAll(k, bytes), i)
    decreases |bytes|
  {
    var (message, rest) := Recv(k, bytes);
    if message.Some? {
      var later := RecvAll(k, rest);
      assert RecvAll(k, bytes) == [message.value] + later && RecvAll(k, bytes)[1..] == later;
      if i > 0 {
        assert RecvAll(k, bytes)[0].code == Response(ResponseOk);
        assert forall j :: 0 <= j < |later| ==> later[j] == RecvAll(k, bytes)[j + 1];
        FirstMessageDecides(k, rest, i - 1);
        DecidedLater(k, ReceiveWg(k, rest), message.value, later, i - 1);
      }
    }
  }

  /** The calls of `receive_wg_message` until one fails: all acknowledgements queued
      and all packets returned. */
  function AcksAndPackets(k: Codec, bytes: seq<byte>): (r: (seq<nat>, seq<seq<byte>>))
    decreases |bytes|
  {
    var receipt := ReceiveWg(k, bytes);
    ReceiveWgShorter(k, bytes);
    if !receipt.outcome.Packet? then (receipt.acks, [])
    else
      var (acks, packets) := AcksAndPackets(k, receipt.rest);
      (receipt.acks + acks, [receipt.outcome.packet] + packets)
  }

  lemma {:induction false} ReceiveWgShorter(k: Codec, bytes: seq<byte>)
    ensures ReceiveWg(k, bytes).outcome.Packet? ==> |ReceiveWg(k, bytes).rest| < |bytes|
    decreases |bytes|
  {
    var (message, rest) := Recv(k, bytes);
    if message.Some? && message.value.code == Response(ResponseOk) {
      ReceiveWgShorter(k, rest);
    }
  }

  /** The messages up to the first that makes a call fail, and the context ids of
      the operations among them, including a failing operation. */
  function OpContexts(ms: seq<Message>): seq<nat> {
    if ms == [] then []
    else
      match ms[0].code
      case Op(WireGuard) => [ms[0].contextId] + OpContexts(ms[1..])
      case Op(OtherOp(_)) => [ms[0].contextId]
      case Response(ResponseOk) => OpContexts(ms[1..])
      case Response(ResponseError(_)) => []
  }

  function WgPackets(ms: seq<Message>): seq<seq<byte>> {
    if ms == [] then []
    else
      match ms[0].code
      case Op(WireGuard) => [ms[0].arg] + WgPackets(ms[1..])
      case Response(ResponseOk) => WgPackets(ms[1..])
      case _ => []
  }

  /** Every operation received is queued for acknowledgement exactly once and in
      order, and every WireGuard packet is returned in order. */
  lemma {:induction false} OpsAcknowledgedInOrder(k: Codec, bytes: seq<byte>)
    ensures AcksAndPackets(k, bytes) == (OpContexts(RecvAll(k, bytes)), WgPackets(RecvAll(k, bytes)))
    decreases |bytes|
  {
    var (message, rest) := Recv(k, bytes);
    if message.Some? {
      assert RecvAll(k, bytes)[1..] == RecvAll(k, rest);
      match message.value.code
      case Op(WireGuard) => OpsAcknowledgedInOrder(k, rest);
      case Op(OtherOp(_)) =>
      case Response(ResponseOk) => OpsAcknowledgedInOrder(k, rest);
      case Response(ResponseError(_)) =>
    }
  }

  // ------------------------------------------------------------------ a codec of this kind

  function Bytes4(n: nat): seq<byte>
    requires n < U32_LIMIT
  {
    [n / 0x100_0000, n / 0x1_0000 % 0x100, n / 0x100 % 0x100, n % 0x100]
  }

  function Number4(b: seq<byte>): nat
    requires |b| == 4
  {
    b[0] as int * 0x100_0000 + b[1] as int * 0x1_0000 + b[2] as int * 0x100 + b[3] as int
  }

  lemma Bytes4RoundTrip(n: nat)
    requires n < U32_LIMIT
    ensures Number4(Bytes4(n)) == n
  {
    assert n / 0x1_0000 == n / 0x100_0000 * 0x100 + n / 0x1_0000 % 0x100;
    assert n / 0x100 == n / 0x1_0000 * 0x100 + n / 0x100 % 0x100;
  }

  /** Numbers in network byte order; codes up to a limit, operations before errors. */
  function PlainCode(code: MessageCode): nat {
    match code
    case Op(WireGuard) => 0
    case Response(ResponseOk) => 1
    case Op(OtherOp(op)) => if op < 1000 then 2 + op else 0
    case Response(ResponseError(error)) => if error < 1000 then 1002 + error else 0
  }

  function PlainParse(n: nat): Option<MessageCode> {
    if n == 0 then Some(Op(WireGuard))
    else if n == 1 then Some(Response(ResponseOk))
    else if n < 1002 then Some(Op(OtherOp(n - 2)))
    else if n < 2002 then Some(Response(ResponseError(n - 1002)))
    else None
  }

  function PlainCodec(): Codec {
    Codec(
      (h: Header) => if ValidHeader(h) then Bytes4(h.contextId) + Bytes4(h.payloadLength) else [],
      (b: seq<byte>) => if |b| == 8 then Header(Number4(b[..4]), Number4(b[4..])) else Header(0, 0),
      (code: MessageCode) => PlainCodeBytes(code),
      (b: seq<byte>, contextId: nat) => if |b| == 4 then PlainParse(Number4(b)) else None)
  }

  function PlainCodeBytes(code: MessageCode): (b: seq<byte>)
    ensures |b| == 4
  {
    Bytes4(PlainCode(code))
  }

  /** There is a codec as the theorems assume, under which every message with a known
      code can be decoded. */
  lemma PlainCodecOk(m: Message)
    ensures CodecOk(PlainCodec())
    ensures m.contextId < U32_LIMIT
            && (m.code.Op? && m.code.op.OtherOp? ==> m.code.op.op < 1000)
            && (m.code.Response? && m.code.response.ResponseError? ==> m.code.response.error < 1000) ==>
              Decodable(PlainCodec(), m)
  {
    var k := PlainCodec();
    forall h | ValidHeader(h) ensures |k.headerBytes(h)| == 8 && k.parseHeader(k.headerBytes(h)) == h {
      Bytes4RoundTrip(h.contextId);
      Bytes4RoundTrip(h.payloadLength);
      var b := k.headerBytes(h);
      assert b[..4] == Bytes4(h.contextId) && b[4..] == Bytes4(h.payloadLength);
    }
    Bytes4RoundTrip(PlainCode(m.code));
  }
}
