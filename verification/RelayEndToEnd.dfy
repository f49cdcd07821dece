/** The relay connection from end to end: framing, receiver, shared queues and writer
    together (rustlib/src/quicwg.rs, lines 838-1045). The writer puts packets and
    acknowledgements on one stream; this is what the relay makes of that stream. */
module RelayEndToEnd {
  import opened RelayFraming
  import W = RelayWriter
  import opened Wrappers

  // ------------------------------------------------------------------ what is written

  function Ack(context: nat): Message {
    Message(Response(ResponseOk), context, [])
  }

  /** A packet travels in the context of client-initiated messages. */
  function WgMessage(client: nat, packet: seq<byte>): Message {
    Message(Op(WireGuard), client, packet)
  }

  /** The message that a step finishes writing. */
  function Finished(client: nat, s: W.Queues, e: W.Event): Option<Message>
    requires W.Enabled(s, e)
  {
    if !e.WriteDone? then None
    else if s.pc.WritingPacket? then Some(WgMessage(client, s.pc.packet))
    else Some(Ack(s.pc.context))
  }

  /** All messages written in a run, in order. */
  function Log(client: nat, s: W.Queues, es: seq<W.Event>): seq<Message>
    requires W.IsRun(s, es)
    decreases |es|
  {
    if es == [] then []
    else
      var finished, rest := Finished(client, s, es[0]), Log(client, W.Step(s, es[0]), es[1..]);
      if finished.Some? then [finished.value] + rest else rest
  }

  function OkOf(m: Message): seq<nat> { if m.code == Response(ResponseOk) then [m.contextId] else [] }

  /** The contexts that are answered with Ok. */
  function OkContexts(ms: seq<Message>): seq<nat> {
    if ms == [] then [] else OkOf(ms[0]) + OkContexts(ms[1..])
  }

  function PacketOf(m: Message): seq<seq<byte>> { if m.code == Op(WireGuard) then [m.arg] else [] }

  /** The packets of the WireGuard messages. */
  function Packets(ms: seq<Message>): seq<seq<byte>> {
    if ms == [] then [] else PacketOf(ms[0]) + Packets(ms[1..])
  }

  lemma Prepended(m: Message, rest: seq<Message>)
    ensures OkContexts([m] + rest) == OkOf(m) + OkContexts(rest)
    ensures Packets([m] + rest) == PacketOf(m) + Packets(rest)
  {
    assert ([m] + rest)[1..] == rest;
  }

  lemma Regroup<T>(a: seq<T>, b: seq<T>, c: seq<T>)
    ensures a + b + c == a + (b + c)
  {
  }

  lemma FinishedIsSent(client: nat, s: W.Queues, e: W.Event)
    requires W.Enabled(s, e)
    ensures var finished := Finished(client, s, e);
            && W.Step(s, e).sentOks == s.sentOks + (if finished.Some? then OkOf(finished.value) else [])
            && W.Step(s, e).sentPackets == s.sentPackets + (if finished.Some? then PacketOf(finished.value) else [])
  {
  }

  /** The log is what the writer sent, acknowledgements and packets each in order. */
  lemma {:induction false} LogIsSent(client: nat, s: W.Queues, es: seq<W.Event>)
    requires W.IsRun(s, es)
    ensures W.Run(s, es).sentOks == s.sentOks + OkContexts(Log(client, s, es))
    ensures W.Run(s, es).sentPackets == s.sentPackets + Packets(Log(client, s, es))
    decreases |es|
  {
    if es != [] {
      var s', finished := W.Step(s, es[0]), Finished(client, s, es[0]);
      var rest := Log(client, s', es[1..]);
      FinishedIsSent(client, s, es[0]);
      LogIsSent(client, s', es[1..]);
      if finished.Some? {
        Prepended(finished.value, rest);
        Regroup(s.sentOks, OkOf(finished.value), OkContexts(rest));
        Regroup(s.sentPackets, PacketOf(finished.value), Packets(rest));
      }
    }
  }

  /** A message of a log is a packet, or an acknowledgement. */
  predicate IsSent(client: nat, m: Message) {
    m == Ack(m.contextId) || m == WgMessage(client, m.arg)
  }

  lemma {:induction false} LogMessages(client: nat, s: W.Queues, es: seq<W.Event>)
    requires W.IsRun(s, es)
    ensures forall i :: 0 <= i < |Log(client, s, es)| ==> IsSent(client, Log(client, s, es)[i])
    decreases |es|
  {
    if es != [] {
      LogMessages(client, W.Step(s, es[0]), es[1..]);
    }
  }

  lemma {:induction false} AckedContext(ms: seq<Message>, i: nat)
    requires i < |ms| && ms[i].code == Response(ResponseOk)
    ensures ms[i].contextId in OkContexts(ms)
  {
    if i > 0 {
      AckedContext(ms[1..], i - 1);
    }
  }

  // ------------------------------------------------------------------ what is decoded

  function Bytes(k: Codec, m: Message): seq<byte> {
    if SendBytes(k, m).Some? then SendBytes(k, m).value else []
  }

  /** The wire after the messages were written. */
  function WireBytes(k: Codec, ms: seq<Message>): seq<byte> {
    if ms == [] then [] else Bytes(k, ms[0]) + WireBytes(k, ms[1..])
  }

  /** Messages with at most 65535 bytes of argument, which the peer accepts. */
  function Short(ms: seq<Message>): seq<Message> {
    if ms == [] then []
    else if |ms[0].arg| <= U16_MAX then [ms[0]] + Short(ms[1..])
    else Short(ms[1..])
  }

  function ShortPackets(packets: seq<seq<byte>>): seq<seq<byte>> {
    if packets == [] then []
    else if |packets[0]| <= U16_MAX then [packets[0]] + ShortPackets(packets[1..])
    else ShortPackets(packets[1..])
  }

  /** Less than the whole of a message: what a write in progress, or one that failed,
      has put on the wire so far. */
  predicate IsPart(k: Codec, part: seq<byte>, m: Message) {
    m.contextId < U32_LIMIT && (part < Bytes(k, m) || part == [])
  }

  lemma PartIsSilent(k: Codec, part: seq<byte>, m: Message)
    requires CodecOk(k) && IsPart(k, part, m)
    ensures RecvAll(k, part) == []
  {
    if part != [] && |part| >= 8 {
      var header := Header(m.contextId, 4 + |m.arg|);
      assert ValidHeader(header);
      assert part[..8] == Bytes(k, m)[..8] == k.headerBytes(header);
    }
  }

  lemma MessageDecodes(k: Codec, m: Message, tail: seq<byte>)
    requires CodecOk(k) && Decodable(k, m)
    ensures RecvAll(k, Bytes(k, m) + tail) == if |m.arg| <= U16_MAX then [m] + RecvAll(k, tail) else RecvAll(k, tail)
  {
    if SendBytes(k, m).Some? {
      SendRecv(k, m, tail);
    } else {
      assert [] + tail == tail;
    }
  }

  lemma {:induction false} WireDecodes(k: Codec, ms: seq<Message>, part: seq<byte>, m: Message)
    requires CodecOk(k) && IsPart(k, part, m)
    requires forall i :: 0 <= i < |ms| ==> Decodable(k, ms[i])
    ensures RecvAll(k, WireBytes(k, ms) + part) == Short(ms)
  {
    if ms == [] {
      PartIsSilent(k, part, m);
      assert WireBytes(k, ms) + part == part;
    } else {
      WireDecodes(k, ms[1..], part, m);
      Regroup(Bytes(k, ms[0]), WireBytes(k, ms[1..]), part);
      MessageDecodes(k, ms[0], WireBytes(k, ms[1..]) + part);
    }
  }

  predicate AllSent(client: nat, ms: seq<Message>) {
    forall i :: 0 <= i < |ms| ==> IsSent(client, ms[i])
  }

  lemma {:induction false} ShortKeepsOks(client: nat, ms: seq<Message>)
    requires AllSent(client, ms)
    ensures OkContexts(Short(ms)) == OkContexts(ms)
  {
    if ms != [] {
      assert IsSent(client, ms[0]);
      ShortKeepsOks(client, ms[1..]);
      Prepended(ms[0], Short(ms[1..]));
    }
  }

  lemma {:induction false} ShortKeepsPackets(client: nat, ms: seq<Message>)
    requires AllSent(client, ms)
    ensures Packets(Short(ms)) == ShortPackets(Packets(ms))
  {
    if ms != [] {
      var m, rest := ms[0], ms[1..];
      assert IsSent(client, m);
      ShortKeepsPackets(client, rest);
      Prepended(m, Short(rest));
      if m.code == Op(WireGuard) {
        assert Packets(ms)[0] == m.arg && Packets(ms)[1..] == Packets(rest);
      } else {
        assert Packets(ms) == Packets(rest);
      }
    }
  }

  // ---------------------------------------------------------------------- end to end

  lemma LogDecodable(k: Codec, client: nat, es: seq<W.Event>)
    requires W.IsRun(W.EMPTY, es) && Decodable(k, WgMessage(client, []))
    requires forall context :: context in W.Ops(es) ==> Decodable(k, Ack(context))
    ensures forall i :: 0 <= i < |Log(client, W.EMPTY, es)| ==> Decodable(k, Log(client, W.EMPTY, es)[i])
  {
    var s, log := W.Run(W.EMPTY, es), Log(client, W.EMPTY, es);
    LogIsSent(client, W.EMPTY, es);
    LogMessages(client, W.EMPTY, es);
    W.EveryInterleaving(es);
    forall i | 0 <= i < |log| ensures Decodable(k, log[i]) {
      assert IsSent(client, log[i]);
      if log[i] == Ack(log[i].contextId) {
        AckedContext(log, i);
        assert log[i].contextId in s.sentOks;
        assert log[i].contextId in W.Ops(es);
      }
    }
  }

  lemma {:induction false} LogEndsFrom(client: nat, s: W.Queues, es: seq<W.Event>, i: nat)
    requires W.IsRun(s, es) && i <= |es|
    requires forall j :: i <= j < |es| ==> !es[j].WriteDone?
    ensures W.IsRun(s, es[..i]) && Log(client, s, es) == Log(client, s, es[..i])
    decreases |es|
  {
    if es != [] {
      var i' := if i == 0 then 0 else i - 1;
      assert forall j :: i' <= j < |es| - 1 ==> es[1..][j] == es[j + 1];
      LogEndsFrom(client, W.Step(s, es[0]), es[1..], i');
      if i > 0 { assert es[..i][1..] == es[1..][..i - 1]; }
    }
  }

  /** In every run, what the writer has put on the wire when a write fails, and the part
      of the message that failed, is all it ever puts there. */
  lemma FailureEndsLog(client: nat, es: seq<W.Event>, i: nat)
    requires W.IsRun(W.EMPTY, es) && i < |es| && es[i].WriteFails?
    ensures W.IsRun(W.EMPTY, es[..i]) && Log(client, W.EMPTY, es) == Log(client, W.EMPTY, es[..i])
  {
    W.FailureEndsWriter(es, i);
    LogEndsFrom(client, W.EMPTY, es, i);
  }

  /** What the relay decodes of everything written in a run, and of any part of one more
      message: the messages of the log with acceptable length, in the order in which
      they were written. Of these, the Ok responses are all acknowledgements sent, and
      the WireGuard messages all acceptable packets sent. */
  lemma RelayDecodesLog(k: Codec, client: nat, es: seq<W.Event>, part: seq<byte>, m: Message)
    requires CodecOk(k) && W.IsRun(W.EMPTY, es) && IsPart(k, part, m)
    requires Decodable(k, WgMessage(client, []))
    requires forall context :: context in W.Ops(es) ==> Decodable(k, Ack(context))
    ensures var s, log := W.Run(W.EMPTY, es), Log(client, W.EMPTY, es);
            var decoded := RecvAll(k, WireBytes(k, log) + part);
            && decoded == Short(log)
            && OkContexts(decoded) == s.sentOks
            && Packets(decoded) == ShortPackets(s.sentPackets)
  {
    var log := Log(client, W.EMPTY, es);
    LogDecodable(k, client, es);
    LogIsSent(client, W.EMPTY, es);
    LogMessages(client, W.EMPTY, es);
    WireDecodes(k, log, part, m);
    ShortKeepsOks(client, log);
    ShortKeepsPackets(client, log);
    assert [] + OkContexts(log) == OkContexts(log) && [] + Packets(log) == Packets(log);
  }

  /** The relay sends any frames; the receiver, the packet senders and the writer
      interleave in any way. At every moment the Ok responses that the relay has decoded
      are acknowledgements of a prefix of the operations delivered, in the order of
      their frames, and the packets it has decoded are a prefix of those accepted, less
      the unacceptably long. Once everything was received and the writer is idle, both
      are complete. */
  lemma OperationsAcknowledged(k: Codec, client: nat, fs: seq<Frame>, es: seq<W.Event>, part: seq<byte>, m: Message)
    requires CodecOk(k) && AllFrames(fs) && W.IsRun(W.EMPTY, es) && IsPart(k, part, m)
    requires W.Ops(es) <= AcksAndPackets(k, Wire(k, fs)).0
    requires Decodable(k, WgMessage(client, []))
    requires forall context :: context in W.Ops(es) ==> Decodable(k, Ack(context))
    ensures var s, delivered := W.Run(W.EMPTY, es), OpContexts(DeliverAll(k, fs));
            var decoded := RecvAll(k, WireBytes(k, Log(client, W.EMPTY, es)) + part);
            && OkContexts(decoded) <= delivered
            && Packets(decoded) == ShortPackets(s.sentPackets) && s.sentPackets <= s.accepted
            && (W.Idle(s) && W.Ops(es) == delivered ==> OkContexts(decoded) == delivered)
            && (W.Idle(s) ==> Packets(decoded) == ShortPackets(s.accepted))
  {
    RelayDecodesLog(k, client, es, part, m);
    SentIsPrefix(es);
    OpsAcknowledgedInOrder(k, Wire(k, fs));
    DeliverableFramesArrive(k, fs);
  }

  lemma SentIsPrefix(es: seq<W.Event>)
    requires W.IsRun(W.EMPTY, es)
    ensures var s := W.Run(W.EMPTY, es);
            && s.sentOks <= W.Ops(es) && s.sentPackets <= s.accepted
            && (W.Idle(s) ==> s.sentOks == W.Ops(es) && s.sentPackets == s.accepted)
  {
    W.EveryInterleaving(es);
    W.RunKeeps(W.EMPTY, es);
    var s := W.Run(W.EMPTY, es);
    if W.Idle(s) {
      assert s.queuedOks == [] && W.OksInHand(s) == [];
      assert s.queuedPackets == [] && W.PacketInHand(s) == [];
    }
  }
}
