/** The shared queues and the writer task of the TCP-TLS relay connection
    (rustlib/src/quicwg.rs, lines 838-891, 932-938 and 969): every interleaving of
    the receiver, the packet senders and the writer. */
module RelayWriter {
  import opened Wrappers

  const MAX_QUEUED_PACKETS: nat := 1000

  type Context = nat
  type Packet = seq<byte>

  /** Where the writer task is. `Stopped` keeps what a failed write leaves unsent. */
  datatype Pc =
    | Taking
    | WritingPacket(packet: Packet)
    | WritingOk(context: Context)
    | Parked
    | Stopped(lostOks: seq<Context>, lostPacket: seq<Packet>)

  /** `version` counts the notifications of the watch channel, `seen` is the one the
      writer saw last. The last four fields record history. */
  datatype Queues = Queues(
    queuedOks: seq<Context>,
    queuedPackets: seq<Packet>,
    oksInProgress: seq<Context>,
    pc: Pc,
    version: nat,
    seen: nat,
    received: seq<Context>,
    accepted: seq<Packet>,
    sentOks: seq<Context>,
    sentPackets: seq<Packet>)

  const EMPTY := Queues([], [], [], Taking, 0, 0, [], [], [], [])

  datatype Event =
    | OpReceived(context: Context)
    | PacketOffered(packet: Packet)
    | Take
    | WriteDone
    | WriteFails
    | ChangeSeen

  predicate Enabled(s: Queues, e: Event) {
    match e
    case OpReceived(_) => true
    case PacketOffered(_) => true
    case Take => s.pc.Taking?
    case WriteDone => s.pc.WritingPacket? || s.pc.WritingOk?
    case WriteFails => s.pc.WritingPacket? || s.pc.WritingOk?
    case ChangeSeen => s.pc.Parked? && s.version != s.seen
  }

  /** After the queues were looked at: write the packet, else the next
      acknowledgement in progress, else wait for a change. */
  function NextOk(s: Queues, otherwise: Pc): Queues {
    if s.oksInProgress == [] then s.(pc := otherwise)
    else s.(pc := WritingOk(s.oksInProgress[0]), oksInProgress := s.oksInProgress[1..])
  }

  function Step(s: Queues, e: Event): Queues
    requires Enabled(s, e)
  {
    match e
    case OpReceived(context) =>
      s.(queuedOks := s.queuedOks + [context], version := s.version + 1, received := s.received + [context])
    case PacketOffered(packet) =>
      if |s.queuedPackets| < MAX_QUEUED_PACKETS
      then s.(queuedPackets := s.queuedPackets + [packet], version := s.version + 1, accepted := s.accepted + [packet])
      else s.(version := s.version + 1)
    case Take =>
      if s.queuedOks != [] then
        NextOk(s.(queuedOks := s.oksInProgress, oksInProgress := s.queuedOks, version := s.version + 1), Parked)
      else if s.queuedPackets != [] then
        s.(queuedPackets := s.queuedPackets[1..], version := s.version + 1, pc := WritingPacket(s.queuedPackets[0]))
      else NextOk(s, Parked)
    case WriteDone =>
      if s.pc.WritingPacket? then s.(sentPackets := s.sentPackets + [s.pc.packet], pc := Taking)
      else NextOk(s.(sentOks := s.sentOks + [s.pc.context]), Taking)
    case WriteFails => s.(pc := Stopped(OksInHand(s), PacketInHand(s)), oksInProgress := [])
    case ChangeSeen => s.(seen := s.version, pc := Taking)
  }

  /** Acknowledgements taken off the queue but not written. */
  function OksInHand(s: Queues): seq<Context> {
    match s.pc
    case WritingOk(context) => [context] + s.oksInProgress
    case Stopped(lostOks, _) => lostOks + s.oksInProgress
    case _ => s.oksInProgress
  }

  function PacketInHand(s: Queues): seq<Packet> {
    match s.pc
    case WritingPacket(packet) => [packet]
    case Stopped(_, lostPacket) => lostPacket
    case _ => []
  }

  predicate Inv(s: Queues) {
    && s.sentOks + OksInHand(s) + s.queuedOks == s.received
    && s.sentPackets + PacketInHand(s) + s.queuedPackets == s.accepted
    && |s.queuedPackets| <= MAX_QUEUED_PACKETS
    && s.seen <= s.version
    && (!s.pc.WritingOk? ==> s.oksInProgress == [])
    && (s.pc.Parked? && (s.queuedOks != [] || s.queuedPackets != []) ==> s.seen < s.version)
  }

  predicate IsRun(s: Queues, es: seq<Event>)
    decreases |es|
  {
    es == [] || (Enabled(s, es[0]) && IsRun(Step(s, es[0]), es[1..]))
  }

  function Run(s: Queues, es: seq<Event>): Queues
    requires IsRun(s, es)
    decreases |es|
  {
    if es == [] then s else Run(Step(s, es[0]), es[1..])
  }

  lemma OfferKeeps(s: Queues, e: Event)
    requires Inv(s) && (e.OpReceived? || e.PacketOffered?)
    ensures Inv(Step(s, e))
  {
    var s' := Step(s, e);
    if e.OpReceived? {
      assert s'.sentOks + OksInHand(s') + s'.queuedOks == (s.sentOks + OksInHand(s) + s.queuedOks) + [e.context];
    } else if |s.queuedPackets| < MAX_QUEUED_PACKETS {
      assert s'.sentPackets + PacketInHand(s') + s'.queuedPackets
          == (s.sentPackets + PacketInHand(s) + s.queuedPackets) + [e.packet];
    }
  }

  lemma TakeKeeps(s: Queues)
    requires Inv(s) && s.pc.Taking?
    ensures Inv(Step(s, Take))
  {
    var s' := Step(s, Take);
    if s.queuedOks != [] {
      assert OksInHand(s') == s.queuedOks;
    } else if s.queuedPackets != [] {
      assert s'.sentPackets + PacketInHand(s') + s'.queuedPackets == s.sentPackets + PacketInHand(s) + s.queuedPackets;
    }
  }

  lemma WriteKeeps(s: Queues)
    requires Inv(s) && (s.pc.WritingPacket? || s.pc.WritingOk?)
    ensures Inv(Step(s, WriteDone)) && Inv(Step(s, WriteFails))
  {
    var done, failed := Step(s, WriteDone), Step(s, WriteFails);
    assert done.sentOks + OksInHand(done) == s.sentOks + OksInHand(s);
    assert done.sentPackets + PacketInHand(done) == s.sentPackets + PacketInHand(s);
    assert OksInHand(failed) == OksInHand(s);
  }

  lemma StepKeeps(s: Queues, e: Event)
    requires Inv(s) && Enabled(s, e)
    ensures Inv(Step(s, e))
  {
    match e
    case OpReceived(_) => OfferKeeps(s, e);
    case PacketOffered(_) => OfferKeeps(s, e);
    case Take => TakeKeeps(s);
    case WriteDone => WriteKeeps(s);
    case WriteFails => WriteKeeps(s);
    case ChangeSeen =>
  }

  lemma {:induction false} RunKeeps(s: Queues, es: seq<Event>)
    requires Inv(s) && IsRun(s, es)
    ensures Inv(Run(s, es))
    decreases |es|
  {
    if es != [] {
      StepKeeps(s, es[0]);
      RunKeeps(Step(s, es[0]), es[1..]);
    }
  }

  /** The operations received in a run, in order, and the packets offered. */
  function Ops(es: seq<Event>): seq<Context> {
    if es == [] then [] else (if es[0].OpReceived? then [es[0].context] else []) + Ops(es[1..])
  }

  lemma {:induction false} ReceivedAreOps(s: Queues, es: seq<Event>)
    requires IsRun(s, es)
    ensures Run(s, es).received == s.received + Ops(es)
    decreases |es|
  {
    if es != [] {
      ReceivedAreOps(Step(s, es[0]), es[1..]);
    }
  }

  /** The packets offered in a run while fewer than a thousand were waiting, in order. */
  function OfferedInRoom(s: Queues, es: seq<Event>): seq<Packet>
    requires IsRun(s, es)
    decreases |es|
  {
    if es == [] then []
    else
      (if es[0].PacketOffered? && |s.queuedPackets| < 1000 then [es[0].packet] else [])
      + OfferedInRoom(Step(s, es[0]), es[1..])
  }

  lemma {:induction false} AcceptedAreOffered(s: Queues, es: seq<Event>)
    requires IsRun(s, es)
    ensures Run(s, es).accepted == s.accepted + OfferedInRoom(s, es)
    decreases |es|
  {
    if es != [] {
      AcceptedAreOffered(Step(s, es[0]), es[1..]);
    }
  }

  /** In every interleaving: the acknowledgements written, in hand and queued are
      the received operations in order; likewise the packets offered while there was
      room, of which at most 1000 wait; and the writer does not sleep on work it was not
      told of. */
  lemma EveryInterleaving(es: seq<Event>)
    requires IsRun(EMPTY, es)
    ensures var s := Run(EMPTY, es);
            && s.sentOks + OksInHand(s) + s.queuedOks == Ops(es)
            && s.sentPackets + PacketInHand(s) + s.queuedPackets == s.accepted == OfferedInRoom(EMPTY, es)
            && |s.queuedPackets| <= 1000
            && (s.pc.Parked? && (s.queuedOks != [] || s.queuedPackets != []) ==> Enabled(s, ChangeSeen))
  {
    RunKeeps(EMPTY, es);
    ReceivedAreOps(EMPTY, es);
    AcceptedAreOffered(EMPTY, es);
  }

  /** A packet is offered in vain exactly when 1000 are waiting. */
  lemma DroppedIffFull(s: Queues, packet: Packet)
    requires Inv(s)
    ensures Step(s, PacketOffered(packet)).accepted == s.accepted <==> |s.queuedPackets| == 1000
  {
    assert |s.accepted + [packet]| == |s.accepted| + 1;
  }

  /** Acknowledgements go first: a packet is taken only when none is queued. */
  lemma OksBeforePackets(s: Queues, e: Event)
    requires Inv(s) && Enabled(s, e)
    requires Step(s, e).pc.WritingPacket? && !s.pc.WritingPacket?
    ensures s.queuedOks == [] && OksInHand(s) == []
    ensures s.sentOks == s.received
  {
  }

  // ------------------------------------------------------------- a failed write is final

  predicate FromOthers(e: Event) { e.OpReceived? || e.PacketOffered? }

  lemma {:induction false} StoppedStays(s: Queues, es: seq<Event>)
    requires s.pc.Stopped? && IsRun(s, es)
    ensures forall j :: 0 <= j < |es| ==> FromOthers(es[j])
    ensures Run(s, es).sentOks == s.sentOks && Run(s, es).sentPackets == s.sentPackets
    decreases |es|
  {
    if es != [] {
      StoppedStays(Step(s, es[0]), es[1..]);
      assert forall j :: 0 < j < |es| ==> es[j] == es[1..][j - 1];
    }
  }

  lemma {:induction false} FailureEndsFrom(s: Queues, es: seq<Event>, i: nat)
    requires IsRun(s, es) && i < |es| && es[i].WriteFails?
    ensures IsRun(s, es[..i])
    ensures forall j :: i < j < |es| ==> FromOthers(es[j])
    ensures Run(s, es).sentOks == Run(s, es[..i]).sentOks && Run(s, es).sentPackets == Run(s, es[..i]).sentPackets
    decreases |es|
  {
    if i == 0 {
      StoppedStays(Step(s, es[0]), es[1..]);
      assert forall j :: 0 < j < |es| ==> es[j] == es[1..][j - 1];
    } else {
      FailureEndsFrom(Step(s, es[0]), es[1..], i - 1);
      assert es[..i][1..] == es[1..][..i - 1];
      assert forall j :: 0 < j < |es| ==> es[j] == es[1..][j - 1];
    }
  }

  /** In every run the writer does nothing more after a write failed: what follows are
      the receiver's operations and the senders' packets, and what was sent is what had
      been sent before that write. */
  lemma FailureEndsWriter(es: seq<Event>, i: nat)
    requires IsRun(EMPTY, es) && i < |es| && es[i].WriteFails?
    ensures IsRun(EMPTY, es[..i])
    ensures forall j :: i < j < |es| ==> es[j].OpReceived? || es[j].PacketOffered?
    ensures Run(EMPTY, es).sentOks == Run(EMPTY, es[..i]).sentOks
    ensures Run(EMPTY, es).sentPackets == Run(EMPTY, es[..i]).sentPackets
  {
    FailureEndsFrom(EMPTY, es, i);
    assert forall j :: i < j < |es| ==> FromOthers(es[j]);
  }

  // ------------------------------------------------------------------- the queues drain

  /** The writer's own next step, when nothing fails. */
  function WriterEvent(s: Queues): Event {
    match s.pc
    case Taking => Take
    case Parked => ChangeSeen
    case _ => WriteDone
  }

  predicate Idle(s: Queues) {
    s.pc.Parked? && s.version == s.seen
  }

  function Work(s: Queues): nat {
    10 * (|s.queuedOks| + |s.oksInProgress| + |s.queuedPackets|)
    + (match s.pc
       case Taking => if s.version != s.seen then 4 else 2
       case Parked => if s.version != s.seen then 3 else 1
       case _ => 9)
  }

  /** Until it is idle the writer has a step to take, and each brings it closer. */
  lemma WriterAdvances(s: Queues)
    requires Inv(s) && !s.pc.Stopped? && !Idle(s)
    ensures Enabled(s, WriterEvent(s))
    ensures Work(Step(s, WriterEvent(s))) < Work(s)
    ensures !Step(s, WriterEvent(s)).pc.Stopped?
  {
  }

  /** Left to itself, the writer sends everything that was received and accepted. */
  lemma {:induction false} QueuesDrain(s: Queues) returns (es: seq<Event>)
    requires Inv(s) && !s.pc.Stopped?
    ensures forall i :: 0 <= i < |es| ==> es[i].Take? || es[i].WriteDone? || es[i].ChangeSeen?
    ensures IsRun(s, es) && Idle(Run(s, es))
    ensures Run(s, es).sentOks == s.received && Run(s, es).sentPackets == s.accepted
    decreases Work(s)
  {
    if Idle(s) {
      es := [];
    } else {
      var e := WriterEvent(s);
      WriterAdvances(s);
      StepKeeps(s, e);
      var rest := QueuesDrain(Step(s, e));
      es := [e] + rest;
      assert es[1..] == rest;
    }
  }

  // -------------------------------------------------------------------- the shared object

  /** The traffic state behind the watch channel, and the writer's local variables.
      Each method is one atomic action. */
  class TrafficState {
    var queuedOks: seq<Context>
    var queuedPackets: seq<Packet>
    var oksInProgress: seq<Context>
    var pc: Pc
    var version: nat
    var seen: nat
    ghost var received: seq<Context>
    ghost var accepted: seq<Packet>
    ghost var sentOks: seq<Context>
    ghost var sentPackets: seq<Packet>

    ghost function View(): Queues
      reads this
    {
      Queues(queuedOks, queuedPackets, oksInProgress, pc, version, seen, received, accepted, sentOks, sentPackets)
    }

    constructor ()
      ensures View() == EMPTY && Inv(View())
    {
      queuedOks, queuedPackets, oksInProgress, pc := [], [], [], Taking;
      version, seen := 0, 0;
      received, accepted, sentOks, sentPackets := [], [], [], [];
    }

    method QueueOk(context: Context)
      requires Inv(View())
      modifies this
      ensures View() == Step(old(View()), OpReceived(context)) && Inv(View())
    {
      StepKeeps(View(), OpReceived(context));
      queuedOks := queuedOks + [context];
      version := version + 1;
      received := received + [context];
    }

    method SendWgMessage(packet: Packet)
      requires Inv(View())
      modifies this
      ensures View() == Step(old(View()), PacketOffered(packet)) && Inv(View())
    {
      StepKeeps(View(), PacketOffered(packet));
      if |queuedPackets| < MAX_QUEUED_PACKETS {
        queuedPackets := queuedPackets + [packet];
        accepted := accepted + [packet];
      }
      version := version + 1;
    }

    /** `send_if_modified`, and the choice of what to write. */
    method TakeWork()
      requires Inv(View()) && pc.Taking?
      modifies this
      ensures View() == Step(old(View()), Take) && Inv(View())
    {
      StepKeeps(View(), Take);
      var packetInProgress: Option<Packet> := None;
      if queuedOks != [] {
        queuedOks, oksInProgress := oksInProgress, queuedOks;
        version := version + 1;
      } else if queuedPackets != [] {
        packetInProgress := Some(queuedPackets[0]);
        queuedPackets := queuedPackets[1..];
        version := version + 1;
      }
      if packetInProgress.Some? {
        pc := WritingPacket(packetInProgress.value);
      } else if oksInProgress != [] {
        pc := WritingOk(oksInProgress[0]);
        oksInProgress := oksInProgress[1..];
      } else {
        pc := Parked;
      }
    }

    /** A write returned: `ok` says whether it succeeded. */
    method Written(ok: bool)
      requires Inv(View()) && (pc.WritingPacket? || pc.WritingOk?)
      modifies this
      ensures View() == Step(old(View()), if ok then WriteDone else WriteFails) && Inv(View())
    {
      StepKeeps(View(), if ok then WriteDone else WriteFails);
      if !ok {
        pc := if pc.WritingOk? then Stopped([pc.context] + oksInProgress, []) else Stopped(oksInProgress, [pc.packet]);
        oksInProgress := [];
      } else if pc.WritingPacket? {
        sentPackets := sentPackets + [pc.packet];
        pc := Taking;
      } else {
        sentOks := sentOks + [pc.context];
        if oksInProgress != [] {
          pc := WritingOk(oksInProgress[0]);
          oksInProgress := oksInProgress[1..];
        } else {
          pc := Taking;
        }
      }
    }

    /** `changed()` returns at once or when a newer version is published. */
    method Changed()
      requires Inv(View()) && pc.Parked? && version != seen
      modifies this
      ensures View() == Step(old(View()), ChangeSeen) && Inv(View())
    {
      StepKeeps(View(), ChangeSeen);
      seen := version;
      pc := Taking;
    }
  }
}
