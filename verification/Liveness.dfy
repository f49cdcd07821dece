/** The liveness checker (rustlib/src/liveness.rs): the meaning of each operation
    on the checker's history, and the class whose queues implement it.

    Times are nanoseconds on the wake clock, which never runs backwards. The
    random payload bytes are parameters. */
module Liveness {
  import opened Wrappers

  const SECOND: nat := 1_000_000_000
  const MAX_ALLOWED_LOST_PROBES: nat := 4
  const MAX_ALLOWED_LOST_PROBES_AFTER_SLEEP: nat := 1
  const BUSY_PING_PERIOD: nat := SECOND
  const IDLE_PING_PERIOD: nat := 55 * SECOND
  const MIN_PROBE_LOST_PERIOD: nat := SECOND
  const MAX_PROBE_LOST_PERIOD: nat := 30 * SECOND
  const SLOW_PONG_WINDOW: nat := 100
  const ID_LIMIT: nat := 0x1_0000_0000

  const PROBE_PREFIX: seq<byte> := [
    0x6f, 0x62, 0x73, 0x2d, 0x70, 0x69, 0x6e, 0x67,
    0x75, 0xf8, 0xb9, 0x47, 0x4b, 0xe1, 0x61, 0xeb, 0x1c, 0xb1, 0xeb, 0x5e,
    0xc0, 0x6c, 0xde, 0xb7, 0xa1, 0x1b, 0x7b, 0xe5, 0x85, 0xca, 0x3a, 0x95]

  /** The IPv4 packets the checker tells apart. An echo message carries its 32-bit
      probe id split over the 16-bit identifier and sequence number fields. */
  datatype Packet =
    | EchoRequest(src: nat, dst: nat, id: nat, seq_: nat, payload: seq<byte>)
    | EchoReply(id: nat, seq_: nat, payload: seq<byte>)
    | Other

  const ICMP_OVERHEAD: nat := 28

  /** What the far end answers (RFC 792, Echo or Echo Reply Message). */
  function ReplyTo(request: Packet): Packet
    requires request.EchoRequest?
  {
    EchoReply(request.id, request.seq_, request.payload)
  }

  datatype SentPing = SentPing(sentAt: nat, idSeq: nat, payload: seq<byte>)

  datatype ReceivedPong = ReceivedPong(idSeq: nat, rtt: nat)

  /** The checker's abstract state. `accepted` is the whole history of accepted
      pongs since the checker was created or woken. */
  datatype Checker = Checker(
    nextIdSeq: nat,
    userTraffic: bool,
    isWaking: bool,
    outstanding: seq<SentPing>,
    lastPing: Option<nat>,
    accepted: seq<ReceivedPong>)

  const NEW_CHECKER := Checker(0, false, false, [], None, [])

  // ----------------------------------------------------------- the slow-pong window

  function Clamp(x: nat, lo: nat, hi: nat): nat { Min(Max(x, lo), hi) }

  /** The largest round-trip time among the pongs whose id is at most
      `SLOW_PONG_WINDOW` below `latest`. */
  function SlowestSince(pongs: seq<ReceivedPong>, latest: nat): nat {
    if pongs == [] then 0
    else Max(if latest - pongs[0].idSeq <= SLOW_PONG_WINDOW then pongs[0].rtt else 0, SlowestSince(pongs[1..], latest))
  }

  /** Twice the slowest round trip in the window, within fixed bounds. */
  function ProbeLostPeriod(c: Checker): (period: nat)
    ensures MIN_PROBE_LOST_PERIOD <= period <= MAX_PROBE_LOST_PERIOD
  {
    if c.accepted == [] then MIN_PROBE_LOST_PERIOD
    else Clamp(2 * SlowestSince(c.accepted, c.accepted[|c.accepted| - 1].idSeq), MIN_PROBE_LOST_PERIOD, MAX_PROBE_LOST_PERIOD)
  }

  // -------------------------------------------------------------------- loss counting

  /** How many of the probes are at least `period` old: a count over all of them. */
  function CountLost(pings: seq<SentPing>, period: nat, now: nat): (n: nat)
    ensures n <= |pings|
  {
    if pings == [] then 0
    else (if pings[0].sentAt + period <= now then 1 else 0) + CountLost(pings[1..], period, now)
  }

  function LostProbes(c: Checker, now: nat): nat {
    CountLost(c.outstanding, ProbeLostPeriod(c), now)
  }

  /** The earliest time after `now` at which another probe becomes that old. */
  function NextExpiry(pings: seq<SentPing>, period: nat, now: nat): (t: Option<nat>)
    ensures t.Some? ==> t.value > now
  {
    if pings == [] then None
    else
      var rest := NextExpiry(pings[1..], period, now);
      var expiry := pings[0].sentAt + period;
      if expiry <= now then rest
      else if rest.None? then Some(expiry)
      else Some(Min(expiry, rest.value))
  }

  // ----------------------------------------------------------------------- operations

  datatype PollResult = Dead | AliveUntil(time: nat) | SendPacket

  function MaxLost(c: Checker): nat {
    if c.isWaking then MAX_ALLOWED_LOST_PROBES_AFTER_SLEEP else MAX_ALLOWED_LOST_PROBES
  }

  function PingPeriod(c: Checker, lost: nat): nat {
    if c.userTraffic || lost != 0 then BUSY_PING_PERIOD else IDLE_PING_PERIOD
  }

  function SendPing(c: Checker, now: nat, payload: seq<byte>): Checker {
    c.(lastPing := Some(now), userTraffic := false, nextIdSeq := c.nextIdSeq + 1,
       outstanding := c.outstanding + [SentPing(now, c.nextIdSeq, payload)])
  }

  function Poll(c: Checker, now: nat, payload: seq<byte>): (Checker, PollResult) {
    var lost := LostProbes(c, now);
    var period := PingPeriod(c, lost);
    if lost > MaxLost(c) then (c, Dead)
    else if c.lastPing.None? || c.lastPing.value + period <= now then (SendPing(c, now, payload), SendPacket)
    else
      var next := NextExpiry(c.outstanding, ProbeLostPeriod(c), now);
      var soon := Min(now + BUSY_PING_PERIOD, c.lastPing.value + period);
      (c, AliveUntil(if next.Some? then Min(next.value, soon) else soon))
  }

  function SentTraffic(c: Checker, now: nat, payload: seq<byte>): (Checker, bool) {
    if c.lastPing.None? || now > c.lastPing.value + BUSY_PING_PERIOD
    then (SendPing(c, now, payload), true)
    else (c.(userTraffic := true), false)
  }

  function Wake(now: nat, payload: seq<byte>): Checker {
    SendPing(NEW_CHECKER.(isWaking := true), now, payload)
  }

  /** The first outstanding probe with this id and payload. */
  function Match(pings: seq<SentPing>, idSeq: nat, payload: seq<byte>): (i: Option<nat>)
    ensures i.Some? ==> i.value < |pings| && pings[i.value].idSeq == idSeq && pings[i.value].payload == payload
    ensures i.None? ==> forall k :: 0 <= k < |pings| ==> !(pings[k].idSeq == idSeq && pings[k].payload == payload)
    ensures i.Some? ==> forall k :: 0 <= k < i.value ==> !(pings[k].idSeq == idSeq && pings[k].payload == payload)
  {
    if pings == [] then None
    else if pings[0].idSeq == idSeq && pings[0].payload == payload then Some(0)
    else
      var rest := Match(pings[1..], idSeq, payload);
      if rest.None? then None else Some(rest.value + 1)
  }

  function MatchReply(c: Checker, packet: Packet): Option<nat> {
    if packet.EchoReply? && PROBE_PREFIX <= packet.payload
    then Match(c.outstanding, packet.id * 0x1_0000 + packet.seq_, packet.payload)
    else None
  }

  function RoundTrip(sentAt: nat, now: nat): nat {
    if sentAt <= now then now - sentAt else 0
  }

  /** An accepted pong settles its probe and every older one. */
  function Settle(c: Checker, i: nat, rtt: nat): Checker
    requires i < |c.outstanding|
  {
    c.(isWaking := false, outstanding := c.outstanding[i + 1..],
       accepted := c.accepted + [ReceivedPong(c.outstanding[i].idSeq, rtt)])
  }

  function Receive(c: Checker, now: nat, packet: Packet): (Checker, Option<nat>) {
    var i := MatchReply(c, packet);
    if i.None? then (c, None)
    else
      var rtt := RoundTrip(c.outstanding[i.value].sentAt, now);
      (Settle(c, i.value, rtt), Some(rtt))
  }

  // ------------------------------------------------------------------------ invariants

  /** Outstanding ids are the contiguous range just below `nextIdSeq`, their send
      times ascend, and every accepted id is below that range. */
  predicate Ordered(c: Checker) {
    && |c.outstanding| <= c.nextIdSeq
    && (forall i :: 0 <= i < |c.outstanding| ==>
          c.outstanding[i].idSeq == c.nextIdSeq - |c.outstanding| + i)
    && (forall i, j :: 0 <= i < j < |c.outstanding| ==> c.outstanding[i].sentAt <= c.outstanding[j].sentAt)
    && (c.lastPing.None? ==> c.nextIdSeq == 0)
    && (c.outstanding != [] ==> c.lastPing == Some(c.outstanding[|c.outstanding| - 1].sentAt))
    && (forall i :: 0 <= i < |c.accepted| ==> c.accepted[i].idSeq < c.nextIdSeq - |c.outstanding|)
    && (forall i, j :: 0 <= i < j < |c.accepted| ==> c.accepted[i].idSeq < c.accepted[j].idSeq)
    && (forall i :: 0 <= i < |c.outstanding| ==> PROBE_PREFIX <= c.outstanding[i].payload)
  }

  /** The clock is not behind the last ping. */
  predicate NotBefore(c: Checker, now: nat) {
    c.lastPing.Some? ==> c.lastPing.value <= now
  }

  lemma SendPingOrdered(c: Checker, now: nat, payload: seq<byte>)
    requires Ordered(c) && NotBefore(c, now) && PROBE_PREFIX <= payload
    ensures Ordered(SendPing(c, now, payload)) && NotBefore(SendPing(c, now, payload), now)
  {
    var c' := SendPing(c, now, payload);
    forall i, j | 0 <= i < j < |c'.outstanding|
      ensures c'.outstanding[i].sentAt <= c'.outstanding[j].sentAt
    {
      if j == |c.outstanding| && i < j - 1 {
        assert c.outstanding[i].sentAt <= c.outstanding[j - 1].sentAt;
      }
    }
  }

  lemma SettleOrdered(c: Checker, i: nat, rtt: nat)
    requires Ordered(c) && i < |c.outstanding|
    ensures Ordered(Settle(c, i, rtt))
  {
    var c' := Settle(c, i, rtt);
    forall k | 0 <= k < |c'.outstanding|
      ensures c'.outstanding[k].idSeq == c'.nextIdSeq - |c'.outstanding| + k && PROBE_PREFIX <= c'.outstanding[k].payload
    {
      assert c'.outstanding[k] == c.outstanding[i + 1 + k];
    }
    forall j, k | 0 <= j < k < |c'.outstanding| ensures c'.outstanding[j].sentAt <= c'.outstanding[k].sentAt {
      assert c'.outstanding[j] == c.outstanding[i + 1 + j] && c'.outstanding[k] == c.outstanding[i + 1 + k];
    }
    forall k | 0 <= k < |c'.accepted| ensures c'.accepted[k].idSeq < c'.nextIdSeq - |c'.outstanding| {
      assert k < |c.accepted| ==> c'.accepted[k] == c.accepted[k];
    }
  }

  lemma AcceptedBefore(c: Checker, i: nat)
    requires Ordered(c) && i < |c.outstanding|
    ensures forall k :: 0 <= k < |c.accepted| ==> c.accepted[k].idSeq < c.outstanding[i].idSeq
  {
  }

  lemma ReceiveOrdered(c: Checker, now: nat, packet: Packet)
    requires Ordered(c)
    ensures Ordered(Receive(c, now, packet).0)
  {
    var i := MatchReply(c, packet);
    if i.Some? { SettleOrdered(c, i.value, RoundTrip(c.outstanding[i.value].sentAt, now)); }
  }

  lemma IdSplits(idSeq: nat)
    ensures idSeq < ID_LIMIT ==> idSeq / 0x1_0000 < 0x1_0000
    ensures (idSeq / 0x1_0000) * 0x1_0000 + idSeq % 0x1_0000 == idSeq
  {
  }

  /** Ids tell the outstanding probes apart. */
  lemma MatchOfId(c: Checker, k: nat)
    requires Ordered(c) && k < |c.outstanding|
    ensures Match(c.outstanding, c.outstanding[k].idSeq, c.outstanding[k].payload) == Some(k)
  {
    var i := Match(c.outstanding, c.outstanding[k].idSeq, c.outstanding[k].payload);
    assert i.Some? && c.outstanding[i.value].idSeq == c.outstanding[k].idSeq;
  }

  lemma ReplyMatchesLast(c: Checker, now: nat, payload: seq<byte>)
    requires Ordered(c) && NotBefore(c, now) && c.nextIdSeq < ID_LIMIT && PROBE_PREFIX <= payload
    ensures MatchReply(SendPing(c, now, payload), EchoReply(c.nextIdSeq / 0x1_0000, c.nextIdSeq % 0x1_0000, payload))
         == Some(|c.outstanding|)
  {
    SendPingOrdered(c, now, payload);
    var c' := SendPing(c, now, payload);
    assert c'.outstanding[|c.outstanding|] == SentPing(now, c.nextIdSeq, payload);
    MatchOfId(c', |c.outstanding|);
    IdSplits(c.nextIdSeq);
  }

  // -------------------------------------------------------------- the monotonic deque

  predicate InWindow(accepted: seq<ReceivedPong>, p: ReceivedPong)
    requires accepted != []
  {
    accepted[|accepted| - 1].idSeq - p.idSeq <= SLOW_PONG_WINDOW
  }

  /** The deque holds pongs of the window, oldest first and ever faster, and every
      pong of the window is matched or outlasted by a pong at least as slow. */
  predicate IsDeque(deque: seq<ReceivedPong>, accepted: seq<ReceivedPong>) {
    && (accepted == [] ==> deque == [])
    && (forall i, j :: 0 <= i < j < |deque| ==> deque[i].idSeq < deque[j].idSeq && deque[i].rtt > deque[j].rtt)
    && (accepted != [] ==>
          && (forall i :: 0 <= i < |deque| ==> deque[i] in accepted && InWindow(accepted, deque[i]))
          && (forall k {:trigger Outlasted(deque, accepted[k])} ::
                0 <= k < |accepted| && InWindow(accepted, accepted[k]) ==> Outlasted(deque, accepted[k])))
  }

  predicate Outlasted(deque: seq<ReceivedPong>, p: ReceivedPong) {
    exists i :: 0 <= i < |deque| && deque[i].idSeq >= p.idSeq && deque[i].rtt >= p.rtt
  }

  lemma {:induction false} SlowestSinceBounds(pongs: seq<ReceivedPong>, latest: nat, bound: nat)
    ensures SlowestSince(pongs, latest) <= bound <==>
              forall k :: 0 <= k < |pongs| && latest - pongs[k].idSeq <= SLOW_PONG_WINDOW ==> pongs[k].rtt <= bound
  {
    if pongs != [] {
      SlowestSinceBounds(pongs[1..], latest, bound);
      assert pongs == [pongs[0]] + pongs[1..];
      assert forall k :: 0 < k < |pongs| ==> pongs[k] == pongs[1..][k - 1];
    }
  }

  /** The front of the deque is the naive maximum over the window. */
  lemma FrontIsSlowest(deque: seq<ReceivedPong>, accepted: seq<ReceivedPong>)
    requires accepted != [] && IsDeque(deque, accepted)
    ensures deque != [] && deque[0].rtt == SlowestSince(accepted, accepted[|accepted| - 1].idSeq)
  {
    var latest := accepted[|accepted| - 1].idSeq;
    assert InWindow(accepted, accepted[|accepted| - 1]);
    assert Outlasted(deque, accepted[|accepted| - 1]);
    forall k | 0 <= k < |accepted| && latest - accepted[k].idSeq <= SLOW_PONG_WINDOW
      ensures accepted[k].rtt <= deque[0].rtt
    {
      assert Outlasted(deque, accepted[k]);
      var i :| 0 <= i < |deque| && deque[i].idSeq >= accepted[k].idSeq && deque[i].rtt >= accepted[k].rtt;
    }
    SlowestSinceBounds(accepted, latest, deque[0].rtt);
    if deque[0].rtt > 0 {
      SlowestSinceBounds(accepted, latest, deque[0].rtt - 1);
      var k :| 0 <= k < |accepted| && accepted[k] == deque[0];
    }
  }

  /** The window reaches back 100 ids from the latest accepted pong and so spans 101:
      when pong 100 was accepted pong 0 still counts, although it answers none of the
      last 100 pings; with pong 101 it no longer does. */
  lemma WindowSpans101(slow: nat, fast: nat)
    requires fast < slow
    ensures SlowestSince([ReceivedPong(0, slow), ReceivedPong(100, fast)], 100) == slow
    ensures SlowestSince([ReceivedPong(0, slow), ReceivedPong(101, fast)], 101) == fast
    ensures IsDeque([ReceivedPong(0, slow), ReceivedPong(100, fast)], [ReceivedPong(0, slow), ReceivedPong(100, fast)])
    ensures !IsDeque([ReceivedPong(0, slow), ReceivedPong(101, fast)], [ReceivedPong(0, slow), ReceivedPong(101, fast)])
  {
    var kept := [ReceivedPong(0, slow), ReceivedPong(100, fast)];
    var dropped := [ReceivedPong(0, slow), ReceivedPong(101, fast)];
    assert kept[1..] == [ReceivedPong(100, fast)] && kept[1..][1..] == [];
    assert SlowestSince(kept[1..][1..], 100) == 0 && SlowestSince(kept[1..], 100) == fast;
    assert dropped[1..] == [ReceivedPong(101, fast)] && dropped[1..][1..] == [];
    assert SlowestSince(dropped[1..][1..], 101) == 0 && SlowestSince(dropped[1..], 101) == fast;
    assert Outlasted(kept, kept[0]) && Outlasted(kept, kept[1]);
    assert !InWindow(dropped, dropped[0]);
  }

  /** The deque is exactly the pongs of the window that no later pong matched in
      slowness. */
  lemma DequeIsSuffixMaxima(deque: seq<ReceivedPong>, accepted: seq<ReceivedPong>, k: nat)
    requires IsDeque(deque, accepted) && k < |accepted|
    requires forall i, j :: 0 <= i < j < |accepted| ==> accepted[i].idSeq < accepted[j].idSeq
    ensures accepted[k] in deque <==>
              && InWindow(accepted, accepted[k])
              && forall j :: k < j < |accepted| ==> accepted[j].rtt < accepted[k].rtt
  {
    if accepted[k] in deque {
      var i :| 0 <= i < |deque| && deque[i] == accepted[k];
      forall j | k < j < |accepted| ensures accepted[j].rtt < accepted[k].rtt {
        LaterIsFaster(deque, accepted, i, k, j);
      }
    } else if InWindow(accepted, accepted[k]) {
      var j := LaterIsSlower(deque, accepted, k);
    }
  }

  /** The deque holds only answers to the last 100 sent pings if and only if every
      older pong that the window still admits was matched in slowness by a later one. */
  lemma OnlyLastPingsIff(c: Checker, deque: seq<ReceivedPong>)
    requires Ordered(c) && c.accepted != [] && IsDeque(deque, c.accepted)
    ensures (forall i :: 0 <= i < |deque| ==> c.nextIdSeq - deque[i].idSeq <= SLOW_PONG_WINDOW)
       <==> (forall k :: 0 <= k < |c.accepted| && InWindow(c.accepted, c.accepted[k])
                         && c.nextIdSeq - c.accepted[k].idSeq > SLOW_PONG_WINDOW ==>
               exists j :: k < j < |c.accepted| && c.accepted[j].rtt >= c.accepted[k].rtt)
  {
    var pongs := c.accepted;
    forall k | 0 <= k < |pongs|
      ensures pongs[k] in deque <==> InWindow(pongs, pongs[k]) && forall j :: k < j < |pongs| ==> pongs[j].rtt < pongs[k].rtt
    {
      DequeIsSuffixMaxima(deque, pongs, k);
    }
    assert forall i :: 0 <= i < |deque| ==> deque[i] in pongs && InWindow(pongs, deque[i]);
  }

  lemma LaterIsFaster(deque: seq<ReceivedPong>, accepted: seq<ReceivedPong>, i: nat, k: nat, j: nat)
    requires IsDeque(deque, accepted) && i < |deque| && k < j < |accepted| && deque[i] == accepted[k]
    requires accepted[k].idSeq < accepted[j].idSeq
    ensures accepted[j].rtt < accepted[k].rtt
  {
    assert InWindow(accepted, deque[i]);
    assert Outlasted(deque, accepted[j]);
    var m :| 0 <= m < |deque| && deque[m].idSeq >= accepted[j].idSeq && deque[m].rtt >= accepted[j].rtt;
  }

  lemma LaterIsSlower(deque: seq<ReceivedPong>, accepted: seq<ReceivedPong>, k: nat) returns (j: nat)
    requires IsDeque(deque, accepted) && k < |accepted| && InWindow(accepted, accepted[k])
    requires forall i, j :: 0 <= i < j < |accepted| ==> accepted[i].idSeq < accepted[j].idSeq
    requires accepted[k] !in deque
    ensures k < j < |accepted| && accepted[j].rtt >= accepted[k].rtt
  {
    assert Outlasted(deque, accepted[k]);
    var m :| 0 <= m < |deque| && deque[m].idSeq >= accepted[k].idSeq && deque[m].rtt >= accepted[k].rtt;
    assert deque[m] in accepted;
    j :| 0 <= j < |accepted| && accepted[j] == deque[m];
  }

  // --------------------------------------------------------------------- the checker

  class LivenessChecker {
    const mtu: nat
    const srcIp: nat
    const dstIp: nat
    var nextIdSeq: nat
    var sentUserTrafficSinceLastPing: bool
    var isWaking: bool
    var outstandingPongs: seq<SentPing>
    var lastPingSentAt: Option<nat>
    var slowestPongs: seq<ReceivedPong>
    ghost var accepted: seq<ReceivedPong>

    ghost function View(): Checker
      reads this
    {
      Checker(nextIdSeq, sentUserTrafficSinceLastPing, isWaking, outstandingPongs, lastPingSentAt, accepted)
    }

    ghost predicate Valid()
      reads this
    {
      && ICMP_OVERHEAD + |PROBE_PREFIX| <= mtu
      && Ordered(View())
      && IsDeque(slowestPongs, accepted)
    }

    /** The packet carries the latest probe: its id, split over the two fields, and its
        payload, in a packet of the whole MTU between the tunnel's own addresses. */
    ghost predicate CarriesProbe(packet: Packet)
      reads this
    {
      && packet.EchoRequest? && packet.src == srcIp && packet.dst == dstIp
      && 28 + |packet.payload| == mtu
      && packet.id < 0x1_0000 && packet.seq_ < 0x1_0000
      && outstandingPongs != []
      && var probe := outstandingPongs[|outstandingPongs| - 1];
         probe.idSeq == packet.id * 0x1_0000 + packet.seq_ && probe.payload == packet.payload
    }

    constructor (mtu: nat, clientIp: nat, pingTargetIp: nat)
      requires ICMP_OVERHEAD + |PROBE_PREFIX| <= mtu
      ensures Valid() && View() == NEW_CHECKER
      ensures this.mtu == mtu && srcIp == clientIp && dstIp == pingTargetIp
    {
      this.mtu, srcIp, dstIp := mtu, clientIp, pingTargetIp;
      nextIdSeq, sentUserTrafficSinceLastPing, isWaking := 0, false, false;
      outstandingPongs, lastPingSentAt, slowestPongs, accepted := [], None, [], [];
    }

    method CurrentProbeLostPeriod() returns (period: nat)
      requires Valid()
      ensures period == ProbeLostPeriod(View())
    {
      if slowestPongs == [] {
        assert accepted == [] by { if accepted != [] { FrontIsSlowest(slowestPongs, accepted); } }
        return MIN_PROBE_LOST_PERIOD;
      }
      FrontIsSlowest(slowestPongs, accepted);
      period := Clamp(2 * slowestPongs[0].rtt, MIN_PROBE_LOST_PERIOD, MAX_PROBE_LOST_PERIOD);
    }

    /** Stops at the first probe that is not lost yet; because send times ascend,
        that is the count over the whole queue. */
    method LostProbeCountAndTimeOfNextLoss(now: nat) returns (lost: nat, next: Option<nat>)
      requires Valid()
      ensures lost == LostProbes(View(), now)
      ensures next == NextExpiry(outstandingPongs, ProbeLostPeriod(View()), now)
    {
      var period := CurrentProbeLostPeriod();
      for i := 0 to |outstandingPongs|
        invariant forall k :: 0 <= k < i ==> outstandingPongs[k].sentAt + period <= now
      {
        var expiresAt := outstandingPongs[i].sentAt + period;
        if expiresAt > now {
          CountSplit(outstandingPongs, period, now, i);
          return i, Some(expiresAt);
        }
      }
      CountSplit(outstandingPongs, period, now, |outstandingPongs|);
      return |outstandingPongs|, None;
    }

    method TransmitPing(now: nat, random: seq<byte>) returns (packet: Packet)
      requires Valid() && NotBefore(View(), now) && nextIdSeq < ID_LIMIT
      requires |random| == mtu - ICMP_OVERHEAD - |PROBE_PREFIX|
      modifies this
      ensures Valid() && NotBefore(View(), now)
      ensures View() == SendPing(old(View()), now, PROBE_PREFIX + random)
      ensures CarriesProbe(packet) && MatchReply(View(), ReplyTo(packet)) == Some(|outstandingPongs| - 1)
    {
      ReplyMatchesLast(View(), now, PROBE_PREFIX + random);
      IdSplits(nextIdSeq);
      var idSeq := nextIdSeq;
      var payload := PROBE_PREFIX + random;
      packet := EchoRequest(srcIp, dstIp, idSeq / 0x1_0000, idSeq % 0x1_0000, payload);
      QueuePing(now, payload);
    }

    /** What sending a probe does to the fields. */
    method QueuePing(now: nat, payload: seq<byte>)
      requires Valid() && NotBefore(View(), now) && PROBE_PREFIX <= payload
      modifies this
      ensures Valid() && NotBefore(View(), now) && View() == SendPing(old(View()), now, payload)
    {
      SendPingOrdered(View(), now, payload);
      lastPingSentAt := Some(now);
      sentUserTrafficSinceLastPing := false;
      outstandingPongs := outstandingPongs + [SentPing(now, nextIdSeq, payload)];
      nextIdSeq := nextIdSeq + 1;
      assert View() == SendPing(old(View()), now, payload);
    }

    method OnSentTraffic(now: nat, random: seq<byte>) returns (packet: Option<Packet>)
      requires Valid() && NotBefore(View(), now) && nextIdSeq < ID_LIMIT
      requires |random| == mtu - ICMP_OVERHEAD - |PROBE_PREFIX|
      modifies this
      ensures Valid() && NotBefore(View(), now)
      ensures (View(), packet.Some?) == SentTraffic(old(View()), now, PROBE_PREFIX + random)
      ensures packet.Some? ==> CarriesProbe(packet.value)
    {
      if lastPingSentAt.None? || now > lastPingSentAt.value + BUSY_PING_PERIOD {
        var p := TransmitPing(now, random);
        return Some(p);
      }
      sentUserTrafficSinceLastPing := true;
      return None;
    }

    method OnWake(now: nat, random: seq<byte>) returns (packet: Packet)
      requires Valid() && |random| == mtu - ICMP_OVERHEAD - |PROBE_PREFIX|
      modifies this
      ensures Valid() && NotBefore(View(), now)
      ensures View() == Wake(now, PROBE_PREFIX + random)
      ensures CarriesProbe(packet)
    {
      nextIdSeq, sentUserTrafficSinceLastPing, isWaking := 0, false, false;
      outstandingPongs, lastPingSentAt, slowestPongs, accepted := [], None, [], [];
      isWaking := true;
      packet := TransmitPing(now, random);
    }

    method OnPoll(now: nat, random: seq<byte>) returns (result: PollResult, packet: Option<Packet>)
      requires Valid() && NotBefore(View(), now) && nextIdSeq < ID_LIMIT
      requires |random| == mtu - ICMP_OVERHEAD - |PROBE_PREFIX|
      modifies this
      ensures Valid() && NotBefore(View(), now)
      ensures (View(), result) == Poll(old(View()), now, PROBE_PREFIX + random)
      ensures packet.Some? <==> result.SendPacket?
      ensures packet.Some? ==> CarriesProbe(packet.value)
    {
      packet := None;
      ghost var v := View();
      var lostProbes, nextProbeLoss := LostProbeCountAndTimeOfNextLoss(now);
      var maxLostProbes := if isWaking then MAX_ALLOWED_LOST_PROBES_AFTER_SLEEP else MAX_ALLOWED_LOST_PROBES;
      assert lostProbes == LostProbes(v, now) && maxLostProbes == MaxLost(v);
      if lostProbes > maxLostProbes {
        return Dead, None;
      }
      var pingPeriod := if sentUserTrafficSinceLastPing || lostProbes != 0 then BUSY_PING_PERIOD else IDLE_PING_PERIOD;
      assert pingPeriod == PingPeriod(v, lostProbes);
      if lastPingSentAt.None? || lastPingSentAt.value + pingPeriod <= now {
        var p := TransmitPing(now, random);
        return SendPacket, Some(p);
      }
      var nextPoll := now + BUSY_PING_PERIOD;
      if nextProbeLoss.Some? {
        nextPoll := Min(nextPoll, nextProbeLoss.value);
      }
      if lastPingSentAt.Some? {
        nextPoll := Min(nextPoll, lastPingSentAt.value + pingPeriod);
      }
      return AliveUntil(nextPoll), None;
    }

    method ProcessPotentialProbeResponse(now: nat, packet: Packet) returns (latency: Option<nat>)
      requires Valid()
      modifies this
      ensures Valid()
      ensures (View(), latency) == Receive(old(View()), now, packet)
    {
      if !packet.EchoReply? {
        return None;
      }
      var pongIdSeq := packet.id * 0x1_0000 + packet.seq_;
      if !(PROBE_PREFIX <= packet.payload) {
        return None;
      }
      var matched := FindPing(pongIdSeq, packet.payload);
      if matched.None? {
        return None;
      }
      var sentAt := outstandingPongs[matched.value].sentAt;
      var probeRtt := if now >= sentAt then now - sentAt else 0;
      SettlePong(matched.value, pongIdSeq, probeRtt);
      return Some(probeRtt);
    }

    /** What an expected response does to the queues. */
    method SettlePong(i: nat, idSeq: nat, rtt: nat)
      requires Valid() && i < |outstandingPongs| && outstandingPongs[i].idSeq == idSeq
      modifies this
      ensures Valid() && View() == Settle(old(View()), i, rtt)
    {
      SettleOrdered(View(), i, rtt);
      AcceptedBefore(View(), i);
      UpdateSlowestPongsList(idSeq, rtt);
      outstandingPongs := outstandingPongs[i + 1..];
      isWaking := false;
      assert View() == Settle(old(View()), i, rtt);
    }

    method FindPing(idSeq: nat, payload: seq<byte>) returns (matched: Option<nat>)
      ensures matched == Match(outstandingPongs, idSeq, payload)
    {
      for i := 0 to |outstandingPongs|
        invariant forall k :: 0 <= k < i ==>
                    !(outstandingPongs[k].idSeq == idSeq && outstandingPongs[k].payload == payload)
      {
        if outstandingPongs[i].payload == payload && outstandingPongs[i].idSeq == idSeq {
          return Some(i);
        }
      }
      return None;
    }

    method UpdateSlowestPongsList(idSeq: nat, rtt: nat)
      requires IsDeque(slowestPongs, accepted)
      requires forall i :: 0 <= i < |accepted| ==> accepted[i].idSeq < idSeq
      modifies this`slowestPongs, this`accepted
      ensures accepted == old(accepted) + [ReceivedPong(idSeq, rtt)]
      ensures IsDeque(slowestPongs, accepted)
    {
      ghost var before := slowestPongs;
      ghost var from, to := PopSlowestPongs(idSeq, rtt);
      DequePush(before, accepted, from, to, ReceivedPong(idSeq, rtt));
      slowestPongs := slowestPongs + [ReceivedPong(idSeq, rtt)];
      accepted := accepted + [ReceivedPong(idSeq, rtt)];
    }

    /** The two popping loops: what has left the window at the front, and what is no
        slower than the new pong at the back. */
    method PopSlowestPongs(idSeq: nat, rtt: nat) returns (ghost from: nat, ghost to: nat)
      modifies this`slowestPongs
      ensures from <= to <= |old(slowestPongs)| && slowestPongs == old(slowestPongs)[from..to]
      ensures forall i :: 0 <= i < from ==> idSeq - old(slowestPongs)[i].idSeq > SLOW_PONG_WINDOW
      ensures from < |old(slowestPongs)| ==> idSeq - old(slowestPongs)[from].idSeq <= SLOW_PONG_WINDOW
      ensures forall i :: to <= i < |old(slowestPongs)| ==> old(slowestPongs)[i].rtt <= rtt
      ensures from < to ==> old(slowestPongs)[to - 1].rtt > rtt
    {
      ghost var before := slowestPongs;
      from := 0;
      while slowestPongs != [] && idSeq - slowestPongs[0].idSeq > SLOW_PONG_WINDOW
        invariant from <= |before| && slowestPongs == before[from..]
        invariant forall i :: 0 <= i < from ==> idSeq - before[i].idSeq > SLOW_PONG_WINDOW
        decreases |slowestPongs|
      {
        slowestPongs := slowestPongs[1..];
        from := from + 1;
      }
      to := |before|;
      while slowestPongs != [] && slowestPongs[|slowestPongs| - 1].rtt <= rtt
        invariant from <= to <= |before| && slowestPongs == before[from..to]
        invariant forall i :: to <= i < |before| ==> before[i].rtt <= rtt
        decreases |slowestPongs|
      {
        slowestPongs := slowestPongs[..|slowestPongs| - 1];
        to := to - 1;
      }
    }
  }

  /** Dropping the too old at the front and the no slower at the back, and then
      pushing the new pong, keeps the deque. */
  lemma DequePush(deque: seq<ReceivedPong>, accepted: seq<ReceivedPong>, from: nat, to: nat, p: ReceivedPong)
    requires IsDeque(deque, accepted) && from <= to <= |deque|
    requires forall i :: 0 <= i < |accepted| ==> accepted[i].idSeq < p.idSeq
    requires forall i :: 0 <= i < from ==> p.idSeq - deque[i].idSeq > SLOW_PONG_WINDOW
    requires from < |deque| ==> p.idSeq - deque[from].idSeq <= SLOW_PONG_WINDOW
    requires forall i :: to <= i < |deque| ==> deque[i].rtt <= p.rtt
    requires from < to ==> deque[to - 1].rtt > p.rtt
    ensures IsDeque(deque[from..to] + [p], accepted + [p])
  {
    var deque', accepted' := deque[from..to] + [p], accepted + [p];
    DequePushOrder(deque, accepted, from, to, p);
    forall i | 0 <= i < |deque'|
      ensures deque'[i] in accepted' && InWindow(accepted', deque'[i])
    {
      if i < to - from {
        assert deque'[i] == deque[from + i];
        assert deque[from + i] in accepted;
        assert deque[from].idSeq <= deque[from + i].idSeq;
      }
    }
    forall k | 0 <= k < |accepted'| && InWindow(accepted', accepted'[k])
      ensures Outlasted(deque', accepted'[k])
    {
      DequePushOutlasts(deque, accepted, from, to, p, k);
    }
  }

  lemma DequePushOrder(deque: seq<ReceivedPong>, accepted: seq<ReceivedPong>, from: nat, to: nat, p: ReceivedPong)
    requires IsDeque(deque, accepted) && from <= to <= |deque|
    requires forall i :: 0 <= i < |accepted| ==> accepted[i].idSeq < p.idSeq
    requires from < to ==> deque[to - 1].rtt > p.rtt
    ensures var d := deque[from..to] + [p];
            forall i, j :: 0 <= i < j < |d| ==> d[i].idSeq < d[j].idSeq && d[i].rtt > d[j].rtt
  {
    var d := deque[from..to] + [p];
    forall i, j | 0 <= i < j < |d| ensures d[i].idSeq < d[j].idSeq && d[i].rtt > d[j].rtt {
      assert d[i] == deque[from + i];
      if j < to - from {
        assert d[j] == deque[from + j];
      } else {
        assert deque[from + i] in accepted;
        assert from + i == to - 1 || deque[from + i].rtt > deque[to - 1].rtt;
      }
    }
  }

  lemma DequePushOutlasts(deque: seq<ReceivedPong>, accepted: seq<ReceivedPong>, from: nat, to: nat, p: ReceivedPong, k: nat)
    requires IsDeque(deque, accepted) && from <= to <= |deque|
    requires forall i :: 0 <= i < |accepted| ==> accepted[i].idSeq < p.idSeq
    requires forall i :: 0 <= i < from ==> p.idSeq - deque[i].idSeq > SLOW_PONG_WINDOW
    requires forall i :: to <= i < |deque| ==> deque[i].rtt <= p.rtt
    requires k <= |accepted| && InWindow(accepted + [p], (accepted + [p])[k])
    ensures Outlasted(deque[from..to] + [p], (accepted + [p])[k])
  {
    var d := deque[from..to] + [p];
    assert d[to - from] == p;
    if k < |accepted| {
      var q := accepted[k];
      assert accepted[|accepted| - 1].idSeq < p.idSeq;
      assert InWindow(accepted, q);
      assert Outlasted(deque, q);
      var i :| 0 <= i < |deque| && deque[i].idSeq >= q.idSeq && deque[i].rtt >= q.rtt;
      if from <= i < to {
        assert d[i - from] == deque[i];
      } else {
        assert d[to - from].rtt >= q.rtt;
      }
    }
  }

  /** With ascending send times, the lost probes are a prefix of the queue. */
  lemma {:induction false} CountSplit(pings: seq<SentPing>, period: nat, now: nat, i: nat)
    requires i <= |pings|
    requires forall j, k :: 0 <= j < k < |pings| ==> pings[j].sentAt <= pings[k].sentAt
    requires forall k :: 0 <= k < i ==> pings[k].sentAt + period <= now
    requires i < |pings| ==> pings[i].sentAt + period > now
    ensures CountLost(pings, period, now) == i
    ensures NextExpiry(pings, period, now) == if i < |pings| then Some(pings[i].sentAt + period) else None
  {
    if pings != [] {
      var rest := pings[1..];
      if i > 0 {
        assert forall k :: 0 <= k < |rest| ==> rest[k] == pings[k + 1];
        CountSplit(rest, period, now, i - 1);
      } else {
        assert forall k :: 0 <= k < |rest| ==> rest[k] == pings[k + 1];
        CountSplit(rest, period, now, 0);
      }
    }
  }
}
