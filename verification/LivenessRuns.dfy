/** What the liveness checker guarantees over whole runs of the connection that
    drives it: user traffic, received packets, waking, and a poll at each time the
    previous poll returned (rustlib/src/quicwg.rs, lines 383-401 and 513-522). */
module LivenessRuns {
  import opened Liveness
  import opened Wrappers

  // ------------------------------------------------------------ one poll at a time

  lemma CountIsPrefix(c: Checker, now: nat) returns (i: nat)
    requires Ordered(c)
    ensures i == LostProbes(c, now) <= |c.outstanding|
    ensures forall k :: 0 <= k < |c.outstanding| ==>
              (c.outstanding[k].sentAt + ProbeLostPeriod(c) <= now <==> k < i)
    ensures NextExpiry(c.outstanding, ProbeLostPeriod(c), now)
         == if i < |c.outstanding| then Some(c.outstanding[i].sentAt + ProbeLostPeriod(c)) else None
  {
    var period := ProbeLostPeriod(c);
    i := 0;
    while i < |c.outstanding| && c.outstanding[i].sentAt + period <= now
      invariant i <= |c.outstanding|
      invariant forall k :: 0 <= k < i ==> c.outstanding[k].sentAt + period <= now
    {
      i := i + 1;
    }
    CountSplit(c.outstanding, period, now, i);
    forall k | i <= k < |c.outstanding| ensures c.outstanding[k].sentAt + period > now {
      assert c.outstanding[i].sentAt <= c.outstanding[k].sentAt;
    }
  }

  /** A poll says Dead exactly when more than four probes, or after a wake-up more than
      one, have been outstanding for the whole loss period. */
  lemma DeadIff(c: Checker, now: nat, payload: seq<byte>)
    requires Ordered(c)
    ensures Poll(c, now, payload).1 == Dead <==>
              && |c.outstanding| > (if c.isWaking then 1 else 4)
              && c.outstanding[if c.isWaking then 1 else 4].sentAt + ProbeLostPeriod(c) <= now
  {
    var i := CountIsPrefix(c, now);
  }

  /** The loss period is the least time of at least one second that is at least twice
      every round trip of the window, but no more than thirty seconds. */
  lemma LossPeriodIs(c: Checker)
    ensures var period, pongs := ProbeLostPeriod(c), c.accepted;
            && 1_000_000_000 <= period <= 30_000_000_000
            && (forall k :: 0 <= k < |pongs| && pongs[|pongs| - 1].idSeq - pongs[k].idSeq <= 100 ==>
                  2 * pongs[k].rtt <= period || period == 30_000_000_000)
            && (period == 1_000_000_000
                || exists k :: 0 <= k < |pongs| && pongs[|pongs| - 1].idSeq - pongs[k].idSeq <= 100
                               && period <= 2 * pongs[k].rtt)
  {
    var pongs := c.accepted;
    if pongs != [] {
      var latest := pongs[|pongs| - 1].idSeq;
      var slowest := SlowestSince(pongs, latest);
      SlowestSinceBounds(pongs, latest, slowest);
      if slowest > 0 { SlowestSinceBounds(pongs, latest, slowest - 1); }
    }
  }

  /** The time an AliveUntil answer names is in the future, at most a second away,
      and polling any earlier, without an intervening event, would still say
      AliveUntil. */
  lemma AliveUntilSound(c: Checker, now: nat, earlier: nat, payload: seq<byte>)
    requires Ordered(c) && Poll(c, now, payload).1.AliveUntil?
    requires now <= earlier < Poll(c, now, payload).1.time
    ensures now < Poll(c, now, payload).1.time <= now + SECOND
    ensures Poll(c, earlier, payload).1.AliveUntil?
  {
    var i := CountIsPrefix(c, now);
    var j := CountIsPrefix(c, earlier);
    var pings, period := c.outstanding, ProbeLostPeriod(c);
    assert i < |pings| ==> pings[i].sentAt + period > earlier;
    assert j < |pings| ==> pings[j].sentAt + period > now;
  }

  /** Nor is the answer earlier than need be: short of the full second, it is the time
      at which a probe is lost or the next one is due. */
  lemma AliveUntilExact(c: Checker, now: nat, payload: seq<byte>)
    requires Ordered(c) && Poll(c, now, payload).1.AliveUntil?
    requires Poll(c, now, payload).1.time < now + SECOND
    ensures var t := Poll(c, now, payload).1.time;
            LostProbes(c, t) > LostProbes(c, now) || Poll(c, t, payload).1 == SendPacket
  {
    var t := Poll(c, now, payload).1.time;
    var i := CountIsPrefix(c, now);
    var j := CountIsPrefix(c, t);
    var pings, period := c.outstanding, ProbeLostPeriod(c);
    assert i < |pings| && pings[i].sentAt + period <= t ==> i < j;
    assert forall k :: 0 <= k < i ==> pings[k].sentAt + period <= t;
  }

  lemma AliveUntilFuture(c: Checker, now: nat, payload: seq<byte>)
    requires Poll(c, now, payload).1.AliveUntil?
    ensures now < Poll(c, now, payload).1.time <= now + SECOND
    ensures c.lastPing.Some? && Poll(c, now, payload).1.time <= c.lastPing.value + PingPeriod(c, LostProbes(c, now))
  {
  }

  /** Within a second of a poll that sent a probe, no poll sends another: the
      driver's loop sends at most one probe per wake-up. */
  lemma SendsOncePerWakeUp(c: Checker, now: nat, payload: seq<byte>, later: nat, payload': seq<byte>)
    requires Poll(c, now, payload).1 == SendPacket
    requires now <= later < now + SECOND
    ensures Poll(Poll(c, now, payload).0, later, payload').1 != SendPacket
  {
  }

  // ---------------------------------------------------------------------- the driver

  /** The connection: the checker, the time of the latest event, and the time at
      which the next poll is due. */
  datatype Conn =
    | Alive(c: Checker, clock: nat, pollAt: nat)
    | TunnelDead(clock: nat)

  datatype Event =
    | Traffic(at: nat, payload: seq<byte>)
    | Packet(at: nat, packet: Liveness.Packet)
    | WakeUp(at: nat, payload: seq<byte>)
    | PollDue(payload: seq<byte>)

  function Start(now: nat): Conn { Alive(NEW_CHECKER, now, now) }

  /** The driver's loop around `poll`, taking no time. */
  function Drive(c: Checker, now: nat, payload: seq<byte>): Conn {
    var (c', result) := Poll(c, now, payload);
    match result
    case Dead => TunnelDead(now)
    case AliveUntil(t) => Alive(c', now, t)
    case SendPacket =>
      SendsOncePerWakeUp(c, now, payload, now, payload);
      var (c'', result') := Poll(c', now, payload);
      match result'
      case AliveUntil(t) => Alive(c'', now, t)
      case _ => TunnelDead(now)
  }

  /** The same loop when time passes in it: the clock reads `now` at the first poll and
      `later`, less than a second after, at the second. */
  function DriveThrough(c: Checker, now: nat, later: nat, payload: seq<byte>): Conn
    requires now <= later < now + SECOND
  {
    var (c', result) := Poll(c, now, payload);
    match result
    case Dead => TunnelDead(now)
    case AliveUntil(t) => Alive(c', now, t)
    case SendPacket => Settled(c', later, payload)
  }

  /** A poll that does not ask for another. */
  function Settled(c: Checker, now: nat, payload: seq<byte>): Conn {
    var (c', result) := Poll(c, now, payload);
    if result.AliveUntil? then Alive(c', now, result.time) else TunnelDead(now)
  }

  lemma DriveTakesNoTime(c: Checker, now: nat, payload: seq<byte>)
    ensures DriveThrough(c, now, now, payload) == Drive(c, now, payload)
  {
    if Poll(c, now, payload).1 == SendPacket { SendsOncePerWakeUp(c, now, payload, now, payload); }
  }

  /** After a probe to send, the loop goes on from the checker's new state, and ends
      with the next poll. */
  lemma DriveUnfolds(c: Checker, now: nat, payload: seq<byte>)
    ensures var (c', result) := Poll(c, now, payload);
            match result
            case Dead => Drive(c, now, payload) == TunnelDead(now)
            case AliveUntil(t) => Drive(c, now, payload) == Alive(c', now, t)
            case SendPacket => Poll(c', now, payload).1 != SendPacket && Drive(c, now, payload) == Drive(c', now, payload)
  {
    if Poll(c, now, payload).1 == SendPacket {
      SendsOncePerWakeUp(c, now, payload, now, payload);
    }
  }

  /** Where the loop stands before the (sent+1)-st poll. */
  predicate LoopAt(before: Checker, now: nat, payload: seq<byte>, sent: nat, c: Checker) {
    (sent == 0 && c == before) || (sent == 1 && Poll(before, now, payload) == (c, SendPacket))
  }

  lemma PollSettles(before: Checker, now: nat, later: nat, payload: seq<byte>, sent: nat, c: Checker)
    requires now <= later < now + SECOND && LoopAt(before, now, payload, sent, c)
    ensures var at := if sent == 0 then now else later;
            var (c', result) := Poll(c, at, payload);
            match result
            case Dead => DriveThrough(before, now, later, payload) == TunnelDead(at)
            case AliveUntil(t) => DriveThrough(before, now, later, payload) == Alive(c', at, t)
            case SendPacket => LoopAt(before, now, payload, sent + 1, c')
    ensures Poll(c, if sent == 0 then now else later, payload).1 != SendPacket ==>
              (sent == 1 <==> Poll(before, now, payload).1 == SendPacket)
  {
    if sent == 1 { SendsOncePerWakeUp(before, now, payload, later, payload); }
  }

  /** The loop itself, on the checker object, which reads the clock at each poll: `now`
      at the first and `later` at the second. It polls until the answer is not a probe
      to send, and if less than a second passes it sends at most one. */
  method PollUntilSettled(checker: LivenessChecker, now: nat, later: nat, random: seq<byte>)
    returns (next: Option<nat>, sent: nat)
    requires checker.Valid() && NotBefore(checker.View(), now) && checker.nextIdSeq + 1 < ID_LIMIT
    requires |random| == checker.mtu - ICMP_OVERHEAD - |PROBE_PREFIX|
    requires now <= later < now + SECOND
    modifies checker
    ensures checker.Valid()
    ensures sent == if Poll(old(checker.View()), now, PROBE_PREFIX + random).1 == SendPacket then 1 else 0
    ensures DriveThrough(old(checker.View()), now, later, PROBE_PREFIX + random)
         == var at := if sent == 0 then now else later;
            if next.Some? then Alive(checker.View(), at, next.value) else TunnelDead(at)
  {
    sent := 0;
    var clock := now;
    ghost var payload := PROBE_PREFIX + random;
    ghost var before := checker.View();
    while true
      invariant checker.Valid() && NotBefore(checker.View(), clock) && sent <= 1
      invariant clock == if sent == 0 then now else later
      invariant checker.nextIdSeq == before.nextIdSeq + sent
      invariant LoopAt(before, now, payload, sent, checker.View())
      decreases 1 - sent
    {
      ghost var c := checker.View();
      PollSettles(before, now, later, payload, sent, c);
      var result, packet := checker.OnPoll(clock, random);
      assert (checker.View(), result) == Poll(c, clock, payload);
      match result
      case Dead => return None, sent;
      case AliveUntil(t) => return Some(t), sent;
      case SendPacket =>
        sent := sent + 1;
        clock := later;
    }
  }

  /** Time does not run backwards, and does not pass the due poll. */
  predicate Enabled(s: Conn, e: Event) {
    match (s, e)
    case (TunnelDead(_), _) => false
    case (Alive(c, clock, pollAt), Traffic(at, payload)) => clock <= at <= pollAt && PROBE_PREFIX <= payload
    case (Alive(c, clock, pollAt), Packet(at, packet)) => clock <= at <= pollAt
    case (Alive(c, clock, pollAt), WakeUp(at, payload)) => clock <= at <= pollAt && PROBE_PREFIX <= payload
    case (Alive(c, clock, pollAt), PollDue(payload)) => PROBE_PREFIX <= payload
  }

  function Step(s: Conn, e: Event): Conn
    requires Enabled(s, e)
  {
    match e
    case Traffic(at, payload) => s.(c := SentTraffic(s.c, at, payload).0, clock := at)
    case Packet(at, packet) => s.(c := Receive(s.c, at, packet).0, clock := at)
    case WakeUp(at, payload) => s.(c := Wake(at, payload), clock := at)
    case PollDue(payload) => Drive(s.c, s.pollAt, payload)
  }

  predicate IsRun(s: Conn, es: seq<Event>)
    decreases |es|
  {
    es == [] || (Enabled(s, es[0]) && IsRun(Step(s, es[0]), es[1..]))
  }

  function Run(s: Conn, es: seq<Event>): Conn
    requires IsRun(s, es)
    decreases |es|
  {
    if es == [] then s else Run(Step(s, es[0]), es[1..])
  }

  // ---------------------------------------------------- what every reachable state keeps

  predicate Inv(s: Conn) {
    s.Alive? ==>
      && Ordered(s.c)
      && NotBefore(s.c, s.clock)
      && s.clock <= s.pollAt <= s.clock + SECOND
      && (s.c.lastPing.Some? ==> s.pollAt <= s.c.lastPing.value + IDLE_PING_PERIOD)
  }

  lemma DriveInv(c: Checker, now: nat, payload: seq<byte>)
    requires Ordered(c) && NotBefore(c, now) && PROBE_PREFIX <= payload
    ensures Inv(Drive(c, now, payload))
    ensures Drive(c, now, payload).Alive? ==> Drive(c, now, payload).pollAt > now
  {
    SendPingOrdered(c, now, payload);
    var (c', result) := Poll(c, now, payload);
    match result
    case Dead =>
    case AliveUntil(_) => AliveUntilFuture(c, now, payload);
    case SendPacket =>
      if Poll(c', now, payload).1.AliveUntil? { AliveUntilFuture(c', now, payload); }
  }

  lemma StepInv(s: Conn, e: Event)
    requires Inv(s) && Enabled(s, e)
    ensures Inv(Step(s, e))
  {
    match e
    case Traffic(at, payload) =>
      SendPingOrdered(s.c, at, payload);
    case Packet(at, packet) =>
      ReceiveOrdered(s.c, at, packet);
    case WakeUp(at, payload) =>
      SendPingOrdered(NEW_CHECKER.(isWaking := true), at, payload);
    case PollDue(payload) =>
      DriveInv(s.c, s.pollAt, payload);
  }

  lemma {:induction false} RunInv(s: Conn, es: seq<Event>)
    requires Inv(s) && IsRun(s, es)
    ensures Inv(Run(s, es))
    decreases |es|
  {
    if es != [] {
      StepInv(s, es[0]);
      RunInv(Step(s, es[0]), es[1..]);
    }
  }

  // ------------------------------------------------------------------ failure detection

  /** No pong is accepted and the device does not wake. */
  predicate Silent(s: Conn, es: seq<Event>)
    requires IsRun(s, es)
    decreases |es|
  {
    es != [] ==>
      && !es[0].WakeUp?
      && (es[0].Packet? ==> MatchReply(s.c, es[0].packet).None?)
      && Silent(Step(s, es[0]), es[1..])
  }

  /** During a silence the (k+1)-st probe leaves no later than `from` plus k - 1
      seconds, because the first one is lost by `from`. */
  predicate SilentInv(s: Conn, from: nat, lost: nat, period: nat) {
    s.Alive? ==>
      var pings := s.c.outstanding;
      && Inv(s)
      && MaxLost(s.c) == lost >= 1
      && ProbeLostPeriod(s.c) == period
      && (pings == [] ==> s.pollAt + period <= from)
      && (pings == [] && s.c.lastPing.Some? ==> s.c.lastPing.value + IDLE_PING_PERIOD + period <= from)
      && (pings != [] ==> pings[0].sentAt + period <= from)
      && (forall j :: 1 <= j < |pings| && j <= lost ==> pings[j].sentAt <= from + (j - 1) * SECOND)
      && (0 < |pings| <= lost ==>
            s.pollAt <= from || (|pings| >= 2 && s.pollAt <= pings[|pings| - 1].sentAt + SECOND))
      && (|pings| > lost ==> s.pollAt <= from + (lost - 1) * SECOND + period)
  }

  lemma SilentBound(s: Conn, from: nat, lost: nat, period: nat)
    requires SilentInv(s, from, lost, period) && s.Alive?
    ensures s.pollAt <= from + (lost - 1) * SECOND + period
  {
    var pings := s.c.outstanding;
    if 2 <= |pings| <= lost {
      assert pings[|pings| - 1].sentAt <= from + (|pings| - 2) * SECOND;
    }
  }

  lemma SilentTraffic(s: Conn, from: nat, lost: nat, period: nat, at: nat, payload: seq<byte>)
    requires SilentInv(s, from, lost, period) && Enabled(s, Traffic(at, payload))
    ensures SilentInv(Step(s, Traffic(at, payload)), from, lost, period)
  {
    StepInv(s, Traffic(at, payload));
    SilentBound(s, from, lost, period);
    var m := |s.c.outstanding|;
    var s' := Step(s, Traffic(at, payload));
    if SentTraffic(s.c, at, payload).1 && 1 <= m <= lost {
      assert s.pollAt <= from;
    }
  }

  /** The driver leaves the checker as it was, or with one more probe, in a state
      that another poll would find alive. */
  lemma DriveAnswers(c: Checker, now: nat, payload: seq<byte>)
    ensures var s := Drive(c, now, payload);
            && s.clock == now
            && (s.Alive? ==>
                  && (s.c == c || s.c == SendPing(c, now, payload))
                  && Poll(s.c, now, payload).1 == AliveUntil(s.pollAt))
  {
  }

  lemma SilentPings(s: Conn, from: nat, lost: nat, period: nat, payload: seq<byte>)
    requires SilentInv(s, from, lost, period) && s.Alive?
    ensures var pings := SendPing(s.c, s.pollAt, payload).outstanding;
            && pings[0].sentAt + period <= from
            && (forall j :: 1 <= j < |pings| && j <= lost ==> pings[j].sentAt <= from + (j - 1) * SECOND)
  {
    var m := |s.c.outstanding|;
    if 1 <= m <= lost && s.pollAt > from {
      assert s.c.outstanding[m - 1].sentAt <= from + (m - 2) * SECOND;
    }
  }

  lemma SilentNext(c: Checker, now: nat, t: nat, from: nat, lost: nat, period: nat, payload: seq<byte>)
    requires Ordered(c) && MaxLost(c) == lost >= 1 && ProbeLostPeriod(c) == period
    requires Poll(c, now, payload).1 == AliveUntil(t) && c.outstanding != []
    requires c.outstanding[0].sentAt + period <= from
    requires forall j :: 1 <= j < |c.outstanding| && j <= lost ==> c.outstanding[j].sentAt <= from + (j - 1) * SECOND
    ensures |c.outstanding| <= lost ==>
              t <= from || (|c.outstanding| >= 2 && t <= c.outstanding[|c.outstanding| - 1].sentAt + SECOND)
    ensures |c.outstanding| > lost ==> t <= from + (lost - 1) * SECOND + period
  {
    var pings := c.outstanding;
    var i := CountIsPrefix(c, now);
    AliveUntilFuture(c, now, payload);
    assert i <= lost;
    if i == 0 {
      assert t <= pings[0].sentAt + period;
    } else {
      assert pings[0].sentAt + period <= now;
      assert now < pings[|pings| - 1].sentAt + SECOND;
    }
    if |pings| > lost {
      assert t <= pings[i].sentAt + period;
      assert i < lost ==> pings[i].sentAt <= pings[lost].sentAt;
    }
  }

  lemma SilentPoll(s: Conn, from: nat, lost: nat, period: nat, payload: seq<byte>)
    requires SilentInv(s, from, lost, period) && s.Alive? && PROBE_PREFIX <= payload
    ensures SilentInv(Drive(s.c, s.pollAt, payload), from, lost, period)
  {
    DriveInv(s.c, s.pollAt, payload);
    DriveAnswers(s.c, s.pollAt, payload);
    SilentPings(s, from, lost, period, payload);
    var s' := Drive(s.c, s.pollAt, payload);
    if s'.Alive? {
      if s'.c.outstanding == [] {
        AliveUntilFuture(s'.c, s.pollAt, payload);
      } else {
        SilentNext(s'.c, s.pollAt, s'.pollAt, from, lost, period, payload);
      }
    }
  }

  lemma {:induction false} SilentRun(s: Conn, es: seq<Event>, from: nat, lost: nat, period: nat)
    requires SilentInv(s, from, lost, period) && IsRun(s, es) && Silent(s, es)
    requires s.TunnelDead? ==> s.clock <= from + (lost - 1) * SECOND + period
    requires lost >= 1
    ensures SilentInv(Run(s, es), from, lost, period)
    ensures Run(s, es).clock <= from + (lost - 1) * SECOND + period
    ensures Run(s, es).Alive? ==> Run(s, es).pollAt <= from + (lost - 1) * SECOND + period
    decreases |es|
  {
    if s.Alive? { SilentBound(s, from, lost, period); }
    if es != [] {
      match es[0] {
        case Traffic(at, payload) => SilentTraffic(s, from, lost, period, at, payload);
        case Packet(at, packet) =>
        case PollDue(payload) => SilentPoll(s, from, lost, period, payload);
      }
      SilentRun(Step(s, es[0]), es[1..], from, lost, period);
    }
  }

  function PollsIn(es: seq<Event>): nat {
    if es == [] then 0 else (if es[0].PollDue? then 1 else 0) + PollsIn(es[1..])
  }

  /** Every poll that does not say Dead moves the next one into the future, so a
      run cannot stay below a time bound for more polls than there are instants. */
  lemma {:induction false} PollsAdvance(s: Conn, es: seq<Event>)
    requires Inv(s) && s.Alive? && IsRun(s, es) && Run(s, es).Alive?
    ensures Run(s, es).pollAt >= s.pollAt + PollsIn(es)
    decreases |es|
  {
    if es != [] {
      StepInv(s, es[0]);
      if es[0].PollDue? { DriveInv(s.c, s.pollAt, es[0].payload); }
      if Step(s, es[0]).Alive? {
        PollsAdvance(Step(s, es[0]), es[1..]);
      }
    }
  }

  function IdleBound(c: Checker): nat
    requires c.lastPing.Some?
  {
    c.lastPing.value + 55 * SECOND + 2 * ProbeLostPeriod(c) + if c.isWaking then 0 else 3 * SECOND
  }

  /** Detection bound. Take any run from a new connection, and any silent
      continuation. If pongs stop, the tunnel is declared dead no later than the
      idle period, twice the loss period and three seconds after the last probe
      sent before the silence: all the while the next poll is due by then, the
      clock cannot pass that time, and polling on means death. */
  lemma DetectionBound(start: nat, before: seq<Event>, silence: seq<Event>)
    requires IsRun(Start(start), before)
    requires Run(Start(start), before).Alive? && Run(Start(start), before).c.lastPing.Some?
    requires IsRun(Run(Start(start), before), silence) && Silent(Run(Start(start), before), silence)
    ensures var s := Run(Start(start), before);
            var s' := Run(s, silence);
            && s'.clock <= IdleBound(s.c)
            && IdleBound(s.c) <= s.c.lastPing.value + 58 * SECOND + 2 * ProbeLostPeriod(s.c)
            && (s'.Alive? ==> s'.pollAt <= IdleBound(s.c))
            && (PollsIn(silence) > IdleBound(s.c) - s.pollAt ==> s'.TunnelDead?)
  {
    var s := Run(Start(start), before);
    RunInv(Start(start), before);
    var period := ProbeLostPeriod(s.c);
    var from := s.c.lastPing.value + IDLE_PING_PERIOD + period;
    SilentFromAnyState(s, from);
    SilentRun(s, silence, from, MaxLost(s.c), period);
    if Run(s, silence).Alive? { PollsAdvance(s, silence); }
  }

  lemma SilentFromAnyState(s: Conn, from: nat)
    requires Inv(s) && s.Alive? && s.c.lastPing.Some?
    requires from == s.c.lastPing.value + IDLE_PING_PERIOD + ProbeLostPeriod(s.c)
    ensures SilentInv(s, from, MaxLost(s.c), ProbeLostPeriod(s.c))
  {
    var pings := s.c.outstanding;
    assert forall j :: 0 <= j < |pings| ==> pings[j].sentAt <= pings[|pings| - 1].sentAt;
  }

  /** After a wake-up that no pong answers, the tunnel is declared dead within two
      seconds. */
  lemma WakeDetectionBound(start: nat, before: seq<Event>, at: nat, payload: seq<byte>, silence: seq<Event>)
    requires IsRun(Start(start), before)
    requires Enabled(Run(Start(start), before), WakeUp(at, payload))
    requires IsRun(Step(Run(Start(start), before), WakeUp(at, payload)), silence)
    requires Silent(Step(Run(Start(start), before), WakeUp(at, payload)), silence)
    ensures var s := Step(Run(Start(start), before), WakeUp(at, payload));
            var s' := Run(s, silence);
            && s'.clock <= at + 2 * SECOND
            && (s'.Alive? ==> s'.pollAt <= at + 2 * SECOND)
            && (PollsIn(silence) > at + 2 * SECOND - s.pollAt ==> s'.TunnelDead?)
  {
    RunInv(Start(start), before);
    var s := Step(Run(Start(start), before), WakeUp(at, payload));
    StepInv(Run(Start(start), before), WakeUp(at, payload));
    assert s.c.outstanding == [SentPing(at, 0, payload)];
    SilentRun(s, silence, at + SECOND, 1, SECOND);
    if Run(s, silence).Alive? { PollsAdvance(s, silence); }
  }

  // ------------------------------------------------------------------ no false alarms

  /** At every poll no outstanding probe is as old as the loss period. */
  predicate Healthy(s: Conn, es: seq<Event>)
    requires IsRun(s, es)
    decreases |es|
  {
    es != [] ==>
      && (es[0].PollDue? ==>
            forall k :: 0 <= k < |s.c.outstanding| ==> s.c.outstanding[k].sentAt + ProbeLostPeriod(s.c) > s.pollAt)
      && Healthy(Step(s, es[0]), es[1..])
  }

  /** The loop around `poll` ends with Dead exactly when its first poll says so. */
  lemma DriveDeadIff(c: Checker, now: nat, payload: seq<byte>)
    requires Ordered(c) && NotBefore(c, now) && PROBE_PREFIX <= payload
    ensures Drive(c, now, payload).TunnelDead? <==> Poll(c, now, payload).1 == Dead
  {
    SendPingOrdered(c, now, payload);
    DeadIff(c, now, payload);
    DeadIff(SendPing(c, now, payload), now, payload);
  }

  lemma HealthyPoll(c: Checker, now: nat, payload: seq<byte>)
    requires Ordered(c) && NotBefore(c, now) && PROBE_PREFIX <= payload
    requires forall k :: 0 <= k < |c.outstanding| ==> c.outstanding[k].sentAt + ProbeLostPeriod(c) > now
    ensures Drive(c, now, payload).Alive?
  {
    DriveDeadIff(c, now, payload);
    DeadIff(c, now, payload);
  }

  /** A tunnel that is healthy at every poll is never declared dead. */
  lemma {:induction false} HealthyNeverDead(s: Conn, es: seq<Event>)
    requires Inv(s) && s.Alive? && IsRun(s, es) && Healthy(s, es)
    ensures Run(s, es).Alive?
    decreases |es|
  {
    if es != [] {
      StepInv(s, es[0]);
      if es[0].PollDue? { HealthyPoll(s.c, s.pollAt, es[0].payload); }
      HealthyNeverDead(Step(s, es[0]), es[1..]);
    }
  }

  // ------------------------------------------------------------------ matching replies

  /** A reply is accepted exactly when it echoes an outstanding probe; it then
      settles that probe and every older one, and the next accepted pong has a
      larger id. */
  lemma EchoAccepted(c: Checker, now: nat, k: nat)
    requires Ordered(c) && k < |c.outstanding|
    ensures var ping := c.outstanding[k];
            var (c', rtt) := Receive(c, now, EchoOf(ping));
            && rtt == Some(if ping.sentAt <= now then now - ping.sentAt else 0)
            && c'.outstanding == c.outstanding[k + 1..]
            && c'.accepted == c.accepted + [ReceivedPong(ping.idSeq, rtt.value)]
            && !c'.isWaking
            && Receive(c', now, EchoOf(ping)) == (c', None)
  {
    EchoMatches(c, k);
    EchoSpent(c, k, RoundTrip(c.outstanding[k].sentAt, now));
  }

  /** The reply to an outstanding probe. */
  function EchoOf(ping: SentPing): Liveness.Packet {
    EchoReply(ping.idSeq / 0x1_0000, ping.idSeq % 0x1_0000, ping.payload)
  }

  lemma EchoMatches(c: Checker, k: nat)
    requires Ordered(c) && k < |c.outstanding|
    ensures MatchReply(c, EchoOf(c.outstanding[k])) == Some(k)
  {
    IdSplits(c.outstanding[k].idSeq);
    MatchOfId(c, k);
  }

  lemma EchoSpent(c: Checker, k: nat, rtt: nat)
    requires Ordered(c) && k < |c.outstanding|
    ensures MatchReply(Settle(c, k, rtt), EchoOf(c.outstanding[k])) == None
  {
    IdSplits(c.outstanding[k].idSeq);
    NoMatchAfter(c, k);
  }

  lemma NoMatchAfter(c: Checker, k: nat)
    requires Ordered(c) && k < |c.outstanding|
    ensures Match(c.outstanding[k + 1..], c.outstanding[k].idSeq, c.outstanding[k].payload) == None
  {
    var rest := c.outstanding[k + 1..];
    assert forall j :: 0 <= j < |rest| ==> rest[j] == c.outstanding[k + 1 + j];
  }

  lemma UnmatchedIgnored(c: Checker, now: nat, packet: Liveness.Packet)
    ensures Receive(c, now, packet).1.None? <==>
              !(packet.EchoReply? && PROBE_PREFIX <= packet.payload
                && exists k :: 0 <= k < |c.outstanding| && c.outstanding[k].payload == packet.payload
                     && c.outstanding[k].idSeq == packet.id * 0x1_0000 + packet.seq_)
    ensures Receive(c, now, packet).1.None? ==> Receive(c, now, packet).0 == c
  {
  }
}
