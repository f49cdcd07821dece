/** When pongs arrive in time the tunnel is not declared dead (rustlib/src/liveness.rs,
    lines 61-161): over whole runs, in terms of the probes a run sends and the packets
    it receives. "In time" has two readings. Before the shortest possible loss period
    is over: then the tunnel is never dead. Before the loss period that was in force
    when the probe left is over: then it can be, because the period may shrink while
    probes are under way. */
module PongTiming {
  import opened Liveness
  import opened LivenessRuns
  import opened Wrappers

  /** The probe that a step sends. */
  function ProbeSent(s: Conn, e: Event): Option<SentPing>
    requires Enabled(s, e)
  {
    match e
    case Traffic(at, payload) =>
      if SentTraffic(s.c, at, payload).1 then Some(SentPing(at, s.c.nextIdSeq, payload)) else None
    case Packet(_, _) => None
    case WakeUp(at, payload) => Some(SentPing(at, 0, payload))
    case PollDue(payload) =>
      if Poll(s.c, s.pollAt, payload).1 == SendPacket then Some(SentPing(s.pollAt, s.c.nextIdSeq, payload)) else None
  }

  datatype Reading = ShortestPeriod | PeriodWhenSent

  /** How long the pong of the probe sent in this step may take. */
  function Allowance(reading: Reading, s: Conn, e: Event): (period: nat)
    requires Enabled(s, e)
    ensures MIN_PROBE_LOST_PERIOD <= period <= MAX_PROBE_LOST_PERIOD
  {
    if reading.ShortestPeriod? || e.WakeUp? then MIN_PROBE_LOST_PERIOD else ProbeLostPeriod(s.c)
  }

  /** The echo of the probe arrives before any poll of the run at or after `expiry`,
      unless the device wakes first, which forgets the probe. */
  predicate EchoedBefore(s: Conn, es: seq<Event>, probe: SentPing, expiry: nat)
    requires IsRun(s, es)
    decreases |es|
  {
    || es == []
    || es[0].WakeUp?
    || (es[0].Packet? && es[0].packet == EchoOf(probe))
    || ((es[0].PollDue? ==> s.pollAt < expiry) && EchoedBefore(Step(s, es[0]), es[1..], probe, expiry))
  }

  /** Every probe that the run sends is echoed in time. */
  predicate EchoedInTime(reading: Reading, s: Conn, es: seq<Event>)
    requires IsRun(s, es)
    decreases |es|
  {
    es != [] ==>
      && (ProbeSent(s, es[0]).Some? ==>
            var probe := ProbeSent(s, es[0]).value;
            EchoedBefore(Step(s, es[0]), es[1..], probe, probe.sentAt + Allowance(reading, s, es[0])))
      && EchoedInTime(reading, Step(s, es[0]), es[1..])
  }

  // ------------------------------------------------------------------------ obligations

  /** The probe is to be echoed by the time `due`. */
  predicate OwedProbe(s: Conn, es: seq<Event>, probe: SentPing, due: nat)
    requires IsRun(s, es)
  {
    && EchoedBefore(s, es, probe, due)
    && probe.sentAt + MIN_PROBE_LOST_PERIOD <= due <= probe.sentAt + MAX_PROBE_LOST_PERIOD
  }

  /** All probes of a sequence are to be echoed. */
  predicate AllOwed(s: Conn, es: seq<Event>, probes: seq<SentPing>, due: seq<nat>)
    requires IsRun(s, es)
  {
    |due| == |probes| && forall i :: 0 <= i < |due| ==> OwedProbe(s, es, probes[i], due[i])
  }

  /** `due[i]` is the time by which the i-th outstanding probe is echoed. */
  predicate Owed(s: Conn, es: seq<Event>, due: seq<nat>)
    requires IsRun(s, es)
  {
    s.Alive? ==> AllOwed(s, es, s.c.outstanding, due)
  }

  /** The first outstanding probe that a step keeps. */
  function Kept(s: Conn, e: Event): (k: nat)
    requires Enabled(s, e)
    ensures k <= |s.c.outstanding|
  {
    match e
    case Packet(_, packet) => (var i := MatchReply(s.c, packet); if i.None? then 0 else i.value + 1)
    case WakeUp(_, _) => |s.c.outstanding|
    case _ => 0
  }

  function Added(s: Conn, e: Event): (probes: seq<SentPing>)
    requires Enabled(s, e)
  {
    if ProbeSent(s, e).Some? then [ProbeSent(s, e).value] else []
  }

  function AddedDue(reading: Reading, s: Conn, e: Event): (due: seq<nat>)
    requires Enabled(s, e)
    ensures |due| == |Added(s, e)|
  {
    if ProbeSent(s, e).Some? then [ProbeSent(s, e).value.sentAt + Allowance(reading, s, e)] else []
  }

  function NextDue(reading: Reading, s: Conn, e: Event, due: seq<nat>): seq<nat>
    requires Enabled(s, e) && |due| == |s.c.outstanding|
  {
    due[Kept(s, e)..] + AddedDue(reading, s, e)
  }

  lemma StepProbes(s: Conn, e: Event)
    requires Enabled(s, e) && Step(s, e).Alive?
    ensures Step(s, e).c.outstanding == s.c.outstanding[Kept(s, e)..] + Added(s, e)
  {
    if e.PollDue? { DriveUnfolds(s.c, s.pollAt, e.payload); }
  }

  lemma OwedBeforePoll(s: Conn, es: seq<Event>, due: seq<nat>, i: nat)
    requires IsRun(s, es) && Owed(s, es, due) && es != [] && es[0].PollDue? && i < |s.c.outstanding|
    ensures s.pollAt < due[i] <= s.c.outstanding[i].sentAt + MAX_PROBE_LOST_PERIOD
  {
    assert OwedProbe(s, es, s.c.outstanding[i], due[i]);
  }

  /** A probe that is outstanding before and after a step is still to be echoed. */
  lemma StillOwed(s: Conn, es: seq<Event>, i: nat, expiry: nat)
    requires Inv(s) && IsRun(s, es) && es != [] && i < |s.c.outstanding|
    requires EchoedBefore(s, es, s.c.outstanding[i], expiry) && !es[0].WakeUp?
    requires es[0].Packet? && MatchReply(s.c, es[0].packet).Some? ==> MatchReply(s.c, es[0].packet).value < i
    ensures EchoedBefore(Step(s, es[0]), es[1..], s.c.outstanding[i], expiry)
  {
    if es[0].Packet? && es[0].packet == EchoOf(s.c.outstanding[i]) { EchoMatches(s.c, i); }
  }

  lemma OwedNewProbe(reading: Reading, s: Conn, es: seq<Event>)
    requires IsRun(s, es) && es != [] && EchoedInTime(reading, s, es)
    ensures AllOwed(Step(s, es[0]), es[1..], Added(s, es[0]), AddedDue(reading, s, es[0]))
  {
  }

  lemma AllOwedConcat(s: Conn, es: seq<Event>, p: seq<SentPing>, d: seq<nat>, p': seq<SentPing>, d': seq<nat>)
    requires IsRun(s, es) && AllOwed(s, es, p, d) && AllOwed(s, es, p', d')
    ensures AllOwed(s, es, p + p', d + d')
  {
  }

  lemma OwedFrom(s: Conn, es: seq<Event>, probes: seq<SentPing>, due: seq<nat>, from: nat)
    requires IsRun(s, es) && |due| == |probes| && from <= |due|
    requires forall i :: from <= i < |due| ==> OwedProbe(s, es, probes[i], due[i])
    ensures AllOwed(s, es, probes[from..], due[from..])
  {
  }

  lemma AllStillOwed(s: Conn, es: seq<Event>, due: seq<nat>)
    requires Inv(s) && IsRun(s, es) && es != [] && AllOwed(s, es, s.c.outstanding, due)
    ensures AllOwed(Step(s, es[0]), es[1..], s.c.outstanding[Kept(s, es[0])..], due[Kept(s, es[0])..])
  {
    var pings, from := s.c.outstanding, Kept(s, es[0]);
    forall i | from <= i < |due| ensures OwedProbe(Step(s, es[0]), es[1..], pings[i], due[i]) {
      StillOwed(s, es, i, due[i]);
    }
    OwedFrom(Step(s, es[0]), es[1..], pings, due, from);
  }

  lemma OwedStep(reading: Reading, s: Conn, es: seq<Event>, due: seq<nat>)
    requires Inv(s) && IsRun(s, es) && es != []
    requires AllOwed(s, es, s.c.outstanding, due) && EchoedInTime(reading, s, es)
    ensures Owed(Step(s, es[0]), es[1..], NextDue(reading, s, es[0], due))
  {
    var s', kept := Step(s, es[0]), Kept(s, es[0]);
    if s'.Alive? {
      StepProbes(s, es[0]);
      AllStillOwed(s, es, due);
      OwedNewProbe(reading, s, es);
      AllOwedConcat(s', es[1..], s.c.outstanding[kept..], due[kept..], Added(s, es[0]), AddedDue(reading, s, es[0]));
    }
  }

  // -------------------------------------------------------------- the shortest period

  predicate ShortestDue(pings: seq<SentPing>, due: seq<nat>) {
    |due| == |pings| && forall i :: 0 <= i < |due| ==> due[i] == pings[i].sentAt + MIN_PROBE_LOST_PERIOD
  }

  lemma ShortestDueStep(s: Conn, e: Event, due: seq<nat>)
    requires Enabled(s, e) && Step(s, e).Alive? && ShortestDue(s.c.outstanding, due)
    ensures ShortestDue(Step(s, e).c.outstanding, NextDue(ShortestPeriod, s, e, due))
  {
    StepProbes(s, e);
    ShortestDueConcat(s.c.outstanding, due, Kept(s, e), Added(s, e), AddedDue(ShortestPeriod, s, e));
  }

  lemma ShortestDueConcat(p: seq<SentPing>, d: seq<nat>, from: nat, p': seq<SentPing>, d': seq<nat>)
    requires ShortestDue(p, d) && from <= |p| && ShortestDue(p', d')
    ensures ShortestDue(p[from..] + p', d[from..] + d')
  {
  }

  lemma HealthyAtPoll(s: Conn, es: seq<Event>, due: seq<nat>)
    requires Inv(s) && s.Alive? && IsRun(s, es) && es != [] && es[0].PollDue?
    requires Owed(s, es, due) && ShortestDue(s.c.outstanding, due)
    ensures forall k :: 0 <= k < |s.c.outstanding| ==> s.c.outstanding[k].sentAt + ProbeLostPeriod(s.c) > s.pollAt
    ensures Step(s, es[0]).Alive?
  {
    forall k | 0 <= k < |s.c.outstanding| ensures s.c.outstanding[k].sentAt + ProbeLostPeriod(s.c) > s.pollAt {
      OwedBeforePoll(s, es, due, k);
    }
    HealthyPoll(s.c, s.pollAt, es[0].payload);
  }

  lemma {:induction false} EchoedIsHealthy(s: Conn, es: seq<Event>, due: seq<nat>)
    requires Inv(s) && s.Alive? && IsRun(s, es) && EchoedInTime(ShortestPeriod, s, es)
    requires Owed(s, es, due) && ShortestDue(s.c.outstanding, due)
    ensures Healthy(s, es)
    decreases |es|
  {
    if es != [] {
      if es[0].PollDue? { HealthyAtPoll(s, es, due); }
      StepInv(s, es[0]);
      OwedStep(ShortestPeriod, s, es, due);
      ShortestDueStep(s, es[0], due);
      EchoedIsHealthy(Step(s, es[0]), es[1..], NextDue(ShortestPeriod, s, es[0], due));
    }
  }

  /** If every probe that a run from a new connection sends is echoed before any poll
      one second or more later, the tunnel is never declared dead. */
  lemma PromptPongsNeverDead(start: nat, es: seq<Event>)
    requires IsRun(Start(start), es) && EchoedInTime(ShortestPeriod, Start(start), es)
    ensures Run(Start(start), es).Alive?
  {
    EchoedIsHealthy(Start(start), es, []);
    HealthyNeverDead(Start(start), es);
  }

  // --------------------------------------------------------- the period when sent

  /** More than the tolerated number of probes are under way, and no pong of the window
      took more than half as long as the last tolerated one is under way: the period
      has become as short as that. */
  predicate Overtaken(s: Conn) {
    && s.Alive?
    && |s.c.outstanding| > MaxLost(s.c)
    && var sentAt := s.c.outstanding[MaxLost(s.c)].sentAt;
       && sentAt + MIN_PROBE_LOST_PERIOD <= s.pollAt
       && forall k :: 0 <= k < |s.c.accepted| && InWindow(s.c.accepted, s.c.accepted[k]) ==>
            sentAt + 2 * s.c.accepted[k].rtt <= s.pollAt
  }

  predicate NeverOvertaken(s: Conn, es: seq<Event>)
    requires IsRun(s, es)
    decreases |es|
  {
    es != [] ==> (es[0].PollDue? ==> !Overtaken(s)) && NeverOvertaken(Step(s, es[0]), es[1..])
  }

  lemma PeriodAtMostIff(c: Checker, age: nat)
    requires age < MAX_PROBE_LOST_PERIOD
    ensures ProbeLostPeriod(c) <= age <==>
              && MIN_PROBE_LOST_PERIOD <= age
              && forall k :: 0 <= k < |c.accepted| && InWindow(c.accepted, c.accepted[k]) ==> 2 * c.accepted[k].rtt <= age
  {
    if c.accepted != [] {
      var latest := c.accepted[|c.accepted| - 1].idSeq;
      SlowestSinceBounds(c.accepted, latest, age / 2);
      assert forall k :: 0 <= k < |c.accepted| ==>
        (InWindow(c.accepted, c.accepted[k]) <==> latest - c.accepted[k].idSeq <= SLOW_PONG_WINDOW);
    }
  }

  lemma PollDeadIffOvertaken(s: Conn, es: seq<Event>, due: seq<nat>)
    requires Inv(s) && s.Alive? && IsRun(s, es) && es != [] && es[0].PollDue? && Owed(s, es, due)
    ensures Step(s, es[0]).TunnelDead? <==> Overtaken(s)
  {
    DriveDeadIff(s.c, s.pollAt, es[0].payload);
    DeadIff(s.c, s.pollAt, es[0].payload);
    if |s.c.outstanding| > MaxLost(s.c) {
      OwedBeforePoll(s, es, due, MaxLost(s.c));
      OvertakenIff(s);
    }
  }

  lemma OvertakenIff(s: Conn)
    requires Inv(s) && s.Alive? && |s.c.outstanding| > MaxLost(s.c)
    requires s.pollAt < s.c.outstanding[MaxLost(s.c)].sentAt + MAX_PROBE_LOST_PERIOD
    ensures Overtaken(s) <==> s.c.outstanding[MaxLost(s.c)].sentAt + ProbeLostPeriod(s.c) <= s.pollAt
  {
    var sentAt := s.c.outstanding[MaxLost(s.c)].sentAt;
    assert sentAt <= s.c.outstanding[|s.c.outstanding| - 1].sentAt;
    PeriodAtMostIff(s.c, s.pollAt - sentAt);
  }

  lemma {:induction false} DeadIffOvertakenFrom(s: Conn, es: seq<Event>, due: seq<nat>)
    requires Inv(s) && s.Alive? && IsRun(s, es)
    requires Owed(s, es, due) && EchoedInTime(PeriodWhenSent, s, es)
    ensures Run(s, es).Alive? <==> NeverOvertaken(s, es)
    decreases |es|
  {
    if es != [] {
      if es[0].PollDue? { PollDeadIffOvertaken(s, es, due); }
      StepInv(s, es[0]);
      OwedStep(PeriodWhenSent, s, es, due);
      if Step(s, es[0]).Alive? {
        DeadIffOvertakenFrom(Step(s, es[0]), es[1..], NextDue(PeriodWhenSent, s, es[0], due));
      }
    }
  }

  /** If every probe is echoed before the loss period that was in force when it left
      is over, the tunnel stays alive if and only if the shrinking period never
      overtakes the probes under way. */
  lemma AliveIffNeverOvertaken(start: nat, es: seq<Event>)
    requires IsRun(Start(start), es) && EchoedInTime(PeriodWhenSent, Start(start), es)
    ensures Run(Start(start), es).Alive? <==> NeverOvertaken(Start(start), es)
  {
    DeadIffOvertakenFrom(Start(start), es, []);
  }
}
