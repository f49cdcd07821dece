/** When the liveness checker sends its probes (rustlib/src/liveness.rs, lines 83-92
    and 127-144): over whole runs of the connection, in terms of the probes the run has
    sent and the user traffic since. */
module ProbeSchedule {
  import opened Liveness
  import opened LivenessRuns
  import opened PongTiming
  import opened Wrappers

  /** What a run has done: when its latest probe left, and whether user traffic passed
      since without sending one. */
  datatype Past = Past(lastProbe: Option<nat>, traffic: bool)

  const NOTHING_YET := Past(None, false)

  function Next(s: Conn, e: Event, past: Past): Past
    requires Enabled(s, e)
  {
    match ProbeSent(s, e)
    case Some(probe) => Past(Some(probe.sentAt), false)
    case None => past.(traffic := past.traffic || e.Traffic?)
  }

  function After(s: Conn, es: seq<Event>, past: Past): Past
    requires IsRun(s, es)
    decreases |es|
  {
    if es == [] then past else After(Step(s, es[0]), es[1..], Next(s, es[0], past))
  }

  /** The checker's fields agree with what the run has done. */
  predicate Tracks(s: Conn, past: Past) {
    Inv(s) && (s.Alive? ==> s.c.lastPing == past.lastProbe && s.c.userTraffic == past.traffic)
  }

  lemma TracksStep(s: Conn, e: Event, past: Past)
    requires Tracks(s, past) && Enabled(s, e)
    ensures Tracks(Step(s, e), Next(s, e, past))
  {
    StepInv(s, e);
    if e.PollDue? { DriveUnfolds(s.c, s.pollAt, e.payload); }
  }

  lemma {:induction false} TracksRun(s: Conn, es: seq<Event>, past: Past)
    requires Tracks(s, past) && IsRun(s, es)
    ensures Tracks(Run(s, es), After(s, es, past))
    decreases |es|
  {
    if es != [] {
      TracksStep(s, es[0], past);
      TracksRun(Step(s, es[0]), es[1..], Next(s, es[0], past));
    }
  }

  /** Some probe is as old as the loss period. */
  predicate SomeLost(c: Checker, now: nat) {
    exists i :: 0 <= i < |c.outstanding| && c.outstanding[i].sentAt + ProbeLostPeriod(c) <= now
  }

  lemma SomeLostIff(c: Checker, now: nat)
    requires Ordered(c)
    ensures SomeLost(c, now) <==> LostProbes(c, now) != 0
  {
    var i := CountIsPrefix(c, now);
  }

  /** In every run a poll that is not Dead sends a probe exactly when none has left yet,
      or the latest left 55 seconds ago, or it left one second ago and either user
      traffic passed since or a probe is lost. */
  lemma PollSendsIff(start: nat, es: seq<Event>, now: nat, payload: seq<byte>)
    requires IsRun(Start(start), es) && Run(Start(start), es).Alive?
    ensures var c, past := Run(Start(start), es).c, After(Start(start), es, NOTHING_YET);
            var answer := Poll(c, now, payload).1;
            answer != Dead ==>
              (answer == SendPacket <==>
                || past.lastProbe.None?
                || past.lastProbe.value + 55 * SECOND <= now
                || (past.lastProbe.value + SECOND <= now && (past.traffic || SomeLost(c, now))))
  {
    TracksRun(Start(start), es, NOTHING_YET);
    SomeLostIff(Run(Start(start), es).c, now);
  }

  /** In every run user traffic sends a probe itself exactly when none has left yet or
      the latest left more than a second ago. */
  lemma TrafficSendsIff(start: nat, es: seq<Event>, e: Event)
    requires IsRun(Start(start), es) && Enabled(Run(Start(start), es), e) && e.Traffic?
    ensures var past := After(Start(start), es, NOTHING_YET);
            ProbeSent(Run(Start(start), es), e).Some? <==>
              past.lastProbe.None? || e.at > past.lastProbe.value + SECOND
  {
    TracksRun(Start(start), es, NOTHING_YET);
  }

  /** The run sends no probe; in particular the device does not wake. */
  predicate NoProbe(s: Conn, es: seq<Event>)
    requires IsRun(s, es)
    decreases |es|
  {
    es != [] ==> ProbeSent(s, es[0]).None? && NoProbe(Step(s, es[0]), es[1..])
  }

  /** Until the next probe leaves, the poll stays due within a second of the traffic. */
  predicate DueBy(s: Conn, past: Past, limit: nat) {
    && Tracks(s, past)
    && past.traffic && past.lastProbe.Some? && past.lastProbe.value + SECOND <= limit
    && (s.Alive? ==> s.pollAt <= limit)
  }

  lemma DueByStep(s: Conn, e: Event, past: Past, limit: nat)
    requires DueBy(s, past, limit) && Enabled(s, e) && ProbeSent(s, e).None?
    ensures DueBy(Step(s, e), Next(s, e, past), limit) && Next(s, e, past) == past
  {
    TracksStep(s, e, past);
    if e.PollDue? && Poll(s.c, s.pollAt, e.payload).1.AliveUntil? { AliveUntilFuture(s.c, s.pollAt, e.payload); }
  }

  lemma {:induction false} DueByRun(s: Conn, es: seq<Event>, past: Past, limit: nat)
    requires DueBy(s, past, limit) && IsRun(s, es) && NoProbe(s, es)
    ensures DueBy(Run(s, es), past, limit)
    decreases |es|
  {
    if es != [] {
      DueByStep(s, es[0], past, limit);
      DueByRun(Step(s, es[0]), es[1..], past, limit);
    }
  }

  /** After user traffic that sent no probe, and until the next probe leaves: a poll at
      or after one second past the latest probe never answers AliveUntil, and a poll is
      due within one second of the traffic. So a tunnel in use is probed, or found dead,
      within a second. */
  lemma BusyIsProbed(start: nat, es: seq<Event>, e: Event, later: seq<Event>, now: nat, payload: seq<byte>)
    requires IsRun(Start(start), es) && Enabled(Run(Start(start), es), e)
    requires e.Traffic? && ProbeSent(Run(Start(start), es), e).None?
    requires IsRun(Step(Run(Start(start), es), e), later) && NoProbe(Step(Run(Start(start), es), e), later)
    requires Run(Step(Run(Start(start), es), e), later).Alive?
    ensures var s := Run(Step(Run(Start(start), es), e), later);
            var last := After(Start(start), es, NOTHING_YET).lastProbe;
            && last.Some?
            && s.pollAt <= e.at + SECOND
            && (last.value + SECOND <= now ==> !Poll(s.c, now, payload).1.AliveUntil?)
  {
    var s, past := Run(Start(start), es), After(Start(start), es, NOTHING_YET);
    TracksRun(Start(start), es, NOTHING_YET);
    TracksStep(s, e, past);
    DueByRun(Step(s, e), later, Next(s, e, past), e.at + SECOND);
  }

  /** Without user traffic and without a lost probe no poll sends before 55 seconds have
      passed since the latest probe. */
  lemma IdleIsNotProbed(start: nat, es: seq<Event>, now: nat, payload: seq<byte>)
    requires IsRun(Start(start), es) && Run(Start(start), es).Alive?
    requires var past := After(Start(start), es, NOTHING_YET);
             past.lastProbe.Some? && !past.traffic && now < past.lastProbe.value + 55 * SECOND
    requires !SomeLost(Run(Start(start), es).c, now)
    ensures Poll(Run(Start(start), es).c, now, payload).1.AliveUntil?
  {
    TracksRun(Start(start), es, NOTHING_YET);
    SomeLostIff(Run(Start(start), es).c, now);
  }
}
