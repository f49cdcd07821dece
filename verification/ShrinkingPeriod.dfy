/** A run of the liveness checker (rustlib/src/liveness.rs) in which one slow pong
    lengthens the loss period, stays in force for a hundred more probes, and then
    leaves the window while probes are under way. */
module ShrinkingPeriod {
  import opened Liveness
  import opened LivenessRuns
  import opened PongTiming
  import opened Wrappers

  // --------------------------------------------------------- runs, built from the end

  /** From `s` the events lead to `t`, and every probe is echoed while the period in
      force when it left lasts. */
  predicate Leads(s: Conn, es: seq<Event>, t: Conn) {
    IsRun(s, es) && EchoedInTime(PeriodWhenSent, s, es) && Run(s, es) == t
  }

  lemma LeadsStep(s: Conn, e: Event, s': Conn, es: seq<Event>, t: Conn)
    requires Enabled(s, e) && Step(s, e) == s' && Leads(s', es, t)
    requires ProbeSent(s, e).Some? ==>
               var p := ProbeSent(s, e).value; EchoedBefore(s', es, p, p.sentAt + Allowance(PeriodWhenSent, s, e))
    ensures Leads(s, [e] + es, t)
  {
    assert ([e] + es)[1..] == es;
  }

  lemma EchoedBeforeStep(s: Conn, e: Event, s': Conn, es: seq<Event>, p: SentPing, expiry: nat)
    requires Enabled(s, e) && Step(s, e) == s' && IsRun(s', es)
    requires (e.PollDue? ==> s.pollAt < expiry) && EchoedBefore(s', es, p, expiry)
    ensures IsRun(s, [e] + es) && EchoedBefore(s, [e] + es, p, expiry)
  {
    assert ([e] + es)[1..] == es;
  }

  // -------------------------------------------------------- one probe, answered slowly

  /** Everything was answered, and the next poll is due at `at`. */
  predicate Quiet(s: Conn, at: nat) {
    && s.Alive? && s.pollAt == at && s.clock <= at
    && s.c.outstanding == [] && !s.c.userTraffic && !s.c.isWaking
    && s.c.lastPing.Some? && s.c.lastPing.value + SECOND < at
  }

  function Probe(c: Checker, at: nat): SentPing { SentPing(at, c.nextIdSeq, PROBE_PREFIX) }

  function Polls(n: nat): seq<Event> {
    if n == 0 then [] else [PollDue(PROBE_PREFIX)] + Polls(n - 1)
  }

  /** User traffic sends a probe at `at`; its echo comes after `rtt` seconds. */
  function Exchange(c: Checker, at: nat, rtt: nat): seq<Event> {
    [Traffic(at, PROBE_PREFIX)] + Polls(rtt) + [Event.Packet(at + rtt * SECOND, EchoOf(Probe(c, at)))]
  }

  function Exchanged(c: Checker, at: nat, rtt: nat): Conn {
    Alive(c.(nextIdSeq := c.nextIdSeq + 1, lastPing := Some(at),
             accepted := c.accepted + [ReceivedPong(c.nextIdSeq, rtt * SECOND)]),
          at + rtt * SECOND, at + rtt * SECOND)
  }

  lemma PollWaits(s: Conn, p: SentPing)
    requires s.Alive? && s.c.outstanding == [p] && s.c.lastPing == Some(p.sentAt) && !s.c.userTraffic
    requires p.sentAt <= s.pollAt && s.pollAt + SECOND <= p.sentAt + ProbeLostPeriod(s.c)
    ensures Step(s, PollDue(PROBE_PREFIX)) == Alive(s.c, s.pollAt, s.pollAt + SECOND)
    ensures ProbeSent(s, PollDue(PROBE_PREFIX)) == None
  {
    assert [p][1..] == [];
    assert CountLost([], ProbeLostPeriod(s.c), s.pollAt) == 0;
    assert NextExpiry([], ProbeLostPeriod(s.c), s.pollAt) == None;
  }

  lemma PollLeads(s: Conn, p: SentPing, s': Conn, expiry: nat, es: seq<Event>, t: Conn)
    requires s.Alive? && s.c.outstanding == [p] && s.c.lastPing == Some(p.sentAt) && !s.c.userTraffic
    requires expiry == p.sentAt + ProbeLostPeriod(s.c) && p.sentAt <= s.pollAt && s.pollAt + SECOND <= expiry
    requires s' == Alive(s.c, s.pollAt, s.pollAt + SECOND) && Leads(s', es, t) && EchoedBefore(s', es, p, expiry)
    ensures Leads(s, [PollDue(PROBE_PREFIX)] + es, t)
    ensures EchoedBefore(s, [PollDue(PROBE_PREFIX)] + es, p, expiry)
  {
    PollWaits(s, p);
    LeadsStep(s, PollDue(PROBE_PREFIX), s', es, t);
    EchoedBeforeStep(s, PollDue(PROBE_PREFIX), s', es, p, expiry);
  }

  lemma EchoReceived(s: Conn, at: nat, p: SentPing, rest: seq<Event>, t: Conn)
    requires s.Alive? && Ordered(s.c) && s.c.outstanding == [p] && s.clock <= at <= s.pollAt && p.sentAt <= at && !s.c.isWaking
    requires Leads(s.(c := Settle(s.c, 0, at - p.sentAt), clock := at), rest, t)
    ensures Leads(s, [Event.Packet(at, EchoOf(p))] + rest, t)
    ensures forall expiry :: EchoedBefore(s, [Event.Packet(at, EchoOf(p))] + rest, p, expiry)
  {
    EchoMatches(s.c, 0);
    LeadsStep(s, Event.Packet(at, EchoOf(p)), s.(c := Settle(s.c, 0, at - p.sentAt), clock := at), rest, t);
  }

  /** One probe is under way and nothing is lost. */
  predicate Waiting(s: Conn, p: SentPing, expiry: nat) {
    && s.Alive? && Ordered(s.c) && s.c.outstanding == [p] && s.c.lastPing == Some(p.sentAt)
    && !s.c.userTraffic && !s.c.isWaking && s.clock <= s.pollAt && p.sentAt <= s.pollAt
    && expiry == p.sentAt + ProbeLostPeriod(s.c)
  }

  /** Where the echo at `at` leads. */
  function Settled(s: Conn, p: SentPing, at: nat): Conn
    requires s.Alive? && s.c.outstanding == [p] && p.sentAt <= at
  {
    Alive(Settle(s.c, 0, at - p.sentAt), at, at)
  }

  lemma EchoWhenDue(s: Conn, p: SentPing, expiry: nat, rest: seq<Event>, t: Conn)
    requires Waiting(s, p, expiry) && Leads(Settled(s, p, s.pollAt), rest, t)
    ensures var es := [Event.Packet(s.pollAt, EchoOf(p))] + rest;
            Leads(s, es, t) && EchoedBefore(s, es, p, expiry)
  {
    EchoReceived(s, s.pollAt, p, rest, t);
  }

  /** Polling a second apart until the echo comes. */
  lemma {:induction false} PollsThenEcho(s: Conn, n: nat, p: SentPing, expiry: nat, rest: seq<Event>, t: Conn)
    requires Waiting(s, p, expiry) && s.pollAt + n * SECOND <= expiry
    requires Leads(Settled(s, p, s.pollAt + n * SECOND), rest, t)
    ensures var es := Polls(n) + ([Event.Packet(s.pollAt + n * SECOND, EchoOf(p))] + rest);
            Leads(s, es, t) && EchoedBefore(s, es, p, expiry)
    decreases n
  {
    var echo := [Event.Packet(s.pollAt + n * SECOND, EchoOf(p))] + rest;
    if n == 0 {
      EchoWhenDue(s, p, expiry, rest, t);
      assert Polls(0) + echo == echo;
    } else {
      var s' := Alive(s.c, s.pollAt, s.pollAt + SECOND);
      PollsThenEcho(s', n - 1, p, expiry, rest, t);
      PollLeads(s, p, s', expiry, Polls(n - 1) + echo, t);
      PollsUnfold(n, echo);
    }
  }

  lemma PollsUnfold(n: nat, es: seq<Event>)
    requires n > 0
    ensures Polls(n) + es == [PollDue(PROBE_PREFIX)] + (Polls(n - 1) + es)
  {
  }

  lemma TrafficSends(s: Conn, at: nat)
    requires Quiet(s, at) && Ordered(s.c)
    ensures var e := Traffic(at, PROBE_PREFIX);
            && Enabled(s, e)
            && Step(s, e) == Alive(SendPing(s.c, at, PROBE_PREFIX), at, at)
            && ProbeSent(s, e) == Some(Probe(s.c, at))
            && Allowance(PeriodWhenSent, s, e) == ProbeLostPeriod(s.c)
    ensures var c' := SendPing(s.c, at, PROBE_PREFIX);
            && Ordered(c') && c'.outstanding == [Probe(s.c, at)] && ProbeLostPeriod(c') == ProbeLostPeriod(s.c)
  {
    SendPingOrdered(s.c, at, PROBE_PREFIX);
  }

  lemma ExchangeSettles(c: Checker, at: nat, rtt: nat)
    requires c.outstanding == [] && !c.userTraffic && !c.isWaking
    ensures Settle(SendPing(c, at, PROBE_PREFIX), 0, rtt * SECOND) == Exchanged(c, at, rtt).c
  {
  }

  lemma Regroup<T>(a: seq<T>, b: seq<T>, c: seq<T>, d: seq<T>)
    ensures a + b + c + d == a + (b + (c + d))
  {
  }

  lemma TrafficLeads(s: Conn, at: nat, s': Conn, es: seq<Event>, t: Conn)
    requires Quiet(s, at) && Ordered(s.c) && s' == Alive(SendPing(s.c, at, PROBE_PREFIX), at, at)
    requires Leads(s', es, t) && EchoedBefore(s', es, Probe(s.c, at), at + ProbeLostPeriod(s.c))
    ensures Leads(s, [Traffic(at, PROBE_PREFIX)] + es, t)
  {
    TrafficSends(s, at);
    LeadsStep(s, Traffic(at, PROBE_PREFIX), s', es, t);
  }

  lemma SentWaits(s: Conn, at: nat)
    requires Quiet(s, at) && Ordered(s.c)
    ensures Waiting(Alive(SendPing(s.c, at, PROBE_PREFIX), at, at), Probe(s.c, at), at + ProbeLostPeriod(s.c))
  {
    TrafficSends(s, at);
  }

  lemma ExchangeLeads(s: Conn, at: nat, rtt: nat, rest: seq<Event>, t: Conn)
    requires Quiet(s, at) && Ordered(s.c) && rtt * SECOND <= ProbeLostPeriod(s.c)
    requires Leads(Exchanged(s.c, at, rtt), rest, t)
    ensures Leads(s, Exchange(s.c, at, rtt) + rest, t)
  {
    var p, s' := Probe(s.c, at), Alive(SendPing(s.c, at, PROBE_PREFIX), at, at);
    var echo := [Event.Packet(at + rtt * SECOND, EchoOf(p))];
    SentWaits(s, at);
    ExchangeSettles(s.c, at, rtt);
    PollsThenEcho(s', rtt, p, at + ProbeLostPeriod(s.c), rest, t);
    TrafficLeads(s, at, s', Polls(rtt) + (echo + rest), t);
    Regroup([Traffic(at, PROBE_PREFIX)], Polls(rtt), echo, rest);
  }

  // ------------------------------------------------------------- a hundred more probes

  /** The round trips, in seconds: each doubles the loss period, up to sixteen seconds;
      from then on they are short. */
  function Rtt(i: nat): nat {
    if i == 0 then 1 else if i == 1 then 2 else if i == 2 then 4 else if i == 3 then 8 else 2
  }

  function History(n: nat): (pongs: seq<ReceivedPong>)
    ensures |pongs| == n && forall i :: 0 <= i < n ==> pongs[i] == ReceivedPong(i, Rtt(i) * SECOND)
  {
    if n == 0 then [] else History(n - 1) + [ReceivedPong(n - 1, Rtt(n - 1) * SECOND)]
  }

  function SentAt(n: nat): nat {
    if n == 0 then 0 else if n == 1 then 2 * SECOND else SentAt(n - 1) + Rtt(n - 1) * SECOND
  }

  /** After `n` answered probes. */
  function Answered(n: nat): Conn
    requires n >= 1
  {
    Alive(Checker(n, false, false, [], Some(SentAt(n - 1)), History(n)), if n == 1 then SECOND else SentAt(n), SentAt(n))
  }

  lemma AnsweredQuiet(n: nat)
    requires n >= 1
    ensures Quiet(Answered(n), SentAt(n)) && Ordered(Answered(n).c)
    ensures Exchanged(Answered(n).c, SentAt(n), Rtt(n)) == Answered(n + 1)
  {
  }

  lemma PeriodIs(c: Checker, slowest: nat)
    requires c.accepted != [] && MIN_PROBE_LOST_PERIOD <= 2 * slowest <= MAX_PROBE_LOST_PERIOD
    requires forall k :: 0 <= k < |c.accepted| && InWindow(c.accepted, c.accepted[k]) ==> c.accepted[k].rtt <= slowest
    requires exists k :: 0 <= k < |c.accepted| && InWindow(c.accepted, c.accepted[k]) && c.accepted[k].rtt == slowest
    ensures ProbeLostPeriod(c) == 2 * slowest
  {
    var latest := c.accepted[|c.accepted| - 1].idSeq;
    assert forall k :: 0 <= k < |c.accepted| ==>
      (InWindow(c.accepted, c.accepted[k]) <==> latest - c.accepted[k].idSeq <= SLOW_PONG_WINDOW);
    SlowestSinceBounds(c.accepted, latest, slowest);
    SlowestSinceBounds(c.accepted, latest, slowest - 1);
  }

  lemma AnsweredPeriod(n: nat)
    requires 1 <= n <= 104
    ensures n < 104 ==> Rtt(n) * SECOND <= ProbeLostPeriod(Answered(n).c)
    ensures 4 <= n ==> ProbeLostPeriod(Answered(n).c) == 16 * SECOND
  {
    var pongs, slowest := History(n), if n < 4 then n - 1 else 3;
    assert InWindow(pongs, pongs[slowest]);
    PeriodIs(Answered(n).c, Rtt(slowest) * SECOND);
  }

  lemma {:induction false} MoreAnswers(i: nat, n: nat, rest: seq<Event>, t: Conn) returns (es: seq<Event>)
    requires 1 <= i <= n == 104 && Leads(Answered(n), rest, t)
    ensures Leads(Answered(i), es, t)
    decreases n - i
  {
    if i == n {
      es := rest;
    } else {
      var tail := MoreAnswers(i + 1, n, rest, t);
      AnsweredQuiet(i);
      AnsweredPeriod(i);
      ExchangeLeads(Answered(i), SentAt(i), Rtt(i), tail, t);
      es := Exchange(Answered(i).c, SentAt(i), Rtt(i)) + tail;
    }
  }

  lemma StartUp(rest: seq<Event>, t: Conn)
    requires Leads(Answered(1), rest, t)
    ensures var p := SentPing(0, 0, PROBE_PREFIX);
            Leads(Start(0), [PollDue(PROBE_PREFIX)] + ([Event.Packet(SECOND, EchoOf(p))] + ([PollDue(PROBE_PREFIX)] + rest)), t)
  {
    var p, poll := SentPing(0, 0, PROBE_PREFIX), PollDue(PROBE_PREFIX);
    var c := SendPing(NEW_CHECKER, 0, PROBE_PREFIX);
    var s1, s2 := Alive(c, 0, SECOND), Alive(Answered(1).c, SECOND, SECOND);
    SendPingOrdered(NEW_CHECKER, 0, PROBE_PREFIX);
    FirstPolls();
    LeadsStep(s2, poll, Answered(1), rest, t);
    EchoReceived(s1, SECOND, p, [poll] + rest, t);
    LeadsStep(Start(0), poll, s1, [Event.Packet(SECOND, EchoOf(p))] + ([poll] + rest), t);
  }

  lemma FirstPolls()
    ensures var c := SendPing(NEW_CHECKER, 0, PROBE_PREFIX);
            && c.outstanding == [SentPing(0, 0, PROBE_PREFIX)]
            && Settle(c, 0, SECOND) == Answered(1).c
            && Step(Start(0), PollDue(PROBE_PREFIX)) == Alive(c, 0, SECOND)
            && ProbeSent(Start(0), PollDue(PROBE_PREFIX)) == Some(SentPing(0, 0, PROBE_PREFIX))
    ensures var s := Alive(Answered(1).c, SECOND, SECOND);
            && Step(s, PollDue(PROBE_PREFIX)) == Answered(1)
            && ProbeSent(s, PollDue(PROBE_PREFIX)) == None
  {
    var c := SendPing(NEW_CHECKER, 0, PROBE_PREFIX);
    assert History(1) == History(0) + [ReceivedPong(0, SECOND)];
    assert c.outstanding[1..] == [];
  }

  lemma FromStart(n: nat, rest: seq<Event>, t: Conn) returns (es: seq<Event>)
    requires n == 104 && Leads(Answered(n), rest, t)
    ensures Leads(Start(0), es, t)
  {
    var tail := MoreAnswers(1, n, rest, t);
    StartUp(tail, t);
    es := [PollDue(PROBE_PREFIX)] + ([Event.Packet(SECOND, EchoOf(SentPing(0, 0, PROBE_PREFIX)))] + ([PollDue(PROBE_PREFIX)] + tail));
  }

  /** The slow pong 3 is in the deque when pong 103 was accepted, although it answers
      none of the last hundred pings. */
  lemma SlowPongOutlivesLastPings() returns (es: seq<Event>)
    ensures IsRun(Start(0), es) && Run(Start(0), es).Alive?
    ensures var c := Run(Start(0), es).c;
            && c.nextIdSeq == 104
            && forall deque :: IsDeque(deque, c.accepted) ==>
                 ReceivedPong(3, 8 * SECOND) in deque && c.nextIdSeq - 3 > SLOW_PONG_WINDOW
  {
    var n := 104;
    es := FromStart(n, [], Answered(n));
    var pongs := History(n);
    forall deque | IsDeque(deque, pongs) ensures ReceivedPong(3, 8 * SECOND) in deque {
      DequeIsSuffixMaxima(deque, pongs, 3);
    }
  }

  // ------------------------------------------------------------ the period shrinks

  /** All polls come before `limit`. */
  predicate PollsBefore(s: Conn, es: seq<Event>, limit: nat)
    requires IsRun(s, es)
    decreases |es|
  {
    es != [] ==> (es[0].PollDue? ==> s.pollAt < limit) && PollsBefore(Step(s, es[0]), es[1..], limit)
  }

  lemma {:induction false} NotPolledTooLate(s: Conn, es: seq<Event>, limit: nat, p: SentPing, expiry: nat)
    requires IsRun(s, es) && PollsBefore(s, es, limit) && limit <= expiry
    ensures EchoedBefore(s, es, p, expiry)
    decreases |es|
  {
    if es != [] {
      NotPolledTooLate(Step(s, es[0]), es[1..], limit, p, expiry);
    }
  }

  /** The events end with Dead before `limit`, and every probe is echoed while the
      period in force when it left lasts. */
  predicate Dies(s: Conn, es: seq<Event>, limit: nat) {
    IsRun(s, es) && EchoedInTime(PeriodWhenSent, s, es) && Run(s, es).TunnelDead? && PollsBefore(s, es, limit)
  }

  lemma DiesStep(s: Conn, e: Event, s': Conn, es: seq<Event>, limit: nat)
    requires Enabled(s, e) && Step(s, e) == s' && Dies(s', es, limit)
    requires e.PollDue? ==> s.pollAt < limit
    requires ProbeSent(s, e).Some? ==> limit <= ProbeSent(s, e).value.sentAt + Allowance(PeriodWhenSent, s, e)
    ensures Dies(s, [e] + es, limit)
  {
    assert ([e] + es)[1..] == es;
    if ProbeSent(s, e).Some? {
      var p := ProbeSent(s, e).value;
      NotPolledTooLate(s', es, limit, p, p.sentAt + Allowance(PeriodWhenSent, s, e));
    }
  }

  /** With the period at ten seconds and the fifth probe under way for almost as long,
      polling on ends with Dead when that probe is ten seconds old. */
  predicate Doomed(s: Conn, end: nat) {
    && s.Alive? && Inv(s) && !s.c.isWaking && ProbeLostPeriod(s.c) == 10 * SECOND
    && |s.c.outstanding| > MAX_ALLOWED_LOST_PROBES
    && s.c.outstanding[MAX_ALLOWED_LOST_PROBES].sentAt + 10 * SECOND == end
    && s.pollAt <= end <= s.pollAt + 9 * SECOND
  }

  lemma DoomedDies(s: Conn, end: nat)
    requires Doomed(s, end)
    ensures Drive(s.c, s.pollAt, PROBE_PREFIX).TunnelDead? <==> s.pollAt == end
  {
    DriveDeadIff(s.c, s.pollAt, PROBE_PREFIX);
    DeadIff(s.c, s.pollAt, PROBE_PREFIX);
  }

  /** The poll after that is due no later than the end. */
  lemma NextPollBy(c: Checker, now: nat, t: nat, end: nat)
    requires Ordered(c) && !c.isWaking && ProbeLostPeriod(c) == 10 * SECOND && |c.outstanding| > MAX_ALLOWED_LOST_PROBES
    requires c.outstanding[MAX_ALLOWED_LOST_PROBES].sentAt + 10 * SECOND == end
    requires Poll(c, now, PROBE_PREFIX).1 == AliveUntil(t)
    ensures now < t <= end
  {
    var i := CountIsPrefix(c, now);
    AliveUntilFuture(c, now, PROBE_PREFIX);
    assert c.outstanding[i].sentAt <= c.outstanding[MAX_ALLOWED_LOST_PROBES].sentAt;
  }

  lemma DoomedStays(s: Conn, end: nat)
    requires Doomed(s, end) && s.pollAt < end
    ensures var s' := Drive(s.c, s.pollAt, PROBE_PREFIX);
            s'.Alive? && Doomed(s', end) && s'.pollAt > s.pollAt
  {
    var s' := Drive(s.c, s.pollAt, PROBE_PREFIX);
    DoomedDies(s, end);
    DriveInv(s.c, s.pollAt, PROBE_PREFIX);
    DriveAnswers(s.c, s.pollAt, PROBE_PREFIX);
    NextPollBy(s'.c, s.pollAt, s'.pollAt, end);
  }

  lemma DoomedStep(s: Conn, end: nat, s': Conn, rest: seq<Event>)
    requires Doomed(s, end) && s' == Drive(s.c, s.pollAt, PROBE_PREFIX) && Dies(s', rest, end + SECOND)
    ensures Dies(s, [PollDue(PROBE_PREFIX)] + rest, end + SECOND)
  {
    DiesStep(s, PollDue(PROBE_PREFIX), s', rest, end + SECOND);
  }

  lemma {:induction false} DiesOut(s: Conn, end: nat) returns (es: seq<Event>)
    requires Doomed(s, end)
    ensures Dies(s, es, end + SECOND)
    decreases end - s.pollAt
  {
    var s' := Drive(s.c, s.pollAt, PROBE_PREFIX);
    var rest := [];
    DoomedDies(s, end);
    if s.pollAt < end {
      DoomedStays(s, end);
      rest := DiesOut(s', end);
    }
    DoomedStep(s, end, s', rest);
    es := [PollDue(PROBE_PREFIX)] + rest;
  }

  /** A probe each second, all unanswered. */
  function Burst(c: Checker, at: nat, j: nat): Checker {
    SendPing(if j == 0 then c else Burst(c, at, j - 1), at + j * SECOND, PROBE_PREFIX)
  }

  function BurstConn(c: Checker, at: nat, j: nat): Conn {
    Alive(Burst(c, at, j), at + j * SECOND, at + (j + 1) * SECOND)
  }

  /** The checker that has sent the probes of a burst up to the j-th. */
  predicate IsBurst(c: Checker, from: Checker, at: nat, j: nat) {
    && Ordered(c) && c.accepted == from.accepted && !c.isWaking && !c.userTraffic
    && c.nextIdSeq == from.nextIdSeq + j + 1 && c.lastPing == Some(at + j * SECOND)
    && |c.outstanding| == j + 1
    && forall i :: 0 <= i <= j ==> c.outstanding[i] == SentPing(at + i * SECOND, from.nextIdSeq + i, PROBE_PREFIX)
  }

  lemma BurstGrows(c: Checker, from: Checker, at: nat, j: nat)
    requires IsBurst(c, from, at, j)
    ensures IsBurst(SendPing(c, at + (j + 1) * SECOND, PROBE_PREFIX), from, at, j + 1)
  {
    SendPingOrdered(c, at + (j + 1) * SECOND, PROBE_PREFIX);
  }

  lemma {:induction false} BurstShape(s: Conn, at: nat, j: nat)
    requires Quiet(s, at) && Ordered(s.c)
    ensures IsBurst(Burst(s.c, at, j), s.c, at, j)
  {
    if j > 0 {
      BurstShape(s, at, j - 1);
      BurstGrows(Burst(s.c, at, j - 1), s.c, at, j - 1);
    } else {
      SendPingOrdered(s.c, at, PROBE_PREFIX);
    }
  }

  /** A poll finds nothing lost. */
  lemma NothingLost(c: Checker, now: nat)
    requires Ordered(c) && (c.outstanding != [] ==> now < c.outstanding[0].sentAt + ProbeLostPeriod(c))
    ensures LostProbes(c, now) == 0
    ensures NextExpiry(c.outstanding, ProbeLostPeriod(c), now)
         == if c.outstanding == [] then None else Some(c.outstanding[0].sentAt + ProbeLostPeriod(c))
  {
    var i := CountIsPrefix(c, now);
  }

  /** User traffic right after a probe is only noted. */
  function Noted(c: Checker, at: nat, j: nat): Conn {
    Alive(c.(userTraffic := true), at + j * SECOND, at + (j + 1) * SECOND)
  }

  lemma TrafficNoted(c: Checker, from: Checker, at: nat, j: nat)
    requires IsBurst(c, from, at, j)
    ensures var s, t := Alive(c, at + j * SECOND, at + (j + 1) * SECOND), Traffic(at + j * SECOND, PROBE_PREFIX);
            Enabled(s, t) && Step(s, t) == Noted(c, at, j) && ProbeSent(s, t) == None
  {
  }

  lemma BurstPolls(c: Checker, from: Checker, at: nat, j: nat)
    requires IsBurst(c, from, at, j) && ProbeLostPeriod(from) == 16 * SECOND && j < 10
    ensures var now := at + (j + 1) * SECOND;
            Poll(c.(userTraffic := true), now, PROBE_PREFIX) == (SendPing(c, now, PROBE_PREFIX), SendPacket)
  {
    NothingLost(c.(userTraffic := true), at + (j + 1) * SECOND);
  }

  lemma BurstRests(c: Checker, from: Checker, at: nat, j: nat)
    requires IsBurst(c, from, at, j) && ProbeLostPeriod(from) == 16 * SECOND && j <= 10
    ensures Poll(c, at + j * SECOND, PROBE_PREFIX) == (c, AliveUntil(at + (j + 1) * SECOND))
  {
    NothingLost(c, at + j * SECOND);
  }

  /** It makes the poll a second later send the next probe. */
  lemma PollSendsNext(c: Checker, from: Checker, at: nat, j: nat)
    requires IsBurst(c, from, at, j) && ProbeLostPeriod(from) == 16 * SECOND && j < 10
    ensures var s, now := Noted(c, at, j), at + (j + 1) * SECOND;
            && Step(s, PollDue(PROBE_PREFIX)) == Alive(SendPing(c, now, PROBE_PREFIX), now, now + SECOND)
            && ProbeSent(s, PollDue(PROBE_PREFIX)) == Some(SentPing(now, c.nextIdSeq, PROBE_PREFIX))
            && Allowance(PeriodWhenSent, s, PollDue(PROBE_PREFIX)) == 16 * SECOND
  {
    BurstPolls(c, from, at, j);
    BurstGrows(c, from, at, j);
    BurstRests(SendPing(c, at + (j + 1) * SECOND, PROBE_PREFIX), from, at, j + 1);
  }

  lemma TrafficThenDies(c: Checker, from: Checker, at: nat, j: nat, es: seq<Event>, limit: nat)
    requires IsBurst(c, from, at, j) && Dies(Noted(c, at, j), es, limit)
    ensures Dies(Alive(c, at + j * SECOND, at + (j + 1) * SECOND), [Traffic(at + j * SECOND, PROBE_PREFIX)] + es, limit)
  {
    TrafficNoted(c, from, at, j);
    DiesStep(Alive(c, at + j * SECOND, at + (j + 1) * SECOND), Traffic(at + j * SECOND, PROBE_PREFIX), Noted(c, at, j), es, limit);
  }

  lemma PollThenDies(c: Checker, from: Checker, at: nat, j: nat, es: seq<Event>, limit: nat)
    requires IsBurst(c, from, at, j) && ProbeLostPeriod(from) == 16 * SECOND && j < 10 && limit == at + 16 * SECOND
    requires var now := at + (j + 1) * SECOND;
             Dies(Alive(SendPing(c, now, PROBE_PREFIX), now, now + SECOND), es, limit)
    ensures Dies(Noted(c, at, j), [PollDue(PROBE_PREFIX)] + es, limit)
  {
    var now := at + (j + 1) * SECOND;
    PollSendsNext(c, from, at, j);
    DiesStep(Noted(c, at, j), PollDue(PROBE_PREFIX), Alive(SendPing(c, now, PROBE_PREFIX), now, now + SECOND), es, limit);
  }

  lemma BurstStep(s: Conn, at: nat, j: nat, rest: seq<Event>) returns (es: seq<Event>)
    requires Quiet(s, at) && Ordered(s.c) && ProbeLostPeriod(s.c) == 16 * SECOND && j < 10
    requires Dies(BurstConn(s.c, at, j + 1), rest, at + 16 * SECOND)
    ensures Dies(BurstConn(s.c, at, j), es, at + 16 * SECOND)
  {
    var c := Burst(s.c, at, j);
    BurstShape(s, at, j);
    PollThenDies(c, s.c, at, j, rest, at + 16 * SECOND);
    TrafficThenDies(c, s.c, at, j, [PollDue(PROBE_PREFIX)] + rest, at + 16 * SECOND);
    es := [Traffic(at + j * SECOND, PROBE_PREFIX)] + ([PollDue(PROBE_PREFIX)] + rest);
  }

  lemma {:induction false} BurstDies(s: Conn, at: nat, j: nat, last: nat, rest: seq<Event>) returns (es: seq<Event>)
    requires Quiet(s, at) && Ordered(s.c) && ProbeLostPeriod(s.c) == 16 * SECOND && j <= last <= 10
    requires Dies(BurstConn(s.c, at, last), rest, at + 16 * SECOND)
    ensures Dies(BurstConn(s.c, at, j), es, at + 16 * SECOND)
    decreases last - j
  {
    if j == last {
      es := rest;
    } else {
      var tail := BurstDies(s, at, j + 1, last, rest);
      es := BurstStep(s, at, j, tail);
    }
  }

  lemma BurstStarts(s: Conn, at: nat, rest: seq<Event>)
    requires Quiet(s, at) && Ordered(s.c) && ProbeLostPeriod(s.c) == 16 * SECOND
    requires Dies(BurstConn(s.c, at, 0), rest, at + 16 * SECOND)
    ensures Dies(s, [Traffic(at, PROBE_PREFIX)] + ([PollDue(PROBE_PREFIX)] + rest), at + 16 * SECOND)
  {
    var p, s' := Probe(s.c, at), Alive(SendPing(s.c, at, PROBE_PREFIX), at, at);
    TrafficSends(s, at);
    PollWaits(s', p);
    assert Burst(s.c, at, 0) == s'.c;
    DiesStep(s', PollDue(PROBE_PREFIX), BurstConn(s.c, at, 0), rest, at + 16 * SECOND);
    DiesStep(s, Traffic(at, PROBE_PREFIX), s', [PollDue(PROBE_PREFIX)] + rest, at + 16 * SECOND);
  }

  lemma PeriodAfterEcho(n: nat, c: Checker)
    requires n == 104 && c.accepted == History(n) + [ReceivedPong(n, 5 * SECOND)]
    ensures ProbeLostPeriod(c) == 10 * SECOND
  {
    assert InWindow(c.accepted, c.accepted[n]);
    PeriodIs(c, 5 * SECOND);
  }

  /** The echo of the first probe of the burst drops the slow pong from the window. */
  lemma EchoShrinks(n: nat, from: Checker, c: Checker, at: nat)
    requires n == 104 && from.nextIdSeq == n && from.accepted == History(n) && IsBurst(c, from, at, 5)
    ensures var b := Alive(c, at + 5 * SECOND, at + 6 * SECOND);
            var e, s' := Event.Packet(at + 5 * SECOND, EchoOf(c.outstanding[0])), b.(c := Settle(c, 0, 5 * SECOND));
            Enabled(b, e) && Step(b, e) == s' && Doomed(s', at + 15 * SECOND)
  {
    EchoMatches(c, 0);
    SettleOrdered(c, 0, 5 * SECOND);
    var c' := Settle(c, 0, 5 * SECOND);
    PeriodAfterEcho(n, c');
    assert c'.outstanding[4] == c.outstanding[5];
  }

  lemma AfterBurstDies(n: nat, from: Checker, c: Checker, at: nat) returns (es: seq<Event>)
    requires n == 104 && from.nextIdSeq == n && from.accepted == History(n) && IsBurst(c, from, at, 5)
    ensures Dies(Alive(c, at + 5 * SECOND, at + 6 * SECOND), es, at + 16 * SECOND)
  {
    var b := Alive(c, at + 5 * SECOND, at + 6 * SECOND);
    var e, s' := Event.Packet(at + 5 * SECOND, EchoOf(c.outstanding[0])), b.(c := Settle(c, 0, 5 * SECOND));
    EchoShrinks(n, from, c, at);
    var rest := DiesOut(s', at + 15 * SECOND);
    DiesStep(b, e, s', rest, at + 16 * SECOND);
    es := [e] + rest;
  }

  lemma QuietDies(n: nat, s: Conn, at: nat, last: nat) returns (es: seq<Event>)
    requires Quiet(s, at) && Ordered(s.c) && ProbeLostPeriod(s.c) == 16 * SECOND && last == 5
    requires n == 104 && s.c.nextIdSeq == n && s.c.accepted == History(n)
    ensures Dies(s, es, at + 16 * SECOND)
  {
    BurstShape(s, at, last);
    var rest := AfterBurstDies(n, s.c, Burst(s.c, at, last), at);
    var burst := BurstDies(s, at, 0, last, rest);
    BurstStarts(s, at, burst);
    es := [Traffic(at, PROBE_PREFIX)] + ([PollDue(PROBE_PREFIX)] + burst);
  }

  /** A run in which no probe is overdue by the loss period that was in force when it
      left, and yet the tunnel is declared dead: probes 105 to 109 leave under a period
      of sixteen seconds; the echo of 104 shortens it to ten, and when 109 is ten
      seconds under way all five count as lost. */
  lemma DeadThoughEchoedInTime() returns (es: seq<Event>)
    ensures IsRun(Start(0), es) && EchoedInTime(PeriodWhenSent, Start(0), es)
    ensures Run(Start(0), es).TunnelDead?
  {
    var n := 104;
    AnsweredQuiet(n);
    AnsweredPeriod(n);
    var end := QuietDies(n, Answered(n), SentAt(n), 5);
    es := FromStart(n, end, Run(Answered(n), end));
  }
}
