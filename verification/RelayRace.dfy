/** The race between relay handshakes: spawning (rustlib/src/relay_selection.rs) and
    the loop that picks the best (rustlib/src/client_state.rs, lines 555-608). */
module RelayRace {
  import opened Wrappers

  const SECOND: nat := 1000
  const MAX_RELAYS: nat := 100
  const MAX_PORTS_PER_RELAY: nat := 5
  const ENOUGH_RELAYS: nat := 5

  datatype Relay = Relay(id: nat, ports: seq<nat>)

  /** A successful handshake, known by its identity. */
  datatype Candidate = Candidate(relay: nat, port: nat, rtt: nat, handshake: nat)

  /** How a task ends: with a handshake, with a connection error, or without a
      result because it was cancelled or panicked. */
  datatype TaskResult = Success(candidate: Candidate) | Failure | Cancelled | Panicked

  /** The tasks in the order in which they end; the environment chooses it. */
  datatype Completion = Completion(at: nat, result: TaskResult)

  // ------------------------------------------------------------------------ spawning

  function TasksOf(relays: seq<Relay>): seq<(nat, nat)> {
    if relays == [] then []
    else TasksOf(relays[..|relays| - 1]) + PortTasks(relays[|relays| - 1].id, Take(relays[|relays| - 1].ports, MAX_PORTS_PER_RELAY))
  }

  function PortTasks(id: nat, ports: seq<nat>): (r: seq<(nat, nat)>)
    ensures |r| == |ports|
  {
    if ports == [] then [] else PortTasks(id, ports[..|ports| - 1]) + [(id, ports[|ports| - 1])]
  }

  lemma {:induction false} TaskBound(relays: seq<Relay>)
    ensures |TasksOf(relays)| <= |relays| * MAX_PORTS_PER_RELAY
  {
    if relays != [] {
      TaskBound(relays[..|relays| - 1]);
    }
  }

  lemma {:induction false} PortTasksAre(id: nat, ports: seq<nat>, task: (nat, nat))
    ensures task in PortTasks(id, ports) <==> task.0 == id && task.1 in ports
  {
    if ports != [] {
      PortTasksAre(id, ports[..|ports| - 1], task);
      assert ports == ports[..|ports| - 1] + [ports[|ports| - 1]];
    }
  }

  /** A relay and a port are tried exactly when the port is one of the relay's first
      five. */
  lemma {:induction false} TasksAre(relays: seq<Relay>, task: (nat, nat))
    ensures task in TasksOf(relays) <==> exists r :: r in relays && r.id == task.0 && task.1 in Take(r.ports, 5)
  {
    if relays != [] {
      var init, last := relays[..|relays| - 1], relays[|relays| - 1];
      TasksAre(init, task);
      PortTasksAre(last.id, Take(last.ports, 5), task);
      assert relays == init + [last];
    }
  }

  /** One task for each of the first five ports of each of the first hundred relays:
      at most 500. */
  method SpawnTasks(relays: seq<Relay>) returns (tasks: seq<(nat, nat)>)
    ensures tasks == TasksOf(Take(relays, MAX_RELAYS))
    ensures forall task :: task in tasks <==>
              exists r :: r in Take(relays, 100) && r.id == task.0 && task.1 in Take(r.ports, 5)
    ensures |tasks| <= 500
  {
    tasks := [];
    var chosen := Take(relays, MAX_RELAYS);
    for i := 0 to |chosen|
      invariant tasks == TasksOf(chosen[..i])
    {
      var ports := Take(chosen[i].ports, MAX_PORTS_PER_RELAY);
      ghost var before := tasks;
      for j := 0 to |ports|
        invariant tasks == before + PortTasks(chosen[i].id, ports[..j])
      {
        tasks := tasks + [(chosen[i].id, ports[j])];
        assert ports[..j + 1][..j] == ports[..j];
      }
      assert ports[..|ports|] == ports;
      assert chosen[..i + 1][..i] == chosen[..i];
    }
    assert chosen[..|chosen|] == chosen;
    TaskBound(chosen);
    forall task ensures task in tasks <==> exists r :: r in chosen && r.id == task.0 && task.1 in Take(r.ports, 5) {
      TasksAre(chosen, task);
    }
  }

  // ----------------------------------------------------------------------- the race

  /** All candidates among some completions, in order. */
  function Candidates(cs: seq<Completion>): seq<Candidate> {
    if cs == [] then []
    else Candidates(cs[..|cs| - 1]) + (if cs[|cs| - 1].result.Success? then [cs[|cs| - 1].result.candidate] else [])
  }

  lemma {:induction false} CandidatesConcat(a: seq<Completion>, b: seq<Completion>)
    ensures Candidates(a + b) == Candidates(a) + Candidates(b)
  {
    if b == [] {
      assert a + b == a;
    } else {
      CandidatesConcat(a, b[..|b| - 1]);
      assert (a + b)[..|a + b| - 1] == a + b[..|b| - 1];
    }
  }

  /** The time at which the last of some completions, waited for in order, is seen. */
  function Clock(cs: seq<Completion>, start: nat): (t: nat)
    ensures t >= start
  {
    if cs == [] then start else Max(Clock(cs[..|cs| - 1], start), cs[|cs| - 1].at)
  }

  /** That is the latest of the start and the times at which they end. */
  lemma {:induction false} ClockIsLatest(cs: seq<Completion>, start: nat)
    ensures forall i :: 0 <= i < |cs| ==> cs[i].at <= Clock(cs, start)
    ensures Clock(cs, start) == start || exists i :: 0 <= i < |cs| && cs[i].at == Clock(cs, start)
  {
    if cs != [] {
      var init := cs[..|cs| - 1];
      ClockIsLatest(init, start);
      assert forall i :: 0 <= i < |init| ==> cs[i] == init[i];
      if Clock(cs, start) != start && Clock(cs, start) == Clock(init, start) {
        var i :| 0 <= i < |init| && init[i].at == Clock(init, start);
        assert cs[i].at == Clock(cs, start);
      }
    }
  }

  lemma {:induction false} ClockConcat(a: seq<Completion>, b: seq<Completion>, start: nat)
    ensures Clock(a + b, start) == Clock(b, Clock(a, start))
  {
    if b == [] {
      assert a + b == a;
    } else {
      ClockConcat(a, b[..|b| - 1], start);
      assert (a + b)[..|a + b| - 1] == a + b[..|b| - 1];
    }
  }

  datatype NextResult = Yielded(candidate: Candidate) | Finished | TimedOut

  function Count(cs: seq<Completion>, result: TaskResult): nat {
    if cs == [] then 0 else Count(cs[..|cs| - 1], result) + if cs[|cs| - 1].result == result then 1 else 0
  }

  function EndedWith(cs: seq<Completion>, result: TaskResult): set<nat> {
    set i | 0 <= i < |cs| && cs[i].result == result
  }

  lemma {:induction false} CountIs(cs: seq<Completion>, result: TaskResult)
    ensures Count(cs, result) == |EndedWith(cs, result)|
  {
    if cs != [] {
      var init := cs[..|cs| - 1];
      CountIs(init, result);
      assert EndedWith(cs, result) == EndedWith(init, result) + if cs[|cs| - 1].result == result then {|cs| - 1} else {};
    }
  }

  /** Failures, and then one success. */
  predicate IsYield(cs: seq<Completion>, c: Candidate) {
    cs != [] && Candidates(cs[..|cs| - 1]) == [] && cs[|cs| - 1].result == Success(c)
  }

  class RelayHandshakeRace {
    var tasks: seq<Completion>

    /** The next successful handshake before the deadline. A task that has already
        ended is seen even when the deadline has passed. */
    method Next(now: nat, deadline: nat) returns (next: NextResult, time: nat, ghost consumed: seq<Completion>)
      modifies this
      ensures old(tasks) == consumed + tasks
      ensures now <= time <= Max(now, deadline)
      ensures next.Yielded? ==> IsYield(consumed, next.candidate) && time == Clock(consumed, now)
      ensures !next.Yielded? ==> Candidates(consumed) == []
      ensures next.Finished? ==> tasks == []
      ensures next.TimedOut? ==> tasks != [] && tasks[0].at > Max(now, deadline)
    {
      consumed := [];
      time := now;
      while tasks != [] && tasks[0].at <= Max(now, deadline)
        invariant old(tasks) == consumed + tasks && Candidates(consumed) == []
        invariant now <= time <= Max(now, deadline) && time == Clock(consumed, now)
        decreases |tasks|
      {
        var task := tasks[0];
        assert (consumed + [task])[..|consumed|] == consumed;
        consumed := consumed + [task];
        tasks := tasks[1..];
        time := Max(time, task.at);
        match task.result
        case Success(candidate) => return Yielded(candidate), time, consumed;
        case _ =>
      }
      if tasks == [] {
        return Finished, time, consumed;
      }
      return TimedOut, Max(now, deadline), consumed;
    }

    /** Stops the race; every handshake that ends in spite of it is abandoned. */
    method Abandon() returns (abandons: seq<Candidate>, failed: nat, aborted: nat)
      modifies this
      ensures tasks == [] && abandons == Candidates(old(tasks))
      ensures failed == Count(old(tasks), Failure) && aborted == Count(old(tasks), Cancelled)
    {
      abandons, failed, aborted := [], 0, 0;
      ghost var drained := [];
      while tasks != []
        invariant old(tasks) == drained + tasks
        invariant abandons == Candidates(drained)
        invariant failed == Count(drained, Failure) && aborted == Count(drained, Cancelled)
        decreases |tasks|
      {
        var task := tasks[0];
        assert (drained + [task])[..|drained|] == drained;
        drained := drained + [task];
        tasks := tasks[1..];
        match task.result
        case Success(candidate) => abandons := abandons + [candidate];
        case Failure => failed := failed + 1;
        case Cancelled => aborted := aborted + 1;
        case Panicked =>
      }
      assert drained + tasks == drained;
    }
  }

  /** The different relays among some candidates. */
  function Relays(cs: seq<Candidate>): set<nat> {
    if cs == [] then {} else Relays(cs[..|cs| - 1]) + {cs[|cs| - 1].relay}
  }

  lemma {:induction false} RelaysAre(cs: seq<Candidate>)
    ensures Relays(cs) == set c | c in cs :: c.relay
  {
    if cs != [] {
      var init, last := cs[..|cs| - 1], cs[|cs| - 1];
      RelaysAre(init);
      assert cs == init + [last];
    }
  }

  predicate IsFastest(best: Candidate, cs: seq<Candidate>) {
    best in cs && forall i :: 0 <= i < |cs| ==> best.rtt <= cs[i].rtt
  }

  /** The best is the fastest of the yielded, and all others are rejected. */
  ghost predicate Kept(best: Option<Candidate>, rejected: seq<Candidate>, yielded: seq<Candidate>) {
    && (best.None? <==> yielded == [])
    && (best.Some? ==> IsFastest(best.value, yielded))
    && multiset(yielded) == multiset(rejected) + (if best.Some? then multiset{best.value} else multiset{})
  }

  lemma KeptSlower(best: Option<Candidate>, rejected: seq<Candidate>, yielded: seq<Candidate>, c: Candidate)
    requires Kept(best, rejected, yielded) && best.Some? && best.value.rtt <= c.rtt
    ensures Kept(best, rejected + [c], yielded + [c])
  {
  }

  lemma KeptFaster(best: Option<Candidate>, rejected: seq<Candidate>, yielded: seq<Candidate>, c: Candidate)
    requires Kept(best, rejected, yielded) && (best.Some? ==> c.rtt <= best.value.rtt)
    ensures Kept(Some(c), rejected + (if best.Some? then [best.value] else []), yielded + [c])
  {
    assert (yielded + [c])[|yielded|] == c;
  }

  /** The best candidate and the rejected ones after some handshakes. */
  function Race(yielded: seq<Candidate>): (Option<Candidate>, seq<Candidate>) {
    if yielded == [] then (None, [])
    else
      var (best, rejected) := Race(yielded[..|yielded| - 1]);
      var c := yielded[|yielded| - 1];
      if best.None? then (Some(c), rejected)
      else if best.value.rtt < c.rtt then (best, rejected + [c])
      else (Some(c), rejected + [best.value])
  }

  lemma RaceStep(yielded: seq<Candidate>, c: Candidate)
    ensures var (best, rejected) := Race(yielded);
            Race(yielded + [c]) ==
              if best.None? then (Some(c), rejected)
              else if best.value.rtt < c.rtt then (best, rejected + [c])
              else (Some(c), rejected + [best.value])
  {
    assert (yielded + [c])[..|yielded|] == yielded;
  }

  lemma {:induction false} RaceKept(yielded: seq<Candidate>)
    ensures Kept(Race(yielded).0, Race(yielded).1, yielded)
  {
    if yielded != [] {
      var init, c := yielded[..|yielded| - 1], yielded[|yielded| - 1];
      var (best, rejected) := Race(init);
      RaceKept(init);
      assert yielded == init + [c];
      if best.Some? && best.value.rtt < c.rtt {
        KeptSlower(best, rejected, init, c);
      } else {
        KeptFaster(best, rejected, init, c);
        assert rejected + [] == rejected;
      }
    }
  }

  /** When the best candidate so far was found. */
  function BestFound(cs: seq<Completion>, start: nat): (t: Option<nat>)
    ensures t.Some? ==> t.value >= start
  {
    if cs == [] then None
    else
      var init, last := cs[..|cs| - 1], cs[|cs| - 1].result;
      if last.Success? && Wins(Candidates(init), last.candidate) then Some(Clock(cs, start)) else BestFound(init, start)
  }

  /** When the loop stops waiting, after some completions: thirty seconds from the
      start, and once there is a candidate, three times as long as finding the best
      one took, but at most five seconds from the start. */
  function Deadline(cs: seq<Completion>, start: nat): nat {
    var found := BestFound(cs, start);
    start + if found.None? then 30 * SECOND else Min((found.value - start) * 3, 5 * SECOND)
  }

  /** A new handshake replaces the best so far unless that one was faster. */
  predicate Wins(yielded: seq<Candidate>, c: Candidate) {
    var best := Race(yielded).0;
    best.None? || !(best.value.rtt < c.rtt)
  }

  lemma {:induction false} NoneFound(cs: seq<Completion>, start: nat)
    ensures BestFound(cs, start).None? <==> Candidates(cs) == []
  {
    if cs != [] {
      NoneFound(cs[..|cs| - 1], start);
      RaceKept(Candidates(cs[..|cs| - 1]));
    }
  }

  lemma DeadlineBound(cs: seq<Completion>, start: nat)
    ensures Deadline(cs, start) <= start + 30 * SECOND
    ensures Candidates(cs) != [] ==> Deadline(cs, start) <= start + 5 * SECOND
  {
    NoneFound(cs, start);
  }

  /** The candidate that ended at position `j` is the last of the fastest. */
  predicate IsLastFastest(cs: seq<Completion>, j: nat, best: Candidate) {
    && j < |cs| && cs[j].result == Success(best)
    && forall k :: 0 <= k < |cs| && cs[k].result.Success? ==>
         best.rtt <= cs[k].result.candidate.rtt && (k > j ==> best.rtt < cs[k].result.candidate.rtt)
  }

  lemma {:induction false} NoneYet(cs: seq<Completion>)
    requires Candidates(cs) == []
    ensures forall k :: 0 <= k < |cs| ==> !cs[k].result.Success?
  {
    if cs != [] {
      var init := cs[..|cs| - 1];
      NoneYet(init);
      assert forall k :: 0 <= k < |init| ==> cs[k] == init[k];
    }
  }

  lemma OneMoreEnds(cs: seq<Completion>, j: nat, best: Candidate, last: Completion)
    requires IsLastFastest(cs, j, best)
    ensures last.result.Success? && !(best.rtt < last.result.candidate.rtt) ==>
              IsLastFastest(cs + [last], |cs|, last.result.candidate)
    ensures !last.result.Success? || best.rtt < last.result.candidate.rtt ==> IsLastFastest(cs + [last], j, best)
  {
  }

  lemma OnlySuccess(cs: seq<Completion>, last: Completion)
    requires Candidates(cs) == [] && last.result.Success?
    ensures IsLastFastest(cs + [last], |cs|, last.result.candidate)
  {
    NoneYet(cs);
  }

  lemma FoundStep(cs: seq<Completion>, last: Completion, start: nat)
    ensures Candidates(cs + [last]) ==
              if last.result.Success? then Candidates(cs) + [last.result.candidate] else Candidates(cs)
    ensures BestFound(cs + [last], start) ==
              if last.result.Success? && Wins(Candidates(cs), last.result.candidate)
              then Some(Clock(cs + [last], start)) else BestFound(cs, start)
  {
    assert (cs + [last])[..|cs|] == cs;
    assert Candidates(cs) + [] == Candidates(cs);
  }

  /** The best candidate is the one at position `j`, and was found then. */
  predicate FoundAt(cs: seq<Completion>, start: nat, j: nat) {
    && j < |cs|
    && Race(Candidates(cs)).0.Some? && IsLastFastest(cs, j, Race(Candidates(cs)).0.value)
    && BestFound(cs, start) == Some(Clock(cs[..j + 1], start))
  }

  lemma FirstFoundAt(cs: seq<Completion>, last: Completion, start: nat)
    requires Candidates(cs) == [] && last.result.Success?
    ensures FoundAt(cs + [last], start, |cs|)
  {
    var c := last.result.candidate;
    FoundStep(cs, last, start);
    assert Race([]) == (None, []) && Candidates(cs + [last]) == [] + [c];
    RaceStep([], c);
    OnlySuccess(cs, last);
    assert (cs + [last])[..|cs| + 1] == cs + [last];
  }

  lemma NextFoundAt(cs: seq<Completion>, last: Completion, start: nat, j: nat)
    requires FoundAt(cs, start, j)
    ensures FoundAt(cs + [last], start,
                    if last.result.Success? && Wins(Candidates(cs), last.result.candidate) then |cs| else j)
  {
    FoundStep(cs, last, start);
    if last.result.Success? { RaceStep(Candidates(cs), last.result.candidate); }
    OneMoreEnds(cs, j, Race(Candidates(cs)).0.value, last);
    assert (cs + [last])[..|cs| + 1] == cs + [last] && (cs + [last])[..j + 1] == cs[..j + 1];
  }

  /** When there is a candidate, the best is the last of the fastest, and the time to
      stop counts from when it was found. */
  lemma {:induction false} BestFoundAt(cs: seq<Completion>, start: nat) returns (j: nat)
    requires Candidates(cs) != []
    ensures FoundAt(cs, start, j)
  {
    var init, last := cs[..|cs| - 1], cs[|cs| - 1];
    assert cs == init + [last];
    if Candidates(init) == [] {
      FoundStep(init, last, start);
      FirstFoundAt(init, last, start);
      j := |init|;
    } else {
      j := BestFoundAt(init, start);
      NextFoundAt(init, last, start, j);
      j := if last.result.Success? && Wins(Candidates(init), last.result.candidate) then |init| else j;
    }
  }

  lemma {:induction false} FailuresFindNothing(cs: seq<Completion>, failures: seq<Completion>, start: nat)
    requires Candidates(failures) == []
    ensures BestFound(cs + failures, start) == BestFound(cs, start)
  {
    if failures == [] {
      assert cs + failures == cs;
    } else {
      FailuresFindNothing(cs, failures[..|failures| - 1], start);
      assert (cs + failures)[..|cs + failures| - 1] == cs + failures[..|failures| - 1];
    }
  }

  lemma YieldFinds(cs: seq<Completion>, more: seq<Completion>, c: Candidate, start: nat)
    requires IsYield(more, c)
    ensures Candidates(cs + more) == Candidates(cs) + [c]
    ensures BestFound(cs + more, start) ==
              if Wins(Candidates(cs), c) then Some(Clock(cs + more, start)) else BestFound(cs, start)
  {
    var failures := more[..|more| - 1];
    CandidatesConcat(cs, more);
    CandidatesConcat(cs, failures);
    assert Candidates(cs) + [] == Candidates(cs);
    FailuresFindNothing(cs, failures, start);
    assert (cs + more)[..|cs + more| - 1] == cs + failures;
    assert (cs + more)[|cs + more| - 1] == more[|more| - 1];
  }

  /** The clock has not passed the time to stop, or that at which the best was found. */
  predicate InTime(cs: seq<Completion>, start: nat, now: nat) {
    match BestFound(cs, start)
    case None => now <= start + 30 * SECOND
    case Some(found) => found <= now <= Max(found, Deadline(cs, start))
  }

  /** One wait of the loop, with the record of what has ended so far. */
  method Advance(race: RelayHandshakeRace, start: nat, now: nat, deadline: nat,
                 ghost consumed: seq<Completion>, ghost all: seq<Completion>)
    returns (next: NextResult, time: nat, ghost consumed': seq<Completion>)
    requires all == consumed + race.tasks && now == Clock(consumed, start)
    requires deadline == Deadline(consumed, start) && InTime(consumed, start, now)
    modifies race
    ensures all == consumed' + race.tasks
    ensures |race.tasks| <= |old(race.tasks)| && now <= time <= Max(now, deadline)
    ensures next.Yielded? ==> |race.tasks| < |old(race.tasks)| && time == Clock(consumed', start)
    ensures next.Yielded? ==>
              && Candidates(consumed') == Candidates(consumed) + [next.candidate]
              && Deadline(consumed', start) ==
                   if Wins(Candidates(consumed), next.candidate) then start + Min((time - start) * 3, 5 * SECOND)
                   else deadline
    ensures !next.Yielded? ==> Candidates(consumed') == Candidates(consumed) && Deadline(consumed', start) == deadline
    ensures InTime(consumed', start, time)
    ensures next.Finished? ==> race.tasks == []
    ensures next.TimedOut? ==> race.tasks != [] && race.tasks[0].at > Max(now, deadline)
  {
    ghost var passed;
    next, time, passed := race.Next(now, deadline);
    consumed' := consumed + passed;
    Regroup(consumed, passed, race.tasks);
    if next.Yielded? {
      ClockConcat(consumed, passed, start);
      YieldFinds(consumed, passed, next.candidate, start);
    } else {
      FailuresChangeNothing(consumed, passed, start);
    }
  }

  lemma Regroup(a: seq<Completion>, b: seq<Completion>, c: seq<Completion>)
    ensures a + (b + c) == a + b + c
  {
  }

  lemma FailuresChangeNothing(cs: seq<Completion>, failures: seq<Completion>, start: nat)
    requires Candidates(failures) == []
    ensures Candidates(cs + failures) == Candidates(cs) && BestFound(cs + failures, start) == BestFound(cs, start)
  {
    CandidatesConcat(cs, failures);
    assert Candidates(cs) + [] == Candidates(cs);
    FailuresFindNothing(cs, failures, start);
  }

  /** The loop waits thirty seconds for a first candidate, and for a faster one than the
      best until three times as long as finding that took, but at most five seconds from
      the start. Tasks it leaves end later, unless five relays answered. */
  predicate WaitedFor(best: Option<Candidate>, consumed: seq<Completion>, left: seq<Completion>, start: nat, end: nat,
                      enough: bool) {
    match best
    case None =>
      && (forall k :: 0 <= k < |consumed| ==> !consumed[k].result.Success?)
      && end <= start + 30_000
      && (left != [] && !enough ==> left[0].at > start + 30_000)
    case Some(b) =>
      exists j :: 0 <= j < |consumed| && IsLastFastest(consumed, j, b) && WaitedFrom(Clock(consumed[..j + 1], start), left, start, end, enough)
  }

  predicate WaitedFrom(found: nat, left: seq<Completion>, start: nat, end: nat, enough: bool)
    requires start <= found
  {
    var limit := if 3 * (found - start) <= 5_000 then start + 3 * (found - start) else start + 5_000;
    found <= end <= Max(found, limit) && (left != [] && !enough ==> left[0].at > limit)
  }

  lemma WaitedAsFound(consumed: seq<Completion>, left: seq<Completion>, start: nat, end: nat, enough: bool)
    requires InTime(consumed, start, end)
    requires left != [] && !enough ==> left[0].at > Deadline(consumed, start)
    ensures WaitedFor(Race(Candidates(consumed)).0, consumed, left, start, end, enough)
  {
    NoneFound(consumed, start);
    if Candidates(consumed) == [] {
      NoneYet(consumed);
    } else {
      var j := BestFoundAt(consumed, start);
      assert WaitedFrom(Clock(consumed[..j + 1], start), left, start, end, enough);
    }
  }

  /** The selection loop. `yielded` are the handshakes the race produced, and
      `rejected` those handed to abandonment inside the loop. It goes on until enough
      relays answered, no task is left, or the next task ends after the deadline. */
  method SelectRelay(race: RelayHandshakeRace, start: nat)
    returns (best: Option<Candidate>, end: nat, iterations: nat,
             ghost yielded: seq<Candidate>, rejected: seq<Candidate>, ghost consumed: seq<Completion>)
    modifies race
    ensures old(race.tasks) == consumed + race.tasks && yielded == Candidates(consumed)
    ensures Kept(best, rejected, yielded)
    ensures |yielded| <= iterations <= |yielded| + 1
    ensures iterations <= |old(race.tasks)| + 1
    ensures start <= end <= start + 30 * SECOND
    ensures |Relays(yielded)| <= 5
    ensures WaitedFor(best, consumed, race.tasks, start, end, |Relays(yielded)| == 5)
  {
    var deadline: nat, now: nat := start + 30 * SECOND, start;
    var relaysConnectedSuccessfully: set<nat> := {};
    best, iterations, yielded, rejected, consumed := None, 0, [], [], [];
    while true
      invariant old(race.tasks) == consumed + race.tasks && yielded == Candidates(consumed)
      invariant |yielded| == iterations <= |consumed|
      invariant (best, rejected) == Race(yielded)
      invariant relaysConnectedSuccessfully == Relays(yielded) && |relaysConnectedSuccessfully| < ENOUGH_RELAYS
      invariant now == Clock(consumed, start) <= start + 30 * SECOND
      invariant deadline == Deadline(consumed, start)
      invariant InTime(consumed, start, now)
      decreases |race.tasks|
    {
      iterations := iterations + 1;
      DeadlineBound(consumed, start);
      var next;
      next, now, consumed := Advance(race, start, now, deadline, consumed, old(race.tasks));
      if !next.Yielded? {
        break;
      }
      var candidate := next.candidate;
      RelaysOfOneMore(yielded, candidate);
      relaysConnectedSuccessfully := relaysConnectedSuccessfully + {candidate.relay};
      RaceStep(yielded, candidate);
      if best.Some? && best.value.rtt < candidate.rtt {
        rejected := rejected + [candidate];
      } else {
        deadline := start + Min((now - start) * 3, 5 * SECOND);
        if best.Some? {
          rejected := rejected + [best.value];
        }
        best := Some(candidate);
      }
      yielded := yielded + [candidate];
      if |relaysConnectedSuccessfully| >= ENOUGH_RELAYS {
        break;
      }
    }
    end := now;
    RaceKept(yielded);
    WaitedAsFound(consumed, race.tasks, start, end, |relaysConnectedSuccessfully| == ENOUGH_RELAYS);
  }

  lemma RelaysOfOneMore(cs: seq<Candidate>, c: Candidate)
    ensures Relays(cs + [c]) == Relays(cs) + {c.relay}
    ensures |Relays(cs + [c])| <= |Relays(cs)| + 1
  {
    assert (cs + [c])[..|cs|] == cs;
  }

  /** The whole selection, with the race abandoned at the end: every handshake that
      any task ever produced is returned or abandoned, exactly once. */
  method SelectAndAbandon(race: RelayHandshakeRace, start: nat)
    returns (best: Option<Candidate>, abandoned: seq<Candidate>)
    modifies race
    ensures race.tasks == []
    ensures multiset(Candidates(old(race.tasks)))
         == multiset(abandoned) + (if best.Some? then multiset{best.value} else multiset{})
  {
    var end, iterations, rejected;
    ghost var yielded, consumed;
    best, end, iterations, yielded, rejected, consumed := SelectRelay(race, start);
    CandidatesConcat(consumed, race.tasks);
    var rest, failed, aborted := race.Abandon();
    abandoned := rejected + rest;
  }
}
