/** The watchable value of the Apple client (apple/shared/WatchableValue.swift), and
    what a caller of `waitUntil` gets. */
module WatchableValue {
  import opened Wrappers

  type Waiter = nat

  // -------------------------------------------------------------------- the container

  class WatchableValue<T> {
    var value: T
    var continuations: seq<Waiter>
    ghost var asked: set<Waiter>
    ghost var resumed: map<Waiter, T>

    /** Every waiter that asked either waits, once, or was resumed, once. */
    ghost predicate Valid()
      reads this
    {
      && (forall i, j :: 0 <= i < j < |continuations| ==> continuations[i] != continuations[j])
      && (forall w :: w in asked <==> w in continuations || w in resumed)
      && (forall w :: !(w in continuations && w in resumed))
    }

    constructor (initial: T)
      ensures Valid() && value == initial && asked == {}
    {
      value, continuations, asked, resumed := initial, [], {}, map[];
    }

    /** Replaces the value and resumes every waiter with it. */
    method Update(f: T -> T) returns (published: T)
      requires Valid()
      modifies this
      ensures Valid() && asked == old(asked)
      ensures value == published == f(old(value)) && continuations == []
      ensures forall w :: w in resumed <==> w in old(resumed) || w in old(continuations)
      ensures forall w :: w in old(resumed) ==> resumed[w] == old(resumed[w])
      ensures forall w :: w in old(continuations) ==> resumed[w] == published
    {
      value := f(value);
      for i := 0 to |continuations|
        invariant value == f(old(value)) && continuations == old(continuations) && asked == old(asked)
        invariant forall w :: w in resumed <==> w in old(resumed) || w in continuations[..i]
        invariant forall w :: w in old(resumed) ==> resumed[w] == old(resumed[w])
        invariant forall w :: w in continuations[..i] ==> resumed[w] == value
      {
        assert continuations[i] !in resumed;
        resumed := resumed[continuations[i] := value];
      }
      assert continuations[..|continuations|] == continuations;
      continuations := [];
      return value;
    }

    /** Resumes the new waiter at once if the predicate holds of the value, and lets
        it wait for the next update otherwise. */
    method GetIfOrNext(predicate_: T -> bool, w: Waiter) returns (immediate: Option<T>)
      requires Valid() && w !in asked
      modifies this
      ensures Valid() && asked == old(asked) + {w} && value == old(value)
      ensures immediate == if predicate_(value) then Some(value) else None
      ensures immediate.Some? ==> resumed == old(resumed)[w := value] && continuations == old(continuations)
      ensures immediate.None? ==> resumed == old(resumed) && continuations == old(continuations) + [w]
    {
      asked := asked + {w};
      if predicate_(value) {
        resumed := resumed[w := value];
        return Some(value);
      }
      continuations := continuations + [w];
      return None;
    }
  }

  // ------------------------------------------------------------------------ waitUntil

  /** One caller of `waitUntil`: about to look, waiting, resumed with the i-th
      published value but not running yet, or returned with it. */
  datatype Phase = Looking | Suspended | Resumed(i: nat) | Returned(i: nat)

  /** `values` are the value at the call and those published since. */
  datatype Wait = Wait(values: seq<nat>, phase: Phase)

  datatype Event = Publish(value: nat) | CallerRuns

  predicate Enabled(s: Wait, e: Event) {
    e.CallerRuns? ==> s.phase.Looking? || s.phase.Resumed?
  }

  function Begin(value: nat): Wait { Wait([value], Looking) }

  predicate Satisfied(p: nat -> bool, s: Wait, i: nat) {
    i < |s.values| && p(s.values[i])
  }

  function Step(p: nat -> bool, s: Wait, e: Event): Wait
    requires Enabled(s, e) && s.values != []
  {
    var last := |s.values| - 1;
    match e
    case Publish(value) =>
      Wait(s.values + [value], if s.phase.Suspended? then Resumed(|s.values|) else s.phase)
    case CallerRuns =>
      (match s.phase
       case Looking => s.(phase := if p(s.values[last]) then Returned(last) else Suspended)
       case Resumed(i) => s.(phase := if Satisfied(p, s, i) then Returned(i) else Looking)
       case _ => s)
  }

  /** A value that satisfies the predicate is overwritten between two looks of the
      caller: it is not waiting, and was not handed a satisfying value. */
  predicate Overwrites(p: nat -> bool, s: Wait, e: Event)
    requires s.values != []
  {
    && e.Publish? && p(s.values[|s.values| - 1])
    && (s.phase.Looking? || (s.phase.Resumed? && !Satisfied(p, s, s.phase.i)))
  }

  predicate Inv(p: nat -> bool, s: Wait) {
    && s.values != []
    && (s.phase.Resumed? || s.phase.Returned? ==> s.phase.i < |s.values|)
    && (s.phase.Returned? ==> p(s.values[s.phase.i]))
    && (s.phase.Suspended? ==> !p(s.values[|s.values| - 1]))
  }

  /** Some value before the one the caller has, or before the current one, satisfies
      the predicate. */
  predicate HasMissed(p: nat -> bool, s: Wait)
    requires s.values != []
  {
    exists k :: 0 <= k < Frontier(p, s) && p(s.values[k])
  }

  function Frontier(p: nat -> bool, s: Wait): (k: nat)
    requires s.values != []
    ensures k < |s.values|
  {
    if (s.phase.Returned? || s.phase.Resumed?) && Satisfied(p, s, s.phase.i) then s.phase.i else |s.values| - 1
  }

  lemma StepKeeps(p: nat -> bool, s: Wait, e: Event)
    requires Inv(p, s) && Enabled(s, e)
    ensures Inv(p, Step(p, s, e))
    ensures HasMissed(p, Step(p, s, e)) <==> HasMissed(p, s) || Overwrites(p, s, e)
  {
    var s' := Step(p, s, e);
    assert forall k :: 0 <= k < |s.values| ==> s'.values[k] == s.values[k];
    if HasMissed(p, s) {
      var k :| 0 <= k < Frontier(p, s) && p(s.values[k]);
      assert s'.values[k] == s.values[k];
    }
    if Overwrites(p, s, e) {
      assert p(s'.values[|s.values| - 1]);
    }
  }

  predicate IsRun(p: nat -> bool, s: Wait, es: seq<Event>)
    requires s.values != []
    decreases |es|
  {
    es == [] || (Enabled(s, es[0]) && IsRun(p, Step(p, s, es[0]), es[1..]))
  }

  function Run(p: nat -> bool, s: Wait, es: seq<Event>): Wait
    requires s.values != [] && IsRun(p, s, es)
    decreases |es|
  {
    if es == [] then s else Run(p, Step(p, s, es[0]), es[1..])
  }

  /** A step of the run overwrites a satisfying value between two looks. */
  predicate OverwritesIn(p: nat -> bool, s: Wait, es: seq<Event>)
    requires s.values != [] && IsRun(p, s, es)
    decreases |es|
  {
    es != [] && (Overwrites(p, s, es[0]) || OverwritesIn(p, Step(p, s, es[0]), es[1..]))
  }

  lemma {:induction false} RunKeeps(p: nat -> bool, s: Wait, es: seq<Event>)
    requires Inv(p, s) && IsRun(p, s, es)
    ensures Inv(p, Run(p, s, es))
    ensures HasMissed(p, Run(p, s, es)) <==> HasMissed(p, s) || OverwritesIn(p, s, es)
    decreases |es|
  {
    if es != [] {
      StepKeeps(p, s, es[0]);
      RunKeeps(p, Step(p, s, es[0]), es[1..]);
    }
  }

  /** `waitUntil` returns only values that satisfy its predicate; and the value it
      returns is the first such value, as its documentation says, if and only if no
      event of the run overwrote a satisfying value between two looks of the caller. */
  lemma ReturnsFirstIff(p: nat -> bool, value: nat, es: seq<Event>)
    requires IsRun(p, Begin(value), es) && Run(p, Begin(value), es).phase.Returned?
    ensures var s := Run(p, Begin(value), es);
            && s.phase.i < |s.values| && p(s.values[s.phase.i])
            && (!OverwritesIn(p, Begin(value), es) <==> forall k :: 0 <= k < s.phase.i ==> !p(s.values[k]))
  {
    RunKeeps(p, Begin(value), es);
  }

  /** A run in which the promise fails: the caller waits for 1 or 3; 2, 1, 0 and 3
      are published before it looks again, and it returns 3. */
  lemma TransientValueMissed()
    ensures var p := (x: nat) => x == 1 || x == 3;
            var es := [CallerRuns, Publish(2), Publish(1), Publish(0), CallerRuns, CallerRuns, Publish(3), CallerRuns];
            && IsRun(p, Begin(0), es)
            && Run(p, Begin(0), es).phase == Returned(4)
            && Run(p, Begin(0), es).values == [0, 2, 1, 0, 3]
  {
    var p := (x: nat) => x == 1 || x == 3;
    var s1 := Step(p, Begin(0), CallerRuns);
    var s2 := Step(p, s1, Publish(2));
    var s3 := Step(p, s2, Publish(1));
    var s4 := Step(p, s3, Publish(0));
    var s5 := Step(p, s4, CallerRuns);
    var s6 := Step(p, s5, CallerRuns);
    var s7 := Step(p, s6, Publish(3));
    var s8 := Step(p, s7, CallerRuns);
    assert s4.values == [0, 2, 1, 0] && s4.phase == Resumed(1);
    assert s8.values == [0, 2, 1, 0, 3] && s8.phase == Returned(4);
    var e8 := [CallerRuns];
    RunOne(p, s7, CallerRuns, []);
    var e7 := [Publish(3)] + e8;
    RunOne(p, s6, Publish(3), e8);
    var e6 := [CallerRuns] + e7;
    RunOne(p, s5, CallerRuns, e7);
    var e5 := [CallerRuns] + e6;
    RunOne(p, s4, CallerRuns, e6);
    var e4 := [Publish(0)] + e5;
    RunOne(p, s3, Publish(0), e5);
    var e3 := [Publish(1)] + e4;
    RunOne(p, s2, Publish(1), e4);
    var e2 := [Publish(2)] + e3;
    RunOne(p, s1, Publish(2), e3);
    RunOne(p, Begin(0), CallerRuns, e2);
    assert [CallerRuns] + e2 ==
      [CallerRuns, Publish(2), Publish(1), Publish(0), CallerRuns, CallerRuns, Publish(3), CallerRuns];
  }

  lemma RunOne(p: nat -> bool, s: Wait, e: Event, rest: seq<Event>)
    requires s.values != [] && Enabled(s, e) && IsRun(p, Step(p, s, e), rest)
    ensures IsRun(p, s, [e] + rest) && Run(p, s, [e] + rest) == Run(p, Step(p, s, e), rest)
  {
    assert ([e] + rest)[1..] == rest;
  }
}
