/** `withTimeout` of the Apple client (apple/shared/Concurrency.swift, lines 101-171):
    the operation's end and the timer race for one atomic flag. */
module Timeout {

  datatype Outcome = Returned | Threw | TimeoutElapsed

  /** `done` is the atomic flag; `resumes` lists the continuation's resumptions. */
  datatype Timeout = Timeout(done: bool, operationEnded: bool, timerFired: bool, cancelled: bool, resumes: seq<Outcome>)

  datatype Event = OperationEnds(ok: bool) | TimerFires

  const STARTED := Timeout(false, false, false, false, [])

  predicate Enabled(t: Timeout, e: Event) {
    match e
    case OperationEnds(_) => !t.operationEnded
    case TimerFires => !t.timerFired
  }

  /** `compareExchange(expected: false, desired: true)`. */
  function Exchange(done: bool): (bool, bool) { (!done, true) }

  function Step(t: Timeout, e: Event): Timeout {
    var (exchanged, done) := Exchange(t.done);
    match e
    case OperationEnds(ok) =>
      t.(done := done, operationEnded := true,
         resumes := if exchanged then t.resumes + [if ok then Returned else Threw] else t.resumes)
    case TimerFires =>
      t.(done := done, timerFired := true, cancelled := t.cancelled || exchanged,
         resumes := if exchanged then t.resumes + [TimeoutElapsed] else t.resumes)
  }

  predicate IsRun(es: seq<Event>) {
    es == [] || (IsRun(es[..|es| - 1]) && Enabled(After(es[..|es| - 1]), es[|es| - 1]))
  }

  function After(es: seq<Event>): Timeout {
    if es == [] then STARTED else Step(After(es[..|es| - 1]), es[|es| - 1])
  }

  /** Whichever comes first, the operation's end or the timer, resumes the
      continuation, exactly once; the operation is cancelled exactly when the timer
      won. */
  lemma {:induction false} ResumedExactlyOnce(es: seq<Event>)
    requires IsRun(es)
    ensures var t := After(es);
            && |es| <= 2
            && (|t.resumes| == if es == [] then 0 else 1)
            && (t.cancelled <==> es != [] && es[0].TimerFires?)
            && (es != [] ==>
                  t.resumes[0] ==
                    match es[0]
                    case TimerFires => TimeoutElapsed
                    case OperationEnds(ok) => if ok then Returned else Threw)
            && t.done == (es != [])
            && (t.operationEnded <==> exists i :: 0 <= i < |es| && es[i].OperationEnds?)
            && (t.timerFired <==> exists i :: 0 <= i < |es| && es[i].TimerFires?)
  {
    if es != [] {
      var init := es[..|es| - 1];
      ResumedExactlyOnce(init);
      assert forall i :: 0 <= i < |init| ==> es[i] == init[i];
      assert es[|es| - 1] == es[|init|];
    }
  }
}
