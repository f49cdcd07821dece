/** When the `maintain` loop looks at the target state again (rustlib/src/tunnel_state.rs,
    lines 184-391): whatever ends a round of the loop, be it a refusal of the operating
    system, a failed connection or a change of the target, the next thing the loop does
    is to read the target anew. */
module TargetLooks {
  import opened Maintain
  import opened TunnelState
  import opened Wrappers

  /** What the loop does not do itself. */
  predicate FromOutside(e: Event) { e.TargetChanges? || e.CountersGrow? }

  /** The target as the events left it. */
  function Wanted(wanted: TargetState, es: seq<Event>): TargetState
    decreases |es|
  {
    if es == [] then wanted else Wanted(if es[0].TargetChanges? then es[0].to else wanted, es[1..])
  }

  /** The loop can look at the target, and the next thing it does is to look at it; its
      copy is then the target of that moment. */
  predicate LooksNext(m: Machine, es: seq<Event>, wanted: TargetState)
    requires IsRun(m, es)
    decreases |es|
  {
    && Enabled(m, Reconcile(0))
    && (es != [] ==>
          if FromOutside(es[0])
          then LooksNext(Step(m, es[0]), es[1..], if es[0].TargetChanges? then es[0].to else wanted)
          else es[0].Reconcile? && Step(m, es[0]).target == wanted)
  }

  /** What ends a round of the loop. */
  predicate EndsRound(e: Event) {
    (e.OsResult? && !e.ok) || e.ConnectFails? || e.ReceiveFails? || e.NoticeChange?
  }

  lemma {:induction false} WantedIs(m: Machine, es: seq<Event>)
    requires IsRun(m, es)
    ensures Run(m, es).wanted == Wanted(m.wanted, es)
    decreases |es|
  {
    if es != [] {
      WantedIs(Step(m, es[0]), es[1..]);
    }
  }

  lemma {:induction false} TopLooksNext(m: Machine, es: seq<Event>)
    requires Inv(m) && m.pc.Top? && IsRun(m, es)
    ensures LooksNext(m, es, m.wanted)
    decreases |es|
  {
    if es != [] && FromOutside(es[0]) {
      StepKeeps(m, es[0]);
      TopLooksNext(Step(m, es[0]), es[1..]);
    }
  }

  /** In every run, after a refusal of the operating system, a failed connection, the
      end of a connection or a noticed change, the loop reads the target before it does
      anything else, and reads what the target is at that moment. */
  lemma LooksAgain(wanted: TargetState, es: seq<Event>, e: Event, later: seq<Event>)
    requires IsRun(Initial(wanted), es) && Enabled(Run(Initial(wanted), es), e) && EndsRound(e)
    requires IsRun(Step(Run(Initial(wanted), es), e), later)
    ensures LooksNext(Step(Run(Initial(wanted), es), e), later, Wanted(wanted, es))
  {
    var m := Run(Initial(wanted), es);
    RunKeeps(Initial(wanted), es);
    WantedIs(Initial(wanted), es);
    StepKeeps(m, e);
    TopLooksNext(Step(m, e), later);
  }

  // ---------------------------------------------------------------- how long a round is

  /** How many things the loop does itself in a run that does not look at the target. */
  function OwnSteps(es: seq<Event>): nat {
    if es == [] then 0 else (if FromOutside(es[0]) then 0 else 1) + OwnSteps(es[1..])
  }

  predicate NoLook(es: seq<Event>) { forall i :: 0 <= i < |es| ==> !es[i].Reconcile? }

  function StepsLeft(pc: Pc): nat {
    match pc
    case Top => 0
    case SettingDummy => 4
    case ConnectingExit => 3
    case SettingReal(_) => 2
    case Unsetting => 2
    case Forwarding(_) => 1
    case AwaitingChange => 1
  }

  lemma {:induction false} RoundIsShortFrom(m: Machine, es: seq<Event>)
    requires IsRun(m, es) && NoLook(es)
    ensures OwnSteps(es) <= StepsLeft(m.pc)
    decreases |es|
  {
    if es != [] {
      RoundIsShortFrom(Step(m, es[0]), es[1..]);
    }
  }

  /** From wherever a run has led, the loop takes at most four steps of its own before it
      looks at the target: the dummy configuration, the connection, the real
      configuration and the end of forwarding. */
  lemma RoundIsShort(wanted: TargetState, es: seq<Event>, later: seq<Event>)
    requires IsRun(Initial(wanted), es) && IsRun(Run(Initial(wanted), es), later) && NoLook(later)
    ensures OwnSteps(later) <= 4
  {
    RoundIsShortFrom(Run(Initial(wanted), es), later);
  }

  /** Looking at the target keeps a connection exactly when nothing broke it and it was
      made with the arguments and over the interface now asked for. */
  lemma ConnectionKeptIff(m: Machine, freshId: nat)
    requires Enabled(m, Reconcile(freshId)) && m.state.Connected?
    ensures var m' := Step(m, Reconcile(freshId));
            if m.reason.None? && m.wanted.tunnelArgs == Some(m.state.args)
               && m.wanted.networkInterface == Some(m.state.interface)
            then m'.state == m.state && m'.pc == SettingReal(m.state.connection)
            else !m'.state.Connected?
  {
  }
}
