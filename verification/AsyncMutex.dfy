/** The asynchronous mutex of the Apple client (apple/shared/Concurrency.swift, lines
    173-242). Each action runs under the object's lock, so a run is any sequence of
    actions. */
module AsyncMutex {
  import opened Wrappers

  /** A continuation, known by its identity. */
  type Waiter = nat

  datatype LockState = Unlocked | Locked(waiting: seq<Waiter>)

  /** `live` are the waiters whose guard exists, `arrived` all who asked, and
      `granted` those who got a guard, each in order. */
  datatype Mutex = Mutex(state: LockState, live: set<Waiter>, arrived: seq<Waiter>, granted: seq<Waiter>)

  datatype MutexEvent = Lock(waiter: Waiter) | DropGuard(holder: Waiter)

  const FREE := Mutex(Unlocked, {}, [], [])

  predicate MutexEnabled(m: Mutex, e: MutexEvent) {
    match e
    case Lock(waiter) => waiter !in m.arrived
    case DropGuard(holder) => holder in m.live
  }

  /** A guard is live exactly when the mutex is locked, there is at most one, and
      guards are granted in order of arrival. */
  predicate MutexInv(m: Mutex) {
    && (m.state.Unlocked? <==> m.live == {})
    && (m.live != {} ==> m.granted != [] && m.live == {m.granted[|m.granted| - 1]})
    && m.granted + (if m.state.Locked? then m.state.waiting else []) == m.arrived
    && (forall i, j :: 0 <= i < j < |m.arrived| ==> m.arrived[i] != m.arrived[j])
  }

  function MutexStep(m: Mutex, e: MutexEvent): Mutex {
    match e
    case Lock(waiter) =>
      (match m.state
       case Unlocked => Mutex(Locked([]), m.live + {waiter}, m.arrived + [waiter], m.granted + [waiter])
       case Locked(waiting) => m.(state := Locked(waiting + [waiter]), arrived := m.arrived + [waiter]))
    case DropGuard(holder) =>
      (match m.state
       case Unlocked => m.(live := m.live - {holder})
       case Locked(waiting) =>
         if waiting == [] then m.(state := Unlocked, live := m.live - {holder})
         else Mutex(Locked(waiting[1..]), m.live - {holder} + {waiting[0]}, m.arrived, m.granted + [waiting[0]]))
  }

  lemma MutexKeeps(m: Mutex, e: MutexEvent)
    requires MutexInv(m) && MutexEnabled(m, e)
    ensures MutexInv(MutexStep(m, e))
    ensures e.DropGuard? ==> m.state.Locked?
  {
    var m' := MutexStep(m, e);
    match e
    case Lock(waiter) =>
      if m.state.Locked? {
        assert m'.granted + m'.state.waiting == m.granted + m.state.waiting + [waiter];
      }
    case DropGuard(holder) =>
      if m.state.Locked? && m.state.waiting != [] {
        assert m'.granted + m'.state.waiting == m.granted + m.state.waiting;
      }
  }

  predicate MutexRun(m: Mutex, es: seq<MutexEvent>)
  {
    es == [] || (MutexRun(m, es[..|es| - 1]) && MutexEnabled(AfterMutex(m, es[..|es| - 1]), es[|es| - 1]))
  }

  function AfterMutex(m: Mutex, es: seq<MutexEvent>): Mutex {
    if es == [] then m else MutexStep(AfterMutex(m, es[..|es| - 1]), es[|es| - 1])
  }

  /** Every interleaving keeps the invariant, and no waiter is lost: whoever asked
      either holds or held a guard, or waits for the live one. */
  lemma {:induction false} MutexSafe(es: seq<MutexEvent>)
    requires MutexRun(FREE, es)
    ensures var m := AfterMutex(FREE, es);
            && MutexInv(m)
            && |m.live| <= 1
            && (forall w :: w in m.arrived ==> w in m.granted || (m.state.Locked? && w in m.state.waiting && |m.live| == 1))
  {
    if es != [] {
      MutexSafe(es[..|es| - 1]);
      MutexKeeps(AfterMutex(FREE, es[..|es| - 1]), es[|es| - 1]);
    }
    var m := AfterMutex(FREE, es);
    var waiting := if m.state.Locked? then m.state.waiting else [];
    forall w | w in m.arrived ensures w in m.granted || w in waiting {
      assert w in m.granted + waiting;
    }
  }

  /** Dropping guards one after another serves every waiter in turn. */
  lemma {:induction false} DropsServeAll(m: Mutex) returns (es: seq<MutexEvent>)
    requires MutexInv(m)
    ensures MutexRun(m, es) && AfterMutex(m, es).state.Unlocked?
    ensures MutexInv(AfterMutex(m, es)) && AfterMutex(m, es).granted == m.arrived
    decreases m.state.Locked?, if m.state.Locked? then |m.state.waiting| else 0
  {
    if m.state.Unlocked? {
      es := [];
    } else {
      var e := DropGuard(m.granted[|m.granted| - 1]);
      MutexKeeps(m, e);
      var rest := DropsServeAll(MutexStep(m, e));
      es := [e] + rest;
      RunPrepend(m, e, rest);
    }
  }

  lemma {:induction false} RunPrepend(m: Mutex, e: MutexEvent, rest: seq<MutexEvent>)
    requires MutexEnabled(m, e) && MutexRun(MutexStep(m, e), rest)
    ensures MutexRun(m, [e] + rest) && AfterMutex(m, [e] + rest) == AfterMutex(MutexStep(m, e), rest)
    decreases |rest|
  {
    var es := [e] + rest;
    if rest == [] {
      assert es[..0] == [];
    } else {
      RunPrepend(m, e, rest[..|rest| - 1]);
      assert es[..|es| - 1] == [e] + rest[..|rest| - 1];
    }
  }

  /** The object. `LockFor` returns whether the guard is handed out at once, and
      `Unlock`, which a guard's deinitialiser calls, who gets the next one. */
  class AsyncMutexObject {
    var state: LockState
    ghost var live: set<Waiter>
    ghost var arrived: seq<Waiter>
    ghost var granted: seq<Waiter>

    ghost function View(): Mutex
      reads this
    {
      Mutex(state, live, arrived, granted)
    }

    constructor ()
      ensures View() == FREE
    {
      state, live, arrived, granted := Unlocked, {}, [], [];
    }

    method LockFor(waiter: Waiter) returns (resumed: bool)
      requires MutexInv(View()) && MutexEnabled(View(), Lock(waiter))
      modifies this
      ensures View() == MutexStep(old(View()), Lock(waiter)) && MutexInv(View())
      ensures resumed <==> waiter in live
    {
      MutexKeeps(View(), Lock(waiter));
      arrived := arrived + [waiter];
      match state
      case Unlocked =>
        state := Locked([]);
        live, granted := live + {waiter}, granted + [waiter];
        return true;
      case Locked(waiting) =>
        state := Locked(waiting + [waiter]);
        assert granted[|granted| - 1] in old(View()).arrived;
        return false;
    }

    method Unlock(ghost holder: Waiter) returns (next: Option<Waiter>)
      requires MutexInv(View()) && MutexEnabled(View(), DropGuard(holder))
      modifies this
      ensures View() == MutexStep(old(View()), DropGuard(holder)) && MutexInv(View())
      ensures live == if next.Some? then {next.value} else {}
    {
      MutexKeeps(View(), DropGuard(holder));
      live := live - {holder};
      match state
      case Unlocked =>
        return None;
      case Locked(waiting) =>
        if waiting == [] {
          state := Unlocked;
          return None;
        }
        state := Locked(waiting[1..]);
        live, granted := live + {waiting[0]}, granted + [waiting[0]];
        return Some(waiting[0]);
    }
  }
}
