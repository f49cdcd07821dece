/** Versioned asynchronous state (obscura-ui/src/common/useAsync.ts): loads may
    settle in any order. */
module UseAsync {
  import opened Wrappers

  /** How a load settles: with a value or an error. */
  datatype Settlement = Loaded(value: nat) | Failed(error: nat)

  type Callback = nat

  /** `results` records how each load settled, and `notified` the callbacks called
      and with what; the component keeps neither. `inFlight` maps each unsettled load
      to the callbacks its closure holds. */
  datatype Async = Async(
    value: Option<nat>,
    lastSuccessful: Option<nat>,
    error: Option<nat>,
    loadVersion: nat,
    valueVersion: nat,
    refreshCallbacks: seq<Callback>,
    inFlight: map<nat, seq<Callback>>,
    results: map<nat, Settlement>,
    notified: seq<(Callback, Settlement)>)

  const INITIAL := Async(None, None, None, 0, 0, [], map[], map[], [])

  datatype Event = Refresh(callback: Callback) | Load | Settle(version: nat, result: Settlement)

  predicate Enabled(s: Async, e: Event) {
    match e
    case Refresh(callback) => callback !in Requested(s)
    case Load => true
    case Settle(version, _) => version in s.inFlight
  }

  function Notify(callbacks: seq<Callback>, r: Settlement): (n: seq<(Callback, Settlement)>)
    ensures |n| == |callbacks| && forall i :: 0 <= i < |n| ==> n[i] == (callbacks[i], r)
  {
    seq(|callbacks|, i requires 0 <= i < |callbacks| => (callbacks[i], r))
  }

  function SetValue(s: Async, version: nat, value: nat): Async {
    if version < s.valueVersion then s
    else s.(value := Some(value), lastSuccessful := Some(value), error := None, valueVersion := version)
  }

  function SetError(s: Async, version: nat, error: nat): Async {
    if version < s.loadVersion then s
    else s.(value := None, error := Some(error), valueVersion := version)
  }

  function Step(s: Async, e: Event): Async
    requires Enabled(s, e)
  {
    match e
    case Refresh(callback) => s.(refreshCallbacks := s.refreshCallbacks + [callback])
    case Load =>
      var version := s.loadVersion + 1;
      s.(refreshCallbacks := [], loadVersion := version, inFlight := s.inFlight[version := s.refreshCallbacks])
    case Settle(version, result) =>
      var s1 := s.(inFlight := s.inFlight - {version},
                   results := s.results[version := result],
                   notified := s.notified + Notify(s.inFlight[version], result));
      match result
      case Loaded(value) => SetValue(s1, version, value)
      case Failed(error) => SetError(s1, version, error)
  }

  /** What is shown is the result of the load `valueVersion`. */
  predicate Shows(s: Async, r: Settlement) {
    match r
    case Loaded(value) => s.value == Some(value) && s.error == None && s.lastSuccessful == Some(value)
    case Failed(error) => s.value == None && s.error == Some(error)
  }

  ghost predicate Inv(s: Async) {
    && s.valueVersion <= s.loadVersion
    && (forall v :: v in s.results || v in s.inFlight <==> 1 <= v <= s.loadVersion)
    && (forall v :: !(v in s.results && v in s.inFlight))
    && (s.valueVersion == 0 ==> s.value == None && s.error == None)
    && (s.valueVersion > 0 ==> s.valueVersion in s.results && Shows(s, s.results[s.valueVersion]))
    && (s.loadVersion in s.results ==> s.valueVersion == s.loadVersion)
    && (forall v :: v in s.results && s.results[v].Loaded? ==> v <= s.valueVersion)
  }

  lemma {:induction false} StepKeeps(s: Async, e: Event)
    requires Inv(s) && Enabled(s, e)
    ensures Inv(Step(s, e))
    ensures s.valueVersion <= Step(s, e).valueVersion && s.loadVersion <= Step(s, e).loadVersion
  {
  }

  predicate IsRun(s: Async, es: seq<Event>)
    decreases |es|
  {
    es == [] || (Enabled(s, es[0]) && IsRun(Step(s, es[0]), es[1..]))
  }

  function Run(s: Async, es: seq<Event>): Async
    requires IsRun(s, es)
    decreases |es|
  {
    if es == [] then s else Run(Step(s, es[0]), es[1..])
  }

  lemma {:induction false} RunKeeps(s: Async, es: seq<Event>)
    requires Inv(s) && IsRun(s, es)
    ensures Inv(Run(s, es))
    ensures s.valueVersion <= Run(s, es).valueVersion && s.loadVersion <= Run(s, es).loadVersion
    decreases |es|
  {
    if es != [] {
      StepKeeps(s, es[0]);
      RunKeeps(Step(s, es[0]), es[1..]);
    }
  }

  /** Whatever the order of completions: a value and an error are never shown
      together, what is shown is the result of one load, every newer load is unsettled
      or failed while it was no longer the newest, and once the newest load settled its
      result is shown. */
  lemma EveryOrder(es: seq<Event>)
    requires IsRun(INITIAL, es)
    ensures var s := Run(INITIAL, es);
            && s.valueVersion <= s.loadVersion
            && !(s.value.Some? && s.error.Some?)
            && (s.valueVersion > 0 ==> s.valueVersion in s.results && Shows(s, s.results[s.valueVersion]))
            && (forall v :: s.valueVersion < v && v in s.results ==> s.results[v].Failed? && v < s.loadVersion)
            && (s.loadVersion in s.results ==> Shows(s, s.results[s.loadVersion]))
  {
    RunKeeps(INITIAL, es);
  }

  /** An error is taken over if and only if it belongs to the newest load, and a value
      if and only if nothing newer is shown. */
  lemma AcceptedIff(s: Async, version: nat, result: Settlement)
    requires Inv(s) && version in s.inFlight
    ensures var s' := Step(s, Settle(version, result));
            && (result.Failed? ==> (s'.valueVersion == version <==> version == s.loadVersion))
            && (result.Loaded? ==> (s'.valueVersion == version <==> version > s.valueVersion))
            && (s'.valueVersion != version ==> s'.value == s.value && s'.error == s.error && s'.valueVersion == s.valueVersion)
  {
  }

  /** Once the newest load has settled, stale completions change nothing shown. */
  lemma {:induction false} StaleIgnored(s: Async, es: seq<Event>)
    requires Inv(s) && s.loadVersion in s.results && IsRun(s, es)
    requires forall i :: 0 <= i < |es| ==> !es[i].Load?
    ensures var s' := Run(s, es);
            s'.value == s.value && s'.error == s.error && s'.valueVersion == s.valueVersion && s'.loadVersion == s.loadVersion
    decreases |es|
  {
    if es != [] {
      StepKeeps(s, es[0]);
      StaleIgnored(Step(s, es[0]), es[1..]);
    }
  }

  // --------------------------------------------------------------- what the hook returns

  function Loading(s: Async): bool { s.valueVersion < s.loadVersion }

  function CurrentValue(s: Async): Option<nat> { if Loading(s) then None else s.value }

  function EverLoaded(s: Async): bool { s.valueVersion > 0 }

  /** In every run: `loading` says exactly that the newest load has not settled; the
      current value is that of the newest load and never stale; and a value or an error
      is set exactly when `everLoaded` says so. */
  lemma ReturnedIsCurrent(es: seq<Event>)
    requires IsRun(INITIAL, es)
    ensures var s := Run(INITIAL, es);
            && (Loading(s) <==> s.loadVersion in s.inFlight)
            && (forall x: nat :: CurrentValue(s) == Some(x) <==>
                  s.loadVersion in s.results && s.results[s.loadVersion] == Loaded(x))
            && (EverLoaded(s) <==> s.value.Some? || s.error.Some?)
  {
    RunKeeps(INITIAL, es);
  }

  /** A load that settled does not make `everLoaded` true if it failed and was not the
      newest. */
  lemma FailedButNeverLoaded(error: nat)
    ensures var es := [Load, Load, Settle(1, Failed(error))];
            IsRun(INITIAL, es) && !EverLoaded(Run(INITIAL, es)) && Run(INITIAL, es).results == map[1 := Failed(error)]
  {
    var es := [Load, Load, Settle(1, Failed(error))];
    var s1 := Step(INITIAL, Load);
    var s2 := Step(s1, Load);
    RunOne(s2, es[2], []);
    RunOne(s1, es[1], [es[2]]);
    RunOne(INITIAL, es[0], [es[1], es[2]]);
  }

  lemma RunOne(s: Async, e: Event, rest: seq<Event>)
    requires Enabled(s, e) && IsRun(Step(s, e), rest)
    ensures IsRun(s, [e] + rest) && Run(s, [e] + rest) == Run(Step(s, e), rest)
  {
    assert ([e] + rest)[1..] == rest;
  }

  /** Whether a load settled while it was the newest, or with a value. */
  predicate SettledInTime(s: Async, es: seq<Event>)
    requires IsRun(s, es)
    decreases |es|
  {
    es != [] &&
      (|| (es[0].Settle? && (es[0].result.Loaded? || es[0].version == s.loadVersion))
       || SettledInTime(Step(s, es[0]), es[1..]))
  }

  lemma {:induction false} EverLoadedFrom(s: Async, es: seq<Event>)
    requires Inv(s) && IsRun(s, es)
    ensures EverLoaded(Run(s, es)) <==> EverLoaded(s) || SettledInTime(s, es)
    decreases |es|
  {
    if es != [] {
      StepKeeps(s, es[0]);
      EverLoadedFrom(Step(s, es[0]), es[1..]);
    }
  }

  /** In every run `everLoaded` says exactly that some load settled with a value, or
      failed while it was the newest. */
  lemma EverLoadedIff(es: seq<Event>)
    requires IsRun(INITIAL, es)
    ensures EverLoaded(Run(INITIAL, es)) <==> SettledInTime(INITIAL, es)
  {
    EverLoadedFrom(INITIAL, es);
  }

  /** The latest value shown in a run. */
  function LastShown(s: Async, es: seq<Event>, last: Option<nat>): Option<nat>
    requires IsRun(s, es)
    decreases |es|
  {
    if es == [] then last
    else
      var s' := Step(s, es[0]);
      LastShown(s', es[1..], if s'.value.Some? then s'.value else last)
  }

  lemma {:induction false} LastSuccessfulFrom(s: Async, es: seq<Event>)
    requires IsRun(s, es) && (s.value.Some? ==> s.lastSuccessful == s.value)
    ensures Run(s, es).lastSuccessful == LastShown(s, es, s.lastSuccessful)
    decreases |es|
  {
    if es != [] {
      LastSuccessfulFrom(Step(s, es[0]), es[1..]);
    }
  }

  /** In every run the last successful value is the latest value ever shown: an error
      does not clear it, and no stale load overwrites it. */
  lemma LastSuccessfulIsLastShown(es: seq<Event>)
    requires IsRun(INITIAL, es)
    ensures Run(INITIAL, es).lastSuccessful == LastShown(INITIAL, es, None)
  {
    LastSuccessfulFrom(INITIAL, es);
  }

  // -------------------------------------------------------------------------- callbacks

  function Flatten(m: map<nat, seq<Callback>>, upTo: nat): seq<Callback> {
    if upTo == 0 then []
    else Flatten(m, upTo - 1) + (if upTo in m then m[upTo] else [])
  }

  function Called(n: seq<(Callback, Settlement)>): seq<Callback> {
    if n == [] then [] else Called(n[..|n| - 1]) + [n[|n| - 1].0]
  }

  /** All callbacks handed to `refresh` so far: waiting for a load, held by one, or
      called. */
  function Requested(s: Async): seq<Callback> {
    s.refreshCallbacks + Flatten(s.inFlight, s.loadVersion) + Called(s.notified)
  }

  lemma {:induction false} FlattenFrame(m: map<nat, seq<Callback>>, m': map<nat, seq<Callback>>, upTo: nat)
    requires forall v :: 1 <= v <= upTo ==> (v in m <==> v in m') && (v in m ==> m[v] == m'[v])
    ensures Flatten(m, upTo) == Flatten(m', upTo)
  {
    if upTo > 0 {
      FlattenFrame(m, m', upTo - 1);
    }
  }

  lemma SumExtended(a: seq<Callback>, b: seq<Callback>, c: seq<Callback>, more: seq<Callback>)
    requires multiset(a) == multiset(b) + multiset(c)
    ensures multiset(a + more) == multiset(b + more) + multiset(c)
  {
  }

  lemma {:induction false} FlattenRemove(m: map<nat, seq<Callback>>, v: nat, upTo: nat)
    requires v in m && 1 <= v <= upTo
    ensures multiset(Flatten(m, upTo)) == multiset(Flatten(m - {v}, upTo)) + multiset(m[v])
  {
    var rest := Flatten(m - {v}, upTo - 1);
    if v == upTo {
      FlattenFrame(m, m - {v}, upTo - 1);
      assert Flatten(m, upTo) == rest + m[v];
      assert Flatten(m - {v}, upTo) == rest + [] == rest;
    } else {
      FlattenRemove(m, v, upTo - 1);
      var more := if upTo in m then m[upTo] else [];
      SumExtended(Flatten(m, upTo - 1), rest, m[v], more);
      assert Flatten(m - {v}, upTo) == rest + more;
    }
  }

  lemma {:induction false} CalledConcat(n: seq<(Callback, Settlement)>, cs: seq<Callback>, r: Settlement)
    ensures Called(n + Notify(cs, r)) == Called(n) + cs
  {
    if cs == [] {
      assert n + Notify(cs, r) == n;
    } else {
      var init, last := cs[..|cs| - 1], cs[|cs| - 1];
      CalledConcat(n, init, r);
      assert Notify(cs, r) == Notify(init, r) + [(last, r)];
      assert (n + Notify(cs, r))[..|n| + |init|] == n + Notify(init, r);
    }
  }

  lemma FlattenAdd(m: map<nat, seq<Callback>>, upTo: nat, cs: seq<Callback>)
    ensures Flatten(m[upTo + 1 := cs], upTo + 1) == Flatten(m, upTo) + cs
  {
    FlattenFrame(m, m[upTo + 1 := cs], upTo);
  }

  lemma {:induction false} LoadConserves(s: Async)
    ensures multiset(Requested(Step(s, Load))) == multiset(Requested(s))
  {
    var s' := Step(s, Load);
    FlattenAdd(s.inFlight, s.loadVersion, s.refreshCallbacks);
    RequestedSplit(s);
    RequestedSplit(s');
  }

  lemma MoveToCalled(waiting: seq<Callback>, m: map<nat, seq<Callback>>, v: nat, upTo: nat,
                     n: seq<(Callback, Settlement)>, r: Settlement)
    requires v in m && 1 <= v <= upTo
    ensures multiset(waiting + Flatten(m - {v}, upTo) + Called(n + Notify(m[v], r)))
         == multiset(waiting + Flatten(m, upTo) + Called(n))
  {
    FlattenRemove(m, v, upTo);
    CalledConcat(n, m[v], r);
  }

  lemma SettleConserves(s: Async, version: nat, result: Settlement)
    requires Inv(s) && version in s.inFlight
    ensures multiset(Requested(Step(s, Settle(version, result)))) == multiset(Requested(s))
  {
    var s' := Step(s, Settle(version, result));
    assert s'.inFlight == s.inFlight - {version} && s'.notified == s.notified + Notify(s.inFlight[version], result);
    assert s'.loadVersion == s.loadVersion && s'.refreshCallbacks == s.refreshCallbacks;
    MoveToCalled(s.refreshCallbacks, s.inFlight, version, s.loadVersion, s.notified, result);
  }

  lemma RequestedSplit(s: Async)
    ensures multiset(Requested(s)) ==
              multiset(s.refreshCallbacks) + multiset(Flatten(s.inFlight, s.loadVersion)) + multiset(Called(s.notified))
  {
  }

  /** Loading and settling neither lose nor repeat a callback. */
  lemma CallbacksConserved(s: Async, e: Event)
    requires Inv(s) && Enabled(s, e)
    ensures multiset(Requested(Step(s, e))) ==
              multiset(Requested(s)) + (if e.Refresh? then multiset{e.callback} else multiset{})
  {
    match e
    case Refresh(callback) =>
      RequestedSplit(s);
      RequestedSplit(Step(s, e));
    case Load => LoadConserves(s);
    case Settle(version, result) => SettleConserves(s, version, result);
  }

  /** Callbacks are called only when the load that took them settles, and with its
      result. */
  lemma CalledWithOwnResult(s: Async, e: Event)
    requires Enabled(s, e)
    ensures s.notified <= Step(s, e).notified
    ensures forall i :: |s.notified| <= i < |Step(s, e).notified| ==>
              e.Settle? && Step(s, e).notified[i].0 in s.inFlight[e.version] && Step(s, e).notified[i].1 == e.result
  {
    if e.Settle? {
      var taken := s.inFlight[e.version];
      assert Step(s, e).notified == s.notified + Notify(taken, e.result);
      forall i | |s.notified| <= i < |Step(s, e).notified|
        ensures Step(s, e).notified[i].0 in taken && Step(s, e).notified[i].1 == e.result
      {
        assert Notify(taken, e.result)[i - |s.notified|] == (taken[i - |s.notified|], e.result);
      }
    }
  }

  function Registered(es: seq<Event>): seq<Callback> {
    if es == [] then [] else (if es[0].Refresh? then [es[0].callback] else []) + Registered(es[1..])
  }

  lemma {:induction false} RunCallbacks(s: Async, es: seq<Event>)
    requires Inv(s) && IsRun(s, es)
    ensures multiset(Requested(Run(s, es))) == multiset(Requested(s)) + multiset(Registered(es))
    decreases |es|
  {
    if es != [] {
      StepKeeps(s, es[0]);
      CallbacksConserved(s, es[0]);
      RunCallbacks(Step(s, es[0]), es[1..]);
    } else {
      assert multiset(Registered(es)) == multiset{};
    }
  }

  /** When a run ends with no load pending, every registered callback was called,
      exactly as often as it was registered. */
  lemma AllCalled(es: seq<Event>)
    requires IsRun(INITIAL, es)
    requires Run(INITIAL, es).refreshCallbacks == [] && Run(INITIAL, es).inFlight == map[]
    ensures multiset(Called(Run(INITIAL, es).notified)) == multiset(Registered(es))
  {
    RunCallbacks(INITIAL, es);
    FlattenEmpty(Run(INITIAL, es).loadVersion);
    assert Requested(INITIAL) == [];
    var s := Run(INITIAL, es);
    assert Requested(s) == Called(s.notified);
  }

  lemma {:induction false} FlattenEmpty(upTo: nat)
    ensures Flatten(map[], upTo) == []
  {
    if upTo > 0 {
      FlattenEmpty(upTo - 1);
    }
  }

  // ------------------------------------------------------------------------- the object

  class UseAsyncState {
    var value: Option<nat>
    var lastSuccessfulValue: Option<nat>
    var error: Option<nat>
    var loadVersion: nat
    var valueVersion: nat

    ghost predicate Mirrors(s: Async)
      reads this
    {
      && value == s.value && lastSuccessfulValue == s.lastSuccessful && error == s.error
      && loadVersion == s.loadVersion && valueVersion == s.valueVersion
    }

    constructor ()
      ensures Mirrors(INITIAL)
    {
      value, lastSuccessfulValue, error, loadVersion, valueVersion := None, None, None, 0, 0;
    }

    method NewVersion(ghost s: Async) returns (version: nat)
      requires Mirrors(s) && Inv(s)
      modifies this
      ensures Mirrors(Step(s, Load)) && version == loadVersion && version !in s.results && version !in s.inFlight
    {
      loadVersion := loadVersion + 1;
      version := loadVersion;
    }

    method SetLoaded(version: nat, newValue: nat, ghost s: Async) returns (changed: bool)
      requires Mirrors(s) && Inv(s) && version in s.inFlight
      modifies this
      ensures Mirrors(Step(s, Settle(version, Loaded(newValue))))
      ensures changed <==> valueVersion == version
    {
      if version < valueVersion {
        return false;
      }
      value, lastSuccessfulValue, error := Some(newValue), Some(newValue), None;
      valueVersion := version;
      return true;
    }

    method SetFailed(version: nat, newError: nat, ghost s: Async) returns (changed: bool)
      requires Mirrors(s) && Inv(s) && version in s.inFlight
      modifies this
      ensures Mirrors(Step(s, Settle(version, Failed(newError))))
      ensures changed <==> valueVersion == version
    {
      if version < loadVersion {
        return false;
      }
      value, error := None, Some(newError);
      valueVersion := version;
      return true;
    }
  }
}
