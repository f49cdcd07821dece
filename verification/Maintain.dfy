/** The `maintain` loop (rustlib/src/tunnel_state.rs, lines 173-391) as a state
    machine. A step runs the loop from one await point to the next. The results of
    the operating system, of connecting and of receiving are chosen by the events,
    and the target may change and the traffic counters may grow between any two
    steps. */
module Maintain {
  import opened TunnelState
  import opened Wrappers

  /** The await points. */
  datatype Pc =
    | Top
    | SettingDummy
    | ConnectingExit
    | SettingReal(connection: Connection)
    | Forwarding(live: Connection)
    | Unsetting
    | AwaitingChange

  /** The network configuration the operating system accepted last. */
  datatype OsConfig = Unset | Dummy(settings: nat) | Real(connection: Connection, settings: nat)

  /** The connections of a session that are over, with their final readings. */
  datatype Session = Session(id: nat, closed: seq<(nat, Reading)>)

  /** `target` is the loop's copy of the target state, `wanted` the current one.
      `failures` are the receive errors so far, and `session` is the bookkeeping the
      published statistics are compared with; the loop keeps neither. */
  datatype Machine = Machine(
    pc: Pc,
    state: State,
    target: TargetState,
    wanted: TargetState,
    reason: Option<ReceiveError>,
    os: OsConfig,
    readings: Readings,
    failures: set<ReceiveError>,
    session: Option<Session>)

  datatype Event =
    | Reconcile(freshId: nat)
    | OsResult(ok: bool, freshStatsId: nat)
    | ConnectSucceeds(connection: Connection, first: Reading)
    | ConnectFails(error: ConnectError)
    | ReceiveFails(failure: ReceiveError)
    | NoticeChange
    | TargetChanges(to: TargetState)
    | CountersGrow(conn: nat, reading: Reading)

  function Initial(wanted: TargetState): Machine {
    Machine(Top, Disconnected, wanted, wanted, None, Unset, map[], {}, None)
  }

  predicate Grows(a: Reading, b: Reading) {
    a.connectedMs <= b.connectedMs && a.txBytes <= b.txBytes && a.rxBytes <= b.rxBytes
  }

  predicate Enabled(m: Machine, e: Event) {
    match e
    case Reconcile(_) => m.pc.Top? && (m.state.Connected? ==> m.state.connection.conn in m.readings)
    case OsResult(ok, _) =>
      && (m.pc.SettingDummy? || m.pc.SettingReal? || m.pc.Unsetting?)
      && (m.state.Connected? ==> m.state.connection.conn in m.readings)
      && (m.pc.SettingReal? ==> m.target.tunnelArgs.Some? && m.target.networkInterface.Some?)
    case ConnectSucceeds(connection, first) => m.pc.ConnectingExit? && connection.conn !in m.readings
    case ConnectFails(error) => m.pc.ConnectingExit?
    case ReceiveFails(error) => m.pc.Forwarding?
    case NoticeChange =>
      (m.pc.ConnectingExit? || m.pc.Forwarding? || m.pc.AwaitingChange?) && m.wanted != m.target
    case TargetChanges(to) => true
    case CountersGrow(conn, reading) => conn in m.readings && Grows(m.readings[conn], reading)
  }

  /** Lines 203-229: drop the tunnel if the target changed or the tunnel broke. */
  function Reconciled(m: Machine, target: TargetState, freshId: nat): Machine
    requires m.state.Connected? ==> m.state.connection.conn in m.readings
  {
    if MatchesTarget(m.state, target) && m.reason.None? then m.(target := target)
    else if target.tunnelArgs.None? then m.(target := target, state := Disconnected, session := None)
    else
      m.(target := target,
         state := ToConnecting(m.state, target.tunnelArgs.value, target.networkInterface, m.reason, m.readings, freshId),
         reason := None,
         session := match m.state
           case Disconnected => Some(Session(freshId, []))
           case Connecting(_, _, _, _, _) => m.session
           case Connected(_, c, _, _) =>
             if m.session.None? then None
             else Some(m.session.value.(closed := m.session.value.closed + [(c.conn, m.readings[c.conn])])))
  }

  /** The reconcile step on the published cell, with the reason that is left pending. */
  method ReconcilePublished(published: PublishedState, ghost m: Machine, target: TargetState,
                            reason: Option<ReceiveError>, readings: Readings, freshId: nat)
    returns (pending: Option<ReceiveError>)
    requires published.state == m.state && reason == m.reason && readings == m.readings
    requires m.state.Connected? ==> m.state.connection.conn in m.readings
    modifies published
    ensures published.state == Reconciled(m, target, freshId).state && pending == Reconciled(m, target, freshId).reason
    ensures target.tunnelArgs.None? ==> published.state.Disconnected? && pending == reason
    ensures target.tunnelArgs.Some? && !m.state.Disconnected? ==>
              published.Published(readings, freshId) == Stats(m.state, readings, freshId)
  {
    pending := reason;
    if !MatchesTarget(published.state, target) || reason.Some? {
      match target.tunnelArgs
      case None => published.SetDisconnected();
      case Some(args) =>
        published.SetConnecting(args, target.networkInterface, reason, readings, freshId);
        pending := None;
    }
  }

  function Step(m: Machine, e: Event): Machine
    requires Enabled(m, e)
  {
    match e
    case Reconcile(freshId) =>
      var r := Reconciled(m, m.wanted, freshId);
      if r.target.tunnelArgs.None? then r.(pc := Unsetting)
      else if r.target.networkInterface.None? then
        r.(pc := AwaitingChange, state := WithConnectError(r.state, NoInternet))
      else if r.state.Connected? then r.(pc := SettingReal(r.state.connection))
      else r.(pc := SettingDummy)
    case OsResult(ok, freshId) =>
      (match m.pc
       case SettingDummy =>
         if ok then m.(pc := ConnectingExit, os := Dummy(m.target.settings))
         else m.(pc := Top, state := WithConnectError(m.state, SetOsNetworkConfig))
       case SettingReal(connection) =>
         if ok then
           m.(pc := Forwarding(connection), os := Real(connection, m.target.settings),
              state := ToConnected(m.state, m.target.tunnelArgs.value, m.target.networkInterface.value, connection,
                                   m.readings, freshId))
         else m.(pc := Top, state := WithConnectError(m.state, SetOsNetworkConfig))
       case _ =>
         if ok then m.(pc := AwaitingChange, os := Unset) else m.(pc := Top))
    case ConnectSucceeds(connection, first) =>
      m.(pc := SettingReal(connection), readings := m.readings[connection.conn := first])
    case ConnectFails(error) => m.(pc := Top, state := WithConnectError(m.state, error))
    case ReceiveFails(error) => m.(pc := Top, reason := Some(error), failures := m.failures + {error})
    case NoticeChange => m.(pc := Top, reason := if m.pc.Forwarding? then None else m.reason)
    case TargetChanges(to) => m.(wanted := to)
    case CountersGrow(conn, reading) => m.(readings := m.readings[conn := reading])
  }

  predicate IsRun(m: Machine, es: seq<Event>)
    decreases |es|
  {
    es == [] || (Enabled(m, es[0]) && IsRun(Step(m, es[0]), es[1..]))
  }

  function Run(m: Machine, es: seq<Event>): Machine
    requires IsRun(m, es)
    decreases |es|
  {
    if es == [] then m else Run(Step(m, es[0]), es[1..])
  }

  // ------------------------------------------------------------------------ invariants

  /** After the reconcile step, and until the next one, the published state agrees
      with the loop's target. */
  predicate Agreement(m: Machine) {
    match m.pc
    case Top => true
    case Unsetting => m.target.tunnelArgs.None? && m.state.Disconnected?
    case AwaitingChange =>
      if m.target.tunnelArgs.None? then m.state.Disconnected? && m.os == Unset
      else
        && m.target.networkInterface.None?
        && m.state.Connecting? && m.state.args == m.target.tunnelArgs.value
        && m.state.connectError == Some(NoInternet)
    case SettingDummy => ConnectingToTarget(m)
    case ConnectingExit => ConnectingToTarget(m) && m.os == Dummy(m.target.settings)
    case SettingReal(connection) =>
      && connection.conn in m.readings
      && (ConnectingToTarget(m) || ConnectedToTarget(m, connection))
    case Forwarding(connection) =>
      && ConnectedToTarget(m, connection)
      && m.os == Real(connection, m.target.settings)
  }

  predicate ConnectingToTarget(m: Machine) {
    && m.state.Connecting?
    && m.target.tunnelArgs == Some(m.state.args)
    && m.target.networkInterface.Some?
  }

  predicate ConnectedToTarget(m: Machine, connection: Connection) {
    && m.state.Connected?
    && m.target.tunnelArgs == Some(m.state.args)
    && m.target.networkInterface == Some(m.state.interface)
    && m.state.connection == connection
  }

  /** A reason to reconnect, pending or published, is a receive failure of this run. */
  predicate ReasonsHappened(m: Machine) {
    && (m.reason.Some? ==> m.reason.value in m.failures)
    && (m.state.Connecting? && m.state.disconnectReason.Some? ==> m.state.disconnectReason.value in m.failures)
  }

  function SumTx(rs: seq<(nat, Reading)>): nat {
    if rs == [] then 0 else SumTx(rs[..|rs| - 1]) + rs[|rs| - 1].1.txBytes
  }

  function SumRx(rs: seq<(nat, Reading)>): nat {
    if rs == [] then 0 else SumRx(rs[..|rs| - 1]) + rs[|rs| - 1].1.rxBytes
  }

  function SumMs(rs: seq<(nat, Reading)>): nat {
    if rs == [] then 0 else SumMs(rs[..|rs| - 1]) + rs[|rs| - 1].1.connectedMs
  }

  function Saturate(n: nat): u64 { if n <= U64_MAX then n else U64_MAX }

  predicate IsTotal(stats: TrafficStats, id: nat, rs: seq<(nat, Reading)>) {
    && stats.connId == id
    && stats.txBytes == Saturate(SumTx(rs))
    && stats.rxBytes == Saturate(SumRx(rs))
    && stats.connectedMs == Saturate(SumMs(rs))
  }

  /** All readings of the session: the final ones and that of the live connection. */
  function SessionReadings(m: Machine): seq<(nat, Reading)>
    requires m.session.Some?
    requires m.state.Connected? ==> m.state.connection.conn in m.readings
  {
    m.session.value.closed
    + (if m.state.Connected? then [(m.state.connection.conn, m.readings[m.state.connection.conn])] else [])
  }

  /** The carried-over statistics are the total of the session's closed
      connections, each of which is counted once and is no longer live. */
  predicate Accounted(m: Machine) {
    && (m.state.Disconnected? <==> m.session.None?)
    && (m.state.Connected? ==> m.state.connection.conn in m.readings)
    && (m.pc.SettingReal? ==> m.pc.connection.conn in m.readings)
    && (m.session.Some? ==>
          var closed := m.session.value.closed;
          && IsTotal(m.state.offset, m.session.value.id, closed)
          && (forall i :: 0 <= i < |closed| ==> closed[i].0 in m.readings)
          && (forall i, j :: 0 <= i < j < |closed| ==> closed[i].0 != closed[j].0)
          && (forall i :: 0 <= i < |closed| ==>
                (m.state.Connected? ==> closed[i].0 != m.state.connection.conn)
                && (m.pc.SettingReal? ==> closed[i].0 != m.pc.connection.conn)))
  }

  predicate Inv(m: Machine) {
    Agreement(m) && ReasonsHappened(m) && Accounted(m)
  }

  // -------------------------------------------------------------- the invariant is kept

  lemma TotalOfOneMore(stats: TrafficStats, id: nat, rs: seq<(nat, Reading)>, c: nat, r: Reading, latency: nat)
    requires IsTotal(stats, id, rs)
    ensures IsTotal(TrafficStats(SaturatingAdd(stats.connectedMs, r.connectedMs), id,
                                 SaturatingAdd(stats.txBytes, r.txBytes), SaturatingAdd(stats.rxBytes, r.rxBytes), latency),
                    id, rs + [(c, r)])
  {
    var all := rs + [(c, r)];
    assert all[..|all| - 1] == rs;
  }

  lemma ReconcileAgrees(m: Machine, freshId: nat)
    requires Agreement(m) && ReasonsHappened(m) && Enabled(m, Reconcile(freshId))
    ensures Agreement(Step(m, Reconcile(freshId))) && ReasonsHappened(Step(m, Reconcile(freshId)))
  {
  }

  lemma ReconciledAccounted(m: Machine, freshId: nat)
    requires Accounted(m) && m.pc.Top?
    ensures Accounted(Reconciled(m, m.wanted, freshId))
  {
    var m' := Reconciled(m, m.wanted, freshId);
    if m.state.Connected? && m'.state.Connecting? {
      var c := m.state.connection.conn;
      TotalOfOneMore(m.state.offset, m.session.value.id, m.session.value.closed, c, m.readings[c], m.readings[c].latencyMs);
    }
  }

  lemma ReconcileKeeps(m: Machine, freshId: nat)
    requires Inv(m) && Enabled(m, Reconcile(freshId))
    ensures Inv(Step(m, Reconcile(freshId)))
  {
    ReconcileAgrees(m, freshId);
    ReconciledAccounted(m, freshId);
  }

  lemma OsResultKeeps(m: Machine, ok: bool, freshId: nat)
    requires Inv(m) && Enabled(m, OsResult(ok, freshId))
    ensures Inv(Step(m, OsResult(ok, freshId)))
  {
  }

  lemma StepKeeps(m: Machine, e: Event)
    requires Inv(m) && Enabled(m, e)
    ensures Inv(Step(m, e))
  {
    match e
    case Reconcile(freshId) => ReconcileKeeps(m, freshId);
    case OsResult(ok, freshId) => OsResultKeeps(m, ok, freshId);
    case _ =>
  }

  lemma {:induction false} RunKeeps(m: Machine, es: seq<Event>)
    requires Inv(m) && IsRun(m, es)
    ensures Inv(Run(m, es))
    decreases |es|
  {
    if es != [] {
      StepKeeps(m, es[0]);
      RunKeeps(Step(m, es[0]), es[1..]);
    }
  }

  /** After every run the loop can take its next step: the guards of `Enabled` that
      speak of readings and targets always hold. */
  lemma NeverStuck(wanted: TargetState, es: seq<Event>, freshId: nat, ok: bool)
    requires IsRun(Initial(wanted), es)
    ensures var m := Run(Initial(wanted), es);
            && (m.pc.Top? ==> Enabled(m, Reconcile(freshId)))
            && (m.pc.SettingDummy? || m.pc.SettingReal? || m.pc.Unsetting? ==> Enabled(m, OsResult(ok, freshId)))
  {
    RunKeeps(Initial(wanted), es);
  }

  // ------------------------------------------------------------------ what runs guarantee

  /** Target, published state and operating system agree after every run. */
  lemma RunsAgree(wanted: TargetState, es: seq<Event>)
    requires IsRun(Initial(wanted), es)
    ensures var m := Run(Initial(wanted), es);
            !m.pc.Top? ==>
              && (m.target.tunnelArgs.None? ==> m.state.Disconnected?)
              && (m.target.tunnelArgs.Some? && m.target.networkInterface.None? ==>
                    m.state.Connecting? && m.state.args == m.target.tunnelArgs.value)
              && (m.target.tunnelArgs.Some? && m.target.networkInterface.Some? ==>
                    || (m.state.Connecting? && m.state.args == m.target.tunnelArgs.value)
                    || (m.state.Connected? && m.state.args == m.target.tunnelArgs.value
                        && m.state.interface == m.target.networkInterface.value))
              && (m.pc.Forwarding? ==>
                    && m.state.Connected? && m.state.connection == m.pc.live
                    && m.os == Real(m.pc.live, m.target.settings))
              && (m.pc.ConnectingExit? ==> m.os == Dummy(m.target.settings))
              && (m.pc.AwaitingChange? ==>
                    if m.target.tunnelArgs.None? then m.os == Unset else m.state.Connecting? && m.state.connectError == Some(NoInternet))
  {
    RunKeeps(Initial(wanted), es);
  }

  lemma OsConfigStep(m: Machine, e: Event)
    requires Inv(m) && Enabled(m, e)
    ensures Step(m, e).os == Unset && m.os != Unset ==> m.target.tunnelArgs.None? && m.state.Disconnected?
    ensures Step(m, e).pc.Forwarding? && !m.pc.Forwarding? ==>
              && e.OsResult? && e.ok
              && m.pc == SettingReal(Step(m, e).pc.live)
              && Step(m, e).os == Real(Step(m, e).pc.live, m.target.settings)
    ensures m.pc.Forwarding? && Step(m, e).pc.Forwarding? ==> Step(m, e).os == m.os && Step(m, e).pc == m.pc
  {
  }

  predicate Forwards(m: Machine, connection: Connection) {
    m.pc == Forwarding(connection) && m.os == Real(connection, m.target.settings)
  }

  /** The run accepted the connection's real configuration, and forwarded with it ever
      since. */
  predicate ForwardsSince(m: Machine, es: seq<Event>, connection: Connection)
    requires IsRun(m, es)
    decreases |es|
  {
    es != [] &&
      (|| (&& m.pc == SettingReal(connection) && es[0].OsResult? && es[0].ok
           && KeepsForwarding(Step(m, es[0]), es[1..], connection))
       || ForwardsSince(Step(m, es[0]), es[1..], connection))
  }

  predicate KeepsForwarding(m: Machine, es: seq<Event>, connection: Connection)
    requires IsRun(m, es)
    decreases |es|
  {
    Forwards(m, connection) && (es != [] ==> KeepsForwarding(Step(m, es[0]), es[1..], connection))
  }

  /** In every run that ends forwarding, the operating system accepted that
      connection's own configuration, and the loop has forwarded with it ever since. */
  lemma ForwardingWasConfigured(wanted: TargetState, es: seq<Event>)
    requires IsRun(Initial(wanted), es) && Run(Initial(wanted), es).pc.Forwarding?
    ensures ForwardsSince(Initial(wanted), es, Run(Initial(wanted), es).pc.live)
  {
    ForwardsSinceFrom(Initial(wanted), es);
  }

  lemma {:induction false} ForwardsSinceFrom(m: Machine, es: seq<Event>)
    requires Inv(m) && IsRun(m, es) && Run(m, es).pc.Forwarding?
    ensures var c := Run(m, es).pc.live; KeepsForwarding(m, es, c) || ForwardsSince(m, es, c)
    decreases |es|
  {
    if es != [] {
      StepKeeps(m, es[0]);
      OsConfigStep(m, es[0]);
      ForwardsSinceFrom(Step(m, es[0]), es[1..]);
    }
  }

  /** Whenever the configuration is unset, the target asks for no tunnel and none is
      published. */
  lemma UnsetOnlyWhenDisconnected(wanted: TargetState, es: seq<Event>, e: Event)
    requires IsRun(Initial(wanted), es) && Enabled(Run(Initial(wanted), es), e)
    ensures var m := Run(Initial(wanted), es);
            Step(m, e).os == Unset && m.os != Unset ==> m.target.tunnelArgs.None? && m.state.Disconnected?
  {
    RunKeeps(Initial(wanted), es);
    OsConfigStep(Run(Initial(wanted), es), e);
  }

  lemma ErrorStep(m: Machine, e: Event)
    requires Inv(m) && Enabled(m, e)
    ensures m.pc.SettingDummy? && e.OsResult? && !e.ok ==>
              m.state.Connecting? && Step(m, e).state.Connecting? && Step(m, e).state.connectError == Some(SetOsNetworkConfig)
    ensures e.ConnectFails? ==>
              m.state.Connecting? && Step(m, e).state.Connecting? && Step(m, e).state.connectError == Some(e.error)
    ensures e.Reconcile? && m.wanted.tunnelArgs.Some? && m.wanted.networkInterface.None? ==>
              Step(m, e).state.Connecting? && Step(m, e).state.connectError == Some(NoInternet)
  {
  }

  /** The error that a step reports to the published state. */
  function Reported(m: Machine, e: Event): Option<ConnectError> {
    match e
    case OsResult(ok, _) => if !ok && (m.pc.SettingDummy? || m.pc.SettingReal?) then Some(SetOsNetworkConfig) else None
    case ConnectFails(error) => Some(error)
    case Reconcile(_) => if m.wanted.tunnelArgs.Some? && m.wanted.networkInterface.None? then Some(NoInternet) else None
    case _ => None
  }

  /** The last error reported since the state entered Connecting, while it was
      Connecting. */
  function LastReported(m: Machine, es: seq<Event>, last: Option<ConnectError>): Option<ConnectError>
    requires IsRun(m, es)
    decreases |es|
  {
    if es == [] then last
    else
      var m' := Step(m, es[0]);
      LastReported(m', es[1..],
                   if !m'.state.Connecting? then None
                   else if Reported(m, es[0]).Some? then Reported(m, es[0])
                   else if m.state.Connecting? then last else None)
  }

  /** In every run the published connect error is the last one reported since the state
      entered Connecting: none is overwritten by an older one, kept from an earlier
      attempt, or lost. */
  lemma PublishedErrorIsLast(wanted: TargetState, es: seq<Event>)
    requires IsRun(Initial(wanted), es)
    ensures var m := Run(Initial(wanted), es);
            m.state.Connecting? ==> m.state.connectError == LastReported(Initial(wanted), es, None)
  {
    PublishedErrorIsLastFrom(Initial(wanted), es, None);
  }

  lemma {:induction false} PublishedErrorIsLastFrom(m: Machine, es: seq<Event>, last: Option<ConnectError>)
    requires Inv(m) && IsRun(m, es) && (m.state.Connecting? ==> m.state.connectError == last)
    ensures Run(m, es).state.Connecting? ==> Run(m, es).state.connectError == LastReported(m, es, last)
    decreases |es|
  {
    if es != [] {
      var m', e := Step(m, es[0]), es[0];
      StepKeeps(m, e);
      if m'.state.Connecting? { ErrorPublished(m, e); }
      PublishedErrorIsLastFrom(m', es[1..],
        if !m'.state.Connecting? then None
        else if Reported(m, e).Some? then Reported(m, e)
        else if m.state.Connecting? then last else None);
    }
  }

  lemma ErrorPublished(m: Machine, e: Event)
    requires Inv(m) && Enabled(m, e) && Step(m, e).state.Connecting?
    ensures Step(m, e).state.connectError ==
              if Reported(m, e).Some? then Reported(m, e)
              else if m.state.Connecting? then m.state.connectError else None
  {
  }

  /** Every error a step reports is published, except that of the real configuration
      while the state is Connected. */
  lemma ErrorsRecorded(wanted: TargetState, es: seq<Event>, e: Event)
    requires IsRun(Initial(wanted), es) && Enabled(Run(Initial(wanted), es), e)
    requires Reported(Run(Initial(wanted), es), e).Some?
    ensures var m := Run(Initial(wanted), es);
            if m.pc.SettingReal? && m.state.Connected? then Step(m, e).state == m.state
            else Step(m, e).state.Connecting? && Step(m, e).state.connectError == Reported(m, e)
  {
    RunKeeps(Initial(wanted), es);
    ErrorStep(Run(Initial(wanted), es), e);
  }

  /** Failing to set the real configuration is recorded if and only if the state is
      not already Connected; in that case the state stays as it is. */
  lemma RealConfigErrorRecordedIff(m: Machine, freshId: nat)
    requires Inv(m) && m.pc.SettingReal?
    ensures var m' := Step(m, OsResult(false, freshId));
            && (m'.state.Connecting? && m'.state.connectError == Some(SetOsNetworkConfig) <==> !m.state.Connected?)
            && (m.state.Connected? ==> m'.state == m.state)
  {
  }

  const HOME := TargetState(Some(1), Some(7), 0)
  const HOME_OTHER_DNS := TargetState(Some(1), Some(7), 1)

  /** A run in which that error is lost: connected, then a settings change, then the
      operating system refuses the new configuration. */
  lemma ErrorLostWhileConnected(c: Connection, r: Reading)
    ensures var es := [Reconcile(5), OsResult(true, 0), ConnectSucceeds(c, r), OsResult(true, 0),
                       TargetChanges(HOME_OTHER_DNS), NoticeChange, Reconcile(0), OsResult(false, 0)];
            && IsRun(Initial(HOME), es)
            && Run(Initial(HOME), es).state.Connected?
            && Run(Initial(HOME), es).os == Real(c, HOME.settings)
  {
    RefusedWhileForwarding(c, r);
    ReachesForwarding(c, r);
    RunAppend(Initial(HOME), Connects(c, r), REFUSES);
    assert Connects(c, r) + REFUSES ==
      [Reconcile(5), OsResult(true, 0), ConnectSucceeds(c, r), OsResult(true, 0),
       TargetChanges(HOME_OTHER_DNS), NoticeChange, Reconcile(0), OsResult(false, 0)];
  }

  function Connects(c: Connection, r: Reading): seq<Event> {
    [Reconcile(5), OsResult(true, 0), ConnectSucceeds(c, r), OsResult(true, 0)]
  }

  const REFUSES: seq<Event> := [TargetChanges(HOME_OTHER_DNS), NoticeChange, Reconcile(0), OsResult(false, 0)]

  function ForwardingHome(c: Connection, r: Reading): Machine {
    Machine(Forwarding(c), Connected(1, c, TrafficStats(0, 5, 0, 0, 0), 7), HOME, HOME, None, Real(c, 0),
            map[c.conn := r], {}, Some(Session(5, [])))
  }

  lemma ReachesForwarding(c: Connection, r: Reading)
    ensures IsRun(Initial(HOME), Connects(c, r)) && Run(Initial(HOME), Connects(c, r)) == ForwardingHome(c, r)
  {
    var es := Connects(c, r);
    var m1 := Step(Initial(HOME), es[0]);
    var m2 := Step(m1, es[1]);
    var m3 := Step(m2, es[2]);
    RunOne(m3, es[3], []);
    RunOne(m2, es[2], [es[3]]);
    RunOne(m1, es[1], [es[2], es[3]]);
    RunOne(Initial(HOME), es[0], [es[1], es[2], es[3]]);
  }

  lemma RefusedWhileForwarding(c: Connection, r: Reading)
    ensures var m := ForwardingHome(c, r);
            && IsRun(m, REFUSES)
            && Run(m, REFUSES).state.Connected? && Run(m, REFUSES).os == Real(c, HOME.settings)
  {
    var m := ForwardingHome(c, r);
    var m1 := Step(m, REFUSES[0]);
    var m2 := Step(m1, REFUSES[1]);
    var m3 := Step(m2, REFUSES[2]);
    RunOne(m3, REFUSES[3], []);
    RunOne(m2, REFUSES[2], [REFUSES[3]]);
    RunOne(m1, REFUSES[1], [REFUSES[2], REFUSES[3]]);
    RunOne(m, REFUSES[0], [REFUSES[1], REFUSES[2], REFUSES[3]]);
  }

  lemma {:induction false} RunAppend(m: Machine, es: seq<Event>, more: seq<Event>)
    requires IsRun(m, es) && IsRun(Run(m, es), more)
    ensures IsRun(m, es + more) && Run(m, es + more) == Run(Run(m, es), more)
    decreases |es|
  {
    if es == [] {
      assert es + more == more;
    } else {
      RunAppend(Step(m, es[0]), es[1..], more);
      assert (es + more)[1..] == es[1..] + more;
    }
  }

  lemma RunOne(m: Machine, e: Event, rest: seq<Event>)
    requires Enabled(m, e) && IsRun(Step(m, e), rest)
    ensures IsRun(m, [e] + rest) && Run(m, [e] + rest) == Run(Step(m, e), rest)
  {
    assert ([e] + rest)[1..] == rest;
  }

  // ------------------------------------------------------------------ the published reason

  /** A published disconnect reason is an earlier receive failure of the run. */
  lemma ReasonIsEarlierFailure(wanted: TargetState, es: seq<Event>)
    requires IsRun(Initial(wanted), es)
    ensures var s := Run(Initial(wanted), es).state;
            s.Connecting? && s.disconnectReason.Some? ==>
              exists i :: 0 <= i < |es| && es[i] == ReceiveFails(s.disconnectReason.value)
  {
    RunKeeps(Initial(wanted), es);
    FailuresAreEvents(Initial(wanted), es);
  }

  lemma {:induction false} FailuresAreEvents(m: Machine, es: seq<Event>)
    requires IsRun(m, es)
    ensures forall f :: f in Run(m, es).failures ==>
              f in m.failures || exists i :: 0 <= i < |es| && es[i] == ReceiveFails(f)
    decreases |es|
  {
    if es != [] {
      FailuresAreEvents(Step(m, es[0]), es[1..]);
      forall f | f in Run(m, es).failures && f !in m.failures
        ensures exists i :: 0 <= i < |es| && es[i] == ReceiveFails(f)
      {
        if f in Step(m, es[0]).failures {
          assert es[0] == ReceiveFails(f);
        } else {
          var i :| 0 <= i < |es[1..]| && es[1..][i] == ReceiveFails(f);
          assert es[i + 1] == ReceiveFails(f);
        }
      }
    }
  }

  /** The reason survives disconnecting: switching off and on again publishes, in a
      session without any connection yet, the failure that ended the previous one. */
  lemma ReasonSurvivesDisconnect(m: Machine, to: TargetState, id: nat)
    requires Inv(m) && m.pc.Top? && m.reason.Some?
    requires m.wanted.tunnelArgs.None? && to.tunnelArgs.Some?
    ensures var es := [Reconcile(0), OsResult(true, 0), TargetChanges(to), NoticeChange, Reconcile(id)];
            && IsRun(m, es)
            && Run(m, es).state.Connecting?
            && Run(m, es).state.disconnectReason == m.reason
            && Run(m, es).session == Some(Session(id, []))
  {
    var on := [TargetChanges(to), NoticeChange, Reconcile(id)];
    var m2 := SwitchedOff(m);
    SwitchOnPublishes(m2, to, id);
    RunOne(Step(m, Reconcile(0)), OsResult(true, 0), on);
    RunOne(m, Reconcile(0), [OsResult(true, 0)] + on);
    assert [Reconcile(0)] + ([OsResult(true, 0)] + on)
        == [Reconcile(0), OsResult(true, 0), TargetChanges(to), NoticeChange, Reconcile(id)];
  }

  /** Switched off, and waiting for a change of the target. */
  lemma SwitchedOff(m: Machine) returns (off: Machine)
    requires Inv(m) && m.pc.Top? && m.wanted.tunnelArgs.None?
    ensures Enabled(m, Reconcile(0)) && Enabled(Step(m, Reconcile(0)), OsResult(true, 0))
    ensures off == Step(Step(m, Reconcile(0)), OsResult(true, 0))
    ensures off.pc.AwaitingChange? && off.state.Disconnected? && off.target.tunnelArgs.None? && off.reason == m.reason
  {
    off := Step(Step(m, Reconcile(0)), OsResult(true, 0));
  }

  lemma SwitchOnPublishes(m: Machine, to: TargetState, id: nat)
    requires m.pc.AwaitingChange? && m.state.Disconnected? && m.target.tunnelArgs.None? && to.tunnelArgs.Some?
    ensures var es := [TargetChanges(to), NoticeChange, Reconcile(id)];
            && IsRun(m, es)
            && Run(m, es).state.Connecting?
            && Run(m, es).state.disconnectReason == m.reason
            && Run(m, es).session == Some(Session(id, []))
  {
    var m3 := Step(m, TargetChanges(to));
    var m4 := Step(m3, NoticeChange);
    RunOne(m4, Reconcile(id), []);
    RunOne(m3, NoticeChange, [Reconcile(id)]);
    RunOne(m, TargetChanges(to), [NoticeChange, Reconcile(id)]);
  }

  const OFF := TargetState(None, Some(7), 0)

  /** From the start: forwarding fails, the tunnel is switched off and, later, on
      again; the new session publishes the failure that ended the previous one, before
      it had any connection. */
  lemma ReasonSurvivesFromStart(c: Connection, r: Reading, failure: ReceiveError, id: nat) returns (es: seq<Event>)
    ensures IsRun(Initial(HOME), es)
    ensures es == Connects(c, r) + [ReceiveFails(failure), TargetChanges(OFF), Reconcile(0), OsResult(true, 0),
                                    TargetChanges(HOME), NoticeChange, Reconcile(id)]
    ensures var m := Run(Initial(HOME), es);
            m.state.Connecting? && m.state.disconnectReason == Some(failure) && m.session == Some(Session(id, []))
  {
    var m, fails, off := ForwardingHome(c, r), ReceiveFails(failure), TargetChanges(OFF);
    var m1 := Step(m, fails);
    var m2 := Step(m1, off);
    var again := [Reconcile(0), OsResult(true, 0), TargetChanges(HOME), NoticeChange, Reconcile(id)];
    ReachesForwarding(c, r);
    RunKeeps(Initial(HOME), Connects(c, r));
    StepKeeps(m, fails);
    StepKeeps(m1, off);
    ReasonSurvivesDisconnect(m2, HOME, id);
    RunOne(m1, off, again);
    RunOne(m, fails, [off] + again);
    RunAppend(Initial(HOME), Connects(c, r), [fails] + ([off] + again));
    es := Connects(c, r) + ([fails] + ([off] + again));
  }

  /** The loop stops forwarding. */
  predicate Leaves(m: Machine, e: Event)
    requires Enabled(m, e)
  {
    m.pc.Forwarding? && !Step(m, e).pc.Forwarding?
  }

  /** The published state becomes Connecting. */
  predicate EntersConnecting(m: Machine, e: Event)
    requires Enabled(m, e)
  {
    !m.state.Connecting? && Step(m, e).state.Connecting?
  }

  /** The loop neither stops forwarding nor publishes Connecting anew. */
  predicate Uneventful(m: Machine, es: seq<Event>)
    requires IsRun(m, es)
    decreases |es|
  {
    es != [] ==> !Leaves(m, es[0]) && !EntersConnecting(m, es[0]) && Uneventful(Step(m, es[0]), es[1..])
  }

  /** Forwarding ended with this failure, and the run was uneventful since. */
  predicate EndedWith(m: Machine, es: seq<Event>, failure: ReceiveError)
    requires IsRun(m, es)
    decreases |es|
  {
    es != [] &&
      (|| (es[0] == ReceiveFails(failure) && Uneventful(Step(m, es[0]), es[1..]))
       || EndedWith(Step(m, es[0]), es[1..], failure))
  }

  /** A failure is pending only while Connected at the top of the loop, or Disconnected. */
  predicate PendingPlace(m: Machine) {
    m.reason.Some? ==> m.state.Disconnected? || (m.pc.Top? && m.state.Connected?)
  }

  lemma PendingStep(m: Machine, e: Event)
    requires Inv(m) && PendingPlace(m) && Enabled(m, e)
    ensures PendingPlace(Step(m, e))
    ensures Step(m, e).reason ==
              if e.ReceiveFails? then Some(e.failure)
              else if Leaves(m, e) || EntersConnecting(m, e) then None
              else m.reason
  {
  }

  lemma {:induction false} PendingIff(m: Machine, es: seq<Event>, failure: ReceiveError)
    requires Inv(m) && PendingPlace(m) && IsRun(m, es)
    ensures Run(m, es).reason == Some(failure) <==>
              EndedWith(m, es, failure) || (m.reason == Some(failure) && Uneventful(m, es))
    ensures PendingPlace(Run(m, es))
    decreases |es|
  {
    if es != [] {
      StepKeeps(m, es[0]);
      PendingStep(m, es[0]);
      PendingIff(Step(m, es[0]), es[1..], failure);
    }
  }

  /** Whenever the published state becomes Connecting, it shows a failure if and only if
      forwarding last ended with that failure and Connecting was not published since,
      no matter how often the tunnel was switched off. */
  lemma PublishedReasonIff(wanted: TargetState, es: seq<Event>, e: Event, failure: ReceiveError)
    requires IsRun(Initial(wanted), es) && Enabled(Run(Initial(wanted), es), e)
    requires EntersConnecting(Run(Initial(wanted), es), e)
    ensures Step(Run(Initial(wanted), es), e).state.disconnectReason == Some(failure)
       <==> EndedWith(Initial(wanted), es, failure)
  {
    RunKeeps(Initial(wanted), es);
    PendingIff(Initial(wanted), es, failure);
    ConnectingShowsPending(Run(Initial(wanted), es), e);
  }

  lemma ConnectingShowsPending(m: Machine, e: Event)
    requires Inv(m) && Enabled(m, e) && EntersConnecting(m, e)
    ensures Step(m, e).state.disconnectReason == m.reason && Step(m, e).reason.None?
  {
  }

  /** In Connecting, the published interface is the target's if and only if the
      state was not Connecting before the step, or already showed that interface. */
  lemma PublishedInterfaceIff(m: Machine, freshId: nat)
    requires Inv(m) && m.pc.Top? && Step(m, Reconcile(freshId)).state.Connecting?
    ensures var m' := Step(m, Reconcile(freshId));
            m'.state.networkInterface == m'.target.networkInterface <==>
              !m.state.Connecting? || m.state.networkInterface == m.wanted.networkInterface
  {
  }

  const HOME_OTHER_INTERFACE := TargetState(Some(1), Some(8), 0)

  /** From the start: the interface changes while connecting, and the published one
      stays behind the target's. */
  lemma InterfaceStaysBehind() returns (es: seq<Event>)
    ensures es == [Reconcile(5), OsResult(true, 0), TargetChanges(HOME_OTHER_INTERFACE), NoticeChange, Reconcile(0)]
    ensures IsRun(Initial(HOME), es)
    ensures var m := Run(Initial(HOME), es);
            && m.state.Connecting? && m.target == HOME_OTHER_INTERFACE
            && m.state.networkInterface == Some(7) && m.target.networkInterface == Some(8)
  {
    es := [Reconcile(5), OsResult(true, 0), TargetChanges(HOME_OTHER_INTERFACE), NoticeChange, Reconcile(0)];
    var m1 := Step(Initial(HOME), es[0]);
    var m2 := Step(m1, es[1]);
    var m3 := Step(m2, es[2]);
    var m4 := Step(m3, es[3]);
    RunOne(m4, es[4], []);
    RunOne(m3, es[3], [es[4]]);
    RunOne(m2, es[2], [es[3], es[4]]);
    RunOne(m1, es[1], [es[2], es[3], es[4]]);
    RunOne(Initial(HOME), es[0], [es[1], es[2], es[3], es[4]]);
  }

  // ----------------------------------------------------------------- traffic conservation

  /** Published statistics are the saturated totals over all connections of the
      session: nothing is lost, and nothing is counted twice. */
  lemma TrafficConserved(wanted: TargetState, es: seq<Event>, freshId: nat)
    requires IsRun(Initial(wanted), es)
    ensures var m := Run(Initial(wanted), es);
            && (m.state.Connected? ==> m.state.connection.conn in m.readings)
            && (m.state.Connected? ==>
                  Stats(m.state, m.readings, freshId).latencyMs == m.readings[m.state.connection.conn].latencyMs)
            && (m.session.Some? ==>
                  && IsTotal(Stats(m.state, m.readings, freshId), m.session.value.id, SessionReadings(m))
                  && (forall i, j :: 0 <= i < j < |SessionReadings(m)| ==>
                        SessionReadings(m)[i].0 != SessionReadings(m)[j].0))
  {
    RunKeeps(Initial(wanted), es);
    var m := Run(Initial(wanted), es);
    if m.state.Connected? {
      var c := m.state.connection.conn;
      TotalOfOneMore(m.state.offset, m.session.value.id, m.session.value.closed, c, m.readings[c], m.readings[c].latencyMs);
    } else if m.session.Some? {
      assert SessionReadings(m) == m.session.value.closed;
    }
  }

  /** Within a session, no step lowers a published counter or changes the id. */
  lemma StepNeverLowers(m: Machine, e: Event, id: nat, id': nat)
    requires Inv(m) && Enabled(m, e)
    requires !m.state.Disconnected? && !Step(m, e).state.Disconnected?
    ensures Inv(Step(m, e))
    ensures AtLeast(Stats(Step(m, e).state, Step(m, e).readings, id'), Stats(m.state, m.readings, id))
  {
    StepKeeps(m, e);
    StatsNeverLower(m, e, Step(m, e), id, id');
  }

  lemma ReconcileKeepsStats(m: Machine, freshId: nat, id: nat, id': nat)
    requires Accounted(m) && Enabled(m, Reconcile(freshId))
    requires !m.state.Disconnected? && !Step(m, Reconcile(freshId)).state.Disconnected?
    ensures Stats(Step(m, Reconcile(freshId)).state, m.readings, id') == Stats(m.state, m.readings, id)
  {
  }

  lemma OsResultLowersNothing(m: Machine, ok: bool, freshId: nat, id: nat, id': nat)
    requires Accounted(m) && Enabled(m, OsResult(ok, freshId)) && !m.state.Disconnected?
    ensures AtLeast(Stats(Step(m, OsResult(ok, freshId)).state, m.readings, id'), Stats(m.state, m.readings, id))
  {
  }

  lemma StatsNeverLower(m: Machine, e: Event, m': Machine, id: nat, id': nat)
    requires Accounted(m) && Enabled(m, e) && m' == Step(m, e) && Accounted(m')
    requires !m.state.Disconnected? && !m'.state.Disconnected?
    ensures AtLeast(Stats(m'.state, m'.readings, id'), Stats(m.state, m.readings, id))
  {
    match e
    case Reconcile(freshId) => ReconcileKeepsStats(m, freshId, id, id');
    case OsResult(ok, freshId) => OsResultLowersNothing(m, ok, freshId, id, id');
    case _ =>
  }

  /** No state of the run after the first is Disconnected. */
  predicate OneSession(m: Machine, es: seq<Event>)
    requires IsRun(m, es)
    decreases |es|
  {
    !m.state.Disconnected? && (es != [] ==> OneSession(Step(m, es[0]), es[1..]))
  }

  lemma {:induction false} SessionNeverLowers(m: Machine, es: seq<Event>, id: nat, id': nat)
    requires Inv(m) && IsRun(m, es) && OneSession(m, es)
    ensures Inv(Run(m, es))
    ensures AtLeast(Stats(Run(m, es).state, Run(m, es).readings, id'), Stats(m.state, m.readings, id))
    decreases |es|
  {
    if es != [] {
      StepNeverLowers(m, es[0], id, id);
      SessionNeverLowers(Step(m, es[0]), es[1..], id, id');
    }
  }
}
