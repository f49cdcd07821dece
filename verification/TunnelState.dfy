/** The published tunnel state (rustlib/src/tunnel_state.rs, lines 24-171). */
module TunnelState {
  import opened Wrappers

  const U64_MAX: nat := 0xffff_ffff_ffff_ffff

  type u64 = x: nat | x <= U64_MAX

  function SaturatingAdd(a: u64, b: u64): u64 {
    if a + b <= U64_MAX then a + b else U64_MAX
  }

  type TunnelArgs = nat
  type NetworkInterface = nat
  type ReceiveError = nat

  datatype ConnectError = SetOsNetworkConfig | NoInternet | OtherError(code: nat)

  /** `settings` stands for the DNS, local-access and bypass settings, which the
      loop only passes on to the operating system. */
  datatype TargetState = TargetState(
    tunnelArgs: Option<TunnelArgs>, networkInterface: Option<NetworkInterface>, settings: nat)

  /** What a connection reports: it is alive since `connectedMs`. */
  datatype Reading = Reading(connectedMs: u64, txBytes: u64, rxBytes: u64, latencyMs: nat)

  datatype TrafficStats = TrafficStats(connectedMs: u64, connId: nat, txBytes: u64, rxBytes: u64, latencyMs: nat)

  /** A connection is known by its identity; `details` stands for its exit, relay,
      tunnel id and network configuration. */
  datatype Connection = Connection(conn: nat, details: nat)

  datatype State =
    | Disconnected
    | Connecting(
        args: TunnelArgs,
        connectError: Option<ConnectError>,
        disconnectReason: Option<ReceiveError>,
        offset: TrafficStats,
        networkInterface: Option<NetworkInterface>)
    | Connected(
        args: TunnelArgs,
        connection: Connection,
        offset: TrafficStats,
        interface: NetworkInterface)

  type Readings = map<nat, Reading>

  /** Published statistics: those carried over plus those of the live connection. */
  function Stats(s: State, readings: Readings, freshId: nat): TrafficStats
    requires s.Connected? ==> s.connection.conn in readings
  {
    match s
    case Disconnected => TrafficStats(0, freshId, 0, 0, 0)
    case Connecting(_, _, _, offset, _) => offset
    case Connected(_, connection, offset, _) =>
      var r := readings[connection.conn];
      TrafficStats(SaturatingAdd(offset.connectedMs, r.connectedMs), offset.connId,
                   SaturatingAdd(offset.txBytes, r.txBytes), SaturatingAdd(offset.rxBytes, r.rxBytes), r.latencyMs)
  }

  function ToConnecting(s: State, args: TunnelArgs, interface: Option<NetworkInterface>,
                        reason: Option<ReceiveError>, readings: Readings, freshId: nat): State
    requires s.Connected? ==> s.connection.conn in readings
  {
    if s.Connecting? then Connecting(args, s.connectError, s.disconnectReason, s.offset, s.networkInterface)
    else Connecting(args, None, reason, Stats(s, readings, freshId), interface)
  }

  function ToConnected(s: State, args: TunnelArgs, interface: NetworkInterface, connection: Connection,
                       readings: Readings, freshId: nat): State
    requires s.Connected? ==> s.connection.conn in readings
  {
    var offset :=
      if s.Connected? && s.connection.conn == connection.conn then s.offset else Stats(s, readings, freshId);
    Connected(args, connection, offset, interface)
  }

  function WithConnectError(s: State, error: ConnectError): State {
    if s.Connecting? then s.(connectError := Some(error)) else s
  }

  predicate MatchesTarget(s: State, target: TargetState) {
    match s
    case Disconnected => target.tunnelArgs.None?
    case Connecting(_, _, _, _, _) => false
    case Connected(args, _, _, interface) => target.tunnelArgs == Some(args) && target.networkInterface == Some(interface)
  }

  // ------------------------------------------------------- what every transition keeps

  /** The same session, and no counter lowered. */
  predicate AtLeast(a: TrafficStats, b: TrafficStats) {
    a.connId == b.connId && a.txBytes >= b.txBytes && a.rxBytes >= b.rxBytes && a.connectedMs >= b.connectedMs
  }

  function ConnStats(r: Reading, id: nat): TrafficStats {
    TrafficStats(r.connectedMs, id, r.txBytes, r.rxBytes, r.latencyMs)
  }

  // ------------------------------------------------------------------ the published cell

  /** The cell the state is published in. Its methods are specified by what they do to
      the statistics that a reader of the cell sees, besides the new state. */
  class PublishedState {
    var state: State

    ghost function Published(readings: Readings, freshId: nat): TrafficStats
      requires state.Connected? ==> state.connection.conn in readings
      reads this
    {
      Stats(state, readings, freshId)
    }

    constructor ()
      ensures state == Disconnected
    {
      state := Disconnected;
    }

    /** While Connected the counters are at least those carried over and at least those
        of the connection, and at most their sum. */
    method CurrentStats(readings: Readings, freshId: nat) returns (stats: TrafficStats)
      requires state.Connected? ==> state.connection.conn in readings
      ensures stats == Published(readings, freshId)
      ensures state.Connected? ==>
                var r := readings[state.connection.conn];
                && AtLeast(stats, state.offset) && AtLeast(stats, ConnStats(r, stats.connId))
                && stats.txBytes <= state.offset.txBytes + r.txBytes
                && stats.rxBytes <= state.offset.rxBytes + r.rxBytes
                && stats.connectedMs <= state.offset.connectedMs + r.connectedMs
                && stats.latencyMs == r.latencyMs
    {
      match state
      case Disconnected => stats := TrafficStats(0, freshId, 0, 0, 0);
      case Connecting(_, _, _, offset, _) => stats := offset;
      case Connected(_, connection, offset, _) =>
        var r := readings[connection.conn];
        stats := offset;
        stats := stats.(connectedMs := SaturatingAdd(stats.connectedMs, r.connectedMs));
        stats := stats.(rxBytes := SaturatingAdd(stats.rxBytes, r.rxBytes));
        stats := stats.(txBytes := SaturatingAdd(stats.txBytes, r.txBytes));
        stats := stats.(latencyMs := r.latencyMs);
    }

    method SetDisconnected()
      modifies this
      ensures state == Disconnected
    {
      state := Disconnected;
    }

    /** Within a session the published statistics do not change; a new session starts at
        zero. What Connecting already shows, other than the arguments, stays. */
    method SetConnecting(newArgs: TunnelArgs, interface: Option<NetworkInterface>, reason: Option<ReceiveError>,
                         readings: Readings, freshId: nat)
      requires state.Connected? ==> state.connection.conn in readings
      modifies this
      ensures state == ToConnecting(old(state), newArgs, interface, reason, readings, freshId)
      ensures state.Connecting? && state.args == newArgs
      ensures Published(readings, freshId) == old(Published(readings, freshId))
      ensures old(state).Disconnected? ==> Published(readings, freshId) == TrafficStats(0, freshId, 0, 0, 0)
      ensures old(state).Connecting? ==>
                && state.connectError == old(state).connectError && state.disconnectReason == old(state).disconnectReason
                && state.networkInterface == old(state).networkInterface
      ensures !old(state).Connecting? ==> state.connectError.None? && state.disconnectReason == reason
    {
      if state.Connecting? {
        state := Connecting(newArgs, state.connectError, state.disconnectReason, state.offset, state.networkInterface);
      } else {
        var stats := CurrentStats(readings, freshId);
        state := Connecting(newArgs, None, reason, stats, interface);
      }
    }

    /** Publishing the same connection again changes no counter; publishing another one
        adds its counters and keeps all that was counted before. */
    method SetConnected(args: TunnelArgs, interface: NetworkInterface, connection: Connection,
                        readings: Readings, freshId: nat)
      requires state.Connected? ==> state.connection.conn in readings
      requires connection.conn in readings
      modifies this
      ensures state == ToConnected(old(state), args, interface, connection, readings, freshId)
      ensures old(state).Connected? && old(state).connection.conn == connection.conn ==>
                Published(readings, freshId) == old(Published(readings, freshId))
      ensures AtLeast(Published(readings, freshId), old(Published(readings, freshId)))
      ensures AtLeast(Published(readings, freshId),
                      ConnStats(readings[connection.conn], old(Published(readings, freshId)).connId))
    {
      var offset;
      if state.Connected? && state.connection.conn == connection.conn {
        offset := state.offset;
      } else {
        offset := CurrentStats(readings, freshId);
      }
      state := Connected(args, connection, offset, interface);
    }

    /** Changes nothing but the error, and the statistics never. */
    method SetConnectError(error: ConnectError) returns (recorded: bool)
      modifies this
      ensures state == WithConnectError(old(state), error)
      ensures recorded ==> old(state).Connecting? && state.Connecting? && state.connectError == Some(error)
      ensures recorded ==> state.(connectError := old(state).connectError) == old(state)
      ensures !recorded ==> state == old(state) && !state.Connecting?
    {
      if !state.Connecting? {
        return false;
      }
      state := state.(connectError := Some(error));
      return true;
    }
  }
}
