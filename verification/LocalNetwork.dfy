/** Which addresses the tunnel routes: `tunnel_routes` of
    rustlib/src/local_network.rs. */
module LocalNetwork {
  import opened Cidr
  import opened CanonicalRoutes

  type Ip4 = x: nat | x < 0x1_0000_0000
  type Ip6 = x: nat | x < 0x1_0000_0000_0000_0000_0000_0000_0000_0000

  datatype IpAddr = V4(v4: Ip4) | V6(v6: Ip6)

  datatype Route = Route(address: IpAddr, prefix: nat)

  function Dotted(a: nat, b: nat, c: nat, d: nat): (ip: Ip4)
    requires a < 256 && b < 256 && c < 256 && d < 256
  {
    ((a * 256 + b) * 256 + c) * 256 + d
  }

  /** The three private ranges of section 3 of RFC 1918, the automatic addresses of a
      link, the broadcast address, and two multicast ranges. */
  const LAN_V4: seq<Network> := [
    Network(Dotted(10, 0, 0, 0), 8),
    Network(Dotted(172, 16, 0, 0), 12),
    Network(Dotted(192, 168, 0, 0), 16),
    Network(Dotted(169, 254, 0, 0), 16),
    Network(Dotted(255, 255, 255, 255), 32),
    Network(Dotted(224, 0, 0, 0), 24),
    Network(Dotted(239, 0, 0, 0), 8)
  ]

  /** The IPv6 address whose first 16-bit group is `g` and whose others are zero. */
  function Group(g: nat): (ip: Ip6)
    requires g < 0x1_0000
  {
    g * 0x1_0000_0000_0000_0000_0000_0000_0000
  }

  /** Unicast addresses of a link and of a site, and the multicast scopes 1 to 5. */
  const LAN_V6: seq<Network> := [
    Network(Group(0xfe80), 10),
    Network(Group(0xfc00), 7),
    Network(Group(0xff01), 16),
    Network(Group(0xff02), 16),
    Network(Group(0xff03), 16),
    Network(Group(0xff04), 16),
    Network(Group(0xff05), 16)
  ]

  lemma PowersOfTwo()
    ensures Pow2(8) == 0x100 && Pow2(16) == 0x1_0000 && Pow2(20) == 0x10_0000 && Pow2(24) == 0x100_0000
    ensures Pow2(32) == 0x1_0000_0000
    ensures Pow2(112) == 0x1_0000_0000_0000_0000_0000_0000_0000
    ensures Pow2(118) == 0x40_0000_0000_0000_0000_0000_0000_0000
    ensures Pow2(121) == 0x200_0000_0000_0000_0000_0000_0000_0000
    ensures Pow2(128) == 0x1_0000_0000_0000_0000_0000_0000_0000_0000
  {
    assert Pow2(3) == 8 && Pow2(4) == 16 && Pow2(6) == 64;
    Pow2Add(4, 4);
    Pow2Add(8, 8);
    Pow2Add(16, 4);
    Pow2Add(16, 8);
    Pow2Add(16, 16);
    Pow2Add(32, 32);
    Pow2Add(64, 32);
    Pow2Add(96, 16);
    Pow2Add(112, 6);
    Pow2Add(118, 3);
    Pow2Add(112, 16);
  }

  lemma AddressSpaces()
    ensures Pow2(32) == 0x1_0000_0000
    ensures Pow2(128) == 0x1_0000_0000_0000_0000_0000_0000_0000_0000
  {
    PowersOfTwo();
  }

  lemma AllSevenValid(w: nat, nets: seq<Network>)
    requires |nets| == 7
    requires Valid(w, nets[0]) && Valid(w, nets[1]) && Valid(w, nets[2]) && Valid(w, nets[3])
    requires Valid(w, nets[4]) && Valid(w, nets[5]) && Valid(w, nets[6])
    ensures AllValid(w, nets)
  {
  }

  lemma LanValid()
    ensures AllValid(32, LAN_V4) && AllValid(128, LAN_V6)
    ensures Pow2(32) == 0x1_0000_0000
    ensures Pow2(128) == 0x1_0000_0000_0000_0000_0000_0000_0000_0000
  {
    Lan4Valid();
    Lan6Valid();
    AddressSpaces();
  }

  lemma Lan4Valid()
    ensures AllValid(32, LAN_V4)
  {
    AddressSpaces();
    AllSevenValid(32, LAN_V4);
  }

  lemma Lan6Valid()
    ensures AllValid(128, LAN_V6)
  {
    AddressSpaces();
    AllSevenValid(128, LAN_V6);
  }

  // ------------------------------------------------------------ reference ranges

  /** The private (section 3 of RFC 1918), link-local, multicast and broadcast
      ranges by their first and last address. */
  predicate IsLan4(x: Ip4) {
    || Dotted(10, 0, 0, 0) <= x <= Dotted(10, 255, 255, 255)
    || Dotted(172, 16, 0, 0) <= x <= Dotted(172, 31, 255, 255)
    || Dotted(192, 168, 0, 0) <= x <= Dotted(192, 168, 255, 255)
    || Dotted(169, 254, 0, 0) <= x <= Dotted(169, 254, 255, 255)
    || x == Dotted(255, 255, 255, 255)
    || Dotted(224, 0, 0, 0) <= x <= Dotted(224, 0, 0, 255)
    || Dotted(239, 0, 0, 0) <= x <= Dotted(239, 255, 255, 255)
  }

  /** The first group is in fe80 to febf, fc00 to fdff, or ff01 to ff05. */
  predicate IsLan6(x: Ip6) {
    || Group(0xfe80) <= x < Group(0xfec0)
    || Group(0xfc00) <= x < Group(0xfe00)
    || Group(0xff01) <= x < Group(0xff06)
  }

  predicate IsLan(ip: IpAddr) {
    match ip
    case V4(x) => IsLan4(x)
    case V6(x) => IsLan6(x)
  }

  lemma {:induction false} ShlProduct(q: nat, k: nat)
    ensures Shl(q, k) == q * Pow2(k)
  {
    if k > 0 {
      ShlProduct(q, k - 1);
    }
  }

  lemma {:induction false} Pow2Add(a: nat, b: nat)
    ensures Pow2(a + b) == Pow2(a) * Pow2(b)
  {
    if a > 0 {
      Pow2Add(a - 1, b);
    }
  }

  lemma BlockRange(w: nat, n: Network, size: nat, k: nat, x: nat)
    requires n.prefix <= w && Pow2(w - n.prefix) == size && n.address == k * size
    ensures Contains(w, n, x) <==> n.address <= x < n.address + size
  {
    ShlProduct(k, w - n.prefix);
    ShrIs(n.address, w - n.prefix, k);
    ContainsInterval(w, n, x);
  }

  lemma InListOfSeven(w: nat, a: Network, b: Network, c: Network, d: Network, e: Network, f: Network, g: Network, x: nat)
    requires AllValid(w, [a, b, c, d, e, f, g])
    ensures Valid(w, a) && Valid(w, b) && Valid(w, c) && Valid(w, d) && Valid(w, e) && Valid(w, f) && Valid(w, g)
    ensures InList(w, [a, b, c, d, e, f, g], x) <==>
              || Contains(w, a, x) || Contains(w, b, x) || Contains(w, c, x) || Contains(w, d, x)
              || Contains(w, e, x) || Contains(w, f, x) || Contains(w, g, x)
  {
    var nets := [a, b, c, d, e, f, g];
    assert nets[0] == a && nets[1] == b && nets[2] == c && nets[3] == d && nets[4] == e && nets[5] == f && nets[6] == g;
    assert forall n :: n in nets <==> n == a || n == b || n == c || n == d || n == e || n == f || n == g;
  }

  lemma Block8(a: nat, x: Ip4)
    requires a < 256
    ensures Contains(32, Network(Dotted(a, 0, 0, 0), 8), x) <==> Dotted(a, 0, 0, 0) <= x <= Dotted(a, 255, 255, 255)
  {
    PowersOfTwo();
    BlockRange(32, Network(Dotted(a, 0, 0, 0), 8), 0x100_0000, a, x);
  }

  lemma Block16(a: nat, b: nat, x: Ip4)
    requires a < 256 && b < 256
    ensures Contains(32, Network(Dotted(a, b, 0, 0), 16), x) <==> Dotted(a, b, 0, 0) <= x <= Dotted(a, b, 255, 255)
  {
    PowersOfTwo();
    BlockRange(32, Network(Dotted(a, b, 0, 0), 16), 0x1_0000, a * 256 + b, x);
  }

  lemma OtherBlocks(x: Ip4)
    ensures Contains(32, Network(Dotted(172, 16, 0, 0), 12), x) <==> Dotted(172, 16, 0, 0) <= x <= Dotted(172, 31, 255, 255)
    ensures Contains(32, Network(Dotted(255, 255, 255, 255), 32), x) <==> x == Dotted(255, 255, 255, 255)
    ensures Contains(32, Network(Dotted(224, 0, 0, 0), 24), x) <==> Dotted(224, 0, 0, 0) <= x <= Dotted(224, 0, 0, 255)
  {
    PowersOfTwo();
    assert Pow2(0) == 1;
    BlockRange(32, Network(Dotted(172, 16, 0, 0), 12), 0x10_0000, 172 * 16 + 1, x);
    BlockRange(32, Network(Dotted(255, 255, 255, 255), 32), 1, 0xffff_ffff, x);
    BlockRange(32, Network(Dotted(224, 0, 0, 0), 24), 0x100, 224 * 0x1_0000, x);
  }

  lemma Lan4Ranges(x: Ip4)
    ensures AllValid(32, LAN_V4)
    ensures InList(32, LAN_V4, x) <==> IsLan4(x)
  {
    LanValid();
    InListOfSeven(32, Network(Dotted(10, 0, 0, 0), 8), Network(Dotted(172, 16, 0, 0), 12), Network(Dotted(192, 168, 0, 0), 16),
                  Network(Dotted(169, 254, 0, 0), 16), Network(Dotted(255, 255, 255, 255), 32), Network(Dotted(224, 0, 0, 0), 24),
                  Network(Dotted(239, 0, 0, 0), 8), x);
    Block8(10, x);
    Block16(192, 168, x);
    Block16(169, 254, x);
    Block8(239, x);
    OtherBlocks(x);
  }

  lemma Unicast6(x: Ip6)
    ensures Contains(128, Network(Group(0xfe80), 10), x) <==> Group(0xfe80) <= x < Group(0xfec0)
    ensures Contains(128, Network(Group(0xfc00), 7), x) <==> Group(0xfc00) <= x < Group(0xfe00)
  {
    PowersOfTwo();
    BlockRange(128, Network(Group(0xfe80), 10), Pow2(118), 0xfe80 / 0x40, x);
    BlockRange(128, Network(Group(0xfc00), 7), Pow2(121), 0xfc00 / 0x200, x);
  }

  /** All addresses with the first group `g`. */
  lemma ScopeRange(g: nat, x: Ip6)
    requires g + 1 < 0x1_0000
    ensures Contains(128, Network(Group(g), 16), x) <==> Group(g) <= x < Group(g + 1)
  {
    PowersOfTwo();
    BlockRange(128, Network(Group(g), 16), Pow2(112), g, x);
  }

  lemma Lan6Ranges(x: Ip6)
    ensures AllValid(128, LAN_V6)
    ensures InList(128, LAN_V6, x) <==> IsLan6(x)
  {
    LanValid();
    InListOfSeven(128, Network(Group(0xfe80), 10), Network(Group(0xfc00), 7), Network(Group(0xff01), 16),
                  Network(Group(0xff02), 16), Network(Group(0xff03), 16), Network(Group(0xff04), 16),
                  Network(Group(0xff05), 16), x);
    Unicast6(x);
    ScopeRange(0xff01, x);
    ScopeRange(0xff02, x);
    ScopeRange(0xff03, x);
    ScopeRange(0xff04, x);
    ScopeRange(0xff05, x);
  }

  // --------------------------------------------------------------------- routes

  function V4Hosts(servers: seq<IpAddr>): seq<Network> {
    if servers == [] then []
    else (if servers[0].V4? then [Network(servers[0].v4, 32)] else []) + V4Hosts(servers[1..])
  }

  function V6Hosts(servers: seq<IpAddr>): seq<Network> {
    if servers == [] then []
    else (if servers[0].V6? then [Network(servers[0].v6, 128)] else []) + V6Hosts(servers[1..])
  }

  lemma {:induction false} V4HostsValid(servers: seq<IpAddr>)
    ensures AllValid(32, V4Hosts(servers))
  {
    if servers != [] {
      V4HostsValid(servers[1..]);
      AddressSpaces();
    }
  }

  lemma {:induction false} V6HostsValid(servers: seq<IpAddr>)
    ensures AllValid(128, V6Hosts(servers))
  {
    if servers != [] {
      V6HostsValid(servers[1..]);
      AddressSpaces();
    }
  }

  lemma HostsValid(servers: seq<IpAddr>)
    ensures AllValid(32, V4Hosts(servers)) && AllValid(128, V6Hosts(servers))
  {
    V4HostsValid(servers);
    V6HostsValid(servers);
  }

  function V4Routes(nets: seq<Network>): (r: seq<Route>)
    requires AllValid(32, nets)
    ensures |r| == |nets|
  {
    if nets == [] then []
    else
      FirstBelow(32, nets[0]);
      LanValid();
      PowersOfTwo();
      [Route(V4(First(32, nets[0])), nets[0].prefix)] + V4Routes(nets[1..])
  }

  function V6Routes(nets: seq<Network>): (r: seq<Route>)
    requires AllValid(128, nets)
    ensures |r| == |nets|
  {
    if nets == [] then []
    else
      FirstBelow(128, nets[0]);
      LanValid();
      PowersOfTwo();
      [Route(V6(First(128, nets[0])), nets[0].prefix)] + V6Routes(nets[1..])
  }

  /** The routes `tunnel_routes` computes. */
  function TunnelRoutesOf(servers: seq<IpAddr>, allowLocalNetworkAccess: bool): seq<Route> {
    if !allowLocalNetworkAccess then [Route(V4(0), 0), Route(V6(0), 0)]
    else
      LanValid();
      HostsValid(servers);
      V4Routes(FoldSubtract(32, [ALL], FoldSubtract(32, LAN_V4, V4Hosts(servers))))
      + V6Routes(FoldSubtract(128, [ALL], FoldSubtract(128, LAN_V6, V6Hosts(servers))))
  }

  method HostsByFamily(servers: seq<IpAddr>) returns (v4: seq<Network>, v6: seq<Network>)
    ensures v4 == V4Hosts(servers) && v6 == V6Hosts(servers)
  {
    v4, v6 := [], [];
    for i := 0 to |servers|
      invariant v4 + V4Hosts(servers[i..]) == V4Hosts(servers)
      invariant v6 + V6Hosts(servers[i..]) == V6Hosts(servers)
    {
      HostsStep(servers, i);
      match servers[i]
      case V4(address) => v4 := v4 + [Network(address, 32)];
      case V6(address) => v6 := v6 + [Network(address, 128)];
    }
  }

  lemma HostsStep(servers: seq<IpAddr>, i: nat)
    requires i < |servers|
    ensures V4Hosts(servers[i..])
         == (if servers[i].V4? then [Network(servers[i].v4, 32)] else []) + V4Hosts(servers[i + 1..])
    ensures V6Hosts(servers[i..])
         == (if servers[i].V6? then [Network(servers[i].v6, 128)] else []) + V6Hosts(servers[i + 1..])
  {
    assert servers[i..][1..] == servers[i + 1..];
  }

  method TunnelRoutes(dnsServers: seq<IpAddr>, allowLocalNetworkAccess: bool) returns (routes: seq<Route>)
    ensures routes == TunnelRoutesOf(dnsServers, allowLocalNetworkAccess)
    ensures forall ip :: Routed(routes, ip) <==> !allowLocalNetworkAccess || !IsLan(ip) || ip in dnsServers
  {
    if !allowLocalNetworkAccess {
      routes := [Route(V4(0), 0), Route(V6(0), 0)];
    } else {
      LanValid();
      var dnsV4, dnsV6 := HostsByFamily(dnsServers);
      HostsValid(dnsServers);
      var localV4 := SubtractEach(32, LAN_V4, dnsV4);
      var localV6 := SubtractEach(128, LAN_V6, dnsV6);
      var v4 := SubtractEach(32, [ALL], localV4);
      var v6 := SubtractEach(128, [ALL], localV6);
      routes := V4Routes(v4) + V6Routes(v6);
    }
    TunnelRoutesExactForAll(dnsServers, allowLocalNetworkAccess);
  }

  // ----------------------------------------------------------------- exactness

  predicate RouteCovers(route: Route, ip: IpAddr) {
    match (route.address, ip)
    case (V4(a), V4(x)) => route.prefix <= 32 && Contains(32, Network(a, route.prefix), x)
    case (V6(a), V6(x)) => route.prefix <= 128 && Contains(128, Network(a, route.prefix), x)
    case _ => false
  }

  predicate Routed(routes: seq<Route>, ip: IpAddr) {
    exists r :: r in routes && RouteCovers(r, ip)
  }

  lemma RoutedConcat(a: seq<Route>, b: seq<Route>, ip: IpAddr)
    ensures Routed(a + b, ip) <==> Routed(a, ip) || Routed(b, ip)
  {
    assert forall r :: r in a + b <==> r in a || r in b;
  }

  lemma {:induction false} V4RoutesCover(nets: seq<Network>, ip: IpAddr)
    requires AllValid(32, nets)
    ensures Routed(V4Routes(nets), ip) <==> ip.V4? && InList(32, nets, ip.v4)
  {
    if nets != [] {
      var n, rest := nets[0], nets[1..];
      V4RoutesCover(rest, ip);
      assert V4Routes(nets) == [V4Routes(nets)[0]] + V4Routes(rest);
      RoutedConcat([V4Routes(nets)[0]], V4Routes(rest), ip);
      assert nets == [n] + rest;
      assert V4Routes(nets)[0] in [V4Routes(nets)[0]] && n in [n];
      FirstContained(32, n);
      if ip.V4? { InListConcat(32, [n], rest, ip.v4); }
    }
  }

  lemma {:induction false} V6RoutesCover(nets: seq<Network>, ip: IpAddr)
    requires AllValid(128, nets)
    ensures Routed(V6Routes(nets), ip) <==> ip.V6? && InList(128, nets, ip.v6)
  {
    if nets != [] {
      var n, rest := nets[0], nets[1..];
      V6RoutesCover(rest, ip);
      assert V6Routes(nets) == [V6Routes(nets)[0]] + V6Routes(rest);
      RoutedConcat([V6Routes(nets)[0]], V6Routes(rest), ip);
      assert nets == [n] + rest;
      assert V6Routes(nets)[0] in [V6Routes(nets)[0]] && n in [n];
      FirstContained(128, n);
      if ip.V6? { InListConcat(128, [n], rest, ip.v6); }
    }
  }

  lemma HostContains(w: nat, h: nat, x: nat)
    ensures Contains(w, Network(h, w), x) <==> x == h
  {
  }

  lemma {:induction false} V4HostsCover(servers: seq<IpAddr>, x: Ip4)
    ensures AllValid(32, V4Hosts(servers))
    ensures InList(32, V4Hosts(servers), x) <==> V4(x) in servers
  {
    HostsValid(servers);
    if servers != [] {
      V4HostsCover(servers[1..], x);
      LanValid();
      assert servers == [servers[0]] + servers[1..];
      if servers[0].V4? {
        var h := Network(servers[0].v4, 32);
        HostContains(32, servers[0].v4, x);
        InListConcat(32, [h], V4Hosts(servers[1..]), x);
        assert h in [h];
      } else {
        assert V4Hosts(servers) == V4Hosts(servers[1..]);
      }
    }
  }

  lemma {:induction false} V6HostsCover(servers: seq<IpAddr>, x: Ip6)
    ensures AllValid(128, V6Hosts(servers))
    ensures InList(128, V6Hosts(servers), x) <==> V6(x) in servers
  {
    HostsValid(servers);
    if servers != [] {
      V6HostsCover(servers[1..], x);
      LanValid();
      assert servers == [servers[0]] + servers[1..];
      if servers[0].V6? {
        var h := Network(servers[0].v6, 128);
        HostContains(128, servers[0].v6, x);
        InListConcat(128, [h], V6Hosts(servers[1..]), x);
        assert h in [h];
      } else {
        assert V6Hosts(servers) == V6Hosts(servers[1..]);
      }
    }
  }

  lemma AllContains(w: nat, x: nat)
    requires x < Pow2(w)
    ensures Contains(w, ALL, x)
  {
    ShlOne(w);
    ShrIs(x, w, 0);
    ShrIs(0, w, 0);
  }

  lemma RoutedByFamily(servers: seq<IpAddr>, ip: IpAddr)
    ensures AllValid(32, LAN_V4) && AllValid(128, LAN_V6)
    ensures AllValid(32, V4Hosts(servers)) && AllValid(128, V6Hosts(servers))
    ensures Routed(TunnelRoutesOf(servers, true), ip) <==>
              if ip.V4? then InList(32, FoldSubtract(32, [ALL], FoldSubtract(32, LAN_V4, V4Hosts(servers))), ip.v4)
              else InList(128, FoldSubtract(128, [ALL], FoldSubtract(128, LAN_V6, V6Hosts(servers))), ip.v6)
  {
    LanValid();
    HostsValid(servers);
    var nets4 := FoldSubtract(32, [ALL], FoldSubtract(32, LAN_V4, V4Hosts(servers)));
    var nets6 := FoldSubtract(128, [ALL], FoldSubtract(128, LAN_V6, V6Hosts(servers)));
    RoutedConcat(V4Routes(nets4), V6Routes(nets6), ip);
    V4RoutesCover(nets4, ip);
    V6RoutesCover(nets6, ip);
  }

  lemma V4RoutedExact(servers: seq<IpAddr>, x: Ip4)
    ensures AllValid(32, LAN_V4) && AllValid(32, V4Hosts(servers))
    ensures InList(32, FoldSubtract(32, [ALL], FoldSubtract(32, LAN_V4, V4Hosts(servers))), x)
       <==> !IsLan4(x) || V4(x) in servers
  {
    Lan4Ranges(x);
    LanValid();
    HostsValid(servers);
    FoldExact(32, [ALL], FoldSubtract(32, LAN_V4, V4Hosts(servers)), x);
    FoldExact(32, LAN_V4, V4Hosts(servers), x);
    V4HostsCover(servers, x);
    AllContains(32, x);
    assert ALL in [ALL];
  }

  lemma V6RoutedExact(servers: seq<IpAddr>, x: Ip6)
    ensures AllValid(128, LAN_V6) && AllValid(128, V6Hosts(servers))
    ensures InList(128, FoldSubtract(128, [ALL], FoldSubtract(128, LAN_V6, V6Hosts(servers))), x)
       <==> !IsLan6(x) || V6(x) in servers
  {
    Lan6Ranges(x);
    LanValid();
    HostsValid(servers);
    FoldExact(128, [ALL], FoldSubtract(128, LAN_V6, V6Hosts(servers)), x);
    FoldExact(128, LAN_V6, V6Hosts(servers), x);
    V6HostsCover(servers, x);
    AllContains(128, x);
    assert ALL in [ALL];
  }

  lemma EverythingRouted(ip: IpAddr)
    ensures Routed([Route(V4(0), 0), Route(V6(0), 0)], ip)
  {
    var all4, all6 := Route(V4(0), 0), Route(V6(0), 0);
    LanValid();
    match ip
    case V4(x) =>
      AllContains(32, x);
      assert all4 in [all4, all6] && RouteCovers(all4, ip);
    case V6(x) =>
      AllContains(128, x);
      assert all6 in [all4, all6] && RouteCovers(all6, ip);
  }

  /** An address is routed into the tunnel exactly when local access is off, or
      it is no LAN address, or it is one of the DNS servers. */
  lemma TunnelRoutesExact(servers: seq<IpAddr>, allow: bool, ip: IpAddr)
    ensures Routed(TunnelRoutesOf(servers, allow), ip) <==> !allow || !IsLan(ip) || ip in servers
  {
    if !allow {
      EverythingRouted(ip);
    } else {
      RoutedByFamily(servers, ip);
      match ip
      case V4(x) => V4RoutedExact(servers, x);
      case V6(x) => V6RoutedExact(servers, x);
    }
  }

  lemma TunnelRoutesExactForAll(servers: seq<IpAddr>, allow: bool)
    ensures forall ip :: Routed(TunnelRoutesOf(servers, allow), ip) <==> !allow || !IsLan(ip) || ip in servers
  {
    forall ip ensures Routed(TunnelRoutesOf(servers, allow), ip) <==> !allow || !IsLan(ip) || ip in servers {
      TunnelRoutesExact(servers, allow, ip);
    }
  }

  // ---------------------------------------------------- canonicity of the routes

  lemma SameServersSameCoverage(w: nat, lan: seq<Network>, a: seq<Network>, b: seq<Network>)
    requires AllValid(w, lan) && AllValid(w, a) && AllValid(w, b)
    requires SameCoverage(w, a, b)
    ensures SameCoverage(w, FoldSubtract(w, lan, a), FoldSubtract(w, lan, b))
  {
    forall x: nat ensures InList(w, FoldSubtract(w, lan, a), x) <==> InList(w, FoldSubtract(w, lan, b), x) {
      FoldExact(w, lan, a, x);
      FoldExact(w, lan, b, x);
    }
  }

  /** A network of width `w` contains no number of more than `w` bits. */
  lemma InListBelow(w: nat, nets: seq<Network>, x: nat)
    requires AllValid(w, nets) && InList(w, nets, x)
    ensures x < Pow2(w)
  {
    var n :| n in nets && Contains(w, n, x);
    ContainsInterval(w, n, x);
    LastBelow(w, n);
  }

  /** The order and repetition of the DNS servers does not change the routes. */
  lemma RoutesIgnoreServerOrder(servers: seq<IpAddr>, servers': seq<IpAddr>, allow: bool)
    requires forall ip :: ip in servers <==> ip in servers'
    ensures TunnelRoutesOf(servers, allow) == TunnelRoutesOf(servers', allow)
  {
    LanValid();
    HostsValid(servers);
    HostsValid(servers');
    var a4, b4, a6, b6 := V4Hosts(servers), V4Hosts(servers'), V6Hosts(servers), V6Hosts(servers');
    forall x: nat ensures InList(32, a4, x) <==> InList(32, b4, x) {
      if InList(32, a4, x) { InListBelow(32, a4, x); V4HostsCover(servers, x); V4HostsCover(servers', x); }
      if InList(32, b4, x) { InListBelow(32, b4, x); V4HostsCover(servers, x); V4HostsCover(servers', x); }
    }
    forall x: nat ensures InList(128, a6, x) <==> InList(128, b6, x) {
      if InList(128, a6, x) { InListBelow(128, a6, x); V6HostsCover(servers, x); V6HostsCover(servers', x); }
      if InList(128, b6, x) { InListBelow(128, b6, x); V6HostsCover(servers, x); V6HostsCover(servers', x); }
    }
    SameServersSameCoverage(32, LAN_V4, a4, b4);
    SameServersSameCoverage(128, LAN_V6, a6, b6);
    FoldDependsOnCoverageOnly(32, FoldSubtract(32, LAN_V4, a4), FoldSubtract(32, LAN_V4, b4));
    FoldDependsOnCoverageOnly(128, FoldSubtract(128, LAN_V6, a6), FoldSubtract(128, LAN_V6, b6));
  }

  predicate ValidRoutes(routes: seq<Route>) {
    forall i :: 0 <= i < |routes| ==> routes[i].prefix <= if routes[i].address.V4? then 32 else 128
  }

  function V4Nets(routes: seq<Route>): (r: seq<Network>)
    requires ValidRoutes(routes)
    ensures AllValid(32, r)
  {
    LanValid();
    if routes == [] then []
    else (if routes[0].address.V4? then [Network(routes[0].address.v4, routes[0].prefix)] else []) + V4Nets(routes[1..])
  }

  function V6Nets(routes: seq<Route>): (r: seq<Network>)
    requires ValidRoutes(routes)
    ensures AllValid(128, r)
  {
    LanValid();
    if routes == [] then []
    else (if routes[0].address.V6? then [Network(routes[0].address.v6, routes[0].prefix)] else []) + V6Nets(routes[1..])
  }

  lemma {:induction false} NetsSplit(routes: seq<Route>, ip: IpAddr)
    requires ValidRoutes(routes)
    ensures |V4Nets(routes)| + |V6Nets(routes)| == |routes|
    ensures Routed(routes, ip) <==>
              if ip.V4? then InList(32, V4Nets(routes), ip.v4) else InList(128, V6Nets(routes), ip.v6)
  {
    if routes != [] {
      var r, rest := routes[0], routes[1..];
      NetsSplit(rest, ip);
      LanValid();
      assert routes == [r] + rest;
      RoutedConcat([r], rest, ip);
      assert r in [r];
      match ip
      case V4(x) =>
        if r.address.V4? {
          var n := Network(r.address.v4, r.prefix);
          InListConcat(32, [n], V4Nets(rest), x);
          assert n in [n];
        } else {
          assert V4Nets(routes) == V4Nets(rest);
        }
      case V6(x) =>
        if r.address.V6? {
          var n := Network(r.address.v6, r.prefix);
          InListConcat(128, [n], V6Nets(rest), x);
          assert n in [n];
        } else {
          assert V6Nets(routes) == V6Nets(rest);
        }
    }
  }

  lemma LocalRoutesShortest(servers: seq<IpAddr>, other: seq<Route>)
    requires ValidRoutes(other)
    requires forall ip :: Routed(other, ip) <==> Routed(TunnelRoutesOf(servers, true), ip)
    ensures |TunnelRoutesOf(servers, true)| <= |other|
  {
    LanValid();
    HostsValid(servers);
    var cuts4 := FoldSubtract(32, LAN_V4, V4Hosts(servers));
    var cuts6 := FoldSubtract(128, LAN_V6, V6Hosts(servers));
    SameV4Coverage(servers, other, cuts4);
    SameV6Coverage(servers, other, cuts6);
    FoldIsShortest(32, cuts4, V4Nets(other));
    FoldIsShortest(128, cuts6, V6Nets(other));
    NetsSplit(other, V4(0));
  }

  /** No route list with the same effect is shorter. */
  lemma RoutesShortest(servers: seq<IpAddr>, allow: bool, other: seq<Route>)
    requires ValidRoutes(other)
    requires forall ip :: Routed(other, ip) <==> Routed(TunnelRoutesOf(servers, allow), ip)
    ensures |TunnelRoutesOf(servers, allow)| <= |other|
  {
    if allow {
      LocalRoutesShortest(servers, other);
    } else {
      EverythingRouted(V4(0));
      EverythingRouted(V6(0));
      NetsSplit(other, V4(0));
      NetsSplit(other, V6(0));
    }
  }

  lemma SameV4Coverage(servers: seq<IpAddr>, other: seq<Route>, cuts: seq<Network>)
    requires ValidRoutes(other) && AllValid(32, LAN_V4) && AllValid(32, V4Hosts(servers))
    requires forall ip :: Routed(other, ip) <==> Routed(TunnelRoutesOf(servers, true), ip)
    requires cuts == FoldSubtract(32, LAN_V4, V4Hosts(servers))
    ensures SameCoverage(32, V4Nets(other), FoldSubtract(32, [ALL], cuts))
  {
    LanValid();
    var a, b := V4Nets(other), FoldSubtract(32, [ALL], cuts);
    forall x: nat ensures InList(32, a, x) <==> InList(32, b, x) {
      if InList(32, a, x) { InListBelow(32, a, x); }
      if InList(32, b, x) { InListBelow(32, b, x); }
      if x < 0x1_0000_0000 {
        NetsSplit(other, V4(x));
        RoutedByFamily(servers, V4(x));
      }
    }
  }

  lemma SameV6Coverage(servers: seq<IpAddr>, other: seq<Route>, cuts: seq<Network>)
    requires ValidRoutes(other) && AllValid(128, LAN_V6) && AllValid(128, V6Hosts(servers))
    requires forall ip :: Routed(other, ip) <==> Routed(TunnelRoutesOf(servers, true), ip)
    requires cuts == FoldSubtract(128, LAN_V6, V6Hosts(servers))
    ensures SameCoverage(128, V6Nets(other), FoldSubtract(128, [ALL], cuts))
  {
    LanValid();
    var a, b := V6Nets(other), FoldSubtract(128, [ALL], cuts);
    forall x: nat ensures InList(128, a, x) <==> InList(128, b, x) {
      if InList(128, a, x) { InListBelow(128, a, x); }
      if InList(128, b, x) { InListBelow(128, b, x); }
      if x < 0x1_0000_0000_0000_0000_0000_0000_0000_0000 {
        NetsSplit(other, V6(x));
        RoutedByFamily(servers, V6(x));
      }
    }
  }
}
