/** The tunnel and operating-system network configuration
    (rustlib/src/network_config.rs), in the Android build, where it carries the
    routes. */
module NetworkConfig {
  import opened Cidr
  import opened LocalNetwork
  import opened Wrappers

  const MULLVAD_EXIT_PROVIDER_NAME := "Mullvad VPN"

  datatype NetworkConfigError = NoIpv4Ip | NoIpv6Ip | NoDns

  /** A network with the address a client was given inside it. */
  datatype Ipv4Net = Ipv4Net(ip: Ip4, prefix: nat)
  datatype Ipv6Net = Ipv6Net(ip: Ip6, prefix: nat)

  datatype ObfuscatedTunnelConfig =
    ObfuscatedTunnelConfig(dns: seq<IpAddr>, clientIpsV4: seq<Ipv4Net>, clientIpsV6: seq<Ipv6Net>)

  datatype TunnelNetworkConfig =
    TunnelNetworkConfig(dns: seq<IpAddr>, ipv4: Ip4, ipv6: Ipv6Net, mtu: nat)

  function NewTunnelNetworkConfig(config: ObfuscatedTunnelConfig, mtu: nat)
    : (r: Result<TunnelNetworkConfig, NetworkConfigError>)
    ensures r.Ok? <==> config.dns != [] && config.clientIpsV4 != [] && config.clientIpsV6 != []
    ensures r.Ok? ==> r.value.dns == config.dns && r.value.dns != [] && r.value.mtu == mtu
    ensures r.Ok? ==> r.value.ipv4 == config.clientIpsV4[0].ip && r.value.ipv6 == config.clientIpsV6[0]
    ensures r == Err(NoDns) <==> config.dns == []
    ensures r == Err(NoIpv4Ip) <==> config.dns != [] && config.clientIpsV4 == []
  {
    if config.dns == [] then Err(NoDns)
    else if config.clientIpsV4 == [] then Err(NoIpv4Ip)
    else if config.clientIpsV6 == [] then Err(NoIpv6Ip)
    else Ok(TunnelNetworkConfig(config.dns, config.clientIpsV4[0].ip, config.clientIpsV6[0], mtu))
  }

  datatype DnsContentBlock = DnsContentBlock(
    ad: bool, tracker: bool, malware: bool, adult: bool, gambling: bool, socialMedia: bool)

  function Bit(b: bool, weight: nat): nat { if b then weight else 0 }

  /** The source combines the six shifted bits with a bitwise or; they do not
      overlap, so this is their sum. */
  function Bitset(block: DnsContentBlock): nat {
    Bit(block.ad, 1) + Bit(block.tracker, 2) + Bit(block.malware, 4)
    + Bit(block.adult, 8) + Bit(block.gambling, 16) + Bit(block.socialMedia, 32)
  }

  function MullvadDnsIp(block: DnsContentBlock): Option<Ip4> {
    if Bitset(block) != 0 then Some(Dotted(100, 64, 0, Bitset(block))) else None
  }

  /** The content-block server determines the blocked categories, and there is
      one for every choice but the empty one. */
  lemma BlockServersAreDistinct(a: DnsContentBlock, b: DnsContentBlock)
    ensures MullvadDnsIp(a) == MullvadDnsIp(b) <==> a == b
    ensures MullvadDnsIp(a) == None <==> a == DnsContentBlock(false, false, false, false, false, false)
  {
    if Bitset(a) == Bitset(b) {
      BitsetInjective(a, b);
    }
  }

  lemma BitsetInjective(a: DnsContentBlock, b: DnsContentBlock)
    requires Bitset(a) == Bitset(b)
    ensures a == b
  {
    assert a.socialMedia == b.socialMedia;
    assert a.gambling == b.gambling;
    assert a.adult == b.adult;
    assert a.malware == b.malware;
    assert a.tracker == b.tracker;
  }

  const NOTHING_BLOCKED := DnsContentBlock(false, false, false, false, false, false)

  /** One of the servers 100.64.0.1 to 100.64.0.63, whose last byte tells the blocked
      categories: bit 0 advertising, 1 trackers, 2 malware, 3 adult, 4 gambling, 5 social
      media. */
  predicate BlocksExactly(server: Ip4, block: DnsContentBlock) {
    var b := server - Dotted(100, 64, 0, 0);
    && 0 < b < 64
    && (b % 2 == 1 <==> block.ad)
    && (b / 2 % 2 == 1 <==> block.tracker)
    && (b / 4 % 2 == 1 <==> block.malware)
    && (b / 8 % 2 == 1 <==> block.adult)
    && (b / 16 % 2 == 1 <==> block.gambling)
    && (b / 32 % 2 == 1 <==> block.socialMedia)
  }

  lemma ServerByteTellsCategories(block: DnsContentBlock)
    requires MullvadDnsIp(block).Some?
    ensures BlocksExactly(MullvadDnsIp(block).value, block)
  {
    var b := Bitset(block);
    assert MullvadDnsIp(block).value - Dotted(100, 64, 0, 0) == b;
    var b1 := Bit(block.tracker, 1) + Bit(block.malware, 2) + Bit(block.adult, 4) + Bit(block.gambling, 8) + Bit(block.socialMedia, 16);
    var b2 := Bit(block.malware, 1) + Bit(block.adult, 2) + Bit(block.gambling, 4) + Bit(block.socialMedia, 8);
    var b3 := Bit(block.adult, 1) + Bit(block.gambling, 2) + Bit(block.socialMedia, 4);
    var b4 := Bit(block.gambling, 1) + Bit(block.socialMedia, 2);
    assert b == 2 * b1 + Bit(block.ad, 1) == 4 * b2 + Bit(block.tracker, 2) + Bit(block.ad, 1);
    assert b / 2 == b1 && b / 4 == b2;
    assert b / 8 == b3 && b / 16 == b4 && b / 32 == Bit(block.socialMedia, 1);
  }

  datatype OsNetworkConfig = OsNetworkConfig(
    dns: seq<IpAddr>, ipv4: Ip4, ipv6: Ipv6Net, routes: seq<Route>, mtu: nat, useSystemDns: bool)

  function NewOsNetworkConfig(config: TunnelNetworkConfig, exitProviderName: string, block: DnsContentBlock,
                              useSystemDns: bool, localNetworkAccess: bool): OsNetworkConfig {
    var dns :=
      if exitProviderName == MULLVAD_EXIT_PROVIDER_NAME && MullvadDnsIp(block).Some?
      then [V4(MullvadDnsIp(block).value)]
      else config.dns;
    OsNetworkConfig(dns, config.ipv4, config.ipv6, TunnelRoutesOf(dns, localNetworkAccess), config.mtu, useSystemDns)
  }

  function DummyTunnelNetworkConfig(): TunnelNetworkConfig {
    TunnelNetworkConfig(
      [V4(Dotted(10, 64, 0, 99))],
      Dotted(10, 75, 76, 77),
      Ipv6Net(0xfc00_bbbb_bbbb_bb01_0000_0000_000c_4c4d, 128),
      1280)
  }

  function DummyOsNetworkConfig(block: DnsContentBlock, useSystemDns: bool, localNetworkAccess: bool): OsNetworkConfig {
    NewOsNetworkConfig(DummyTunnelNetworkConfig(), MULLVAD_EXIT_PROVIDER_NAME, block, useSystemDns, localNetworkAccess)
  }

  /** Every DNS server the operating system is told to use is reached through the
      tunnel, whatever the content blocking and local-access settings, and a LAN
      address bypasses the tunnel exactly when local access is on and it is not
      itself a DNS server. */
  lemma DnsStaysInTunnel(config: TunnelNetworkConfig, provider: string, block: DnsContentBlock,
                         useSystemDns: bool, localNetworkAccess: bool, ip: IpAddr)
    ensures var os := NewOsNetworkConfig(config, provider, block, useSystemDns, localNetworkAccess);
            && (ip in os.dns ==> Routed(os.routes, ip))
            && (!Routed(os.routes, ip) <==> localNetworkAccess && IsLan(ip) && ip !in os.dns)
  {
    var os := NewOsNetworkConfig(config, provider, block, useSystemDns, localNetworkAccess);
    TunnelRoutesExact(os.dns, localNetworkAccess, ip);
  }

  /** What the operating system is told: the server that blocks exactly the chosen
      categories, if the exit's provider is Mullvad and some category is chosen, and else
      the tunnel's own servers, of which there is at least one; and the addresses and
      settings the tunnel was given. */
  lemma OsDnsServers(api: ObfuscatedTunnelConfig, mtu: nat, provider: string, block: DnsContentBlock,
                     useSystemDns: bool, localNetworkAccess: bool)
    requires NewTunnelNetworkConfig(api, mtu).Ok?
    ensures var tunnel := NewTunnelNetworkConfig(api, mtu).value;
            var os := NewOsNetworkConfig(tunnel, provider, block, useSystemDns, localNetworkAccess);
            && os.dns != []
            && (if provider == "Mullvad VPN" && block != NOTHING_BLOCKED
                then |os.dns| == 1 && os.dns[0].V4? && BlocksExactly(os.dns[0].v4, block)
                else os.dns == api.dns)
            && os.ipv4 == api.clientIpsV4[0].ip && os.ipv6 == api.clientIpsV6[0]
            && os.mtu == mtu && os.useSystemDns == useSystemDns
  {
    BlockServersAreDistinct(block, block);
    if MullvadDnsIp(block).Some? { ServerByteTellsCategories(block); }
  }

  /** The placeholder's own addresses and DNS server are private ones, which local
      access would leave outside the tunnel; its DNS server is routed all the same. */
  lemma DummyIsPrivate(useSystemDns: bool, localNetworkAccess: bool)
    ensures var os := DummyOsNetworkConfig(NOTHING_BLOCKED, useSystemDns, localNetworkAccess);
            && IsLan4(os.ipv4) && IsLan6(os.ipv6.ip) && os.ipv6.prefix == 128 && os.mtu == 1280
            && |os.dns| == 1 && IsLan(os.dns[0]) && Routed(os.routes, os.dns[0])
  {
    var dns := [V4(Dotted(10, 64, 0, 99))];
    TunnelRoutesExact(dns, localNetworkAccess, dns[0]);
  }

  /** The placeholder configuration captures the same addresses as the real one
      will, except for the DNS servers. */
  lemma DummyCapturesTheSame(config: TunnelNetworkConfig, provider: string, block: DnsContentBlock,
                             useSystemDns: bool, localNetworkAccess: bool, ip: IpAddr)
    ensures var dummy := DummyOsNetworkConfig(block, useSystemDns, localNetworkAccess);
            var os := NewOsNetworkConfig(config, provider, block, useSystemDns, localNetworkAccess);
            ip !in dummy.dns && ip !in os.dns ==> (Routed(dummy.routes, ip) <==> Routed(os.routes, ip))
  {
    DnsStaysInTunnel(config, provider, block, useSystemDns, localNetworkAccess, ip);
    DnsStaysInTunnel(DummyTunnelNetworkConfig(), MULLVAD_EXIT_PROVIDER_NAME, block, useSystemDns, localNetworkAccess, ip);
  }
}
