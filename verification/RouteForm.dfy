/** The form of the routes handed to the operating system
    (rustlib/src/local_network.rs, lines 34-60): which address each carries, and in
    which order they come. */
module RouteForm {
  import opened Cidr
  import opened CanonicalRoutes
  import opened LocalNetwork

  function Width(ip: IpAddr): nat { if ip.V4? then 32 else 128 }

  function Number(ip: IpAddr): nat { if ip.V4? then ip.v4 else ip.v6 }

  ghost predicate Multiple(n: nat, d: nat) { exists q: nat :: n == q * d }

  /** The prefix length fits the family, and the address has no host bits: it is a
      multiple of the block size. */
  ghost predicate IsBlock(r: Route) {
    r.prefix <= Width(r.address)
    && Multiple(Number(r.address), Pow2(Width(r.address) - r.prefix))
  }

  /** IPv4 comes before IPv6, and within a family the first block ends before the
      second begins. */
  predicate Before(a: Route, b: Route)
    requires a.prefix <= Width(a.address)
  {
    if a.address.V4? == b.address.V4?
    then Number(a.address) + Pow2(Width(a.address) - a.prefix) <= Number(b.address)
    else a.address.V4?
  }

  ghost predicate WellFormed(routes: seq<Route>) {
    && (forall i :: 0 <= i < |routes| ==> IsBlock(routes[i]))
    && (forall i, j :: 0 <= i < j < |routes| ==> Before(routes[i], routes[j]))
  }

  lemma {:induction false} FirstIsMultiple(w: nat, n: Network)
    requires n.prefix <= w
    ensures Multiple(First(w, n), Pow2(w - n.prefix))
  {
    var q := Leading(w, n.prefix, n.address);
    ShlProduct(q, w - n.prefix);
    assert First(w, n) == q * Pow2(w - n.prefix);
  }

  lemma {:induction false} V4RouteAt(nets: seq<Network>, i: nat)
    requires AllValid(32, nets) && i < |nets|
    ensures V4Routes(nets)[i].address.V4? && V4Routes(nets)[i].prefix == nets[i].prefix
    ensures V4Routes(nets)[i].address.v4 == First(32, nets[i])
  {
    if i > 0 {
      V4RouteAt(nets[1..], i - 1);
    }
  }

  lemma {:induction false} V6RouteAt(nets: seq<Network>, i: nat)
    requires AllValid(128, nets) && i < |nets|
    ensures V6Routes(nets)[i].address.V6? && V6Routes(nets)[i].prefix == nets[i].prefix
    ensures V6Routes(nets)[i].address.v6 == First(128, nets[i])
  {
    if i > 0 {
      V6RouteAt(nets[1..], i - 1);
    }
  }

  /** The route carries the first address and the prefix of the network. */
  predicate IsRouteOf(w: nat, r: Route, n: Network)
    requires n.prefix <= w
  {
    Width(r.address) == w && r.prefix == n.prefix && Number(r.address) == First(w, n)
  }

  lemma {:induction false} AscendingWellFormed(w: nat, nets: seq<Network>, routes: seq<Route>)
    requires AllValid(w, nets) && Ascending(w, nets) && |routes| == |nets|
    requires forall i :: 0 <= i < |nets| ==> IsRouteOf(w, routes[i], nets[i])
    ensures WellFormed(routes)
  {
    forall i | 0 <= i < |nets| ensures IsBlock(routes[i]) {
      FirstIsMultiple(w, nets[i]);
    }
    forall i, j | 0 <= i < j < |nets| ensures Before(routes[i], routes[j]) {
      assert Last(w, nets[i]) < First(w, nets[j]);
    }
  }

  lemma {:induction false} V4WellFormed(nets: seq<Network>)
    requires AllValid(32, nets) && Ascending(32, nets)
    ensures WellFormed(V4Routes(nets)) && forall i :: 0 <= i < |nets| ==> V4Routes(nets)[i].address.V4?
  {
    forall i | 0 <= i < |nets| ensures IsRouteOf(32, V4Routes(nets)[i], nets[i]) {
      V4RouteAt(nets, i);
    }
    AscendingWellFormed(32, nets, V4Routes(nets));
  }

  lemma {:induction false} V6WellFormed(nets: seq<Network>)
    requires AllValid(128, nets) && Ascending(128, nets)
    ensures WellFormed(V6Routes(nets)) && forall i :: 0 <= i < |nets| ==> V6Routes(nets)[i].address.V6?
  {
    forall i | 0 <= i < |nets| ensures IsRouteOf(128, V6Routes(nets)[i], nets[i]) {
      V6RouteAt(nets, i);
    }
    AscendingWellFormed(128, nets, V6Routes(nets));
  }

  lemma {:induction false} FamiliesInOrder(v4: seq<Route>, v6: seq<Route>)
    requires WellFormed(v4) && forall i :: 0 <= i < |v4| ==> v4[i].address.V4?
    requires WellFormed(v6) && forall i :: 0 <= i < |v6| ==> v6[i].address.V6?
    ensures WellFormed(v4 + v6)
  {
  }

  lemma WholeFamily(r: Route)
    requires Number(r.address) == 0 && r.prefix == 0
    ensures IsBlock(r)
  {
    assert 0 == 0 * Pow2(Width(r.address) - r.prefix);
  }

  lemma {:induction false} TwoWellFormed(a: Route, b: Route)
    requires IsBlock(a) && IsBlock(b) && a.address.V4? && b.address.V6?
    ensures WellFormed([a, b])
  {
  }

  lemma {:induction false} EverythingWellFormed()
    ensures WellFormed([Route(V4(0), 0), Route(V6(0), 0)])
  {
    WholeFamily(Route(V4(0), 0));
    WholeFamily(Route(V6(0), 0));
    TwoWellFormed(Route(V4(0), 0), Route(V6(0), 0));
  }

  /** What is left of a family after any cuts. */
  lemma {:induction false} RestWellFormed(cuts4: seq<Network>, cuts6: seq<Network>)
    requires AllValid(32, cuts4) && AllValid(128, cuts6)
    ensures WellFormed(V4Routes(FoldSubtract(32, [ALL], cuts4)) + V6Routes(FoldSubtract(128, [ALL], cuts6)))
  {
    AllRoutesAscending(32, cuts4);
    AllRoutesAscending(128, cuts6);
    V4WellFormed(FoldSubtract(32, [ALL], cuts4));
    V6WellFormed(FoldSubtract(128, [ALL], cuts6));
    FamiliesInOrder(V4Routes(FoldSubtract(32, [ALL], cuts4)), V6Routes(FoldSubtract(128, [ALL], cuts6)));
  }

  /** Every route carries the first address of its block, and the routes ascend, IPv4
      before IPv6. */
  lemma {:induction false} RoutesWellFormed(servers: seq<IpAddr>, allow: bool)
    ensures WellFormed(TunnelRoutesOf(servers, allow))
  {
    if !allow {
      EverythingWellFormed();
    } else {
      LanValid();
      HostsValid(servers);
      RestWellFormed(FoldSubtract(32, LAN_V4, V4Hosts(servers)), FoldSubtract(128, LAN_V6, V6Hosts(servers)));
    }
  }

  /** A block covers its own address, and none below it; the addresses it covers are as
      many as its prefix leaves free. */
  lemma {:induction false} BlockCovers(r: Route, ip: IpAddr)
    requires IsBlock(r) && ip.V4? == r.address.V4?
    ensures RouteCovers(r, ip) <==>
              Number(r.address) <= Number(ip) < Number(r.address) + Pow2(Width(r.address) - r.prefix)
  {
    var w, n := Width(r.address), Network(Number(r.address), r.prefix);
    var d := Pow2(w - r.prefix);
    var q: nat :| Number(r.address) == q * d;
    BlockRange(w, n, d, q, Number(ip));
  }
}
