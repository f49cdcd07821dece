/** CIDR blocks (section 3.1 of RFC 4632) over addresses of `w` bits, and the
    in-place route subtraction of rustlib/src/local_network.rs.

    The address width `w` is a parameter: 32 for IPv4, 128 for IPv6.
    Addresses are natural numbers below `Pow2(w)`. */
module Cidr {

  function Pow2(n: nat): (p: nat)
    ensures p >= 1
  {
    if n == 0 then 1 else 2 * Pow2(n - 1)
  }

  /** As in the `ipnetwork` crate, the address may have host bits set. */
  datatype Network = Network(address: nat, prefix: nat)

  predicate Valid(w: nat, n: Network) {
    n.prefix <= w && n.address < Pow2(w)
  }

  predicate AllValid(w: nat, nets: seq<Network>) {
    forall i :: 0 <= i < |nets| ==> Valid(w, nets[i])
  }

  /** The bits of `x` shifted right by `k`. */
  function Shr(x: nat, k: nat): nat {
    if k == 0 then x else Shr(x, k - 1) / 2
  }

  /** The bits of `q` shifted left by `k`. */
  function Shl(q: nat, k: nat): nat {
    if k == 0 then q else 2 * Shl(q, k - 1)
  }

  /** The number formed by the first `p` bits of the `w`-bit address `x`. */
  function Leading(w: nat, p: nat, x: nat): nat
    requires p <= w
  {
    Shr(x, w - p)
  }

  function Size(w: nat, n: Network): nat
    requires n.prefix <= w
  {
    Pow2(w - n.prefix)
  }

  /** `network()`: the address with its host bits cleared. */
  function First(w: nat, n: Network): nat
    requires n.prefix <= w
  {
    Shl(Leading(w, n.prefix, n.address), w - n.prefix)
  }

  function Last(w: nat, n: Network): int
    requires n.prefix <= w
  {
    First(w, n) + Size(w, n) - 1
  }

  /** `contains()`: the address agrees with the network on the prefix bits. */
  predicate Contains(w: nat, n: Network, x: nat)
    requires n.prefix <= w
  {
    Leading(w, n.prefix, x) == Leading(w, n.prefix, n.address)
  }

  predicate Covers(w: nat, a: Network, b: Network)
    requires a.prefix <= w && b.prefix <= w
  {
    a.prefix <= b.prefix && Contains(w, a, First(w, b))
  }

  /** The two sub-networks with one more prefix bit. The source sets the new bit
      with a bitwise or; that bit of the base is zero, so this is an addition. */
  function Halves(w: nat, n: Network): (Network, Network)
    requires n.prefix < w
  {
    (Network(First(w, n), n.prefix + 1),
     Network(First(w, n) + Pow2(w - n.prefix - 1), n.prefix + 1))
  }

  /** Host bits are clear. */
  predicate Aligned(w: nat, n: Network) {
    Valid(w, n) && n.address == First(w, n)
  }

  predicate AllAligned(w: nat, nets: seq<Network>) {
    forall n :: n in nets ==> Aligned(w, n)
  }

  predicate Disjoint(w: nat, a: Network, b: Network)
    requires a.prefix <= w && b.prefix <= w
  {
    !Covers(w, a, b) && !Covers(w, b, a)
  }

  /** Some network of the list contains the address. */
  predicate InList(w: nat, nets: seq<Network>, x: nat)
    requires AllValid(w, nets)
  {
    exists n :: n in nets && Contains(w, n, x)
  }

  /** Sorted by address and pairwise disjoint. */
  predicate Ascending(w: nat, nets: seq<Network>)
    requires AllValid(w, nets)
  {
    forall i, j :: 0 <= i < j < |nets| ==> Last(w, nets[i]) < First(w, nets[j])
  }

  // ---------------------------------------------------------------- arithmetic

  lemma {:induction false} ShlAdd(a: nat, b: nat, k: nat)
    ensures Shl(a + b, k) == Shl(a, k) + Shl(b, k)
  {
    if k > 0 {
      ShlAdd(a, b, k - 1);
    }
  }

  lemma {:induction false} ShlOne(k: nat)
    ensures Shl(1, k) == Pow2(k) && Shl(0, k) == 0
  {
    if k > 0 {
      ShlOne(k - 1);
    }
  }

  lemma ShlDouble(q: nat, k: nat)
    ensures Shl(2 * q, k) == 2 * Shl(q, k)
  {
    ShlAdd(q, q, k);
  }

  lemma ShlNext(a: nat, b: nat, k: nat)
    requires a < b
    ensures Shl(a, k) + Pow2(k) <= Shl(b, k)
  {
    ShlOne(k);
    ShlAdd(a, 1, k);
    ShlAdd(a + 1, b - a - 1, k);
  }

  /** Shifting right and back loses less than the last bit kept. */
  lemma {:induction false} ShiftBounds(x: nat, k: nat)
    ensures Shl(Shr(x, k), k) <= x < Shl(Shr(x, k), k) + Pow2(k)
  {
    if k > 0 {
      ShiftBounds(x, k - 1);
      var y := Shr(x, k - 1);
      var z, bit := y / 2, y % 2;
      ShlDouble(z, k - 1);
      ShlAdd(2 * z, bit, k - 1);
      ShlOne(k - 1);
    }
  }

  lemma ShrIs(x: nat, k: nat, q: nat)
    requires Shl(q, k) <= x < Shl(q, k) + Pow2(k)
    ensures Shr(x, k) == q
  {
    ShiftBounds(x, k);
    if Shr(x, k) < q {
      ShlNext(Shr(x, k), q, k);
    } else if q < Shr(x, k) {
      ShlNext(q, Shr(x, k), k);
    }
  }

  lemma {:induction false} ShlPow2(a: nat, k: nat)
    ensures Shl(Pow2(a), k) == Pow2(a + k)
  {
    if k > 0 {
      ShlPow2(a, k - 1);
    }
  }

  /** Addresses that agree on the first `q` bits agree on any shorter prefix. */
  lemma {:induction false} LeadingCoarser(w: nat, p: nat, q: nat, x: nat, y: nat)
    requires p <= q <= w
    requires Leading(w, q, x) == Leading(w, q, y)
    ensures Leading(w, p, x) == Leading(w, p, y)
    decreases q
  {
    if p < q {
      LeadingCoarser(w, p, q - 1, x, y);
    }
  }

  lemma FirstContained(w: nat, n: Network)
    requires n.prefix <= w
    ensures Contains(w, n, First(w, n))
    ensures First(w, n) <= n.address <= Last(w, n)
  {
    ShiftBounds(n.address, w - n.prefix);
    ShrIs(First(w, n), w - n.prefix, Leading(w, n.prefix, n.address));
  }

  lemma ContainsInterval(w: nat, n: Network, x: nat)
    requires n.prefix <= w
    ensures Contains(w, n, x) <==> First(w, n) <= x <= Last(w, n)
  {
    ShiftBounds(x, w - n.prefix);
    if First(w, n) <= x <= Last(w, n) {
      ShrIs(x, w - n.prefix, Leading(w, n.prefix, n.address));
    }
  }

  lemma FirstBelow(w: nat, n: Network)
    requires Valid(w, n)
    ensures First(w, n) < Pow2(w)
  {
    FirstContained(w, n);
  }

  lemma HalvesSplit(w: nat, n: Network)
    requires Valid(w, n) && n.prefix < w
    ensures var (low, high) := Halves(w, n);
            && Aligned(w, low) && Aligned(w, high)
            && First(w, low) == First(w, n) && Last(w, low) + 1 == First(w, high)
            && Last(w, high) == Last(w, n)
  {
    var q, k := Leading(w, n.prefix, n.address), w - n.prefix - 1;
    var (low, high) := Halves(w, n);
    ShlDouble(q, k);
    ShlAdd(2 * q, 1, k);
    ShlOne(k);
    ShrIs(low.address, k, 2 * q);
    ShrIs(high.address, k, 2 * q + 1);
    LastBelow(w, n);
  }

  lemma LastBelow(w: nat, n: Network)
    requires Valid(w, n)
    ensures Last(w, n) < Pow2(w)
  {
    var q, k := Leading(w, n.prefix, n.address), w - n.prefix;
    ShiftBounds(n.address, k);
    ShlPow2(n.prefix, k);
    if Pow2(n.prefix) <= q {
      ShlAdd(Pow2(n.prefix), q - Pow2(n.prefix), k);
    } else {
      ShlNext(q, Pow2(n.prefix), k);
    }
  }

  // ------------------------------------------------------- nesting of networks

  lemma CoversIff(w: nat, a: Network, b: Network)
    requires a.prefix <= w && b.prefix <= w
    ensures Covers(w, a, b) <==> a.prefix <= b.prefix && Contains(w, a, b.address)
  {
    if a.prefix <= b.prefix {
      FirstContained(w, b);
      LeadingCoarser(w, a.prefix, b.prefix, First(w, b), b.address);
    }
  }

  lemma CoversContains(w: nat, a: Network, b: Network, x: nat)
    requires a.prefix <= w && b.prefix <= w
    requires Covers(w, a, b) && Contains(w, b, x)
    ensures Contains(w, a, x)
  {
    CoversIff(w, a, b);
    LeadingCoarser(w, a.prefix, b.prefix, x, b.address);
  }

  lemma CoversTransitive(w: nat, a: Network, b: Network, c: Network)
    requires a.prefix <= w && b.prefix <= w && c.prefix <= w
    requires Covers(w, a, b) && Covers(w, b, c)
    ensures Covers(w, a, c)
  {
    CoversContains(w, a, b, First(w, c));
  }

  /** Two networks that share an address are nested. */
  lemma SharedAddressNests(w: nat, a: Network, b: Network, x: nat)
    requires a.prefix <= w && b.prefix <= w
    requires Contains(w, a, x) && Contains(w, b, x)
    ensures a.prefix <= b.prefix ==> Covers(w, a, b)
    ensures b.prefix <= a.prefix ==> Covers(w, b, a)
  {
    CoversIff(w, a, b);
    CoversIff(w, b, a);
    if a.prefix <= b.prefix {
      LeadingCoarser(w, a.prefix, b.prefix, x, b.address);
    }
    if b.prefix <= a.prefix {
      LeadingCoarser(w, b.prefix, a.prefix, x, a.address);
    }
  }

  /** Disjointness, which the code decides by two prefix comparisons, is
      disjointness of the address sets. */
  lemma DisjointMeans(w: nat, a: Network, b: Network)
    requires a.prefix <= w && b.prefix <= w
    ensures Disjoint(w, a, b) <==> forall x: nat :: !(Contains(w, a, x) && Contains(w, b, x))
  {
    if x: nat :| Contains(w, a, x) && Contains(w, b, x) {
      SharedAddressNests(w, a, b, x);
    }
    FirstContained(w, a);
    FirstContained(w, b);
    assert Covers(w, a, b) ==> Contains(w, a, First(w, b)) && Contains(w, b, First(w, b));
    assert Covers(w, b, a) ==> Contains(w, a, First(w, a)) && Contains(w, b, First(w, a));
  }

  lemma CoveredDisjoint(w: nat, a: Network, b: Network, c: Network)
    requires a.prefix <= w && b.prefix <= w && c.prefix <= w
    requires Covers(w, a, b) && Disjoint(w, a, c)
    ensures Disjoint(w, b, c)
  {
    FirstContained(w, b);
    FirstContained(w, c);
    DisjointMeans(w, a, c);
    if Covers(w, b, c) {
      CoversTransitive(w, a, b, c);
    }
  }

  lemma EqualPrefixCover(w: nat, a: Network, b: Network)
    requires Aligned(w, a) && Aligned(w, b) && a.prefix == b.prefix && Covers(w, a, b)
    ensures a == b
  {
    FirstContained(w, b);
  }

  lemma HalvesContain(w: nat, n: Network, x: nat)
    requires Valid(w, n) && n.prefix < w
    ensures var (low, high) := Halves(w, n);
            Contains(w, n, x) <==> Contains(w, low, x) || Contains(w, high, x)
  {
    var (low, high) := Halves(w, n);
    HalvesSplit(w, n);
    ContainsInterval(w, n, x);
    ContainsInterval(w, low, x);
    ContainsInterval(w, high, x);
  }

  lemma HalvesCover(w: nat, n: Network, b: Network)
    requires Valid(w, n) && n.prefix < w && b.prefix <= w
    ensures var (low, high) := Halves(w, n);
            && Covers(w, n, low) && Covers(w, n, high)
            && (n.prefix < b.prefix ==>
                  (Covers(w, n, b) <==> Covers(w, low, b) || Covers(w, high, b)))
  {
    var (low, high) := Halves(w, n);
    HalvesSplit(w, n);
    FirstContained(w, low);
    FirstContained(w, high);
    HalvesContain(w, n, First(w, low));
    HalvesContain(w, n, First(w, high));
    HalvesContain(w, n, First(w, b));
  }

  // --------------------------------------------------------------- subtraction

  /** A network that covers the cut without being covered by it has a spare
      prefix bit, so `halves` never overflows the prefix length. */
  lemma SpareBit(w: nat, net: Network, cut: Network)
    requires Valid(w, net) && Valid(w, cut)
    requires Covers(w, net, cut) && !Covers(w, cut, net)
    ensures net.prefix < cut.prefix <= w
  {
    CoversIff(w, net, cut);
    CoversIff(w, cut, net);
  }

  /** What one network leaves behind. */
  function Pieces(w: nat, net: Network, cut: Network): (r: seq<Network>)
    requires Valid(w, net) && Valid(w, cut)
    ensures AllValid(w, r)
    decreases w - net.prefix
  {
    if Covers(w, cut, net) then []
    else if Covers(w, net, cut) then
      SpareBit(w, net, cut);
      HalvesSplit(w, net);
      var (low, high) := Halves(w, net);
      Pieces(w, low, cut) + Pieces(w, high, cut)
    else [net]
  }

  function PiecesOfAll(w: nat, nets: seq<Network>, cut: Network): (r: seq<Network>)
    requires AllValid(w, nets) && Valid(w, cut)
    ensures AllValid(w, r)
  {
    if nets == [] then [] else Pieces(w, nets[0], cut) + PiecesOfAll(w, nets[1..], cut)
  }

  /** The weight of the networks still to be visited; one halving trades a
      network for two of less than half its weight. */
  function Weight(w: nat, nets: seq<Network>): nat
    requires AllValid(w, nets)
  {
    if nets == [] then 0 else 2 * Size(w, nets[0]) - 1 + Weight(w, nets[1..])
  }

  method Subtract(w: nat, original: seq<Network>, cut: Network) returns (networks: seq<Network>)
    requires AllValid(w, original) && Valid(w, cut)
    ensures networks == PiecesOfAll(w, original, cut)
    ensures forall x: nat :: InList(w, networks, x) <==> InList(w, original, x) && !Contains(w, cut, x)
    ensures Ascending(w, original) ==> Ascending(w, networks)
  {
    networks := original;
    var i := 0;
    while i < |networks|
      invariant 0 <= i <= |networks|
      invariant AllValid(w, networks[i..])
      invariant networks[..i] + PiecesOfAll(w, networks[i..], cut) == PiecesOfAll(w, original, cut)
      decreases Weight(w, networks[i..])
    {
      var net := networks[i];
      ghost var tail := networks[i..];
      assert net == tail[0];
      if Covers(w, cut, net) {
        DropStep(w, tail, cut);
        RemoveAt(networks, i);
        networks := networks[..i] + networks[i + 1..];
      } else if Covers(w, net, cut) {
        SplitStep(w, tail, cut);
        var (low, high) := Halves(w, net);
        SplitAt(networks, i, low, high);
        networks := networks[i := low];
        networks := networks[..i + 1] + [high] + networks[i + 1..];
      } else {
        KeepStep(w, tail, cut);
        StepOver(networks, i);
        i := i + 1;
      }
    }
    assert networks[..i] == networks && networks[i..] == [];
    SubtractMeets(w, original, cut);
  }

  lemma RemoveAt<T>(s: seq<T>, i: nat)
    requires i < |s|
    ensures var s' := s[..i] + s[i + 1..];
            s'[..i] == s[..i] && s'[i..] == s[i..][1..]
  {
  }

  lemma SplitAt<T>(s: seq<T>, i: nat, low: T, high: T)
    requires i < |s|
    ensures var s' := s[i := low][..i + 1] + [high] + s[i := low][i + 1..];
            s'[..i] == s[..i] && s'[i..] == [low, high] + s[i..][1..]
  {
    assert s[i := low][..i + 1] == s[..i] + [low];
    assert s[i := low][i + 1..] == s[i..][1..];
  }

  lemma StepOver<T>(s: seq<T>, i: nat)
    requires i < |s|
    ensures s[..i + 1] == s[..i] + [s[i]] && s[i + 1..] == s[i..][1..]
  {
  }

  lemma DropStep(w: nat, tail: seq<Network>, cut: Network)
    requires AllValid(w, tail) && Valid(w, cut) && tail != [] && Covers(w, cut, tail[0])
    ensures AllValid(w, tail[1..])
    ensures PiecesOfAll(w, tail, cut) == PiecesOfAll(w, tail[1..], cut)
    ensures Weight(w, tail[1..]) < Weight(w, tail)
  {
  }

  lemma SplitStep(w: nat, tail: seq<Network>, cut: Network)
    requires AllValid(w, tail) && Valid(w, cut) && tail != []
    requires Covers(w, tail[0], cut) && !Covers(w, cut, tail[0])
    ensures tail[0].prefix < w
    ensures var (low, high) := Halves(w, tail[0]);
            && AllValid(w, [low, high] + tail[1..])
            && PiecesOfAll(w, tail, cut) == PiecesOfAll(w, [low, high] + tail[1..], cut)
            && Weight(w, [low, high] + tail[1..]) < Weight(w, tail)
  {
    SpareBit(w, tail[0], cut);
    HalvesSplit(w, tail[0]);
    var (low, high) := Halves(w, tail[0]);
    PiecesOfTwo(w, low, high, tail[1..], cut);
  }

  lemma KeepStep(w: nat, tail: seq<Network>, cut: Network)
    requires AllValid(w, tail) && Valid(w, cut) && tail != []
    requires !Covers(w, tail[0], cut) && !Covers(w, cut, tail[0])
    ensures AllValid(w, tail[1..])
    ensures PiecesOfAll(w, tail, cut) == [tail[0]] + PiecesOfAll(w, tail[1..], cut)
    ensures Weight(w, tail[1..]) < Weight(w, tail)
  {
  }

  lemma PiecesOfTwo(w: nat, low: Network, high: Network, rest: seq<Network>, cut: Network)
    requires Valid(w, low) && Valid(w, high) && AllValid(w, rest) && Valid(w, cut)
    requires low.prefix == high.prefix
    ensures AllValid(w, [low, high] + rest)
    ensures PiecesOfAll(w, [low, high] + rest, cut)
         == Pieces(w, low, cut) + Pieces(w, high, cut) + PiecesOfAll(w, rest, cut)
    ensures Weight(w, [low, high] + rest) == 4 * Size(w, low) - 2 + Weight(w, rest)
  {
    var both := [low, high] + rest;
    assert both[1..] == [high] + rest && both[1..][1..] == rest;
    assert forall n :: n in both <==> n == low || n == high || n in rest;
  }

  // ----------------------------------------------------------------- exactness

  lemma {:induction false} PiecesExact(w: nat, net: Network, cut: Network, x: nat)
    requires Valid(w, net) && Valid(w, cut)
    ensures InList(w, Pieces(w, net, cut), x) <==> Contains(w, net, x) && !Contains(w, cut, x)
    decreases w - net.prefix
  {
    if Covers(w, cut, net) {
      if Contains(w, net, x) { CoversContains(w, cut, net, x); }
    } else if Covers(w, net, cut) {
      SpareBit(w, net, cut);
      HalvesSplit(w, net);
      var (low, high) := Halves(w, net);
      HalvesContain(w, net, x);
      PiecesExact(w, low, cut, x);
      PiecesExact(w, high, cut, x);
      InListConcat(w, Pieces(w, low, cut), Pieces(w, high, cut), x);
    } else {
      DisjointMeans(w, net, cut);
      assert net in [net];
    }
  }

  lemma InListConcat(w: nat, a: seq<Network>, b: seq<Network>, x: nat)
    requires AllValid(w, a) && AllValid(w, b)
    ensures AllValid(w, a + b)
    ensures InList(w, a + b, x) <==> InList(w, a, x) || InList(w, b, x)
  {
    assert forall n :: n in a + b <==> n in a || n in b;
  }

  /** Subtraction removes exactly the cut's addresses. */
  lemma {:induction false} SubtractExact(w: nat, nets: seq<Network>, cut: Network, x: nat)
    requires AllValid(w, nets) && Valid(w, cut)
    ensures InList(w, PiecesOfAll(w, nets, cut), x) <==> InList(w, nets, x) && !Contains(w, cut, x)
  {
    if nets != [] {
      PiecesExact(w, nets[0], cut, x);
      SubtractExact(w, nets[1..], cut, x);
      InListConcat(w, Pieces(w, nets[0], cut), PiecesOfAll(w, nets[1..], cut), x);
      assert nets == [nets[0]] + nets[1..];
      InListConcat(w, [nets[0]], nets[1..], x);
    }
  }

  // ------------------------------------------------------------- order and size

  /** Every network of the list lies between the two addresses. */
  predicate Within(w: nat, nets: seq<Network>, lo: int, hi: int)
    requires AllValid(w, nets)
  {
    forall n :: n in nets ==> lo <= First(w, n) && Last(w, n) <= hi
  }

  lemma {:induction false} PiecesAscending(w: nat, net: Network, cut: Network)
    requires Valid(w, net) && Valid(w, cut)
    ensures Ascending(w, Pieces(w, net, cut))
    ensures Within(w, Pieces(w, net, cut), First(w, net), Last(w, net))
    decreases w - net.prefix
  {
    if !Covers(w, cut, net) && Covers(w, net, cut) {
      SpareBit(w, net, cut);
      HalvesSplit(w, net);
      var (low, high) := Halves(w, net);
      PiecesAscending(w, low, cut);
      PiecesAscending(w, high, cut);
      AscendingConcat(w, Pieces(w, low, cut), Pieces(w, high, cut), First(w, high));
    }
  }

  lemma AscendingConcat(w: nat, a: seq<Network>, b: seq<Network>, mid: int)
    requires AllValid(w, a) && AllValid(w, b)
    requires Ascending(w, a) && Ascending(w, b)
    requires forall n :: n in a ==> Last(w, n) < mid
    requires forall n :: n in b ==> mid <= First(w, n)
    ensures AllValid(w, a + b) && Ascending(w, a + b)
  {
    forall i, j | 0 <= i < j < |a + b|
      ensures Last(w, (a + b)[i]) < First(w, (a + b)[j])
    {
      if i < |a| <= j {
        assert a[i] in a && b[j - |a|] in b;
      }
    }
  }

  lemma {:induction false} SubtractAscending(w: nat, nets: seq<Network>, cut: Network)
    requires AllValid(w, nets) && Valid(w, cut) && Ascending(w, nets)
    ensures Ascending(w, PiecesOfAll(w, nets, cut))
    ensures nets != [] ==> Within(w, PiecesOfAll(w, nets, cut), First(w, nets[0]), Last(w, nets[|nets| - 1]))
  {
    if nets != [] {
      var net, rest := nets[0], nets[1..];
      PiecesAscending(w, net, cut);
      SubtractAscending(w, rest, cut);
      if rest == [] {
        assert PiecesOfAll(w, rest, cut) == [];
        assert PiecesOfAll(w, nets, cut) == Pieces(w, net, cut);
      } else {
        assert First(w, rest[0]) == First(w, nets[1]) && Last(w, net) < First(w, nets[1]);
        assert rest[|rest| - 1] == nets[|nets| - 1];
        AscendingConcat(w, Pieces(w, net, cut), PiecesOfAll(w, rest, cut), First(w, rest[0]));
      }
    }
  }

  lemma SubtractMeets(w: nat, nets: seq<Network>, cut: Network)
    requires AllValid(w, nets) && Valid(w, cut)
    ensures forall x: nat :: InList(w, PiecesOfAll(w, nets, cut), x) <==> InList(w, nets, x) && !Contains(w, cut, x)
    ensures Ascending(w, nets) ==> Ascending(w, PiecesOfAll(w, nets, cut))
  {
    forall x: nat
      ensures InList(w, PiecesOfAll(w, nets, cut), x) <==> InList(w, nets, x) && !Contains(w, cut, x)
    {
      SubtractExact(w, nets, cut, x);
    }
    if Ascending(w, nets) { SubtractAscending(w, nets, cut); }
  }

  /** Cutting a hole of prefix length `q` out of a block of prefix length `p`
      leaves exactly `q - p` blocks. */
  lemma {:induction false} PieceCount(w: nat, net: Network, cut: Network)
    requires Valid(w, net) && Valid(w, cut)
    ensures |Pieces(w, net, cut)| ==
              if Covers(w, cut, net) then 0
              else if Covers(w, net, cut) then cut.prefix - net.prefix
              else 1
    decreases w - net.prefix
  {
    if !Covers(w, cut, net) && Covers(w, net, cut) {
      SpareBit(w, net, cut);
      HalvesSplit(w, net);
      var (low, high) := Halves(w, net);
      HalvesCover(w, net, cut);
      PieceCount(w, low, cut);
      PieceCount(w, high, cut);
      HalvesDoNotMeet(w, net, low, high, cut);
      HalvesDoNotMeet(w, net, high, low, cut);
    }
  }

  /** A cut inside one half does not touch the other half. */
  lemma HalvesDoNotMeet(w: nat, n: Network, a: Network, b: Network, cut: Network)
    requires Valid(w, n) && Valid(w, cut) && n.prefix < cut.prefix <= w
    requires Halves(w, n) == (a, b) || Halves(w, n) == (b, a)
    ensures Covers(w, a, cut) ==> Disjoint(w, b, cut) && (Covers(w, cut, a) ==> a.prefix == cut.prefix)
  {
    HalvesSplit(w, n);
    if Covers(w, a, cut) {
      ContainsInterval(w, a, First(w, cut));
      ContainsInterval(w, b, First(w, cut));
      FirstContained(w, b);
      if Covers(w, b, cut) {
        assert false;
      }
    }
  }

  lemma {:induction false} NoGrowth(w: nat, nets: seq<Network>, cut: Network)
    requires AllValid(w, nets) && Valid(w, cut)
    requires forall n :: n in nets ==> !Covers(w, n, cut)
    ensures |PiecesOfAll(w, nets, cut)| <= |nets|
  {
    if nets != [] {
      PieceCount(w, nets[0], cut);
      NoGrowth(w, nets[1..], cut);
    }
  }

  predicate PairwiseDisjoint(w: nat, nets: seq<Network>)
    requires AllValid(w, nets)
  {
    forall i, j :: 0 <= i < j < |nets| ==> Disjoint(w, nets[i], nets[j])
  }

  lemma AscendingDisjoint(w: nat, nets: seq<Network>)
    requires AllValid(w, nets) && Ascending(w, nets)
    ensures PairwiseDisjoint(w, nets)
  {
    forall i, j | 0 <= i < j < |nets| ensures Disjoint(w, nets[i], nets[j]) {
      assert Last(w, nets[i]) < First(w, nets[j]);
      FirstContained(w, nets[i]);
      FirstContained(w, nets[j]);
      ContainsInterval(w, nets[i], First(w, nets[j]));
      ContainsInterval(w, nets[j], First(w, nets[i]));
    }
  }

  /** Subtracting one cut grows a pairwise disjoint list by at most `w - 1`. */
  lemma {:induction false} SubtractGrowth(w: nat, nets: seq<Network>, cut: Network)
    requires w >= 1 && AllValid(w, nets) && Valid(w, cut) && PairwiseDisjoint(w, nets)
    ensures |PiecesOfAll(w, nets, cut)| <= |nets| + w - 1
  {
    if nets != [] {
      var net, rest := nets[0], nets[1..];
      PieceCount(w, net, cut);
      if Covers(w, net, cut) {
        forall n | n in rest ensures !Covers(w, n, cut) {
          var j :| 0 <= j < |rest| && rest[j] == n;
          assert Disjoint(w, nets[0], nets[j + 1]);
          DisjointMeans(w, net, n);
        }
        NoGrowth(w, rest, cut);
      } else {
        SubtractGrowth(w, rest, cut);
      }
    }
  }
}
