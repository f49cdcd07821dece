/** Folding the subtraction over a list of cuts, starting from the network of all
    addresses, yields the canonical route list: exactly the maximal CIDR blocks
    that meet no cut, in address order, and no shorter list covers the same
    addresses. */
module CanonicalRoutes {
  import opened Cidr

  const ALL := Network(0, 0)

  function FoldSubtract(w: nat, nets: seq<Network>, cuts: seq<Network>): (r: seq<Network>)
    requires AllValid(w, nets) && AllValid(w, cuts)
    ensures AllValid(w, r)
  {
    if cuts == [] then nets
    else PiecesOfAll(w, FoldSubtract(w, nets, cuts[..|cuts| - 1]), cuts[|cuts| - 1])
  }

  method SubtractEach(w: nat, nets: seq<Network>, cuts: seq<Network>) returns (r: seq<Network>)
    requires AllValid(w, nets) && AllValid(w, cuts)
    ensures r == FoldSubtract(w, nets, cuts)
  {
    r := nets;
    for i := 0 to |cuts|
      invariant r == FoldSubtract(w, nets, cuts[..i])
    {
      r := Subtract(w, r, cuts[i]);
      assert cuts[..i + 1][..i] == cuts[..i];
    }
    assert cuts[..|cuts|] == cuts;
  }

  // ----------------------------------------------------------------- exactness

  lemma {:induction false} FoldExact(w: nat, nets: seq<Network>, cuts: seq<Network>, x: nat)
    requires AllValid(w, nets) && AllValid(w, cuts)
    ensures InList(w, FoldSubtract(w, nets, cuts), x) <==> InList(w, nets, x) && !InList(w, cuts, x)
  {
    if cuts != [] {
      var init, last := cuts[..|cuts| - 1], cuts[|cuts| - 1];
      FoldExact(w, nets, init, x);
      SubtractExact(w, FoldSubtract(w, nets, init), last, x);
      assert cuts == init + [last];
      InListConcat(w, init, [last], x);
      assert last in [last];
    }
  }

  lemma {:induction false} FoldAscending(w: nat, nets: seq<Network>, cuts: seq<Network>)
    requires AllValid(w, nets) && AllValid(w, cuts) && Ascending(w, nets)
    ensures Ascending(w, FoldSubtract(w, nets, cuts))
  {
    if cuts != [] {
      FoldAscending(w, nets, cuts[..|cuts| - 1]);
      SubtractAscending(w, FoldSubtract(w, nets, cuts[..|cuts| - 1]), cuts[|cuts| - 1]);
    }
  }

  lemma AllRoutesAscending(w: nat, cuts: seq<Network>)
    requires AllValid(w, cuts)
    ensures Ascending(w, FoldSubtract(w, [ALL], cuts))
  {
    FoldAscending(w, [ALL], cuts);
  }

  /** Every cut adds at most `w - 1` routes. */
  lemma {:induction false} FoldGrowth(w: nat, nets: seq<Network>, cuts: seq<Network>)
    requires w >= 1 && AllValid(w, nets) && AllValid(w, cuts) && Ascending(w, nets)
    ensures |FoldSubtract(w, nets, cuts)| <= |nets| + |cuts| * (w - 1)
  {
    if cuts != [] {
      var init := cuts[..|cuts| - 1];
      FoldGrowth(w, nets, init);
      FoldAscending(w, nets, init);
      AscendingDisjoint(w, FoldSubtract(w, nets, init));
      SubtractGrowth(w, FoldSubtract(w, nets, init), cuts[|cuts| - 1]);
      MultiplyNext(|init|, w - 1);
    }
  }

  lemma MultiplyNext(n: nat, d: nat)
    ensures (n + 1) * d == n * d + d
  {
  }

  // ------------------------------------------------------------- maximal blocks

  /** The block of one prefix bit less that contains `b`. */
  function Parent(w: nat, b: Network): (p: Network)
    requires 0 < b.prefix <= w
  {
    Network(First(w, Network(b.address, b.prefix - 1)), b.prefix - 1)
  }

  lemma ParentCovers(w: nat, b: Network)
    requires Aligned(w, b) && 0 < b.prefix
    ensures Aligned(w, Parent(w, b)) && Covers(w, Parent(w, b), b)
  {
    var wide := Network(b.address, b.prefix - 1);
    FirstContained(w, wide);
    CoversIff(w, Parent(w, b), b);
  }

  lemma ParentIsLeast(w: nat, a: Network, b: Network)
    requires Aligned(w, a) && Aligned(w, b) && a.prefix < b.prefix && Covers(w, a, b)
    ensures Covers(w, a, Parent(w, b))
  {
    ParentCovers(w, b);
    CoversContains(w, a, b, First(w, b));
    FirstContained(w, b);
    CoversContains(w, Parent(w, b), b, First(w, b));
    SharedAddressNests(w, a, Parent(w, b), First(w, b));
  }

  predicate Free(w: nat, b: Network, cuts: seq<Network>)
    requires b.prefix <= w && AllValid(w, cuts)
  {
    forall i :: 0 <= i < |cuts| ==> Disjoint(w, b, cuts[i])
  }

  lemma FreeMeans(w: nat, b: Network, cuts: seq<Network>)
    requires Valid(w, b) && AllValid(w, cuts)
    ensures Free(w, b, cuts) <==> forall x: nat :: Contains(w, b, x) ==> !InList(w, cuts, x)
  {
    if Free(w, b, cuts) {
      forall x: nat | Contains(w, b, x) ensures !InList(w, cuts, x) {
        forall i | 0 <= i < |cuts| ensures !Contains(w, cuts[i], x) {
          DisjointMeans(w, b, cuts[i]);
        }
      }
    } else {
      var i :| 0 <= i < |cuts| && !Disjoint(w, b, cuts[i]);
      DisjointMeans(w, b, cuts[i]);
      var x: nat :| Contains(w, b, x) && Contains(w, cuts[i], x);
      assert cuts[i] in cuts;
    }
  }

  /** An aligned block that meets no cut, and cannot be widened. */
  predicate MaximalFree(w: nat, b: Network, cuts: seq<Network>)
    requires AllValid(w, cuts)
  {
    && Aligned(w, b)
    && Free(w, b, cuts)
    && (b.prefix == 0 || !Free(w, Parent(w, b), cuts))
  }

  lemma FreeDownward(w: nat, a: Network, b: Network, cuts: seq<Network>)
    requires Valid(w, a) && Valid(w, b) && AllValid(w, cuts)
    requires Covers(w, a, b) && Free(w, a, cuts)
    ensures Free(w, b, cuts)
  {
    forall i | 0 <= i < |cuts| ensures Disjoint(w, b, cuts[i]) {
      CoveredDisjoint(w, a, b, cuts[i]);
    }
  }

  /** Every free block lies in a maximal one. */
  lemma {:induction false} WidenToMaximal(w: nat, b: Network, cuts: seq<Network>) returns (m: Network)
    requires Aligned(w, b) && AllValid(w, cuts) && Free(w, b, cuts)
    ensures MaximalFree(w, m, cuts) && Covers(w, m, b)
    decreases b.prefix
  {
    if b.prefix == 0 || !Free(w, Parent(w, b), cuts) {
      m := b;
      FirstContained(w, b);
    } else {
      ParentCovers(w, b);
      m := WidenToMaximal(w, Parent(w, b), cuts);
      CoversTransitive(w, m, Parent(w, b), b);
    }
  }

  /** Which aligned blocks one subtraction leaves of an aligned network. */
  lemma {:induction false} PiecesCharacterized(w: nat, net: Network, cut: Network, b: Network)
    requires Aligned(w, net) && Valid(w, cut) && Aligned(w, b)
    ensures b in Pieces(w, net, cut) <==>
              && Covers(w, net, b)
              && Disjoint(w, b, cut)
              && (b == net || (b.prefix > 0 && !Disjoint(w, Parent(w, b), cut)))
    decreases w - net.prefix
  {
    FirstContained(w, net);
    if Covers(w, cut, net) {
      if Covers(w, net, b) { CoversTransitive(w, cut, net, b); }
    } else if Covers(w, net, cut) {
      SpareBit(w, net, cut);
      HalvesSplit(w, net);
      var (low, high) := Halves(w, net);
      PiecesCharacterized(w, low, cut, b);
      PiecesCharacterized(w, high, cut, b);
      HalvesCover(w, net, b);
      if Covers(w, net, b) && b.prefix == net.prefix { EqualPrefixCover(w, net, b); }
      ParentOfHalf(w, net, low);
      ParentOfHalf(w, net, high);
      if Covers(w, low, b) { CoversTransitive(w, net, low, b); }
      if Covers(w, high, b) { CoversTransitive(w, net, high, b); }
    } else if Covers(w, net, b) && b != net {
      if b.prefix == net.prefix { EqualPrefixCover(w, net, b); }
      ParentIsLeast(w, net, b);
      CoveredDisjoint(w, net, Parent(w, b), cut);
    }
  }

  lemma ParentOfHalf(w: nat, net: Network, half: Network)
    requires Aligned(w, net) && net.prefix < w
    requires Halves(w, net).0 == half || Halves(w, net).1 == half
    ensures Aligned(w, half) && Parent(w, half) == net
  {
    HalvesSplit(w, net);
    HalvesCover(w, net, half);
    ParentIsLeast(w, net, half);
    ParentCovers(w, half);
    EqualPrefixCover(w, net, Parent(w, half));
  }

  lemma {:induction false} PiecesAligned(w: nat, net: Network, cut: Network)
    requires Aligned(w, net) && Valid(w, cut)
    ensures AllAligned(w, Pieces(w, net, cut))
    decreases w - net.prefix
  {
    if !Covers(w, cut, net) && Covers(w, net, cut) {
      SpareBit(w, net, cut);
      HalvesSplit(w, net);
      PiecesAligned(w, Halves(w, net).0, cut);
      PiecesAligned(w, Halves(w, net).1, cut);
    }
  }

  lemma {:induction false} InPiecesOfAll(w: nat, nets: seq<Network>, cut: Network, b: Network)
    requires AllValid(w, nets) && Valid(w, cut)
    ensures b in PiecesOfAll(w, nets, cut) <==> exists i :: 0 <= i < |nets| && b in Pieces(w, nets[i], cut)
  {
    if nets != [] {
      var rest := nets[1..];
      InPiecesOfAll(w, rest, cut, b);
      if i :| 0 <= i < |nets| && b in Pieces(w, nets[i], cut) {
        if i > 0 { assert rest[i - 1] == nets[i]; }
      }
      if i :| 0 <= i < |rest| && b in Pieces(w, rest[i], cut) {
        assert nets[i + 1] == rest[i];
      }
    }
  }

  /** The result is exactly the set of maximal blocks that meet no cut. */
  lemma {:induction false} FoldIsMaximalFree(w: nat, cuts: seq<Network>, b: Network)
    requires AllValid(w, cuts)
    ensures b in FoldSubtract(w, [ALL], cuts) <==> MaximalFree(w, b, cuts)
    decreases |cuts|, 1
  {
    if cuts == [] {
      LeadingOfShort(w, b);
    } else {
      if b in FoldSubtract(w, [ALL], cuts) { PieceIsMaximalFree(w, cuts, b); }
      if MaximalFree(w, b, cuts) { MaximalFreeIsPiece(w, cuts, b); }
    }
  }

  lemma LeadingOfShort(w: nat, b: Network)
    ensures Aligned(w, b) && b.prefix == 0 <==> b == ALL
  {
    ShlOne(w);
    if Valid(w, b) && b.prefix == 0 {
      ShrIs(b.address, w, 0);
    }
    ShrIs(0, w, 0);
  }

  lemma {:induction false} PieceIsMaximalFree(w: nat, cuts: seq<Network>, b: Network)
    requires AllValid(w, cuts) && cuts != []
    requires b in FoldSubtract(w, [ALL], cuts)
    ensures MaximalFree(w, b, cuts)
    decreases |cuts|, 0
  {
    var init, last := cuts[..|cuts| - 1], cuts[|cuts| - 1];
    SplitLast(cuts);
    var before := FoldSubtract(w, [ALL], init);
    var net := PieceOrigin(w, before, last, b);
    FoldIsMaximalFree(w, init, net);
    PieceOfMaximal(w, init, last, net, b);
  }

  lemma SplitLast<T>(s: seq<T>)
    requires s != []
    ensures s == s[..|s| - 1] + [s[|s| - 1]]
  {
  }

  lemma PieceOrigin(w: nat, nets: seq<Network>, cut: Network, b: Network) returns (net: Network)
    requires AllValid(w, nets) && Valid(w, cut) && b in PiecesOfAll(w, nets, cut)
    ensures net in nets && Valid(w, net) && b in Pieces(w, net, cut)
  {
    InPiecesOfAll(w, nets, cut, b);
    var i :| 0 <= i < |nets| && b in Pieces(w, nets[i], cut);
    net := nets[i];
  }

  /** Cutting a maximal free block leaves blocks that are maximal with the new cut. */
  lemma PieceOfMaximal(w: nat, init: seq<Network>, last: Network, net: Network, b: Network)
    requires AllValid(w, init) && Valid(w, last)
    requires MaximalFree(w, net, init) && b in Pieces(w, net, last)
    ensures AllValid(w, init + [last]) && MaximalFree(w, b, init + [last])
  {
    PiecesAligned(w, net, last);
    PiecesCharacterized(w, net, last, b);
    FreeDownward(w, net, b, init);
    AllValidOneMore(w, init, last);
    FreeOneMore(w, b, init, last);
    if b.prefix > 0 {
      ParentCovers(w, b);
      FreeOneMore(w, Parent(w, b), init, last);
    }
  }

  lemma AllValidOneMore(w: nat, init: seq<Network>, last: Network)
    requires AllValid(w, init) && Valid(w, last)
    ensures AllValid(w, init + [last])
  {
  }

  lemma FreeOneMore(w: nat, b: Network, init: seq<Network>, last: Network)
    requires b.prefix <= w && AllValid(w, init) && Valid(w, last) && AllValid(w, init + [last])
    ensures Free(w, b, init + [last]) <==> Free(w, b, init) && Disjoint(w, b, last)
  {
    var cuts := init + [last];
    assert cuts[|init|] == last;
    assert forall k :: 0 <= k < |init| ==> cuts[k] == init[k];
  }

  lemma {:induction false} MaximalFreeIsPiece(w: nat, cuts: seq<Network>, b: Network)
    requires AllValid(w, cuts) && cuts != []
    requires MaximalFree(w, b, cuts)
    ensures b in FoldSubtract(w, [ALL], cuts)
    decreases |cuts|, 0
  {
    var init, last := cuts[..|cuts| - 1], cuts[|cuts| - 1];
    var before := FoldSubtract(w, [ALL], init);
    assert Free(w, b, init) by {
      forall k | 0 <= k < |init| ensures Disjoint(w, b, init[k]) { assert init[k] == cuts[k]; }
    }
    var net := WidenToMaximal(w, b, init);
    FoldIsMaximalFree(w, init, net);
    if b != net {
      if b.prefix == net.prefix { EqualPrefixCover(w, net, b); }
      ParentIsLeast(w, net, b);
      ParentCovers(w, b);
      FreeDownward(w, net, Parent(w, b), init);
      if Disjoint(w, Parent(w, b), last) {
        assert Free(w, Parent(w, b), cuts);
      }
    }
    assert Disjoint(w, b, cuts[|cuts| - 1]);
    PiecesCharacterized(w, net, last, b);
    var i :| 0 <= i < |before| && before[i] == net;
    InPiecesOfAll(w, before, last, b);
  }

  // ------------------------------------------------------- order independence

  ghost predicate SameCoverage(w: nat, a: seq<Network>, b: seq<Network>)
    requires AllValid(w, a) && AllValid(w, b)
  {
    forall x: nat :: InList(w, a, x) <==> InList(w, b, x)
  }

  /** Maximality only depends on which addresses are cut. */
  lemma MaximalFreeSameCoverage(w: nat, b: Network, cuts: seq<Network>, cuts': seq<Network>)
    requires AllValid(w, cuts) && AllValid(w, cuts')
    requires SameCoverage(w, cuts, cuts')
    ensures MaximalFree(w, b, cuts) <==> MaximalFree(w, b, cuts')
  {
    if Aligned(w, b) {
      FreeMeans(w, b, cuts);
      FreeMeans(w, b, cuts');
      if b.prefix > 0 {
        ParentCovers(w, b);
        FreeMeans(w, Parent(w, b), cuts);
        FreeMeans(w, Parent(w, b), cuts');
      }
    }
  }

  lemma HeadIsLeast(w: nat, a: seq<Network>, n: Network)
    requires AllValid(w, a) && Ascending(w, a) && n in a
    ensures n == a[0] || First(w, a[0]) < First(w, n)
  {
    var i :| 0 <= i < |a| && a[i] == n;
    FirstContained(w, a[0]);
  }

  lemma {:induction false} AscendingDetermined(w: nat, a: seq<Network>, b: seq<Network>)
    requires AllValid(w, a) && AllValid(w, b) && Ascending(w, a) && Ascending(w, b)
    requires forall n :: n in a <==> n in b
    ensures a == b
  {
    assert a != [] ==> a[0] in b;
    assert b != [] ==> b[0] in a;
    if a != [] {
      HeadIsLeast(w, a, b[0]);
      HeadIsLeast(w, b, a[0]);
      forall n ensures n in a[1..] <==> n in b[1..] {
        TailMembers(w, a, n);
        TailMembers(w, b, n);
      }
      AscendingDetermined(w, a[1..], b[1..]);
      assert a == [a[0]] + a[1..] && b == [b[0]] + b[1..];
    }
  }

  lemma TailMembers(w: nat, a: seq<Network>, n: Network)
    requires AllValid(w, a) && Ascending(w, a) && a != []
    ensures n in a[1..] <==> n in a && n != a[0]
  {
    FirstContained(w, a[0]);
    assert a == [a[0]] + a[1..];
    forall k | 0 <= k < |a[1..]| ensures a[1..][k] != a[0] {
      assert a[1..][k] == a[k + 1] && Last(w, a[0]) < First(w, a[k + 1]);
    }
  }

  /** The routes depend only on the union of the cuts: neither their order, nor
      repetition, nor how the union is divided among them matters. */
  lemma {:induction false} FoldDependsOnCoverageOnly(w: nat, cuts: seq<Network>, cuts': seq<Network>)
    requires AllValid(w, cuts) && AllValid(w, cuts')
    requires SameCoverage(w, cuts, cuts')
    ensures FoldSubtract(w, [ALL], cuts) == FoldSubtract(w, [ALL], cuts')
  {
    var a, b := FoldSubtract(w, [ALL], cuts), FoldSubtract(w, [ALL], cuts');
    AllRoutesAscending(w, cuts);
    AllRoutesAscending(w, cuts');
    forall n ensures n in a <==> n in b {
      FoldIsMaximalFree(w, cuts, n);
      FoldIsMaximalFree(w, cuts', n);
      MaximalFreeSameCoverage(w, n, cuts, cuts');
    }
    AscendingDetermined(w, a, b);
  }

  lemma {:induction false} FoldOrderIndependent(w: nat, cuts: seq<Network>, cuts': seq<Network>)
    requires AllValid(w, cuts) && AllValid(w, cuts')
    requires multiset(cuts) == multiset(cuts')
    ensures FoldSubtract(w, [ALL], cuts) == FoldSubtract(w, [ALL], cuts')
  {
    assert forall n :: n in cuts <==> n in multiset(cuts);
    assert forall n :: n in cuts' <==> n in multiset(cuts');
    FoldDependsOnCoverageOnly(w, cuts, cuts');
  }

  // --------------------------------------------------------------- minimality

  /** No two routes are the halves of one block. */
  lemma NoMergeableSiblings(w: nat, cuts: seq<Network>, p: Network)
    requires AllValid(w, cuts) && Valid(w, p) && p.prefix < w
    ensures var (low, high) := Halves(w, p);
            !(low in FoldSubtract(w, [ALL], cuts) && high in FoldSubtract(w, [ALL], cuts))
  {
    var (low, high) := Halves(w, p);
    HalvesSplit(w, p);
    var q := Network(First(w, p), p.prefix);
    FirstContained(w, p);
    FirstBelow(w, p);
    assert Aligned(w, q) && Halves(w, q) == (low, high);
    FoldIsMaximalFree(w, cuts, low);
    FoldIsMaximalFree(w, cuts, high);
    if MaximalFree(w, low, cuts) && MaximalFree(w, high, cuts) {
      ParentOfHalf(w, q, low);
      FreeMeans(w, low, cuts);
      FreeMeans(w, high, cuts);
      FreeMeans(w, q, cuts);
      forall x: nat | Contains(w, q, x) ensures !InList(w, cuts, x) {
        HalvesContain(w, q, x);
      }
    }
  }

  /** A block of any list with the same coverage that contains the first address
      of a maximal block lies inside that maximal block. */
  lemma CoverBlockInside(w: nat, cuts: seq<Network>, m: Network, l: Network)
    requires AllValid(w, cuts) && Valid(w, l) && MaximalFree(w, m, cuts)
    requires Contains(w, l, First(w, m)) && Free(w, l, cuts)
    ensures Covers(w, m, l)
  {
    FirstContained(w, m);
    SharedAddressNests(w, m, l, First(w, m));
    if l.prefix < m.prefix {
      var a := Network(First(w, l), l.prefix);
      FirstContained(w, l);
      FirstBelow(w, l);
      assert Aligned(w, a);
      FirstContained(w, a);
      CoversIff(w, l, a);
      FreeDownward(w, l, a, cuts);
      SharedAddressNests(w, a, m, First(w, m));
      ParentIsLeast(w, a, m);
      ParentCovers(w, m);
      FreeDownward(w, a, Parent(w, m), cuts);
    }
  }

  lemma InjectiveBound(s: seq<nat>, n: nat)
    requires forall i :: 0 <= i < |s| ==> s[i] < n
    requires forall i, j :: 0 <= i < j < |s| ==> s[i] != s[j]
    ensures |s| <= n
  {
    ImageSize(s);
    BelowSize(n);
    SubsetSize(set i | 0 <= i < |s| :: s[i], Below(n));
  }

  lemma {:induction false} ImageSize(s: seq<nat>)
    requires forall i, j :: 0 <= i < j < |s| ==> s[i] != s[j]
    ensures |set i | 0 <= i < |s| :: s[i]| == |s|
  {
    if s != [] {
      var init, last := s[..|s| - 1], s[|s| - 1];
      ImageSize(init);
      var smaller := set i | 0 <= i < |init| :: init[i];
      assert (set i | 0 <= i < |s| :: s[i]) == smaller + {last} by {
        forall k ensures k in (set i | 0 <= i < |s| :: s[i]) <==> k in smaller + {last} {
          if i :| 0 <= i < |s| && s[i] == k && i < |init| { assert init[i] == k; }
          if i :| 0 <= i < |init| && init[i] == k { assert s[i] == k; }
          assert s[|s| - 1] == last;
        }
      }
    }
  }

  function Below(n: nat): (r: set<nat>)
    ensures forall k: nat :: k in r <==> k < n
  {
    if n == 0 then {} else Below(n - 1) + {n - 1}
  }

  lemma {:induction false} BelowSize(n: nat)
    ensures |Below(n)| == n
  {
    if n > 0 {
      BelowSize(n - 1);
    }
  }

  lemma {:induction false} SubsetSize(a: set<nat>, b: set<nat>)
    requires a <= b
    ensures |a| <= |b|
  {
    if a != {} {
      var x :| x in a;
      SubsetSize(a - {x}, b - {x});
    }
  }

  /** No list of CIDR blocks with the same coverage is shorter. */
  lemma {:induction false} FoldIsShortest(w: nat, cuts: seq<Network>, other: seq<Network>)
    requires AllValid(w, cuts) && AllValid(w, other)
    requires SameCoverage(w, other, FoldSubtract(w, [ALL], cuts))
    ensures |FoldSubtract(w, [ALL], cuts)| <= |other|
  {
    var host := HostOfEach(w, cuts, other);
    InjectiveBound(host, |other|);
  }

  lemma HostOfEach(w: nat, cuts: seq<Network>, other: seq<Network>) returns (host: seq<nat>)
    requires AllValid(w, cuts) && AllValid(w, other)
    requires SameCoverage(w, other, FoldSubtract(w, [ALL], cuts))
    ensures |host| == |FoldSubtract(w, [ALL], cuts)|
    ensures forall i :: 0 <= i < |host| ==> host[i] < |other|
    ensures forall i, j :: 0 <= i < j < |host| ==> host[i] != host[j]
  {
    AllRoutesAscending(w, cuts);
    host := FindHosts(w, cuts, other, FoldSubtract(w, [ALL], cuts));
  }

  /** A block of the other list inside each route: different ones for different routes. */
  lemma {:induction false} FindHosts(w: nat, cuts: seq<Network>, other: seq<Network>, blocks: seq<Network>)
    returns (host: seq<nat>)
    requires AllValid(w, cuts) && AllValid(w, other) && AllValid(w, blocks) && Ascending(w, blocks)
    requires SameCoverage(w, other, FoldSubtract(w, [ALL], cuts))
    requires forall i :: 0 <= i < |blocks| ==> blocks[i] in FoldSubtract(w, [ALL], cuts)
    ensures |host| == |blocks|
    ensures forall i :: 0 <= i < |host| ==> host[i] < |other| && Hosts(w, other, blocks[i], host[i])
    ensures forall i, j :: 0 <= i < j < |host| ==> host[i] != host[j]
  {
    if blocks == [] {
      host := [];
    } else {
      var init, last := blocks[..|blocks| - 1], blocks[|blocks| - 1];
      var before := FindHosts(w, cuts, other, init);
      var k := FindHost(w, cuts, other, last);
      forall i | 0 <= i < |before| ensures before[i] != k {
        assert init[i] == blocks[i] && Last(w, blocks[i]) < First(w, last);
        if before[i] == k { HostedOnce(w, other, blocks[i], last, k); }
      }
      host := before + [k];
      assert forall i :: 0 <= i < |init| ==> blocks[i] == init[i];
    }
  }

  lemma HostedOnce(w: nat, other: seq<Network>, m: Network, m': Network, k: nat)
    requires AllValid(w, other) && Valid(w, m) && Valid(w, m')
    requires Hosts(w, other, m, k) && Hosts(w, other, m', k)
    ensures Last(w, m) >= First(w, m')
  {
    ContainsInterval(w, m, First(w, other[k]));
    ContainsInterval(w, m', First(w, other[k]));
  }

  predicate Hosts(w: nat, other: seq<Network>, m: Network, k: nat)
    requires AllValid(w, other) && m.prefix <= w
  {
    k < |other| && Covers(w, m, other[k])
  }

  lemma FindHost(w: nat, cuts: seq<Network>, other: seq<Network>, m: Network) returns (k: nat)
    requires AllValid(w, cuts) && AllValid(w, other)
    requires SameCoverage(w, other, FoldSubtract(w, [ALL], cuts))
    requires m in FoldSubtract(w, [ALL], cuts)
    ensures Valid(w, m) && Hosts(w, other, m, k)
  {
    var routes := FoldSubtract(w, [ALL], cuts);
    FoldIsMaximalFree(w, cuts, m);
    FirstContained(w, m);
    assert InList(w, routes, First(w, m));
    assert InList(w, other, First(w, m));
    var l :| l in other && Contains(w, l, First(w, m));
    k :| 0 <= k < |other| && other[k] == l;
    FreeMeans(w, l, cuts);
    forall x: nat | Contains(w, l, x) ensures !InList(w, cuts, x) {
      assert InList(w, other, x);
      FoldExact(w, [ALL], cuts, x);
    }
    CoverBlockInside(w, cuts, m, l);
  }
}
