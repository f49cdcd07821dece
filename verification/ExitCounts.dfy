/** Conservation of the exit selection's counts: the set and the maps, which
    rustlib/src/exit_selection.rs updates separately (lines 59-65), always count the
    same exits. */
module ExitCounts {
  import opened ExitSelection
  import opened Wrappers

  // --------------------------------------------------------------- sums over a map

  ghost function Pick<K>(m: map<K, nat>): (k: K)
    requires |m| > 0
    ensures k in m
  {
    var k :| k in m;
    k
  }

  /** The sum of a map's values, by removing one key at a time. */
  ghost function Sum<K>(m: map<K, nat>): nat
    decreases |m|
  {
    if |m| == 0 then 0 else m[Pick(m)] + Sum(m - {Pick(m)})
  }

  /** The key removed first does not matter. */
  lemma {:induction false} SumWithout<K>(m: map<K, nat>, k: K)
    requires k in m
    ensures Sum(m) == m[k] + Sum(m - {k})
    decreases |m|
  {
    var first := Pick(m);
    if first != k {
      var m1, m2 := m - {first}, m - {k};
      SumWithout(m1, k);
      SumWithout(m2, first);
      assert m1 - {k} == m2 - {first};
      assert m1[k] == m[k] && m2[first] == m[first];
    }
  }

  lemma {:induction false} SumOfZeros<K>(m: map<K, nat>)
    requires forall k :: k in m ==> m[k] == 0
    ensures Sum(m) == 0
    decreases |m|
  {
    if |m| > 0 {
      SumOfZeros(m - {Pick(m)});
    }
  }

  function Count<K(==)>(ks: seq<K>, k: K): nat {
    if ks == [] then 0 else Count(ks[..|ks| - 1], k) + if ks[|ks| - 1] == k then 1 else 0
  }

  /** A map that counts the elements of a sequence sums to its length. */
  lemma {:induction false} SumOfCounts<K(!new)>(m: map<K, nat>, ks: seq<K>)
    requires forall k :: Get(m, k) == Count(ks, k)
    ensures Sum(m) == |ks|
    decreases |ks|
  {
    if ks == [] {
      assert forall k :: k in m ==> m[k] == Get(m, k);
      SumOfZeros(m);
    } else {
      var init, last := ks[..|ks| - 1], ks[|ks| - 1];
      assert Get(m, last) == Count(ks, last) == Count(init, last) + 1;
      var fewer := m[last := m[last] - 1];
      forall k ensures Get(fewer, k) == Count(init, k) {
        assert Get(m, k) == Count(ks, k);
      }
      SumOfCounts(fewer, init);
      SumWithout(m, last);
      SumWithout(fewer, last);
      assert fewer - {last} == m - {last};
    }
  }

  // --------------------------------------------------------------- counts of a history

  function Datacenters(h: seq<OneExit>): (ks: seq<nat>)
    ensures |ks| == |h|
  {
    if h == [] then [] else Datacenters(h[..|h| - 1]) + [h[|h| - 1].datacenterId]
  }

  function Countries(h: seq<OneExit>): (ks: seq<nat>)
    ensures |ks| == |h|
  {
    if h == [] then [] else Countries(h[..|h| - 1]) + [h[|h| - 1].cityCode.country]
  }

  function CitiesIn(h: seq<OneExit>, country: nat): (ks: seq<CityCode>)
    ensures |ks| == CountCountry(h, country)
  {
    if h == [] then []
    else CitiesIn(h[..|h| - 1], country) + if h[|h| - 1].cityCode.country == country then [h[|h| - 1].cityCode] else []
  }

  lemma CountAppend<K>(ks: seq<K>, last: K, k: K)
    ensures Count(ks + [last], k) == Count(ks, k) + if last == k then 1 else 0
  {
    assert (ks + [last])[..|ks|] == ks;
  }

  lemma {:induction false} DatacenterCounts(h: seq<OneExit>, d: nat)
    ensures Count(Datacenters(h), d) == CountDatacenter(h, d)
  {
    if h != [] {
      DatacenterCounts(h[..|h| - 1], d);
      CountAppend(Datacenters(h[..|h| - 1]), h[|h| - 1].datacenterId, d);
    }
  }

  lemma {:induction false} CountryCounts(h: seq<OneExit>, c: nat)
    ensures Count(Countries(h), c) == CountCountry(h, c)
  {
    if h != [] {
      CountryCounts(h[..|h| - 1], c);
      CountAppend(Countries(h[..|h| - 1]), h[|h| - 1].cityCode.country, c);
    }
  }

  lemma {:induction false} CityCounts(h: seq<OneExit>, country: nat, c: CityCode)
    ensures Count(CitiesIn(h, country), c) == if c.country == country then CountCity(h, c) else 0
  {
    if h != [] {
      CityCounts(h[..|h| - 1], country, c);
      assert CitiesIn(h[..|h| - 1], country) + [] == CitiesIn(h[..|h| - 1], country);
      CountAppend(CitiesIn(h[..|h| - 1], country), h[|h| - 1].cityCode, c);
    }
  }

  lemma {:induction false} IdCount(ids: set<nat>, h: seq<OneExit>)
    requires forall id :: id in ids <==> Contains(h, id)
    requires forall i, j :: 0 <= i < j < |h| ==> h[i].id != h[j].id
    ensures |ids| == |h|
    decreases |h|
  {
    if h == [] {
      assert ids == {};
    } else {
      var init, last := h[..|h| - 1], h[|h| - 1];
      assert h[|h| - 1].id in ids;
      forall id ensures id in ids - {last.id} <==> Contains(init, id) {
        if Contains(init, id) {
          var i :| 0 <= i < |init| && init[i].id == id;
          assert h[i].id == id;
        }
        if id in ids && id != last.id {
          var i :| 0 <= i < |h| && h[i].id == id;
          assert init[i].id == id;
        }
      }
      IdCount(ids - {last.id}, init);
    }
  }

  /** The cities of one country. */
  ghost function InCountry(m: map<CityCode, nat>, country: nat): map<CityCode, nat> {
    map c | c in m && c.country == country :: m[c]
  }

  /** The number of selected ids is the sum over the datacenters and over the
      countries, and each country is the sum of its cities. */
  lemma CountsConserved(ids: set<nat>, datacenters: map<nat, nat>, cities: map<CityCode, nat>,
                        countries: map<nat, nat>, h: seq<OneExit>, country: nat)
    requires CountsHistory(ids, datacenters, cities, countries, h)
    ensures |ids| == Sum(datacenters) == Sum(countries) == |h|
    ensures Sum(InCountry(cities, country)) == Get(countries, country)
  {
    HistoryCapped(h, 0, CityCode(0, 0), 0);
    IdCount(ids, h);
    forall d ensures Get(datacenters, d) == Count(Datacenters(h), d) { DatacenterCounts(h, d); }
    SumOfCounts(datacenters, Datacenters(h));
    forall c ensures Get(countries, c) == Count(Countries(h), c) { CountryCounts(h, c); }
    SumOfCounts(countries, Countries(h));
    forall c ensures Get(InCountry(cities, country), c) == Count(CitiesIn(h, country), c) {
      CityCounts(h, country, c);
      assert Get(cities, c) == CountCity(h, c);
    }
    SumOfCounts(InCountry(cities, country), CitiesIn(h, country));
  }
}
