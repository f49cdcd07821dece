/** Adaptive exit selection (rustlib/src/exit_selection.rs). */
module ExitSelection {
  import opened Wrappers

  datatype CityCode = CityCode(country: nat, city: nat)

  datatype OneExit = OneExit(id: nat, datacenterId: nat, cityCode: CityCode, tier: nat)

  datatype OneRelay = OneRelay(cityCode: CityCode, preferredExits: seq<nat>)

  datatype ExitSelector = Any | Exit(id: nat) | Country(countryCode: nat) | City(cityCode: CityCode)

  const MAX_PER_DATACENTER: nat := 2
  const MAX_PER_CITY: nat := 4
  const MAX_PER_COUNTRY: nat := 6

  predicate Matches(selector: ExitSelector, candidate: OneExit) {
    match selector
    case Any => true
    case Exit(id) => candidate.id == id
    case Country(countryCode) => candidate.cityCode.country == countryCode
    case City(cityCode) => candidate.cityCode == cityCode
  }

  /** The selectors under which an exit may be selected. */
  predicate AskedFor(selector: ExitSelector, e: OneExit) {
    selector in {Any, Exit(e.id), Country(e.cityCode.country), City(e.cityCode)}
  }

  lemma MatchesIff(selector: ExitSelector, e: OneExit)
    ensures Matches(selector, e) <==> AskedFor(selector, e)
  {
  }

  // ------------------------------------------------------------------------- ranking

  /** Preferred exits first, then the relay's city, its country, a higher tier, and
      last a random number. */
  datatype Rank = Rank(preferred: bool, sameCity: bool, sameCountry: bool, tier: nat, random: nat)

  function RankOf(candidate: OneExit, relay: OneRelay, random: nat): Rank {
    Rank(candidate.id in relay.preferredExits,
         relay.cityCode == candidate.cityCode,
         relay.cityCode.country == candidate.cityCode.country,
         candidate.tier,
         random)
  }

  predicate AtMost(a: Rank, b: Rank) {
    if a.preferred != b.preferred then b.preferred
    else if a.sameCity != b.sameCity then b.sameCity
    else if a.sameCountry != b.sameCountry then b.sameCountry
    else if a.tier != b.tier then a.tier < b.tier
    else a.random <= b.random
  }

  lemma AtMostIsTotalOrder(a: Rank, b: Rank, c: Rank)
    ensures AtMost(a, b) || AtMost(b, a)
    ensures AtMost(a, b) && AtMost(b, c) ==> AtMost(a, c)
    ensures AtMost(a, b) && AtMost(b, a) ==> a == b
  {
  }

  // ------------------------------------------------------------------------- history

  function CountDatacenter(h: seq<OneExit>, d: nat): nat {
    if h == [] then 0 else CountDatacenter(h[..|h| - 1], d) + if h[|h| - 1].datacenterId == d then 1 else 0
  }

  function CountCity(h: seq<OneExit>, c: CityCode): nat {
    if h == [] then 0 else CountCity(h[..|h| - 1], c) + if h[|h| - 1].cityCode == c then 1 else 0
  }

  function CountCountry(h: seq<OneExit>, c: nat): nat {
    if h == [] then 0 else CountCountry(h[..|h| - 1], c) + if h[|h| - 1].cityCode.country == c then 1 else 0
  }

  predicate Contains(h: seq<OneExit>, id: nat) {
    exists i :: 0 <= i < |h| && h[i].id == id
  }

  /** May be selected after the exits of the history. */
  predicate Allowed(h: seq<OneExit>, e: OneExit) {
    && !Contains(h, e.id)
    && CountDatacenter(h, e.datacenterId) < MAX_PER_DATACENTER
    && CountCity(h, e.cityCode) < MAX_PER_CITY
    && CountCountry(h, e.cityCode.country) < MAX_PER_COUNTRY
  }

  /** The exits selected since the last reset, each allowed when it was selected. */
  predicate IsHistory(h: seq<OneExit>) {
    h == [] || (IsHistory(h[..|h| - 1]) && Allowed(h[..|h| - 1], h[|h| - 1]))
  }

  lemma {:induction false} HistoryCapped(h: seq<OneExit>, d: nat, c: CityCode, country: nat)
    requires IsHistory(h)
    ensures forall i, j :: 0 <= i < j < |h| ==> h[i].id != h[j].id
    ensures CountDatacenter(h, d) <= MAX_PER_DATACENTER
    ensures CountCity(h, c) <= MAX_PER_CITY
    ensures CountCountry(h, country) <= MAX_PER_COUNTRY
  {
    if h != [] {
      var init, last := h[..|h| - 1], h[|h| - 1];
      HistoryCapped(init, d, c, country);
      assert !Contains(init, last.id);
      assert forall i :: 0 <= i < |init| ==> h[i] == init[i];
    }
  }

  // The positions of the history at which a datacenter, a city or a country was selected.

  function AtDatacenter(h: seq<OneExit>, d: nat): set<nat> { set i | 0 <= i < |h| && h[i].datacenterId == d }

  function AtCity(h: seq<OneExit>, c: CityCode): set<nat> { set i | 0 <= i < |h| && h[i].cityCode == c }

  function AtCountry(h: seq<OneExit>, c: nat): set<nat> { set i | 0 <= i < |h| && h[i].cityCode.country == c }

  lemma {:induction false} DatacenterSize(h: seq<OneExit>, d: nat)
    ensures CountDatacenter(h, d) == |AtDatacenter(h, d)|
  {
    if h != [] {
      var init := h[..|h| - 1];
      DatacenterSize(init, d);
      assert AtDatacenter(h, d) == AtDatacenter(init, d) + if h[|h| - 1].datacenterId == d then {|h| - 1} else {};
    }
  }

  lemma {:induction false} CitySize(h: seq<OneExit>, c: CityCode)
    ensures CountCity(h, c) == |AtCity(h, c)|
  {
    if h != [] {
      var init := h[..|h| - 1];
      CitySize(init, c);
      assert AtCity(h, c) == AtCity(init, c) + if h[|h| - 1].cityCode == c then {|h| - 1} else {};
    }
  }

  lemma {:induction false} CountrySize(h: seq<OneExit>, c: nat)
    ensures CountCountry(h, c) == |AtCountry(h, c)|
  {
    if h != [] {
      var init := h[..|h| - 1];
      CountrySize(init, c);
      assert AtCountry(h, c) == AtCountry(init, c) + if h[|h| - 1].cityCode.country == c then {|h| - 1} else {};
    }
  }

  lemma CountsAreSizes(h: seq<OneExit>, d: nat, c: CityCode, country: nat)
    ensures CountDatacenter(h, d) == |AtDatacenter(h, d)|
    ensures CountCity(h, c) == |AtCity(h, c)|
    ensures CountCountry(h, country) == |AtCountry(h, country)|
  {
    DatacenterSize(h, d);
    CitySize(h, c);
    CountrySize(h, country);
  }

  /** An exit may be selected exactly when it was not selected since the last reset, and
      fewer than 2 were of its datacenter, fewer than 4 of its city and fewer than 6 of
      its country. */
  lemma {:induction false} AllowedIff(h: seq<OneExit>, e: OneExit)
    ensures Allowed(h, e) <==>
              && (forall i :: 0 <= i < |h| ==> h[i].id != e.id)
              && |AtDatacenter(h, e.datacenterId)| < 2
              && |AtCity(h, e.cityCode)| < 4
              && |AtCountry(h, e.cityCode.country)| < 6
  {
    CountsAreSizes(h, e.datacenterId, e.cityCode, e.cityCode.country);
  }

  /** No exit is selected twice, and since the last reset at most 2 exits were of any
      datacenter, 4 of any city and 6 of any country. */
  lemma {:induction false} SelectedWithinCaps(h: seq<OneExit>, d: nat, c: CityCode, country: nat)
    requires IsHistory(h)
    ensures forall i, j :: 0 <= i < j < |h| ==> h[i].id != h[j].id
    ensures |AtDatacenter(h, d)| <= 2 && |AtCity(h, c)| <= 4 && |AtCountry(h, country)| <= 6
  {
    HistoryCapped(h, d, c, country);
    CountsAreSizes(h, d, c, country);
  }

  lemma {:induction false} DistinctIds(h: seq<OneExit>, i: nat, j: nat)
    requires IsHistory(h) && i < j < |h|
    ensures h[i].id != h[j].id
  {
    HistoryCapped(h, 0, CityCode(0, 0), 0);
  }

  /** How many selections in a row a selector can have. */
  predicate WithinCap(selector: ExitSelector, n: nat) {
    (selector.Exit? ==> n <= 1) && (selector.City? ==> n <= 4) && (selector.Country? ==> n <= 6)
  }

  /** From a fresh state a fixed exit, city or country selector succeeds at most 1, 4
      or 6 times in a row. */
  lemma {:induction false} SelectorExhausts(h: seq<OneExit>, selector: ExitSelector)
    requires IsHistory(h) && forall i :: 0 <= i < |h| ==> Matches(selector, h[i])
    ensures WithinCap(selector, |h|)
  {
    match selector
    case Any =>
    case Exit(id) =>
      if |h| > 1 { DistinctIds(h, 0, 1); }
    case Country(country) =>
      AllInCountry(h, country);
      HistoryCapped(h, 0, CityCode(0, 0), country);
    case City(city) =>
      AllInCity(h, city);
      HistoryCapped(h, 0, city, 0);
  }

  lemma {:induction false} RepeatedCapped(h: seq<OneExit>, selector: ExitSelector)
    requires IsHistory(h) && forall i :: 0 <= i < |h| ==> Matches(selector, h[i])
    ensures forall i, j :: 0 <= i < j < |h| ==> h[i].id != h[j].id
    ensures WithinCap(selector, |h|)
  {
    HistoryCapped(h, 0, CityCode(0, 0), 0);
    SelectorExhausts(h, selector);
  }

  lemma {:induction false} AllInCountry(h: seq<OneExit>, country: nat)
    requires forall i :: 0 <= i < |h| ==> h[i].cityCode.country == country
    ensures CountCountry(h, country) == |h|
  {
    if h != [] {
      AllInCountry(h[..|h| - 1], country);
    }
  }

  lemma {:induction false} AllInCity(h: seq<OneExit>, city: CityCode)
    requires forall i :: 0 <= i < |h| ==> h[i].cityCode == city
    ensures CountCity(h, city) == |h|
  {
    if h != [] {
      AllInCity(h[..|h| - 1], city);
    }
  }

  predicate AllAmong(selector: ExitSelector, exits: seq<OneExit>, selected: seq<OneExit>) {
    forall i :: 0 <= i < |selected| ==> Matches(selector, selected[i]) && selected[i] in exits
  }

  lemma OneMoreAmong(selector: ExitSelector, exits: seq<OneExit>, selected: seq<OneExit>, e: OneExit)
    requires AllAmong(selector, exits, selected) && Matches(selector, e) && e in exits
    ensures AllAmong(selector, exits, selected + [e])
  {
  }

  function Get<K>(m: map<K, nat>, k: K): nat {
    if k in m then m[k] else 0
  }

  // ---------------------------------------------------------------------------- state

  const U8_MAX: nat := 255

  function SaturatingIncrement(n: nat): nat {
    if n < U8_MAX then n + 1 else U8_MAX
  }

  /** The set and the three maps are the counts of the history. */
  ghost predicate CountsHistory(ids: set<nat>, datacenters: map<nat, nat>, cities: map<CityCode, nat>,
                                countries: map<nat, nat>, h: seq<OneExit>) {
    && IsHistory(h)
    && (forall id :: id in ids <==> Contains(h, id))
    && (forall d :: Get(datacenters, d) == CountDatacenter(h, d))
    && (forall c :: Get(cities, c) == CountCity(h, c))
    && (forall c :: Get(countries, c) == CountCountry(h, c))
  }

  lemma NothingCounted()
    ensures CountsHistory({}, map[], map[], map[], [])
  {
  }

  /** Below the caps the saturating counters do not saturate. */
  lemma {:induction false} CapsBelowSaturation(h: seq<OneExit>, e: OneExit)
    requires Allowed(h, e)
    ensures SaturatingIncrement(CountDatacenter(h, e.datacenterId)) == CountDatacenter(h, e.datacenterId) + 1
    ensures SaturatingIncrement(CountCity(h, e.cityCode)) == CountCity(h, e.cityCode) + 1
    ensures SaturatingIncrement(CountCountry(h, e.cityCode.country)) == CountCountry(h, e.cityCode.country) + 1
  {
  }

  lemma {:induction false} OneMoreCounted(ids: set<nat>, datacenters: map<nat, nat>, cities: map<CityCode, nat>,
                       countries: map<nat, nat>, h: seq<OneExit>, e: OneExit)
    requires CountsHistory(ids, datacenters, cities, countries, h) && Allowed(h, e)
    ensures CountsHistory(ids + {e.id},
                          datacenters[e.datacenterId := Get(datacenters, e.datacenterId) + 1],
                          cities[e.cityCode := Get(cities, e.cityCode) + 1],
                          countries[e.cityCode.country := Get(countries, e.cityCode.country) + 1], h + [e])
  {
    CountsOfOneMore(h, e);
    assert (h + [e])[..|h|] == h;
  }

  class ExitSelectionState {
    var selectedExitIds: set<nat>
    var selectedDatacenters: map<nat, nat>
    var selectedCities: map<CityCode, nat>
    var selectedCountries: map<nat, nat>
    ghost var history: seq<OneExit>

    ghost predicate Valid()
      reads this
    {
      CountsHistory(selectedExitIds, selectedDatacenters, selectedCities, selectedCountries, history)
    }

    constructor ()
      ensures Valid() && history == []
    {
      NothingCounted();
      selectedExitIds, selectedDatacenters, selectedCities, selectedCountries := {}, map[], map[], map[];
      history := [];
    }

    predicate Excluded(candidate: OneExit)
      reads this
    {
      || candidate.id in selectedExitIds
      || Get(selectedDatacenters, candidate.datacenterId) >= MAX_PER_DATACENTER
      || Get(selectedCities, candidate.cityCode) >= MAX_PER_CITY
      || Get(selectedCountries, candidate.cityCode.country) >= MAX_PER_COUNTRY
    }

    /** The last of the highest-ranked eligible exits; `random[i]` is the number
        drawn for the i-th exit. */
    method BestCandidate(selector: ExitSelector, exits: seq<OneExit>, relay: OneRelay, random: seq<nat>)
      returns (best: Option<nat>)
      requires Valid() && |random| == |exits|
      ensures best.None? ==>
                forall i :: 0 <= i < |exits| ==> !(Matches(selector, exits[i]) && Allowed(history, exits[i]))
      ensures best.Some? ==>
                best.value < |exits| && IsChosen(history, selector, exits, relay, random, best.value, exits[best.value])
    {
      best := None;
      for i := 0 to |exits|
        invariant best.None? ==> forall k :: 0 <= k < i ==> !(Matches(selector, exits[k]) && Allowed(history, exits[k]))
        invariant best.Some? ==> best.value < i && Matches(selector, exits[best.value]) && Allowed(history, exits[best.value])
        invariant best.Some? ==>
                    forall k :: 0 <= k < i && Matches(selector, exits[k]) && Allowed(history, exits[k]) ==>
                      && AtMost(RankOf(exits[k], relay, random[k]), RankOf(exits[best.value], relay, random[best.value]))
                      && (k > best.value ==>
                            RankOf(exits[k], relay, random[k]) != RankOf(exits[best.value], relay, random[best.value]))
      {
        assert Excluded(exits[i]) <==> !Allowed(history, exits[i]);
        if Matches(selector, exits[i]) && !Excluded(exits[i]) {
          if best.None?
             || AtMost(RankOf(exits[best.value], relay, random[best.value]), RankOf(exits[i], relay, random[i])) {
            best := Some(i);
          }
        }
      }
      if best.Some? { BestIffChosen(history, selector, exits, relay, random, best.value, exits[best.value]); }
    }

    method SelectNextExit(selector: ExitSelector, exits: seq<OneExit>, relay: OneRelay, random: seq<nat>)
      returns (selected: Option<OneExit>)
      requires Valid() && |random| == |exits|
      modifies this
      ensures Valid()
      ensures selected.None? <==>
                forall i :: 0 <= i < |exits| ==> !(Matches(selector, exits[i]) && Allowed(old(history), exits[i]))
      ensures selected.None? ==> history == []
      ensures selected.Some? ==>
                && history == old(history) + [selected.value]
                && Matches(selector, selected.value) && selected.value in exits
                && exists i :: 0 <= i < |exits| && IsChosen(old(history), selector, exits, relay, random, i, selected.value)
    {
      var best := BestCandidate(selector, exits, relay, random);
      if best.Some? {
        var exit := exits[best.value];
        Count(exit);
        selected := Some(exit);
      } else {
        NothingCounted();
        selectedExitIds, selectedDatacenters, selectedCities, selectedCountries := {}, map[], map[], map[];
        history := [];
        selected := None;
      }
    }

    /** The call after a reset, or the first one, succeeds if and only if some exit
        matches. */
    method SelectFresh(selector: ExitSelector, exits: seq<OneExit>, relay: OneRelay, random: seq<nat>)
      returns (selected: Option<OneExit>)
      requires Valid() && history == [] && |random| == |exits|
      modifies this
      ensures Valid()
      ensures selected.Some? <==> exists i :: 0 <= i < |exits| && AskedFor(selector, exits[i])
      ensures history == if selected.Some? then [selected.value] else []
    {
      FreshAllowsAll(exits, selector);
      forall i | 0 <= i < |exits| ensures Matches(selector, exits[i]) <==> AskedFor(selector, exits[i]) {
        MatchesIff(selector, exits[i]);
      }
      selected := SelectNextExit(selector, exits, relay, random);
    }

    /** Selecting again and again from a fresh state, until a call fails or there are no
        more calls to make; `calls[i]` are the numbers drawn in the i-th call. With a
        fixed exit, city or country the calls succeed at most 1, 4 or 6 times, and the
        state is reset when one fails. */
    method SelectRepeatedly(selector: ExitSelector, exits: seq<OneExit>, relay: OneRelay, calls: seq<seq<nat>>)
      returns (selected: seq<OneExit>)
      requires Valid() && history == []
      requires forall i :: 0 <= i < |calls| ==> |calls[i]| == |exits|
      modifies this
      ensures Valid() && |selected| <= |calls|
      ensures forall i :: 0 <= i < |selected| ==> Matches(selector, selected[i]) && selected[i] in exits
      ensures forall i, j :: 0 <= i < j < |selected| ==> selected[i].id != selected[j].id
      ensures WithinCap(selector, |selected|)
      ensures history == if |selected| == |calls| then selected else []
      ensures |selected| < |calls| ==>
                forall i :: 0 <= i < |exits| ==> !(Matches(selector, exits[i]) && Allowed(selected, exits[i]))
    {
      selected := [];
      while |selected| < |calls|
        invariant Valid() && history == selected && |selected| <= |calls|
        invariant AllAmong(selector, exits, selected)
      {
        var next := SelectNextExit(selector, exits, relay, calls[|selected|]);
        if next.None? {
          break;
        }
        OneMoreAmong(selector, exits, selected, next.value);
        selected := selected + [next.value];
      }
      RepeatedCapped(selected, selector);
    }

    method Count(exit: OneExit)
      requires Valid() && Allowed(history, exit)
      modifies this
      ensures Valid() && history == old(history) + [exit]
    {
      var country := exit.cityCode.country;
      OneMoreCounted(selectedExitIds, selectedDatacenters, selectedCities, selectedCountries, history, exit);
      CapsBelowSaturation(history, exit);
      var datacenters := selectedDatacenters[exit.datacenterId := SaturatingIncrement(Get(selectedDatacenters, exit.datacenterId))];
      var cities := selectedCities[exit.cityCode := SaturatingIncrement(Get(selectedCities, exit.cityCode))];
      var countries := selectedCountries[country := SaturatingIncrement(Get(selectedCountries, country))];
      assert CountsHistory(selectedExitIds + {exit.id}, datacenters, cities, countries, history + [exit]);
      selectedExitIds := selectedExitIds + {exit.id};
      selectedDatacenters, selectedCities, selectedCountries := datacenters, cities, countries;
      history := history + [exit];
    }
  }

  /** The i-th exit is eligible, no eligible exit ranks above it, and it is the last of
      those that rank highest. */
  predicate IsBest(h: seq<OneExit>, selector: ExitSelector, exits: seq<OneExit>, relay: OneRelay, random: seq<nat>,
                   i: nat, e: OneExit)
    requires i < |exits| == |random|
  {
    && e == exits[i] && Matches(selector, e) && Allowed(h, e)
    && forall k :: 0 <= k < |exits| && Matches(selector, exits[k]) && Allowed(h, exits[k]) ==>
         && AtMost(RankOf(exits[k], relay, random[k]), RankOf(e, relay, random[i]))
         && (k > i ==> RankOf(exits[k], relay, random[k]) != RankOf(e, relay, random[i]))
  }

  predicate Eligible(h: seq<OneExit>, selector: ExitSelector, e: OneExit) {
    AskedFor(selector, e) && Allowed(h, e)
  }

  /** What is selected, by the fields: the i-th exit is eligible, and against every
      eligible exit it is preferred by the relay if that one is; if in that they are
      alike, it is in the relay's city if that one is; then in the relay's country; then
      of no lower tier, then of no lower draw; and then it is the later one. */
  predicate IsChosen(h: seq<OneExit>, selector: ExitSelector, exits: seq<OneExit>, relay: OneRelay, random: seq<nat>,
                     i: nat, e: OneExit)
    requires i < |exits| == |random|
  {
    && e == exits[i] && Eligible(h, selector, e)
    && forall k {:trigger Eligible(h, selector, exits[k])} ::
         0 <= k < |exits| && Eligible(h, selector, exits[k]) ==>
           NotBehind(relay, e, random[i], i, exits[k], random[k], k)
  }

  predicate NotBehind(relay: OneRelay, e: OneExit, r: nat, i: nat, e': OneExit, r': nat, i': nat) {
    var here, there := relay.cityCode, relay.cityCode.country;
    && (e'.id in relay.preferredExits ==> e.id in relay.preferredExits)
    && ((e'.id in relay.preferredExits <==> e.id in relay.preferredExits) ==>
          && (e'.cityCode == here ==> e.cityCode == here)
          && ((e'.cityCode == here <==> e.cityCode == here) ==>
                && (e'.cityCode.country == there ==> e.cityCode.country == there)
                && ((e'.cityCode.country == there <==> e.cityCode.country == there) ==>
                      && e'.tier <= e.tier
                      && (e'.tier == e.tier ==> r' <= r && (r' == r ==> i' <= i)))))
  }

  lemma RankOnFields(relay: OneRelay, e: OneExit, r: nat, i: nat, e': OneExit, r': nat, i': nat)
    ensures NotBehind(relay, e, r, i, e', r', i') <==>
              && AtMost(RankOf(e', relay, r'), RankOf(e, relay, r))
              && (i' > i ==> RankOf(e', relay, r') != RankOf(e, relay, r))
  {
  }

  /** The last exit of the highest rank is the one chosen by the fields. */
  lemma {:induction false} BestIffChosen(h: seq<OneExit>, selector: ExitSelector, exits: seq<OneExit>, relay: OneRelay, random: seq<nat>,
                      i: nat, e: OneExit)
    requires i < |exits| == |random|
    ensures IsBest(h, selector, exits, relay, random, i, e) <==> IsChosen(h, selector, exits, relay, random, i, e)
  {
    MatchesIff(selector, e);
    forall k | 0 <= k < |exits|
      ensures Matches(selector, exits[k]) && Allowed(h, exits[k]) <==> Eligible(h, selector, exits[k])
      ensures NotBehind(relay, e, random[i], i, exits[k], random[k], k) <==>
                && AtMost(RankOf(exits[k], relay, random[k]), RankOf(e, relay, random[i]))
                && (k > i ==> RankOf(exits[k], relay, random[k]) != RankOf(e, relay, random[i]))
    {
      MatchesIff(selector, exits[k]);
      RankOnFields(relay, e, random[i], i, exits[k], random[k], k);
    }
  }

  lemma CountsOfOneMore(h: seq<OneExit>, e: OneExit)
    ensures forall d :: CountDatacenter(h + [e], d) == CountDatacenter(h, d) + if e.datacenterId == d then 1 else 0
    ensures forall c :: CountCity(h + [e], c) == CountCity(h, c) + if e.cityCode == c then 1 else 0
    ensures forall c :: CountCountry(h + [e], c) == CountCountry(h, c) + if e.cityCode.country == c then 1 else 0
    ensures forall id :: Contains(h + [e], id) <==> Contains(h, id) || id == e.id
  {
    assert (h + [e])[..|h|] == h;
    forall id ensures Contains(h + [e], id) <==> Contains(h, id) || id == e.id {
      if Contains(h, id) {
        var i :| 0 <= i < |h| && h[i].id == id;
        assert (h + [e])[i].id == id;
      }
      assert (h + [e])[|h|] == e;
    }
  }

  /** After a reset every exit is allowed again, so the next call succeeds if and
      only if some exit matches. */
  lemma {:induction false} FreshAllowsAll(exits: seq<OneExit>, selector: ExitSelector)
    ensures (exists i :: 0 <= i < |exits| && Matches(selector, exits[i]) && Allowed([], exits[i]))
       <==> exists i :: 0 <= i < |exits| && Matches(selector, exits[i])
  {
    assert forall i :: 0 <= i < |exits| ==> Allowed([], exits[i]);
  }
}
