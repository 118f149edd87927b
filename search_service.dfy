/** The search service: loads the inventory once and normalises every journey's
    sector group into flat flight options keyed by journey. */
module SearchService {
  import opened Outcomes
  import opened JsObject
  import opened FlightTypes
  import opened InventoryLoader

  /** `legs.reduce((sum, leg) => sum + leg.durationInMin, 0)`: a left fold from 0. */
  function SumDurations(legs: seq<Leg>): int
    decreases |legs|
  {
    if legs == [] then 0 else SumDurations(legs[..|legs| - 1]) + legs[|legs| - 1].durationInMin
  }

  /** The total of a concatenation is the sum of the totals. */
  lemma {:induction false} SumDurationsAppend(a: seq<Leg>, b: seq<Leg>)
    ensures SumDurations(a + b) == SumDurations(a) + SumDurations(b)
    decreases |b|
  {
    if b == [] {
      assert a + b == a;
    } else {
      SumDurationsAppend(a, b[..|b| - 1]);
      assert (a + b)[..|a + b| - 1] == a + b[..|b| - 1];
    }
  }

  /** With non-negative leg durations the total is non-negative and at least
      every single leg's duration. */
  lemma {:induction false} SumDurationsBounds(legs: seq<Leg>)
    requires forall i :: 0 <= i < |legs| ==> legs[i].durationInMin >= 0
    ensures SumDurations(legs) >= 0
    ensures forall i :: 0 <= i < |legs| ==> SumDurations(legs) >= legs[i].durationInMin
    decreases |legs|
  {
    if legs != [] {
      SumDurationsBounds(legs[..|legs| - 1]);
    }
  }

  /** The projection of one raw option, or None when it has no legs (the source
      throws a TypeError there). */
  function NormalizeOption(option: RawOption, sectorKey: string): (r: Option<FlightOption>)
    ensures r.None? <==> option.flights == []
    ensures r.Some? ==>
      var legs := option.flights;
      && r.value.flightId == option.flUnqiueId && r.value.sectorKey == sectorKey
      && r.value.from == legs[0].departureAirport.code
      && r.value.departure == legs[0].departureAirport.time
      && r.value.to == legs[|legs| - 1].arrivalAirport.code
      && r.value.arrival == legs[|legs| - 1].arrivalAirport.time
      && r.value.totalDuration == SumDurations(legs)
      && r.value.stops == option.otherDetails.totalStops
      && r.value.airlines == option.otherDetails.airline
      && r.value.lowestPrice == option.otherDetails.lowestPrice
      && r.value.legs == legs && r.value.fares == option.fares
  {
    var legs := option.flights;
    if legs == [] then None
    else
      var firstLeg := legs[0];
      var lastLeg := legs[|legs| - 1];
      Some(FlightOption(
        option.flUnqiueId, sectorKey,
        firstLeg.departureAirport.code, lastLeg.arrivalAirport.code,
        firstLeg.departureAirport.time, lastLeg.arrivalAirport.time,
        SumDurations(legs),
        option.otherDetails.totalStops, option.otherDetails.airline,
        legs, option.fares, option.otherDetails.lowestPrice))
  }

  /** `stops` is copied from the inventory, so it need not be the leg count less one. */
  lemma StopsNotDerivedFromLegs()
    ensures exists option: RawOption ::
      option.flights != [] && NormalizeOption(option, "").value.stops != |option.flights| - 1
  {
    var a := Airport("DEL", "2026-03-02T06:00", "T3");
    var leg := Leg(1, "F1", "AI-101", "AI", a, a, 120);
    var option := RawOption("F1", [leg], OtherDetails(["AI"], 2, "5000"), []);
    assert NormalizeOption(option, "").value.stops == 2;
  }

  /** `Object.values(sectorGroup).map(...)`: one projection per option, in
      enumeration order; None when any option has no legs. */
  function NormalizeGroup(group: Dict<RawOption>, sectorKey: string): (r: Option<seq<FlightOption>>)
    ensures r.Some? <==> forall i :: 0 <= i < |group| ==> group[i].1.flights != []
    ensures r.Some? ==> |r.value| == |group|
    ensures r.Some? ==>
      forall i :: 0 <= i < |group| ==> NormalizeOption(group[i].1, sectorKey) == Some(r.value[i])
    decreases |group|
  {
    if group == [] then Some([])
    else
      match NormalizeOption(group[0].1, sectorKey)
      case None => None
      case Some(first) =>
        match NormalizeGroup(group[1..], sectorKey)
        case None => None
        case Some(rest) => Some([first] + rest)
  }

  /** What the search lists for one journey: the normalised options of its
      sector group, or None when the group is missing. */
  function JourneyOptions(journey: Journey, sectors: Dict<Dict<RawOption>>): Option<seq<FlightOption>>
  {
    match Get(sectors, journey.sector)
    case None => None
    case Some(group) => NormalizeGroup(group, journey.sector)
  }

  /** A journey whose sector group holds an option without legs. */
  predicate JourneyCrashes(journey: Journey, sectors: Dict<Dict<RawOption>>)
  {
    Get(sectors, journey.sector).Some? && JourneyOptions(journey, sectors).None?
  }

  /** The `journeyResults` dictionary after the loop has visited `journeys`:
      a journey without a sector group is skipped, any other journey key is
      assigned its options. */
  function JourneyResults(journeys: Dict<Journey>, sectors: Dict<Dict<RawOption>>): Result<Dict<seq<FlightOption>>>
    decreases |journeys|
  {
    if journeys == [] then Success([])
    else
      var last := journeys[|journeys| - 1];
      match JourneyResults(journeys[..|journeys| - 1], sectors)
      case Failure(e) => Failure(e)
      case Success(acc) =>
        match Get(sectors, last.1.sector)
        case None => Success(acc)
        case Some(group) =>
          match NormalizeGroup(group, last.1.sector)
          case None => Failure(MissingLegMessage)
          case Some(options) => Success(Put(acc, last.0, options))
  }

  /** The journey keys that have a sector group, in journey order. */
  function IncludedKeys(journeys: Dict<Journey>, sectors: Dict<Dict<RawOption>>): seq<string>
    decreases |journeys|
  {
    if journeys == [] then []
    else
      var last := journeys[|journeys| - 1];
      IncludedKeys(journeys[..|journeys| - 1], sectors)
        + (if Get(sectors, last.1.sector).Some? then [last.0] else [])
  }

  /** The result of `searchFlights` on a loaded inventory. */
  function SearchSpec(root: Inventory): Result<SearchResult>
  {
    match JourneyResults(root.journeys, root.sectors)
    case Failure(e) => Failure(e)
    case Success(journeyResults) => Success(SearchResult(root.searchId, journeyResults))
  }

  lemma {:induction false} IncludedKeysAreJourneyKeys(journeys: Dict<Journey>, sectors: Dict<Dict<RawOption>>)
    ensures forall k :: k in IncludedKeys(journeys, sectors) ==> k in Keys(journeys)
    decreases |journeys|
  {
    if journeys != [] {
      var pre := journeys[..|journeys| - 1];
      IncludedKeysAreJourneyKeys(pre, sectors);
      assert forall i :: 0 <= i < |pre| ==> Keys(pre)[i] == Keys(journeys)[i];
    }
  }

  /** Once the loop has thrown, later journeys do not matter. */
  lemma {:induction false} JourneyResultsFailureExtends(journeys: Dict<Journey>, sectors: Dict<Dict<RawOption>>, n: nat)
    requires n <= |journeys|
    requires JourneyResults(journeys[..n], sectors).Failure?
    ensures JourneyResults(journeys, sectors) == JourneyResults(journeys[..n], sectors)
    decreases |journeys| - n
  {
    if n < |journeys| {
      var pre := journeys[..|journeys| - 1];
      assert pre[..n] == journeys[..n];
      JourneyResultsFailureExtends(pre, sectors, n);
    } else {
      assert journeys[..n] == journeys;
    }
  }

  /** One iteration of the loop, as far as failure goes: the last journey
      throws exactly when it crashes, unless an earlier one already threw. */
  lemma JourneyResultsFailureStep(journeys: Dict<Journey>, sectors: Dict<Dict<RawOption>>)
    requires journeys != []
    ensures var pre := JourneyResults(journeys[..|journeys| - 1], sectors);
      && (JourneyResults(journeys, sectors).Failure? <==>
            pre.Failure? || JourneyCrashes(journeys[|journeys| - 1].1, sectors))
      && (JourneyResults(journeys, sectors).Failure? ==>
            JourneyResults(journeys, sectors).error == if pre.Failure? then pre.error else MissingLegMessage)
  {
  }

  /** Some journey with a sector group holds an option without legs. */
  predicate AnyJourneyCrashes(journeys: Dict<Journey>, sectors: Dict<Dict<RawOption>>)
  {
    exists i :: 0 <= i < |journeys| && JourneyCrashes(journeys[i].1, sectors)
  }

  lemma AnyJourneyCrashesLast(journeys: Dict<Journey>, sectors: Dict<Dict<RawOption>>)
    requires journeys != []
    ensures AnyJourneyCrashes(journeys, sectors) <==>
      AnyJourneyCrashes(journeys[..|journeys| - 1], sectors) || JourneyCrashes(journeys[|journeys| - 1].1, sectors)
  {
    var n := |journeys| - 1;
    var pre := journeys[..n];
    assert forall i :: 0 <= i < n ==> pre[i] == journeys[i];
    if AnyJourneyCrashes(journeys, sectors) {
      var i :| 0 <= i < |journeys| && JourneyCrashes(journeys[i].1, sectors);
      if i < n {
        assert JourneyCrashes(pre[i].1, sectors);
      }
    }
  }

  /** The search fails exactly when some journey with a sector group has an
      option without legs, and then with the TypeError's message. */
  lemma {:induction false} JourneyResultsFailure(journeys: Dict<Journey>, sectors: Dict<Dict<RawOption>>)
    ensures JourneyResults(journeys, sectors).Failure? <==> AnyJourneyCrashes(journeys, sectors)
    ensures JourneyResults(journeys, sectors).Failure? ==>
      JourneyResults(journeys, sectors).error == MissingLegMessage
    decreases |journeys|
  {
    if journeys != [] {
      JourneyResultsFailureStep(journeys, sectors);
      JourneyResultsFailure(journeys[..|journeys| - 1], sectors);
      AnyJourneyCrashesLast(journeys, sectors);
    }
  }

  /** One successful iteration of the loop: a journey without a sector group
      leaves the results as they were, any other journey assigns its options. */
  lemma JourneyResultsLast(journeys: Dict<Journey>, sectors: Dict<Dict<RawOption>>)
    requires journeys != []
    requires JourneyResults(journeys, sectors).Success?
    ensures var last := journeys[|journeys| - 1];
      var pre := JourneyResults(journeys[..|journeys| - 1], sectors);
      && pre.Success?
      && (Get(sectors, last.1.sector).None? ==> JourneyResults(journeys, sectors).value == pre.value)
      && (Get(sectors, last.1.sector).Some? ==>
            && JourneyOptions(last.1, sectors).Some?
            && JourneyResults(journeys, sectors).value
               == Put(pre.value, last.0, JourneyOptions(last.1, sectors).value))
  {
  }

  /** With distinct journey keys, the result's keys are the journeys that have a
      sector group, in journey order. */
  lemma {:induction false} JourneyResultsKeys(journeys: Dict<Journey>, sectors: Dict<Dict<RawOption>>)
    requires DistinctKeys(journeys)
    requires JourneyResults(journeys, sectors).Success?
    ensures Keys(JourneyResults(journeys, sectors).value) == IncludedKeys(journeys, sectors)
    decreases |journeys|
  {
    if journeys != [] {
      var n := |journeys| - 1;
      var pre := journeys[..n];
      var last := journeys[n];
      JourneyResultsLast(journeys, sectors);
      assert forall i :: 0 <= i < n ==> pre[i] == journeys[i];
      JourneyResultsKeys(pre, sectors);
      if Get(sectors, last.1.sector).Some? {
        var acc := JourneyResults(pre, sectors).value;
        var options := JourneyOptions(last.1, sectors).value;
        IncludedKeysAreJourneyKeys(pre, sectors);
        assert last.0 !in Keys(pre);
        PutNewKey(acc, last.0, options);
        assert Keys(acc + [(last.0, options)]) == Keys(acc) + [last.0];
      }
    }
  }

  /** With distinct journey keys, every journey key reads the options of its
      sector group, and a journey without one reads nothing. */
  lemma {:induction false} JourneyResultsGet(journeys: Dict<Journey>, sectors: Dict<Dict<RawOption>>)
    requires DistinctKeys(journeys)
    requires JourneyResults(journeys, sectors).Success?
    ensures forall i :: 0 <= i < |journeys| ==>
      Get(JourneyResults(journeys, sectors).value, journeys[i].0) == JourneyOptions(journeys[i].1, sectors)
    decreases |journeys|
  {
    if journeys != [] {
      var n := |journeys| - 1;
      var pre := journeys[..n];
      var last := journeys[n];
      var acc := JourneyResults(pre, sectors).value;
      JourneyResultsLast(journeys, sectors);
      assert forall i :: 0 <= i < n ==> pre[i] == journeys[i];
      JourneyResultsGet(pre, sectors);
      JourneyResultsKeys(pre, sectors);
      IncludedKeysAreJourneyKeys(pre, sectors);
      assert last.0 !in Keys(pre);
      assert last.0 !in Keys(acc);
      if Get(sectors, last.1.sector).Some? {
        var options := JourneyOptions(last.1, sectors).value;
        forall i | 0 <= i < |journeys|
          ensures Get(JourneyResults(journeys, sectors).value, journeys[i].0) == JourneyOptions(journeys[i].1, sectors)
        {
          GetPut(acc, last.0, options, journeys[i].0);
        }
      }
    }
  }

  /** `searchFlights` on a loaded inventory: the result carries the inventory's
      searchId and lists the journeys that have a sector group. */
  lemma SearchResultShape(root: Inventory)
    requires DistinctKeys(root.journeys)
    requires SearchSpec(root).Success?
    ensures SearchSpec(root).value.searchId == root.searchId
    ensures Keys(SearchSpec(root).value.journeys) == IncludedKeys(root.journeys, root.sectors)
    ensures forall i :: 0 <= i < |root.journeys| ==>
      Get(SearchSpec(root).value.journeys, root.journeys[i].0) == JourneyOptions(root.journeys[i].1, root.sectors)
  {
    JourneyResultsKeys(root.journeys, root.sectors);
    JourneyResultsGet(root.journeys, root.sectors);
  }

  /** The loop of `searchFlights` over the loaded inventory. */
  method BuildSearchResult(root: Inventory) returns (r: Result<SearchResult>)
    ensures r == SearchSpec(root)
  {
    var journeyResults: Dict<seq<FlightOption>> := [];
    var i := 0;
    while i < |root.journeys|
      invariant 0 <= i <= |root.journeys|
      invariant JourneyResults(root.journeys[..i], root.sectors) == Success(journeyResults)
    {
      var (journeyKey, journeyValue) := root.journeys[i];
      var sectorKey := journeyValue.sector;
      var sectorGroup := Get(root.sectors, sectorKey);
      assert root.journeys[..i + 1][..i] == root.journeys[..i];
      if sectorGroup.None? {
        i := i + 1;
        continue;
      }
      var flightOptions := NormalizeGroup(sectorGroup.value, sectorKey);
      if flightOptions.None? {
        JourneyResultsFailureExtends(root.journeys, root.sectors, i + 1);
        return Failure(MissingLegMessage);
      }
      journeyResults := Put(journeyResults, journeyKey, flightOptions.value);
      i := i + 1;
    }
    assert root.journeys[..i] == root.journeys;
    return Success(SearchResult(root.searchId, journeyResults));
  }

  /** `searchFlights`: load the inventory through the cache, then normalise it. */
  method SearchFlights(cache: InventoryCache, file: Inventory) returns (r: Result<SearchResult>)
    requires cache.Valid()
    modifies cache
    ensures cache.Valid() && cache.cachedData.Some?
    ensures old(cache.cachedData).Some? ==> cache.cachedData == old(cache.cachedData)
    ensures old(cache.cachedData).None? ==> cache.cachedData == Some(file)
    ensures r == SearchSpec(cache.cachedData.value)
  {
    var root := cache.GetFlightData(file);
    r := BuildSearchResult(root);
  }
}
