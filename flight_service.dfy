/** The flight service: re-resolves a chosen journey, flight and fare against the
    cached inventory and persists the choice as a Selection. */
module FlightService {
  import opened Outcomes
  import opened JsObject
  import opened FlightTypes
  import opened InventoryLoader
  import opened SelectionModel

  datatype SelectFlightInput = SelectFlightInput(
    searchId: string,
    journeyKey: string,
    flightId: string,
    fareId: string)

  function JourneyNotFound(journeyKey: string): string { "Journey key \"" + journeyKey + "\" not found" }
  function SectorNotFound(sectorKey: string): string { "Sector \"" + sectorKey + "\" not found" }
  function FlightNotFound(flightId: string): string { "Flight \"" + flightId + "\" not found" }
  function FareNotFound(fareId: string): string { "Fare \"" + fareId + "\" not found" }

  /** Position i holds the first fare with id fareId. */
  predicate FirstFare(fares: seq<Fare>, fareId: string, i: int)
  {
    0 <= i < |fares| && fares[i].fareId == fareId && forall j :: 0 <= j < i ==> fares[j].fareId != fareId
  }

  /** `fares.find(f => f.fareId === fareId)`: the first fare with that id. */
  function FindFare(fares: seq<Fare>, fareId: string): (r: Option<Fare>)
    ensures r.Some? <==> exists i :: 0 <= i < |fares| && fares[i].fareId == fareId
    ensures r.Some? ==> exists i :: FirstFare(fares, fareId, i) && fares[i] == r.value
    decreases |fares|
  {
    if fares == [] then None
    else if fares[0].fareId == fareId then (assert FirstFare(fares, fareId, 0); Some(fares[0]))
    else
      var r := FindFare(fares[1..], fareId);
      assert r.Some? ==> exists i :: FirstFare(fares, fareId, i) && fares[i] == r.value by {
        if r.Some? {
          var i :| FirstFare(fares[1..], fareId, i) && fares[1..][i] == r.value;
          assert FirstFare(fares, fareId, i + 1);
        }
      }
      assert (exists i :: 0 <= i < |fares| && fares[i].fareId == fareId) ==>
             (exists i :: 0 <= i < |fares| - 1 && fares[1..][i].fareId == fareId) by {
        if exists i :: 0 <= i < |fares| && fares[i].fareId == fareId {
          var i :| 0 <= i < |fares| && fares[i].fareId == fareId;
          assert fares[1..][i - 1].fareId == fareId;
        }
      }
      r
  }

  /** `journeys[journeyKey]?.sector`, with "" for a missing journey or sector. */
  function JourneySector(root: Inventory, journeyKey: string): string
  {
    match Get(root.journeys, journeyKey)
    case None => ""
    case Some(journey) => journey.sector
  }

  /** The lookup chain journey -> sector group -> flight option -> fare; each
      missing link throws its own "not found" error. On success the option is
      the one the group holds under flightId and the fare is the option's first
      fare with id fareId. */
  function ResolveSelection(root: Inventory, journeyKey: string, flightId: string, fareId: string)
    : (r: Result<(RawOption, Fare)>)
    ensures r.Success? ==>
      var sectorKey := JourneySector(root, journeyKey);
      && sectorKey != ""
      && Get(root.sectors, sectorKey).Some?
      && Get(Get(root.sectors, sectorKey).value, flightId) == Some(r.value.0)
      && r.value.1.fareId == fareId
      && exists i :: FirstFare(r.value.0.fares, fareId, i) && r.value.0.fares[i] == r.value.1
  {
    var sectorKey := JourneySector(root, journeyKey);
    if sectorKey == "" then Failure(JourneyNotFound(journeyKey))
    else
      match Get(root.sectors, sectorKey)
      case None => Failure(SectorNotFound(sectorKey))
      case Some(sectorGroup) =>
        match Get(sectorGroup, flightId)
        case None => Failure(FlightNotFound(flightId))
        case Some(flightOption) =>
          match FindFare(flightOption.fares, fareId)
          case None => Failure(FareNotFound(fareId))
          case Some(selectedFare) => Success((flightOption, selectedFare))
  }

  /** The checks run journey, sector, flight, fare, and only the first failing
      one is reported. */
  lemma ResolveSelectionErrors(root: Inventory, journeyKey: string, flightId: string, fareId: string)
    ensures journeyKey !in Keys(root.journeys) ==>
      ResolveSelection(root, journeyKey, flightId, fareId) == Failure(JourneyNotFound(journeyKey))
    ensures JourneySector(root, journeyKey) == "" ==>
      ResolveSelection(root, journeyKey, flightId, fareId) == Failure(JourneyNotFound(journeyKey))
    ensures var sectorKey := JourneySector(root, journeyKey);
      (sectorKey != "" && sectorKey !in Keys(root.sectors)) ==>
      ResolveSelection(root, journeyKey, flightId, fareId) == Failure(SectorNotFound(sectorKey))
    ensures var sectorKey := JourneySector(root, journeyKey);
      (sectorKey != "" && sectorKey in Keys(root.sectors) &&
       flightId !in Keys(Get(root.sectors, sectorKey).value)) ==>
      ResolveSelection(root, journeyKey, flightId, fareId) == Failure(FlightNotFound(flightId))
    ensures var sectorKey := JourneySector(root, journeyKey);
      (sectorKey != "" && sectorKey in Keys(root.sectors) &&
       flightId in Keys(Get(root.sectors, sectorKey).value) &&
       forall f :: f in Get(Get(root.sectors, sectorKey).value, flightId).value.fares ==> f.fareId != fareId) ==>
      ResolveSelection(root, journeyKey, flightId, fareId) == Failure(FareNotFound(fareId))
  {
    var sectorKey := JourneySector(root, journeyKey);
    if sectorKey != "" && sectorKey in Keys(root.sectors) && flightId in Keys(Get(root.sectors, sectorKey).value) {
      var option := Get(Get(root.sectors, sectorKey).value, flightId).value;
      if forall f :: f in option.fares ==> f.fareId != fareId {
        assert FindFare(option.fares, fareId).None?;
      }
    }
  }

  /** Every link present: the resolution succeeds. */
  lemma ResolveSelectionSucceeds(root: Inventory, journeyKey: string, flightId: string, fareId: string,
                                 group: Dict<RawOption>, option: RawOption, i: int)
    requires JourneySector(root, journeyKey) != ""
    requires Get(root.sectors, JourneySector(root, journeyKey)) == Some(group)
    requires Get(group, flightId) == Some(option)
    requires 0 <= i < |option.fares| && option.fares[i].fareId == fareId
    ensures ResolveSelection(root, journeyKey, flightId, fareId).Success?
    ensures ResolveSelection(root, journeyKey, flightId, fareId).value.0 == option
  {
  }

  /** What `selectFlight` returns or throws, given the loaded inventory, the
      driver's fresh ObjectId and the clock. */
  function SelectOutcome(root: Inventory, input: SelectFlightInput, newId: string, now: int): Result<Selection>
  {
    match ResolveSelection(root, input.journeyKey, input.flightId, input.fareId)
    case Failure(e) => Failure(e)
    case Success(found) =>
      var sel := Selection(newId, input.searchId, input.journeyKey, found.0, found.1, now);
      if SelectionValid(sel) then Success(sel) else Failure(SelectionValidationMessage)
  }

  /** A successful select stores the request's searchId and journeyKey as given,
      the resolved raw option and a fare with the requested fareId. */
  lemma SelectOutcomeRecord(root: Inventory, input: SelectFlightInput, newId: string, now: int)
    requires SelectOutcome(root, input, newId, now).Success?
    ensures var sel := SelectOutcome(root, input, newId, now).value;
      && sel.id == newId && sel.searchId == input.searchId && sel.journeyKey == input.journeyKey
      && sel.selectedFare.fareId == input.fareId && sel.selectedFare in sel.selectedFlight.fares
      && sel.createdAt == now
      && Get(Get(root.sectors, JourneySector(root, input.journeyKey)).value, input.flightId)
         == Some(sel.selectedFlight)
  {
    var found := ResolveSelection(root, input.journeyKey, input.flightId, input.fareId).value;
    var i :| FirstFare(found.0.fares, input.fareId, i) && found.0.fares[i] == found.1;
  }

  /** `selectFlight`: resolve against the cached inventory, then create the
      Selection. On every error the store is unchanged; on success exactly one
      record is added. */
  method SelectFlight(cache: InventoryCache, file: Inventory, store: SelectionStore,
                      input: SelectFlightInput, newId: string, now: int)
    returns (r: Result<Selection>)
    requires cache.Valid() && store.Valid()
    requires IsObjectId(newId) && newId !in store.records
    modifies cache, store
    ensures cache.Valid() && store.Valid() && cache.cachedData.Some?
    ensures old(cache.cachedData).Some? ==> cache.cachedData == old(cache.cachedData)
    ensures old(cache.cachedData).None? ==> cache.cachedData == Some(file)
    ensures r == SelectOutcome(cache.cachedData.value, input, newId, now)
    ensures r.Success? ==> store.records == old(store.records)[newId := r.value]
    ensures r.Failure? ==> store.records == old(store.records)
  {
    var root := cache.GetFlightData(file);
    var resolved := ResolveSelection(root, input.journeyKey, input.flightId, input.fareId);
    if resolved.Failure? {
      return Failure(resolved.error);
    }
    var (flightOption, selectedFare) := resolved.value;
    r := store.Create(newId, input.searchId, input.journeyKey, flightOption, selectedFare, now);
  }
}
