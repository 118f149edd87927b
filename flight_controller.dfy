/** The select controller: checks the request's fields, calls the flight service
    and shapes its outcome into a response. */
module FlightController {
  import opened Outcomes
  import opened FlightTypes
  import opened InventoryLoader
  import opened SelectionModel
  import opened FlightService
  import opened Http

  const MissingSelectFieldsMessage := "searchId, journeyKey, flightId and fareId are required"

  /** The data of a successful select response. */
  datatype SelectSummary = SelectSummary(
    selectionId: string,
    from: string,
    to: string,
    departure: string,
    arrival: string,
    airlines: seq<string>,
    stops: int,
    price: string,
    brandName: string)

  /** Some required field is falsy; absent fields arrive as "". */
  predicate MissingSelectField(req: SelectFlightInput)
  {
    req.searchId == "" || req.journeyKey == "" || req.flightId == "" || req.fareId == ""
  }

  /** The summary built from a stored selection, or None when its snapshot has
      no legs (reading `flights[0].departureAirport` throws). */
  function SelectionSummary(sel: Selection): (r: Option<SelectSummary>)
    ensures r.None? <==> sel.selectedFlight.flights == []
    ensures r.Some? ==>
      var legs := sel.selectedFlight.flights;
      && r.value.selectionId == sel.id
      && r.value.from == legs[0].departureAirport.code
      && r.value.departure == legs[0].departureAirport.time
      && r.value.to == legs[|legs| - 1].arrivalAirport.code
      && r.value.arrival == legs[|legs| - 1].arrivalAirport.time
      && r.value.airlines == sel.selectedFlight.otherDetails.airline
      && r.value.stops == sel.selectedFlight.otherDetails.totalStops
      && r.value.price == sel.selectedFare.price.pricePerAdult
      && r.value.brandName == sel.selectedFare.fareIdentifiers.brandName
  {
    var flight := sel.selectedFlight;
    var fare := sel.selectedFare;
    if flight.flights == [] then None
    else
      Some(SelectSummary(
        sel.id,
        flight.flights[0].departureAirport.code,
        flight.flights[|flight.flights| - 1].arrivalAirport.code,
        flight.flights[0].departureAirport.time,
        flight.flights[|flight.flights| - 1].arrivalAirport.time,
        flight.otherDetails.airline,
        flight.otherDetails.totalStops,
        fare.price.pricePerAdult,
        fare.fareIdentifiers.brandName))
  }

  /** The response for the service's outcome: every error thrown inside the try
      block, whatever its message, becomes 404 with that message. */
  function SelectResponse(outcome: Result<Selection>): (resp: Response<SelectSummary>)
    ensures outcome.Failure? ==> resp == Fail(404, outcome.error)
    ensures resp.Ok? <==> outcome.Success? && outcome.value.selectedFlight.flights != []
    ensures resp.Ok? ==> resp.status == 201 && Some(resp.data) == SelectionSummary(outcome.value)
    ensures resp.Ok? ==> resp.data.selectionId == outcome.value.id
    ensures outcome.Success? && outcome.value.selectedFlight.flights == [] ==> resp == Fail(404, MissingLegMessage)
    ensures resp.Fail? ==> resp.status == 404
  {
    match outcome
    case Failure(message) => Fail(404, message)
    case Success(sel) =>
      match SelectionSummary(sel)
      case None => Fail(404, MissingLegMessage)
      case Some(summary) => Ok(201, summary)
  }

  /** `select`: a request missing a field gets 400 and reaches no service;
      otherwise the service's outcome decides the response. */
  method Select(cache: InventoryCache, file: Inventory, store: SelectionStore,
                req: SelectFlightInput, newId: string, now: int)
    returns (resp: Response<SelectSummary>)
    requires cache.Valid() && store.Valid()
    requires IsObjectId(newId) && newId !in store.records
    modifies cache, store
    ensures cache.Valid() && store.Valid()
    ensures MissingSelectField(req) ==>
      && resp == Fail(400, MissingSelectFieldsMessage)
      && store.records == old(store.records) && cache.cachedData == old(cache.cachedData)
    ensures !MissingSelectField(req) ==>
      && cache.cachedData.Some?
      && (old(cache.cachedData).Some? ==> cache.cachedData == old(cache.cachedData))
      && (old(cache.cachedData).None? ==> cache.cachedData == Some(file))
      && resp == SelectResponse(SelectOutcome(cache.cachedData.value, req, newId, now))
    ensures !MissingSelectField(req) ==>
      var outcome := SelectOutcome(cache.cachedData.value, req, newId, now);
      && (outcome.Success? ==> store.records == old(store.records)[newId := outcome.value])
      && (outcome.Failure? ==> store.records == old(store.records))
  {
    if MissingSelectField(req) {
      return Fail(400, MissingSelectFieldsMessage);
    }
    var outcome := SelectFlight(cache, file, store, req, newId, now);
    resp := SelectResponse(outcome);
  }

  /** A request that names an existing journey, flight and fare is answered 201
      with a summary whose price is the chosen fare's per-adult price. */
  lemma SelectHappyPath(root: Inventory, req: SelectFlightInput, newId: string, now: int)
    requires !MissingSelectField(req)
    requires ResolveSelection(root, req.journeyKey, req.flightId, req.fareId).Success?
    requires ResolveSelection(root, req.journeyKey, req.flightId, req.fareId).value.0.flights != []
    ensures var resp := SelectResponse(SelectOutcome(root, req, newId, now));
      && resp.Ok? && resp.status == 201 && resp.data.selectionId == newId
      && resp.data.price == ResolveSelection(root, req.journeyKey, req.flightId, req.fareId).value.1.price.pricePerAdult
  {
  }
}
