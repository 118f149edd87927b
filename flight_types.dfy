/** The records of the flight inventory and of the search result: the raw
    inventory document as the server reads it (journeys, sectors, flight options
    with legs, other details and fares) and the flat flight option it is
    normalised into. */
module FlightTypes {
  import opened Outcomes
  import opened JsObject

  /** The message of the TypeError thrown where code reads `flights[0].departureAirport`
      of an option that has no legs, written as the pieces around its two 'f's. */
  const MissingLegMessage := "Cannot read properties o" + "f" + (" unde" + "f" + "ined (reading 'departureAirport')")

  datatype Airport = Airport(code: string, time: string, terminal: string)

  /** One physical flight segment of an itinerary. */
  datatype Leg = Leg(
    sequence: int,
    flightId: string,
    fltNo: string,
    airlineCode: string,
    departureAirport: Airport,
    arrivalAirport: Airport,
    durationInMin: int)

  /** `CTC` is the itinerary total and may be missing; `pricePerAdult` is per adult. */
  datatype Price = Price(ctc: Option<string>, pricePerAdult: string)

  datatype FareIdentifiers = FareIdentifiers(
    cabinType: string,
    brandName: string,
    availableSeatCount: int,
    rbd: string)

  datatype Benefit = Benefit(benefitType: string, value: string, description: string)

  datatype Fare = Fare(
    fareId: string,
    fareGroup: string,
    price: Price,
    refundable: bool,
    checkInBaggageAllowed: bool,
    fareIdentifiers: FareIdentifiers,
    benefits: seq<Benefit>)

  /** Carried by each raw option; the normaliser copies it, it does not recompute it. */
  datatype OtherDetails = OtherDetails(airline: seq<string>, totalStops: int, lowestPrice: string)

  /** One flight option of a sector group, as stored in the inventory. The field
      `flUnqiueId` keeps the inventory's own spelling. */
  datatype RawOption = RawOption(
    flUnqiueId: string,
    flights: seq<Leg>,
    otherDetails: OtherDetails,
    fares: seq<Fare>)

  /** A journey names its sector; "" stands for a missing sector. */
  datatype Journey = Journey(sector: string)

  /** The parsed inventory: `data.searchId`, `data.result.journeys` and
      `data.result.sectors`, where each sector group maps flight ids to options. */
  datatype Inventory = Inventory(
    searchId: string,
    journeys: Dict<Journey>,
    sectors: Dict<Dict<RawOption>>)

  /** The flat, UI-ready projection of a raw option. */
  datatype FlightOption = FlightOption(
    flightId: string,
    sectorKey: string,
    from: string,
    to: string,
    departure: string,
    arrival: string,
    totalDuration: int,
    stops: int,
    airlines: seq<string>,
    legs: seq<Leg>,
    fares: seq<Fare>,
    lowestPrice: string)

  /** Normalised options per journey key, in the inventory's journey order. */
  datatype SearchResult = SearchResult(searchId: string, journeys: Dict<seq<FlightOption>>)
}
