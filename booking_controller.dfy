/** The book controller: checks the request's fields, calls the booking service,
    classifies its errors by their message and shapes the confirmation. */
module BookingController {
  import opened Outcomes
  import opened Text
  import opened FlightTypes
  import opened SelectionModel
  import opened BookingModel
  import opened BookingService
  import opened Http

  const MissingBookFieldsMessage := "selectionId, travellers, contactInfo (email + phone) are required"

  /** The request body; absent strings are "", an absent travellers list is []. */
  datatype BookRequest = BookRequest(
    selectionId: string,
    travellers: seq<Traveller>,
    contactInfo: Option<ContactInfo>)

  /** The data of a successful book response. */
  datatype BookConfirmation = BookConfirmation(
    bookingId: string,
    status: BookingStatus,
    from: string,
    to: string,
    departure: string,
    arrival: string,
    airlines: seq<string>,
    stops: int,
    totalPrice: string,
    travellers: seq<Traveller>,
    contactInfo: ContactInfo,
    createdAt: int)

  /** A falsy selection id, no travellers, or a contact without email or phone. */
  predicate MissingBookField(req: BookRequest)
  {
    || req.selectionId == ""
    || |req.travellers| == 0
    || req.contactInfo.None?
    || req.contactInfo.value.email == ""
    || req.contactInfo.value.phone == ""
  }

  /** `error.message.includes("not found") ? 404 : 500`. */
  function ErrorStatus(message: string): (status: int)
    ensures status == 404 <==> exists i :: OccursAt(message, "not found", i)
    ensures status == 404 || status == 500
  {
    ContainsAt(message, "not found");
    if Contains(message, "not found") then 404 else 500
  }

  /** The confirmation built from a stored booking, or None when its snapshot
      has no legs (reading `flights[0].departureAirport` throws). */
  function Confirmation(b: Booking): (r: Option<BookConfirmation>)
    ensures r.None? <==> b.selectedFlight.flights == []
    ensures r.Some? ==>
      var legs := b.selectedFlight.flights;
      && r.value.bookingId == b.bookingId
      && r.value.status == b.status
      && r.value.from == legs[0].departureAirport.code
      && r.value.departure == legs[0].departureAirport.time
      && r.value.to == legs[|legs| - 1].arrivalAirport.code
      && r.value.arrival == legs[|legs| - 1].arrivalAirport.time
      && r.value.airlines == b.selectedFlight.otherDetails.airline
      && r.value.stops == b.selectedFlight.otherDetails.totalStops
      && r.value.totalPrice == b.totalPrice
      && r.value.travellers == b.travellers
      && r.value.contactInfo == b.contactInfo
      && r.value.createdAt == b.createdAt
  {
    var legs := b.selectedFlight.flights;
    if legs == [] then None
    else
      Some(BookConfirmation(
        b.bookingId, b.status,
        legs[0].departureAirport.code, legs[|legs| - 1].arrivalAirport.code,
        legs[0].departureAirport.time, legs[|legs| - 1].arrivalAirport.time,
        b.selectedFlight.otherDetails.airline, b.selectedFlight.otherDetails.totalStops,
        b.totalPrice, b.travellers, b.contactInfo, b.createdAt))
  }

  /** The response for the service's outcome; a throw while building the
      confirmation is caught by the same handler. */
  function BookResponse(outcome: Result<Booking>): (resp: Response<BookConfirmation>)
    ensures outcome.Failure? ==> resp == Fail(ErrorStatus(outcome.error), outcome.error)
    ensures resp.Ok? <==> outcome.Success? && outcome.value.selectedFlight.flights != []
    ensures resp.Ok? ==> resp.status == 201 && Some(resp.data) == Confirmation(outcome.value)
    ensures resp.Fail? ==> resp.status == ErrorStatus(resp.message)
  {
    match outcome
    case Failure(message) => Fail(ErrorStatus(message), message)
    case Success(booking) =>
      match Confirmation(booking)
      case None => Fail(ErrorStatus(MissingLegMessage), MissingLegMessage)
      case Some(confirmation) => Ok(201, confirmation)
  }

  /** The service input the controller forwards. */
  function ServiceInput(req: BookRequest): CreateBookingInput
    requires req.contactInfo.Some?
  {
    CreateBookingInput(req.selectionId, req.travellers, req.contactInfo.value)
  }

  /** The selection-not-found message is answered 404; the invalid-id, schema,
      duplicate-key and missing-leg messages are answered 500. */
  lemma ErrorStatuses()
    ensures ErrorStatus(SelectionNotFoundMessage) == 404
    ensures ErrorStatus(InvalidSelectionIdMessage) == 500
    ensures ErrorStatus(BookingValidationMessage) == 500
    ensures ErrorStatus(DuplicateBookingIdMessage) == 500
    ensures ErrorStatus(MissingLegMessage) == 500
  {
    assert ErrorStatus(SelectionNotFoundMessage) == 404 by { NotFoundOccurs(); }
    assert ErrorStatus(InvalidSelectionIdMessage) == 500 by { InvalidIdNotNotFound(); }
    assert ErrorStatus(BookingValidationMessage) == 500 by { ValidationNotNotFound(); }
    assert ErrorStatus(DuplicateBookingIdMessage) == 500 by { DuplicateNotNotFound(); }
    assert ErrorStatus(MissingLegMessage) == 500 by { MissingLegNotNotFound(); }
  }

  /** A failed validation with no rejected enum value is answered 500. */
  lemma ValidationStatusPlain(b: Booking)
    requires AllRejectedValues(b.travellers) == []
    ensures ErrorStatus(ValidationMessage(b)) == 500
  {
    assert ValidationMessage(b) == BookingValidationMessage + "";
    assert BookingValidationMessage + "" == BookingValidationMessage;
    ValidationNotNotFound();
  }

  /** A failed validation whose rejected enum value contains "not found" is
      answered 404: Mongoose quotes that value in its message. */
  lemma ValidationStatusQuoted(b: Booking, i: nat, e: (string, string))
    requires i < |b.travellers| && e in RejectedValues(b.travellers[i])
    requires Contains(e.1, "not found")
    ensures ErrorStatus(ValidationMessage(b)) == 404
  {
    ValidationMessageQuotes(b, i, e, "not found");
  }

  lemma InvalidIdNotNotFound()
    ensures !Contains(InvalidSelectionIdMessage, "not found")
  {
    NotFoundLetters();
    assert 'u' !in InvalidSelectionIdMessage;
    NotContainsByChar(InvalidSelectionIdMessage, "not found", 6);
  }

  lemma ValidationNotNotFound()
    ensures !Contains(BookingValidationMessage, "not found")
  {
    NotFoundLetters();
    assert 'u' !in BookingValidationMessage;
    NotContainsByChar(BookingValidationMessage, "not found", 6);
  }

  lemma DuplicateNotNotFound()
    ensures !Contains(DuplicateBookingIdMessage, "not found")
  {
    NotFoundLetters();
    assert 'f' !in DuplicateBookingIdMessage;
    NotContainsByChar(DuplicateBookingIdMessage, "not found", 4);
  }

  lemma NotFoundOccurs()
    ensures OccursAt(SelectionNotFoundMessage, "not found", 10)
  {
    var x, y := "Selection ", ". Please select a flight first.";
    assert (x + "not found" + y)[|x|..|x| + 9] == "not found";
  }

  lemma MissingLegNotNotFound()
    ensures !Contains(MissingLegMessage, "not found")
  {
    var z := "ined (reading 'departureAirport')";
    NotFoundLetters();
    assert 'f' !in z && 'f' !in " unde";
    assert 'f' !in "Cannot read properties o";
    NotContainsByChar(z, "not found", 4);
    NotContainsAcross(" unde", z, "not found", 4);
    NotContainsAcross("Cannot read properties o", " unde" + "f" + z, "not found", 4);
  }

  lemma NotFoundLetters()
    ensures "not found"[4] == 'f' && 'f' !in "not found"[..4] && "not found"[6] == 'u'
  {
  }

  /** A well-formed request gets: 500 for an id that is not an ObjectId (not
      400), 404 for an id with no stored selection, and 201 with the booking's
      confirmation on success. */
  lemma BookStatusByCause(selections: map<string, Selection>, existing: seq<Booking>,
                          req: BookRequest, now: nat, random36: string)
    requires !MissingBookField(req)
    ensures var resp := BookResponse(BookingOutcome(selections, existing, ServiceInput(req), now, random36));
      && (!IsObjectId(req.selectionId) ==> resp == Fail(500, InvalidSelectionIdMessage))
      && (IsObjectId(req.selectionId) && req.selectionId !in selections ==>
            resp == Fail(404, SelectionNotFoundMessage))
  {
    ErrorStatuses();
  }

  /** `book`: a request missing a field gets 400 and reaches no service;
      otherwise the service's outcome decides the response. The selection store
      is never written. */
  method Book(selections: SelectionStore, store: BookingStore, req: BookRequest,
              now: nat, random36: string)
    returns (resp: Response<BookConfirmation>)
    requires selections.Valid() && store.Valid()
    modifies store
    ensures store.Valid()
    ensures selections.records == old(selections.records)
    ensures MissingBookField(req) ==>
      resp == Fail(400, MissingBookFieldsMessage) && store.bookings == old(store.bookings)
    ensures !MissingBookField(req) ==>
      resp == BookResponse(BookingOutcome(selections.records, old(store.bookings), ServiceInput(req), now, random36))
    ensures !MissingBookField(req) ==>
      var outcome := BookingOutcome(selections.records, old(store.bookings), ServiceInput(req), now, random36);
      && (outcome.Success? ==> store.bookings == old(store.bookings) + [outcome.value])
      && (outcome.Failure? ==> store.bookings == old(store.bookings))
  {
    if MissingBookField(req) {
      return Fail(400, MissingBookFieldsMessage);
    }
    var outcome := CreateBooking(selections, store, ServiceInput(req), now, random36);
    resp := BookResponse(outcome);
  }
}
