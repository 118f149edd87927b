/** `createBooking`: check the selection id, look the selection up, default the
    price and store a CONFIRMED booking that copies the selection's snapshot. */
module BookingService {
  import opened Outcomes
  import opened FlightTypes
  import opened SelectionModel
  import opened BookingModel
  import opened BookingId

  datatype CreateBookingInput = CreateBookingInput(
    selectionId: string,
    travellers: seq<Traveller>,
    contactInfo: ContactInfo)

  const InvalidSelectionIdMessage := "Invalid selectionId"
  /** Written around its "not found", which the book controller looks for. */
  const SelectionNotFoundMessage := "Selection " + "not found" + ". Please select a flight first."

  /** `fare?.price?.CTC ?? "0"`: the total when the fare carries one (even ""),
      "0" when it does not. */
  function TotalPrice(fare: Fare): (p: string)
    ensures fare.price.ctc.Some? ==> p == fare.price.ctc.value
    ensures fare.price.ctc.None? ==> p == "0"
  {
    fare.price.ctc.GetOr("0")
  }

  /** The total never depends on the per-adult price. */
  lemma TotalPriceIgnoresPerAdult(fare: Fare, perAdult: string)
    ensures TotalPrice(fare.(price := fare.price.(pricePerAdult := perAdult))) == TotalPrice(fare)
  {
  }

  /** The booking built from a found selection. */
  function NewBooking(sel: Selection, input: CreateBookingInput, bookingId: string, now: int): Booking
  {
    Booking(bookingId, sel.id, sel.searchId, sel.selectedFlight, sel.selectedFare,
            AllWithDefaults(input.travellers), input.contactInfo, CONFIRMED,
            TotalPrice(sel.selectedFare), now)
  }

  /** What `createBooking` returns or throws, given the stored selections and
      bookings, the clock and the random base-36 string. */
  function BookingOutcome(selections: map<string, Selection>, existing: seq<Booking>,
                          input: CreateBookingInput, now: nat, random36: string): Result<Booking>
  {
    if !IsObjectId(input.selectionId) then Failure(InvalidSelectionIdMessage)
    else if input.selectionId !in selections then Failure(SelectionNotFoundMessage)
    else
      CreateOutcome(existing, NewBooking(selections[input.selectionId], input, GenerateBookingId(now, random36), now))
  }

  /** The two errors of the service's own checks, in order. */
  lemma BookingOutcomeErrors(selections: map<string, Selection>, existing: seq<Booking>,
                             input: CreateBookingInput, now: nat, random36: string)
    ensures !IsObjectId(input.selectionId) ==>
      BookingOutcome(selections, existing, input, now, random36) == Failure(InvalidSelectionIdMessage)
    ensures IsObjectId(input.selectionId) && input.selectionId !in selections ==>
      BookingOutcome(selections, existing, input, now, random36) == Failure(SelectionNotFoundMessage)
  {
  }

  /** A successful booking references the selection, copies its search id and
      both snapshots, stores the travellers (with passport defaults) and the
      contact details as given, is CONFIRMED, and is priced at the fare's CTC or
      "0" - never at the per-adult price. */
  lemma BookingOutcomeRecord(selections: map<string, Selection>, existing: seq<Booking>,
                             input: CreateBookingInput, now: nat, random36: string)
    requires forall id :: id in selections ==> selections[id].id == id
    requires BookingOutcome(selections, existing, input, now, random36).Success?
    ensures var b := BookingOutcome(selections, existing, input, now, random36).value;
      && input.selectionId in selections
      && var sel := selections[input.selectionId];
      && b.selectionId == input.selectionId
      && b.searchId == sel.searchId
      && b.selectedFlight == sel.selectedFlight
      && b.selectedFare == sel.selectedFare
      && b.travellers == AllWithDefaults(input.travellers)
      && b.contactInfo == input.contactInfo
      && b.status == CONFIRMED
      && b.totalPrice == sel.selectedFare.price.ctc.GetOr("0")
      && b.bookingId == GenerateBookingId(now, random36)
      && b.bookingId !in BookingIds(existing)
  {
  }

  /** Exactly when a booking is created: a valid, stored selection id, travellers
      and contact details that pass the schema, a CTC that is not "", and a
      booking id not already taken. */
  lemma BookingOutcomeSucceeds(selections: map<string, Selection>, existing: seq<Booking>,
                               input: CreateBookingInput, now: nat, random36: string)
    requires forall id :: id in selections ==> IsObjectId(id) && selections[id].id == id && SelectionValid(selections[id])
    ensures BookingOutcome(selections, existing, input, now, random36).Success? <==>
      && input.selectionId in selections
      && (forall i :: 0 <= i < |input.travellers| ==> TravellerValid(input.travellers[i]))
      && input.contactInfo.email != "" && input.contactInfo.phone != ""
      && TotalPrice(selections[input.selectionId].selectedFare) != ""
      && GenerateBookingId(now, random36) !in BookingIds(existing)
  {
    if input.selectionId in selections {
      var b := NewBooking(selections[input.selectionId], input, GenerateBookingId(now, random36), now);
      assert (forall i :: 0 <= i < |b.travellers| ==> TravellerValid(b.travellers[i])) <==>
             (forall i :: 0 <= i < |input.travellers| ==> TravellerValid(input.travellers[i]));
    }
  }

  /** A second booking made with the same clock reading and random string as a
      stored one repeats its booking id and is refused. */
  lemma SameIdTwiceRefused(selections: map<string, Selection>, existing: seq<Booking>,
                           input: CreateBookingInput, input': CreateBookingInput, now: nat, random36: string)
    requires BookingOutcome(selections, existing, input, now, random36).Success?
    ensures
      var first := BookingOutcome(selections, existing, input, now, random36).value;
      BookingOutcome(selections, existing + [first], input', now, random36).Failure?
  {
    var first := BookingOutcome(selections, existing, input, now, random36).value;
    assert (existing + [first])[|existing|] == first;
  }

  /** `createBooking`: the selection store is only read; on every error no
      booking is added, on success exactly one. */
  method CreateBooking(selections: SelectionStore, store: BookingStore,
                       input: CreateBookingInput, now: nat, random36: string)
    returns (r: Result<Booking>)
    requires selections.Valid() && store.Valid()
    modifies store
    ensures store.Valid()
    ensures selections.records == old(selections.records)
    ensures r == BookingOutcome(selections.records, old(store.bookings), input, now, random36)
    ensures r.Success? ==> store.bookings == old(store.bookings) + [r.value]
    ensures r.Failure? ==> store.bookings == old(store.bookings)
  {
    if !IsObjectId(input.selectionId) {
      return Failure(InvalidSelectionIdMessage);
    }
    var found := selections.FindById(input.selectionId);
    if found.None? {
      return Failure(SelectionNotFoundMessage);
    }
    var booking := NewBooking(found.value, input, GenerateBookingId(now, random36), now);
    r := store.Create(booking);
  }
}
