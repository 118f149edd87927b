/** The Booking collection: the traveller and booking schemas as validity
    predicates, and the store whose unique index on `bookingId` keeps booking
    ids distinct. */
module BookingModel {
  import opened Outcomes
  import opened FlightTypes
  import opened Text

  /** A traveller as the request supplies it; absent strings are "", an
      omitted passport field is None. */
  datatype Traveller = Traveller(
    paxType: string,
    title: string,
    firstName: string,
    lastName: string,
    dateOfBirth: string,
    gender: string,
    passportNumber: Option<string>,
    passportExpiry: Option<string>,
    nationality: string)

  datatype ContactInfo = ContactInfo(email: string, phone: string)

  datatype BookingStatus = CONFIRMED | CANCELLED

  datatype Booking = Booking(
    bookingId: string,
    selectionId: string,
    searchId: string,
    selectedFlight: RawOption,
    selectedFare: Fare,
    travellers: seq<Traveller>,
    contactInfo: ContactInfo,
    status: BookingStatus,
    totalPrice: string,
    createdAt: int)

  /** The start of the message Mongoose gives a failed BookingSchema validation. */
  const BookingValidationMessage := "Booking validation failed"
  const DuplicateBookingIdMessage := "E11000 duplicate key error"

  /** The passport fields' `default: ""`: an omitted field is stored as "". */
  function WithDefaults(t: Traveller): (r: Traveller)
    ensures r.passportNumber.Some? && r.passportExpiry.Some?
    ensures t.passportNumber.Some? ==> r.passportNumber == t.passportNumber
    ensures t.passportExpiry.Some? ==> r.passportExpiry == t.passportExpiry
    ensures t.passportNumber.None? ==> r.passportNumber == Some("")
    ensures t.passportExpiry.None? ==> r.passportExpiry == Some("")
    ensures r.(passportNumber := t.passportNumber, passportExpiry := t.passportExpiry) == t
  {
    t.(passportNumber := Some(t.passportNumber.GetOr("")),
       passportExpiry := Some(t.passportExpiry.GetOr("")))
  }

  function AllWithDefaults(ts: seq<Traveller>): (r: seq<Traveller>)
    ensures |r| == |ts| && forall i :: 0 <= i < |ts| ==> r[i] == WithDefaults(ts[i])
  {
    seq(|ts|, i requires 0 <= i < |ts| => WithDefaults(ts[i]))
  }

  /** Applying the defaults twice changes nothing more. */
  lemma WithDefaultsIdempotent(t: Traveller)
    ensures WithDefaults(WithDefaults(t)) == WithDefaults(t)
  {
  }

  /** TravellerSchema: `type` and `gender` are required enums, the name, title,
      date of birth and nationality are required (a required string rejects ""),
      the passport fields are optional. */
  predicate TravellerValid(t: Traveller)
  {
    && t.paxType in {"ADT", "CHD", "INF"}
    && t.title != ""
    && t.firstName != ""
    && t.lastName != ""
    && t.dateOfBirth != ""
    && t.gender in {"M", "F", "U"}
    && t.nationality != ""
  }

  /** BookingSchema: every required path is present; `status` is an enum value
      by construction of BookingStatus. */
  predicate BookingValid(b: Booking)
  {
    && b.bookingId != ""
    && b.selectionId != ""
    && b.searchId != ""
    && (forall i :: 0 <= i < |b.travellers| ==> TravellerValid(b.travellers[i]))
    && b.contactInfo.email != ""
    && b.contactInfo.phone != ""
    && b.totalPrice != ""
  }

  predicate UniqueBookingIds(bookings: seq<Booking>)
  {
    forall i, j :: 0 <= i < j < |bookings| ==> bookings[i].bookingId != bookings[j].bookingId
  }

  function BookingIds(bookings: seq<Booking>): (ids: set<string>)
    ensures forall i :: 0 <= i < |bookings| ==> bookings[i].bookingId in ids
    ensures forall id :: id in ids ==> exists i :: 0 <= i < |bookings| && bookings[i].bookingId == id
  {
    set i | 0 <= i < |bookings| :: bookings[i].bookingId
  }

  /** The invariant of the collection: every stored booking passed validation
      and no two share a booking id. */
  predicate StoreInvariant(bookings: seq<Booking>)
  {
    (forall i :: 0 <= i < |bookings| ==> BookingValid(bookings[i])) && UniqueBookingIds(bookings)
  }

  /** The enum errors of a traveller, as (path, rejected value): its type, then
      its gender, when the value is non-empty and outside the enum. An empty
      value fails `required` instead, whose message quotes no value. */
  function RejectedValues(t: Traveller): seq<(string, string)>
  {
    (if t.paxType != "" && t.paxType !in {"ADT", "CHD", "INF"} then [("type", t.paxType)] else [])
    + (if t.gender != "" && t.gender !in {"M", "F", "U"} then [("gender", t.gender)] else [])
  }

  /** The enum errors of all travellers, in traveller order. */
  function AllRejectedValues(ts: seq<Traveller>): seq<(string, string)>
    decreases |ts|
  {
    if ts == [] then [] else AllRejectedValues(ts[..|ts| - 1]) + RejectedValues(ts[|ts| - 1])
  }

  /** Mongoose's enum error text, which quotes the rejected value. */
  function EnumErrorText(e: (string, string)): string
  {
    EnumErrorOpen + e.1 + EnumErrorMiddle + e.0 + EnumErrorClose
  }

  const EnumErrorOpen := ": `"
  const EnumErrorMiddle := "` is not a valid enum value for path `"
  const EnumErrorClose := "`."

  function EnumErrorsText(es: seq<(string, string)>): string
    decreases |es|
  {
    if es == [] then "" else EnumErrorsText(es[..|es| - 1]) + EnumErrorText(es[|es| - 1])
  }

  /** The message of a failed validation: the fixed start, then every enum
      error with the value it rejected. */
  function ValidationMessage(b: Booking): string
  {
    BookingValidationMessage + EnumErrorsText(AllRejectedValues(b.travellers))
  }

  /** Every rejected value is quoted in the message text of the errors: the
      text is `x + es[i].1 + y` for the returned `x` and `y`. */
  lemma {:induction false} EnumErrorsTextQuotes(es: seq<(string, string)>, i: nat) returns (x: string, y: string)
    requires i < |es|
    ensures EnumErrorsText(es) == x + es[i].1 + y
    decreases |es|
  {
    var n := |es| - 1;
    assert EnumErrorsText(es) == EnumErrorsText(es[..n]) + EnumErrorText(es[n]);
    if i < n {
      var x', y' := EnumErrorsTextQuotes(es[..n], i);
      assert es[..n][i] == es[i];
      x, y := x', y' + EnumErrorText(es[n]);
    } else {
      x := EnumErrorsText(es[..n]) + EnumErrorOpen;
      y := EnumErrorMiddle + es[n].0 + EnumErrorClose;
    }
  }

  /** A traveller's enum errors are among the booking's. */
  lemma {:induction false} AllRejectedValuesHas(ts: seq<Traveller>, i: nat, e: (string, string))
    requires i < |ts| && e in RejectedValues(ts[i])
    ensures e in AllRejectedValues(ts)
    decreases |ts|
  {
    var n := |ts| - 1;
    if i < n {
      AllRejectedValuesHas(ts[..n], i, e);
    }
  }

  /** The validation message quotes every rejected value, so whatever text the
      value contains, the message contains too. */
  lemma ValidationMessageQuotes(b: Booking, i: nat, e: (string, string), sub: string)
    requires i < |b.travellers| && e in RejectedValues(b.travellers[i])
    requires Contains(e.1, sub)
    ensures Contains(ValidationMessage(b), sub)
  {
    var es := AllRejectedValues(b.travellers);
    AllRejectedValuesHas(b.travellers, i, e);
    var k :| 0 <= k < |es| && es[k] == e;
    var x, y := EnumErrorsTextQuotes(es, k);
    assert ValidationMessage(b) == (BookingValidationMessage + x) + e.1 + y;
    ContainsInfix(BookingValidationMessage + x, e.1, y, sub);
  }

  /** A valid traveller has no enum error. */
  lemma ValidHasNoRejected(t: Traveller)
    requires TravellerValid(t)
    ensures RejectedValues(t) == []
  {
  }

  /** `Booking.create`: schema validation first, then the unique index. */
  function CreateOutcome(existing: seq<Booking>, b: Booking): (r: Result<Booking>)
    ensures r.Success? <==> BookingValid(b) && b.bookingId !in BookingIds(existing)
    ensures r.Success? ==> r.value == b
    ensures !BookingValid(b) ==> r == Failure(ValidationMessage(b))
    ensures BookingValid(b) && r.Failure? ==> r.error == DuplicateBookingIdMessage
  {
    if !BookingValid(b) then Failure(ValidationMessage(b))
    else if b.bookingId in BookingIds(existing) then Failure(DuplicateBookingIdMessage)
    else Success(b)
  }

  /** An accepted booking keeps the collection's invariant. */
  lemma CreatePreservesInvariant(existing: seq<Booking>, b: Booking)
    requires StoreInvariant(existing)
    requires CreateOutcome(existing, b).Success?
    ensures StoreInvariant(existing + [b])
  {
    var s := existing + [b];
    forall i, j | 0 <= i < j < |s|
      ensures s[i].bookingId != s[j].bookingId
    {
      if j == |existing| {
        assert s[i] == existing[i];
      }
    }
  }

  /** A booking that repeats a stored booking id is refused with the
      duplicate-key error. */
  lemma DuplicateIdRefused(existing: seq<Booking>, b: Booking, i: nat)
    requires BookingValid(b)
    requires i < |existing| && existing[i].bookingId == b.bookingId
    ensures CreateOutcome(existing, b) == Failure(DuplicateBookingIdMessage)
  {
  }

  /** A traveller without a gender fails validation, and so does any booking
      that carries one. */
  lemma GenderRequired(existing: seq<Booking>, b: Booking, i: nat)
    requires i < |b.travellers| && b.travellers[i].gender == ""
    ensures !TravellerValid(b.travellers[i])
    ensures CreateOutcome(existing, b) == Failure(ValidationMessage(b))
  {
  }

  /** The booking collection. */
  class BookingStore {
    var bookings: seq<Booking>

    ghost predicate Valid()
      reads this
    {
      StoreInvariant(bookings)
    }

    constructor ()
      ensures Valid() && bookings == []
    {
      bookings := [];
    }

    /** Insert `b` when it validates and its booking id is new. */
    method Create(b: Booking) returns (r: Result<Booking>)
      requires Valid()
      modifies this
      ensures Valid()
      ensures r == CreateOutcome(old(bookings), b)
      ensures r.Success? ==> bookings == old(bookings) + [b]
      ensures r.Failure? ==> bookings == old(bookings)
    {
      r := CreateOutcome(bookings, b);
      if r.Success? {
        CreatePreservesInvariant(bookings, b);
        bookings := bookings + [b];
      }
    }
  }
}
