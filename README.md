# Flight search and booking: a Dafny model

This project models the server side of a flight search-and-booking system and the small
pure helpers of its web client. The three server steps are covered:

- **Search.** The search service flattens a raw flight inventory (journeys, each pointing at a
  sector group of raw flight options) into per-journey lists of flight options.
- **Select.** The flight service resolves a (journey, flight, fare) choice against the same
  inventory and stores it as a Selection.
- **Book.** The booking service turns a stored Selection into a CONFIRMED Booking under a
  generated booking reference.

Both controllers are modelled as pure functions from the service's outcome to a response. The
records are modelled as schema validators, and the booking store keeps booking ids unique. On
the client side the model covers the flight card's labels and fare-selection state, the search
form's filter updates and sliders, and the flights page's header parsing, journey tabs and
search state.

Modelling conventions:

- **JavaScript objects** are ordered association lists (`JsObject.Dict`). The order is the
  enumeration order, `obj[k]` finds the first entry with key `k`, and assignment replaces an
  entry in place or appends a new one.
- **Absent or falsy strings** are `""`. An optional value is an `Option`.
- **Thrown errors** are the `Failure` case of a `Result` carrying the error message.
- **Class-based state.** Module-level state and database collections that the source updates
  in place are Dafny classes whose methods declare `modifies`. This covers the inventory cache,
  the Selection and Booking collections, the flight card state and the flights page state.
- **Inputs supplied from outside** are parameters: the parsed inventory file, the new ObjectId,
  the clock, the base-36 random string, the locale month name and HTTP outcomes.
- **Methods against specification functions.** Each method is proved against a function:
  - `BuildSearchResult` against `SearchSpec`;
  - `SelectFlight` against `SelectOutcome`;
  - `CreateBooking` against `BookingOutcome`;
  - the controllers against `SelectResponse` and `BookResponse`.

  The lemmas then state what those functions promise.

Where the code and its design notes disagree, the model follows the code:

- `stops` and `lowestPrice` are copied from the option's `otherDetails`. They are not computed
  from the legs or the fares.
- A select request with a missing field is answered 400, not 404.
- An invalid selection id on booking is answered 500, not 400. The error message has no
  "not found" in it.
- The random part of a booking id can be shorter than four characters.
- The traveller type enum is `ADT`/`CHD`/`INF`.

## Model

| member | source | states |
|---|---|---|
| InventoryLoader.InventoryCache.GetFlightData | server/src/services/search.service.ts:8-15 | the first call loads the given file; once filled, the cache returns the same inventory and is never reloaded |
| JsObject.Get | server/src/services/search.service.ts:26 | an object lookup finds a value exactly when the key is present, and the value is that of the first entry with the key |
| JsObject.GetPut | server/src/services/search.service.ts:57 | after `obj[k] = v`, reading `k` gives `v` and every other key reads as before |
| SearchService.SumDurationsAppend | server/src/services/search.service.ts:35-38 | the reduce from 0 adds up leg minutes: the total of two leg lists is the sum of their totals |
| SearchService.SumDurationsBounds | server/src/services/search.service.ts:35-38 | with non-negative leg minutes, the total is non-negative and at least every single leg |
| SearchService.NormalizeOption | server/src/services/search.service.ts:31-53 | an option with no legs throws; otherwise from/departure come from the first leg, to/arrival from the last, totalDuration is the leg sum, stops/airlines/lowestPrice are copied from otherDetails, and legs/fares pass through |
| SearchService.StopsNotDerivedFromLegs | server/src/services/search.service.ts:48 | stops is not the leg count minus one: an option exists whose normalized stops differ from it |
| SearchService.NormalizeGroup | server/src/services/search.service.ts:30-55 | a sector group maps to one flight option per raw option, in enumeration order, unless some option has no legs |
| SearchService.JourneyResultsFailure | server/src/services/search.service.ts:24-58 | the search throws exactly when some journey with a sector group holds an option without legs, and it throws the TypeError message |
| SearchService.JourneyResultsKeys | server/src/services/search.service.ts:24-28 | the result's keys are the journey keys whose sector group exists, in journey order; journeys without a group are skipped without error |
| SearchService.JourneyResultsGet | server/src/services/search.service.ts:24-57 | each journey key reads the normalized options of its sector group, and a journey without a group reads nothing |
| SearchService.SearchResultShape | server/src/services/search.service.ts:17-61 | the result carries the inventory's searchId, the journeys with a sector group, and each journey's normalized options |
| SearchService.BuildSearchResult | server/src/services/search.service.ts:22-60 | the loop that fills the journey dictionary computes exactly the search specification |
| SearchService.SearchFlights | server/src/services/search.service.ts:17-61 | a search fills the cache once and returns the search specification of the cached inventory |
| SelectionModel.SelectionStore.Create | server/src/models/selection.model.ts:11-19 | a selection is stored under its fresh id exactly when searchId and journeyKey are non-empty, with the creation time; otherwise the store is unchanged; nothing is unique; afterwards findById on the new id gives back the new record and every other id reads as before |
| SelectionModel.SelectionStore.FindById | server/src/services/booking.service.ts:19 | a lookup finds a record exactly when the id is stored; in a valid store the record found carries the id looked up, that id is an ObjectId, and the record passes the schema |
| FlightService.FindFare | server/src/services/flight.service.ts:38 | fares.find returns a fare exactly when one has the requested fareId, and it is the first such fare |
| FlightService.ResolveSelection | server/src/services/flight.service.ts:29-39 | on success, the option is the flight stored under flightId in the journey's sector group, and the fare is the first of its fares with the fareId |
| FlightService.ResolveSelectionErrors | server/src/services/flight.service.ts:29-39 | an unknown journey key or a journey without sector fails with the journey message, then a missing sector group, then a missing flight, then a missing fare, each with its own message and only the first failure reported |
| FlightService.ResolveSelectionSucceeds | server/src/services/flight.service.ts:29-39 | when the journey, sector group, flight and fare all exist, resolution succeeds with that option |
| FlightService.SelectOutcomeRecord | server/src/services/flight.service.ts:41-46 | a successful select stores the request's searchId and journeyKey unchanged, never compared with the inventory's, plus the raw option found under flightId and a fare from it with the requested fareId |
| FlightService.SelectFlight | server/src/services/flight.service.ts:23-49 | select resolves against the cached inventory; every error leaves the selection store unchanged, and success adds exactly one record under the new id |
| FlightController.SelectionSummary | server/src/controllers/flight.controller.ts:20-33 | the summary's from/departure come from the snapshot's first leg, to/arrival from its last, airlines/stops from otherDetails, price is the fare's pricePerAdult and brandName its brand; no legs means a throw |
| FlightController.SelectResponse | server/src/controllers/flight.controller.ts:15-36 | every service error is 404 with its message; a stored selection whose snapshot has no legs is 404 with the TypeError message; otherwise 201 with exactly the summary of the stored record, whose selectionId is its id |
| FlightController.Select | server/src/controllers/flight.controller.ts:4-37 | a request missing any of searchId, journeyKey, flightId or fareId gets 400 with the fixed message and touches no state; otherwise the cache is filled from the file only if it was empty and kept as it was otherwise, the response is that of the service outcome on the cached inventory, the store gains exactly the new record on success, and a service error leaves it unchanged |
| FlightController.SelectHappyPath | server/src/controllers/flight.controller.ts:20-33 | a complete request naming an existing journey, flight and fare is answered 201 with the new id and the fare's per-adult price |
| BookingModel.WithDefaults | server/src/models/booking.model.ts:40-41 | an omitted passport number or expiry is stored as "", and a given one is kept; no other field changes |
| BookingModel.CreateOutcome | server/src/models/booking.model.ts:33-61 | Booking.create succeeds exactly when the booking passes the schema and its bookingId is not yet stored; a schema failure is reported before the unique index is consulted, with a message that quotes every rejected enum value; a valid booking fails only with the duplicate-key error |
| BookingModel.ValidationMessageQuotes | server/src/models/booking.model.ts:34-39 | every text contained in a traveller type or gender that the enum rejects is contained in the validation message |
| BookingModel.CreatePreservesInvariant | server/src/models/booking.model.ts:47 | an accepted booking keeps every stored booking valid and all bookingIds distinct |
| BookingModel.DuplicateIdRefused | server/src/models/booking.model.ts:47 | a valid booking that repeats a stored bookingId fails with the duplicate-key error |
| BookingModel.GenderRequired | server/src/models/booking.model.ts:39 | a traveller without gender is invalid, so a booking that carries one is refused with the validation message |
| BookingModel.BookingStore.Create | server/src/models/booking.model.ts:45-61 | the store appends exactly the accepted bookings and keeps its invariant |
| BookingId.TimestampPart | server/src/utils/generateBookingId.ts:4 | the timestamp part is the last eight decimal digits of the clock, or all of them when there are fewer than eight |
| BookingId.RandomPart | server/src/utils/generateBookingId.ts:5 | the random part is the upper-cased characters 2 to 5 of the base-36 string, fewer when it is short |
| BookingId.GenerateBookingId | server/src/utils/generateBookingId.ts:3-7 | the id starts with "BK-", has a hyphen after the timestamp part, and is between 5 and 16 characters long |
| BookingId.RandomPartChars | server/src/utils/generateBookingId.ts:5 | every random-part character is a digit or an upper-case letter |
| BookingId.TimestampEightDigits | server/src/utils/generateBookingId.ts:4 | from a clock of 10^7 on, the timestamp part has exactly eight digits |
| BookingId.BookingIdFields | server/src/utils/generateBookingId.ts:6 | splitting an id on "-" gives exactly "BK", the timestamp part and the random part |
| BookingId.BookingIdHyphens | server/src/utils/generateBookingId.ts:6 | an id contains exactly two hyphens |
| BookingId.BookingIdExample | server/src/utils/generateBookingId.ts:1-2 | clock 108729391 with random "0.x4kpq7" gives "BK-08729391-X4KP", the shape quoted in the header comment |
| BookingService.TotalPriceIgnoresPerAdult | server/src/services/booking.service.ts:24-25 | the total never depends on pricePerAdult |
| BookingService.BookingOutcomeErrors | server/src/services/booking.service.ts:15-22 | an id that is not an ObjectId fails with "Invalid selectionId" before any lookup; a valid id with no stored selection fails with the not-found message |
| BookingService.BookingOutcomeRecord | server/src/services/booking.service.ts:24-37 | a created booking references the selection, copies its searchId and both snapshots, stores travellers (with passport defaults) and contactInfo as given, is CONFIRMED, carries the CTC-or-"0" price and a bookingId not already stored |
| BookingService.BookingOutcomeSucceeds | server/src/services/booking.service.ts:12-40 | a booking is created exactly when the selection exists, every traveller and the contact details pass the schema, the price is not "", and the generated id is new; nothing compares the traveller count with the selection |
| BookingService.SameIdTwiceRefused | server/src/services/booking.service.ts:28 | booking twice with the same clock reading and random string repeats the id, and the second booking is refused |
| BookingService.CreateBooking | server/src/services/booking.service.ts:12-40 | createBooking only reads the selection store; each error leaves the bookings unchanged, and success appends exactly the created booking |
| BookingController.ErrorStatus | server/src/controllers/booking.controller.ts:37 | the status is 404 exactly when the message contains "not found" somewhere, and 500 otherwise |
| BookingController.Confirmation | server/src/controllers/booking.controller.ts:19-35 | the confirmation copies bookingId, status, totalPrice, travellers, contactInfo and createdAt from the booking, takes from/departure from the first leg, to/arrival from the last, and airlines/stops from otherDetails; no legs means a throw |
| BookingController.BookResponse | server/src/controllers/booking.controller.ts:15-39 | every service error is answered with its message and the status its message classifies to; success is 201 with the confirmation |
| BookingController.ErrorStatuses | server/src/controllers/booking.controller.ts:37 | the selection-not-found error maps to 404; the invalid-id, duplicate-key and missing-leg errors and the validation message without quoted values map to 500 |
| BookingController.ValidationStatusPlain | server/src/controllers/booking.controller.ts:37 | a schema failure that rejects no enum value is answered 500 |
| BookingController.ValidationStatusQuoted | server/src/controllers/booking.controller.ts:37 | a schema failure whose rejected type or gender contains "not found" is answered 404, because the message quotes that value |
| BookingController.BookStatusByCause | server/src/controllers/booking.controller.ts:37 | for a complete request, an id that is not an ObjectId is answered 500, not 400, and an unknown selection 404 |
| BookingController.Book | server/src/controllers/booking.controller.ts:4-40 | a missing selectionId, empty travellers, or missing email or phone gets 400 and no booking; otherwise the response is that of the service outcome, the bookings gain exactly the created booking on success and are unchanged on error, and the selection store is never written |
| Text.ContainsAt | server/src/controllers/booking.controller.ts:37 | `includes` holds exactly when the substring occurs at some position |
| FlightCard.DurationParts | client/components/FlightCard.tsx:16-18 | for non-negative minutes, h*60 + m equals the minutes and 0 <= m < 60 |
| FlightCard.FormatDurationInjective | client/components/FlightCard.tsx:16-20 | different non-negative durations render differently |
| FlightCard.FormatDurationNegative | client/components/FlightCard.tsx:17-19 | a negative duration prints a negative minute part, e.g. -30 prints "-1h -30m" |
| FlightCard.StopLabel | client/components/FlightCard.tsx:83 | the label is "Non-stop" exactly when stops is 0 |
| FlightCard.StopLabelInjective | client/components/FlightCard.tsx:83 | different stop counts get different labels |
| FlightCard.StopMarkerMatchesLabel | client/components/FlightCard.tsx:76-83 | the stop marker is drawn only under a "<n> stop" label, and for a non-negative count exactly when the label is not "Non-stop" |
| FlightCard.FlightCardState.constructor | client/components/FlightCard.tsx:26-27 | a card starts with the first fare selected and not busy; it needs at least one fare |
| FlightCard.FlightCardState.ClickFare | client/components/FlightCard.tsx:106 | clicking a fare selects it, so exactly the fares with its fareId are highlighted |
| FlightCard.FlightCardState.BeginSelect | client/components/FlightCard.tsx:30-40 | the card becomes busy and sends searchId, journeyKey, the flight's id and the selected fare's id |
| FlightCard.FlightCardState.FinishSelect | client/components/FlightCard.tsx:42-48 | the card is never busy afterwards, and the page is notified with the data only for a success response |
| SearchForm.ParseStops | client/components/SearchForm.tsx:11 | a stops value read back is one of "any", "0", "1", "2+" |
| SearchForm.StopsCodeRoundTrip | client/components/SearchForm.tsx:186-191 | each stops button value reads back as its filter |
| SearchForm.Set | client/components/SearchForm.tsx:26-27 | set gives the key the new value and leaves every other key unchanged |
| SearchForm.SetUnchanged | client/components/SearchForm.tsx:26-27 | setting a key to its current value changes nothing |
| SearchForm.PassengersDown | client/components/SearchForm.tsx:124 | the minus button never goes below 1 and otherwise subtracts one; other keys are unchanged |
| SearchForm.PassengersUp | client/components/SearchForm.tsx:132 | the plus button never goes above 9 and otherwise adds one; other keys are unchanged |
| SearchForm.PassengerStepperRange | client/components/SearchForm.tsx:124-160 | from 1..9 both buttons stay in 1..9, and inside the range they undo each other |
| SearchForm.HourDisplay | client/components/SearchForm.tsx:31 | on hours 0..23 the displayed hour is in 1..12 |
| SearchForm.FormatHourPeriod | client/components/SearchForm.tsx:30-32 | the hour label ends in "AM" exactly before noon |
| SearchForm.FormatHourMidnightNoon | client/components/SearchForm.tsx:29-33 | 0 is "12:00 AM", 12 is "12:00 PM" and 23 is "11:00 PM" |
| SearchForm.FormatHourInjective | client/components/SearchForm.tsx:29-33 | no two hours in 0..23 share a label |
| SearchForm.RangeValue | client/components/SearchForm.tsx:233-250 | a range input's value is the requested one when that lies within min..max, lies within min..max whenever min <= max, and is min when max < min |
| SearchForm.MoveStart | client/components/SearchForm.tsx:233-239 | the start slider keeps 0 <= start < end <= 23 and changes only the start |
| SearchForm.MoveEnd | client/components/SearchForm.tsx:242-248 | the end slider keeps 0 <= start < end <= 23 and changes only the end |
| SearchForm.SliderMovesKeepWindow | client/components/SearchForm.tsx:233-250 | any sequence of slider moves keeps start < end within 0..23 |
| SearchForm.PriceValue | client/components/SearchForm.tsx:213-218 | maxPrice stays in 3000..100000 on the 500 grid, within half a step of the requested value |
| SearchForm.PriceValueStable | client/components/SearchForm.tsx:213-218 | a value on the grid is kept |
| FlightsPage.ParseSearchId | client/app/flights/page.tsx:36-43 | for every id: from is the text before the first "-" (the whole id without one, so "DEL" never applies), to is the text between the first and second "-" or "DXB" without a "-", and the date is "" unless a non-empty fourth field gives "dd month yyyy" from its slices |
| FlightsPage.ParseSearchIdFields | client/app/flights/page.tsx:37-41 | for four "-"-separated fields, from and to are the first two, and a yyyymmdd 4th field shows as "dd month yyyy" |
| FlightsPage.ParseSearchIdShort | client/app/flights/page.tsx:37-41 | with two fields the date is empty and from is the first field, so the "DEL" fallback never applies |
| FlightsPage.ActiveFlights | client/app/flights/page.tsx:47 | the active list is the list under the active key, or empty when the key is absent |
| FlightsPage.ActiveFlightsAt | client/app/flights/page.tsx:47 | each journey key's active list is exactly its stored list |
| FlightsPage.CountText | client/app/flights/page.tsx:96 | the count shown reads back as the active list's length |
| FlightsPage.TabCaptions | client/app/flights/page.tsx:78-89 | when tabs are drawn (more than one journey, distinct keys), some tab reads "Return", and a tab reading "Outbound" is the only one that does |
| FlightsPage.FlightsPageState.constructor | client/app/flights/page.tsx:12-15 | the page starts with no result, not loading, no error, and journey "J1" active |
| FlightsPage.FlightsPageState.BeginSearch | client/app/flights/page.tsx:18-19 | a search starts loading and clears the error |
| FlightsPage.FlightsPageState.FinishSearch | client/app/flights/page.tsx:20-27 | a search ends with the new result, or the connection error with the old result kept; loading always ends |
| FlightsPage.FlightsPageState.HandleSearch | client/app/flights/page.tsx:17-28 | after a search, loading is false and either the result is set and the error cleared, or the error is set with the old result kept; the active journey, the stored selection and the route are untouched |
| FlightsPage.FlightsPageState.SelectJourney | client/app/flights/page.tsx:83 | clicking a tab makes its key active, and the active list becomes that journey's list; the result, loading, error, stored selection and route are untouched |
| FlightsPage.FlightsPageState.HandleFlightSelected | client/app/flights/page.tsx:30-34 | a selection stores the selection id and summary, then navigates to /traveller; the result, active journey, loading and error are untouched |

## Left out

- **Reading and parsing the inventory file.** `readFileSync` and `JSON.parse` are not
  modelled. The parsed inventory is a parameter, and the cache keeps "filled once" as state.
- **Untyped JSON values.**
  - A journey without a `sector` field is a journey whose sector is "".
  - Values of unexpected JSON types are not modelled.
- **JavaScript object quirks.** Keys inherited from `Object.prototype` (such as "toString") are
  treated as absent. The enumeration-order rule that puts integer-like keys first is not
  modelled; enumeration follows insertion order.
- **Mongoose and MongoDB.**
  - The stores are in-memory maps and sequences.
  - The fresh ObjectId is a parameter, and the model assumes it is valid and unused.
  - `ObjectId.isValid` is taken as "24 hexadecimal characters". Its 12-character string case
    is not modelled.
  - Casting and unknown-field stripping are not modelled. In particular, `findById` compares the
    id string exactly, so an upper-case spelling of a stored id is answered 404 "Selection not
    found", where the source casts it to the same ObjectId and finds the selection.
  - Traveller subdocuments carry no `_id`. The source gives each one an `_id`, which appears in
    the travellers of the 201 confirmation.
  - A validation message keeps its fixed start and the enum errors, each quoting the value it
    rejected, as Mongoose writes them. The path prefixes and the texts of `required` errors are
    dropped; they name only schema paths, which contain no "not found". The duplicate-key
    message is abbreviated to its fixed start.
- **Mongoose array `required` check.** The model does not reject an empty travellers list in
  the schema; it follows recent Mongoose, where `required` on an array does not fail on an
  empty one. The controller already rejects empty lists.
- **BookingStatus default.** The `CANCELLED` value and the `status` default are present only
  as a type. No flow omits the status or cancels a booking.
- **Express plumbing and routing.** The `req`/`res` objects are left out, and so are the
  routers, which are never mounted. The search controller, a 200/500 wrapper, is left out too.
- **Network calls.** `fetch` and the client API helpers are left out. Their outcomes are
  parameters; `None` means the request or the JSON parse threw.
- **Locale and date formatting.** `toLocaleTimeString`, `toLocaleDateString`, `toLocaleString`
  and month names are left out. The month name in `parseSearchId` is a function parameter.
- **Clock and randomness.** `Date.now` and `Math.random` are parameters. One clock value stands
  for both the booking-id timestamp and the `createdAt` timestamp, which may differ by
  milliseconds in the source.
- **Non-ASCII characters.** `toUpperCase` is modelled on ASCII letters only. That is all a
  base-36 string contains.
- **UI pages and layout.** The traveller page, the confirmation page, the layout and rendering
  are left out. The traveller form sends no gender; `BookingModel.GenderRequired` shows what
  the schema does with such a traveller.
- **Filtering and sorting.** No code applies the search filters to the flight list, so none is
  modelled. The flights page passes props that SearchForm does not declare; this type
  mismatch is not modelled.
- **Concurrency.** Concurrent first requests racing to fill the inventory cache are not
  modelled.
- **Non-numeric slider input.** Range inputs take integer positions. Steps other than the 500
  step of the price slider are 1.
- ErrorStatuses: the status of a validation message is proved in the two cases that
  `ValidationStatusPlain` and `ValidationStatusQuoted` cover. When values are rejected but
  none of them contains "not found", the 500 answer is not proved.
- FlightCard.FlightCardState.BeginSelect: the two halves of `handleSelect` are separate
  methods. The fetch between them is the outcome parameter of `FinishSelect`.
