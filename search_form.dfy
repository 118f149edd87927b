/** The search form's filter record and the helpers that update it: the
    single-field `set`, the passenger stepper, the hour label and the range
    sliders for price and departure time. */
module SearchForm {
  import opened Outcomes
  import opened Text

  datatype TripType = OneWay | RoundTrip

  /** The stops filter: "any", "0", "1" or "2+". */
  datatype StopsFilter = AnyStops | NonStop | OneStop | TwoPlusStops

  datatype SearchFilters = SearchFilters(
    from: string,
    to: string,
    departureDate: string,
    returnDate: string,
    tripType: TripType,
    passengers: int,
    maxPrice: int,
    stops: StopsFilter,
    departureTimeStart: int,
    departureTimeEnd: int)

  function StopsCode(s: StopsFilter): string
  {
    match s
    case AnyStops => "any"
    case NonStop => "0"
    case OneStop => "1"
    case TwoPlusStops => "2+"
  }

  /** The four button values, read back; any other text is not a stops filter. */
  function ParseStops(code: string): (r: Option<StopsFilter>)
    ensures r.Some? ==> StopsCode(r.value) == code
  {
    if code == "any" then Some(AnyStops)
    else if code == "0" then Some(NonStop)
    else if code == "1" then Some(OneStop)
    else if code == "2+" then Some(TwoPlusStops)
    else None
  }

  lemma StopsCodeRoundTrip(s: StopsFilter)
    ensures ParseStops(StopsCode(s)) == Some(s)
  {
  }

  /** The keys of SearchFilters, and a value of one of its field types. */
  datatype FilterKey =
    | From | To | DepartureDate | ReturnDate | Trip | Passengers | MaxPrice | Stops
    | DepartureTimeStart | DepartureTimeEnd

  datatype FilterValue = Str(s: string) | TripValue(t: TripType) | Number(n: int) | StopsValue(st: StopsFilter)

  /** `value` has the type `SearchFilters[key]`. */
  predicate Fits(key: FilterKey, value: FilterValue)
  {
    match key
    case From | To | DepartureDate | ReturnDate => value.Str?
    case Trip => value.TripValue?
    case Stops => value.StopsValue?
    case Passengers | MaxPrice | DepartureTimeStart | DepartureTimeEnd => value.Number?
  }

  /** `filters[key]`. */
  function Field(f: SearchFilters, key: FilterKey): (v: FilterValue)
    ensures Fits(key, v)
  {
    match key
    case From => Str(f.from)
    case To => Str(f.to)
    case DepartureDate => Str(f.departureDate)
    case ReturnDate => Str(f.returnDate)
    case Trip => TripValue(f.tripType)
    case Passengers => Number(f.passengers)
    case MaxPrice => Number(f.maxPrice)
    case Stops => StopsValue(f.stops)
    case DepartureTimeStart => Number(f.departureTimeStart)
    case DepartureTimeEnd => Number(f.departureTimeEnd)
  }

  /** `set(key, value)`: `{ ...filters, [key]: value }`. */
  function Set(f: SearchFilters, key: FilterKey, value: FilterValue): (r: SearchFilters)
    requires Fits(key, value)
    ensures Field(r, key) == value
    ensures forall k :: k != key ==> Field(r, k) == Field(f, k)
  {
    match key
    case From => f.(from := value.s)
    case To => f.(to := value.s)
    case DepartureDate => f.(departureDate := value.s)
    case ReturnDate => f.(returnDate := value.s)
    case Trip => f.(tripType := value.t)
    case Passengers => f.(passengers := value.n)
    case MaxPrice => f.(maxPrice := value.n)
    case Stops => f.(stops := value.st)
    case DepartureTimeStart => f.(departureTimeStart := value.n)
    case DepartureTimeEnd => f.(departureTimeEnd := value.n)
  }

  /** Two filter records that agree on every key are the same record. */
  lemma FieldsDetermineFilters(f: SearchFilters, g: SearchFilters)
    requires forall k :: Field(f, k) == Field(g, k)
    ensures f == g
  {
    assert Field(f, From) == Field(g, From) && Field(f, To) == Field(g, To);
    assert Field(f, DepartureDate) == Field(g, DepartureDate) && Field(f, ReturnDate) == Field(g, ReturnDate);
    assert Field(f, Trip) == Field(g, Trip) && Field(f, Passengers) == Field(g, Passengers);
    assert Field(f, MaxPrice) == Field(g, MaxPrice) && Field(f, Stops) == Field(g, Stops);
    assert Field(f, DepartureTimeStart) == Field(g, DepartureTimeStart);
    assert Field(f, DepartureTimeEnd) == Field(g, DepartureTimeEnd);
  }

  /** Setting a key to the value it already has changes nothing. */
  lemma SetUnchanged(f: SearchFilters, key: FilterKey)
    ensures Set(f, key, Field(f, key)) == f
  {
    var r := Set(f, key, Field(f, key));
    forall k ensures Field(r, k) == Field(f, k) {}
    FieldsDetermineFilters(r, f);
  }

  /** The "−" button: `Math.max(1, passengers - 1)`. */
  function PassengersDown(f: SearchFilters): (r: SearchFilters)
    ensures r.passengers >= 1
    ensures f.passengers > 1 ==> r.passengers == f.passengers - 1
    ensures forall k :: k != Passengers ==> Field(r, k) == Field(f, k)
  {
    Set(f, Passengers, Number(if f.passengers - 1 > 1 then f.passengers - 1 else 1))
  }

  /** The "+" button: `Math.min(9, passengers + 1)`. */
  function PassengersUp(f: SearchFilters): (r: SearchFilters)
    ensures r.passengers <= 9
    ensures f.passengers < 9 ==> r.passengers == f.passengers + 1
    ensures forall k :: k != Passengers ==> Field(r, k) == Field(f, k)
  {
    Set(f, Passengers, Number(if f.passengers + 1 < 9 then f.passengers + 1 else 9))
  }

  /** Both buttons keep a count in 1..9 there, and undo each other inside it. */
  lemma PassengerStepperRange(f: SearchFilters)
    requires 1 <= f.passengers <= 9
    ensures 1 <= PassengersDown(f).passengers <= 9 && 1 <= PassengersUp(f).passengers <= 9
    ensures f.passengers < 9 ==> PassengersDown(PassengersUp(f)) == f
    ensures f.passengers > 1 ==> PassengersUp(PassengersDown(f)) == f
  {
    if f.passengers < 9 {
      var g := PassengersDown(PassengersUp(f));
      forall k ensures Field(g, k) == Field(f, k) {}
      FieldsDetermineFilters(g, f);
    }
    if f.passengers > 1 {
      var g := PassengersUp(PassengersDown(f));
      forall k ensures Field(g, k) == Field(f, k) {}
      FieldsDetermineFilters(g, f);
    }
  }

  /** The hour shown: 12 for midnight, h - 12 after noon, h otherwise. */
  function HourDisplay(h: int): (d: int)
    ensures 0 <= h <= 23 ==> 1 <= d <= 12
    ensures 0 <= h <= 23 ==> (d == h || d == h - 12 || (h == 0 && d == 12))
  {
    if h == 0 then 12 else if h > 12 then h - 12 else h
  }

  /** `formatHour(h)`: 12-hour clock with AM before noon. */
  function FormatHour(h: int): string
  {
    var period := if h < 12 then "AM" else "PM";
    IntString(HourDisplay(h)) + ":00 " + period
  }

  /** The label ends in "AM" exactly before noon. */
  lemma FormatHourPeriod(h: int)
    ensures var s := FormatHour(h); |s| >= 2 && (s[|s| - 2..] == "AM" <==> h < 12)
  {
    var s := FormatHour(h);
    var prefix := IntString(HourDisplay(h)) + ":00 ";
    assert s == prefix + (if h < 12 then "AM" else "PM");
    assert s[|s| - 2..] == (if h < 12 then "AM" else "PM");
  }

  /** Midnight and noon both display 12, told apart by the period. */
  lemma FormatHourMidnightNoon()
    ensures FormatHour(0) == "12:00 AM" && FormatHour(12) == "12:00 PM" && FormatHour(23) == "11:00 PM"
  {
    assert DecimalString(12) == "12";
    assert DecimalString(11) == "11";
  }

  /** On the slider's hours 0..23 the label ends in "AM" exactly before noon,
      and no two hours share a label. */
  lemma FormatHourInjective(a: int, b: int)
    requires 0 <= a <= 23 && 0 <= b <= 23
    ensures FormatHour(a) == FormatHour(b) ==> a == b
  {
    if FormatHour(a) == FormatHour(b) {
      var da, db := HourDisplay(a), HourDisplay(b);
      var pa, pb := (if a < 12 then "AM" else "PM"), (if b < 12 then "AM" else "PM");
      var xa, xb := DecimalString(da), DecimalString(db);
      assert FormatHour(a) == xa + [':'] + ("00 " + pa);
      assert FormatHour(b) == xb + [':'] + ("00 " + pb);
      assert ':' !in xa by { assert forall i :: 0 <= i < |xa| ==> IsDigit(xa[i]); }
      assert ':' !in xb by { assert forall i :: 0 <= i < |xb| ==> IsDigit(xb[i]); }
      SeparatedUnique(xa, "00 " + pa, xb, "00 " + pb, ':');
      DecimalInjective(da, db);
      assert pa == ("00 " + pa)[3..] == ("00 " + pb)[3..] == pb;
    }
  }

  /** An HTML range input's value for a requested position `raw` on a
      step-1 slider: clamped into min..max, and pinned to min when max < min. */
  function RangeValue(min: int, max: int, raw: int): (v: int)
    ensures v == min || (min <= v <= max)
    ensures min <= max ==> min <= v <= max
    ensures min <= raw <= max ==> v == raw
  {
    if raw < min || max < min then min else if raw > max then max else raw
  }

  /** The departure window the two sliders maintain. */
  predicate TimeWindowValid(f: SearchFilters)
  {
    0 <= f.departureTimeStart < f.departureTimeEnd <= 23
  }

  /** Moving the start slider (range 0..end-1). */
  function MoveStart(f: SearchFilters, raw: int): (r: SearchFilters)
    ensures r.departureTimeStart == RangeValue(0, f.departureTimeEnd - 1, raw)
    ensures forall k :: k != DepartureTimeStart ==> Field(r, k) == Field(f, k)
    ensures TimeWindowValid(f) ==> TimeWindowValid(r) && r.departureTimeEnd == f.departureTimeEnd
  {
    Set(f, DepartureTimeStart, Number(RangeValue(0, f.departureTimeEnd - 1, raw)))
  }

  /** Moving the end slider (range start+1..23). */
  function MoveEnd(f: SearchFilters, raw: int): (r: SearchFilters)
    ensures r.departureTimeEnd == RangeValue(f.departureTimeStart + 1, 23, raw)
    ensures forall k :: k != DepartureTimeEnd ==> Field(r, k) == Field(f, k)
    ensures TimeWindowValid(f) ==> TimeWindowValid(r) && r.departureTimeStart == f.departureTimeStart
  {
    Set(f, DepartureTimeEnd, Number(RangeValue(f.departureTimeStart + 1, 23, raw)))
  }

  /** Any sequence of slider moves keeps the window valid. */
  lemma {:induction false} SliderMovesKeepWindow(f: SearchFilters, moves: seq<(bool, int)>)
    requires TimeWindowValid(f)
    ensures TimeWindowValid(ApplyMoves(f, moves))
    decreases |moves|
  {
    if |moves| > 0 {
      var g := if moves[0].0 then MoveStart(f, moves[0].1) else MoveEnd(f, moves[0].1);
      SliderMovesKeepWindow(g, moves[1..]);
    }
  }

  /** Slider moves in order; (true, x) moves the start slider to x, (false, x) the end slider. */
  function ApplyMoves(f: SearchFilters, moves: seq<(bool, int)>): SearchFilters
    decreases |moves|
  {
    if |moves| == 0 then f
    else
      var g := if moves[0].0 then MoveStart(f, moves[0].1) else MoveEnd(f, moves[0].1);
      ApplyMoves(g, moves[1..])
  }

  const PriceMin := 3000
  const PriceMax := 100000
  const PriceStep := 500

  /** The max-price slider (3000..100000, step 500): clamp, then snap to the
      nearest step, the larger one on a tie. */
  function PriceValue(raw: int): (v: int)
    ensures PriceMin <= v <= PriceMax && (v - PriceMin) % PriceStep == 0
    ensures var c := RangeValue(PriceMin, PriceMax, raw); c - PriceStep / 2 <= v <= c + PriceStep / 2
  {
    var c := RangeValue(PriceMin, PriceMax, raw);
    PriceMin + (c - PriceMin + PriceStep / 2) / PriceStep * PriceStep
  }

  /** A value the slider can show is kept as it is. */
  lemma PriceValueStable(v: int)
    requires PriceMin <= v <= PriceMax && (v - PriceMin) % PriceStep == 0
    ensures PriceValue(v) == v
  {
  }
}
