/** The flight card: duration and stop labels, and the fare-selection state
    with the select request it sends. */
module FlightCard {
  import opened Outcomes
  import opened Text
  import opened FlightTypes
  import opened FlightService
  import opened FlightController
  import opened Http

  /** `Math.floor(mins / 60)` and JavaScript's `mins % 60`, whose remainder
      takes the sign of `mins`. */
  function DurationParts(mins: int): (hm: (int, int))
    ensures mins >= 0 ==> hm.0 * 60 + hm.1 == mins && 0 <= hm.1 < 60
    ensures mins < 0 ==> hm.0 < 0 && -60 < hm.1 <= 0
  {
    var h := mins / 60;
    var m := if mins >= 0 then mins % 60 else -((-mins) % 60);
    (h, m)
  }

  /** `formatDuration(mins)`: "<h>h <m>m". */
  function FormatDuration(mins: int): string
  {
    var (h, m) := DurationParts(mins);
    IntString(h) + "h " + IntString(m) + "m"
  }

  /** For a non-negative duration the rendered text determines the minutes:
      different durations never print the same. */
  lemma FormatDurationInjective(a: int, b: int)
    requires a >= 0 && b >= 0
    ensures FormatDuration(a) == FormatDuration(b) ==> a == b
  {
    if FormatDuration(a) == FormatDuration(b) {
      var (ha, ma) := DurationParts(a);
      var (hb, mb) := DurationParts(b);
      FormatDurationPieces(a);
      FormatDurationPieces(b);
      var ya, yb := " " + DecimalString(ma) + "m", " " + DecimalString(mb) + "m";
      NoLetterInDigits(DecimalString(ha), 'h');
      NoLetterInDigits(DecimalString(hb), 'h');
      SeparatedUnique(DecimalString(ha), ya, DecimalString(hb), yb, 'h');
      DecimalInjective(ha, hb);
      MinuteTextInjective(ma, mb);
    }
  }

  /** A non-negative duration prints as its hours, 'h', then " <m>m". */
  lemma FormatDurationPieces(mins: int)
    requires mins >= 0
    ensures var (h, m) := DurationParts(mins);
      h >= 0 && m >= 0 && FormatDuration(mins) == DecimalString(h) + ['h'] + (" " + DecimalString(m) + "m")
  {
  }

  lemma MinuteTextInjective(a: nat, b: nat)
    ensures " " + DecimalString(a) + "m" == " " + DecimalString(b) + "m" ==> a == b
  {
    var ya, yb := " " + DecimalString(a) + "m", " " + DecimalString(b) + "m";
    if ya == yb {
      assert DecimalString(a) == ya[1..|ya| - 1] == yb[1..|yb| - 1] == DecimalString(b);
      DecimalInjective(a, b);
    }
  }

  lemma NoLetterInDigits(s: string, c: char)
    requires AllDigits(s) && !IsDigit(c)
    ensures c !in s
  {
  }

  /** A negative duration prints a negative minute part: -30 renders as
      "-1h -30m", whose parts do not add back up to -30. */
  lemma FormatDurationNegative()
    ensures FormatDuration(-30) == "-1h -30m"
    ensures DurationParts(-30).0 * 60 + DurationParts(-30).1 != -30
  {
    assert DurationParts(-30) == (-1, -30);
    assert DecimalString(30) == "30";
  }

  /** The stop label under the duration. */
  function StopLabel(stops: int): (caption: string)
    ensures caption == "Non-stop" <==> stops == 0
  {
    if stops == 0 then "Non-stop"
    else
      assert (IntString(stops) + " stop")[|IntString(stops)|] == ' ';
      assert "Non-stop"[3] == '-';
      IntString(stops) + " stop"
  }

  /** Different stop counts get different labels. */
  lemma StopLabelInjective(a: int, b: int)
    ensures StopLabel(a) == StopLabel(b) ==> a == b
  {
    if StopLabel(a) == StopLabel(b) && a != 0 && b != 0 {
      var x, y := IntString(a), IntString(b);
      assert x == StopLabel(a)[..|StopLabel(a)| - 5] == StopLabel(b)[..|StopLabel(b)| - 5] == y;
      IntStringInjective(a, b);
    }
  }

  /** The intermediate-stop marker is drawn only for a flight with stops. */
  predicate ShowStopMarker(stops: int)
  {
    stops > 0
  }

  /** The marker and the label agree: a marker is drawn under a "<n> stop"
      label, and for a non-negative count exactly when the label is not
      "Non-stop". */
  lemma StopMarkerMatchesLabel(stops: int)
    ensures ShowStopMarker(stops) ==> StopLabel(stops) != "Non-stop"
    ensures stops >= 0 ==> (ShowStopMarker(stops) <==> StopLabel(stops) != "Non-stop")
  {
  }

  /** A card's state: the flight it shows with the search and journey it
      belongs to, the fare currently chosen, and whether a select request is
      in flight. */
  class FlightCardState {
    const flight: FlightOption
    const searchId: string
    const journeyKey: string
    var selectedFare: Fare
    var selecting: bool

    ghost predicate Valid()
      reads this
    {
      selectedFare in flight.fares
    }

    /** The first fare starts selected; a flight without fares has none to show. */
    constructor (flight: FlightOption, searchId: string, journeyKey: string)
      requires |flight.fares| > 0
      ensures Valid()
      ensures this.flight == flight && this.searchId == searchId && this.journeyKey == journeyKey
      ensures selectedFare == flight.fares[0] && !selecting
    {
      this.flight := flight;
      this.searchId := searchId;
      this.journeyKey := journeyKey;
      selectedFare := flight.fares[0];
      selecting := false;
    }

    /** A fare button is highlighted when its fareId is the chosen one's. */
    function IsHighlighted(fare: Fare): (on: bool)
      reads this
      ensures on <==> fare.fareId == selectedFare.fareId
    {
      selectedFare.fareId == fare.fareId
    }

    /** Clicking the i-th fare button chooses that fare. */
    method ClickFare(i: nat)
      requires Valid() && i < |flight.fares|
      modifies this
      ensures Valid()
      ensures selectedFare == flight.fares[i] && selecting == old(selecting)
      ensures IsHighlighted(flight.fares[i])
      ensures forall j :: 0 <= j < |flight.fares| ==>
        (IsHighlighted(flight.fares[j]) <==> flight.fares[j].fareId == flight.fares[i].fareId)
    {
      selectedFare := flight.fares[i];
    }

    /** The start of `handleSelect`: mark the card busy and build the request body. */
    method BeginSelect() returns (body: SelectFlightInput)
      requires Valid()
      modifies this
      ensures Valid() && selecting && selectedFare == old(selectedFare)
      ensures body == SelectFlightInput(searchId, journeyKey, flight.flightId, selectedFare.fareId)
    {
      selecting := true;
      body := SelectFlightInput(searchId, journeyKey, flight.flightId, selectedFare.fareId);
    }

    /** The end of `handleSelect`, given the parsed response (None when the
      request or the parse threw): the card is no longer busy, and the page is
      notified with the selection id and summary only on success. */
    method FinishSelect(outcome: Option<Response<SelectSummary>>) returns (notified: Option<SelectSummary>)
      requires Valid()
      modifies this
      ensures Valid() && !selecting && selectedFare == old(selectedFare)
      ensures notified.Some? <==> outcome.Some? && outcome.value.Ok?
      ensures notified.Some? ==> notified.value == outcome.value.data
    {
      notified := None;
      if outcome.Some? && outcome.value.Ok? {
        notified := Some(outcome.value.data);
      }
      selecting := false;
    }
  }
}
