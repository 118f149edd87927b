/** The flights page: the header info parsed from the search id, the journey
    tabs and active list, and the state steps of searching and of handing a
    selection on to the traveller page. */
module FlightsPage {
  import opened Outcomes
  import opened Text
  import opened JsObject
  import opened FlightTypes
  import opened FlightController

  const ConnectErrorMessage := "Could not connect to the server. Make sure the backend is running."

  datatype SearchInfo = SearchInfo(from: string, to: string, date: string)

  /** The header shown before any search. */
  const DefaultInfo := SearchInfo("DEL", "DXB", "02 Mar 2026")

  /** `parseSearchId`, with the locale month name of the date field passed in as
      `monthName`. `from` is the text before the first "-" (the whole id when
      there is none, so the "DEL" fallback never applies), `to` the text between
      the first and second "-" ("DXB" when there is no "-"), and the date comes
      from a non-empty fourth field. */
  function ParseSearchId(searchId: string, monthName: string -> string): (info: SearchInfo)
    ensures info.from == searchId[..IndexOf(searchId, '-')]
    ensures '-' !in searchId ==> info == SearchInfo(searchId, "DXB", "")
    ensures '-' in searchId ==>
      var rest := searchId[IndexOf(searchId, '-') + 1..];
      info.to == rest[..IndexOf(rest, '-')]
    ensures var parts := Split(searchId, '-');
      info.date ==
        if |parts| > 3 && parts[3] != "" then
          Slice(parts[3], 6, 8) + " " + monthName(parts[3]) + " " + Slice(parts[3], 0, 4)
        else ""
  {
    var parts := Split(searchId, '-');
    SplitSingle(searchId, '-');
    SplitFirst(searchId, '-');
    if '-' !in searchId then
      JoinSplit(searchId, '-');
      SearchInfo(parts[0], "DXB", "")
    else
      SplitAtFirst(searchId, '-');
      SplitFirst(searchId[IndexOf(searchId, '-') + 1..], '-');
      var date :=
        if |parts| > 3 && parts[3] != "" then
          Slice(parts[3], 6, 8) + " " + monthName(parts[3]) + " " + Slice(parts[3], 0, 4)
        else "";
      SearchInfo(parts[0], parts[1], date)
  }

  /** For an id made of four "-"-separated fields, `from` and `to` are the first
      two, and a date field written yyyymmdd shows as "dd <month> yyyy". */
  lemma ParseSearchIdFields(a: string, b: string, c: string, d: string, monthName: string -> string)
    requires '-' !in a && '-' !in b && '-' !in c && '-' !in d
    requires |d| >= 8
    ensures ParseSearchId(a + "-" + b + "-" + c + "-" + d, monthName)
         == SearchInfo(a, b, d[6..8] + " " + monthName(d) + " " + d[..4])
  {
    var id := a + "-" + b + "-" + c + "-" + d;
    var parts := [a, b, c, d];
    assert parts[1..] == [b, c, d] && [b, c, d][1..] == [c, d] && [c, d][1..] == [d];
    assert Join([c, d], '-') == c + "-" + d;
    assert Join([b, c, d], '-') == b + "-" + (c + "-" + d);
    assert Join(parts, '-') == a + "-" + (b + "-" + (c + "-" + d));
    assert Join(parts, '-') == id;
    SplitJoin(parts, '-');
    assert id[|a|] == '-';
  }

  /** With fewer than four fields the date is empty; the first field is always
      `from`, so the "DEL" fallback is never used. */
  lemma ParseSearchIdShort(a: string, b: string, monthName: string -> string)
    requires '-' !in a && '-' !in b
    ensures ParseSearchId(a + "-" + b, monthName) == SearchInfo(a, b, "")
  {
    var id := a + "-" + b;
    assert Join([a, b], '-') == id by { assert [a, b][1..] == [b]; }
    SplitJoin([a, b], '-');
    assert id[|a|] == '-';
  }

  /** The header: parsed from the result's search id, or the default. */
  function PageInfo(result: Option<SearchResult>, monthName: string -> string): (info: SearchInfo)
    ensures result.None? ==> info == DefaultInfo
    ensures result.Some? ==> info == ParseSearchId(result.value.searchId, monthName)
  {
    if result.None? then DefaultInfo else ParseSearchId(result.value.searchId, monthName)
  }

  /** `Object.keys(result.journeys)`, or none before a search. */
  function JourneyKeys(result: Option<SearchResult>): (keys: seq<string>)
    ensures result.None? ==> keys == []
    ensures result.Some? ==> keys == Keys(result.value.journeys)
  {
    if result.None? then [] else Keys(result.value.journeys)
  }

  /** `result?.journeys[activeJourney] ?? []`. */
  function ActiveFlights(result: Option<SearchResult>, activeJourney: string): (flights: seq<FlightOption>)
    ensures activeJourney !in JourneyKeys(result) ==> flights == []
    ensures activeJourney in JourneyKeys(result) ==>
      exists i :: FirstWithKey(result.value.journeys, activeJourney, i) && flights == result.value.journeys[i].1
  {
    if result.None? then [] else Get(result.value.journeys, activeJourney).GetOr([])
  }

  /** The active list of a journey key is the list stored under it. */
  lemma ActiveFlightsAt(r: SearchResult, i: nat)
    requires DistinctKeys(r.journeys) && i < |r.journeys|
    ensures ActiveFlights(Some(r), r.journeys[i].0) == r.journeys[i].1
  {
    GetAt(r.journeys, i);
  }

  /** "<n> flights found": the number shown reads back as the list's length. */
  function CountText(flights: seq<FlightOption>): (text: string)
    ensures exists digits :: AllDigits(digits) && text == digits + " flights found" && DigitsValue(digits) == |flights|
  {
    DecimalRoundTrip(|flights|);
    DecimalString(|flights|) + " flights found"
  }

  /** Tabs are drawn only when the result has more than one journey. */
  predicate ShowTabs(result: Option<SearchResult>)
  {
    |JourneyKeys(result)| > 1
  }

  function TabLabel(key: string): (caption: string)
    ensures caption == "Outbound" <==> key == "J1"
    ensures caption == "Return" <==> key != "J1"
  {
    if key == "J1" then "Outbound" else "Return"
  }

  /** When tabs are drawn, at least one of them reads "Return", and a tab that
      reads "Outbound" is the only one that does. */
  lemma TabCaptions(r: SearchResult)
    requires DistinctKeys(r.journeys) && ShowTabs(Some(r))
    ensures exists i :: 0 <= i < |r.journeys| && TabLabel(r.journeys[i].0) == "Return"
    ensures forall i, j ::
      (0 <= i < |r.journeys| && 0 <= j < |r.journeys| && i != j && TabLabel(r.journeys[i].0) == "Outbound") ==>
      TabLabel(r.journeys[j].0) == "Return"
  {
    if r.journeys[0].0 == "J1" {
      assert TabLabel(r.journeys[1].0) == "Return";
    } else {
      assert TabLabel(r.journeys[0].0) == "Return";
    }
  }

  /** The page's state. */
  class FlightsPageState {
    var result: Option<SearchResult>
    var loading: bool
    var error: Option<string>
    var activeJourney: string
    var storedSelectionId: Option<string>
    var storedSummary: Option<SelectSummary>
    var route: Option<string>

    constructor ()
      ensures result.None? && !loading && error.None? && activeJourney == "J1"
      ensures storedSelectionId.None? && storedSummary.None? && route.None?
    {
      result := None;
      loading := false;
      error := None;
      activeJourney := "J1";
      storedSelectionId := None;
      storedSummary := None;
      route := None;
    }

    /** The start of `handleSearch`. */
    method BeginSearch()
      modifies this
      ensures loading && error.None?
      ensures result == old(result) && activeJourney == old(activeJourney)
      ensures storedSelectionId == old(storedSelectionId) && storedSummary == old(storedSummary) && route == old(route)
    {
      loading := true;
      error := None;
    }

    /** The end of `handleSearch`, given the response data (None when the
        request threw): the result or the error is set, and loading always ends.
        A failed search keeps the previous result on screen. */
    method FinishSearch(outcome: Option<SearchResult>)
      modifies this
      ensures !loading
      ensures outcome.Some? ==> result == outcome && error == old(error)
      ensures outcome.None? ==> result == old(result) && error == Some(ConnectErrorMessage)
      ensures activeJourney == old(activeJourney)
      ensures storedSelectionId == old(storedSelectionId) && storedSummary == old(storedSummary) && route == old(route)
    {
      if outcome.Some? {
        result := outcome;
      } else {
        error := Some(ConnectErrorMessage);
      }
      loading := false;
    }

    /** The whole of `handleSearch`. */
    method HandleSearch(outcome: Option<SearchResult>)
      modifies this
      ensures !loading
      ensures outcome.Some? ==> result == outcome && error.None?
      ensures outcome.None? ==> result == old(result) && error == Some(ConnectErrorMessage)
      ensures activeJourney == old(activeJourney)
      ensures storedSelectionId == old(storedSelectionId) && storedSummary == old(storedSummary) && route == old(route)
    {
      BeginSearch();
      FinishSearch(outcome);
    }

    /** Clicking a journey tab. */
    method SelectJourney(key: string)
      requires key in JourneyKeys(result)
      modifies this
      ensures activeJourney == key && result == old(result) && loading == old(loading) && error == old(error)
      ensures ActiveFlights(result, activeJourney) == Get(result.value.journeys, key).value
      ensures storedSelectionId == old(storedSelectionId) && storedSummary == old(storedSummary) && route == old(route)
    {
      activeJourney := key;
    }

    /** `handleFlightSelected`: remember the selection and its summary for the
        traveller page, then go there. */
    method HandleFlightSelected(selectionId: string, summary: SelectSummary)
      modifies this
      ensures storedSelectionId == Some(selectionId) && storedSummary == Some(summary)
      ensures route == Some("/traveller")
      ensures result == old(result) && activeJourney == old(activeJourney)
      ensures loading == old(loading) && error == old(error)
    {
      storedSelectionId := Some(selectionId);
      storedSummary := Some(summary);
      route := Some("/traveller");
    }
  }
}
