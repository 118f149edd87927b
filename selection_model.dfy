/** The Selection collection: the record a select action persists, its schema
    and the store with create / find-by-id. */
module SelectionModel {
  import opened Outcomes
  import opened FlightTypes

  /** A stored selection: its ObjectId, the request's searchId and journeyKey, a
      snapshot of the raw flight option and of the chosen fare, and the creation
      time added by the schema's timestamps. */
  datatype Selection = Selection(
    id: string,
    searchId: string,
    journeyKey: string,
    selectedFlight: RawOption,
    selectedFare: Fare,
    createdAt: int)

  predicate IsHexDigit(c: char)
  {
    '0' <= c <= '9' || 'a' <= c <= 'f' || 'A' <= c <= 'F'
  }

  /** `ObjectId.isValid` on a string: 24 hexadecimal characters. */
  predicate IsObjectId(s: string)
  {
    |s| == 24 && forall i :: 0 <= i < |s| ==> IsHexDigit(s[i])
  }

  /** SelectionSchema: `searchId` and `journeyKey` are required strings, which
      rejects the empty string; `selectedFlight` and `selectedFare` are always
      present here. No field is unique. */
  predicate SelectionValid(sel: Selection)
  {
    sel.searchId != "" && sel.journeyKey != ""
  }

  /** The start of the message Mongoose gives a failed SelectionSchema validation. */
  const SelectionValidationMessage := "Selection validation failed"

  /** The Selection collection, keyed by ObjectId. */
  class SelectionStore {
    var records: map<string, Selection>

    ghost predicate Valid()
      reads this
    {
      forall id :: id in records ==> records[id].id == id && IsObjectId(id) && SelectionValid(records[id])
    }

    constructor ()
      ensures Valid() && records == map[]
    {
      records := map[];
    }

    /** `Selection.create`: validate against the schema, then insert under the
        fresh ObjectId `newId` that the driver supplies. Nothing about the stored
        records decides success: identical selections make distinct records. */
    method Create(newId: string, searchId: string, journeyKey: string,
                  selectedFlight: RawOption, selectedFare: Fare, now: int)
      returns (r: Result<Selection>)
      requires Valid()
      requires IsObjectId(newId) && newId !in records
      modifies this
      ensures Valid()
      ensures r.Success? <==> searchId != "" && journeyKey != ""
      ensures r.Success? ==>
        && r.value == Selection(newId, searchId, journeyKey, selectedFlight, selectedFare, now)
        && records == old(records)[newId := r.value]
      ensures r.Failure? ==> r.error == SelectionValidationMessage && records == old(records)
      ensures r.Success? ==> FindById(newId) == Some(r.value)
      ensures forall id :: id != newId ==> FindById(id) == old(FindById(id))
    {
      var sel := Selection(newId, searchId, journeyKey, selectedFlight, selectedFare, now);
      if !SelectionValid(sel) {
        return Failure(SelectionValidationMessage);
      }
      records := records[newId := sel];
      r := Success(sel);
    }

    /** `Selection.findById`: in a valid store, a record found under an id
        carries that id and satisfies the schema. */
    function FindById(id: string): (r: Option<Selection>)
      reads this
      ensures r.Some? <==> id in records
      ensures r.Some? ==> r.value == records[id]
      ensures Valid() && r.Some? ==> r.value.id == id && IsObjectId(id) && SelectionValid(r.value)
    {
      if id in records then Some(records[id]) else None
    }
  }
}
