/** The inventory loader: the flight inventory is read once and then served
    from a process-wide cache. */
module InventoryLoader {
  import opened Outcomes
  import opened FlightTypes

  /** The module-level `cachedData` filled by `getFlightData` (the search service
      and the flight service each hold one). Reading and parsing the file is
      outside the model: its parsed content is the `file` argument. The ghost
      `loads` counts the times the file was read. */
  class InventoryCache {
    var cachedData: Option<Inventory>
    ghost var loads: nat

    ghost predicate Valid()
      reads this
    {
      loads == if cachedData.Some? then 1 else 0
    }

    constructor ()
      ensures Valid() && cachedData == None
    {
      cachedData := None;
      loads := 0;
    }

    /** Fill the cache if it is empty, then return the cached inventory. */
    method GetFlightData(file: Inventory) returns (data: Inventory)
      requires Valid()
      modifies this
      ensures Valid() && cachedData == Some(data)
      ensures old(cachedData).Some? ==> data == old(cachedData).value && loads == old(loads)
      ensures old(cachedData).None? ==> data == file
    {
      if cachedData.None? {
        cachedData := Some(file);
        loads := loads + 1;
      }
      data := cachedData.value;
    }
  }
}
