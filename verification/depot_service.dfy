/** Depot management: coordinate validation on create and update, existence
    checks, and two operations that are stubs in the current entity. */
module DepotService {
  import opened Wrappers
  import opened Entities
  import opened Repository

  type DepotStore = map<int, Depot>

  const DepotEntity: string := "Depot"

  /** Latitude is checked first, then longitude; the bounds are inclusive. */
  function ValidateCoordinates(latitude: real, longitude: real): (e: Option<ServiceError>)
    ensures e.None? <==> -90.0 <= latitude <= 90.0 && -180.0 <= longitude <= 180.0
    ensures e == Some(InvalidLatitude) <==> !(-90.0 <= latitude <= 90.0)
    ensures e == Some(InvalidLongitude) <==> -90.0 <= latitude <= 90.0 && !(-180.0 <= longitude <= 180.0)
  {
    if latitude < -90.0 || latitude > 90.0 then Some(InvalidLatitude)
    else if longitude < -180.0 || longitude > 180.0 then Some(InvalidLongitude)
    else None
  }

  function GetDepotById(store: DepotStore, id: int): (r: Result<Depot, ServiceError>)
    ensures r.Ok? <==> id in store
    ensures r.Ok? ==> r.value == store[id]
    ensures r.Err? ==> r.error == NotFound(DepotEntity, id)
  {
    FindById(store, id, DepotEntity)
  }

  /** Validates, then saves under `newId`, the identifier the database generates. */
  function CreateDepot(store: DepotStore, depot: Depot, newId: int): (r: Result<(DepotStore, Depot), ServiceError>)
    requires newId !in store
    ensures r.Ok? <==> ValidateCoordinates(depot.latitude, depot.longitude).None?
    ensures r.Err? ==> Some(r.error) == ValidateCoordinates(depot.latitude, depot.longitude)
    ensures r.Ok? ==>
      var (after, saved) := r.value;
      && saved.id == Some(newId) && saved.latitude == depot.latitude && saved.longitude == depot.longitude
      && SavedUnder(store, after, newId, saved)
      && |after| == |store| + 1
  {
    var check := ValidateCoordinates(depot.latitude, depot.longitude);
    if check.Some? then Err(check.value)
    else
      var saved := depot.(id := Some(newId));
      Ok((Save(store, newId, saved), saved))
  }

  /** Not-found comes before any coordinate check; the depot is stored under
      the path id, whatever id it carried. */
  function UpdateDepot(store: DepotStore, id: int, depot: Depot): (r: Result<(DepotStore, Depot), ServiceError>)
    ensures id !in store ==> r == Err(NotFound(DepotEntity, id))
    ensures id in store ==>
      && (r.Ok? <==> ValidateCoordinates(depot.latitude, depot.longitude).None?)
      && (r.Err? ==> Some(r.error) == ValidateCoordinates(depot.latitude, depot.longitude))
    ensures r.Ok? ==>
      var (after, saved) := r.value;
      && saved == depot.(id := Some(id))
      && SavedUnder(store, after, id, saved)
      && after.Keys == store.Keys
  {
    if id !in store then Err(NotFound(DepotEntity, id))
    else
      var check := ValidateCoordinates(depot.latitude, depot.longitude);
      if check.Some? then Err(check.value)
      else
        var saved := depot.(id := Some(id));
        Ok((Save(store, id, saved), saved))
  }

  function DeleteDepot(store: DepotStore, id: int): (r: Result<DepotStore, ServiceError>)
    ensures r.Ok? <==> id in store
    ensures r.Err? ==> r.error == NotFound(DepotEntity, id)
    ensures r.Ok? ==> r.value.Keys == store.Keys - {id} && forall k :: k in r.value ==> r.value[k] == store[k]
  {
    DeleteById(store, id, DepotEntity)
  }

  /** All depots count as active: there is no status field. */
  function GetActiveDepots(store: DepotStore): DepotStore {
    store
  }

  /** Depots have no capacity field: the query returns nothing. */
  function GetDepotsByCapacity(store: DepotStore, minCapacity: real): DepotStore {
    map[]
  }

  /** Depots have no active flag: the update always fails, even for a missing id. */
  function UpdateDepotStatus(store: DepotStore, id: int, isActive: bool): Result<Depot, ServiceError> {
    Err(NotImplemented("Active status"))
  }

  /** The stubbed operations ignore their inputs: capacity queries are always
      empty, status updates always fail, and the active list is the whole table. */
  lemma StubbedDepotOperations(store: DepotStore, minCapacity: real, id: int, isActive: bool)
    ensures |GetDepotsByCapacity(store, minCapacity)| == 0
    ensures UpdateDepotStatus(store, id, isActive).Err? && UpdateDepotStatus(store, id, isActive).error.NotImplemented?
    ensures GetActiveDepots(store).Keys == store.Keys
  {
  }

  /** A successful update followed by a lookup returns the updated depot;
      a successful delete makes the lookup fail. */
  lemma UpdateThenGet(store: DepotStore, id: int, depot: Depot)
    requires UpdateDepot(store, id, depot).Ok?
    ensures GetDepotById(UpdateDepot(store, id, depot).value.0, id) == Ok(depot.(id := Some(id)))
    ensures DeleteDepot(UpdateDepot(store, id, depot).value.0, id).Ok?
    ensures GetDepotById(DeleteDepot(UpdateDepot(store, id, depot).value.0, id).value, id).Err?
  {
  }
}
