/** Truck management: the load-within-capacity guard on create, update and
    load change, the availability flag mapped onto the status string, and
    stubs for fuel and location. */
module TruckService {
  import opened Wrappers
  import opened Sets
  import opened Entities
  import opened Repository

  type TruckStore = map<int, Truck>

  const TruckEntity: string := "Truck"
  const Idle: string := "IDLE"
  const EnRoute: string := "EN_ROUTE"

  /** The status an availability flag stands for. */
  function AvailabilityStatus(isAvailable: bool): (s: string)
    ensures s == Idle <==> isAvailable
    ensures s == EnRoute <==> !isAvailable
  {
    if isAvailable then Idle else EnRoute
  }

  function GetTruckById(store: TruckStore, id: int): (r: Result<Truck, ServiceError>)
    ensures r.Ok? <==> id in store
    ensures r.Ok? ==> r.value == store[id]
    ensures r.Err? ==> r.error == NotFound(TruckEntity, id)
  {
    FindById(store, id, TruckEntity)
  }

  /** Rejects a current load above the maximum capacity (equality is allowed),
      then saves under `newId`, the identifier the database generates. */
  function CreateTruck(store: TruckStore, truck: Truck, newId: int): (r: Result<(TruckStore, Truck), ServiceError>)
    requires newId !in store
    ensures r.Ok? <==> truck.currentLoad <= truck.maxCapacity
    ensures r.Err? ==> r.error == LoadExceedsCapacity
    ensures r.Ok? ==>
      var (after, saved) := r.value;
      saved == truck.(id := Some(newId)) && SavedUnder(store, after, newId, saved) && |after| == |store| + 1
  {
    if truck.currentLoad > truck.maxCapacity then Err(LoadExceedsCapacity)
    else
      var saved := truck.(id := Some(newId));
      Ok((Save(store, newId, saved), saved))
  }

  /** Existence is checked before the load guard; the truck is stored under
      the path id. */
  function UpdateTruck(store: TruckStore, id: int, truck: Truck): (r: Result<(TruckStore, Truck), ServiceError>)
    ensures id !in store ==> r == Err(NotFound(TruckEntity, id))
    ensures id in store ==> (r.Ok? <==> truck.currentLoad <= truck.maxCapacity)
    ensures id in store && r.Err? ==> r.error == LoadExceedsCapacity
    ensures r.Ok? ==>
      var (after, saved) := r.value;
      saved == truck.(id := Some(id)) && SavedUnder(store, after, id, saved) && after.Keys == store.Keys
  {
    if id !in store then Err(NotFound(TruckEntity, id))
    else if truck.currentLoad > truck.maxCapacity then Err(LoadExceedsCapacity)
    else
      var saved := truck.(id := Some(id));
      Ok((Save(store, id, saved), saved))
  }

  function DeleteTruck(store: TruckStore, id: int): (r: Result<TruckStore, ServiceError>)
    ensures r.Ok? <==> id in store
    ensures r.Err? ==> r.error == NotFound(TruckEntity, id)
    ensures r.Ok? ==> r.value.Keys == store.Keys - {id} && forall k :: k in r.value ==> r.value[k] == store[k]
  {
    DeleteById(store, id, TruckEntity)
  }

  /** Trucks whose status is IDLE. */
  function GetAvailableTrucks(store: TruckStore): (r: TruckStore)
    ensures forall k :: k in r <==> k in store && store[k].status == Some(Idle)
  {
    Where(store, (t: Truck) => t.status == Some(Idle))
  }

  /** Trucks whose maximum capacity is at least `minCapacity`. */
  function GetTrucksByCapacity(store: TruckStore, minCapacity: real): (r: TruckStore)
    ensures forall k :: k in r <==> k in store && minCapacity <= store[k].maxCapacity
  {
    Where(store, (t: Truck) => minCapacity <= t.maxCapacity)
  }

  /** Trucks have no fuel level: the query returns nothing. */
  function GetTrucksByFuelLevel(store: TruckStore, minFuelLevel: real): TruckStore {
    map[]
  }

  /** Trucks have no location: the query returns nothing. */
  function GetTrucksNearby(store: TruckStore, latitude: real, longitude: real, radiusKm: real): TruckStore {
    map[]
  }

  /** Changes only the current load, after the existence and capacity checks. */
  function UpdateTruckLoad(store: TruckStore, id: int, load: real): (r: Result<(TruckStore, Truck), ServiceError>)
    ensures id !in store ==> r == Err(NotFound(TruckEntity, id))
    ensures id in store ==> (r.Ok? <==> load <= store[id].maxCapacity)
    ensures id in store && r.Err? ==> r.error == LoadExceedsCapacity
    ensures r.Ok? ==>
      var (after, saved) := r.value;
      && saved.currentLoad == load
      && saved.id == store[id].id && saved.maxCapacity == store[id].maxCapacity && saved.status == store[id].status
      && SavedUnder(store, after, id, saved) && after.Keys == store.Keys
  {
    var found := GetTruckById(store, id);
    if found.Err? then Err(found.error)
    else if load > found.value.maxCapacity then Err(LoadExceedsCapacity)
    else
      var saved := found.value.(currentLoad := load);
      Ok((Save(store, id, saved), saved))
  }

  /** Trucks have no fuel level: the update always fails, even for a missing id. */
  function UpdateTruckFuel(store: TruckStore, id: int, fuelLevel: real): Result<Truck, ServiceError> {
    Err(NotImplemented("Fuel level"))
  }

  /** Sets the status to IDLE when available and to EN_ROUTE otherwise,
      changing nothing else. */
  function UpdateTruckAvailability(store: TruckStore, id: int, isAvailable: bool): (r: Result<(TruckStore, Truck), ServiceError>)
    ensures id !in store ==> r == Err(NotFound(TruckEntity, id))
    ensures id in store ==> r.Ok?
    ensures r.Ok? ==>
      var (after, saved) := r.value;
      && saved.status == Some(if isAvailable then Idle else EnRoute)
      && saved.id == store[id].id && saved.maxCapacity == store[id].maxCapacity
      && saved.currentLoad == store[id].currentLoad
      && SavedUnder(store, after, id, saved) && after.Keys == store.Keys
  {
    var found := GetTruckById(store, id);
    if found.Err? then Err(found.error)
    else
      var saved := found.value.(status := Some(AvailabilityStatus(isAvailable)));
      Ok((Save(store, id, saved), saved))
  }

  /** The trucks a count by availability counts. */
  function TrucksWithAvailability(store: TruckStore, isAvailable: bool): (r: TruckStore)
    ensures forall k :: k in r <==> k in store && store[k].status == Some(AvailabilityStatus(isAvailable))
  {
    Where(store, (t: Truck) => t.status == Some(AvailabilityStatus(isAvailable)))
  }

  function GetTruckCount(store: TruckStore, isAvailable: bool): (n: nat)
    ensures n == |set k | k in store && store[k].status == Some(AvailabilityStatus(isAvailable))|
    ensures n <= |store|
    ensures n == 0 <==> forall k :: k in store ==> store[k].status != Some(AvailabilityStatus(isAvailable))
  {
    var r := TrucksWithAvailability(store, isAvailable);
    assert r.Keys == set k | k in store && store[k].status == Some(AvailabilityStatus(isAvailable));
    WhereIsSubTable(store, (t: Truck) => t.status == Some(AvailabilityStatus(isAvailable)));
    WhereEmpty(store, (t: Truck) => t.status == Some(AvailabilityStatus(isAvailable)));
    assert |r| == |r.Keys|;
    |r|
  }

  /** After an availability update a truck is counted under the flag it was
      given and not under the other one. */
  lemma AvailabilityThenCount(store: TruckStore, id: int, isAvailable: bool)
    requires id in store
    ensures var after := UpdateTruckAvailability(store, id, isAvailable).value.0;
      && id in TrucksWithAvailability(after, isAvailable)
      && id !in TrucksWithAvailability(after, !isAvailable)
  {
  }

  /** Available and unavailable counts never overlap, so together they are
      at most the number of trucks (RETURNING and null statuses are in neither). */
  lemma {:induction false} CountsPartitionAtMost(store: TruckStore)
    ensures GetTruckCount(store, true) + GetTruckCount(store, false) <= |store|
  {
    var a := TrucksWithAvailability(store, true);
    var b := TrucksWithAvailability(store, false);
    assert a.Keys !! b.Keys;
    assert a.Keys + b.Keys <= store.Keys;
    assert |a.Keys + b.Keys| == |a.Keys| + |b.Keys|;
    SubsetCardinality(a.Keys + b.Keys, store.Keys);
    assert |a| == |a.Keys| && |b| == |b.Keys| && |store| == |store.Keys|;
  }

  /** The stubbed operations ignore their inputs. */
  lemma StubbedTruckOperations(store: TruckStore, x: real, y: real, z: real, id: int)
    ensures |GetTrucksByFuelLevel(store, x)| == 0 && |GetTrucksNearby(store, x, y, z)| == 0
    ensures UpdateTruckFuel(store, id, x).Err? && UpdateTruckFuel(store, id, x).error.NotImplemented?
  {
  }
}
