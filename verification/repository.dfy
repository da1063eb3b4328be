/** The data-access layer the services call, reduced to what they rely on:
    a table is a map from id to record; `save` overwrites the record under
    its id; lookups and deletes by a missing id fail in the service with a
    not-found error; derived queries filter the table. */
module Repository {
  import opened Wrappers
  import opened Sets

  /** The RuntimeExceptions the services throw, one constructor per message. */
  datatype ServiceError =
    | NotFound(entity: string, id: int)
    | InvalidLatitude
    | InvalidLongitude
    | LoadExceedsCapacity
    | MissingTruck
    | MissingDepot
    | MissingSuppliers
    | NegativeDistance
    | NegativeWeight
    | InvalidRouteStatus(status: string)
    | InvalidDateFormat
    | NotImplemented(feature: string)
    | MissingIdentifier

  /** `after` is `before` with `e` saved under `id` and every other row kept. */
  ghost predicate SavedUnder<T>(before: map<int, T>, after: map<int, T>, id: int, e: T) {
    && after.Keys == before.Keys + {id}
    && after[id] == e
    && forall k :: k in before && k != id ==> after[k] == before[k]
  }

  function Save<T>(store: map<int, T>, id: int, e: T): (r: map<int, T>)
    ensures SavedUnder(store, r, id, e)
  {
    store[id := e]
  }

  /** `findById(id).orElseThrow(...)`. */
  function FindById<T>(store: map<int, T>, id: int, entity: string): (r: Result<T, ServiceError>)
    ensures r.Ok? <==> id in store
    ensures r.Ok? ==> r.value == store[id]
    ensures r.Err? ==> r.error == NotFound(entity, id)
  {
    if id in store then Ok(store[id]) else Err(NotFound(entity, id))
  }

  /** `existsById` check, then `deleteById`: only the row `id` disappears. */
  function DeleteById<T>(store: map<int, T>, id: int, entity: string): (r: Result<map<int, T>, ServiceError>)
    ensures r.Ok? <==> id in store
    ensures r.Err? ==> r.error == NotFound(entity, id)
    ensures r.Ok? ==> r.value.Keys == store.Keys - {id} && forall k :: k in r.value ==> r.value[k] == store[k]
  {
    if id in store then Ok(map k | k in store && k != id :: store[k]) else Err(NotFound(entity, id))
  }

  /** The rows satisfying a derived query's condition. */
  function Where<T>(store: map<int, T>, p: T -> bool): (r: map<int, T>)
    ensures forall k :: k in r <==> k in store && p(store[k])
    ensures forall k :: k in r ==> r[k] == store[k]
  {
    map k | k in store && p(store[k]) :: store[k]
  }

  /** A query finds nothing exactly when no row satisfies its condition. */
  lemma WhereEmpty<T>(store: map<int, T>, p: T -> bool)
    ensures |Where(store, p)| == 0 <==> forall k :: k in store ==> !p(store[k])
  {
    var w := Where(store, p);
    if forall k :: k in store ==> !p(store[k]) {
      assert w == map[];
    } else {
      var k :| k in store && p(store[k]);
      SubsetCardinality({k}, w.Keys);
      assert |w| == |w.Keys|;
    }
  }

  /** Filtering never adds rows, so a count never exceeds the table size. */
  lemma WhereIsSubTable<T>(store: map<int, T>, p: T -> bool)
    ensures Where(store, p).Keys <= store.Keys
    ensures |Where(store, p)| <= |store|
  {
    var w := Where(store, p);
    assert store.Keys == w.Keys + (store.Keys - w.Keys);
    assert |w| == |w.Keys| && |store| == |store.Keys|;
  }
}
