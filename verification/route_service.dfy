/** Route management: field validation in a fixed order, defaults on create,
    case-insensitive status updates with set-once actual times, and the
    status, truck and day-window queries. */
module RouteService {
  import opened Wrappers
  import opened Entities
  import opened Repository
  import opened RouteStatusText
  import opened Calendar

  type RouteStore = map<int, Route>

  const RouteEntity: string := "Route"

  /** A route without a planned start begins one hour from now ... */
  const DefaultStartDelay: int := SecondsPerHour
  /** ... and a route without a planned end lasts four hours. */
  const DefaultDuration: int := 4 * SecondsPerHour

  predicate HasSuppliers(route: Route) {
    route.supplierSequence.Some? && |route.supplierSequence.value| > 0
  }

  /** Everything createRoute and updateRoute demand of a route. */
  predicate IsValidRoute(route: Route) {
    && route.truck.Some?
    && route.depot.Some?
    && HasSuppliers(route)
    && route.totalDistance >= 0.0
    && route.totalWeight >= 0.0
  }

  /** The first failed check, in the order truck, depot, suppliers, distance,
      weight; a later check is reported only when all earlier ones pass. */
  function ValidateRoute(route: Route): (e: Option<ServiceError>)
    ensures e.None? <==> IsValidRoute(route)
    ensures e == Some(MissingTruck) <==> route.truck.None?
    ensures e == Some(MissingDepot) <==> route.truck.Some? && route.depot.None?
    ensures e == Some(MissingSuppliers) <==> route.truck.Some? && route.depot.Some? && !HasSuppliers(route)
    ensures e == Some(NegativeDistance) <==>
      route.truck.Some? && route.depot.Some? && HasSuppliers(route) && route.totalDistance < 0.0
    ensures e == Some(NegativeWeight) <==>
      (&& route.truck.Some? && route.depot.Some? && HasSuppliers(route)
       && route.totalDistance >= 0.0 && route.totalWeight < 0.0)
  {
    if route.truck.None? then Some(MissingTruck)
    else if route.depot.None? then Some(MissingDepot)
    else if route.supplierSequence.None? || |route.supplierSequence.value| == 0 then Some(MissingSuppliers)
    else if route.totalDistance < 0.0 then Some(NegativeDistance)
    else if route.totalWeight < 0.0 then Some(NegativeWeight)
    else None
  }

  /** A missing status becomes PLANNED, a missing start becomes now plus one
      hour, and a missing end becomes the (possibly just defaulted) start plus
      four hours; given values are kept and no other field changes. */
  function ApplyRouteDefaults(route: Route, now: Time): (d: Route)
    ensures d.status == Some(route.status.GetOr(Planned))
    ensures d.estimatedStartTime == Some(route.estimatedStartTime.GetOr(now + DefaultStartDelay))
    ensures d.estimatedEndTime == Some(route.estimatedEndTime.GetOr(d.estimatedStartTime.value + DefaultDuration))
    ensures d.(status := route.status, estimatedStartTime := route.estimatedStartTime,
               estimatedEndTime := route.estimatedEndTime) == route
  {
    var withStatus := if route.status.None? then route.(status := Some(Planned)) else route;
    var withStart :=
      if withStatus.estimatedStartTime.None? then withStatus.(estimatedStartTime := Some(now + DefaultStartDelay))
      else withStatus;
    if withStart.estimatedEndTime.None? && withStart.estimatedStartTime.Some? then
      withStart.(estimatedEndTime := Some(withStart.estimatedStartTime.value + DefaultDuration))
    else withStart
  }

  /** Defaults are applied once: applying them again, at any time, changes nothing. */
  lemma RouteDefaultsIdempotent(route: Route, now: Time, later: Time)
    ensures ApplyRouteDefaults(ApplyRouteDefaults(route, now), later) == ApplyRouteDefaults(route, now)
  {
  }

  /** With neither estimate given, the route is planned to start in one hour
      and to run for exactly four; a given start moves the default end with it. */
  lemma DefaultSchedule(route: Route, now: Time)
    ensures route.estimatedStartTime.None? && route.estimatedEndTime.None? ==>
      var d := ApplyRouteDefaults(route, now);
      d.estimatedStartTime.value == now + 3600 && d.estimatedEndTime.value - d.estimatedStartTime.value == 4 * 3600
    ensures route.estimatedStartTime.Some? && route.estimatedEndTime.None? ==>
      ApplyRouteDefaults(route, now).estimatedEndTime == Some(route.estimatedStartTime.value + 4 * 3600)
  {
  }

  function GetRouteById(store: RouteStore, id: int): (r: Result<Route, ServiceError>)
    ensures r.Ok? <==> id in store
    ensures r.Ok? ==> r.value == store[id]
    ensures r.Err? ==> r.error == NotFound(RouteEntity, id)
  {
    FindById(store, id, RouteEntity)
  }

  /** Validates, applies the defaults, and saves under `newId`, the identifier
      the database generates. */
  function CreateRoute(store: RouteStore, route: Route, newId: int, now: Time): (r: Result<(RouteStore, Route), ServiceError>)
    requires newId !in store
    ensures r.Ok? <==> IsValidRoute(route)
    ensures r.Err? ==> Some(r.error) == ValidateRoute(route)
    ensures r.Ok? ==>
      var (after, saved) := r.value;
      && saved == ApplyRouteDefaults(route, now).(id := Some(newId))
      && SavedUnder(store, after, newId, saved)
      && |after| == |store| + 1
  {
    var check := ValidateRoute(route);
    if check.Some? then Err(check.value)
    else
      var saved := ApplyRouteDefaults(route, now).(id := Some(newId));
      Ok((Save(store, newId, saved), saved))
  }

  /** A created route is always complete: it has a status and both estimates,
      and its planned end is never before its planned start when the caller
      gave neither estimate. */
  lemma CreatedRouteIsScheduled(store: RouteStore, route: Route, newId: int, now: Time)
    requires newId !in store && IsValidRoute(route)
    ensures var saved := CreateRoute(store, route, newId, now).value.1;
      && saved.status.Some? && saved.estimatedStartTime.Some? && saved.estimatedEndTime.Some?
      && IsValidRoute(saved)
      && (route.status.None? ==> saved.status == Some(Planned))
      && (route.estimatedEndTime.None? ==> saved.estimatedStartTime.value < saved.estimatedEndTime.value)
  {
  }

  /** Not-found comes first, then the same five checks as on create; the route
      is stored under the path id exactly as given, with no defaults. */
  function UpdateRoute(store: RouteStore, id: int, route: Route): (r: Result<(RouteStore, Route), ServiceError>)
    ensures id !in store ==> r == Err(NotFound(RouteEntity, id))
    ensures id in store ==>
      && (r.Ok? <==> IsValidRoute(route))
      && (r.Err? ==> Some(r.error) == ValidateRoute(route))
    ensures r.Ok? ==>
      var (after, saved) := r.value;
      && saved == route.(id := Some(id))
      && SavedUnder(store, after, id, saved)
      && after.Keys == store.Keys
  {
    if id !in store then Err(NotFound(RouteEntity, id))
    else
      var check := ValidateRoute(route);
      if check.Some? then Err(check.value)
      else
        var saved := route.(id := Some(id));
        Ok((Save(store, id, saved), saved))
  }

  /** Unlike create, update leaves a missing status or estimate missing. */
  lemma UpdateKeepsMissingFields(store: RouteStore, id: int, route: Route)
    requires id in store && IsValidRoute(route)
    requires route.status.None? && route.estimatedStartTime.None?
    ensures var saved := UpdateRoute(store, id, route).value.1;
      saved.status.None? && saved.estimatedStartTime.None? && saved.estimatedEndTime == route.estimatedEndTime
  {
  }

  function DeleteRoute(store: RouteStore, id: int): (r: Result<RouteStore, ServiceError>)
    ensures r.Ok? <==> id in store
    ensures r.Err? ==> r.error == NotFound(RouteEntity, id)
    ensures r.Ok? ==> r.value.Keys == store.Keys - {id} && forall k :: k in r.value ==> r.value[k] == store[k]
  {
    DeleteById(store, id, RouteEntity)
  }

  /** The routes whose status is the named one; an unknown name is an error. */
  function GetRoutesByStatus(store: RouteStore, status: string): (r: Result<RouteStore, ServiceError>)
    ensures r.Ok? <==> ParseRouteStatus(status).Some?
    ensures r.Err? ==> r.error == InvalidRouteStatus(status)
    ensures r.Ok? ==> forall k :: k in r.value <==>
      (k in store && store[k].status.Some? && ToUpper(status) == Name(store[k].status.value))
  {
    var parsed := ParseRouteStatus(status);
    if parsed.None? then Err(InvalidRouteStatus(status))
    else Ok(Where(store, (route: Route) => route.status == parsed))
  }

  /** The routes assigned to the truck with the given id. */
  function GetRoutesByTruck(store: RouteStore, truckId: int): (r: RouteStore)
    ensures forall k :: k in r <==> k in store && store[k].truck.Some? && store[k].truck.value.id == Some(truckId)
  {
    Where(store, (route: Route) => route.truck.Some? && route.truck.value.id == Some(truckId))
  }

  /** The routes created in the closed interval [start, end]. */
  function CreatedBetween(store: RouteStore, start: Time, end: Time): (r: RouteStore)
    ensures forall k :: k in r <==> k in store && Within(store[k].createdAt, start, end)
    ensures forall k :: k in r ==> r[k] == store[k]
  {
    Where(store, (route: Route) => Within(route.createdAt, start, end))
  }

  /** There is no depot query behind this operation: it returns the routes
      created today, from midnight to 23:59:59, whatever the depot id. */
  function GetRoutesByDepot(store: RouteStore, depotId: int, now: Time): (r: RouteStore)
    ensures forall k :: k in r <==>
      (k in store && store[k].createdAt.Some? && store[k].createdAt.value / SecondsPerDay == now / SecondsPerDay)
  {
    var startOfDay := MidnightOf(now);
    CreatedBetween(store, startOfDay, startOfDay + SecondsPerDay - 1)
  }

  /** Two depots get the same answer at the same moment. */
  lemma RoutesByDepotIgnoresDepot(store: RouteStore, depot1: int, depot2: int, now: Time)
    ensures GetRoutesByDepot(store, depot1, now) == GetRoutesByDepot(store, depot2, now)
  {
  }

  /** The routes created on the given ISO date, 00:00:00 to 23:59:59; text
      that is not a valid date is an error. */
  function GetRoutesByDate(store: RouteStore, date: string): (r: Result<RouteStore, ServiceError>)
    ensures r.Ok? <==> ParseIsoLocalDate(date).Some?
    ensures r.Err? ==> r.error == InvalidDateFormat
    ensures r.Ok? ==> forall k :: k in r.value <==>
      (k in store && store[k].createdAt.Some?
       && store[k].createdAt.value / SecondsPerDay == DayNumber(ParseIsoLocalDate(date).value))
  {
    var parsed := ParseIsoLocalDate(date);
    if parsed.None? then Err(InvalidDateFormat)
    else
      var d := parsed.value;
      var r := CreatedBetween(store, StartOfDay(d), EndOfDay(d));
      assert forall k :: k in r <==>
        (k in store && store[k].createdAt.Some? && store[k].createdAt.value / SecondsPerDay == DayNumber(d)) by {
        forall k | k in store && store[k].createdAt.Some? {
          WindowIsDay(d, store[k].createdAt.value);
        }
      }
      Ok(r)
  }

  /** Routes listed for two different dates are different routes. */
  lemma RoutesByDateDisjoint(store: RouteStore, date1: string, date2: string)
    requires ParseIsoLocalDate(date1).Some? && ParseIsoLocalDate(date2).Some?
    requires date1 != date2
    ensures GetRoutesByDate(store, date1).value.Keys !! GetRoutesByDate(store, date2).value.Keys
  {
    var d1 := ParseIsoLocalDate(date1).value;
    var d2 := ParseIsoLocalDate(date2).value;
    FormatParseRoundTrip(date1);
    FormatParseRoundTrip(date2);
    assert d1 != d2;
    forall k | k in store && store[k].createdAt.Some?
      ensures !(store[k].createdAt.value / SecondsPerDay == DayNumber(d1)
                && store[k].createdAt.value / SecondsPerDay == DayNumber(d2))
    {
      var t := store[k].createdAt.value;
      DistinctDatesDisjointWindows(d1, d2, t);
      WindowIsDay(d1, t);
      WindowIsDay(d2, t);
    }
  }

  /** The new status replaces the old one; entering IN_PROGRESS records the
      actual start and entering COMPLETED the actual end, each only if not
      already recorded. */
  function WithStatus(route: Route, newStatus: RouteStatus, now: Time): (r: Route)
    ensures r.status == Some(newStatus)
    ensures r.actualStartTime ==
      if newStatus == InProgress then Some(route.actualStartTime.GetOr(now)) else route.actualStartTime
    ensures r.actualEndTime ==
      if newStatus == Completed then Some(route.actualEndTime.GetOr(now)) else route.actualEndTime
    ensures r.(status := route.status, actualStartTime := route.actualStartTime,
               actualEndTime := route.actualEndTime) == route
  {
    var r := route.(status := Some(newStatus));
    if newStatus == InProgress && r.actualStartTime.None? then r.(actualStartTime := Some(now))
    else if newStatus == Completed && r.actualEndTime.None? then r.(actualEndTime := Some(now))
    else r
  }

  /** Not-found first, then the status text; no transition is forbidden. */
  function UpdateRouteStatus(store: RouteStore, id: int, status: string, now: Time): (r: Result<(RouteStore, Route), ServiceError>)
    ensures id !in store ==> r == Err(NotFound(RouteEntity, id))
    ensures id in store ==> (r.Ok? <==> ParseRouteStatus(status).Some?)
    ensures id in store && r.Err? ==> r.error == InvalidRouteStatus(status)
    ensures r.Ok? ==>
      var (after, saved) := r.value;
      && saved == WithStatus(store[id], ParseRouteStatus(status).value, now)
      && SavedUnder(store, after, id, saved)
      && after.Keys == store.Keys
  {
    var found := GetRouteById(store, id);
    if found.Err? then Err(found.error)
    else
      var parsed := ParseRouteStatus(status);
      if parsed.None? then Err(InvalidRouteStatus(status))
      else
        var saved := WithStatus(found.value, parsed.value, now);
        Ok((Save(store, id, saved), saved))
  }

  /** Any stored route may move to any status, named in any case. */
  lemma AnyTransitionAllowed(store: RouteStore, id: int, from: RouteStatus, to: RouteStatus, now: Time)
    requires id in store && store[id].status == Some(from)
    ensures UpdateRouteStatus(store, id, Name(to), now).Ok?
    ensures UpdateRouteStatus(store, id, ToLower(Name(to)), now).Ok?
    ensures UpdateRouteStatus(store, id, ToLower(Name(to)), now).value.1.status == Some(to)
  {
    ParseName(to);
  }

  /** Once recorded, the actual start and end times survive every later
      status change, whenever it happens. */
  lemma ActualTimesSetOnce(route: Route, newStatus: RouteStatus, now: Time)
    ensures route.actualStartTime.Some? ==> WithStatus(route, newStatus, now).actualStartTime == route.actualStartTime
    ensures route.actualEndTime.Some? ==> WithStatus(route, newStatus, now).actualEndTime == route.actualEndTime
  {
  }

  /** Repeating a status change later changes nothing: the first time stamp wins. */
  lemma StatusChangeIdempotent(route: Route, newStatus: RouteStatus, now: Time, later: Time)
    ensures WithStatus(WithStatus(route, newStatus, now), newStatus, later) == WithStatus(route, newStatus, now)
  {
  }

  /** A fresh route that is started at `t1` and completed at `t2` keeps both
      moments: completing does not disturb the recorded start. */
  lemma StartThenComplete(route: Route, t1: Time, t2: Time)
    requires route.actualStartTime.None? && route.actualEndTime.None?
    ensures var done := WithStatus(WithStatus(route, InProgress, t1), Completed, t2);
      done.actualStartTime == Some(t1) && done.actualEndTime == Some(t2) && done.status == Some(Completed)
  {
  }
}
