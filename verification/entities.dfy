/** The persistent entities of the tea-collection backend (Supplier, Truck,
    Depot, Route) as immutable records. Nullable Java fields are Options;
    doubles are reals; LocalDateTime values are whole seconds (see Calendar). */
module Entities {
  import opened Wrappers

  /** A local date-time, in whole seconds since 0000-01-01T00:00:00. */
  type Time = int

  const SecondsPerMinute: int := 60
  const SecondsPerHour: int := 3600
  const SecondsPerDay: int := 86400

  /** A nullable time lies in the closed interval [lo, hi]; null never does,
      as in a BETWEEN query. */
  predicate Within(t: Option<Time>, lo: Time, hi: Time) {
    t.Some? && lo <= t.value <= hi
  }

  /** A tea grower whose harvest must be collected. */
  datatype Supplier = Supplier(
    id: Option<int>,
    latitude: real,
    longitude: real,
    harvestWeight: real,
    isReady: bool,
    availableFrom: Option<Time>,
    availableUntil: Option<Time>)

  /** A collection vehicle; status is a free-form string (IDLE, EN_ROUTE, RETURNING). */
  datatype Truck = Truck(
    id: Option<int>,
    maxCapacity: real,
    currentLoad: real,
    status: Option<string>)

  /** The factory every route starts from. */
  datatype Depot = Depot(
    id: Option<int>,
    latitude: real,
    longitude: real)

  /** Lifecycle of a stored route. */
  datatype RouteStatus = Planned | InProgress | Completed | Cancelled | Failed

  /** A stored route: a truck, a depot and an ordered supplier sequence plus bookkeeping. */
  datatype Route = Route(
    id: Option<int>,
    truck: Option<Truck>,
    supplierSequence: Option<seq<Supplier>>,
    depot: Option<Depot>,
    totalDistance: real,
    totalWeight: real,
    status: Option<RouteStatus>,
    estimatedStartTime: Option<Time>,
    estimatedEndTime: Option<Time>,
    actualStartTime: Option<Time>,
    actualEndTime: Option<Time>,
    createdAt: Option<Time>,
    updatedAt: Option<Time>)
}
