/** Supplier management: an 8-hour availability window filled in on create,
    existence checks, the readiness update, and the availability queries. */
module SupplierService {
  import opened Wrappers
  import opened Entities
  import opened Repository

  type SupplierStore = map<int, Supplier>

  const SupplierEntity: string := "Supplier"

  /** Length of the availability window given to a supplier that has none. */
  const DefaultWindow: int := 8 * SecondsPerHour

  /** Fills in a missing start of availability with the clock reading
      `fromNow` and a missing end with a second reading `untilNow` plus eight
      hours; given values are kept. The two bounds read the clock separately. */
  function ApplySupplierDefaults(s: Supplier, fromNow: Time, untilNow: Time): (r: Supplier)
    ensures r.availableFrom == Some(s.availableFrom.GetOr(fromNow))
    ensures r.availableUntil == Some(s.availableUntil.GetOr(untilNow + DefaultWindow))
    ensures r.(availableFrom := s.availableFrom, availableUntil := s.availableUntil) == s
  {
    var withFrom := if s.availableFrom.None? then s.(availableFrom := Some(fromNow)) else s;
    if withFrom.availableUntil.None? then withFrom.(availableUntil := Some(untilNow + DefaultWindow)) else withFrom
  }

  /** Defaults are applied once: a second application, at any times, changes nothing. */
  lemma SupplierDefaultsIdempotent(s: Supplier, fromNow: Time, untilNow: Time, laterFrom: Time, laterUntil: Time)
    ensures var once := ApplySupplierDefaults(s, fromNow, untilNow);
      ApplySupplierDefaults(once, laterFrom, laterUntil) == once
  {
  }

  /** Without either bound, the window starts at the first reading and lasts
      eight hours plus the time that passed between the two readings; with a
      clock that does not run backwards it is at least eight hours. */
  lemma DefaultWindowLength(s: Supplier, fromNow: Time, untilNow: Time)
    requires s.availableFrom.None? && s.availableUntil.None?
    ensures var r := ApplySupplierDefaults(s, fromNow, untilNow);
      && r.availableFrom == Some(fromNow)
      && r.availableUntil.value - r.availableFrom.value == 8 * 3600 + (untilNow - fromNow)
      && (fromNow <= untilNow ==> r.availableUntil.value - r.availableFrom.value >= 8 * 3600)
  {
  }

  function GetSupplierById(store: SupplierStore, id: int): (r: Result<Supplier, ServiceError>)
    ensures r.Ok? <==> id in store
    ensures r.Ok? ==> r.value == store[id]
    ensures r.Err? ==> r.error == NotFound(SupplierEntity, id)
  {
    FindById(store, id, SupplierEntity)
  }

  /** Supplier ids are assigned, not generated: the supplier, with its window
      defaulted from two clock readings, is saved under its own id (replacing
      any row there); with no id the save is refused. */
  function CreateSupplier(store: SupplierStore, supplier: Supplier, fromNow: Time, untilNow: Time): (r: Result<(SupplierStore, Supplier), ServiceError>)
    ensures r.Ok? <==> supplier.id.Some?
    ensures r.Err? ==> r.error == MissingIdentifier
    ensures r.Ok? ==>
      var (after, saved) := r.value;
      saved == ApplySupplierDefaults(supplier, fromNow, untilNow) && SavedUnder(store, after, supplier.id.value, saved)
  {
    if supplier.id.None? then Err(MissingIdentifier)
    else
      var saved := ApplySupplierDefaults(supplier, fromNow, untilNow);
      Ok((Save(store, supplier.id.value, saved), saved))
  }

  /** Fails on a missing id; otherwise stores the supplier, unchanged except
      for its id, under the path id. No defaults are applied. */
  function UpdateSupplier(store: SupplierStore, id: int, supplier: Supplier): (r: Result<(SupplierStore, Supplier), ServiceError>)
    ensures r.Ok? <==> id in store
    ensures r.Err? ==> r.error == NotFound(SupplierEntity, id)
    ensures r.Ok? ==>
      var (after, saved) := r.value;
      saved == supplier.(id := Some(id)) && SavedUnder(store, after, id, saved) && after.Keys == store.Keys
  {
    if id !in store then Err(NotFound(SupplierEntity, id))
    else
      var saved := supplier.(id := Some(id));
      Ok((Save(store, id, saved), saved))
  }

  function DeleteSupplier(store: SupplierStore, id: int): (r: Result<SupplierStore, ServiceError>)
    ensures r.Ok? <==> id in store
    ensures r.Err? ==> r.error == NotFound(SupplierEntity, id)
    ensures r.Ok? ==> r.value.Keys == store.Keys - {id} && forall k :: k in r.value ==> r.value[k] == store[k]
  {
    DeleteById(store, id, SupplierEntity)
  }

  /** Changes only the readiness flag. */
  function UpdateSupplierStatus(store: SupplierStore, id: int, isReady: bool): (r: Result<(SupplierStore, Supplier), ServiceError>)
    ensures r.Ok? <==> id in store
    ensures r.Err? ==> r.error == NotFound(SupplierEntity, id)
    ensures r.Ok? ==>
      var (after, saved) := r.value;
      && saved.isReady == isReady
      && saved.(isReady := store[id].isReady) == store[id]
      && SavedUnder(store, after, id, saved) && after.Keys == store.Keys
  {
    var found := GetSupplierById(store, id);
    if found.Err? then Err(found.error)
    else
      var saved := found.value.(isReady := isReady);
      Ok((Save(store, id, saved), saved))
  }

  function GetReadySuppliers(store: SupplierStore): (r: SupplierStore)
    ensures forall k :: k in r <==> k in store && store[k].isReady
  {
    Where(store, (s: Supplier) => s.isReady)
  }

  /** Suppliers with the given readiness whose window contains `now`. */
  function GetSuppliersByStatus(store: SupplierStore, isReady: bool, now: Time): (r: SupplierStore)
    ensures forall k :: k in r <==>
      (&& k in store && store[k].isReady == isReady
       && store[k].availableFrom.Some? && store[k].availableFrom.value <= now
       && store[k].availableUntil.Some? && now <= store[k].availableUntil.value)
  {
    Where(store, (s: Supplier) =>
      s.isReady == isReady
      && s.availableFrom.Some? && s.availableFrom.value <= now
      && s.availableUntil.Some? && now <= s.availableUntil.value)
  }

  function GetSuppliersByWeight(store: SupplierStore, minWeight: real): (r: SupplierStore)
    ensures forall k :: k in r <==> k in store && minWeight <= store[k].harvestWeight
  {
    Where(store, (s: Supplier) => minWeight <= s.harvestWeight)
  }

  /** Suppliers not yet ready whose window opens between `now` and
      `now + minutesAhead` minutes, both inclusive. */
  function GetSuppliersBecomingAvailable(store: SupplierStore, minutesAhead: int, now: Time): (r: SupplierStore)
    ensures forall k :: k in r <==>
      (k in store && !store[k].isReady && Within(store[k].availableFrom, now, now + minutesAhead * SecondsPerMinute))
  {
    var future := now + minutesAhead * SecondsPerMinute;
    Where(store, (s: Supplier) => !s.isReady && Within(s.availableFrom, now, future))
  }

  /** A negative look-ahead gives an empty window and so an empty answer;
      a zero look-ahead finds only windows opening exactly now. */
  lemma BecomingAvailableWindow(store: SupplierStore, minutesAhead: int, now: Time)
    ensures minutesAhead < 0 ==> |GetSuppliersBecomingAvailable(store, minutesAhead, now)| == 0
    ensures minutesAhead == 0 ==> forall k :: k in GetSuppliersBecomingAvailable(store, 0, now) ==>
      store[k].availableFrom == Some(now)
  {
    if minutesAhead < 0 {
      var r := GetSuppliersBecomingAvailable(store, minutesAhead, now);
      assert r.Keys == {};
    }
  }

  /** Suppliers whose window overlaps [start, end]. */
  function GetSuppliersAvailableInWindow(store: SupplierStore, start: Time, end: Time): (r: SupplierStore)
    ensures forall k :: k in r <==>
      (&& k in store
       && store[k].availableFrom.Some? && store[k].availableFrom.value <= end
       && store[k].availableUntil.Some? && start <= store[k].availableUntil.value)
  {
    Where(store, (s: Supplier) =>
      s.availableFrom.Some? && s.availableFrom.value <= end
      && s.availableUntil.Some? && start <= s.availableUntil.value)
  }

  function GetSupplierCount(store: SupplierStore, isReady: bool): (n: nat)
    ensures n == |set k | k in store && store[k].isReady == isReady|
    ensures n <= |store|
    ensures n == 0 <==> forall k :: k in store ==> store[k].isReady != isReady
  {
    var r := Where(store, (s: Supplier) => s.isReady == isReady);
    assert r.Keys == set k | k in store && store[k].isReady == isReady;
    WhereIsSubTable(store, (s: Supplier) => s.isReady == isReady);
    WhereEmpty(store, (s: Supplier) => s.isReady == isReady);
    assert |r| == |r.Keys|;
    |r|
  }

  /** Every supplier is either ready or not: the two counts add up to the table size. */
  lemma SupplierCountsPartition(store: SupplierStore)
    ensures GetSupplierCount(store, true) + GetSupplierCount(store, false) == |store|
  {
    var a := Where(store, (s: Supplier) => s.isReady == true);
    var b := Where(store, (s: Supplier) => s.isReady == false);
    assert a.Keys !! b.Keys;
    assert a.Keys + b.Keys == store.Keys;
    assert |a.Keys + b.Keys| == |a.Keys| + |b.Keys|;
    assert |a| == |a.Keys| && |b| == |b.Keys| && |store| == |store.Keys|;
  }

  /** A freshly created supplier without a window is available right away:
      the by-status query at any moment between the two readings finds it. */
  lemma CreatedSupplierAvailableNow(store: SupplierStore, supplier: Supplier, fromNow: Time, untilNow: Time, now: Time)
    requires supplier.id.Some? && supplier.availableFrom.None? && supplier.availableUntil.None?
    requires fromNow <= now <= untilNow
    ensures var after := CreateSupplier(store, supplier, fromNow, untilNow).value.0;
      supplier.id.value in GetSuppliersByStatus(after, supplier.isReady, now)
  {
  }
}
