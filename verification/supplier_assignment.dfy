/** The planning entity: one assignment per supplier, with two planning
    variables chosen by the solver. References to other objects of the
    solution are indices: `assignedTruck` indexes the solution's truck list and
    `previousAssignment` indexes its assignment list. */
module SupplierAssignments {
  import opened Wrappers
  import opened Entities

  datatype SupplierAssignment = SupplierAssignment(
    supplier: Option<Supplier>,
    assignedTruck: Option<nat>,
    previousAssignment: Option<nat>)

  /** An assignment wrapping `supplier`, as created before solving. */
  function NewAssignment(supplier: Option<Supplier>): (a: SupplierAssignment)
    ensures a.supplier == supplier
    ensures !IsAssigned(a) && a.previousAssignment.None?
  {
    SupplierAssignment(supplier, None, None)
  }

  /** Routed means: a truck has been chosen. */
  predicate IsAssigned(a: SupplierAssignment) {
    a.assignedTruck.Some?
  }

  function HarvestWeight(a: SupplierAssignment): real {
    if a.supplier.Some? then a.supplier.value.harvestWeight else 0.0
  }

  function Latitude(a: SupplierAssignment): real {
    if a.supplier.Some? then a.supplier.value.latitude else 0.0
  }

  function Longitude(a: SupplierAssignment): real {
    if a.supplier.Some? then a.supplier.value.longitude else 0.0
  }

  function SupplierId(a: SupplierAssignment): Option<int> {
    if a.supplier.Some? then a.supplier.value.id else None
  }

  function SetAssignedTruck(a: SupplierAssignment, truck: Option<nat>): (r: SupplierAssignment)
    ensures r.assignedTruck == truck
    ensures r.supplier == a.supplier && r.previousAssignment == a.previousAssignment
  {
    a.(assignedTruck := truck)
  }

  function SetPreviousAssignment(a: SupplierAssignment, previous: Option<nat>): (r: SupplierAssignment)
    ensures r.previousAssignment == previous
    ensures r.supplier == a.supplier && r.assignedTruck == a.assignedTruck
  {
    a.(previousAssignment := previous)
  }

  /** Without a supplier every derived quantity falls back to zero (and the id to null);
      with one, each is the supplier's own value. */
  lemma DerivedFieldsFollowSupplier(a: SupplierAssignment)
    ensures a.supplier.None? ==>
      HarvestWeight(a) == 0.0 && Latitude(a) == 0.0 && Longitude(a) == 0.0 && SupplierId(a).None?
    ensures a.supplier.Some? ==>
      && HarvestWeight(a) == a.supplier.value.harvestWeight
      && Latitude(a) == a.supplier.value.latitude
      && Longitude(a) == a.supplier.value.longitude
      && SupplierId(a) == a.supplier.value.id
  {
  }

  /** Being assigned depends on the truck alone: changing the predecessor never
      changes it, and setting a truck decides it. */
  lemma AssignedDependsOnTruckOnly(a: SupplierAssignment, truck: Option<nat>, previous: Option<nat>)
    ensures IsAssigned(SetPreviousAssignment(a, previous)) == IsAssigned(a)
    ensures IsAssigned(SetAssignedTruck(a, truck)) <==> truck.Some?
  {
  }
}
