/** The planning solution: the truck list, the assignment list, the depot and
    the score the solver last computed. The two lists are also the value
    ranges of the planning variables, which `WellFormed` expresses. */
module TeaLeafSolutions {
  import opened Wrappers
  import opened Entities
  import opened SupplierAssignments

  /** A two-level score; both levels are maximised and hard dominates soft. */
  datatype HardSoftScore = HardSoftScore(hard: int, soft: int)

  datatype TeaLeafSolution = TeaLeafSolution(
    trucks: seq<Truck>,
    supplierAssignments: seq<SupplierAssignment>,
    depot: Option<Depot>,
    score: Option<HardSoftScore>)

  /** The three-argument constructor: facts stored as given, score not yet computed. */
  function NewSolution(trucks: seq<Truck>, assignments: seq<SupplierAssignment>, depot: Option<Depot>): (s: TeaLeafSolution)
    ensures s.trucks == trucks && s.supplierAssignments == assignments && s.depot == depot
    ensures s.score.None?
  {
    TeaLeafSolution(trucks, assignments, depot, None)
  }

  /** The problem handed to the solver: one fresh assignment per supplier. */
  function NewProblem(trucks: seq<Truck>, suppliers: seq<Supplier>, depot: Option<Depot>): (s: TeaLeafSolution)
    ensures |s.supplierAssignments| == |suppliers| && s.trucks == trucks
    ensures forall i :: 0 <= i < |suppliers| ==>
      s.supplierAssignments[i] == NewAssignment(Some(suppliers[i]))
  {
    NewSolution(trucks, seq(|suppliers|, i requires 0 <= i < |suppliers| => NewAssignment(Some(suppliers[i]))), depot)
  }

  /** A truck choice drawn from the truck value range. */
  predicate TruckInRange(s: TeaLeafSolution, truck: Option<nat>) {
    truck.Some? ==> truck.value < |s.trucks|
  }

  /** A predecessor drawn from the assignment value range (which includes the
      assignment itself and assignments of other trucks). */
  predicate PreviousInRange(s: TeaLeafSolution, previous: Option<nat>) {
    previous.Some? ==> previous.value < |s.supplierAssignments|
  }

  /** Every planning variable holds null or a value from its value range. */
  predicate WellFormed(s: TeaLeafSolution) {
    forall i :: 0 <= i < |s.supplierAssignments| ==>
      && TruckInRange(s, s.supplierAssignments[i].assignedTruck)
      && PreviousInRange(s, s.supplierAssignments[i].previousAssignment)
  }

  function SetTrucks(s: TeaLeafSolution, trucks: seq<Truck>): (r: TeaLeafSolution)
    ensures r.trucks == trucks
    ensures r.supplierAssignments == s.supplierAssignments && r.depot == s.depot && r.score == s.score
  {
    s.(trucks := trucks)
  }

  function SetSupplierAssignments(s: TeaLeafSolution, assignments: seq<SupplierAssignment>): (r: TeaLeafSolution)
    ensures r.supplierAssignments == assignments
    ensures r.trucks == s.trucks && r.depot == s.depot && r.score == s.score
  {
    s.(supplierAssignments := assignments)
  }

  function SetDepot(s: TeaLeafSolution, depot: Option<Depot>): (r: TeaLeafSolution)
    ensures r.depot == depot
    ensures r.trucks == s.trucks && r.supplierAssignments == s.supplierAssignments && r.score == s.score
  {
    s.(depot := depot)
  }

  function SetScore(s: TeaLeafSolution, score: Option<HardSoftScore>): (r: TeaLeafSolution)
    ensures r.score == score
    ensures r.trucks == s.trucks && r.supplierAssignments == s.supplierAssignments && r.depot == s.depot
  {
    s.(score := score)
  }

  /** One solver step: give assignment `i` a new truck and predecessor. */
  function Reassign(s: TeaLeafSolution, i: nat, truck: Option<nat>, previous: Option<nat>): (r: TeaLeafSolution)
    requires i < |s.supplierAssignments|
    ensures |r.supplierAssignments| == |s.supplierAssignments| && r.trucks == s.trucks
    ensures r.supplierAssignments[i].assignedTruck == truck
    ensures r.supplierAssignments[i].previousAssignment == previous
    ensures r.supplierAssignments[i].supplier == s.supplierAssignments[i].supplier
    ensures forall j :: 0 <= j < |s.supplierAssignments| && j != i ==>
      r.supplierAssignments[j] == s.supplierAssignments[j]
  {
    var a := SetPreviousAssignment(SetAssignedTruck(s.supplierAssignments[i], truck), previous);
    s.(supplierAssignments := s.supplierAssignments[i := a])
  }

  /** A fresh problem is well formed: nothing is chosen yet. */
  lemma NewProblemIsWellFormed(trucks: seq<Truck>, suppliers: seq<Supplier>, depot: Option<Depot>)
    ensures WellFormed(NewProblem(trucks, suppliers, depot))
  {
  }

  /** The value ranges are closed under solver steps: choosing any truck of the
      list and any assignment of the list keeps a solution well formed. The
      predecessor may be `i` itself, so self-links and cycles are reachable. */
  lemma ReassignInRangeKeepsWellFormed(s: TeaLeafSolution, i: nat, truck: Option<nat>, previous: Option<nat>)
    requires WellFormed(s) && i < |s.supplierAssignments|
    requires TruckInRange(s, truck) && PreviousInRange(s, previous)
    ensures WellFormed(Reassign(s, i, truck, previous))
  {
    var r := Reassign(s, i, truck, previous);
    forall j | 0 <= j < |r.supplierAssignments|
      ensures TruckInRange(r, r.supplierAssignments[j].assignedTruck)
      ensures PreviousInRange(r, r.supplierAssignments[j].previousAssignment)
    {
      if j != i {
        assert r.supplierAssignments[j] == s.supplierAssignments[j];
      }
    }
  }

  /** Nothing in the value ranges forbids an assignment from being its own
      predecessor: a one-element self-loop is a well-formed solution. */
  lemma SelfLinkIsWellFormed(t: Truck, sup: Supplier)
    ensures var s := Reassign(NewProblem([t], [sup], None), 0, Some(0), Some(0));
      WellFormed(s) && s.supplierAssignments[0].previousAssignment == Some(0)
  {
    NewProblemIsWellFormed([t], [sup], None);
    ReassignInRangeKeepsWellFormed(NewProblem([t], [sup], None), 0, Some(0), Some(0));
  }
}
