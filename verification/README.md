# Tea-collection backend: scoring, route walk and service rules in Dafny

This project models the core of a tea-leaf collection backend. Trucks with a
capacity collect harvested leaves from suppliers and bring them to a depot.
The core has three parts:

- **The planning score.** A solution assigns every supplier to a truck and
  to a predecessor assignment; both are planning variables, so the solver
  sets both. The model also scores partially initialised solutions, reading
  each constraint literally. It is scored hard/soft:
  - hard: capacity overflow per truck, on weights truncated to whole numbers;
  - hard: one point per unassigned supplier;
  - soft: the straight-line distance of every predecessor link, in hundredths
    of a degree, truncated;
  - soft: a reward of 100 per unused truck.
- **The solver test's route walk and feasibility check.** The walk starts at
  the first assignment without a predecessor. It then repeatedly moves to the
  first assignment whose predecessor is the current one. The feasibility
  check is what the test accepts. The test's 3-truck / 5-supplier instance is
  included, with a zero-hard witness.
- **The depot, truck, supplier and route services.** These are pure
  transitions on a table (a map from id to record) that return either a
  result or the error the service throws. The clock and database-generated
  ids are parameters.

Modules, in dependency order:

- `Wrappers`: `Option` and `Result`.
- `Sets`: one cardinality fact.
- `Entities`: the stored records; time as whole seconds.
- `SupplierAssignments` and `TeaLeafSolutions`: the planning entity and the solution.
- `Distance`: the link distance.
- `TeaCollectionConstraints`: the score.
- `RouteWalk`: the chain walk.
- `Feasibility`: the test's acceptance check and its instance.
- `Repository`: tables, save, find, delete and filtered queries.
- `DepotService`, `TruckService`, `SupplierService`, `RouteService`: the services.
- `RouteStatusText`: status names and case-insensitive parsing.
- `Calendar`: ISO dates and day windows.

Modelling choices:

- A truck or a predecessor is referred to by its index in the solution's
  truck list or assignment list. `WellFormed` states that each index lies in
  range; these ranges are the solver's value ranges.
- A predecessor may be the assignment itself, or an assignment on another
  truck. Cycles are allowed.
- Doubles are reals, and the Java `(int)` cast is truncation toward zero.
- The link distance is the exact floor of 100 times the Euclidean distance.
  It is defined through an integer square root, with no floating-point
  rounding.

## Model

| member | source | states |
|---|---|---|
| SupplierAssignments.NewAssignment | src/main/java/com/teacollection/teacollection_backend/SupplierAssignment.java:10-20 | a new assignment keeps its supplier, has no truck and no predecessor, and so is unassigned |
| SupplierAssignments.SetAssignedTruck | src/main/java/com/teacollection/teacollection_backend/SupplierAssignment.java:27-29 | only the truck changes; supplier and predecessor are kept |
| SupplierAssignments.SetPreviousAssignment | src/main/java/com/teacollection/teacollection_backend/SupplierAssignment.java:36-38 | only the predecessor changes; supplier and truck are kept |
| SupplierAssignments.DerivedFieldsFollowSupplier | src/main/java/com/teacollection/teacollection_backend/SupplierAssignment.java:53-67 | weight, latitude and longitude are the supplier's or 0.0 without a supplier; the supplier id is null without a supplier |
| SupplierAssignments.AssignedDependsOnTruckOnly | src/main/java/com/teacollection/teacollection_backend/SupplierAssignment.java:49-51 | being assigned means having a truck: setting the predecessor never changes it, setting the truck decides it |
| TeaLeafSolutions.NewSolution | src/main/java/com/teacollection/teacollection_backend/TeaLeafSolution.java:35-39 | the three-argument constructor stores trucks, assignments and depot unchanged and leaves the score unset |
| TeaLeafSolutions.NewProblem | src/main/java/com/teacollection/teacollection_backend/TeaLeafSolution.java:35-39 | the unsolved problem has one fresh, unassigned assignment per supplier, in supplier order |
| TeaLeafSolutions.SetTrucks | src/main/java/com/teacollection/teacollection_backend/TeaLeafSolution.java:46-48 | the truck list is replaced and every other field kept |
| TeaLeafSolutions.SetSupplierAssignments | src/main/java/com/teacollection/teacollection_backend/TeaLeafSolution.java:54-56 | the assignment list is replaced and every other field kept |
| TeaLeafSolutions.SetDepot | src/main/java/com/teacollection/teacollection_backend/TeaLeafSolution.java:62-64 | the depot is replaced and every other field kept |
| TeaLeafSolutions.SetScore | src/main/java/com/teacollection/teacollection_backend/TeaLeafSolution.java:70-72 | the score is replaced and every other field kept |
| TeaLeafSolutions.Reassign | src/main/java/com/teacollection/teacollection_backend/SupplierAssignment.java:22-38 | a solver move sets one assignment's truck and predecessor, keeps its supplier, and leaves every other assignment alone |
| TeaLeafSolutions.NewProblemIsWellFormed | src/main/java/com/teacollection/teacollection_backend/TeaLeafSolution.java:16-22 | a fresh problem respects the value ranges: no truck and no predecessor is out of range |
| TeaLeafSolutions.ReassignInRangeKeepsWellFormed | src/main/java/com/teacollection/teacollection_backend/TeaLeafSolution.java:16-22 | choosing a truck from the truck list and a predecessor from the assignment list keeps the solution within its value ranges |
| TeaLeafSolutions.SelfLinkIsWellFormed | src/main/java/com/teacollection/teacollection_backend/SupplierAssignment.java:31-34 | an assignment may be its own predecessor: the value range does not exclude it |
| Distance.FloorSqrt | src/main/java/com/teacollection/teacollection_backend/TeaCollectionConstraintProvider.java:84 | the truncated square root: the largest whole number whose square does not exceed the argument |
| Distance.FloorSqrtUnique | src/main/java/com/teacollection/teacollection_backend/TeaCollectionConstraintProvider.java:84 | that whole number is unique, so the truncated distance is determined by the squared distance alone |
| Distance.LinkDistance | src/main/java/com/teacollection/teacollection_backend/TeaCollectionConstraintProvider.java:77-84 | the cost is the whole number d with d² <= 10000·(dLat² + dLon²) < (d+1)², i.e. the truncated 100·Euclidean distance |
| Distance.LinkDistanceSymmetric | src/main/java/com/teacollection/teacollection_backend/TeaCollectionConstraintProvider.java:82-84 | swapping the two endpoints does not change the cost |
| Distance.LinkDistanceZeroIffClose | src/main/java/com/teacollection/teacollection_backend/TeaCollectionConstraintProvider.java:82-84 | the cost is 0 exactly when the points are less than 0.01 degree apart, and identical points cost 0 |
| TeaCollectionConstraints.TruncateToInt | src/main/java/com/teacollection/teacollection_backend/TeaCollectionConstraintProvider.java:31-34 | the `(int)` cast: the whole number next to x toward zero |
| TeaCollectionConstraints.TruncateIntegral | src/main/java/com/teacollection/teacollection_backend/TeaCollectionConstraintProvider.java:31 | a whole-number weight is counted exactly |
| TeaCollectionConstraints.CapacityPenalty | src/main/java/com/teacollection/teacollection_backend/TeaCollectionConstraintProvider.java:26-35 | a truck is penalised only when it is used and its truncated load exceeds its capacity, and then by the overflow cast to `int`; an unused truck costs nothing; with a whole-number capacity the penalty is max(0, load − capacity) |
| TeaCollectionConstraints.CapacityPenaltySum | src/main/java/com/teacollection/teacollection_backend/TeaCollectionConstraintProvider.java:26-35 | the capacity term is 0 exactly when no truck is penalised |
| TeaCollectionConstraints.TruckLoadUpdate | src/main/java/com/teacollection/teacollection_backend/TeaCollectionConstraintProvider.java:28-31 | reassigning one assignment moves exactly its truncated weight between loads; an unassigned one contributes to no truck |
| TeaCollectionConstraints.LoadConservation | src/main/java/com/teacollection/teacollection_backend/TeaCollectionConstraintProvider.java:26-31 | summed over all trucks, the loads are the truncated weight of the assigned assignments: each is counted once, on its own truck |
| TeaCollectionConstraints.UnassignedCount | src/main/java/com/teacollection/teacollection_backend/TeaCollectionConstraintProvider.java:39-44 | the unassigned term is at most the number of assignments, 0 exactly when all are assigned, and maximal exactly when none is |
| TeaCollectionConstraints.UnassignedCountUpdate | src/main/java/com/teacollection/teacollection_backend/TeaCollectionConstraintProvider.java:39-44 | changing one assignment changes the unassigned term by exactly that assignment's own 0/1 point |
| TeaCollectionConstraints.LinkCost | src/main/java/com/teacollection/teacollection_backend/TeaCollectionConstraintProvider.java:48-57 | a link costs something only when both the assignment and its predecessor are assigned, and then costs the link distance from the predecessor to the assignment |
| TeaCollectionConstraints.NoLinksNoDistance | src/main/java/com/teacollection/teacollection_backend/TeaCollectionConstraintProvider.java:48-57 | with no assigned predecessor links the distance term is 0; there is no depot leg |
| TeaCollectionConstraints.DistanceHelperProperties | src/main/java/com/teacollection/teacollection_backend/TeaCollectionConstraintProvider.java:72-85 | the helper returns 0 for a null endpoint, is symmetric, and returns 0 for an assignment paired with itself |
| TeaCollectionConstraints.UnusedTruckCount | src/main/java/com/teacollection/teacollection_backend/TeaCollectionConstraintProvider.java:61-68 | the reward counts exactly the set of trucks with no assigned assignment, at most one per truck |
| TeaCollectionConstraints.UnusedRewardPerTruck | src/main/java/com/teacollection/teacollection_backend/TeaCollectionConstraintProvider.java:61-68 | a truck earns the reward exactly when no assigned assignment names it |
| TeaCollectionConstraints.AllTrucksUnusedWhenNothingAssigned | src/main/java/com/teacollection/teacollection_backend/TeaCollectionConstraintProvider.java:61-68 | when nothing is assigned every truck is rewarded |
| TeaCollectionConstraints.TruckLoad | src/main/java/com/teacollection/teacollection_backend/TeaCollectionConstraintProvider.java:28-31 | the per-truck group sum of truncated weights: a truck no assignment names has load 0, and non-negative weights give a non-negative load |
| TeaCollectionConstraints.CalculateDistanceBetweenSuppliers | src/main/java/com/teacollection/teacollection_backend/TeaCollectionConstraintProvider.java:72-85 | a null endpoint gives 0; otherwise the result is the link distance between the two assignments' coordinates |
| TeaCollectionConstraints.DistanceSum | src/main/java/com/teacollection/teacollection_backend/TeaCollectionConstraintProvider.java:48-57 | the distance term is 0 exactly when every link costs 0 |
| TeaCollectionConstraints.SoftScore | src/main/java/com/teacollection/teacollection_backend/TeaCollectionConstraintProvider.java:19-21 | the soft score is at most 100 per truck, and is non-negative when no link costs anything |
| TeaCollectionConstraints.CalculateScore | src/main/java/com/teacollection/teacollection_backend/TeaCollectionConstraintProvider.java:13-23 | the score combines the two hard and the two soft constraints; its hard part is never positive and its soft part is at most 100 per truck |
| TeaCollectionConstraints.HardScore | src/main/java/com/teacollection/teacollection_backend/TeaCollectionConstraintProvider.java:14-17 | the hard score is never positive |
| TeaCollectionConstraints.HardScoreZeroIff | src/main/java/com/teacollection/teacollection_backend/TeaCollectionConstraintProvider.java:14-44 | with whole-number capacities, hard = 0 exactly when every supplier is assigned and no used truck's truncated load exceeds its capacity |
| TeaCollectionConstraints.FractionalOverflowUnpenalized | src/main/java/com/teacollection/teacollection_backend/TeaCollectionConstraintProvider.java:32-34 | with a fractional capacity, an overflow below one unit passes the filter but is truncated to a penalty of 0 |
| TeaCollectionConstraints.NewProblemScore | src/main/java/com/teacollection/teacollection_backend/TeaCollectionConstraintProvider.java:39-68 | read literally, the constraints score the unsolved problem at minus one hard point per supplier and 100 soft per truck; the planning library reports an uninitialised solution through its init score instead |
| RouteWalk.FirstIndexFrom | src/test/java/com/teacollection/teacollection_backend/OptaPlannerUnitTest.java:195-199 | the search returns the first position, in list order, whose predecessor is the target, or nothing when there is none |
| RouteWalk.Next | src/test/java/com/teacollection/teacollection_backend/OptaPlannerUnitTest.java:181-184 | the next element is in the walked list and has the target as predecessor, and is missing exactly when no element does |
| RouteWalk.NoRepeat | src/test/java/com/teacollection/teacollection_backend/OptaPlannerUnitTest.java:192-200 | along a linked route without repeats, a successor of the last element is not already on the route |
| RouteWalk.DistinctCardinality | src/test/java/com/teacollection/teacollection_backend/OptaPlannerUnitTest.java:177-203 | a route without repeats has as many distinct elements as its length |
| RouteWalk.BuildRoute | src/test/java/com/teacollection/teacollection_backend/OptaPlannerUnitTest.java:177-203 | with no start the input comes back unchanged; otherwise the route starts at the first element without predecessor, each step is the first successor, the last has no successor, no element repeats, and the route is no longer than the input |
| Feasibility.Scored | src/main/java/com/teacollection/teacollection_backend/TeaLeafSolution.java:27-28 | the solved solution carries the score the constraints compute, stays within its value ranges, and keeps its trucks and assignments |
| Feasibility.RealLoad | src/test/java/com/teacollection/teacollection_backend/OptaPlannerUnitTest.java:210-214 | the test's untruncated per-truck load; non-negative weights give a non-negative load |
| Feasibility.VerifySolution | src/test/java/com/teacollection/teacollection_backend/OptaPlannerUnitTest.java:204-225 | an accepted solution has every supplier assigned and a score; with non-negative weights every truck's capacity is non-negative, since even an unused truck must hold its load of 0 |
| Feasibility.VerifiedMeansHardZero | src/test/java/com/teacollection/teacollection_backend/OptaPlannerUnitTest.java:220-222 | since the hard score is never positive, the test's hard >= 0 check accepts only hard = 0 |
| Feasibility.TruncatedLoadAtMostRealLoad | src/test/java/com/teacollection/teacollection_backend/OptaPlannerUnitTest.java:209-214 | the scorer's truncated load never exceeds the test's untruncated load for non-negative weights |
| Feasibility.TruncatedLoadIsRealLoad | src/test/java/com/teacollection/teacollection_backend/OptaPlannerUnitTest.java:209-214 | with whole-number weights the scorer's and the test's loads agree |
| Feasibility.RealLoadOfUnusedTruck | src/test/java/com/teacollection/teacollection_backend/OptaPlannerUnitTest.java:210-214 | a truck no assignment names has load 0 in the test |
| Feasibility.HardZeroPassesVerification | src/test/java/com/teacollection/teacollection_backend/OptaPlannerUnitTest.java:204-225 | with whole-number weights and non-negative whole-number capacities, hard = 0 implies the test accepts |
| Feasibility.TruncationHidesOverload | src/test/java/com/teacollection/teacollection_backend/OptaPlannerUnitTest.java:209-218 | weights 600.7 and 400.6 on a 1000 truck give hard = 0, yet the test rejects the 1001.3 load |
| Feasibility.NegativeCapacityUnusedTruck | src/test/java/com/teacollection/teacollection_backend/OptaPlannerUnitTest.java:209-218 | an unused truck with negative capacity costs nothing in the score, yet the test rejects it |
| Feasibility.WitnessLoads | src/test/java/com/teacollection/teacollection_backend/OptaPlannerUnitTest.java:54-114 | on the test instance, {800, 1200}, {600, 900}, {400} load the trucks with 2000, 1500 and 400 |
| Feasibility.TestProblemInitialScore | src/test/java/com/teacollection/teacollection_backend/OptaPlannerUnitTest.java:54-114 | read literally, the constraints score the unsolved test instance at -5 hard and 300 soft; the planning library reports it through its init score instead |
| Feasibility.TestWitnessHardScoreZero | src/test/java/com/teacollection/teacollection_backend/OptaPlannerUnitTest.java:54-114 | that witness has hard score 0; it has no predecessor links, so it shows the capacities can be met rather than being a solution the solver returns |
| Feasibility.TestWitnessPassesVerification | src/test/java/com/teacollection/teacollection_backend/OptaPlannerUnitTest.java:204-225 | that witness, scored, passes every check of the test |
| Repository.FindById | src/main/java/com/teacollection/teacollection_backend/service/impl/DepotServiceImpl.java:32-33 | a lookup succeeds exactly for a stored id and fails with not-found otherwise |
| Repository.DeleteById | src/main/java/com/teacollection/teacollection_backend/service/impl/DepotServiceImpl.java:81-85 | a delete succeeds exactly for a stored id and removes that row only |
| Repository.Where | src/main/java/com/teacollection/teacollection_backend/service/impl/SupplierServiceImpl.java:84 | a derived query keeps exactly the rows meeting its condition, unchanged |
| Repository.WhereIsSubTable | src/main/java/com/teacollection/teacollection_backend/service/impl/SupplierServiceImpl.java:133-136 | a query never returns more rows than the table holds |
| DepotService.ValidateCoordinates | src/main/java/com/teacollection/teacollection_backend/service/impl/DepotServiceImpl.java:41-47 | latitude in [-90, 90] is checked first, then longitude in [-180, 180]; the bounds themselves are accepted |
| DepotService.GetDepotById | src/main/java/com/teacollection/teacollection_backend/service/impl/DepotServiceImpl.java:30-34 | found exactly when stored; otherwise not-found |
| DepotService.CreateDepot | src/main/java/com/teacollection/teacollection_backend/service/impl/DepotServiceImpl.java:37-52 | saved under a fresh id exactly when the coordinates are valid, with the first failing check as the error |
| DepotService.UpdateDepot | src/main/java/com/teacollection/teacollection_backend/service/impl/DepotServiceImpl.java:55-75 | not-found before any coordinate check; then the same checks; the depot is stored under the path id |
| DepotService.DeleteDepot | src/main/java/com/teacollection/teacollection_backend/service/impl/DepotServiceImpl.java:78-87 | fails when absent; otherwise only that row disappears |
| DepotService.StubbedDepotOperations | src/main/java/com/teacollection/teacollection_backend/service/impl/DepotServiceImpl.java:90-107 | every depot is active, the capacity query is empty, and the status update always fails |
| DepotService.UpdateThenGet | src/main/java/com/teacollection/teacollection_backend/service/impl/DepotServiceImpl.java:29-87 | after an update the depot is read back under its path id, and after deleting it, it is gone |
| TruckService.AvailabilityStatus | src/main/java/com/teacollection/teacollection_backend/service/impl/TruckServiceImpl.java:129 | available means "IDLE", unavailable means "EN_ROUTE" |
| TruckService.GetTruckById | src/main/java/com/teacollection/teacollection_backend/service/impl/TruckServiceImpl.java:29-34 | found exactly when stored; otherwise not-found |
| TruckService.CreateTruck | src/main/java/com/teacollection/teacollection_backend/service/impl/TruckServiceImpl.java:37-48 | saved exactly when the load is at most the capacity (equality allowed) |
| TruckService.UpdateTruck | src/main/java/com/teacollection/teacollection_backend/service/impl/TruckServiceImpl.java:51-67 | not-found before the load check; the truck is stored under the path id |
| TruckService.DeleteTruck | src/main/java/com/teacollection/teacollection_backend/service/impl/TruckServiceImpl.java:70-79 | fails when absent; otherwise only that row disappears |
| TruckService.GetAvailableTrucks | src/main/java/com/teacollection/teacollection_backend/service/impl/TruckServiceImpl.java:83-86 | exactly the trucks whose status is "IDLE" |
| TruckService.GetTrucksByCapacity | src/main/java/com/teacollection/teacollection_backend/service/impl/TruckServiceImpl.java:90-93 | exactly the trucks whose capacity is at least the minimum |
| TruckService.UpdateTruckLoad | src/main/java/com/teacollection/teacollection_backend/service/impl/TruckServiceImpl.java:103-116 | not-found first; then the load must not exceed the stored capacity; only the current load changes |
| TruckService.UpdateTruckAvailability | src/main/java/com/teacollection/teacollection_backend/service/impl/TruckServiceImpl.java:125-134 | succeeds for a stored truck and changes only its status, to the mapped string |
| TruckService.GetTruckCount | src/main/java/com/teacollection/teacollection_backend/service/impl/TruckServiceImpl.java:145-149 | the count is the number of stored trucks whose status is the mapped string ("IDLE" or "EN_ROUTE"); so it is at most the number of trucks, and 0 exactly when none has that status |
| TruckService.TrucksWithAvailability | src/main/java/com/teacollection/teacollection_backend/service/impl/TruckServiceImpl.java:145-149 | the trucks counted are exactly those with the mapped status |
| TruckService.AvailabilityThenCount | src/main/java/com/teacollection/teacollection_backend/service/impl/TruckServiceImpl.java:125-149 | after setting a truck's availability, it is among the trucks counted for that availability |
| TruckService.CountsPartitionAtMost | src/main/java/com/teacollection/teacollection_backend/service/impl/TruckServiceImpl.java:145-149 | the available and unavailable counts together never exceed the fleet, since other statuses count in neither |
| TruckService.StubbedTruckOperations | src/main/java/com/teacollection/teacollection_backend/service/impl/TruckServiceImpl.java:96-141 | the fuel and nearby queries are empty and the fuel update always fails |
| SupplierService.ApplySupplierDefaults | src/main/java/com/teacollection/teacollection_backend/service/impl/SupplierServiceImpl.java:41-47 | a missing window start becomes the first clock reading and a missing end the second reading + 8 h; given values and other fields are kept |
| SupplierService.SupplierDefaultsIdempotent | src/main/java/com/teacollection/teacollection_backend/service/impl/SupplierServiceImpl.java:41-47 | applying the defaults again, with any clock readings, changes nothing |
| SupplierService.DefaultWindowLength | src/main/java/com/teacollection/teacollection_backend/service/impl/SupplierServiceImpl.java:42-47 | with neither bound given, the window starts at the first reading and lasts eight hours plus the time between the two readings, so at least eight hours when the clock does not run backwards |
| SupplierService.GetSupplierById | src/main/java/com/teacollection/teacollection_backend/service/impl/SupplierServiceImpl.java:30-35 | found exactly when stored; otherwise not-found |
| SupplierService.CreateSupplier | src/main/java/com/teacollection/teacollection_backend/service/impl/SupplierServiceImpl.java:38-52 | the defaulted supplier is saved under its own id |
| SupplierService.UpdateSupplier | src/main/java/com/teacollection/teacollection_backend/service/impl/SupplierServiceImpl.java:55-66 | fails when absent; otherwise the supplier is stored under the path id |
| SupplierService.DeleteSupplier | src/main/java/com/teacollection/teacollection_backend/service/impl/SupplierServiceImpl.java:69-78 | fails when absent; otherwise only that row disappears |
| SupplierService.UpdateSupplierStatus | src/main/java/com/teacollection/teacollection_backend/service/impl/SupplierServiceImpl.java:109-118 | fails when absent; otherwise only the readiness flag changes |
| SupplierService.GetReadySuppliers | src/main/java/com/teacollection/teacollection_backend/service/impl/SupplierServiceImpl.java:82-85 | exactly the ready suppliers |
| SupplierService.GetSuppliersByStatus | src/main/java/com/teacollection/teacollection_backend/service/impl/SupplierServiceImpl.java:89-92 | the suppliers with the given readiness whose window contains now |
| SupplierService.GetSuppliersByWeight | src/main/java/com/teacollection/teacollection_backend/service/impl/SupplierServiceImpl.java:103-106 | the suppliers whose harvest is at least the minimum |
| SupplierService.GetSuppliersBecomingAvailable | src/main/java/com/teacollection/teacollection_backend/service/impl/SupplierServiceImpl.java:122-129 | the suppliers not yet ready whose window opens in [now, now + minutes] |
| SupplierService.BecomingAvailableWindow | src/main/java/com/teacollection/teacollection_backend/service/impl/SupplierServiceImpl.java:125-128 | a negative look-ahead finds nothing; a zero look-ahead finds only windows opening exactly now |
| SupplierService.GetSuppliersAvailableInWindow | src/main/java/com/teacollection/teacollection_backend/service/impl/SupplierServiceImpl.java:140-143 | the suppliers whose window overlaps the requested one |
| SupplierService.GetSupplierCount | src/main/java/com/teacollection/teacollection_backend/service/impl/SupplierServiceImpl.java:133-136 | the count is the number of stored suppliers with the given readiness; so it is at most the number of suppliers, and 0 exactly when none has it |
| SupplierService.SupplierCountsPartition | src/main/java/com/teacollection/teacollection_backend/service/impl/SupplierServiceImpl.java:133-136 | the ready and not-ready counts add up to the number of suppliers |
| SupplierService.CreatedSupplierAvailableNow | src/main/java/com/teacollection/teacollection_backend/service/impl/SupplierServiceImpl.java:38-52 | a supplier created without a window is available at any moment between the two clock readings of its creation |
| RouteStatusText.ParseRouteStatus | src/main/java/com/teacollection/teacollection_backend/service/impl/RouteServiceImpl.java:134-137 | the text names a status exactly when its upper-case form is that status's constant name |
| RouteStatusText.ParseIgnoresCase | src/main/java/com/teacollection/teacollection_backend/service/impl/RouteServiceImpl.java:134 | a text, its upper-case and its lower-case form parse alike |
| RouteStatusText.ParseName | src/main/java/com/teacollection/teacollection_backend/service/impl/RouteServiceImpl.java:165 | every status is read back from its constant name, in either case |
| RouteStatusText.SpacedNameRejected | src/main/java/com/teacollection/teacollection_backend/service/impl/RouteServiceImpl.java:175-177 | a display form such as "In Progress" is not a status name |
| Calendar.ParseIsoLocalDate | src/main/java/com/teacollection/teacollection_backend/service/impl/RouteServiceImpl.java:190 | an accepted text has ten characters and denotes an existing date |
| Calendar.ParseFormatRoundTrip | src/main/java/com/teacollection/teacollection_backend/service/impl/RouteServiceImpl.java:190 | every existing date is read back from its YYYY-MM-DD text |
| Calendar.FormatParseRoundTrip | src/main/java/com/teacollection/teacollection_backend/service/impl/RouteServiceImpl.java:190 | every accepted text is the YYYY-MM-DD text of the date it denotes, so parsing is one-to-one |
| Calendar.NextDate | src/main/java/com/teacollection/teacollection_backend/service/impl/RouteServiceImpl.java:191-192 | the day after a valid date is a valid, later date |
| Calendar.NextDayNumber | src/main/java/com/teacollection/teacollection_backend/service/impl/RouteServiceImpl.java:191-192 | consecutive dates have consecutive day numbers, across month ends, year ends and leap days, so day windows tile time without gaps |
| Calendar.DayNumberIncreasing | src/main/java/com/teacollection/teacollection_backend/service/impl/RouteServiceImpl.java:191-192 | later dates have larger day numbers |
| Calendar.WindowIsDay | src/main/java/com/teacollection/teacollection_backend/service/impl/RouteServiceImpl.java:191-192 | a time lies in [00:00:00, 23:59:59] of a date exactly when it falls on that day |
| Calendar.DistinctDatesDisjointWindows | src/main/java/com/teacollection/teacollection_backend/service/impl/RouteServiceImpl.java:191-192 | different dates have disjoint windows |
| Calendar.MidnightWindow | src/main/java/com/teacollection/teacollection_backend/service/impl/RouteServiceImpl.java:153-154 | today's window starts at a midnight and contains the current time |
| RouteService.ValidateRoute | src/main/java/com/teacollection/teacollection_backend/service/impl/RouteServiceImpl.java:44-62 | checks run in the order truck, depot, suppliers (null or empty), distance, weight; each error is reported exactly when all earlier checks pass and its own fails |
| RouteService.ApplyRouteDefaults | src/main/java/com/teacollection/teacollection_backend/service/impl/RouteServiceImpl.java:65-75 | a missing status becomes PLANNED, a missing start now + 1 h, a missing end the start + 4 h; given values and other fields are kept |
| RouteService.RouteDefaultsIdempotent | src/main/java/com/teacollection/teacollection_backend/service/impl/RouteServiceImpl.java:65-75 | applying the defaults again, at any time, changes nothing |
| RouteService.DefaultSchedule | src/main/java/com/teacollection/teacollection_backend/service/impl/RouteServiceImpl.java:69-75 | with no estimates the route starts in one hour and runs four; a given start moves the default end with it |
| RouteService.GetRouteById | src/main/java/com/teacollection/teacollection_backend/service/impl/RouteServiceImpl.java:33-37 | found exactly when stored; otherwise not-found |
| RouteService.CreateRoute | src/main/java/com/teacollection/teacollection_backend/service/impl/RouteServiceImpl.java:40-80 | saved under a fresh id exactly when the route is valid, with the defaults applied; otherwise the first failing check |
| RouteService.CreatedRouteIsScheduled | src/main/java/com/teacollection/teacollection_backend/service/impl/RouteServiceImpl.java:40-80 | a created route is valid and has a status and both estimates |
| RouteService.UpdateRoute | src/main/java/com/teacollection/teacollection_backend/service/impl/RouteServiceImpl.java:83-115 | not-found first, then the same checks as create; the route is stored under the path id with no defaults |
| RouteService.UpdateKeepsMissingFields | src/main/java/com/teacollection/teacollection_backend/service/impl/RouteServiceImpl.java:111-112 | an update leaves a missing status and start missing |
| RouteService.DeleteRoute | src/main/java/com/teacollection/teacollection_backend/service/impl/RouteServiceImpl.java:118-127 | fails when absent; otherwise only that row disappears |
| RouteService.GetRoutesByStatus | src/main/java/com/teacollection/teacollection_backend/service/impl/RouteServiceImpl.java:131-139 | an unknown status name fails; otherwise exactly the routes with that status |
| RouteService.GetRoutesByTruck | src/main/java/com/teacollection/teacollection_backend/service/impl/RouteServiceImpl.java:143-146 | exactly the routes whose truck has the given id |
| RouteService.CreatedBetween | src/main/java/com/teacollection/teacollection_backend/service/impl/RouteServiceImpl.java:155 | exactly the routes created within the closed interval |
| RouteService.GetRoutesByDepot | src/main/java/com/teacollection/teacollection_backend/service/impl/RouteServiceImpl.java:150-156 | the routes created today, whatever the depot |
| RouteService.RoutesByDepotIgnoresDepot | src/main/java/com/teacollection/teacollection_backend/service/impl/RouteServiceImpl.java:152-155 | two depot ids give the same answer |
| RouteService.GetRoutesByDate | src/main/java/com/teacollection/teacollection_backend/service/impl/RouteServiceImpl.java:186-198 | a malformed or impossible date fails; otherwise exactly the routes created on that day |
| RouteService.RoutesByDateDisjoint | src/main/java/com/teacollection/teacollection_backend/service/impl/RouteServiceImpl.java:189-194 | two different date texts never list the same route |
| RouteService.WithStatus | src/main/java/com/teacollection/teacollection_backend/service/impl/RouteServiceImpl.java:165-173 | the status is replaced; IN_PROGRESS records the actual start and COMPLETED the actual end, each only if unset; nothing else changes |
| RouteService.UpdateRouteStatus | src/main/java/com/teacollection/teacollection_backend/service/impl/RouteServiceImpl.java:159-182 | not-found first, then an invalid status name; otherwise the route with its new status is saved in place |
| RouteService.AnyTransitionAllowed | src/main/java/com/teacollection/teacollection_backend/service/impl/RouteServiceImpl.java:165-166 | any route may move to any status, named in any case |
| RouteService.ActualTimesSetOnce | src/main/java/com/teacollection/teacollection_backend/service/impl/RouteServiceImpl.java:169-173 | a recorded actual start or end survives every later status change |
| RouteService.StatusChangeIdempotent | src/main/java/com/teacollection/teacollection_backend/service/impl/RouteServiceImpl.java:169-173 | repeating a status change later changes nothing: the first timestamp wins |
| RouteService.StartThenComplete | src/main/java/com/teacollection/teacollection_backend/service/impl/RouteServiceImpl.java:169-173 | starting then completing a fresh route records both moments and ends COMPLETED |

## Left out

- The planning library skips uninitialised entities: its `forEach` and `ifNotExists` see only assignments whose truck and predecessor are both set, and it reports a partly initialised solution through a separate init score. The model reads the constraints literally on every assignment, so the "unassigned supplier" term and the scores of unsolved problems (NewProblemScore, TestProblemInitialScore) are what the constraint text says, not what the library reports. An assignment with a truck but no predecessor counts towards its truck here; the library would drop it.
- The local-search solver is left out. Its moves, acceptance and termination belong to the planning library. `Scored` stands in for "the solver returns a scored solution". The asynchronous solve entry point returns the unsolved problem and is not modelled.
- REST controllers are HTTP plumbing. Their load and timestamp checks repeat the service rules modelled here.
- Repository queries are modelled only as the filters the services rely on. The radius queries (`getDepotsNearby`, `getSuppliersNearby`) run in the database and are not modelled.
- The JPA lifecycle hooks that stamp `createdAt` and `updatedAt` are not modelled. A route's creation time is whatever the stored record holds.
- Saving a record with a preset id into a generated-id table is not modelled. Created depots, trucks and routes get a fresh id, passed in as `newId`.
- The pass-through `getAll*` methods are not modelled.
- `triggerRouteOptimization` only logs, so it is not modelled.
- The default no-argument constructors, which leave the lists null, are not modelled.
- The wall clock is a parameter. `createSupplier` reads it twice, and both readings are parameters. Every other operation takes a single reading `now`. In `getRoutesByDepot` the start and the end of the window come from two separate reads, so a call straddling midnight gets a window from one day's start to the next day's end; the model uses a single reading.
- Time is whole seconds. Sub-second parts are not modelled, so a time in the last second of a day, such as 23:59:59.5, falls inside the modelled window but outside the source's. Likewise `getRoutesByDepot` zeroes hour, minute and second but keeps the current sub-second part, so its window starts at 00:00:00.nnn rather than at midnight; a route created between midnight and that instant is missed by the source but found by the model (MidnightWindow starts the window at midnight).
- Floating-point rounding, NaN and infinities are not modelled. Doubles are exact reals, so a NaN coordinate, which passes the source's range checks, has no counterpart.
- TeaCollectionConstraints.TruncateToInt: the cast is unbounded and does not saturate at the 32-bit limits. The `int` sums of the score do not wrap around.
- Truck equality in the source is value equality of the records, so equal trucks would share loads. The model refers to trucks by position, so equal trucks stay distinct.
- RouteStatusText.ParseRouteStatus: `toUpperCase()` uses the JVM's default locale, which the model does not have. Under a Turkish locale `in_progress` becomes `İN_PROGRESS` and is rejected; the model accepts it as in any other locale.
- RouteStatusText.ParseRouteStatus: upper-casing is ASCII only. Java's full Unicode upper-casing also maps a few non-ASCII spellings onto status names, for example `ß` to `SS` and the dotless `ı` to `I`.
- A null status string, on which the source fails with a null dereference, is not modelled.
- Calendar.ParseIsoLocalDate: only unsigned four-digit years are accepted. The signed and extended-year forms are rejected.
- `SupplierVisit`, `RouteStop` and the stale integration test are outside the core.
- `getTrucksByCapacity` passes `Double.MAX_VALUE` as the upper bound. The model has no upper bound.
