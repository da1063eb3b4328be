/** The score calculator. Four constraints over a solution:
    hard: capacity overflow per used truck, one point per unassigned supplier;
    soft: link distance between an assigned assignment and its assigned
    predecessor (no depot legs), and a reward of 100 per unused truck.
    Penalties lower a level of the score, rewards raise it. */
module TeaCollectionConstraints {
  import opened Wrappers
  import opened Entities
  import opened SupplierAssignments
  import opened TeaLeafSolutions
  import Distance

  /** Soft reward granted for each truck that carries nothing. */
  const UnusedTruckReward: int := 100

  /** Java's `(int)` cast of a double: truncation toward zero. */
  function TruncateToInt(x: real): (r: int)
    ensures 0.0 <= x ==> 0 <= r && r as real <= x < (r + 1) as real
    ensures x < 0.0 ==> r <= 0 && x <= r as real < x + 1.0
  {
    if 0.0 <= x then x.Floor else -((-x).Floor)
  }

  predicate IsIntegral(x: real) {
    x.Floor as real == x
  }

  /** Truncation leaves whole numbers alone. */
  lemma TruncateIntegral(x: real)
    requires IsIntegral(x)
    ensures TruncateToInt(x) as real == x
  {
    var n := x.Floor;
    if x < 0.0 {
      assert -x == (-n) as real;
      assert (-x).Floor == -n;
    }
  }

  /** The weight an assignment adds to its truck's load in the capacity constraint. */
  function TruncatedWeight(a: SupplierAssignment): int {
    TruncateToInt(HarvestWeight(a))
  }

  /** What assignment `a` adds to the load of truck `t`. */
  function Contribution(a: SupplierAssignment, t: nat): int {
    if a.assignedTruck == Some(t) then TruncatedWeight(a) else 0
  }

  /** Sum of the truncated weights of the assignments assigned to truck `t`. */
  function TruckLoad(asg: seq<SupplierAssignment>, t: nat): (load: int)
    ensures !UsesTruck(asg, t) ==> load == 0
    ensures (forall i :: 0 <= i < |asg| ==> 0.0 <= HarvestWeight(asg[i])) ==> 0 <= load
  {
    if |asg| == 0 then 0
    else
      assert UsesTruck(asg[1..], t) ==> UsesTruck(asg, t) by {
        if UsesTruck(asg[1..], t) {
          var j :| 0 <= j < |asg[1..]| && asg[1..][j].assignedTruck == Some(t);
          assert asg[j + 1].assignedTruck == Some(t);
        }
      }
      assert (forall i :: 0 <= i < |asg| ==> 0.0 <= HarvestWeight(asg[i])) ==>
        (forall i :: 0 <= i < |asg[1..]| ==> 0.0 <= HarvestWeight(asg[1..][i])) by {
        forall i | 0 <= i < |asg[1..]| ensures asg[1..][i] == asg[i + 1] { }
      }
      Contribution(asg[0], t) + TruckLoad(asg[1..], t)
  }

  /** Some assignment is assigned to truck `t`. */
  predicate UsesTruck(asg: seq<SupplierAssignment>, t: nat) {
    exists i :: 0 <= i < |asg| && asg[i].assignedTruck == Some(t)
  }

  function Max(a: real, b: real): real {
    if a < b then b else a
  }

  /** Hard penalty of truck `t`: only trucks carrying something form a group;
      an overloaded group pays the overflow, truncated to an int. */
  function CapacityPenalty(s: TeaLeafSolution, t: nat): (p: int)
    requires t < |s.trucks|
    ensures 0 <= p
    ensures p > 0 ==>
      (UsesTruck(s.supplierAssignments, t) && TruckLoad(s.supplierAssignments, t) as real > s.trucks[t].maxCapacity)
    ensures !UsesTruck(s.supplierAssignments, t) ==> p == 0
    ensures UsesTruck(s.supplierAssignments, t) && TruckLoad(s.supplierAssignments, t) as real > s.trucks[t].maxCapacity ==>
      p == TruncateToInt(TruckLoad(s.supplierAssignments, t) as real - s.trucks[t].maxCapacity)
    ensures IsIntegral(s.trucks[t].maxCapacity) && UsesTruck(s.supplierAssignments, t) ==>
      p as real == Max(0.0, TruckLoad(s.supplierAssignments, t) as real - s.trucks[t].maxCapacity)
  {
    var load := TruckLoad(s.supplierAssignments, t);
    var capacity := s.trucks[t].maxCapacity;
    if UsesTruck(s.supplierAssignments, t) && load as real > capacity then
      var overflow := load as real - capacity;
      assert IsIntegral(capacity) ==> overflow == (load - capacity.Floor) as real;
      TruncateToInt(overflow)
    else
      0
  }

  /** Capacity penalties of the first `k` trucks. */
  function CapacityPenaltySum(s: TeaLeafSolution, k: nat): (p: int)
    requires k <= |s.trucks|
    ensures 0 <= p
    ensures p == 0 <==> forall t :: 0 <= t < k ==> CapacityPenalty(s, t) == 0
  {
    if k == 0 then 0 else CapacityPenaltySum(s, k - 1) + CapacityPenalty(s, k - 1)
  }

  /** Number of assignments without a truck. */
  function UnassignedCount(asg: seq<SupplierAssignment>): (n: nat)
    ensures n <= |asg|
    ensures n == 0 <==> forall i :: 0 <= i < |asg| ==> IsAssigned(asg[i])
    ensures n == |asg| <==> forall i :: 0 <= i < |asg| ==> !IsAssigned(asg[i])
  {
    if |asg| == 0 then 0 else (if IsAssigned(asg[0]) then 0 else 1) + UnassignedCount(asg[1..])
  }

  /** The distance helper: 0 when either side is null, else the link distance
      of the two assignments' coordinates. */
  function CalculateDistanceBetweenSuppliers(s1: Option<SupplierAssignment>, s2: Option<SupplierAssignment>): (d: nat)
    ensures s1.None? || s2.None? ==> d == 0
    ensures s1.Some? && s2.Some? ==>
      d == Distance.LinkDistance(Latitude(s1.value), Longitude(s1.value), Latitude(s2.value), Longitude(s2.value))
  {
    if s1.None? || s2.None? then 0
    else Distance.LinkDistance(Latitude(s1.value), Longitude(s1.value), Latitude(s2.value), Longitude(s2.value))
  }

  /** The distance penalty of assignment `i`: charged only when it and its
      predecessor are both assigned, whatever their trucks. */
  function LinkCost(s: TeaLeafSolution, i: nat): (c: nat)
    requires WellFormed(s) && i < |s.supplierAssignments|
    ensures c > 0 ==>
      var a := s.supplierAssignments[i];
      IsAssigned(a) && a.previousAssignment.Some? && IsAssigned(s.supplierAssignments[a.previousAssignment.value])
    ensures var a := s.supplierAssignments[i];
      IsAssigned(a) && a.previousAssignment.Some? && IsAssigned(s.supplierAssignments[a.previousAssignment.value]) ==>
        var prev := s.supplierAssignments[a.previousAssignment.value];
        c == Distance.LinkDistance(Latitude(prev), Longitude(prev), Latitude(a), Longitude(a))
  {
    var a := s.supplierAssignments[i];
    if IsAssigned(a) && a.previousAssignment.Some? && IsAssigned(s.supplierAssignments[a.previousAssignment.value]) then
      CalculateDistanceBetweenSuppliers(Some(s.supplierAssignments[a.previousAssignment.value]), Some(a))
    else
      0
  }

  /** Distance penalties of the first `k` assignments. */
  function DistanceSum(s: TeaLeafSolution, k: nat): (d: nat)
    requires WellFormed(s) && k <= |s.supplierAssignments|
    ensures d == 0 <==> forall i :: 0 <= i < k ==> LinkCost(s, i) == 0
  {
    if k == 0 then 0 else DistanceSum(s, k - 1) + LinkCost(s, k - 1)
  }

  /** Trucks among the first `k` with no assignment. */
  function UnusedTrucks(s: TeaLeafSolution, k: nat): (u: set<nat>)
    requires k <= |s.trucks|
  {
    set t: nat | t < k && !UsesTruck(s.supplierAssignments, t)
  }

  /** How many of the first `k` trucks are unused. */
  function UnusedTruckCount(s: TeaLeafSolution, k: nat): (n: nat)
    requires k <= |s.trucks|
    ensures n == |UnusedTrucks(s, k)|
    ensures n <= k
  {
    if k == 0 then
      assert UnusedTrucks(s, 0) == {};
      0
    else
      var rest := UnusedTruckCount(s, k - 1);
      if UsesTruck(s.supplierAssignments, k - 1) then
        assert UnusedTrucks(s, k) == UnusedTrucks(s, k - 1);
        rest
      else
        assert UnusedTrucks(s, k) == UnusedTrucks(s, k - 1) + {k - 1};
        rest + 1
  }

  function HardScore(s: TeaLeafSolution): (h: int)
    requires WellFormed(s)
    ensures h <= 0
  {
    -(CapacityPenaltySum(s, |s.trucks|) + UnassignedCount(s.supplierAssignments))
  }

  function SoftScore(s: TeaLeafSolution): (soft: int)
    requires WellFormed(s)
    ensures soft <= UnusedTruckReward * |s.trucks|
    ensures (forall i :: 0 <= i < |s.supplierAssignments| ==> LinkCost(s, i) == 0) ==> 0 <= soft
  {
    UnusedTruckReward * UnusedTruckCount(s, |s.trucks|) - DistanceSum(s, |s.supplierAssignments|)
  }

  function CalculateScore(s: TeaLeafSolution): (score: HardSoftScore)
    requires WellFormed(s)
    ensures score.hard == HardScore(s) && score.soft == SoftScore(s)
    ensures score.hard <= 0 && score.soft <= UnusedTruckReward * |s.trucks|
  {
    HardSoftScore(HardScore(s), SoftScore(s))
  }

  // ---------------------------------------------------------------------------
  // Properties of the hard level

  /** Changing one assignment moves the unassigned count by exactly the change
      in that assignment's own status: each unassigned one costs one point. */
  lemma {:induction false} UnassignedCountUpdate(asg: seq<SupplierAssignment>, i: nat, a: SupplierAssignment)
    requires i < |asg|
    ensures UnassignedCount(asg[i := a]) ==
      UnassignedCount(asg) - (if IsAssigned(asg[i]) then 0 else 1) + (if IsAssigned(a) then 0 else 1)
  {
    if i == 0 {
      assert asg[i := a][1..] == asg[1..];
    } else {
      assert asg[i := a][1..] == asg[1..][i - 1 := a];
      UnassignedCountUpdate(asg[1..], i - 1, a);
    }
  }

  /** Changing one assignment moves truck `t`'s load by exactly the change in
      that assignment's contribution; unassigned ones contribute nothing. */
  lemma {:induction false} TruckLoadUpdate(asg: seq<SupplierAssignment>, i: nat, a: SupplierAssignment, t: nat)
    requires i < |asg|
    ensures !IsAssigned(a) ==> Contribution(a, t) == 0
    ensures TruckLoad(asg[i := a], t) == TruckLoad(asg, t) - Contribution(asg[i], t) + Contribution(a, t)
  {
    if i == 0 {
      assert asg[i := a][1..] == asg[1..];
    } else {
      assert asg[i := a][1..] == asg[1..][i - 1 := a];
      TruckLoadUpdate(asg[1..], i - 1, a, t);
    }
  }

  /** Total truncated weight of all assigned assignments. */
  function AssignedWeight(asg: seq<SupplierAssignment>): int {
    if |asg| == 0 then 0 else (if IsAssigned(asg[0]) then TruncatedWeight(asg[0]) else 0) + AssignedWeight(asg[1..])
  }

  /** Loads of the first `k` trucks, added up. */
  function LoadSum(asg: seq<SupplierAssignment>, k: nat): int {
    if k == 0 then 0 else LoadSum(asg, k - 1) + TruckLoad(asg, k - 1)
  }

  /** What `a` adds to the first `k` trucks' loads together. */
  function ContributionSum(a: SupplierAssignment, k: nat): int {
    if k == 0 then 0 else ContributionSum(a, k - 1) + Contribution(a, k - 1)
  }

  lemma {:induction false} ContributionSumIsWeight(a: SupplierAssignment, k: nat)
    ensures ContributionSum(a, k) == if a.assignedTruck.Some? && a.assignedTruck.value < k then TruncatedWeight(a) else 0
  {
    if k > 0 {
      ContributionSumIsWeight(a, k - 1);
    }
  }

  lemma {:induction false} LoadSumSplit(asg: seq<SupplierAssignment>, k: nat)
    requires |asg| > 0
    ensures LoadSum(asg, k) == ContributionSum(asg[0], k) + LoadSum(asg[1..], k)
  {
    if k > 0 {
      LoadSumSplit(asg, k - 1);
    }
  }

  /** Weight is conserved: when every truck index is in range, the per-truck
      loads add up to the weight of all assigned assignments, so each assigned
      supplier is counted on exactly one truck and unassigned ones on none. */
  lemma {:induction false} LoadConservation(asg: seq<SupplierAssignment>, n: nat)
    requires forall i :: 0 <= i < |asg| && asg[i].assignedTruck.Some? ==> asg[i].assignedTruck.value < n
    ensures LoadSum(asg, n) == AssignedWeight(asg)
  {
    if |asg| == 0 {
      LoadSumEmpty(asg, n);
    } else {
      LoadSumSplit(asg, n);
      ContributionSumIsWeight(asg[0], n);
      LoadConservation(asg[1..], n);
    }
  }

  lemma {:induction false} LoadSumEmpty(asg: seq<SupplierAssignment>, k: nat)
    requires |asg| == 0
    ensures LoadSum(asg, k) == 0
  {
    if k > 0 {
      LoadSumEmpty(asg, k - 1);
    }
  }

  /** With whole-number capacities the hard score is 0 exactly when every
      supplier is assigned and no used truck carries more than its capacity. */
  lemma HardScoreZeroIff(s: TeaLeafSolution)
    requires WellFormed(s)
    requires forall t :: 0 <= t < |s.trucks| ==> IsIntegral(s.trucks[t].maxCapacity)
    ensures HardScore(s) == 0 <==>
      && (forall i :: 0 <= i < |s.supplierAssignments| ==> IsAssigned(s.supplierAssignments[i]))
      && (forall t :: 0 <= t < |s.trucks| && UsesTruck(s.supplierAssignments, t) ==>
            TruckLoad(s.supplierAssignments, t) as real <= s.trucks[t].maxCapacity)
  {
    var asg := s.supplierAssignments;
    if HardScore(s) == 0 {
      forall t | 0 <= t < |s.trucks| && UsesTruck(asg, t)
        ensures TruckLoad(asg, t) as real <= s.trucks[t].maxCapacity
      {
        assert CapacityPenalty(s, t) == 0;
      }
    }
  }

  /** An overflow smaller than one unit on a fractional capacity truncates to
      a zero penalty: a truck of capacity 1000.5 carrying 1001 is overloaded
      yet the hard score is 0. */
  lemma FractionalOverflowUnpenalized()
    ensures var s := NewSolution(
        [Truck(Some(1), 1000.5, 0.0, None)],
        [SupplierAssignment(Some(Supplier(Some(1), 0.0, 0.0, 1001.0, true, None, None)), Some(0), None)],
        None);
      && WellFormed(s)
      && TruckLoad(s.supplierAssignments, 0) as real > s.trucks[0].maxCapacity
      && HardScore(s) == 0
  {
    var s := NewSolution(
        [Truck(Some(1), 1000.5, 0.0, None)],
        [SupplierAssignment(Some(Supplier(Some(1), 0.0, 0.0, 1001.0, true, None, None)), Some(0), None)],
        None);
    assert UsesTruck(s.supplierAssignments, 0) by {
      assert s.supplierAssignments[0].assignedTruck == Some(0);
    }
    assert TruckLoad(s.supplierAssignments, 0) == 1001;
    assert CapacityPenalty(s, 0) == 0;
  }

  // ---------------------------------------------------------------------------
  // Properties of the soft level

  /** The distance helper is 0 on a null side and symmetric in its sides. */
  lemma DistanceHelperProperties(s1: Option<SupplierAssignment>, s2: Option<SupplierAssignment>)
    ensures s1.None? || s2.None? ==> CalculateDistanceBetweenSuppliers(s1, s2) == 0
    ensures CalculateDistanceBetweenSuppliers(s1, s2) == CalculateDistanceBetweenSuppliers(s2, s1)
    ensures s1.Some? ==> CalculateDistanceBetweenSuppliers(s1, s1) == 0
  {
    if s1.Some? && s2.Some? {
      Distance.LinkDistanceSymmetric(Latitude(s1.value), Longitude(s1.value), Latitude(s2.value), Longitude(s2.value));
    }
    if s1.Some? {
      Distance.LinkDistanceZeroIffClose(Latitude(s1.value), Longitude(s1.value), Latitude(s1.value), Longitude(s1.value));
    }
  }

  /** There is no depot leg: if no assignment has an assigned predecessor,
      the distance penalty is zero however the trucks are chosen. */
  lemma {:induction false} NoLinksNoDistance(s: TeaLeafSolution, k: nat)
    requires WellFormed(s) && k <= |s.supplierAssignments|
    requires forall i :: 0 <= i < |s.supplierAssignments| ==>
      var p := s.supplierAssignments[i].previousAssignment;
      p.None? || !IsAssigned(s.supplierAssignments[p.value])
    ensures DistanceSum(s, k) == 0
  {
    if k > 0 {
      NoLinksNoDistance(s, k - 1);
    }
  }

  /** With no assignment assigned, every truck earns the unused reward. */
  lemma {:induction false} AllTrucksUnusedWhenNothingAssigned(s: TeaLeafSolution, k: nat)
    requires k <= |s.trucks|
    requires forall i :: 0 <= i < |s.supplierAssignments| ==> !IsAssigned(s.supplierAssignments[i])
    ensures UnusedTruckCount(s, k) == k
  {
    if k > 0 {
      AllTrucksUnusedWhenNothingAssigned(s, k - 1);
    }
  }

  /** A truck's reward is all-or-nothing: it is among the rewarded trucks
      exactly when no assignment is assigned to it. */
  lemma UnusedRewardPerTruck(s: TeaLeafSolution, t: nat)
    requires t < |s.trucks|
    ensures t in UnusedTrucks(s, |s.trucks|) <==> forall i :: 0 <= i < |s.supplierAssignments| ==>
      s.supplierAssignments[i].assignedTruck != Some(t)
  {
  }

  /** The score of the problem as built before solving: one hard point lost
      per supplier, 100 soft points gained per truck, nothing else. */
  lemma NewProblemScore(trucks: seq<Truck>, suppliers: seq<Supplier>, depot: Option<Depot>)
    ensures var s := NewProblem(trucks, suppliers, depot);
      WellFormed(s) && CalculateScore(s) == HardSoftScore(-|suppliers|, UnusedTruckReward * |trucks|)
  {
    var s := NewProblem(trucks, suppliers, depot);
    NewProblemIsWellFormed(trucks, suppliers, depot);
    assert forall i :: 0 <= i < |s.supplierAssignments| ==> !IsAssigned(s.supplierAssignments[i]);
    AllTrucksUnusedWhenNothingAssigned(s, |trucks|);
    NoLinksNoDistance(s, |s.supplierAssignments|);
  }
}
