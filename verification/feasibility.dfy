/** What the solver test accepts as a feasible solution, and the test's
    3-truck / 5-supplier instance. The test sums the untruncated weights,
    unlike the capacity constraint, which sums truncated ones. */
module Feasibility {
  import opened Wrappers
  import opened Entities
  import opened SupplierAssignments
  import opened TeaLeafSolutions
  import opened TeaCollectionConstraints

  /** Untruncated weight carried by truck `t`. */
  function RealLoad(asg: seq<SupplierAssignment>, t: nat): (load: real)
    ensures (forall i :: 0 <= i < |asg| ==> 0.0 <= HarvestWeight(asg[i])) ==> 0.0 <= load
  {
    if |asg| == 0 then 0.0
    else
      assert (forall i :: 0 <= i < |asg| ==> 0.0 <= HarvestWeight(asg[i])) ==>
        (forall i :: 0 <= i < |asg[1..]| ==> 0.0 <= HarvestWeight(asg[1..][i])) by {
        forall i | 0 <= i < |asg[1..]| ensures asg[1..][i] == asg[i + 1] { }
      }
      (if asg[0].assignedTruck == Some(t) then HarvestWeight(asg[0]) else 0.0) + RealLoad(asg[1..], t)
  }

  /** The test's acceptance: every supplier assigned, every truck within
      capacity by untruncated weight, and a score present with hard >= 0. */
  function VerifySolution(s: TeaLeafSolution): (ok: bool)
    ensures ok ==> UnassignedCount(s.supplierAssignments) == 0 && s.score.Some?
    ensures ok && (forall i :: 0 <= i < |s.supplierAssignments| ==> 0.0 <= HarvestWeight(s.supplierAssignments[i])) ==>
      forall t :: 0 <= t < |s.trucks| ==> 0.0 <= s.trucks[t].maxCapacity
  {
    && (forall i :: 0 <= i < |s.supplierAssignments| ==> IsAssigned(s.supplierAssignments[i]))
    && (forall t :: 0 <= t < |s.trucks| ==> RealLoad(s.supplierAssignments, t) <= s.trucks[t].maxCapacity)
    && s.score.Some?
    && s.score.value.hard >= 0
  }

  /** The solution as returned by the solver, with its score filled in. */
  function Scored(s: TeaLeafSolution): (r: TeaLeafSolution)
    requires WellFormed(s)
    ensures WellFormed(r) && r.score == Some(CalculateScore(s))
    ensures r.trucks == s.trucks && r.supplierAssignments == s.supplierAssignments
  {
    SetScore(s, Some(CalculateScore(s)))
  }

  /** Since the hard score is never positive, the test's `hard >= 0` check
      accepts only a hard score of exactly 0. */
  lemma VerifiedMeansHardZero(s: TeaLeafSolution)
    requires WellFormed(s) && VerifySolution(Scored(s))
    ensures HardScore(s) == 0
  {
  }

  /** With non-negative weights, truncation can only lower a load. */
  lemma {:induction false} TruncatedLoadAtMostRealLoad(asg: seq<SupplierAssignment>, t: nat)
    requires forall i :: 0 <= i < |asg| ==> 0.0 <= HarvestWeight(asg[i])
    ensures TruckLoad(asg, t) as real <= RealLoad(asg, t)
  {
    if |asg| > 0 {
      TruncatedLoadAtMostRealLoad(asg[1..], t);
    }
  }

  /** With whole-number weights the two loads agree. */
  lemma {:induction false} TruncatedLoadIsRealLoad(asg: seq<SupplierAssignment>, t: nat)
    requires forall i :: 0 <= i < |asg| ==> IsIntegral(HarvestWeight(asg[i]))
    ensures TruckLoad(asg, t) as real == RealLoad(asg, t)
  {
    if |asg| > 0 {
      TruncateIntegral(HarvestWeight(asg[0]));
      TruncatedLoadIsRealLoad(asg[1..], t);
    }
  }

  lemma {:induction false} RealLoadOfUnusedTruck(asg: seq<SupplierAssignment>, t: nat)
    requires forall i :: 0 <= i < |asg| ==> asg[i].assignedTruck != Some(t)
    ensures RealLoad(asg, t) == 0.0
  {
    if |asg| > 0 {
      RealLoadOfUnusedTruck(asg[1..], t);
    }
  }

  /** Every capacity is a non-negative whole number and every weight a whole number. */
  predicate WholeNumbers(s: TeaLeafSolution) {
    && (forall t :: 0 <= t < |s.trucks| ==> IsIntegral(s.trucks[t].maxCapacity) && 0.0 <= s.trucks[t].maxCapacity)
    && (forall i :: 0 <= i < |s.supplierAssignments| ==> IsIntegral(HarvestWeight(s.supplierAssignments[i])))
  }

  /** Conversely, for whole-number weights and non-negative whole-number
      capacities, a solution whose hard score is 0 passes the test. */
  lemma HardZeroPassesVerification(s: TeaLeafSolution)
    requires WellFormed(s) && WholeNumbers(s)
    requires HardScore(s) == 0
    ensures VerifySolution(Scored(s))
  {
    var asg := s.supplierAssignments;
    HardScoreZeroIff(s);
    forall t | 0 <= t < |s.trucks|
      ensures RealLoad(asg, t) <= s.trucks[t].maxCapacity
    {
      if UsesTruck(asg, t) {
        TruncatedLoadIsRealLoad(asg, t);
      } else {
        RealLoadOfUnusedTruck(asg, t);
      }
    }
  }

  /** Truncation can hide an overload: two suppliers of 600.7 and 400.6 on a
      1000-capacity truck count as 600 + 400 in the capacity constraint, so
      the hard score is 0, yet the test rejects the 1001.3 load. */
  lemma TruncationHidesOverload()
    ensures var s := NewSolution(
        [Truck(Some(1), 1000.0, 0.0, None)],
        [ SupplierAssignment(Some(Supplier(Some(1), 0.0, 0.0, 600.7, true, None, None)), Some(0), None),
          SupplierAssignment(Some(Supplier(Some(2), 0.0, 0.0, 400.6, true, None, None)), Some(0), None)],
        None);
      WellFormed(s) && HardScore(s) == 0 && !VerifySolution(Scored(s))
  {
    var s := NewSolution(
        [Truck(Some(1), 1000.0, 0.0, None)],
        [ SupplierAssignment(Some(Supplier(Some(1), 0.0, 0.0, 600.7, true, None, None)), Some(0), None),
          SupplierAssignment(Some(Supplier(Some(2), 0.0, 0.0, 400.6, true, None, None)), Some(0), None)],
        None);
    var asg := s.supplierAssignments;
    assert asg[1..][1..] == [];
    assert TruckLoad(asg, 0) == 1000;
    assert RealLoad(asg, 0) == 1001.3;
    assert CapacityPenalty(s, 0) == 0;
  }

  /** An unused truck with a negative capacity costs nothing in the hard
      score, but the test still rejects it, since an empty load exceeds it. */
  lemma NegativeCapacityUnusedTruck()
    ensures var s := NewSolution([Truck(Some(1), -1.0, 0.0, None)], [], None);
      WellFormed(s) && HardScore(s) == 0 && !VerifySolution(Scored(s))
  {
    var s := NewSolution([Truck(Some(1), -1.0, 0.0, None)], [], None);
    assert CapacityPenalty(s, 0) == 0;
  }

  // ---------------------------------------------------------------------------
  // The test instance

  function TestTrucks(): seq<Truck> {
    [ Truck(Some(1), 2000.0, 0.0, Some("IDLE")),
      Truck(Some(2), 1500.0, 0.0, Some("IDLE")),
      Truck(Some(3), 1000.0, 0.0, Some("IDLE"))]
  }

  function TestSuppliers(): seq<Supplier> {
    [ Supplier(Some(1), 1.0, 1.0, 800.0, true, None, None),
      Supplier(Some(2), 2.0, 1.0, 600.0, true, None, None),
      Supplier(Some(3), 1.0, 2.0, 400.0, true, None, None),
      Supplier(Some(4), 3.0, 2.0, 1200.0, true, None, None),
      Supplier(Some(5), 2.0, 3.0, 900.0, true, None, None)]
  }

  function TestDepot(): Depot {
    Depot(Some(1), 0.0, 0.0)
  }

  /** Suppliers 1 and 4 on the 2000 truck, 2 and 5 on the 1500 truck, 3 on the
      1000 truck; no predecessor links. */
  function WitnessAssignments(): seq<SupplierAssignment> {
    var sup := TestSuppliers();
    [ SupplierAssignment(Some(sup[0]), Some(0), None),
      SupplierAssignment(Some(sup[1]), Some(1), None),
      SupplierAssignment(Some(sup[2]), Some(2), None),
      SupplierAssignment(Some(sup[3]), Some(0), None),
      SupplierAssignment(Some(sup[4]), Some(1), None)]
  }

  function TestWitness(): TeaLeafSolution {
    NewSolution(TestTrucks(), WitnessAssignments(), Some(TestDepot()))
  }

  lemma WitnessLoads()
    ensures TruckLoad(WitnessAssignments(), 0) == 2000
    ensures TruckLoad(WitnessAssignments(), 1) == 1500
    ensures TruckLoad(WitnessAssignments(), 2) == 400
  {
    var asg := WitnessAssignments();
    forall t: nat
      ensures TruckLoad(asg, t) == Contribution(asg[0], t) + Contribution(asg[1], t)
        + Contribution(asg[2], t) + Contribution(asg[3], t) + Contribution(asg[4], t)
    {
      assert asg[4..][1..] == [];
      assert asg[3..][1..] == asg[4..];
      assert asg[2..][1..] == asg[3..];
      assert asg[1..][1..] == asg[2..];
      assert TruckLoad(asg[4..], t) == Contribution(asg[4], t);
      assert TruckLoad(asg[3..], t) == Contribution(asg[3], t) + TruckLoad(asg[4..], t);
      assert TruckLoad(asg[2..], t) == Contribution(asg[2], t) + TruckLoad(asg[3..], t);
      assert TruckLoad(asg[1..], t) == Contribution(asg[1], t) + TruckLoad(asg[2..], t);
    }
  }

  /** Before solving, the test instance scores -5 hard and +300 soft. */
  lemma TestProblemInitialScore()
    ensures var p := NewProblem(TestTrucks(), TestSuppliers(), Some(TestDepot()));
      WellFormed(p) && CalculateScore(p) == HardSoftScore(-5, 300)
  {
    NewProblemScore(TestTrucks(), TestSuppliers(), Some(TestDepot()));
  }

  /** The test instance admits a zero-hard solution: loads 2000, 1500 and
      400 against capacities 2000, 1500 and 1000. */
  lemma TestWitnessHardScoreZero()
    ensures WellFormed(TestWitness()) && HardScore(TestWitness()) == 0
  {
    var w := TestWitness();
    TestWitnessWellFormed();
    TestWitnessWithinCapacity();
    HardScoreZeroIff(w);
  }

  lemma TestWitnessWellFormed()
    ensures WellFormed(TestWitness())
    ensures forall i :: 0 <= i < |TestWitness().supplierAssignments| ==> IsAssigned(TestWitness().supplierAssignments[i])
  {
    var w := TestWitness();
    var asg := w.supplierAssignments;
    assert |asg| == 5 && |w.trucks| == 3;
    forall i | 0 <= i < |asg|
      ensures IsAssigned(asg[i]) && asg[i].previousAssignment.None? && asg[i].assignedTruck.value < 3
    {
    }
  }

  lemma TestWitnessWithinCapacity()
    ensures forall t :: 0 <= t < |TestWitness().trucks| ==>
      && IsIntegral(TestWitness().trucks[t].maxCapacity)
      && TruckLoad(TestWitness().supplierAssignments, t) as real <= TestWitness().trucks[t].maxCapacity
  {
    var trucks, asg := TestTrucks(), WitnessAssignments();
    WitnessLoads();
    forall t | 0 <= t < |trucks|
      ensures IsIntegral(trucks[t].maxCapacity) && TruckLoad(asg, t) as real <= trucks[t].maxCapacity
    {
      if t == 0 {
        assert trucks[0].maxCapacity == 2000.0;
      } else if t == 1 {
        assert trucks[1].maxCapacity == 1500.0;
      } else {
        assert trucks[2].maxCapacity == 1000.0;
      }
    }
    assert TestWitness().trucks == trucks && TestWitness().supplierAssignments == asg;
  }

  lemma TestWitnessWholeNumbers()
    ensures WholeNumbers(TestWitness())
  {
    var w := TestWitness();
    var asg := w.supplierAssignments;
    assert |asg| == 5 && |w.trucks| == 3;
    forall i | 0 <= i < |asg|
      ensures IsIntegral(HarvestWeight(asg[i]))
    {
    }
    forall t | 0 <= t < |w.trucks|
      ensures IsIntegral(w.trucks[t].maxCapacity) && 0.0 <= w.trucks[t].maxCapacity
    {
    }
  }

  /** ... and the solver test accepts that solution once it is scored. */
  lemma TestWitnessPassesVerification()
    ensures WellFormed(TestWitness()) && VerifySolution(Scored(TestWitness()))
  {
    TestWitnessHardScoreZero();
    TestWitnessWholeNumbers();
    HardZeroPassesVerification(TestWitness());
  }
}
