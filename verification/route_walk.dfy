/** Route-order reconstruction from the predecessor links, as the solver
    test prints a truck's route: start at the first assignment (in list
    order) without a predecessor, then repeatedly move to the first
    assignment whose predecessor is the current one. Assignments are
    identified by their index in the solution's assignment list; `sub` is
    the list being walked (one truck's assignments, in solution order). */
module RouteWalk {
  import opened Wrappers
  import opened Sets
  import opened SupplierAssignments

  /** Every entry of `sub` names an assignment of `asg`. */
  predicate InList(asg: seq<SupplierAssignment>, sub: seq<nat>) {
    forall k :: 0 <= k < |sub| ==> sub[k] < |asg|
  }

  function Previous(asg: seq<SupplierAssignment>, x: nat): Option<nat>
    requires x < |asg|
  {
    asg[x].previousAssignment
  }

  /** Position in `sub`, at or after `from`, of the first entry whose
      predecessor is `target`. */
  function FirstIndexFrom(asg: seq<SupplierAssignment>, sub: seq<nat>, target: Option<nat>, from: nat): (r: Option<nat>)
    requires InList(asg, sub) && from <= |sub|
    ensures r.None? <==> forall k :: from <= k < |sub| ==> Previous(asg, sub[k]) != target
    ensures r.Some? ==>
      && from <= r.value < |sub|
      && Previous(asg, sub[r.value]) == target
      && forall k :: from <= k < r.value ==> Previous(asg, sub[k]) != target
    decreases |sub| - from
  {
    if from == |sub| then None
    else if Previous(asg, sub[from]) == target then Some(from)
    else FirstIndexFrom(asg, sub, target, from + 1)
  }

  /** The first entry of `sub`, in list order, whose predecessor is `target`
      (`None` finds a route start, `Some(x)` finds the successor of `x`). */
  function Next(asg: seq<SupplierAssignment>, sub: seq<nat>, target: Option<nat>): (r: Option<nat>)
    requires InList(asg, sub)
    ensures r.None? <==> forall k :: 0 <= k < |sub| ==> Previous(asg, sub[k]) != target
    ensures r.Some? ==> r.value in sub && r.value < |asg| && Previous(asg, r.value) == target
  {
    var k := FirstIndexFrom(asg, sub, target, 0);
    if k.None? then None else Some(sub[k.value])
  }

  predicate Distinct(s: seq<nat>) {
    forall i, j :: 0 <= i < j < |s| ==> s[i] != s[j]
  }

  function Elems(s: seq<nat>): set<nat> {
    set x | x in s
  }

  /** `route` follows predecessor links: its head has none, and every later
      entry's predecessor is the entry before it. */
  predicate LinkedByPrevious(asg: seq<SupplierAssignment>, route: seq<nat>) {
    && (forall k :: 0 <= k < |route| ==> route[k] < |asg|)
    && (|route| > 0 ==> Previous(asg, route[0]).None?)
    && (forall k :: 0 < k < |route| ==> Previous(asg, route[k]) == Some(route[k - 1]))
  }

  /** An assignment whose predecessor is the last entry of a linked, repeat-free
      route is not already on it: a predecessor names one assignment, so a
      repeat would force an earlier repeat, down to the head, which has none. */
  lemma NoRepeat(asg: seq<SupplierAssignment>, route: seq<nat>, x: nat)
    requires LinkedByPrevious(asg, route) && Distinct(route) && |route| > 0
    requires x < |asg| && Previous(asg, x) == Some(route[|route| - 1])
    ensures x !in route
  {
    forall j | 0 <= j < |route|
      ensures route[j] != x
    {
      if 0 < j {
        assert route[j - 1] != route[|route| - 1];
      }
    }
  }

  /** A repeat-free sequence has as many distinct elements as entries. */
  lemma {:induction false} DistinctCardinality(s: seq<nat>)
    requires Distinct(s)
    ensures |Elems(s)| == |s|
  {
    if |s| > 0 {
      var init := s[..|s| - 1];
      assert Elems(s) == Elems(init) + {s[|s| - 1]};
      assert s[|s| - 1] !in Elems(init);
      DistinctCardinality(init);
    }
  }

  lemma {:induction false} ElemsCardinality(s: seq<nat>)
    ensures |Elems(s)| <= |s|
  {
    if |s| > 0 {
      var init := s[..|s| - 1];
      assert Elems(s) == Elems(init) + {s[|s| - 1]};
      ElemsCardinality(init);
    }
  }

  /** Appending the successor of the last entry (or, to an empty route, an
      entry without predecessor) keeps the route linked and repeat-free. */
  lemma Extend(asg: seq<SupplierAssignment>, sub: seq<nat>, route: seq<nat>, x: nat)
    requires InList(asg, sub) && LinkedByPrevious(asg, route) && Distinct(route)
    requires (forall k :: 0 <= k < |route| ==> route[k] in sub) && x in sub && x !in route
    requires |route| == 0 ==> Previous(asg, x).None?
    requires |route| > 0 ==> Previous(asg, x) == Some(route[|route| - 1])
    ensures LinkedByPrevious(asg, route + [x]) && Distinct(route + [x])
    ensures forall k :: 0 <= k < |route + [x]| ==> (route + [x])[k] in sub
    ensures Elems(route + [x]) == Elems(route) + {x}
  {
    assert x < |asg|;
  }

  /** Reconstructs the visiting order of the assignments in `sub`. When no
      entry lacks a predecessor the list is returned as it is; otherwise the
      walk follows first successors until none is left. It never revisits an
      entry, so it terminates even on cyclic links, and it returns at most
      `|sub|` entries, all taken from `sub`. */
  method BuildRoute(asg: seq<SupplierAssignment>, sub: seq<nat>) returns (route: seq<nat>)
    requires InList(asg, sub)
    ensures Next(asg, sub, None).None? ==> route == sub
    ensures Next(asg, sub, None).Some? ==>
      && |route| > 0
      && route[0] == Next(asg, sub, None).value
      && (forall k :: 0 <= k < |route| - 1 ==> Next(asg, sub, Some(route[k])) == Some(route[k + 1]))
      && Next(asg, sub, Some(route[|route| - 1])).None?
      && Distinct(route)
      && (forall k :: 0 <= k < |route| ==> route[k] in sub)
      && |route| <= |sub|
  {
    var start := Next(asg, sub, None);
    if start.None? {
      return sub;
    }
    route := [];
    var current := start;
    while current.Some?
      invariant forall k :: 0 <= k < |route| ==> route[k] in sub
      invariant LinkedByPrevious(asg, route) && Distinct(route)
      invariant |route| == 0 ==> current == start
      invariant |route| > 0 ==> route[0] == start.value
      invariant |route| > 0 ==> current == Next(asg, sub, Some(route[|route| - 1]))
      invariant forall k :: 0 <= k < |route| - 1 ==> Next(asg, sub, Some(route[k])) == Some(route[k + 1])
      invariant current.Some? ==> current.value in sub && current.value !in route
      decreases Elems(sub) - Elems(route)
    {
      var x := current.value;
      Extend(asg, sub, route, x);
      route := route + [x];
      current := Next(asg, sub, Some(x));
      if current.Some? {
        NoRepeat(asg, route, current.value);
      }
    }
    DistinctCardinality(route);
    ElemsCardinality(sub);
    SubsetCardinality(Elems(route), Elems(sub));
  }
}
