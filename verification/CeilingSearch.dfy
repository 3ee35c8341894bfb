/** The bisection on the utilisation ceiling in solve() (src/solver.cpp). */
module CeilingSearch {
  import opened Numeric
  import opened Fabric
  import opened Relaxation
  import opened InfeasibilityCertificate

  /** n halved k times: an upper bound on what k probes leave of an interval of length n. */
  function Halved(n: nat, k: nat): nat {
    if k == 0 then n else Halved(n, k - 1) / 2
  }

  lemma {:induction false} HalvedVanishes(k: nat)
    requires k >= 10
    ensures Halved(1000, k) == 0
  {
    if k > 10 {
      HalvedVanishes(k - 1);
    } else {
      assert Halved(1000, 3) == 125;
      assert Halved(1000, 6) == 15;
      assert Halved(1000, 9) == 1;
    }
  }

  /** `best` is the least ceiling at which the relaxation is feasible, or 0 when not even the cap is. */
  ghost predicate Tightest(demands: seq<DemandDerivation>, paths: seq<CandidatePath>, resources: seq<ResourceState>,
                           cap: int64, best: int64)
  {
    && 0 <= best <= cap
    && (best == 0 <==> !RelaxedFeasible(demands, paths, resources, cap))
    && (best > 0 ==> RelaxedFeasible(demands, paths, resources, best))
    && (forall c: int64 :: 1 <= c < best ==> !RelaxedFeasible(demands, paths, resources, c))
  }

  /** An infeasible ceiling rules out every lower one. */
  lemma InfeasibleBelow(demands: seq<DemandDerivation>, paths: seq<CandidatePath>, resources: seq<ResourceState>,
                        mid: int64)
    requires WithinLimits(demands, paths, resources) && 0 <= mid <= 1000
    requires !RelaxedFeasible(demands, paths, resources, mid)
    ensures forall c: int64 :: 0 <= c <= mid ==> !RelaxedFeasible(demands, paths, resources, c)
  {
    forall c: int64 | 0 <= c <= mid ensures !RelaxedFeasible(demands, paths, resources, c) {
      if RelaxedFeasible(demands, paths, resources, c) {
        RelaxedMonotone(demands, paths, resources, c, mid);
      }
    }
  }

  /**
   Bisection over 1..cap. At most 10 probes are made, so the bound of 64 never cuts the search short;
   if every probe could be built the result is the tightest ceiling. Every probe is built unless the
   network is oversized, when the answer is always 0, or some flow computation spends its budget.
   Whatever happened, an answer 0 after a complete search means that no ceiling up to the cap is feasible.
   */
  method SearchCeiling(demands: seq<DemandDerivation>, paths: seq<CandidatePath>, resources: seq<ResourceState>,
                       cap: int64)
    returns (best: int64, probes: nat, allBuilt: bool, ghost exhausted: bool)
    requires WithinLimits(demands, paths, resources) && 1 <= cap <= 1000
    ensures 0 <= best <= cap && probes <= 10
    ensures Oversized(demands, paths, resources) ==> best == 0
    ensures allBuilt <==> !Oversized(demands, paths, resources) && !exhausted
    ensures allBuilt && best == 0 ==> !RelaxedFeasible(demands, paths, resources, cap)
    ensures allBuilt && TotalFloor(demands) <= MAX_INT64 ==> Tightest(demands, paths, resources, cap, best)
  {
    hide RelaxedFeasible, WithinLimits, Oversized;
    exhausted := false;
    var low: int64, high: int64 := 1, cap;
    best, probes, allBuilt := 0, 0, true;
    while low <= high && probes < MAX_UTILIZATION_PROBES
      invariant 1 <= low <= high + 1 <= cap + 1
      invariant high - low + 1 <= Halved(1000, probes) && probes <= 10
      invariant 0 <= best <= cap && !exhausted
      invariant Oversized(demands, paths, resources) ==> probes == 0 && best == 0
      invariant probes == 0 ==> low == 1 && high == cap
      invariant allBuilt && (best == 0 ==> high == cap) && (best > 0 ==> best == high + 1)
      invariant forall c: int64 :: 1 <= c < low ==> !RelaxedFeasible(demands, paths, resources, c)
      invariant best > 0 && TotalFloor(demands) <= MAX_INT64 ==> RelaxedFeasible(demands, paths, resources, best)
      decreases high - low
    {
      if probes >= 10 {
        HalvedVanishes(probes);
      }
      probes := probes + 1;
      var mid: int64 := low + (high - low) / 2;
      var probe;
      ghost var spent;
      probe, spent := Certify(demands, paths, resources, mid);
      if !probe.built {
        allBuilt, exhausted := false, !Oversized(demands, paths, resources);
        assert exhausted ==> spent > MAX_SOLVER_ITERATIONS;
        break;
      }
      if probe.feasible {
        best := mid;
        if mid == 1 {
          break;
        }
        high := mid - 1;
      } else {
        InfeasibleBelow(demands, paths, resources, mid);
        low := mid + 1;
      }
    }
    if allBuilt && best > 0 && TotalFloor(demands) <= MAX_INT64 {
      WithinImplies(demands, paths, resources);
      RelaxedMonotone(demands, paths, resources, best, cap);
    }
  }

  lemma WithinImplies(demands: seq<DemandDerivation>, paths: seq<CandidatePath>, resources: seq<ResourceState>)
    requires WithinLimits(demands, paths, resources)
    ensures forall r :: 0 <= r < |resources| ==> ResourceWithinLimits(resources[r])
  {
  }
}
