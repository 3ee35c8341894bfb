/**
 Planning inputs shared by the solver, the certificate and the verifier.

 Demands, paths and resources are identified by their rank in the canonical order of the snapshot,
 which is the order in which the source's maps iterate.
 */
module Fabric {
  import opened Numeric

  type DemandId = nat
  type PathId = nat
  type ResourceId = nat

  // include/tef/limits.hpp
  const MAX_BANDWIDTH: int := 1_000_000_000_000_000
  const MAX_RESOURCES_PER_PATH: int := 256
  const MAX_CERTIFICATE_NODES: int := 200_000
  const MAX_CERTIFICATE_EDGES: int := 2_000_000
  const MAX_SOLVER_ITERATIONS: nat := 4_000_000
  const MAX_UTILIZATION_PROBES: nat := 64

  datatype CandidatePath = CandidatePath(
    generation: nat,
    authorityGeneration: nat,
    resources: seq<ResourceId>)

  /** What derive() says about one demand. */
  datatype DemandDerivation = DemandDerivation(
    generation: nat,
    floor: int64,
    desired: int64,
    maximum: int64,
    priority: nat,
    tenant: nat,
    active: bool,
    excluded: bool,               // a tenant or service-class note removed the demand
    eligible: seq<PathId>)        // canonical cost order

  datatype ResourceState = ResourceState(
    usable: int64,
    committed: int64,
    reserved: int64,
    available: int64,
    ceiling: int64,
    used: int64)

  predicate Distinct<T(==)>(s: seq<T>) {
    forall i, j :: 0 <= i < j < |s| ==> s[i] != s[j]
  }

  /** recompute_ceiling: the residual left under a utilisation ceiling. */
  function CeilingOf(r: ResourceState, permille: int64): (c: int64)
    ensures 0 <= c && (r.available >= 0 ==> c <= r.available)
  {
    var scaled := MulChecked(r.usable, permille);
    var cap: int64 := if scaled.Some? then TruncDiv(scaled.value, 1000) else r.usable;
    var claimed := AddChecked(r.committed, r.reserved);
    var headroom := if claimed.None? then cap else if cap > claimed.value then cap - claimed.value else 0;
    var low := if r.available < headroom then r.available else headroom;
    if low > 0 then low else 0
  }

  /** Accounting of one resource as derive() leaves it, within the limits of the model. */
  predicate ResourceWithinLimits(r: ResourceState) {
    && 0 <= r.usable <= MAX_BANDWIDTH
    && 0 <= r.committed <= MAX_BANDWIDTH
    && 0 <= r.reserved
    && 0 <= r.available <= r.usable
  }

  /** Raising the ceiling never takes residual capacity away. */
  lemma CeilingMonotone(r: ResourceState, low: int64, high: int64)
    requires ResourceWithinLimits(r) && 0 <= low <= high <= 1000
    ensures CeilingOf(r, low) <= CeilingOf(r, high)
  {
    MulMonotone(low, high, r.usable);
    MulMonotone(high, 1000, r.usable);
    MulMonotone(0, low, r.usable);
    assert r.usable * low == low * r.usable && r.usable * high == high * r.usable;
  }

  /**
   The cap itself: a positive load is within the ceiling exactly when it is available and, together with what is
   claimed on the resource already, at most `permille` thousandths of the usable capacity. A claim that does not fit
   in 64 bits is left out.
   */
  lemma CeilingIsTheCap(r: ResourceState, permille: int64, load: int)
    requires ResourceWithinLimits(r) && 0 <= permille <= 1000 && load > 0
    ensures var claimed := if r.committed + r.reserved <= MAX_INT64 then r.committed + r.reserved else 0;
      load <= CeilingOf(r, permille) <==> (load <= r.available && 1000 * (claimed + load) <= permille * r.usable)
  {
    MulMonotone(0, permille, r.usable);
    MulMonotone(permille, 1000, r.usable);
    ScaledDown(r.usable * permille, r.committed + r.reserved + load);
    ScaledDown(r.usable * permille, load);
  }

  /** A total fits under the quotient exactly when its multiple fits under the dividend. */
  lemma ScaledDown(scaled: int, total: int)
    requires scaled >= 0
    ensures total <= scaled / 1000 <==> 1000 * total <= scaled
  {
  }

  /** Every reference names an existing path or resource, and lists are within their bounds. */
  predicate PathWithinLimits(path: CandidatePath, resources: nat) {
    && 0 < |path.resources| <= MAX_RESOURCES_PER_PATH
    && Distinct(path.resources)
    && forall k :: 0 <= k < |path.resources| ==> path.resources[k] < resources
  }

  predicate DemandWithinLimits(d: DemandDerivation, paths: nat) {
    && 0 <= d.floor && 0 <= d.maximum <= MAX_BANDWIDTH
    && d.floor <= d.desired
    && Distinct(d.eligible)
    && forall k :: 0 <= k < |d.eligible| ==> d.eligible[k] < paths
  }

  /** A derivation of a canonical, structurally valid snapshot. */
  predicate WithinLimits(demands: seq<DemandDerivation>, paths: seq<CandidatePath>, resources: seq<ResourceState>) {
    && (forall d :: 0 <= d < |demands| ==> DemandWithinLimits(demands[d], |paths|))
    && (forall p :: 0 <= p < |paths| ==> PathWithinLimits(paths[p], |resources|))
    && (forall r :: 0 <= r < |resources| ==> ResourceWithinLimits(resources[r]))
  }
}
