/**
 From a snapshot to a plan: derive() and solve() together (src/derived.cpp, src/solver.cpp), and whether the plan
 they make can be read back from its record (src/persist.cpp).
 */
module Planning {
  import opened Numeric
  import opened Fabric
  import opened Relaxation
  import opened LedgerState
  import opened Construction
  import opened Solver
  import opened PlanLog
  import opened InfeasibilityCertificate
  import Authority
  import Derive
  import EngineModel
  import EngineSafety
  import PlanLifecycle
  import Verifier

  /** No resource is claimed, over unbounded integers, beyond its usable capacity. */
  ghost predicate NothingOverclaimed(s: Derive.Snapshot) {
    forall k :: 0 <= k < |s.resources| ==> Derive.Claimed(s, k) <= s.resources[k].usable
  }

  /** Every candidate path was authorised under the current generation. */
  predicate AllAuthorized(s: Derive.Snapshot, pathAuthority: nat) {
    forall p :: 0 <= p < |s.paths| ==> s.paths[p].path.authorityGeneration == pathAuthority
  }

  predicate EligibleDistinct(demands: seq<DemandDerivation>) {
    forall d :: 0 <= d < |demands| ==> Distinct(demands[d].eligible)
  }

  /** What solve() plans: the derived demands and resources over the candidate paths. */
  ghost predicate Plans(s: Derive.Snapshot, pathAuthority: nat, fabric: Verifier.Snapshot) {
    && fabric.paths == Derive.Catalog(s.paths) && fabric.pathAuthority == pathAuthority
    && |fabric.demands| == |s.demands| && |fabric.resources| == |s.resources| && fabric.WithinLimits()
    && (forall d :: 0 <= d < |s.demands| ==> Derive.DerivedFrom(s, d, fabric.demands[d]))
    && (forall k :: 0 <= k < |s.resources| ==>
          Derive.AvailableOn(s, k, Clamp(Derive.HeldOn(s, k, |s.reservations|)), fabric.resources[k]))
  }

  /** A demand gets bandwidth only if it takes part, no more than it may have, and only on paths no rule excludes. */
  ghost predicate HonoursDemand(s: Derive.Snapshot, d: DemandId, entry: Verifier.DemandAllocation)
    requires d < |s.demands|
  {
    var demand := s.demands[d];
    && entry.demand == d && 0 <= entry.granted <= demand.maximum
    && (entry.granted > 0 ==>
          && demand.active
          && (s.policy.allowedTenants != {} ==> demand.tenant in s.policy.allowedTenants)
          && (s.policy.allowedClasses != {} ==> demand.serviceClass in s.policy.allowedClasses))
    && (|| entry.granted <= demand.desired || entry.granted <= demand.minimum
        || entry.granted <= Derive.FloorBandwidth(s, d, |s.reservations|))
    && (forall j :: 0 <= j < |entry.shares| ==> HonoursRules(s, d, entry.shares[j]))
  }

  ghost predicate HonoursRules(s: Derive.Snapshot, d: DemandId, share: Verifier.PathShare)
    requires d < |s.demands|
  {
    && share.path < |s.paths| && share.granted > 0
    && forall o: Derive.Obstacle :: !Derive.Blocks(o, s.demands[d], s.paths[share.path], share.path)
  }

  ghost predicate HonoursDemands(s: Derive.Snapshot, entries: seq<Verifier.DemandAllocation>) {
    |entries| <= |s.demands| && forall d :: 0 <= d < |entries| ==> HonoursDemand(s, d, entries[d])
  }

  /** Where anything is planned, committed, held and planned load together stay under `cap` thousandths of it. */
  ghost predicate HonoursCap(s: Derive.Snapshot, cap: int64, entries: seq<Verifier.DemandAllocation>) {
    forall k :: 0 <= k < |s.resources| ==>
      var load := Verifier.EntriesLoad(entries, Derive.Catalog(s.paths), k);
      load > 0 ==>
        1000 * (s.resources[k].committed + Derive.HeldBandwidth(s, k, |s.reservations|) + load)
        <= cap * s.resources[k].usable
  }

  lemma PlannedHonoursDemands(s: Derive.Snapshot, pathAuthority: nat, fabric: Verifier.Snapshot, cap: int64,
                              states: seq<DemandState>, entries: seq<Verifier.DemandAllocation>)
    requires Derive.Valid(s) && Plans(s, pathAuthority, fabric) && Booked(fabric, cap, states, entries)
    ensures HonoursDemands(s, entries)
  {
    hide Fabric.WithinLimits, Derive.AvailableOn, Derive.HeldOn, Derive.BandwidthOf, Derive.Blocks, Load, CeilingOf;
    Derive.AccountingMeaning(s, |s.reservations|);
    forall d | 0 <= d < |entries| ensures HonoursDemand(s, d, entries[d]) {
      DemandIsHonoured(s, d, fabric.demands[d], fabric.paths, states, entries[d], fabric.demands);
    }
  }

  lemma DemandIsHonoured(s: Derive.Snapshot, d: DemandId, demand: DemandDerivation, paths: seq<CandidatePath>,
                         states: seq<DemandState>, entry: Verifier.DemandAllocation, demands: seq<DemandDerivation>)
    requires 0 <= d < |s.demands| && s.demands[d].minimum >= 0
    requires |s.demands| == |demands| == |states| && demand == demands[d] && Derive.DerivedFrom(s, d, demand)
    requires |paths| == |s.paths| && EntryMatches(demands, paths, states, d, entry)
    requires StateOk(demand, states[d], |paths|)
    requires states[d].granted <= demand.maximum && states[d].granted <= Limit(demand)
    requires Derive.BandwidthOf(s, Derive.ChargedTo(d), |s.reservations|)
      == Derive.FloorBandwidth(s, d, |s.reservations|)
    ensures HonoursDemand(s, d, entry)
  {
    hide Derive.Blocks, Derive.Eligible, Derive.BandwidthOf, Derive.FloorBandwidth;
    forall j | 0 <= j < |entry.shares| ensures HonoursRules(s, d, entry.shares[j]) {
      var p := entry.shares[j].path;
      assert p in states[d].shares && p in demand.eligible;
      var i :| 0 <= i < |demand.eligible| && demand.eligible[i] == p;
      assert Derive.Eligible(s.demands[d], s.paths[p], p);
      Derive.EligibleMeaning(s.demands[d], s.paths[p], p);
    }
    assert demand.excluded ==> !Derive.Allowed(s.policy, s.demands[d]);
    assert entry.granted > 0 ==> demand.active && !demand.excluded;
    assert entry.granted <= demand.desired || entry.granted <= 0;
    var floors := Derive.FloorBandwidth(s, d, |s.reservations|);
    assert demand.floor == s.demands[d].minimum || demand.floor <= floors || floors < 0;
    assert entry.granted <= s.demands[d].desired || entry.granted <= s.demands[d].minimum || entry.granted <= floors;
  }

  lemma PlannedHonoursCap(s: Derive.Snapshot, pathAuthority: nat, fabric: Verifier.Snapshot, cap: int64,
                          states: seq<DemandState>, entries: seq<Verifier.DemandAllocation>)
    requires Derive.Valid(s) && Plans(s, pathAuthority, fabric) && Booked(fabric, cap, states, entries)
    requires 0 <= cap <= 1000
    ensures HonoursCap(s, cap, entries)
  {
    hide Derive.DerivedFrom, EntryMatches, StateOk, CeilingOf;
    Derive.AccountingMeaning(s, |s.reservations|);
    forall k | 0 <= k < |s.resources| && Verifier.EntriesLoad(entries, fabric.paths, k) > 0
      ensures 1000 * (s.resources[k].committed + Derive.HeldBandwidth(s, k, |s.reservations|)
                      + Verifier.EntriesLoad(entries, fabric.paths, k)) <= cap * s.resources[k].usable
    {
      var load := Verifier.EntriesLoad(entries, fabric.paths, k);
      BookedLoad(fabric, cap, states, entries, k);
      assert ResourceWithinLimits(fabric.resources[k]);
      assert Derive.AvailableOn(s, k, Clamp(Derive.HeldOn(s, k, |s.reservations|)), fabric.resources[k]);
      Derive.BandwidthNonNegative(s, Derive.Reserved, k, |s.reservations|);
      CeilingIsTheCap(fabric.resources[k], cap, load);
    }
  }

  /** What verification promises about one entry, in the fields of the snapshot. */
  ghost predicate EntryHonours(s: Derive.Snapshot, pathAuthority: nat, degraded: bool,
                               entry: Verifier.DemandAllocation)
  {
    && entry.demand < |s.demands|
    && var demand := s.demands[entry.demand];
    && entry.generation == demand.generation && 0 <= entry.granted <= demand.maximum
    && entry.granted == Verifier.GrantedSum(entry.shares)
    && (demand.active && !degraded ==>
          && entry.granted >= demand.minimum
          && entry.granted >= Derive.FloorBandwidth(s, entry.demand, |s.reservations|))
    && (forall i, j :: 0 <= i < j < |entry.shares| ==> entry.shares[i].path != entry.shares[j].path)
    && (forall j :: 0 <= j < |entry.shares| ==> entry.shares[j].granted >= 0)
    && (forall j :: 0 <= j < |entry.shares| && entry.shares[j].granted > 0 ==>
          && HonoursRules(s, entry.demand, entry.shares[j])
          && entry.shares[j].generation == s.paths[entry.shares[j].path].path.generation
          && s.paths[entry.shares[j].path].path.authorityGeneration == pathAuthority)
  }

  /**
   What a verified allocation is worth, in the fields of the snapshot: known demands in their current generation, exact
   totals, maxima and floors, only paths that no rule excludes and that are current and authorised, and on every
   resource committed load, held reservations and the allocation together within the usable capacity.
   */
  lemma VerifiedHonoursSnapshot(s: Derive.Snapshot, pathAuthority: nat, fabric: Verifier.Snapshot,
                                allocation: Verifier.Allocation)
    requires Derive.Valid(s) && Plans(s, pathAuthority, fabric) && Verifier.Acceptable(fabric, allocation)
    ensures forall i :: 0 <= i < |allocation.demands| ==>
      EntryHonours(s, pathAuthority, allocation.degraded, allocation.demands[i])
    ensures forall k :: 0 <= k < |s.resources| ==>
      var load := Verifier.EntriesLoad(allocation.demands, Derive.Catalog(s.paths), k);
      load > 0 ==>
        s.resources[k].committed + Derive.HeldBandwidth(s, k, |s.reservations|) + load <= s.resources[k].usable
  {
    hide Derive.HeldOn, Derive.BandwidthOf, Derive.Blocks, EntryHonours, Verifier.EntryOk, Derive.DerivedFrom,
      Derive.HeldBandwidth, Derive.FloorBandwidth, Fabric.WithinLimits;
    Derive.AccountingMeaning(s, |s.reservations|);
    forall i | 0 <= i < |allocation.demands|
      ensures EntryHonours(s, pathAuthority, allocation.degraded, allocation.demands[i])
    {
      VerifiedEntryHonours(s, pathAuthority, fabric, allocation.degraded, allocation.demands[i]);
    }
    forall k | 0 <= k < |s.resources|
      ensures var load := Verifier.EntriesLoad(allocation.demands, Derive.Catalog(s.paths), k);
        load > 0 ==>
          s.resources[k].committed + Derive.HeldBandwidth(s, k, |s.reservations|) + load <= s.resources[k].usable
    {
      assert Derive.AvailableOn(s, k, Clamp(Derive.HeldOn(s, k, |s.reservations|)), fabric.resources[k]);
    }
  }

  lemma VerifiedEntryHonours(s: Derive.Snapshot, pathAuthority: nat, fabric: Verifier.Snapshot, degraded: bool,
                             entry: Verifier.DemandAllocation)
    requires Derive.Valid(s) && Plans(s, pathAuthority, fabric) && Verifier.EntryOk(fabric, degraded, entry)
    ensures EntryHonours(s, pathAuthority, degraded, entry)
  {
    hide Derive.HeldOn, Derive.BandwidthOf, Derive.Blocks, Derive.FloorBandwidth, Derive.Eligible, Derive.AvailableOn,
      Fabric.WithinLimits;
    var d := entry.demand;
    var demand := fabric.demands[d];
    assert Derive.DerivedFrom(s, d, demand);
    Derive.AccountingMeaning(s, |s.reservations|);
    Verifier.GrantedNonNegative(fabric, demand, entry.shares);
    forall j | 0 <= j < |entry.shares| && entry.shares[j].granted > 0
      ensures HonoursRules(s, d, entry.shares[j])
      ensures entry.shares[j].generation == s.paths[entry.shares[j].path].path.generation
      ensures s.paths[entry.shares[j].path].path.authorityGeneration == pathAuthority
    {
      var share := entry.shares[j];
      assert Verifier.ShareOk(fabric, demand, share);
      var i :| 0 <= i < |demand.eligible| && demand.eligible[i] == share.path;
      assert Derive.Eligible(s.demands[d], s.paths[share.path], share.path);
      Derive.EligibleMeaning(s.demands[d], s.paths[share.path], share.path);
      assert fabric.paths[share.path] == s.paths[share.path].path;
    }
    forall j | 0 <= j < |entry.shares| ensures entry.shares[j].granted >= 0 {
      assert Verifier.ShareOk(fabric, demand, entry.shares[j]);
    }
  }

  /**
   derive() followed by solve(). Without an over-claimed resource derivation succeeds, and if all paths are authorised
   the plan passes its own verification. With one, a request whose relaxation is infeasible under the cap ends as
   conflicting input. Whatever is planned honours every rule of the snapshot: who takes part, maxima, path rules and
   the utilisation cap. When the policy bounds the paths of a demand, the plan can be read back from its record.
   */
  method PlanSnapshot(s: Derive.Snapshot, pathAuthority: nat, options: Options,
                      preferences: seq<DemandDerivation> -> Preference)
    returns (outcome: Option<Outcome>, ghost fabric: Verifier.Snapshot)
    requires Derive.Valid(s) && 1 <= options.policyCeiling <= 1000
    requires forall d :: 0 <= d < |s.demands| ==> s.demands[d].tenant < options.tenants
    requires forall demands: seq<DemandDerivation> :: EligibleDistinct(demands) ==>
      PermutesEligible(preferences(demands), demands)
    ensures NothingOverclaimed(s) ==> outcome.Some?
    ensures outcome.Some? ==> Plans(s, pathAuthority, fabric)
    ensures NothingOverclaimed(s) && AllAuthorized(s, pathAuthority) ==> outcome.value.status != ConflictingInput
    ensures outcome.Some? && !NothingOverclaimed(s) && !FeasibleUnder(fabric, options.policyCeiling) ==>
      outcome.value.status == ConflictingInput
    ensures outcome.Some? ==> HonoursDemands(s, outcome.value.allocation.demands)
    ensures outcome.Some? ==> HonoursCap(s, options.policyCeiling, outcome.value.allocation.demands)
    ensures outcome.Some? && outcome.value.verified ==> Verifier.Acceptable(fabric, outcome.value.allocation)
    ensures outcome.Some? && 1 <= s.policy.maxPaths <= MAX_PATHS_PER_DEMAND && |s.demands| <= MAX_DEMANDS ==>
      FitsRecord(outcome.value.allocation)
  {
    hide Derive.Valid, Derive.DerivedFrom, Derive.AvailableOn, RelaxedFeasible, Booked, BuiltUp, Verifier.Acceptable,
      Oversized,
      Fabric.WithinLimits, UsedPathsAuthorized, PermutesEligible, FitsRecord, HonoursDemands, HonoursCap, WithinCap,
      MarkedUpTo;
    fabric := Verifier.Snapshot([], [], [], 0);
    var result := Derive.DeriveSnapshot(s);
    if result.Failed? { return None, fabric; }
    var snapshot := Verifier.Snapshot(result.demands, Derive.Catalog(s.paths), result.resources, pathAuthority);
    fabric := snapshot;
    DerivedIsDistinct(s, pathAuthority, fabric);
    DerivedTenants(s, pathAuthority, fabric);
    var planned, rejected;
    ghost var final, exhausted;
    planned, rejected, final, exhausted := Solve(snapshot, options, result.conflict, result.obligations,
      preferences(result.demands));
    outcome := Some(planned);
    if !rejected {
      PlannedHonoursDemands(s, pathAuthority, fabric, options.policyCeiling, final, planned.allocation.demands);
      PlannedHonoursCap(s, pathAuthority, fabric, options.policyCeiling, final, planned.allocation.demands);
      if AllAuthorized(s, pathAuthority) { AuthorizedPathsOnly(s, pathAuthority, fabric, options.policyCeiling, final,
        planned.allocation.demands); }
      if 1 <= s.policy.maxPaths <= MAX_PATHS_PER_DEMAND && |s.demands| <= MAX_DEMANDS {
        PlanFitsRecord(s, pathAuthority, fabric, options.policyCeiling, final, planned.allocation);
      }
    } else {
      EmptyFits(planned.allocation);
      NothingHonours(s, options.policyCeiling);
    }
  }

  /** Every demand uses its eligible paths in canonical order. */
  function CanonicalOrder(demands: seq<DemandDerivation>): Preference {
    (d: DemandId, states: seq<DemandState>) => if d < |demands| then demands[d].eligible else []
  }

  /** The canonical order, which solve() keeps without further objectives, is a permutation as PlanSnapshot asks for. */
  lemma CanonicalOrderPermutes(demands: seq<DemandDerivation>)
    requires EligibleDistinct(demands)
    ensures PermutesEligible(CanonicalOrder(demands), demands)
  {
  }

  lemma NothingHonours(s: Derive.Snapshot, cap: int64)
    ensures HonoursDemands(s, []) && HonoursCap(s, cap, [])
  {
  }

  lemma EmptyFits(a: Verifier.Allocation)
    requires a.demands == []
    ensures FitsRecord(a)
  {
  }

  lemma DerivedIsDistinct(s: Derive.Snapshot, pathAuthority: nat, fabric: Verifier.Snapshot)
    requires Plans(s, pathAuthority, fabric)
    ensures EligibleDistinct(fabric.demands)
  {
    forall d | 0 <= d < |fabric.demands| ensures Distinct(fabric.demands[d].eligible) {
      assert DemandWithinLimits(fabric.demands[d], |fabric.paths|);
    }
  }

  lemma DerivedTenants(s: Derive.Snapshot, pathAuthority: nat, fabric: Verifier.Snapshot)
    requires Plans(s, pathAuthority, fabric)
    ensures forall d :: 0 <= d < |s.demands| ==> fabric.demands[d].tenant == s.demands[d].tenant
  {
    forall d | 0 <= d < |s.demands| ensures fabric.demands[d].tenant == s.demands[d].tenant {
      assert Derive.DerivedFrom(s, d, fabric.demands[d]);
    }
  }

  lemma AuthorizedPathsOnly(s: Derive.Snapshot, pathAuthority: nat, fabric: Verifier.Snapshot, cap: int64,
                            states: seq<DemandState>, entries: seq<Verifier.DemandAllocation>)
    requires Plans(s, pathAuthority, fabric) && AllAuthorized(s, pathAuthority) && Booked(fabric, cap, states, entries)
    ensures UsedPathsAuthorized(fabric, states)
  {
    hide Derive.DerivedFrom, Derive.AvailableOn, EntryMatches, Fabric.WithinLimits;
    forall d, p | 0 <= d < |states| && p in states[d].shares
      ensures p < |fabric.paths| && fabric.paths[p].authorityGeneration == pathAuthority
    {
      assert StateOk(fabric.demands[d], states[d], |fabric.paths|);
      assert fabric.paths[p] == s.paths[p].path;
    }
  }

  /** A demand gets no more shares than the policy allows it paths. */
  lemma PlanFitsRecord(s: Derive.Snapshot, pathAuthority: nat, fabric: Verifier.Snapshot, cap: int64,
                       states: seq<DemandState>, allocation: Verifier.Allocation)
    requires Plans(s, pathAuthority, fabric) && Booked(fabric, cap, states, allocation.demands)
    requires 1 <= s.policy.maxPaths <= MAX_PATHS_PER_DEMAND && |s.demands| <= MAX_DEMANDS
    ensures FitsRecord(allocation)
  {
    hide Booked, Fabric.WithinLimits, Derive.AvailableOn;
    BookedLength(fabric, cap, states, allocation.demands);
    forall d | 0 <= d < |allocation.demands|
      ensures |allocation.demands[d].shares| <= MAX_PATHS_PER_DEMAND
    {
      SharesWithinEligible(fabric, cap, states, allocation.demands, d);
      assert Derive.DerivedFrom(s, d, fabric.demands[d]);
    }
  }

  lemma BookedLength(fabric: Verifier.Snapshot, cap: int64, states: seq<DemandState>,
                     entries: seq<Verifier.DemandAllocation>)
    requires Booked(fabric, cap, states, entries)
    ensures |entries| == |fabric.demands|
  {
  }

  // ---- A plan that cannot be read back -------------------------------------------------------

  /** One demand that needs n paths of capacity 1. */
  function WideFabric(n: nat): Verifier.Snapshot
    requires n <= MAX_BANDWIDTH
  {
    Verifier.Snapshot(
      [DemandDerivation(1, n, n, n, 0, 0, true, false, seq(n, i requires 0 <= i < n => i))],
      seq(n, i requires 0 <= i < n => CandidatePath(1, 1, [i])),
      seq(n, _ => ResourceState(1, 0, 0, 1, 1, 0)),
      1)
  }

  function WideShares(n: nat): (shares: seq<Verifier.PathShare>)
    ensures |shares| == n
  {
    seq(n, i requires 0 <= i < n => Verifier.PathShare(i, 1, 1, 0))
  }

  function WideAllocation(n: nat): Verifier.Allocation
    requires n <= MAX_BANDWIDTH
  {
    Verifier.Allocation([Verifier.DemandAllocation(0, 1, n, WideShares(n))], false)
  }

  lemma {:induction false} WideTotals(n: nat, m: nat, r: nat)
    requires m <= n <= MAX_BANDWIDTH && r < n
    ensures var shares := WideShares(n)[..m];
      && Verifier.GrantedSum(shares) == m && Verifier.ReservedFold(shares) == 0
      && Verifier.SharesLoad(shares, WideFabric(n).paths, r) == if r < m then 1 else 0
  {
    if m > 0 {
      var shares := WideShares(n)[..m];
      WideTotals(n, m - 1, r);
      assert shares[..m - 1] == WideShares(n)[..m - 1];
      assert WideFabric(n).paths[m - 1].resources == [m - 1];
    }
  }

  /** The only plan of a wide fabric is acceptable, and readable if and only if it uses at most 64 paths. */
  lemma WideIsAcceptable(n: nat)
    requires 1 <= n <= MAX_BANDWIDTH
    ensures WideFabric(n).WithinLimits() && Verifier.Acceptable(WideFabric(n), WideAllocation(n))
    ensures FitsRecord(WideAllocation(n)) <==> n <= MAX_PATHS_PER_DEMAND
  {
    var fabric, allocation, shares := WideFabric(n), WideAllocation(n), WideShares(n);
    WideTotals(n, n, 0);
    assert shares[..n] == shares;
    forall j | 0 <= j < n ensures Verifier.ShareOk(fabric, fabric.demands[0], shares[j]) {
      assert fabric.demands[0].eligible[j] == j;
    }
    assert Verifier.EntryOk(fabric, false, allocation.demands[0]);
    forall r | 0 <= r < n ensures Verifier.EntriesLoad(allocation.demands, fabric.paths, r) <= 1 {
      WideTotals(n, n, r);
      assert allocation.demands[..0] == [];
      assert Verifier.EntriesLoad([], fabric.paths, r) == 0;
    }
    assert allocation.demands[0].shares == shares;
  }

  const FIRST_PLAN := PlanRef(1, 1)
  const CONFIG := EngineModel.Config(10, 1)
  const REQUEST := EngineModel.DeclareRequest(1, 1, 1, 1, 1)
  const INTENT := EngineModel.CommitIntent(1, 1, 1)

  /** A snapshot is submitted, and a plan of n paths declared, validated, solved and authorised on it. */
  function Preparation(live: EngineModel.Live, n: nat): seq<EngineModel.Operation>
    requires n <= MAX_BANDWIDTH
  {
    [EngineModel.SubmitOp(live, []), EngineModel.DeclareOp(CONFIG, REQUEST), EngineModel.ValidateOp(FIRST_PLAN),
     EngineModel.SolveOp(FIRST_PLAN, EngineModel.Solved(EngineModel.Feasible, WideAllocation(n), NoIncumbent)),
     EngineModel.AuthorizeOp(FIRST_PLAN)]
  }

  ghost function Operated(s: EngineModel.State, ops: seq<EngineModel.Operation>): EngineModel.State {
    if ops == [] then s else EngineModel.Step(Operated(s, ops[..|ops| - 1]), ops[|ops| - 1]).0
  }

  ghost predicate Holds(s: EngineModel.State, live: EngineModel.Live, state: PlanLifecycle.PlanState,
                        allocation: Verifier.Allocation) {
    && EngineSafety.Invariant(s) && s.live == Some(live) && 1 in s.plans
    && s.plans[1].id == 1 && s.plans[1].generation == 1 && s.plans[1].state == state
      && s.plans[1].allocation == allocation
    && s.plans[1].authority == live.authority && s.plans[1].churn == NoIncumbent
  }

  lemma SameAuthority(a: Authority.AuthorityVector)
    requires a.Valid()
    ensures Authority.CompareAuthority(a, a).Identical()
    ensures !Authority.CompareAuthority(a, a).Stale() && !Authority.CompareAuthority(a, a).Contradictory()
  {
    Authority.IdenticalMeansEqual(a, a);
  }

  lemma Declares(live: EngineModel.Live)
    requires live.Admissible()
    ensures var s := EngineModel.Step(EngineModel.START, EngineModel.SubmitOp(live, [])).0;
      Holds(EngineModel.Step(s, EngineModel.DeclareOp(CONFIG, REQUEST)).0, live, PlanLifecycle.Declared,
        Verifier.Allocation([], false))
  {
    assert Fold([]) == map[];
    assert EngineSafety.Invariant(EngineModel.START);
    assert EngineModel.Lists([], EngineModel.START.plans);
    EngineSafety.StepKeeps(EngineModel.START, EngineModel.SubmitOp(live, []));
    var s := EngineModel.Step(EngineModel.START, EngineModel.SubmitOp(live, [])).0;
    assert s == EngineModel.START.(live := Some(live));
    EngineSafety.StepKeeps(s, EngineModel.DeclareOp(CONFIG, REQUEST));
  }

  lemma Advances(s: EngineModel.State, live: EngineModel.Live, n: nat)
    requires live.Admissible() && n <= MAX_BANDWIDTH
    ensures Holds(s, live, PlanLifecycle.Declared, Verifier.Allocation([], false)) ==>
      Holds(EngineModel.Step(s, Preparation(live, n)[2]).0, live, PlanLifecycle.Validated, Verifier.Allocation([],
        false))
    ensures Holds(s, live, PlanLifecycle.Validated, Verifier.Allocation([], false)) ==>
      Holds(EngineModel.Step(s, Preparation(live, n)[3]).0, live, PlanLifecycle.Proposed, WideAllocation(n))
    ensures Holds(s, live, PlanLifecycle.Proposed, WideAllocation(n)) ==>
      Holds(EngineModel.Step(s, Preparation(live, n)[4]).0, live, PlanLifecycle.Authorized, WideAllocation(n))
  {
    hide EngineSafety.Invariant, Authority.CompareAuthority, WideAllocation, EngineModel.Live.Admissible;
    LiveAuthority(live);
    SameAuthority(live.authority);
    if EngineSafety.Invariant(s) {
      EngineSafety.StepKeeps(s, Preparation(live, n)[2]);
      EngineSafety.StepKeeps(s, Preparation(live, n)[3]);
      EngineSafety.StepKeeps(s, Preparation(live, n)[4]);
    }
  }

  lemma LiveAuthority(live: EngineModel.Live)
    requires live.Admissible()
    ensures live.authority.Valid()
  {
  }

  /**
   The run: a plan that needs 65 paths is solved, verified, committed and acknowledged, and after a crash it is
   STALE and no plan is the incumbent. With up to 64 paths it is still the incumbent.
   */
  lemma WidePlanIsForgotten(live: EngineModel.Live, n: nat)
    requires 1 <= n <= MAX_BANDWIDTH && live.authority.Valid() && live.fabric == WideFabric(n)
    ensures var s := Operated(EngineModel.START, Preparation(live, n));
      var (next, answer) := EngineModel.Commit(s, FIRST_PLAN, INTENT);
      var recovered := EngineModel.Recover(next.log);
      && answer.Done? && 1 in next.plans && next.plans[1].state == PlanLifecycle.Committed
        && next.incumbent == FIRST_PLAN
      && 1 in recovered.plans
      && (n <= MAX_PATHS_PER_DEMAND ==>
            recovered.plans[1].state == PlanLifecycle.Committed && recovered.incumbent == FIRST_PLAN)
      && (n > MAX_PATHS_PER_DEMAND ==>
            recovered.plans[1].state == PlanLifecycle.Stale && recovered.incumbent != FIRST_PLAN)
  {
    hide EngineSafety.Invariant, Authority.CompareAuthority, WideAllocation, EngineModel.Step, EngineModel.Recover,
      WideFabric,
      FitsRecord, Verifier.Acceptable, Verifier.Snapshot.WithinLimits, Fold;
    WideIsAcceptable(n);
    var ops := Preparation(live, n);
    Declares(live);
    var s2 := EngineModel.Step(EngineModel.Step(EngineModel.START, ops[0]).0, ops[1]).0;
    var s3 := EngineModel.Step(s2, ops[2]).0;
    var s4 := EngineModel.Step(s3, ops[3]).0;
    var s5 := EngineModel.Step(s4, ops[4]).0;
    Advances(s2, live, n);
    Advances(s3, live, n);
    Advances(s4, live, n);
    OperatedFive(EngineModel.START, ops);
    SameAuthority(live.authority);
    EngineSafety.CommitKeeps(s5, FIRST_PLAN, INTENT);
    var next := EngineModel.Commit(s5, FIRST_PLAN, INTENT).0;
    assert next.plans[1].state == PlanLifecycle.Committed && next.plans[1].allocation == WideAllocation(n);
    EngineSafety.RecoveryAgrees(next, 1);
  }

  lemma OperatedFive(s: EngineModel.State, ops: seq<EngineModel.Operation>)
    requires |ops| == 5
    ensures Operated(s, ops) == EngineModel.Step(EngineModel.Step(EngineModel.Step(EngineModel.Step(EngineModel.Step(
      s, ops[0]).0, ops[1]).0, ops[2]).0, ops[3]).0, ops[4]).0
  {
    hide EngineModel.Step;
    assert ops[..4][..3] == ops[..3] && ops[..3][..2] == ops[..2] && ops[..2][..1] == ops[..1] && ops[..1][..0] == [];
    assert Operated(s, ops[..1]) == EngineModel.Step(s, ops[0]).0;
    assert Operated(s, ops[..2]) == EngineModel.Step(Operated(s, ops[..1]), ops[1]).0;
    assert Operated(s, ops[..3]) == EngineModel.Step(Operated(s, ops[..2]), ops[2]).0;
    assert Operated(s, ops[..4]) == EngineModel.Step(Operated(s, ops[..3]), ops[3]).0;
  }
}
