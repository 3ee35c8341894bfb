/** Derivation of the planning inputs from a canonical, structurally valid snapshot (src/derived.cpp). */
module Derive {
  import opened Numeric
  import opened Sums
  import opened Fabric

  const MAX_LATENCY: int := 1_000_000_000_000

  type ReservationId = nat

  datatype Preemptibility = NotPreemptible | Preemptible | PreemptibleWithAuthority

  /**
   `active` says whether the effective interval covers the evaluation tick. An owner may name no demand of the
   snapshot.
   */
  datatype Reservation = Reservation(
    bandwidth: int64,
    active: bool,
    owner: Option<DemandId>,
    preemptibility: Preemptibility,
    resources: seq<ResourceId>)

  datatype Demand = Demand(
    generation: nat,
    minimum: int64,
    desired: int64,
    maximum: int64,
    priority: nat,
    tenant: nat,
    serviceClass: nat,
    active: bool,
    candidateSet: nat,
    allowedPaths: set<PathId>,
    forbiddenPaths: set<PathId>,
    latencyBound: Option<int>,
    costCeiling: Option<int>,
    requiredDomains: set<nat>,
    bindings: set<ReservationId>)

  datatype Scope = Anyone | OneTenant(tenant: nat) | OneClass(serviceClass: nat)

  /** A candidate path with the attributes that decide who may use it. */
  datatype PathRecord = PathRecord(
    path: CandidatePath,
    candidateSet: nat,
    scope: Scope,
    latency: Option<int>,
    cost: int,
    domains: set<nat>)

  datatype Resource = Resource(usable: int64, committed: int64)

  /** Empty allow lists allow everything; a path bound of zero is no bound. */
  datatype Policy = Policy(allowPreemption: bool, allowedTenants: set<nat>, allowedClasses: set<nat>, maxPaths: nat)

  datatype Snapshot = Snapshot(
    resources: seq<Resource>,
    reservations: seq<Reservation>,
    demands: seq<Demand>,
    paths: seq<PathRecord>,
    policy: Policy)

  function Catalog(paths: seq<PathRecord>): (catalog: seq<CandidatePath>)
    ensures |catalog| == |paths| && forall p :: 0 <= p < |paths| ==> catalog[p] == paths[p].path
  {
    seq(|paths|, p requires 0 <= p < |paths| => paths[p].path)
  }

  /** What validate_structure guarantees. */
  predicate Valid(s: Snapshot) {
    && (forall k :: 0 <= k < |s.resources| ==>
          0 <= s.resources[k].usable <= MAX_BANDWIDTH && 0 <= s.resources[k].committed <= MAX_BANDWIDTH)
    && (forall r :: 0 <= r < |s.reservations| ==> ValidReservation(s.reservations[r], |s.resources|))
    && (forall d :: 0 <= d < |s.demands| ==> 0 <= s.demands[d].minimum && 0 <= s.demands[d].maximum <= MAX_BANDWIDTH)
    && (forall p :: 0 <= p < |s.paths| ==> PathWithinLimits(s.paths[p].path, |s.resources|))
  }

  predicate ValidReservation(r: Reservation, resources: nat) {
    0 <= r.bandwidth <= MAX_BANDWIDTH && Distinct(r.resources)
      && forall k :: 0 <= k < |r.resources| ==> r.resources[k] < resources
  }

  // ---- Reservations: what happens to each, exactly once --------------------------------------

  datatype Disposition = Inactive | Displaceable | ChargedTo(demand: DemandId) | Reserved

  /** The first demand, in canonical order, that binds the reservation. */
  function BindingOwner(demands: seq<Demand>, r: ReservationId, from: nat): (owner: Option<DemandId>)
    requires from <= |demands|
    ensures owner.Some? ==> from <= owner.value < |demands| && r in demands[owner.value].bindings
    ensures owner.Some? ==> forall d :: from <= d < owner.value ==> r !in demands[d].bindings
    ensures owner.None? ==> forall d :: from <= d < |demands| ==> r !in demands[d].bindings
    decreases |demands| - from
  {
    if from == |demands| then None
    else if r in demands[from].bindings then Some(from)
    else BindingOwner(demands, r, from + 1)
  }

  function PermitsPreemption(policy: Policy, preemptibility: Preemptibility, attached: bool): bool {
    policy.allowPreemption && match preemptibility
      case NotPreemptible => false
      case Preemptible => true
      case PreemptibleWithAuthority => attached
  }

  function DispositionOf(s: Snapshot, r: ReservationId): (d: Disposition)
    requires r < |s.reservations|
    ensures d.ChargedTo? ==> d.demand < |s.demands|
  {
    var reservation := s.reservations[r];
    var binding := BindingOwner(s.demands, r, 0);
    var owned := reservation.owner.Some? && reservation.owner.value < |s.demands|;
    if !reservation.active then Inactive
    else if PermitsPreemption(s.policy, reservation.preemptibility, binding.Some? || owned) then Displaceable
    else if owned then ChargedTo(reservation.owner.value)
    else if binding.Some? then ChargedTo(binding.value)
    else Reserved
  }

  /** Bandwidth, over unbounded integers, of the first n reservations with the given disposition. */
  ghost function BandwidthOf(s: Snapshot, what: Disposition, n: nat): (total: int)
    requires n <= |s.reservations|
  {
    if n == 0 then 0
    else BandwidthOf(s, what, n - 1) + if DispositionOf(s, n - 1) == what then s.reservations[n - 1].bandwidth else 0
  }

  /** Bandwidth of the first n reservations that is held back on a resource. */
  ghost function HeldOn(s: Snapshot, k: ResourceId, n: nat): (total: int)
    requires n <= |s.reservations|
  {
    if n == 0 then 0
    else
      HeldOn(s, k, n - 1)
      + if DispositionOf(s, n - 1) == Reserved
        && k in s.reservations[n - 1].resources then s.reservations[n - 1].bandwidth else 0
  }

  ghost function TotalBandwidth(s: Snapshot, n: nat): int
    requires n <= |s.reservations|
  {
    if n == 0 then 0 else TotalBandwidth(s, n - 1) + s.reservations[n - 1].bandwidth
  }

  ghost function Obligations(s: Snapshot, n: nat): seq<int>
    requires n <= |s.reservations|
  {
    seq(|s.demands|, d requires 0 <= d < |s.demands| => BandwidthOf(s, ChargedTo(d), n))
  }

  /**
   Conservation: every reservation is inactive, displaced, charged to one demand, or held on its resources; never two
   of these.
   */
  lemma {:induction false} ReservationsAreConserved(s: Snapshot, n: nat)
    requires n <= |s.reservations|
    ensures TotalBandwidth(s, n)
      == BandwidthOf(s, Inactive, n) + BandwidthOf(s, Displaceable, n) + BandwidthOf(s, Reserved,
        n) + Sum(Obligations(s, n))
  {
    if n == 0 {
      SumZero(Obligations(s, 0));
    } else {
      ReservationsAreConserved(s, n - 1);
      var was, now := Obligations(s, n - 1), Obligations(s, n);
      match DispositionOf(s, n - 1)
      case ChargedTo(d) =>
        assert now == was[d := was[d] + s.reservations[n - 1].bandwidth];
        SumUpdate(was, d, was[d] + s.reservations[n - 1].bandwidth);
      case _ =>
        assert now == was;
    }
  }

  lemma {:induction false} BandwidthNonNegative(s: Snapshot, what: Disposition, k: ResourceId, n: nat)
    requires Valid(s) && n <= |s.reservations|
    ensures BandwidthOf(s, what, n) >= 0 && HeldOn(s, k, n) >= 0
  {
    if n > 0 {
      BandwidthNonNegative(s, what, k, n - 1);
      assert ValidReservation(s.reservations[n - 1], |s.resources|);
    }
  }

  // ---- The same in the fields of the snapshot ---------------------------------------------------

  /** Some demand of the snapshot is the owner of the reservation, or binds it. */
  predicate Attached(s: Snapshot, r: ReservationId)
    requires r < |s.reservations|
  {
    exists d :: 0 <= d < |s.demands| && (s.reservations[r].owner == Some(d) || r in s.demands[d].bindings)
  }

  /** An active reservation that the policy allows to be displaced: it is left out of all accounting. */
  predicate MayBeDisplaced(s: Snapshot, r: ReservationId)
    requires r < |s.reservations|
  {
    && s.reservations[r].active && s.policy.allowPreemption
    && (s.reservations[r].preemptibility == Preemptible
        || (s.reservations[r].preemptibility == PreemptibleWithAuthority && Attached(s, r)))
  }

  /** An active reservation that stays, and has nobody to answer for it. */
  predicate IsHeld(s: Snapshot, r: ReservationId)
    requires r < |s.reservations|
  {
    s.reservations[r].active && !MayBeDisplaced(s, r) && !Attached(s, r)
  }

  /** An active reservation that stays and is a floor of demand d: its owner, or else the first demand that binds it. */
  predicate IsFloorOf(s: Snapshot, r: ReservationId, d: DemandId)
    requires r < |s.reservations| && d < |s.demands|
  {
    && s.reservations[r].active && !MayBeDisplaced(s, r)
    && (s.reservations[r].owner == Some(d)
        || (r in s.demands[d].bindings && forall e :: 0 <= e < |s.demands| ==>
              s.reservations[r].owner != Some(e) && (e < d ==> r !in s.demands[e].bindings)))
  }

  /** Which reservation is treated how. */
  lemma DispositionMeaning(s: Snapshot, r: ReservationId)
    requires r < |s.reservations|
    ensures DispositionOf(s, r) == Inactive <==> !s.reservations[r].active
    ensures DispositionOf(s, r) == Displaceable <==> MayBeDisplaced(s, r)
    ensures DispositionOf(s, r) == Reserved <==> IsHeld(s, r)
    ensures forall d :: 0 <= d < |s.demands| ==> (DispositionOf(s, r) == ChargedTo(d) <==> IsFloorOf(s, r, d))
  {
    var binding, owner := BindingOwner(s.demands, r, 0), s.reservations[r].owner;
    var owned := owner.Some? && owner.value < |s.demands|;
    assert Attached(s, r) <==> binding.Some? || owned by {
      if owned { assert s.reservations[r].owner == Some(owner.value); }
      if binding.Some? { assert r in s.demands[binding.value].bindings; }
    }
    forall d | 0 <= d < |s.demands|
      ensures DispositionOf(s, r) == ChargedTo(d) <==> IsFloorOf(s, r, d)
    {
      if owned { assert owner == Some(owner.value); }
    }
  }

  /** Bandwidth of the first n reservations that are held on resource k. */
  ghost function HeldBandwidth(s: Snapshot, k: ResourceId, n: nat): (total: int)
    requires n <= |s.reservations|
  {
    if n == 0 then 0
    else
      var r := s.reservations[n - 1];
      HeldBandwidth(s, k, n - 1) + if IsHeld(s, n - 1) && k in r.resources then r.bandwidth else 0
  }

  /** Bandwidth of the first n reservations that are a floor of demand d. */
  ghost function FloorBandwidth(s: Snapshot, d: DemandId, n: nat): (total: int)
    requires n <= |s.reservations| && d < |s.demands|
  {
    if n == 0 then 0
    else FloorBandwidth(s, d, n - 1) + if IsFloorOf(s, n - 1, d) then s.reservations[n - 1].bandwidth else 0
  }

  lemma {:induction false} AccountingMeaning(s: Snapshot, n: nat)
    requires n <= |s.reservations|
    ensures forall k :: HeldOn(s, k, n) == HeldBandwidth(s, k, n)
    ensures forall d :: 0 <= d < |s.demands| ==> BandwidthOf(s, ChargedTo(d), n) == FloorBandwidth(s, d, n)
  {
    hide DispositionOf, IsHeld, IsFloorOf;
    if n > 0 {
      AccountingMeaning(s, n - 1);
      DispositionMeaning(s, n - 1);
    }
  }

  // ---- Eligibility --------------------------------------------------------------------------------

  /** Every rule of derive() that can keep a demand off a path. */
  predicate Eligible(d: Demand, record: PathRecord, p: PathId) {
    && record.candidateSet == d.candidateSet
    && (d.allowedPaths == {} || p in d.allowedPaths)
    && p !in d.forbiddenPaths
    && (record.scope.OneTenant? ==> record.scope.tenant == d.tenant)
    && (record.scope.OneClass? ==> record.scope.serviceClass == d.serviceClass)
    && (d.latencyBound.Some? ==> record.latency.Some? && record.latency.value <= d.latencyBound.value)
    && (d.costCeiling.Some? ==> record.cost <= d.costCeiling.value)
    && d.requiredDomains <= record.domains
  }

  /** The reasons for which derive() excludes a path, one per rule. */
  datatype Obstacle =
    | OtherCandidateSet | NotAllowed | Forbidden | OtherTenant | OtherClass | NoLatencyEvidence | TooSlow | TooExpensive
    | MissingDomain

  predicate Blocks(o: Obstacle, d: Demand, record: PathRecord, p: PathId) {
    match o
    case OtherCandidateSet => record.candidateSet != d.candidateSet
    case NotAllowed => d.allowedPaths != {} && p !in d.allowedPaths
    case Forbidden => p in d.forbiddenPaths
    case OtherTenant => record.scope.OneTenant? && record.scope.tenant != d.tenant
    case OtherClass => record.scope.OneClass? && record.scope.serviceClass != d.serviceClass
    case NoLatencyEvidence => d.latencyBound.Some? && record.latency.None?
    case TooSlow => d.latencyBound.Some? && record.latency.Some? && record.latency.value > d.latencyBound.value
    case TooExpensive => d.costCeiling.Some? && record.cost > d.costCeiling.value
    case MissingDomain => exists x :: x in d.requiredDomains && x !in record.domains
  }

  /** The chain of checks of derive(): the first reason to exclude the path, if there is one. */
  method FindObstacle(d: Demand, record: PathRecord, p: PathId) returns (obstacle: Option<Obstacle>)
    ensures obstacle.None? <==> Eligible(d, record, p)
    ensures obstacle.Some? ==> Blocks(obstacle.value, d, record, p)
    ensures obstacle.None? ==> forall o: Obstacle :: !Blocks(o, d, record, p)
  {
    if record.candidateSet != d.candidateSet { return Some(OtherCandidateSet); }
    if d.allowedPaths != {} && p !in d.allowedPaths { return Some(NotAllowed); }
    if d.forbiddenPaths != {} && p in d.forbiddenPaths { return Some(Forbidden); }
    if record.scope.OneTenant? && record.scope.tenant != d.tenant { return Some(OtherTenant); }
    if record.scope.OneClass? && record.scope.serviceClass != d.serviceClass { return Some(OtherClass); }
    if d.latencyBound.Some? {
      if record.latency.None? { return Some(NoLatencyEvidence); }
      if record.latency.value > d.latencyBound.value { return Some(TooSlow); }
    }
    if d.costCeiling.Some? && record.cost > d.costCeiling.value { return Some(TooExpensive); }
    var domains := d.requiredDomains;
    while domains != {}
      invariant domains <= d.requiredDomains
      invariant forall x :: x in d.requiredDomains && x !in domains ==> x in record.domains
      decreases |domains|
    {
      var x :| x in domains;
      if x !in record.domains { return Some(MissingDomain); }
      domains := domains - {x};
    }
    obstacle := None;
  }

  /** A path is eligible exactly when no rule is in its way. */
  lemma EligibleMeaning(d: Demand, record: PathRecord, p: PathId)
    ensures Eligible(d, record, p) <==> forall o: Obstacle :: !Blocks(o, d, record, p)
  {
    assert Blocks(MissingDomain, d, record, p) <==> !(d.requiredDomains <= record.domains);
    if !Eligible(d, record, p) {
      assert Blocks(OtherCandidateSet, d, record, p) || Blocks(NotAllowed, d, record, p)
        || Blocks(Forbidden, d, record, p) || Blocks(OtherTenant, d, record, p) || Blocks(OtherClass, d, record, p)
        || Blocks(NoLatencyEvidence, d, record, p) || Blocks(TooSlow, d, record, p)
        || Blocks(TooExpensive, d, record, p) || Blocks(MissingDomain, d, record, p);
    }
  }

  function LatencyKey(record: PathRecord): int {
    if record.latency.Some? then record.latency.value else MAX_LATENCY + 1
  }

  /** path_less: cost, then latency with unknown latency last, then identity. */
  predicate PathLess(paths: seq<PathRecord>, a: PathId, b: PathId)
    requires a < |paths| && b < |paths|
  {
    if paths[a].cost != paths[b].cost then paths[a].cost < paths[b].cost
    else if LatencyKey(paths[a]) != LatencyKey(paths[b]) then LatencyKey(paths[a]) < LatencyKey(paths[b])
    else a < b
  }

  /** Cheaper before dearer; at equal cost a known latency before an unknown one, and a lower before a higher. */
  lemma PathLessMeaning(paths: seq<PathRecord>, a: PathId, b: PathId)
    requires a < |paths| && b < |paths|
    requires forall p :: 0 <= p < |paths| && paths[p].latency.Some? ==> paths[p].latency.value <= MAX_LATENCY
    ensures paths[a].cost < paths[b].cost ==> PathLess(paths, a, b) && !PathLess(paths, b, a)
    ensures paths[a].cost == paths[b].cost ==>
      (paths[a].latency.Some? && paths[b].latency.None? ==> PathLess(paths, a, b) && !PathLess(paths, b, a))
      && (paths[a].latency.Some? && paths[b].latency.Some? && paths[a].latency.value < paths[b].latency.value ==>
            PathLess(paths, a, b) && !PathLess(paths, b, a))
      && (paths[a].latency == paths[b].latency ==> (PathLess(paths, a, b) <==> a < b))
  {
  }

  predicate InRange(ids: seq<PathId>, n: nat) {
    forall i :: 0 <= i < |ids| ==> ids[i] < n
  }

  predicate Ordered(paths: seq<PathRecord>, ids: seq<PathId>)
    requires InRange(ids, |paths|)
  {
    forall i, j :: 0 <= i < j < |ids| ==> PathLess(paths, ids[i], ids[j])
  }

  /** The eligible paths of a demand: the best ones in canonical order, as many as the policy allows. */
  ghost predicate IsEligibleList(s: Snapshot, d: Demand, ids: seq<PathId>) {
    && InRange(ids, |s.paths|) && Ordered(s.paths, ids)
    && (forall i :: 0 <= i < |ids| ==> Eligible(d, s.paths[ids[i]], ids[i]))
    && (s.policy.maxPaths == 0 || |ids| <= s.policy.maxPaths)
    && (forall p :: 0 <= p < |s.paths| && Eligible(d, s.paths[p], p) && p !in ids ==>
          |ids| == s.policy.maxPaths > 0 && IsAfter(s.paths, ids, p))
  }

  predicate IsAfter(paths: seq<PathRecord>, ids: seq<PathId>, p: PathId)
    requires InRange(ids, |paths|) && p < |paths|
  {
    forall i :: 0 <= i < |ids| ==> PathLess(paths, ids[i], p)
  }

  lemma OrderedIsDistinct(paths: seq<PathRecord>, ids: seq<PathId>)
    requires InRange(ids, |paths|) && Ordered(paths, ids)
    ensures Distinct(ids)
  {
  }

  /** Two such lists that agree so far do not go on with a smaller path in the first. */
  lemma NotBefore(s: Snapshot, d: Demand, a: seq<PathId>, b: seq<PathId>, i: nat)
    requires IsEligibleList(s, d, a) && IsEligibleList(s, d, b) && i < |a| && i < |b|
    requires forall k :: 0 <= k < i ==> a[k] == b[k]
    ensures !PathLess(s.paths, a[i], b[i])
  {
    OrderedIsDistinct(s.paths, a);
    OrderedIsDistinct(s.paths, b);
  }

  /** A list that another one continues is no eligible list: it was cut off below the bound. */
  lemma NotShorter(s: Snapshot, d: Demand, a: seq<PathId>, b: seq<PathId>)
    requires IsEligibleList(s, d, a) && IsEligibleList(s, d, b)
    requires forall k :: 0 <= k < |a| && k < |b| ==> a[k] == b[k]
    ensures |b| <= |a|
  {
    OrderedIsDistinct(s.paths, b);
    var p := if |a| < |b| then b[|a|] else 0;
    var listed := p in a;
  }

  lemma {:induction false} AgreeUpTo(s: Snapshot, d: Demand, a: seq<PathId>, b: seq<PathId>, n: nat)
    requires IsEligibleList(s, d, a) && IsEligibleList(s, d, b) && n <= |a| && n <= |b|
    ensures forall k :: 0 <= k < n ==> a[k] == b[k]
  {
    if n > 0 {
      AgreeUpTo(s, d, a, b, n - 1);
      NotBefore(s, d, a, b, n - 1);
      NotBefore(s, d, b, a, n - 1);
    }
  }

  /** The eligible list is determined by the snapshot. */
  lemma EligibleListIsUnique(s: Snapshot, d: Demand, a: seq<PathId>, b: seq<PathId>)
    requires IsEligibleList(s, d, a) && IsEligibleList(s, d, b)
    ensures a == b
  {
    AgreeUpTo(s, d, a, b, if |a| <= |b| then |a| else |b|);
    NotShorter(s, d, a, b);
    NotShorter(s, d, b, a);
  }

  // ---- The derivation ------------------------------------------------------------------------------

  datatype Error = NumericOverflow

  datatype Result =
    | Failed(error: Error)
    | Derived(demands: seq<DemandDerivation>, resources: seq<ResourceState>, obligations: seq<int64>, conflict: bool)

  /** Reservation accounting: floors for demands, and bandwidth held back on resources, both saturating. */
  method AccountReservations(s: Snapshot) returns (reserved: seq<int64>, obligation: seq<int64>)
    requires Valid(s)
    ensures |reserved| == |s.resources| && |obligation| == |s.demands|
    ensures forall k :: 0 <= k < |reserved| ==> reserved[k] == Clamp(HeldOn(s, k, |s.reservations|))
    ensures forall d :: 0 <= d < |obligation| ==> obligation[d] == Clamp(BandwidthOf(s, ChargedTo(d), |s.reservations|))
  {
    hide DispositionOf;
    reserved := seq(|s.resources|, _ => 0);
    obligation := seq(|s.demands|, _ => 0);
    for r := 0 to |s.reservations|
      invariant |reserved| == |s.resources| && |obligation| == |s.demands|
      invariant forall k :: 0 <= k < |reserved| ==> reserved[k] == Clamp(HeldOn(s, k, r))
      invariant forall d :: 0 <= d < |obligation| ==> obligation[d] == Clamp(BandwidthOf(s, ChargedTo(d), r))
    {
      var reservation := s.reservations[r];
      assert ValidReservation(reservation, |s.resources|);
      match DispositionOf(s, r) {
        case ChargedTo(d) =>
          BandwidthNonNegative(s, ChargedTo(d), 0, r);
          ClampAdd(BandwidthOf(s, ChargedTo(d), r), reservation.bandwidth);
          obligation := obligation[d := SatAdd(obligation[d], reservation.bandwidth)];
        case Reserved => reserved := HoldBack(s, r, reserved);
        case _ =>
      }
    }
  }

  method HoldBack(s: Snapshot, r: ReservationId, reserved: seq<int64>) returns (after: seq<int64>)
    requires Valid(s) && r < |s.reservations| && DispositionOf(s, r) == Reserved && |reserved| == |s.resources|
    requires forall k :: 0 <= k < |reserved| ==> reserved[k] == Clamp(HeldOn(s, k, r))
    ensures |after| == |reserved| && forall k :: 0 <= k < |after| ==> after[k] == Clamp(HeldOn(s, k, r + 1))
  {
    hide DispositionOf, HeldOn;
    after := reserved;
    var reservation := s.reservations[r];
    assert ValidReservation(reservation, |s.resources|);
    var listed := reservation.resources;
    for i := 0 to |listed|
      invariant |after| == |reserved|
      invariant forall k :: 0 <= k < |after| ==>
        after[k] == if k in listed[..i] then Clamp(HeldOn(s, k, r) + reservation.bandwidth) else Clamp(HeldOn(s, k, r))
    {
      var k := listed[i];
      BandwidthNonNegative(s, Reserved, k, r);
      ClampAdd(HeldOn(s, k, r), reservation.bandwidth);
      assert k !in listed[..i];
      assert listed[..i + 1] == listed[..i] + [k];
      after := after[k := SatAdd(after[k], reservation.bandwidth)];
    }
    assert listed[..|listed|] == listed;
    forall k | 0 <= k < |after|
      ensures after[k] == Clamp(HeldOn(s, k, r + 1))
    {
      HeldStep(s, k, r);
    }
  }

  lemma HeldStep(s: Snapshot, k: ResourceId, r: ReservationId)
    requires r < |s.reservations| && DispositionOf(s, r) == Reserved
    ensures HeldOn(s, k, r + 1)
      == if k in s.reservations[r].resources then HeldOn(s, k, r) + s.reservations[r].bandwidth else HeldOn(s, k, r)
  {
  }

  /** What is claimed on a resource before any planning, over unbounded integers. */
  ghost function Claimed(s: Snapshot, k: ResourceId): int
    requires k < |s.resources|
  {
    s.resources[k].committed + HeldOn(s, k, |s.reservations|)
  }

  /** Availability: what committed load and held reservations leave, or a conflict. */
  method Availability(s: Snapshot, reserved: seq<int64>) returns (states: Option<seq<ResourceState>>, conflict: bool)
    requires Valid(s) && |reserved| == |s.resources|
    requires forall k :: 0 <= k < |reserved| ==> reserved[k] == Clamp(HeldOn(s, k, |s.reservations|))
    ensures states.Some? ==> |states.value| == |s.resources|
    ensures states.Some? ==> forall k :: 0 <= k < |s.resources| ==> AvailableOn(s, k, reserved[k], states.value[k])
    ensures states.Some? ==> (conflict <==> exists k :: 0 <= k < |s.resources| && Claimed(s, k) > s.resources[k].usable)
    ensures states.None? ==> exists k :: 0 <= k < |s.resources| && Claimed(s, k) > s.resources[k].usable
  {
    hide HeldOn;
    var out: seq<ResourceState> := [];
    conflict := false;
    for k := 0 to |s.resources|
      invariant |out| == k && forall i :: 0 <= i < k ==> AvailableOn(s, i, reserved[i], out[i])
      invariant conflict <==> exists i :: 0 <= i < k && Claimed(s, i) > s.resources[i].usable
    {
      var resource := s.resources[k];
      BandwidthNonNegative(s, Reserved, k, |s.reservations|);
      var claimed := AddChecked(resource.committed, reserved[k]);
      if claimed.None? {
        assert Claimed(s, k) > s.resources[k].usable;
        return None, conflict;
      }
      var available: int64 := 0;
      if claimed.value > resource.usable {
        conflict := true;
        assert Claimed(s, k) > s.resources[k].usable;
      } else {
        available := resource.usable - claimed.value;
        assert Claimed(s, k) <= s.resources[k].usable;
      }
      out := out + [ResourceState(resource.usable, resource.committed, reserved[k], available, 0, 0)];
    }
    states := Some(out);
  }

  ghost predicate AvailableOn(s: Snapshot, k: ResourceId, reserved: int64, state: ResourceState)
    requires k < |s.resources|
  {
    && state.usable == s.resources[k].usable && state.committed == s.resources[k].committed
      && state.reserved == reserved
    && state.available == if Claimed(s, k) <= state.usable then state.usable - Claimed(s, k) else 0
  }

  // ---- Demands --------------------------------------------------------------------------------------

  lemma LessOrder(paths: seq<PathRecord>, a: PathId, b: PathId, c: PathId)
    requires a < |paths| && b < |paths| && c < |paths|
    ensures a != b && !PathLess(paths, b, a) ==> PathLess(paths, a, b)
    ensures PathLess(paths, a, b) && PathLess(paths, b, c) ==> PathLess(paths, a, c)
  {
  }

  lemma At<T>(front: seq<T>, x: T, back: seq<T>, i: nat)
    requires i < |front| + 1 + |back|
    ensures (front + [x] + back)[i] == if i < |front| then front[i] else if i == |front|
      then x else back[i - |front| - 1]
  {
  }

  lemma StaysOrderedAt(paths: seq<PathRecord>, ids: seq<PathId>, n: nat, p: PathId, i: nat, j: nat)
    requires InRange(ids, |paths|) && Ordered(paths, ids) && p < |paths| && p !in ids && n <= |ids| && i < j < |ids| + 1
    requires forall k :: 0 <= k < n ==> PathLess(paths, ids[k], p)
    requires n < |ids| ==> !PathLess(paths, ids[n], p)
    ensures var out := ids[..n] + [p] + ids[n..];
      out[i] < |paths| && out[j] < |paths| && PathLess(paths, out[i], out[j])
  {
    hide PathLess;
    At(ids[..n], p, ids[n..], i);
    At(ids[..n], p, ids[n..], j);
    if i == n { LessOrder(paths, p, ids[n], ids[j - 1]); }
  }

  lemma StaysOrdered(paths: seq<PathRecord>, ids: seq<PathId>, n: nat, p: PathId)
    requires InRange(ids, |paths|) && Ordered(paths, ids) && p < |paths| && p !in ids && n <= |ids|
    requires forall k :: 0 <= k < n ==> PathLess(paths, ids[k], p)
    requires n < |ids| ==> !PathLess(paths, ids[n], p)
    ensures InRange(ids[..n] + [p] + ids[n..], |paths|) && Ordered(paths, ids[..n] + [p] + ids[n..])
  {
    hide PathLess;
    var out := ids[..n] + [p] + ids[n..];
    forall i, j | 0 <= i < j < |out|
      ensures out[i] < |paths| && out[j] < |paths| && PathLess(paths, out[i], out[j])
    {
      StaysOrderedAt(paths, ids, n, p, i, j);
    }
    forall i | 0 <= i < |out| ensures out[i] < |paths| { At(ids[..n], p, ids[n..], i); }
  }

  /** One insertion of a sort in the order of PathLess. */
  method Insert(paths: seq<PathRecord>, ids: seq<PathId>, p: PathId) returns (out: seq<PathId>)
    requires InRange(ids, |paths|) && Ordered(paths, ids) && p < |paths| && p !in ids
    ensures InRange(out, |paths|) && Ordered(paths, out)
    ensures forall q: PathId :: q in out <==> q in ids || q == p
  {
    hide PathLess;
    var i := 0;
    while i < |ids| && PathLess(paths, ids[i], p)
      invariant i <= |ids| && forall j :: 0 <= j < i ==> PathLess(paths, ids[j], p)
    {
      i := i + 1;
    }
    assert ids == ids[..i] + ids[i..];
    StaysOrdered(paths, ids, i, p);
    out := ids[..i] + [p] + ids[i..];
  }

  /** The eligible paths in canonical order, before the policy bound. */
  method SortEligible(s: Snapshot, d: Demand) returns (ids: seq<PathId>)
    ensures InRange(ids, |s.paths|) && Ordered(s.paths, ids)
    ensures forall p: PathId :: p in ids <==> p < |s.paths| && Eligible(d, s.paths[p], p)
  {
    hide Eligible, PathLess;
    ids := [];
    for p := 0 to |s.paths|
      invariant InRange(ids, |s.paths|) && Ordered(s.paths, ids)
      invariant forall q: PathId :: q in ids <==> q < p && Eligible(d, s.paths[q], q)
    {
      var obstacle := FindObstacle(d, s.paths[p], p);
      if obstacle.None? { ids := Insert(s.paths, ids, p); }
    }
  }

  /** The policy bound cuts the list after its best paths. */
  method EligiblePaths(s: Snapshot, d: Demand) returns (ids: seq<PathId>)
    ensures IsEligibleList(s, d, ids)
  {
    hide Eligible, PathLess;
    var all := SortEligible(s, d);
    var limit := if s.policy.maxPaths == 0 || |all| < s.policy.maxPaths then |all| else s.policy.maxPaths;
    ids := all[..limit];
    forall p | 0 <= p < |s.paths| && Eligible(d, s.paths[p], p) && p !in ids
      ensures |ids| == s.policy.maxPaths > 0 && IsAfter(s.paths, ids, p)
    {
      var j :| 0 <= j < |all| && all[j] == p;
      assert limit <= j;
    }
  }

  predicate Allowed(policy: Policy, d: Demand) {
    && (policy.allowedTenants == {} || d.tenant in policy.allowedTenants)
    && (policy.allowedClasses == {} || d.serviceClass in policy.allowedClasses)
  }

  function Max(a: int64, b: int64): (m: int64)
    ensures m >= a && m >= b && (m == a || m == b)
  {
    if a < b then b else a
  }

  /** What derive() must report about demand d. */
  ghost predicate DerivedFrom(s: Snapshot, d: DemandId, out: DemandDerivation)
    requires d < |s.demands|
  {
    var demand := s.demands[d];
    && out.generation == demand.generation && out.priority == demand.priority && out.tenant == demand.tenant
    && out.active == demand.active && out.maximum == demand.maximum
    && out.floor == Max(demand.minimum, Clamp(BandwidthOf(s, ChargedTo(d), |s.reservations|)))
    && out.desired == Max(demand.desired, out.floor)
    && (if demand.active then IsEligibleList(s, demand, out.eligible) && out.excluded == !Allowed(s.policy, demand)
        else out.eligible == [] && !out.excluded)
  }

  method DeriveDemand(s: Snapshot, d: DemandId, obligation: int64) returns (out: DemandDerivation)
    requires Valid(s) && d < |s.demands| && obligation == Clamp(BandwidthOf(s, ChargedTo(d), |s.reservations|))
    ensures DerivedFrom(s, d, out) && DemandWithinLimits(out, |s.paths|)
  {
    hide IsEligibleList, BandwidthOf;
    var demand := s.demands[d];
    var floor := Max(demand.minimum, obligation);
    var desired := Max(demand.desired, floor);
    out := DemandDerivation(demand.generation, floor, desired, demand.maximum, demand.priority, demand.tenant,
      demand.active, false, []);
    if demand.active {
      var eligible := EligiblePaths(s, demand);
      ListIsDistinct(s, demand, eligible);
      out := out.(excluded := !Allowed(s.policy, demand), eligible := eligible);
    }
  }

  lemma ListIsDistinct(s: Snapshot, d: Demand, ids: seq<PathId>)
    requires IsEligibleList(s, d, ids)
    ensures Distinct(ids) && InRange(ids, |s.paths|)
  {
    OrderedIsDistinct(s.paths, ids);
  }

  /**
   derive: everything that follows rests on this. The result is within the limits that the solver, the
   certificate and the verifier assume; a snapshot is in conflict exactly when some resource is claimed, over
   unbounded integers, beyond its usable capacity; and derivation fails only on such a snapshot.
   */
  method DeriveSnapshot(s: Snapshot) returns (result: Result)
    requires Valid(s)
    ensures result.Derived? ==> WithinLimits(result.demands, Catalog(s.paths), result.resources)
    ensures result.Derived? ==>
      |result.demands| == |s.demands| && forall d :: 0 <= d < |s.demands| ==> DerivedFrom(s, d, result.demands[d])
    ensures result.Derived? ==> |result.resources| == |s.resources| && |result.obligations| == |s.demands|
    ensures result.Derived? ==> forall d :: 0 <= d < |s.demands| ==>
      result.obligations[d] == Clamp(BandwidthOf(s, ChargedTo(d), |s.reservations|))
    ensures result.Derived? ==> forall k :: 0 <= k < |s.resources| ==>
      AvailableOn(s, k, Clamp(HeldOn(s, k, |s.reservations|)), result.resources[k])
    ensures result.Derived? ==>
      (result.conflict <==> exists k :: 0 <= k < |s.resources| && Claimed(s, k) > s.resources[k].usable)
    ensures result.Failed? ==> exists k :: 0 <= k < |s.resources| && Claimed(s, k) > s.resources[k].usable
    // In the fields of the snapshot:
    ensures result.Derived? ==> forall k :: 0 <= k < |s.resources| ==>
      var left := s.resources[k].usable - s.resources[k].committed - HeldBandwidth(s, k, |s.reservations|);
      result.resources[k].available == if left >= 0 then left else 0
    ensures result.Derived? ==> forall d :: 0 <= d < |s.demands| ==>
      result.demands[d].floor == Max(s.demands[d].minimum, Clamp(FloorBandwidth(s, d, |s.reservations|)))
  {
    AccountingMeaning(s, |s.reservations|);
    hide HeldOn, BandwidthOf, DemandWithinLimits, HeldBandwidth, FloorBandwidth, IsEligibleList;
    var reserved, obligation := AccountReservations(s);
    var states, conflict := Availability(s, reserved);
    if states.None? { return Failed(NumericOverflow); }
    var demands: seq<DemandDerivation> := [];
    for d := 0 to |s.demands|
      invariant |demands| == d
      invariant forall i :: 0 <= i < d ==> DerivedFrom(s, i, demands[i]) && DemandWithinLimits(demands[i], |s.paths|)
    {
      var out := DeriveDemand(s, d, obligation[d]);
      demands := demands + [out];
    }
    forall k | 0 <= k < |s.resources|
      ensures ResourceWithinLimits(states.value[k])
    {
      BandwidthNonNegative(s, Reserved, k, |s.reservations|);
      assert AvailableOn(s, k, reserved[k], states.value[k]);
    }
    result := Derived(demands, states.value, obligation, conflict);
  }
}
