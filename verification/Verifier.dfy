/** The independent verifier: verify_allocation of src/allocation.cpp. */
module Verifier {
  import opened Numeric
  import opened Fabric

  datatype PathShare = PathShare(path: PathId, generation: nat, granted: int64, reserved: int64)

  datatype DemandAllocation = DemandAllocation(demand: DemandId, generation: nat, granted: int64,
    shares: seq<PathShare>)

  datatype Allocation = Allocation(demands: seq<DemandAllocation>, degraded: bool)

  datatype Violation =
    | UnknownDemand(demand: DemandId)
    | StaleGeneration(demand: DemandId)
    | NegativeShare(demand: DemandId, path: PathId)
    | DuplicatePath(demand: DemandId, path: PathId)
    | NotEligible(demand: DemandId, path: PathId)
    | AbsentPath(demand: DemandId, path: PathId)
    | StalePath(demand: DemandId, path: PathId)
    | UnauthorizedPath(path: PathId)
    | TotalMismatch(demand: DemandId)
    | ReservedExceedsGranted(demand: DemandId)
    | NegativeGrant(demand: DemandId)
    | AboveMaximum(demand: DemandId)
    | BelowFloor(demand: DemandId)
    | OverCapacity(resource: ResourceId)

  /** The part of a snapshot the verifier looks at, after derivation. */
  datatype Snapshot = Snapshot(
    demands: seq<DemandDerivation>,
    paths: seq<CandidatePath>,
    resources: seq<ResourceState>,
    pathAuthority: nat)
  {
    predicate WithinLimits() {
      Fabric.WithinLimits(demands, paths, resources)
    }
  }

  // ---- The meaning of "verified", over unbounded integers -------------------

  ghost function GrantedSum(shares: seq<PathShare>): int {
    if shares == [] then 0 else GrantedSum(shares[..|shares| - 1]) + shares[|shares| - 1].granted
  }

  /** The source's saturating fold; reserved amounts may have either sign. */
  function ReservedFold(shares: seq<PathShare>): int64 {
    if shares == [] then 0 else SatAdd(ReservedFold(shares[..|shares| - 1]), shares[|shares| - 1].reserved)
  }

  ghost function ShareLoad(s: PathShare, paths: seq<CandidatePath>, r: ResourceId): int64 {
    if s.path < |paths| && r in paths[s.path].resources then s.granted else 0
  }

  ghost function SharesLoad(shares: seq<PathShare>, paths: seq<CandidatePath>, r: ResourceId): int {
    if shares == [] then 0
    else SharesLoad(shares[..|shares| - 1], paths, r) + ShareLoad(shares[|shares| - 1], paths, r)
  }

  ghost function EntriesLoad(entries: seq<DemandAllocation>, paths: seq<CandidatePath>, r: ResourceId): int {
    if entries == [] then 0
    else EntriesLoad(entries[..|entries| - 1], paths, r) + SharesLoad(entries[|entries| - 1].shares, paths, r)
  }

  /** A share is on a current, authorised, eligible path; an empty share may be anywhere. */
  ghost predicate ShareOk(snapshot: Snapshot, demand: DemandDerivation, s: PathShare) {
    && s.granted >= 0
    && (s.granted != 0 ==>
          && s.path in demand.eligible && s.path < |snapshot.paths|
          && s.generation == snapshot.paths[s.path].generation
          && snapshot.paths[s.path].authorityGeneration == snapshot.pathAuthority)
  }

  ghost predicate SharesOk(snapshot: Snapshot, demand: DemandDerivation, shares: seq<PathShare>) {
    && (forall j :: 0 <= j < |shares| ==> ShareOk(snapshot, demand, shares[j]))
    && (forall i, j :: 0 <= i < j < |shares| ==> shares[i].path != shares[j].path)
  }

  ghost predicate EntryOk(snapshot: Snapshot, degraded: bool, entry: DemandAllocation) {
    && entry.demand < |snapshot.demands|
    && var demand := snapshot.demands[entry.demand];
    && entry.generation == demand.generation
    && SharesOk(snapshot, demand, entry.shares)
    && GrantedSum(entry.shares) == entry.granted
    && ReservedFold(entry.shares) <= entry.granted <= demand.maximum
    && (demand.active && !degraded ==> entry.granted >= demand.floor)
  }

  /** Every entry is right and no resource carries more than its availability. */
  ghost predicate Acceptable(snapshot: Snapshot, allocation: Allocation) {
    && (forall i :: 0 <= i < |allocation.demands| ==> EntryOk(snapshot, allocation.degraded, allocation.demands[i]))
    && (forall r :: 0 <= r < |snapshot.resources| ==>
          EntriesLoad(allocation.demands, snapshot.paths, r) <= snapshot.resources[r].available)
  }

  // ---- Saturating totals -------------------------------------------------------

  lemma {:induction false} GrantedNonNegative(snapshot: Snapshot, demand: DemandDerivation, shares: seq<PathShare>)
    requires SharesOk(snapshot, demand, shares)
    ensures GrantedSum(shares) >= 0
  {
    if shares != [] { GrantedNonNegative(snapshot, demand, shares[..|shares| - 1]); }
  }

  lemma {:induction false} SharesLoadNonNegative(snapshot: Snapshot, demand: DemandDerivation, shares: seq<PathShare>,
                                                 paths: seq<CandidatePath>, r: ResourceId)
    requires SharesOk(snapshot, demand, shares)
    ensures SharesLoad(shares, paths, r) >= 0
  {
    if shares != [] { SharesLoadNonNegative(snapshot, demand, shares[..|shares| - 1], paths, r); }
  }

  lemma {:induction false} EntriesLoadNonNegative(snapshot: Snapshot, degraded: bool, entries: seq<DemandAllocation>,
                                                  paths: seq<CandidatePath>, r: ResourceId)
    requires forall i :: 0 <= i < |entries| ==> EntryOk(snapshot, degraded, entries[i])
    ensures EntriesLoad(entries, paths, r) >= 0
  {
    if entries != [] {
      var e := entries[|entries| - 1];
      EntriesLoadNonNegative(snapshot, degraded, entries[..|entries| - 1], paths, r);
      SharesLoadNonNegative(snapshot, snapshot.demands[e.demand], e.shares, paths, r);
    }
  }

  type Totals = map<ResourceId, int64>

  function TotalAt(totals: Totals, r: ResourceId): int64 {
    if r in totals then totals[r] else 0
  }

  /** per_resource_allocated: one saturating addition per resource of the path. */
  method ChargePath(totals: Totals, path: seq<ResourceId>, amount: int64) returns (charged: Totals)
    requires Distinct(path)
    ensures forall r: ResourceId :: TotalAt(charged, r) == (if r in path then SatAdd(TotalAt(totals, r),
      amount) else TotalAt(totals, r))
  {
    charged := totals;
    for k := 0 to |path|
      invariant forall r: ResourceId :: r in path[..k] ==> TotalAt(charged, r) == SatAdd(TotalAt(totals, r), amount)
      invariant forall r: ResourceId :: r !in path[..k] ==> TotalAt(charged, r) == TotalAt(totals, r)
    {
      assert path[..k + 1] == path[..k] + [path[k]];
      assert path[k] !in path[..k];
      charged := charged[path[k] := SatAdd(TotalAt(charged, path[k]), amount)];
    }
    assert path[..|path|] == path;
  }

  /** The totals are the saturated exact loads of the entries, plus those of some shares of the next entry. */
  ghost predicate Exact(totals: Totals, paths: seq<CandidatePath>, entries: seq<DemandAllocation>,
                        shares: seq<PathShare>) {
    forall r: ResourceId :: TotalAt(totals, r) == Clamp(EntriesLoad(entries, paths, r) + SharesLoad(shares, paths, r))
  }

  ghost predicate NonNegativeSoFar(paths: seq<CandidatePath>, entries: seq<DemandAllocation>) {
    forall r: ResourceId :: EntriesLoad(entries, paths, r) >= 0
  }

  ghost predicate StartsExact(snapshot: Snapshot, totals: Totals, before: seq<DemandAllocation>) {
    NonNegativeSoFar(snapshot.paths, before) && Exact(totals, snapshot.paths, before, [])
  }

  /** totals' is totals plus one share. */
  ghost predicate ChargedBy(totals: Totals, totals': Totals, paths: seq<CandidatePath>, s: PathShare) {
    forall r: ResourceId :: TotalAt(totals', r) == SatAdd(TotalAt(totals, r), ShareLoad(s, paths, r))
  }

  lemma ExtendExact(totals: Totals, totals': Totals, snapshot: Snapshot, demand: DemandDerivation,
                    entries: seq<DemandAllocation>, shares: seq<PathShare>, s: PathShare)
    requires SharesOk(snapshot, demand, shares) && ShareOk(snapshot, demand, s)
    requires NonNegativeSoFar(snapshot.paths, entries) && Exact(totals, snapshot.paths, entries, shares)
    requires ChargedBy(totals, totals', snapshot.paths, s)
    ensures Exact(totals', snapshot.paths, entries, shares + [s])
  {
    assert (shares + [s])[..|shares|] == shares;
    forall r: ResourceId
      ensures TotalAt(totals', r) == Clamp(EntriesLoad(entries, snapshot.paths, r) + SharesLoad(shares + [s],
        snapshot.paths, r))
    {
      SharesLoadNonNegative(snapshot, demand, shares, snapshot.paths, r);
    }
  }

  lemma NothingGranted()
    ensures GrantedSum([]) == 0
  {
  }

  lemma GrantedStep(snapshot: Snapshot, demand: DemandDerivation, shares: seq<PathShare>, s: PathShare)
    requires SharesOk(snapshot, demand, shares) && ShareOk(snapshot, demand, s)
    ensures SatAdd(Clamp(GrantedSum(shares)), s.granted) == Clamp(GrantedSum(shares + [s]))
  {
    assert (shares + [s])[..|shares|] == shares;
    GrantedNonNegative(snapshot, demand, shares);
  }

  lemma ExtendShares(snapshot: Snapshot, demand: DemandDerivation, shares: seq<PathShare>, s: PathShare)
    ensures SharesOk(snapshot, demand, shares + [s]) <==>
      SharesOk(snapshot, demand, shares) && ShareOk(snapshot, demand, s)
        && forall j :: 0 <= j < |shares| ==> shares[j].path != s.path
  {
    var all := shares + [s];
    assert forall j :: 0 <= j < |shares| ==> all[j] == shares[j];
    assert all[|shares|] == s;
  }

  ghost function PathsOf(shares: seq<PathShare>): set<PathId> {
    set j | 0 <= j < |shares| :: shares[j].path
  }

  /** One share: the checks in source order, each failure skipping the rest. */
  method VerifyShare(snapshot: Snapshot, demand: DemandDerivation, id: DemandId, s: PathShare, totals: Totals)
    returns (violations: set<Violation>, charged: Totals)
    requires snapshot.WithinLimits() && DemandWithinLimits(demand, |snapshot.paths|)
    ensures violations == {} <==> ShareOk(snapshot, demand, s)
    ensures ShareOk(snapshot, demand, s) ==> ChargedBy(totals, charged, snapshot.paths, s)
  {
    violations, charged := {}, totals;
    if s.granted < 0 {
      violations := {NegativeShare(id, s.path)};
    }
    if s.granted == 0 {
      return;
    }
    if s.path !in demand.eligible {
      violations := violations + {NotEligible(id, s.path)};
      return;
    }
    if s.path >= |snapshot.paths| {
      violations := violations + {AbsentPath(id, s.path)};
      return;
    }
    var path := snapshot.paths[s.path];
    if s.generation != path.generation {
      violations := violations + {StalePath(id, s.path)};
      return;
    }
    if path.authorityGeneration != snapshot.pathAuthority {
      violations := violations + {UnauthorizedPath(s.path)};
    }
    assert PathWithinLimits(path, |snapshot.resources|);
    charged := ChargePath(totals, path.resources, s.granted);
  }

  /** All shares of one entry. */
  method VerifyShares(snapshot: Snapshot, demand: DemandDerivation, entry: DemandAllocation, totals: Totals,
                      ghost before: seq<DemandAllocation>)
    returns (violations: set<Violation>, total: int64, reserved: int64, charged: Totals)
    requires snapshot.WithinLimits() && DemandWithinLimits(demand, |snapshot.paths|)
    ensures violations == {} <==> SharesOk(snapshot, demand, entry.shares)
    ensures reserved == ReservedFold(entry.shares)
    ensures SharesOk(snapshot, demand, entry.shares) ==> total == Clamp(GrantedSum(entry.shares))
    ensures StartsExact(snapshot, totals, before) && SharesOk(snapshot, demand, entry.shares) ==>
      Exact(charged, snapshot.paths, before, entry.shares)
  {
    hide Exact, ChargedBy, ShareOk, GrantedSum;
    violations, total, reserved, charged := {}, 0, 0, totals;
    var used: set<PathId> := {};
    assert GrantedSum([]) == 0 by { NothingGranted(); }
    for j := 0 to |entry.shares|
      invariant used == PathsOf(entry.shares[..j])
      invariant violations == {} <==> SharesOk(snapshot, demand, entry.shares[..j])
      invariant reserved == ReservedFold(entry.shares[..j])
      invariant SharesOk(snapshot, demand, entry.shares[..j]) ==> total == Clamp(GrantedSum(entry.shares[..j]))
      invariant StartsExact(snapshot, totals, before) && SharesOk(snapshot, demand, entry.shares[..j]) ==>
        Exact(charged, snapshot.paths, before, entry.shares[..j])
    {
      var s := entry.shares[j];
      ghost var prefix := entry.shares[..j];
      assert entry.shares[..j + 1] == prefix + [s];
      ExtendShares(snapshot, demand, prefix, s);
      var duplicate := s.path in used;
      assert duplicate <==> !(forall i :: 0 <= i < |prefix| ==> prefix[i].path != s.path);
      var faults, after := VerifyShare(snapshot, demand, entry.demand, s, charged);
      if StartsExact(snapshot, totals, before) && SharesOk(snapshot, demand, prefix) && ShareOk(snapshot, demand, s) {
        ExtendExact(charged, after, snapshot, demand, before, prefix, s);
      }
      if SharesOk(snapshot, demand, prefix) && ShareOk(snapshot, demand, s) {
        GrantedStep(snapshot, demand, prefix, s);
      }
      charged := after;
      violations := violations + faults + (if duplicate then {DuplicatePath(entry.demand, s.path)} else {});
      used := used + {s.path};
      total := SatAdd(total, s.granted);
      reserved := SatAdd(reserved, s.reserved);
    }
    assert entry.shares[..|entry.shares|] == entry.shares;
  }

  /** One entry: identity, generation, shares, totals. */
  method VerifyEntry(snapshot: Snapshot, degraded: bool, entry: DemandAllocation, totals: Totals,
                     ghost before: seq<DemandAllocation>)
    returns (violations: set<Violation>, charged: Totals)
    requires snapshot.WithinLimits()
    ensures violations == {} <==> EntryOk(snapshot, degraded, entry)
    ensures StartsExact(snapshot, totals, before) && EntryOk(snapshot, degraded, entry) ==>
      Exact(charged, snapshot.paths, before + [entry], [])
  {
    violations, charged := {}, totals;
    if entry.demand >= |snapshot.demands| {
      return {UnknownDemand(entry.demand)}, totals;
    }
    var demand := snapshot.demands[entry.demand];
    assert DemandWithinLimits(demand, |snapshot.paths|);
    if entry.generation != demand.generation {
      return {StaleGeneration(entry.demand)}, totals;
    }
    var total, reserved;
    violations, total, reserved, charged := VerifyShares(snapshot, demand, entry, totals, before);
    if SharesOk(snapshot, demand, entry.shares) {
      GrantedNonNegative(snapshot, demand, entry.shares);
    }
    if total != entry.granted {
      violations := violations + {TotalMismatch(entry.demand)};
    }
    if reserved > entry.granted {
      violations := violations + {ReservedExceedsGranted(entry.demand)};
    }
    if entry.granted < 0 {
      violations := violations + {NegativeGrant(entry.demand)};
    }
    if entry.granted > demand.maximum {
      violations := violations + {AboveMaximum(entry.demand)};
    }
    if demand.active && !degraded && entry.granted < demand.floor {
      violations := violations + {BelowFloor(entry.demand)};
    }
    assert (before + [entry])[..|before|] == before;
  }

  /**
   verify_allocation. Nothing is reported exactly when the allocation is acceptable over unbounded
   integers: saturation can neither hide a violation nor invent one.
   */
  method VerifyAllocation(snapshot: Snapshot, allocation: Allocation) returns (violations: set<Violation>)
    requires snapshot.WithinLimits()
    ensures violations == {} <==> Acceptable(snapshot, allocation)
  {
    var totals: Totals := map[];
    violations := {};
    var entries := allocation.demands;
    for i := 0 to |entries|
      invariant violations == {} <==> forall j :: 0 <= j < i ==> EntryOk(snapshot, allocation.degraded, entries[j])
      invariant violations == {} ==> Exact(totals, snapshot.paths, entries[..i], [])
    {
      if violations == {} {
        forall r: ResourceId ensures EntriesLoad(entries[..i], snapshot.paths, r) >= 0 {
          EntriesLoadNonNegative(snapshot, allocation.degraded, entries[..i], snapshot.paths, r);
        }
      }
      var faults;
      faults, totals := VerifyEntry(snapshot, allocation.degraded, entries[i], totals, entries[..i]);
      violations := violations + faults;
      assert entries[..i + 1] == entries[..i] + [entries[i]];
    }
    assert entries[..|entries|] == entries;
    ghost var clean := violations == {};
    for r := 0 to |snapshot.resources|
      invariant violations == {}
        <==> (clean && forall s :: 0 <= s < r ==> TotalAt(totals, s) <= snapshot.resources[s].available)
    {
      if TotalAt(totals, r) > snapshot.resources[r].available {
        violations := violations + {OverCapacity(r)};
      }
    }
    forall r | 0 <= r < |snapshot.resources|
      ensures clean ==> (TotalAt(totals, r) <= snapshot.resources[r].available
        <==> EntriesLoad(entries, snapshot.paths, r) <= snapshot.resources[r].available)
    {
      assert ResourceWithinLimits(snapshot.resources[r]);
      assert SharesLoad([], snapshot.paths, r) == 0;
      if clean {
        EntriesLoadNonNegative(snapshot, allocation.degraded, entries, snapshot.paths, r);
      }
    }
  }

  // ---- A limit of the verifier ------------------------------------------------------

  /** Bandwidth that all entries naming demand d grant it together. */
  ghost function TotalGrant(entries: seq<DemandAllocation>, d: DemandId): int {
    if entries == [] then 0
    else
      var e := entries[|entries| - 1];
      TotalGrant(entries[..|entries| - 1], d) + (if e.demand == d then e.granted else 0)
  }

  ghost predicate OneEntryPerDemand(entries: seq<DemandAllocation>) {
    forall i, j :: 0 <= i < j < |entries| ==> entries[i].demand != entries[j].demand
  }

  /** With one entry per demand, a verified allocation keeps every demand within its maximum. */
  lemma {:induction false} VerifiedKeepsMaxima(snapshot: Snapshot, degraded: bool, entries: seq<DemandAllocation>,
                                               d: DemandId)
    requires snapshot.WithinLimits() && d < |snapshot.demands|
    requires forall i :: 0 <= i < |entries| ==> EntryOk(snapshot, degraded, entries[i])
    requires OneEntryPerDemand(entries)
    ensures 0 <= TotalGrant(entries, d) <= snapshot.demands[d].maximum
    ensures (forall i :: 0 <= i < |entries| ==> entries[i].demand != d) ==> TotalGrant(entries, d) == 0
  {
    assert DemandWithinLimits(snapshot.demands[d], |snapshot.paths|);
    if entries != [] {
      var e := entries[|entries| - 1];
      VerifiedKeepsMaxima(snapshot, degraded, entries[..|entries| - 1], d);
      GrantedNonNegative(snapshot, snapshot.demands[e.demand], e.shares);
    }
  }

  ghost predicate KeepsMaxima(snapshot: Snapshot, entries: seq<DemandAllocation>) {
    forall d :: 0 <= d < |snapshot.demands| ==> TotalGrant(entries, d) <= snapshot.demands[d].maximum
  }

  function NamesOf(entries: seq<DemandAllocation>): (names: seq<DemandId>) {
    seq(|entries|, i requires 0 <= i < |entries| => entries[i].demand)
  }

  function AboveAll(names: seq<DemandId>): (n: nat)
    ensures forall i :: 0 <= i < |names| ==> names[i] < n
  {
    if names == [] then 0
    else
      var before := AboveAll(names[..|names| - 1]);
      var last := names[|names| - 1];
      assert forall i :: 0 <= i < |names| - 1 ==> names[i] == names[..|names| - 1][i];
      if last < before then before else last + 1
  }

  // ---- Entries are checked one by one: a demand listed twice can be granted more than its maximum ----

  const UNIT_DEMAND := DemandDerivation(1, 0, 1, 1, 0, 0, true, false, [0])

  /** n demands with a maximum of 1, and one path over one resource that carries 2. */
  function UnitSnapshot(n: nat): Snapshot {
    Snapshot(seq(n, _ => UNIT_DEMAND), [CandidatePath(1, 1, [0])], [ResourceState(2, 0, 0, 2, 2, 0)], 1)
  }

  function UnitEntry(d: DemandId, granted: bool): DemandAllocation {
    if granted then DemandAllocation(d, 1, 1, [PathShare(0, 1, 1, 0)]) else DemandAllocation(d, 1, 0, [])
  }

  /** Only the entries i and j are granted anything. */
  function UnitEntries(names: seq<DemandId>, i: nat, j: nat): (entries: seq<DemandAllocation>)
    ensures NamesOf(entries) == names
  {
    seq(|names|, k requires 0 <= k < |names| => UnitEntry(names[k], k == i || k == j))
  }

  lemma UnitEntryOk(n: nat, d: DemandId, granted: bool)
    requires d < n
    ensures EntryOk(UnitSnapshot(n), false, UnitEntry(d, granted))
    ensures SharesLoad(UnitEntry(d, granted).shares, UnitSnapshot(n).paths, 0) == if granted then 1 else 0
  {
    assert UnitSnapshot(n).demands[d] == UNIT_DEMAND;
    if granted { assert UnitEntry(d, granted).shares[..0] == []; }
  }

  lemma {:induction false} UnitTotals(names: seq<DemandId>, i: nat, j: nat, n: nat, m: nat)
    requires i < j < |names| && names[i] == names[j] && m <= |names| && forall k :: 0 <= k < |names| ==> names[k] < n
    ensures var entries, total := UnitEntries(names, i, j)[..m], (if i < m then 1 else 0) + (if j < m then 1 else 0);
      EntriesLoad(entries, UnitSnapshot(n).paths, 0) == total && TotalGrant(entries, names[i]) == total
  {
    if m > 0 {
      var entries := UnitEntries(names, i, j)[..m];
      assert entries[..m - 1] == UnitEntries(names, i, j)[..m - 1];
      UnitTotals(names, i, j, n, m - 1);
      UnitEntryOk(n, names[m - 1], m - 1 == i || m - 1 == j);
    }
  }

  lemma UnitWithinLimits(n: nat)
    ensures UnitSnapshot(n).WithinLimits()
  {
  }

  lemma RepeatedNameExceedsMaximum(names: seq<DemandId>, i: nat, j: nat)
    requires i < j < |names| && names[i] == names[j]
    ensures var snapshot, allocation := UnitSnapshot(AboveAll(names)), Allocation(UnitEntries(names, i, j), false);
      && snapshot.WithinLimits() && Acceptable(snapshot, allocation) && NamesOf(allocation.demands) == names
      && !KeepsMaxima(snapshot, allocation.demands)
  {
    hide EntryOk, TotalGrant, EntriesLoad, Fabric.WithinLimits, UnitEntry;
    var n, entries := AboveAll(names), UnitEntries(names, i, j);
    var snapshot := UnitSnapshot(n);
    UnitWithinLimits(n);
    assert |snapshot.demands| == n && |snapshot.resources| == 1;
    assert names[i] < n;
    forall k | 0 <= k < |entries| ensures EntryOk(snapshot, false, entries[k]) {
      UnitEntryOk(n, names[k], k == i || k == j);
    }
    UnitTotals(names, i, j, n, |names|);
    assert entries[..|names|] == entries;
    assert snapshot.demands[names[i]] == UNIT_DEMAND;
  }

  /**
   Verification bounds what each demand is granted in all if and only if no demand is listed twice: for distinct
   names every verified allocation keeps all maxima, for any other list of names some verified one does not.
   */
  lemma MaximaKeptIffDistinct(names: seq<DemandId>)
    ensures Distinct(names) <==>
      forall snapshot: Snapshot, allocation: Allocation ::
        snapshot.WithinLimits() && Acceptable(snapshot, allocation) && NamesOf(allocation.demands) == names
        ==> KeepsMaxima(snapshot, allocation.demands)
  {
    if Distinct(names) {
      forall snapshot: Snapshot, allocation: Allocation
        | snapshot.WithinLimits() && Acceptable(snapshot, allocation) && NamesOf(allocation.demands) == names
        ensures KeepsMaxima(snapshot, allocation.demands)
      {
        DistinctNames(allocation.demands);
        forall d | 0 <= d < |snapshot.demands|
          ensures TotalGrant(allocation.demands, d) <= snapshot.demands[d].maximum
        {
          VerifiedKeepsMaxima(snapshot, allocation.degraded, allocation.demands, d);
        }
      }
    } else {
      var i, j :| 0 <= i < j < |names| && names[i] == names[j];
      RepeatedNameExceedsMaximum(names, i, j);
      assert Acceptable(UnitSnapshot(AboveAll(names)), Allocation(UnitEntries(names, i, j), false));
    }
  }

  lemma DistinctNames(entries: seq<DemandAllocation>)
    requires Distinct(NamesOf(entries))
    ensures OneEntryPerDemand(entries)
  {
    forall i, j | 0 <= i < j < |entries| ensures entries[i].demand != entries[j].demand {
      assert NamesOf(entries)[i] == entries[i].demand && NamesOf(entries)[j] == entries[j].demand;
    }
  }
}
