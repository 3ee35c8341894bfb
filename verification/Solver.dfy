/** solve() of src/solver.cpp from the utilisation search to the final check. */
module Solver {
  import opened Numeric
  import opened Sums
  import opened Fabric
  import opened Relaxation
  import opened InfeasibilityCertificate
  import opened CeilingSearch
  import opened LedgerState
  import opened Ledger
  import opened Construction
  import opened Verifier

  datatype Status =
    | Feasible
    | FeasibleDegraded
    | InfeasibleCapacity
    | InfeasiblePolicy
    | InfeasiblePathSet
    | InfeasibleReservationConflict
    | ConflictingInput
    | SolverLimitReached

  datatype Options = Options(
    minimizeMaxUtilization: bool,
    fairness: bool,
    minimizePathCount: bool,
    allowDegraded: bool,
    requireMinimums: bool,
    policyCeiling: int64,
    tenants: nat,
    maxIterations: nat)

  datatype Outcome = Outcome(status: Status, allocation: Allocation, verified: bool, certified: bool)

  // ---- Processing order ------------------------------------------------------------

  /** Higher priority first, then the demand identity. */
  predicate ProcessedBefore(demands: seq<DemandDerivation>, a: DemandId, b: DemandId)
    requires a < |demands| && b < |demands|
  {
    if demands[a].priority != demands[b].priority then demands[a].priority > demands[b].priority else a < b
  }

  ghost predicate InProcessingOrder(demands: seq<DemandDerivation>, order: seq<DemandId>) {
    && (forall k :: 0 <= k < |order| ==> order[k] < |demands|)
    && forall i, j :: 0 <= i < j < |order| ==> ProcessedBefore(demands, order[i], order[j])
  }

  function InsertDemand(demands: seq<DemandDerivation>, d: DemandId, order: seq<DemandId>): (r: seq<DemandId>)
    requires d < |demands| && forall k :: 0 <= k < |order| ==> order[k] < |demands|
    ensures forall x :: x in r <==> x == d || x in order
  {
    if order == [] || ProcessedBefore(demands, d, order[0]) then [d] + order
    else
      assert order == [order[0]] + order[1..];
      [order[0]] + InsertDemand(demands, d, order[1..])
  }

  lemma {:induction false} InsertKeepsOrder(demands: seq<DemandDerivation>, d: DemandId, order: seq<DemandId>)
    requires d < |demands| && InProcessingOrder(demands, order) && d !in order
    ensures InProcessingOrder(demands, InsertDemand(demands, d, order))
  {
    if order == [] || ProcessedBefore(demands, d, order[0]) {
      assert order != [] ==> forall k :: 0 < k < |order| ==> ProcessedBefore(demands, order[0], order[k]);
    } else {
      InsertKeepsOrder(demands, d, order[1..]);
      var rest := InsertDemand(demands, d, order[1..]);
      forall k | 0 <= k < |rest| ensures rest[k] < |demands| && ProcessedBefore(demands, order[0], rest[k]) {
        assert rest[k] in rest;
        assert rest[k] == d || exists j :: 0 < j < |order| && order[j] == rest[k];
        assert order[0] in order;
      }
    }
  }

  /** canonical_processing_order: the active demands among the first n, sorted. */
  function ProcessingOrder(demands: seq<DemandDerivation>, n: nat): (order: seq<DemandId>)
    requires n <= |demands|
    ensures InProcessingOrder(demands, order)
    ensures forall d: DemandId :: d in order <==> d < n && d < |demands| && demands[d].active
  {
    if n == 0 then []
    else
      var rest := ProcessingOrder(demands, n - 1);
      if demands[n - 1].active then
        InsertKeepsOrder(demands, n - 1, rest);
        InsertDemand(demands, n - 1, rest)
      else rest
  }

  // ---- The final allocation -----------------------------------------------------------

  ghost predicate NamesPath(shares: seq<PathShare>, p: PathId) {
    exists j :: 0 <= j < |shares| && shares[j].path == p
  }

  /** The shares list exactly what the books of a demand say, path by path. */
  ghost predicate Lists(shares: seq<PathShare>, state: DemandState, paths: seq<CandidatePath>) {
    && (forall j :: 0 <= j < |shares| ==>
          && shares[j].path < |paths| && shares[j].path in state.shares
          && shares[j].granted == state.shares[shares[j].path] > 0
          && shares[j].generation == paths[shares[j].path].generation)
    && (forall i, j :: 0 <= i < j < |shares| ==> shares[i].path < shares[j].path)
    && (forall p: PathId :: p in state.shares && p < |paths| ==> NamesPath(shares, p))
    && GrantedSum(shares) == ShareSum(state.shares, |paths|)
    && (forall r: ResourceId :: SharesLoad(shares, paths, r) == Sum(CrossRow(state.shares, paths, r)))
  }

  ghost predicate SameButReserved(a: seq<PathShare>, b: seq<PathShare>) {
    |a| == |b| && forall j :: 0 <= j < |a| ==> a[j].(reserved := 0) == b[j].(reserved := 0)
  }

  lemma {:induction false} SameTotals(a: seq<PathShare>, b: seq<PathShare>, paths: seq<CandidatePath>, r: ResourceId)
    requires SameButReserved(a, b)
    ensures GrantedSum(a) == GrantedSum(b) && SharesLoad(a, paths, r) == SharesLoad(b, paths, r)
  {
    if a != [] {
      var m := |a| - 1;
      assert a[m].(reserved := 0) == b[m].(reserved := 0);
      SameTotals(a[..m], b[..m], paths, r);
    }
  }

  lemma ListsKeep(a: seq<PathShare>, b: seq<PathShare>, state: DemandState, paths: seq<CandidatePath>)
    requires SameButReserved(a, b) && Lists(a, state, paths)
    ensures Lists(b, state, paths)
  {
    forall j | 0 <= j < |a| ensures b[j].path == a[j].path && b[j].granted == a[j].granted
      && b[j].generation == a[j].generation {
      assert a[j].(reserved := 0) == b[j].(reserved := 0);
    }
    forall p: PathId | p in state.shares && p < |paths| ensures NamesPath(b, p) {
      assert NamesPath(a, p);
    }
    SameTotals(a, b, paths, 0);
    forall r: ResourceId ensures SharesLoad(b, paths, r) == Sum(CrossRow(state.shares, paths, r)) {
      SameTotals(a, b, paths, r);
    }
  }

  /** The shares on the first p paths have been listed. */
  ghost predicate ListedUpTo(shares: seq<PathShare>, state: DemandState, paths: seq<CandidatePath>, p: nat) {
    && p <= |paths|
    && (forall j :: 0 <= j < |shares| ==>
          && shares[j].path < p && shares[j].path in state.shares
          && shares[j].granted == state.shares[shares[j].path] > 0
          && shares[j].generation == paths[shares[j].path].generation)
    && (forall i, j :: 0 <= i < j < |shares| ==> shares[i].path < shares[j].path)
    && (forall q: PathId :: q in state.shares && q < p ==> NamesPath(shares, q))
    && GrantedSum(shares) == Sum(ShareRow(state.shares, |paths|)[..p])
    && (forall r: ResourceId :: SharesLoad(shares, paths, r) == Sum(CrossRow(state.shares, paths, r)[..p]))
  }

  lemma RowPrefix(row: seq<int>, p: nat)
    requires p < |row|
    ensures Sum(row[..p + 1]) == Sum(row[..p]) + row[p]
  {
    assert row[..p + 1] == row[..p] + [row[p]];
    SumAppend(row[..p], row[p]);
  }

  lemma NamesGrow(shares: seq<PathShare>, s: PathShare, q: PathId)
    requires NamesPath(shares, q) || s.path == q
    ensures NamesPath(shares + [s], q)
  {
    if NamesPath(shares, q) {
      var j :| 0 <= j < |shares| && shares[j].path == q;
      assert (shares + [s])[j].path == q;
    } else {
      assert (shares + [s])[|shares|].path == q;
    }
  }

  lemma ListNext(shares: seq<PathShare>, state: DemandState, paths: seq<CandidatePath>, p: nat)
    requires ListedUpTo(shares, state, paths, p) && p < |paths| && p in state.shares && state.shares[p] > 0
    ensures ListedUpTo(shares + [PathShare(p, paths[p].generation, state.shares[p], 0)], state, paths, p + 1)
  {
    var all := shares + [PathShare(p, paths[p].generation, state.shares[p], 0)];
    assert all[..|shares|] == shares;
    hide NamesPath;
    forall q: PathId | q in state.shares && q < p + 1 ensures NamesPath(all, q) {
      NamesGrow(shares, all[|shares|], q);
    }
    RowPrefix(ShareRow(state.shares, |paths|), p);
    forall r: ResourceId ensures SharesLoad(all, paths, r) == Sum(CrossRow(state.shares, paths, r)[..p + 1]) {
      RowPrefix(CrossRow(state.shares, paths, r), p);
    }
  }

  lemma ListSkip(shares: seq<PathShare>, state: DemandState, paths: seq<CandidatePath>, p: nat)
    requires ListedUpTo(shares, state, paths, p) && p < |paths| && p !in state.shares
    ensures ListedUpTo(shares, state, paths, p + 1)
  {
    RowPrefix(ShareRow(state.shares, |paths|), p);
    forall r: ResourceId ensures SharesLoad(shares, paths, r) == Sum(CrossRow(state.shares, paths, r)[..p + 1]) {
      RowPrefix(CrossRow(state.shares, paths, r), p);
    }
  }

  lemma ListDone(shares: seq<PathShare>, state: DemandState, paths: seq<CandidatePath>)
    requires ListedUpTo(shares, state, paths, |paths|)
    ensures Lists(shares, state, paths)
  {
    assert ShareRow(state.shares, |paths|)[..|paths|] == ShareRow(state.shares, |paths|);
    forall r: ResourceId ensures SharesLoad(shares, paths, r) == Sum(CrossRow(state.shares, paths, r)) {
      assert CrossRow(state.shares, paths, r)[..|paths|] == CrossRow(state.shares, paths, r);
    }
  }

  method ListShares(state: DemandState, paths: seq<CandidatePath>) returns (shares: seq<PathShare>)
    requires forall p :: p in state.shares ==> state.shares[p] > 0
    ensures Lists(shares, state, paths) && forall j :: 0 <= j < |shares| ==> shares[j].reserved == 0
  {
    shares := [];
    assert ListedUpTo([], state, paths, 0);
    hide ListedUpTo;
    for p := 0 to |paths|
      invariant ListedUpTo(shares, state, paths, p)
      invariant forall j :: 0 <= j < |shares| ==> shares[j].reserved == 0
    {
      if p in state.shares && state.shares[p] > 0 {
        ListNext(shares, state, paths, p);
        shares := shares + [PathShare(p, paths[p].generation, state.shares[p], 0)];
      } else {
        ListSkip(shares, state, paths, p);
      }
    }
    ListDone(shares, state, paths);
  }

  ghost function ReservedSum(shares: seq<PathShare>): int {
    if shares == [] then 0 else ReservedSum(shares[..|shares| - 1]) + shares[|shares| - 1].reserved
  }

  /** Reserved bandwidth is taken from the first shares first. */
  predicate FilledInOrder(shares: seq<PathShare>) {
    && (forall j :: 0 <= j < |shares| ==> 0 <= shares[j].reserved <= shares[j].granted)
    && (forall i, j :: 0 <= i < j < |shares| && shares[j].reserved > 0 ==> shares[i].reserved == shares[i].granted)
  }

  lemma {:induction false} ReservedSumBounds(shares: seq<PathShare>)
    requires FilledInOrder(shares)
    ensures 0 <= ReservedSum(shares) <= GrantedSum(shares)
    ensures ReservedSum(shares) <= MAX_INT64 ==> ReservedFold(shares) == ReservedSum(shares)
  {
    if shares != [] { ReservedSumBounds(shares[..|shares| - 1]); }
  }

  predicate AllFilled(shares: seq<PathShare>) {
    forall i :: 0 <= i < |shares| ==> shares[i].reserved == shares[i].granted
  }

  lemma MarkNext(before: seq<PathShare>, share: PathShare)
    requires FilledInOrder(before) && 0 <= share.reserved <= share.granted && (share.reserved > 0 ==> AllFilled(before))
    ensures FilledInOrder(before + [share]) && ReservedSum(before + [share]) == ReservedSum(before) + share.reserved
    ensures AllFilled(before) && share.reserved == share.granted ==> AllFilled(before + [share])
  {
    assert (before + [share])[..|before|] == before;
  }

  lemma GrantedNext(shares: seq<PathShare>, j: nat)
    requires j < |shares|
    ensures GrantedSum(shares[..j + 1]) == GrantedSum(shares[..j]) + shares[j].granted
  {
    assert shares[..j + 1][..j] == shares[..j];
  }

  /** mark_reserved_shares: attributes up to `floor` units to reservations, first shares first. */
  method MarkReserved(shares: seq<PathShare>, floor: int64, granted: int64) returns (marked: seq<PathShare>)
    requires granted >= 0 && GrantedSum(shares) == granted
    requires forall j :: 0 <= j < |shares| ==> shares[j].granted > 0 && shares[j].reserved == 0
    ensures SameButReserved(shares, marked) && ReservedFold(marked) <= granted
    ensures FilledInOrder(marked)
    ensures ReservedSum(marked) == if floor <= 0 then 0 else if floor < granted then floor else granted
  {
    var wanted := if floor < granted then floor else granted;
    var remaining := wanted;
    marked := [];
    ghost var target := if wanted < 0 then 0 else wanted;
    assert shares[..0] == [];
    for j := 0 to |shares|
      invariant |marked| == j && forall i :: 0 <= i < j ==> shares[i].(reserved := 0) == marked[i].(reserved := 0)
      invariant FilledInOrder(marked) && (remaining < 0 <==> wanted < 0)
      invariant ReservedSum(marked) == target - (if remaining < 0 then 0 else remaining)
      invariant remaining > 0 ==> ReservedSum(marked) == GrantedSum(shares[..j])
      invariant remaining > 0 ==> AllFilled(marked)
    {
      hide FilledInOrder, ReservedSum, AllFilled, GrantedSum;
      GrantedNext(shares, j);
      var share := shares[j];
      if remaining > 0 {
        var take := if remaining < share.granted then remaining else share.granted;
        share := share.(reserved := take);
        remaining := remaining - take;
      }
      MarkNext(marked, share);
      marked := marked + [share];
    }
    assert shares[..|shares|] == shares;
    ReservedSumBounds(marked);
  }

  /** The entry of demand d agrees with its books. */
  ghost predicate EntryMatches(demands: seq<DemandDerivation>, paths: seq<CandidatePath>, states: seq<DemandState>,
                               d: DemandId, entry: DemandAllocation)
    requires |states| == |demands|
  {
    && d < |demands| && entry.demand == d && entry.generation == demands[d].generation
    && entry.granted == states[d].granted && Lists(entry.shares, states[d], paths)
    && ReservedFold(entry.shares) <= entry.granted
  }

  /** The reserved part of an entry: its reservation floor, as far as it was granted, in the first shares. */
  ghost predicate MarkedUpTo(entry: DemandAllocation, floor: int64) {
    && FilledInOrder(entry.shares)
    && ReservedSum(entry.shares) == if floor <= 0 then 0 else if floor < entry.granted then floor else entry.granted
  }

  method BuildAllocation(problem: Problem, reservationFloors: seq<int64>) returns (entries: seq<DemandAllocation>)
    requires problem.Valid() && |reservationFloors| == |problem.demands|
    ensures |entries| == |problem.demands| == |problem.states|
    ensures forall d :: 0 <= d < |entries| ==>
      EntryMatches(problem.demands, problem.paths, problem.states, d, entries[d])
    ensures forall d :: 0 <= d < |entries| ==> MarkedUpTo(entries[d], reservationFloors[d])
  {
    hide WithinLimits, Lists, EntryOk, FilledInOrder, ReservedSum;
    entries := [];
    for d := 0 to |problem.demands|
      invariant |entries| == d && |problem.states| == |problem.demands|
      invariant forall e :: 0 <= e < d ==> EntryMatches(problem.demands, problem.paths, problem.states, e, entries[e])
      invariant forall e :: 0 <= e < d ==> MarkedUpTo(entries[e], reservationFloors[e])
    {
      assert StateOk(problem.demands[d], problem.states[d], |problem.paths|);
      var shares := ListShares(problem.states[d], problem.paths);
      ListedFacts(shares, problem.states[d], problem.paths);
      var granted := problem.states[d].granted;
      var floor := if reservationFloors[d] < granted then reservationFloors[d] else granted;
      var marked := MarkReserved(shares, floor, granted);
      ListsKeep(shares, marked, problem.states[d], problem.paths);
      entries := entries + [DemandAllocation(d, problem.demands[d].generation, granted, marked)];
    }
  }

  lemma ListedFacts(shares: seq<PathShare>, state: DemandState, paths: seq<CandidatePath>)
    requires Lists(shares, state, paths)
    ensures forall j :: 0 <= j < |shares| ==> shares[j].granted > 0
    ensures GrantedSum(shares) == ShareSum(state.shares, |paths|)
  {
  }

  // ---- Why the final verification succeeds ---------------------------------------------

  lemma {:induction false} EntriesLoadIsLoad(demands: seq<DemandDerivation>, paths: seq<CandidatePath>,
                                             states: seq<DemandState>,
                                             entries: seq<DemandAllocation>, r: ResourceId, n: nat)
    requires n <= |entries| == |states| == |demands|
    requires forall d :: 0 <= d < |entries| ==> EntryMatches(demands, paths, states, d, entries[d])
    ensures EntriesLoad(entries[..n], paths, r) == Sum(LoadRow(AllShares(states), paths, r)[..n])
  {
    if n > 0 {
      EntriesLoadIsLoad(demands, paths, states, entries, r, n - 1);
      assert entries[..n][..n - 1] == entries[..n - 1];
      assert EntryMatches(demands, paths, states, n - 1, entries[n - 1]);
      RowPrefix(LoadRow(AllShares(states), paths, r), n - 1);
    }
  }

  /** Every path that carries something was authorised under the current generation. */
  ghost predicate UsedPathsAuthorized(snapshot: Snapshot, states: seq<DemandState>) {
    forall d, p :: 0 <= d < |states| && p in states[d].shares ==>
      p < |snapshot.paths| && snapshot.paths[p].authorityGeneration == snapshot.pathAuthority
  }

  ghost predicate FloorsMet(demands: seq<DemandDerivation>, states: seq<DemandState>)
    requires |states| == |demands|
  {
    forall d :: 0 <= d < |demands| && demands[d].active ==> states[d].granted >= demands[d].floor
  }

  lemma EntryVerdict(snapshot: Snapshot, states: seq<DemandState>, entry: DemandAllocation, d: DemandId, degraded: bool)
    requires |states| == |snapshot.demands| && EntryMatches(snapshot.demands, snapshot.paths, states, d, entry)
    requires StateOk(snapshot.demands[d], states[d], |snapshot.paths|)
    requires states[d].granted <= snapshot.demands[d].maximum
    ensures EntryOk(snapshot, degraded, entry) <==>
      && (forall p :: p in states[d].shares ==> snapshot.paths[p].authorityGeneration == snapshot.pathAuthority)
      && (snapshot.demands[d].active && !degraded ==> states[d].granted >= snapshot.demands[d].floor)
  {
    if EntryOk(snapshot, degraded, entry) {
      forall p | p in states[d].shares ensures snapshot.paths[p].authorityGeneration == snapshot.pathAuthority {
        assert NamesPath(entry.shares, p);
        var j :| 0 <= j < |entry.shares| && entry.shares[j].path == p;
        assert ShareOk(snapshot, snapshot.demands[d], entry.shares[j]);
      }
    }
  }

  /**
   The constructed allocation passes the independent verifier exactly when every path it uses was
   authorised under the current generation and, unless it is marked degraded, every floor is met.
   */
  lemma ConstructionVerdict(snapshot: Snapshot, resources: seq<ResourceState>, states: seq<DemandState>,
                            entries: seq<DemandAllocation>, degraded: bool)
    requires Balanced(snapshot.demands, snapshot.paths, resources, states) && WithinMaxima(snapshot.demands, states)
    requires |resources| == |snapshot.resources|
    requires forall r :: 0 <= r < |resources| ==> resources[r].available == snapshot.resources[r].available
    requires |entries| == |states|
    requires forall d :: 0 <= d < |entries| ==> EntryMatches(snapshot.demands, snapshot.paths, states, d, entries[d])
    ensures Acceptable(snapshot, Allocation(entries, degraded)) <==>
      UsedPathsAuthorized(snapshot, states) && (degraded || FloorsMet(snapshot.demands, states))
  {
    hide EntryMatches, EntryOk, Load, ResourceOk;
    forall d | 0 <= d < |entries|
      ensures EntryOk(snapshot, degraded, entries[d]) <==>
        && (forall p :: p in states[d].shares ==>
              p < |snapshot.paths| && snapshot.paths[p].authorityGeneration == snapshot.pathAuthority)
        && (snapshot.demands[d].active && !degraded ==> states[d].granted >= snapshot.demands[d].floor)
    {
      EntryVerdict(snapshot, states, entries[d], d, degraded);
    }
    forall r | 0 <= r < |resources|
      ensures EntriesLoad(entries, snapshot.paths, r) <= snapshot.resources[r].available
    {
      LoadWithinAvailable(snapshot, resources, states, entries, r);
    }
  }

  lemma LoadWithinAvailable(snapshot: Snapshot, resources: seq<ResourceState>, states: seq<DemandState>,
                            entries: seq<DemandAllocation>, r: ResourceId)
    requires Balanced(snapshot.demands, snapshot.paths, resources, states) && r < |resources|
    requires |entries| == |states|
    requires forall d :: 0 <= d < |entries| ==> EntryMatches(snapshot.demands, snapshot.paths, states, d, entries[d])
    ensures EntriesLoad(entries, snapshot.paths, r) <= resources[r].available
  {
    EntriesLoadIsLoad(snapshot.demands, snapshot.paths, states, entries, r, |entries|);
    assert entries[..|entries|] == entries;
    var row := LoadRow(AllShares(states), snapshot.paths, r);
    assert row[..|entries|] == row;
    assert ResourceOk(resources[r], Load(AllShares(states), snapshot.paths, r));
  }

  // ---- The phases, in order -------------------------------------------------------------

  /** The problem plans the snapshot, and no resource may be loaded beyond the policy cap. */
  ghost predicate PlansUnderCap(problem: Problem, snapshot: Snapshot, cap: int64)
    reads problem
  {
    && problem.Valid() && WithinMaxima(problem.demands, problem.states) && Modest(problem.demands, problem.states)
    && problem.demands == snapshot.demands && problem.paths == snapshot.paths
    && |problem.resources| == |snapshot.resources|
    && forall r :: 0 <= r < |snapshot.resources| ==> CappedLike(problem.resources[r], snapshot.resources[r], cap)
  }

  ghost predicate CappedLike(planned: ResourceState, resource: ResourceState, cap: int64) {
    && planned.(ceiling := 0, used := 0) == resource.(ceiling := 0, used := 0)
    && planned.ceiling <= CeilingOf(resource, cap)
  }

  lemma CapKept(before: seq<ResourceState>, after: seq<ResourceState>, snapshot: Snapshot, cap: int64)
    requires SameCeilings(before, after) && |before| == |snapshot.resources|
    requires forall r :: 0 <= r < |before| ==> CappedLike(before[r], snapshot.resources[r], cap)
    ensures forall r :: 0 <= r < |after| ==> CappedLike(after[r], snapshot.resources[r], cap)
  {
    forall r | 0 <= r < |after| ensures CappedLike(after[r], snapshot.resources[r], cap) {
      assert after[r].(used := 0) == before[r].(used := 0);
      assert CappedLike(before[r], snapshot.resources[r], cap);
    }
  }

  /** Nothing granted, every resource limited by the ceiling. */
  ghost function FreshBooks(snapshot: Snapshot, ceiling: int64): Books {
    Books(seq(|snapshot.demands|, _ => NOTHING),
          seq(|snapshot.resources|, r requires 0 <= r < |snapshot.resources| =>
            snapshot.resources[r].(ceiling := CeilingOf(snapshot.resources[r], ceiling), used := 0)))
  }

  /** The minimums have been placed in processing order, on fresh books under this ceiling. */
  ghost predicate Constructed(snapshot: Snapshot, order: seq<DemandId>, ceiling: int64, books: Books) {
    MinimumsPlaced(snapshot.demands, snapshot.paths, order, FreshBooks(snapshot, ceiling), books)
  }

  /** make_problem followed by set_ceiling. */
  method NewProblem(snapshot: Snapshot, ceiling: int64, ghost cap: int64) returns (problem: Problem)
    requires snapshot.WithinLimits() && 0 <= ceiling <= cap <= 1000
    ensures fresh(problem) && PlansUnderCap(problem, snapshot, cap)
    ensures Books(problem.states, problem.resources) == FreshBooks(snapshot, ceiling)
  {
    problem := new Problem(snapshot.demands, snapshot.paths, snapshot.resources);
    problem.SetCeiling(ceiling);
    forall d | 0 <= d < |snapshot.demands| ensures snapshot.demands[d].maximum >= 0 {
      assert DemandWithinLimits(snapshot.demands[d], |snapshot.paths|);
    }
    forall r | 0 <= r < |snapshot.resources| ensures CappedLike(problem.resources[r], snapshot.resources[r], cap) {
      assert ResourceWithinLimits(snapshot.resources[r]);
      CeilingMonotone(snapshot.resources[r], ceiling, cap);
      CeilingIgnoresUse(snapshot.resources[r], ceiling);
    }
    assert problem.resources == FreshBooks(snapshot, ceiling).resources;
  }

  lemma CeilingIgnoresUse(r: ResourceState, permille: int64)
    ensures CeilingOf(r.(ceiling := r.available, used := 0), permille) == CeilingOf(r, permille)
  {
  }

  /** A fresh problem with the hard minimums placed under a ceiling. */
  method Construct(snapshot: Snapshot, order: seq<DemandId>, prefer: Preference, ceiling: int64, ghost cap: int64,
                   iterations: nat, maxIterations: nat)
    returns (problem: Problem, unmet: nat, spent: nat)
    requires snapshot.WithinLimits() && 0 <= ceiling <= cap <= 1000
    requires PermutesEligible(prefer, snapshot.demands)
    requires Participants(snapshot.demands, order)
    ensures fresh(problem) && PlansUnderCap(problem, snapshot, cap)
    ensures unmet == UnmetCount(problem.demands, problem.states)
    ensures Constructed(snapshot, order, ceiling, Books(problem.states, problem.resources))
  {
    problem := NewProblem(snapshot, ceiling, cap);
    hide Balanced, WithinLimits, Fabric.WithinLimits;
    ghost var before := problem.resources;
    unmet, spent := RunMinimums(problem, order, prefer, iterations, maxIterations);
    CapKept(before, problem.resources, snapshot, cap);
  }

  /** The bounded widening of a utilisation ceiling that defeated the construction; never past the cap. */
  method Widen(snapshot: Snapshot, order: seq<DemandId>, prefer: Preference, ceiling: int64, cap: int64,
               iterations: nat, maxIterations: nat)
    returns (problem: Problem, chosen: int64, spent: nat)
    requires snapshot.WithinLimits() && 0 <= ceiling < cap <= 1000
    requires PermutesEligible(prefer, snapshot.demands)
    requires Participants(snapshot.demands, order)
    ensures fresh(problem) && PlansUnderCap(problem, snapshot, cap) && ceiling < chosen <= cap
    ensures Constructed(snapshot, order, chosen, Books(problem.states, problem.resources))
  {
    var low: int64, high: int64 := ceiling + 1, cap;
    var probes := 0;
    spent, chosen := iterations, 0;
    while low <= high && probes < MAX_UTILIZATION_PROBES
      invariant ceiling < low <= cap + 1 && ceiling <= high <= cap && (chosen == 0 || ceiling < chosen <= cap)
      decreases MAX_UTILIZATION_PROBES - probes
    {
      probes := probes + 1;
      var mid: int64 := low + (high - low) / 2;
      var trial, unmet;
      trial, unmet, spent := Construct(snapshot, order, prefer, mid, cap, spent, maxIterations);
      if unmet == 0 {
        chosen := mid;
        if mid == low {
          break;
        }
        high := mid - 1;
      } else {
        low := mid + 1;
      }
    }
    if chosen == 0 {
      chosen := cap;
    }
    var unmet;
    problem, unmet, spent := Construct(snapshot, order, prefer, chosen, cap, spent, maxIterations);
  }

  /** Phases 2 and 3: soft targets, then path-count consolidation when the profile asks for it. */
  method SoftPhases(problem: Problem, snapshot: Snapshot, order: seq<DemandId>, prefer: Preference, options: Options)
    requires PlansUnderCap(problem, snapshot, options.policyCeiling)
    requires PermutesEligible(prefer, snapshot.demands)
    requires Participants(snapshot.demands, order)
    requires forall d :: 0 <= d < |snapshot.demands| ==> snapshot.demands[d].tenant < options.tenants
    modifies problem
    ensures PlansUnderCap(problem, snapshot, options.policyCeiling)
    ensures NoneLoses(old(problem.states), problem.states)
    ensures !options.minimizePathCount ==> WorkConserving(problem, multiset(order))
  {
    hide Balanced, WithinLimits, Fabric.WithinLimits, WorkConserving;
    ghost var before := problem.resources;
    if options.fairness {
      FillByTenant(problem, order, options.tenants, prefer);
    } else {
      FillInOrder(problem, order, prefer);
    }
    CapKept(before, problem.resources, snapshot, options.policyCeiling);
    if options.minimizePathCount {
      for k := 0 to |order|
        invariant PlansUnderCap(problem, snapshot, options.policyCeiling)
        invariant NoneLoses(old(problem.states), problem.states)
      {
        if !snapshot.demands[order[k]].excluded {
          before := problem.resources;
          problem.ConsolidatePaths(order[k], prefer(order[k], problem.states));
          CapKept(before, problem.resources, snapshot, options.policyCeiling);
        }
      }
    }
  }

  // ---- Status and final check ----------------------------------------------------------

  /** What the reported status means. */
  ghost predicate StatusMeaning(snapshot: Snapshot, cap: int64, status: Status, certified: bool) {
    // An infeasible certificate rules out every legal allocation under the policy cap ...
    && (certified ==> forall all :: !Legal(snapshot.demands, snapshot.paths, Ceilings(snapshot.resources, cap), all))
    // ... and blames the policy only when the relaxation is feasible without the cap.
    && (certified && status == InfeasiblePolicy && TotalFloor(snapshot.demands) <= MAX_INT64 ==>
          cap < 1000 && RelaxedFeasible(snapshot.demands, snapshot.paths, snapshot.resources, 1000))
    && (status == InfeasibleCapacity || status == InfeasiblePathSet ==> certified)
  }

  lemma CertifiedRulesOut(snapshot: Snapshot, cap: int64)
    requires snapshot.WithinLimits() && !RelaxedFeasible(snapshot.demands, snapshot.paths, snapshot.resources, cap)
    ensures forall all :: !Legal(snapshot.demands, snapshot.paths, Ceilings(snapshot.resources, cap), all)
  {
    forall all | Legal(snapshot.demands, snapshot.paths, Ceilings(snapshot.resources, cap), all) ensures false {
      LegalImpliesRelaxed(snapshot.demands, snapshot.paths, snapshot.resources, cap, all);
    }
  }

  predicate Blocked(d: DemandDerivation) {
    d.active && d.excluded && d.floor > 0
  }

  /** The policy excludes a demand that declares a hard floor. */
  predicate PolicyBlocks(demands: seq<DemandDerivation>) {
    exists d :: 0 <= d < |demands| && Blocked(demands[d])
  }

  /** Whether the floors are met, and whether policy exclusion alone prevents it. */
  method FloorStatus(demands: seq<DemandDerivation>, states: seq<DemandState>) returns (met: bool, blocked: bool)
    requires |states| == |demands| && forall d :: 0 <= d < |states| ==> states[d].granted >= 0
    ensures met <==> FloorsMet(demands, states) && !PolicyBlocks(demands)
    ensures blocked <==> PolicyBlocks(demands)
  {
    met, blocked := true, false;
    for d := 0 to |demands|
      invariant met
        <==> (!blocked && forall e :: 0 <= e < d && demands[e].active ==> states[e].granted >= demands[e].floor)
      invariant blocked <==> exists e :: 0 <= e < d && Blocked(demands[e])
    {
      assert Blocked(demands[d]) <==> demands[d].active && demands[d].excluded && demands[d].floor > 0;
      if demands[d].active {
        if demands[d].excluded {
          if demands[d].floor > 0 {
            met, blocked := false, true;
          }
        } else if states[d].granted < demands[d].floor {
          met := false;
        }
      }
    }
  }

  method Classify(snapshot: Snapshot, options: Options, reservationConflict: bool, states: seq<DemandState>)
    returns (status: Status, degraded: bool, certified: bool)
    requires snapshot.WithinLimits() && 1 <= options.policyCeiling <= 1000
    requires |states| == |snapshot.demands| && forall d :: 0 <= d < |states| ==> states[d].granted >= 0
    ensures status != ConflictingInput
    ensures reservationConflict <==> status == InfeasibleReservationConflict
    ensures degraded <==> !reservationConflict && status != Feasible
    ensures !reservationConflict ==>
      (status == Feasible <==> FloorsMet(snapshot.demands, states) && !PolicyBlocks(snapshot.demands))
    ensures !reservationConflict && PolicyBlocks(snapshot.demands) ==> status == InfeasiblePolicy && !certified
    ensures degraded && !certified && !PolicyBlocks(snapshot.demands) ==>
      status == if options.allowDegraded && !options.requireMinimums then FeasibleDegraded else SolverLimitReached
    ensures certified ==>
      degraded && (status == InfeasiblePathSet || status == InfeasiblePolicy || status == InfeasibleCapacity)
    ensures certified ==> (status == InfeasiblePathSet <==> Starved(snapshot.demands))
    ensures StatusMeaning(snapshot, options.policyCeiling, status, certified)
  {
    var met, blocked := FloorStatus(snapshot.demands, states);
    certified := false;
    if reservationConflict {
      return InfeasibleReservationConflict, false, false;
    }
    if met {
      return Feasible, false, false;
    }
    degraded := true;
    if blocked {
      return InfeasiblePolicy, true, false;
    }
    var certificate, _ := Certify(snapshot.demands, snapshot.paths, snapshot.resources, options.policyCeiling);
    if certificate.built && !certificate.feasible {
      var uncapped, _ := Certify(snapshot.demands, snapshot.paths, snapshot.resources, 1000);
      CertifiedRulesOut(snapshot, options.policyCeiling);
      certified := true;
      if certificate.onlyPathStarved {
        status := InfeasiblePathSet;
      } else if options.policyCeiling < 1000 && uncapped.built && uncapped.feasible {
        status := InfeasiblePolicy;
      } else {
        status := InfeasibleCapacity;
      }
    } else if options.allowDegraded && !options.requireMinimums {
      status := FeasibleDegraded;
    } else {
      status := SolverLimitReached;
    }
  }

  ghost predicate FeasibleUnder(snapshot: Snapshot, cap: int64) {
    RelaxedFeasible(snapshot.demands, snapshot.paths, snapshot.resources, cap)
  }

  /** The certificate's network would pass a bound. */
  predicate TooLarge(snapshot: Snapshot) {
    Oversized(snapshot.demands, snapshot.paths, snapshot.resources)
  }

  /** The certificate decides the relaxation, unless a flow computation spends its budget. */
  ghost predicate Decidable(snapshot: Snapshot) {
    !TooLarge(snapshot) && TotalFloor(snapshot.demands) <= MAX_INT64
  }

  /** The floors do not fit under the cap, and would without it. */
  ghost predicate BlamesPolicy(snapshot: Snapshot, cap: int64) {
    cap < 1000 && !FeasibleUnder(snapshot, cap) && FeasibleUnder(snapshot, 1000)
  }

  /** The answer given when even the bisection found no feasible ceiling; nothing is constructed. */
  method RejectedBySearch(snapshot: Snapshot, options: Options) returns (outcome: Outcome, ghost exhausted: bool)
    requires snapshot.WithinLimits() && 1 <= options.policyCeiling <= 1000
    ensures outcome.status == InfeasiblePolicy || outcome.status == InfeasibleCapacity
    ensures outcome.allocation.demands == [] && !outcome.verified && !outcome.certified
    ensures TooLarge(snapshot) ==> outcome.status == InfeasibleCapacity
    ensures outcome.status == InfeasiblePolicy ==>
      options.policyCeiling < 1000 && !FeasibleUnder(snapshot, options.policyCeiling)
    ensures outcome.status == InfeasiblePolicy && TotalFloor(snapshot.demands) <= MAX_INT64 ==>
      FeasibleUnder(snapshot, 1000)
    ensures Decidable(snapshot) && !exhausted ==>
      (outcome.status == InfeasiblePolicy <==> BlamesPolicy(snapshot, options.policyCeiling))
  {
    hide Oversized, RelaxedFeasible, Fabric.WithinLimits;
    var atCap, withoutCap;
    ghost var spent, more;
    atCap, spent := Certify(snapshot.demands, snapshot.paths, snapshot.resources, options.policyCeiling);
    withoutCap, more := Certify(snapshot.demands, snapshot.paths, snapshot.resources, 1000);
    exhausted := spent > MAX_SOLVER_ITERATIONS || more > MAX_SOLVER_ITERATIONS;
    var policyIsTheCause :=
      options.policyCeiling < 1000 && withoutCap.built && withoutCap.feasible && atCap.built && !atCap.feasible;
    outcome := Outcome(if policyIsTheCause then InfeasiblePolicy else InfeasibleCapacity, Allocation([], false), false,
      false);
  }

  /** Placement of the hard minimums under a ceiling, widened within the cap if construction fails. */
  method PlaceMinimums(snapshot: Snapshot, options: Options, ceiling: int64, order: seq<DemandId>, prefer: Preference)
    returns (problem: Problem, chosen: int64)
    requires snapshot.WithinLimits() && 1 <= ceiling <= options.policyCeiling <= 1000
    requires PermutesEligible(prefer, snapshot.demands)
    requires Participants(snapshot.demands, order)
    ensures fresh(problem) && PlansUnderCap(problem, snapshot, options.policyCeiling)
    ensures ceiling <= chosen <= options.policyCeiling
    ensures Constructed(snapshot, order, chosen, Books(problem.states, problem.resources))
    ensures chosen == ceiling && (options.minimizeMaxUtilization && ceiling < options.policyCeiling) ==>
      UnmetCount(problem.demands, problem.states) == 0
  {
    var unmet, spent;
    chosen := ceiling;
    problem, unmet, spent := Construct(snapshot, order, prefer, ceiling, options.policyCeiling, 0,
      options.maxIterations);
    if unmet > 0 && options.minimizeMaxUtilization && ceiling < options.policyCeiling {
      problem, chosen, spent := Widen(snapshot, order, prefer, ceiling, options.policyCeiling, spent,
        options.maxIterations);
    }
  }

  /** The books that the returned allocation lists, and how far they may go. */
  ghost predicate Booked(snapshot: Snapshot, cap: int64, states: seq<DemandState>, entries: seq<DemandAllocation>) {
    && |entries| == |states| == |snapshot.demands| && WithinMaxima(snapshot.demands, states)
    && Modest(snapshot.demands, states)
    && (forall d :: 0 <= d < |states| ==> StateOk(snapshot.demands[d], states[d], |snapshot.paths|))
    && (forall d :: 0 <= d < |entries| ==> EntryMatches(snapshot.demands, snapshot.paths, states, d, entries[d]))
    && (forall r :: 0 <= r < |snapshot.resources| ==>
          Load(AllShares(states), snapshot.paths, r) <= CeilingOf(snapshot.resources[r], cap))
  }

  lemma PlannedIsBooked(problem: Problem, snapshot: Snapshot, cap: int64, entries: seq<DemandAllocation>)
    requires PlansUnderCap(problem, snapshot, cap) && |entries| == |problem.demands| == |problem.states|
    requires forall d :: 0 <= d < |entries| ==>
      EntryMatches(problem.demands, problem.paths, problem.states, d, entries[d])
    ensures Booked(snapshot, cap, problem.states, entries)
    ensures forall d :: 0 <= d < |problem.states| ==> problem.states[d].granted >= 0
    ensures forall r :: 0 <= r < |problem.resources| ==>
      problem.resources[r].available == snapshot.resources[r].available
  {
    forall r | 0 <= r < |snapshot.resources|
      ensures Load(AllShares(problem.states), snapshot.paths, r) <= CeilingOf(snapshot.resources[r], cap)
      ensures problem.resources[r].available == snapshot.resources[r].available
    {
      assert ResourceOk(problem.resources[r], Load(AllShares(problem.states), snapshot.paths, r));
      assert CappedLike(problem.resources[r], snapshot.resources[r], cap);
    }
    forall d | 0 <= d < |problem.states| ensures problem.states[d].granted >= 0 {
      assert StateOk(problem.demands[d], problem.states[d], |problem.paths|);
    }
  }

  /** The final books grant every demand at least what the placement of minimums under some ceiling gave it. */
  ghost predicate BuiltUp(snapshot: Snapshot, cap: int64, final: seq<DemandState>) {
    exists ceiling: int64, minimums: Books ::
      1 <= ceiling <= cap && Constructed(snapshot, ProcessingOrder(snapshot.demands, |snapshot.demands|), ceiling,
        minimums)
      && NoneLoses(minimums.states, final)
  }

  /** Where anything is planned, claimed and planned load together stay under `cap` thousandths of the capacity. */
  ghost predicate WithinCap(snapshot: Snapshot, cap: int64, entries: seq<DemandAllocation>) {
    forall r :: 0 <= r < |snapshot.resources| ==>
      UnderCap(snapshot.resources[r], cap, EntriesLoad(entries, snapshot.paths, r))
  }

  predicate UnderCap(r: ResourceState, cap: int64, load: int) {
    load > 0 && r.committed + r.reserved <= MAX_INT64 ==> 1000 * (r.committed + r.reserved + load) <= cap * r.usable
  }

  lemma BookedLoad(snapshot: Snapshot, cap: int64, states: seq<DemandState>, entries: seq<DemandAllocation>,
                   r: ResourceId)
    requires Booked(snapshot, cap, states, entries) && r < |snapshot.resources|
    ensures EntriesLoad(entries, snapshot.paths, r) == Load(AllShares(states), snapshot.paths, r)
    ensures EntriesLoad(entries, snapshot.paths, r) <= CeilingOf(snapshot.resources[r], cap)
  {
    hide EntryMatches, StateOk;
    EntriesLoadIsLoad(snapshot.demands, snapshot.paths, states, entries, r, |entries|);
    assert entries[..|entries|] == entries;
    var row := LoadRow(AllShares(states), snapshot.paths, r);
    assert row[..|entries|] == row;
  }

  lemma BookedIsWithinCap(snapshot: Snapshot, cap: int64, states: seq<DemandState>, entries: seq<DemandAllocation>)
    requires snapshot.WithinLimits() && 0 <= cap <= 1000 && Booked(snapshot, cap, states, entries)
    ensures WithinCap(snapshot, cap, entries)
  {
    hide EntryMatches, StateOk;
    forall r | 0 <= r < |snapshot.resources|
      ensures UnderCap(snapshot.resources[r], cap, EntriesLoad(entries, snapshot.paths, r))
    {
      BookedLoad(snapshot, cap, states, entries, r);
      var load := EntriesLoad(entries, snapshot.paths, r);
      assert ResourceWithinLimits(snapshot.resources[r]);
      if load > 0 { CeilingIsTheCap(snapshot.resources[r], cap, load); }
    }
  }

  lemma NothingIsWithinCap(snapshot: Snapshot, cap: int64)
    ensures WithinCap(snapshot, cap, [])
  {
    forall r | 0 <= r < |snapshot.resources| ensures EntriesLoad([], snapshot.paths, r) == 0 {
    }
  }

  /** Books that meet every floor under the cap are a legal allocation. */
  lemma MetFloorsAreLegal(snapshot: Snapshot, cap: int64, states: seq<DemandState>, entries: seq<DemandAllocation>)
    requires snapshot.WithinLimits() && Booked(snapshot, cap, states, entries) && FloorsMet(snapshot.demands, states)
    ensures Legal(snapshot.demands, snapshot.paths, Ceilings(snapshot.resources, cap), AllShares(states))
    ensures RelaxedFeasible(snapshot.demands, snapshot.paths, snapshot.resources, cap)
  {
    hide EntryMatches, Load, RelaxedFeasible;
    var all := AllShares(states);
    forall d | 0 <= d < |all|
      ensures NonNegative(all[d]) && (forall p :: p in all[d] && all[d][p] > 0 ==> p in snapshot.demands[d].eligible)
      ensures snapshot.demands[d].active ==> ShareSum(all[d], |snapshot.paths|) >= snapshot.demands[d].floor
    {
      assert StateOk(snapshot.demands[d], states[d], |snapshot.paths|);
    }
    LegalImpliesRelaxed(snapshot.demands, snapshot.paths, snapshot.resources, cap, all);
  }

  /** No demand is given more shares than it has eligible paths. */
  lemma SharesWithinEligible(snapshot: Snapshot, cap: int64, states: seq<DemandState>, entries: seq<DemandAllocation>,
                             d: DemandId)
    requires snapshot.WithinLimits() && Booked(snapshot, cap, states, entries) && d < |entries|
    ensures |entries[d].shares| <= |snapshot.demands[d].eligible|
  {
    var shares, eligible := entries[d].shares, snapshot.demands[d].eligible;
    assert EntryMatches(snapshot.demands, snapshot.paths, states, d, entries[d]);
    assert StateOk(snapshot.demands[d], states[d], |snapshot.paths|);
    var used := seq(|shares|, j requires 0 <= j < |shares| => shares[j].path);
    DistinctWithin(used, eligible);
  }

  lemma {:induction false} DistinctWithin(part: seq<PathId>, whole: seq<PathId>)
    requires Distinct(part) && forall k :: 0 <= k < |part| ==> part[k] in whole
    ensures |part| <= |whole|
  {
    if part != [] {
      var m := |part| - 1;
      var i :| 0 <= i < |whole| && whole[i] == part[m];
      var rest := whole[..i] + whole[i + 1..];
      forall k | 0 <= k < m ensures part[..m][k] in rest {
        var j :| 0 <= j < |whole| && whole[j] == part[k];
        assert whole[j] == if j < i then rest[j] else rest[j - 1];
      }
      DistinctWithin(part[..m], rest);
    }
  }

  /**
   The whole solver behind the derivation.

   The constructed allocation respects every maximum and the policy cap on every resource. It is checked
   by the independent verifier, and that check fails exactly when a used path was not authorised under
   the current generation or a reservation conflict left a floor unmet. So without a conflict, and with
   all paths authorised, the fallback to ConflictingInput is dead; and with a conflict it is taken whenever
   the relaxation is infeasible under the cap.

   The search for a ceiling rejects the request when its network is oversized, and otherwise, unless a flow
   computation spent its budget (`exhausted`), exactly when no ceiling up to the cap is feasible.
   */
  method Solve(snapshot: Snapshot, options: Options, reservationConflict: bool, reservationFloors: seq<int64>,
               prefer: Preference)
    returns (outcome: Outcome, rejected: bool, ghost final: seq<DemandState>, ghost exhausted: bool)
    requires snapshot.WithinLimits() && 1 <= options.policyCeiling <= 1000
    requires PermutesEligible(prefer, snapshot.demands) && |reservationFloors| == |snapshot.demands|
    requires forall d :: 0 <= d < |snapshot.demands| ==> snapshot.demands[d].tenant < options.tenants
    ensures !rejected ==> Booked(snapshot, options.policyCeiling, final, outcome.allocation.demands)
    ensures !rejected ==> (outcome.verified <==>
      UsedPathsAuthorized(snapshot, final) && (!reservationConflict || FloorsMet(snapshot.demands, final)))
    ensures !rejected ==> (outcome.status == ConflictingInput <==> !outcome.verified)
    ensures WithinCap(snapshot, options.policyCeiling, outcome.allocation.demands)
    ensures !rejected ==> forall d :: 0 <= d < |snapshot.demands| ==>
      MarkedUpTo(outcome.allocation.demands[d], reservationFloors[d])
    ensures outcome.verified ==> Acceptable(snapshot, outcome.allocation)
    ensures !rejected ==> BuiltUp(snapshot, options.policyCeiling, final)
    ensures outcome.status == Feasible ==> !rejected && outcome.verified && FloorsMet(snapshot.demands, final)
    ensures outcome.certified && outcome.verified ==>
      StatusMeaning(snapshot, options.policyCeiling, outcome.status, true)
    ensures rejected ==> outcome.status == InfeasiblePolicy || outcome.status == InfeasibleCapacity
    ensures rejected ==> !reservationConflict && options.minimizeMaxUtilization && outcome.allocation.demands == []
    ensures !reservationConflict && options.minimizeMaxUtilization && TooLarge(snapshot) ==>
      rejected && outcome.status == InfeasibleCapacity
    ensures rejected && !TooLarge(snapshot) && !exhausted ==>
      forall all :: !Legal(snapshot.demands, snapshot.paths, Ceilings(snapshot.resources, options.policyCeiling), all)
    ensures !reservationConflict && options.minimizeMaxUtilization && Decidable(snapshot) && !exhausted ==>
      (rejected <==> !FeasibleUnder(snapshot, options.policyCeiling))
    ensures rejected && Decidable(snapshot) && !exhausted ==>
      (outcome.status == InfeasiblePolicy <==> BlamesPolicy(snapshot, options.policyCeiling))
    ensures reservationConflict && !FeasibleUnder(snapshot, options.policyCeiling) ==>
      outcome.status == ConflictingInput
  {
    hide WithinLimits, Fabric.WithinLimits, Balanced, RelaxedFeasible, Legal, Acceptable, Booked, Oversized, FloorsMet,
      WithinCap, MarkedUpTo;
    rejected, exhausted, final := false, false, [];
    var ceiling := options.policyCeiling;
    if !reservationConflict && options.minimizeMaxUtilization {
      var probes, allBuilt;
      ceiling, probes, allBuilt, exhausted := SearchCeiling(snapshot.demands, snapshot.paths, snapshot.resources,
        options.policyCeiling);
      if ceiling == 0 {
        rejected := true;
        if allBuilt {
          CertifiedRulesOut(snapshot, options.policyCeiling);
        }
        ghost var more;
        outcome, more := RejectedBySearch(snapshot, options);
        NothingIsWithinCap(snapshot, options.policyCeiling);
        exhausted := exhausted || more;
        return;
      }
    }
    var order := ProcessingOrder(snapshot.demands, |snapshot.demands|);
    var problem, chosen := PlaceMinimums(snapshot, options, ceiling, order, prefer);
    ghost var minimums := Books(problem.states, problem.resources);
    SoftPhases(problem, snapshot, order, prefer, options);
    var entries := BuildAllocation(problem, reservationFloors);
    PlannedIsBooked(problem, snapshot, options.policyCeiling, entries);
    final := problem.states;
    BookedIsWithinCap(snapshot, options.policyCeiling, final, entries);
    assert BuiltUp(snapshot, options.policyCeiling, final) by {
      assert Constructed(snapshot, order, chosen, minimums);
    }
    var status, degraded, certified := Classify(snapshot, options, reservationConflict, problem.states);
    var allocation := Allocation(entries, degraded);
    var violations := VerifyAllocation(snapshot, allocation);
    ConstructionVerdict(snapshot, problem.resources, problem.states, entries, degraded);
    if FloorsMet(snapshot.demands, final) {
      MetFloorsAreLegal(snapshot, options.policyCeiling, final, entries);
    }
    outcome := Outcome(if violations == {} then status else ConflictingInput, allocation, violations == {}, certified);
  }

  // ---- Where the code falls short ----------------------------------------------------------

  /** One small demand, and n paths that each cross the same m resources. */
  function UniformFabric(n: nat, m: nat): Snapshot {
    Snapshot(
      [DemandDerivation(1, 1, 1, 1, 0, 0, true, false, seq(n, i requires 0 <= i < n => i))],
      seq(n, _ => CandidatePath(1, 1, seq(m, j requires 0 <= j < m => j))),
      seq(m, _ => ResourceState(1000, 0, 0, 1000, 1000, 0)),
      1)
  }

  lemma {:induction false} AllUsed(needy: seq<DemandDerivation>, n: nat)
    requires forall p :: 0 <= p < n ==> IsUsed(needy, p)
    ensures |UsedBelow(needy, n)| == n
  {
    if n > 0 { AllUsed(needy, n - 1); }
  }

  lemma {:induction false} EqualPaths(used: seq<PathId>, paths: seq<CandidatePath>, length: nat)
    requires forall k :: 0 <= k < |used| ==> used[k] < |paths| && |paths[used[k]].resources| == length
    ensures PathEdges(used, paths) == |used| * length
  {
    if used != [] { EqualPaths(used[..|used| - 1], paths, length); }
  }

  lemma UniformWithinLimits(n: nat, m: nat)
    requires 1 <= m <= MAX_RESOURCES_PER_PATH
    ensures UniformFabric(n, m).WithinLimits()
  {
    var snapshot := UniformFabric(n, m);
    forall p | 0 <= p < n ensures PathWithinLimits(snapshot.paths[p], m) {
      assert snapshot.paths[p].resources == seq(m, j requires 0 <= j < m => j);
    }
    assert DemandWithinLimits(snapshot.demands[0], n);
  }

  lemma UniformEdges(n: nat, m: nat)
    requires n > 0
    ensures var s := UniformFabric(n, m);
      Oversized(s.demands, s.paths, s.resources)
      <==> 3 + n + m > MAX_CERTIFICATE_NODES || 1 + n + n * m > MAX_CERTIFICATE_EDGES
  {
    var snapshot := UniformFabric(n, m);
    var demand := snapshot.demands[0];
    assert snapshot.demands[..0] == [];
    OnlyDemandIsNeedy(snapshot.demands);
    assert snapshot.demands == [demand];
    assert [demand][..0] == [] && DemandEdges([]) == 0;
    assert DemandEdges([demand]) == 1 + n;
    forall p | 0 <= p < n ensures IsUsed([demand], p) {
      assert [demand][0].eligible[p] == p;
    }
    AllUsed([demand], n);
    EqualPaths(UsedBelow([demand], n), snapshot.paths, m);
    SizeOf(snapshot.demands, snapshot.paths, snapshot.resources);
  }

  /** A row whose entries are 0, except perhaps the first. */
  lemma FirstOnly(row: seq<int>)
    requires row != [] && forall k :: 0 < k < |row| ==> row[k] == 0
    ensures Sum(row) == row[0]
  {
    var zeros := seq(|row|, _ => 0);
    SumZero(zeros);
    SumUpdate(zeros, 0, row[0]);
    assert row == zeros[0 := row[0]];
  }

  /** One unit on path 0 is all that one demand needs. */
  lemma UnitIsLegal(demands: seq<DemandDerivation>, paths: seq<CandidatePath>, ceilings: seq<int>)
    requires |demands| == 1 && |paths| > 0 && 0 in demands[0].eligible && demands[0].floor <= 1
    requires forall r :: 0 <= r < |ceilings| ==> ceilings[r] >= 1
    ensures Legal(demands, paths, ceilings, [map[0 := 1]])
  {
    var shares: ShareMap := map[0 := 1];
    FirstOnly(ShareRow(shares, |paths|));
    forall r | 0 <= r < |ceilings| ensures Load([shares], paths, r) <= ceilings[r] {
      FirstOnly(CrossRow(shares, paths, r));
      FirstOnly(LoadRow([shares], paths, r));
    }
  }

  /** One unit fits on every path of a uniform fabric. */
  lemma UniformIsLegal(n: nat, m: nat, cap: int64)
    requires n > 0 && 1 <= cap <= 1000
    ensures var s := UniformFabric(n, m); Legal(s.demands, s.paths, Ceilings(s.resources, cap), [map[0 := 1]])
  {
    var snapshot := UniformFabric(n, m);
    var ceilings := Ceilings(snapshot.resources, cap);
    forall r | 0 <= r < |ceilings| ensures ceilings[r] >= 1 {
      assert snapshot.resources[r] == ResourceState(1000, 0, 0, 1000, 1000, 0);
      UnitCeiling(cap);
    }
    assert snapshot.demands[0].eligible[0] == 0;
    UnitIsLegal(snapshot.demands, snapshot.paths, ceilings);
  }

  /**
   A request that could be met is rejected for lack of capacity, because its certificate has too many edges to be
   built: one small demand over 7900 paths of 256 resources each, for instance.
   */
  method LegalRequestIsRejected(n: nat, m: nat, options: Options, prefer: Preference) returns (outcome: Outcome)
    requires 1 <= m <= MAX_RESOURCES_PER_PATH && n > 0 && n * m > MAX_CERTIFICATE_EDGES
    requires 1 <= options.policyCeiling <= 1000 && options.minimizeMaxUtilization && options.tenants > 0
    requires PermutesEligible(prefer, UniformFabric(n, m).demands)
    ensures outcome.status == InfeasibleCapacity
    ensures var s := UniformFabric(n, m);
      exists all :: Legal(s.demands, s.paths, Ceilings(s.resources, options.policyCeiling), all)
  {
    hide Snapshot.WithinLimits, Oversized, Legal, RelaxedFeasible, UniformFabric;
    var snapshot := UniformFabric(n, m);
    UniformWithinLimits(n, m);
    UniformEdges(n, m);
    UniformIsLegal(n, m, options.policyCeiling);
    UniformTenant(n, m);
    var rejected;
    ghost var final, exhausted;
    outcome, rejected, final, exhausted := Solve(snapshot, options, false, [0], prefer);
  }

  lemma UniformTenant(n: nat, m: nat)
    ensures |UniformFabric(n, m).demands| == 1 && UniformFabric(n, m).demands[0].tenant == 0
  {
  }

  lemma UnitCeiling(permille: int64)
    requires 1 <= permille <= 1000
    ensures CeilingOf(ResourceState(1000, 0, 0, 1000, 1000, 0), permille) == permille
  {
  }

  /** A resource of which more is reserved than there is, and a demand that has no other path. */
  const OVERCLAIMED := Snapshot(
    [DemandDerivation(1, 1, 1, 1, 0, 0, true, false, [0])],
    [CandidatePath(1, 1, [0])],
    [ResourceState(10, 0, 20, 0, 0, 0)],
    1)

  lemma OverclaimedIsInfeasible(cap: int64)
    requires 1 <= cap <= 1000
    ensures OVERCLAIMED.WithinLimits()
    ensures !RelaxedFeasible(OVERCLAIMED.demands, OVERCLAIMED.paths, OVERCLAIMED.resources, cap)
  {
    var demands, paths, ceilings := OVERCLAIMED.demands, OVERCLAIMED.paths, Ceilings(OVERCLAIMED.resources, cap);
    assert ceilings == [0];
    OnlyDemandIsNeedy(demands);
    NothingFits(demands, paths, ceilings);
  }

  lemma OnlyDemandIsNeedy(demands: seq<DemandDerivation>)
    requires |demands| == 1 && NeedsFloor(demands[0]) && demands[0].eligible != []
    ensures Needy(demands) == demands
  {
    assert demands[..0] == [] && NeedyIds([]) == [] && NeedyIds(demands) == [0];
  }

  lemma NothingFits(demands: seq<DemandDerivation>, paths: seq<CandidatePath>, ceilings: seq<int>)
    requires |demands| == 1 && demands[0].floor == 1 && ceilings == [0]
    ensures !Fits(demands, paths, ceilings, {0})
  {
    SumZero(Mask(ceilings, Reach(demands, paths, {0}, 1)));
    assert Mask(Floors(demands), {0}) == [1];
    FirstOnly(Mask(Floors(demands), {0}));
  }

  /** A reservation conflict that leaves a floor unmet is not reported as one. */
  method ConflictIsReportedAsInput(options: Options, prefer: Preference) returns (outcome: Outcome)
    requires 1 <= options.policyCeiling <= 1000 && options.tenants > 0 && PermutesEligible(prefer, OVERCLAIMED.demands)
    ensures outcome.status == ConflictingInput
  {
    OverclaimedIsInfeasible(options.policyCeiling);
    var rejected;
    ghost var final, exhausted;
    outcome, rejected, final, exhausted := Solve(OVERCLAIMED, options, true, [0], prefer);
  }
}
