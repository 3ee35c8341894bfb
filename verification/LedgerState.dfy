/** The working state of the solver as values: who was granted what, and what each resource carries. */
module LedgerState {
  import opened Numeric
  import opened Sums
  import opened Fabric
  import opened Relaxation

  datatype DemandState = DemandState(granted: int64, shares: ShareMap)

  const NOTHING: DemandState := DemandState(0, map[])

  ghost function AllShares(states: seq<DemandState>): (all: seq<ShareMap>)
    ensures |all| == |states|
  {
    seq(|states|, d requires 0 <= d < |states| => states[d].shares)
  }

  /** The books of one demand: positive shares on eligible paths, adding up to what was granted. */
  ghost predicate StateOk(demand: DemandDerivation, state: DemandState, paths: nat) {
    && (forall p :: p in state.shares ==> p in demand.eligible && p < paths && state.shares[p] > 0)
    && state.granted == ShareSum(state.shares, paths)
    && 0 <= state.granted <= 2 * MAX_BANDWIDTH
  }

  /** The books of one resource: it carries exactly the shares crossing it, within its ceiling. */
  ghost predicate ResourceOk(resource: ResourceState, load: int) {
    resource.used == load && 0 <= load <= resource.ceiling <= resource.available <= MAX_BANDWIDTH
  }

  ghost predicate Balanced(demands: seq<DemandDerivation>, paths: seq<CandidatePath>,
                           resources: seq<ResourceState>, states: seq<DemandState>)
  {
    && |states| == |demands|
    && (forall p :: 0 <= p < |paths| ==> PathWithinLimits(paths[p], |resources|))
    && (forall d :: 0 <= d < |demands| ==> StateOk(demands[d], states[d], |paths|))
    && (forall r :: 0 <= r < |resources| ==> ResourceOk(resources[r], Load(AllShares(states), paths, r)))
  }

  ghost predicate WithinMaxima(demands: seq<DemandDerivation>, states: seq<DemandState>) {
    |states| == |demands| && forall d :: 0 <= d < |demands| ==> states[d].granted <= demands[d].maximum
  }

  /** Everything that the moves change. */
  datatype Books = Books(states: seq<DemandState>, resources: seq<ResourceState>)

  /** Residual capacity of a resource under its ceiling. */
  function Room(r: ResourceState): int {
    r.ceiling - r.used
  }

  /** Some resource of the path has no room left. */
  ghost predicate Full(resources: seq<ResourceState>, path: CandidatePath) {
    exists k :: 0 <= k < |path.resources| && path.resources[k] < |resources| && Room(resources[path.resources[k]]) <= 0
  }

  /** Every resource of the path could take `amount` more. */
  ghost predicate HasRoom(resources: seq<ResourceState>, path: CandidatePath, amount: int) {
    forall k :: 0 <= k < |path.resources| && path.resources[k] < |resources| ==>
      amount <= Room(resources[path.resources[k]])
  }

  // ---- Elementary moves -----------------------------------------------------

  ghost function Credited(s: DemandState, p: PathId, amount: int): DemandState
    requires MIN_INT64 <= s.granted + amount <= MAX_INT64 && MIN_INT64 <= Get(s.shares, p) + amount <= MAX_INT64
  {
    DemandState(s.granted + amount, s.shares[p := Get(s.shares, p) + amount])
  }

  ghost function Debited(s: DemandState, p: PathId, amount: int): DemandState
    requires MIN_INT64 <= s.granted - amount <= MAX_INT64 && MIN_INT64 <= Get(s.shares, p) - amount <= MAX_INT64
  {
    DemandState(s.granted - amount,
      if Get(s.shares, p) == amount then s.shares - {p} else s.shares[p := Get(s.shares, p) - amount])
  }

  /** resources' is resources with `delta` added to the load of every resource of the path. */
  ghost predicate Charged(resources: seq<ResourceState>, resources': seq<ResourceState>, path: CandidatePath,
                          delta: int) {
    && |resources'| == |resources|
    && forall r :: 0 <= r < |resources| ==>
         && resources'[r].used == resources[r].used + (if r in path.resources then delta else 0)
         && resources'[r].(used := 0) == resources[r].(used := 0)
  }

  lemma ShareSumUpdate(shares: ShareMap, shares': ShareMap, p: PathId, n: nat)
    requires p < n && forall q: PathId :: q != p ==> Get(shares', q) == Get(shares, q)
    ensures ShareSum(shares', n) == ShareSum(shares, n) - Get(shares, p) + Get(shares', p)
  {
    assert ShareRow(shares', n) == ShareRow(shares, n)[p := Get(shares', p)];
    SumUpdate(ShareRow(shares, n), p, Get(shares', p));
  }

  lemma CrossUpdate(shares: ShareMap, shares': ShareMap, p: PathId, paths: seq<CandidatePath>, r: ResourceId)
    requires p < |paths| && forall q: PathId :: q != p ==> Get(shares', q) == Get(shares, q)
    ensures Sum(CrossRow(shares', paths, r))
      == Sum(CrossRow(shares, paths, r)) + (if r in paths[p].resources then Get(shares', p) - Get(shares, p) else 0)
  {
    var v := if r in paths[p].resources then Get(shares', p) as int else 0;
    assert CrossRow(shares', paths, r) == CrossRow(shares, paths, r)[p := v];
    SumUpdate(CrossRow(shares, paths, r), p, v);
  }

  /** Changing one share of one demand changes the load of exactly the resources on that path. */
  lemma LoadUpdate(states: seq<DemandState>, d: DemandId, s: DemandState, p: PathId, paths: seq<CandidatePath>,
                   r: ResourceId)
    requires d < |states| && p < |paths|
    requires forall q: PathId :: q != p ==> Get(s.shares, q) == Get(states[d].shares, q)
    ensures Load(AllShares(states[d := s]), paths, r) == Load(AllShares(states), paths, r)
      + (if r in paths[p].resources then Get(s.shares, p) - Get(states[d].shares, p) else 0)
  {
    var all := AllShares(states);
    CrossUpdate(states[d].shares, s.shares, p, paths, r);
    assert LoadRow(AllShares(states[d := s]), paths, r) == LoadRow(all, paths, r)[d := Sum(CrossRow(s.shares, paths,
      r))];
    SumUpdate(LoadRow(all, paths, r), d, Sum(CrossRow(s.shares, paths, r)));
  }

  /** A share never exceeds what its demand was granted. */
  lemma ShareWithinGrant(demand: DemandDerivation, s: DemandState, p: PathId, n: nat)
    requires StateOk(demand, s, n)
    ensures 0 <= Get(s.shares, p) <= s.granted
  {
    if p in s.shares {
      SumAtLeastEntry(ShareRow(s.shares, n), p);
    }
  }

  /** A share never exceeds the load of a resource it crosses. */
  lemma ShareWithinLoad(demands: seq<DemandDerivation>, paths: seq<CandidatePath>, resources: seq<ResourceState>,
                        states: seq<DemandState>, d: DemandId, p: PathId, r: ResourceId)
    requires Balanced(demands, paths, resources, states) && d < |demands| && p < |paths| && r in paths[p].resources
    ensures Get(states[d].shares, p) <= Load(AllShares(states), paths, r)
  {
    forall e | 0 <= e < |states| ensures LoadRow(AllShares(states), paths, r)[e] >= 0 {
      assert StateOk(demands[e], states[e], |paths|);
      SumNonNegative(CrossRow(states[e].shares, paths, r));
    }
    assert StateOk(demands[d], states[d], |paths|);
    SumAtLeastEntry(CrossRow(states[d].shares, paths, r), p);
    SumAtLeastEntry(LoadRow(AllShares(states), paths, r), d);
  }

  /** Granting no more than the room of a path keeps the books balanced. */
  lemma GrantBalances(demands: seq<DemandDerivation>, paths: seq<CandidatePath>, resources: seq<ResourceState>,
                      resources': seq<ResourceState>, states: seq<DemandState>, d: DemandId, p: PathId, amount: int)
    requires Balanced(demands, paths, resources, states) && d < |demands| && p < |paths| && p in demands[d].eligible
    requires 0 < amount && states[d].granted + amount <= 2 * MAX_BANDWIDTH
    requires 0 <= Get(states[d].shares, p) <= states[d].granted
    requires forall k :: 0 <= k < |paths[p].resources| && paths[p].resources[k] < |resources| ==>
      amount <= Room(resources[paths[p].resources[k]])
    requires Charged(resources, resources', paths[p], amount)
    ensures Balanced(demands, paths, resources', states[d := Credited(states[d], p, amount)])
  {
    var s := Credited(states[d], p, amount);
    assert StateOk(demands[d], states[d], |paths|);
    ShareSumUpdate(states[d].shares, s.shares, p, |paths|);
    forall r | 0 <= r < |resources| ensures ResourceOk(resources'[r], Load(AllShares(states[d := s]), paths, r)) {
      assert ResourceOk(resources[r], Load(AllShares(states), paths, r));
      LoadUpdate(states, d, s, p, paths, r);
    }
  }

  /** Revoking no more than a share keeps the books balanced, and no clamp at zero is ever needed. */
  lemma RevokeBalances(demands: seq<DemandDerivation>, paths: seq<CandidatePath>, resources: seq<ResourceState>,
                       resources': seq<ResourceState>, states: seq<DemandState>, d: DemandId, p: PathId, amount: int)
    requires Balanced(demands, paths, resources, states) && d < |demands| && p < |paths|
    requires 0 < amount <= Get(states[d].shares, p) <= states[d].granted
    requires Charged(resources, resources', paths[p], -amount)
    ensures Balanced(demands, paths, resources', states[d := Debited(states[d], p, amount)])
  {
    var s := Debited(states[d], p, amount);
    assert StateOk(demands[d], states[d], |paths|);
    ShareSumUpdate(states[d].shares, s.shares, p, |paths|);
    forall r | 0 <= r < |resources| ensures ResourceOk(resources'[r], Load(AllShares(states[d := s]), paths, r)) {
      assert ResourceOk(resources[r], Load(AllShares(states), paths, r));
      LoadUpdate(states, d, s, p, paths, r);
      if r in paths[p].resources {
        ShareWithinLoad(demands, paths, resources, states, d, p, r);
      }
    }
  }

  /** Before anything is placed the books are balanced. */
  lemma EmptyBalances(demands: seq<DemandDerivation>, paths: seq<CandidatePath>, resources: seq<ResourceState>)
    requires WithinLimits(demands, paths, resources)
    requires forall r :: 0 <= r < |resources| ==>
      resources[r].used == 0 && 0 <= resources[r].ceiling <= resources[r].available
    ensures Balanced(demands, paths, resources, seq(|demands|, _ => NOTHING))
    ensures WithinMaxima(demands, seq(|demands|, _ => NOTHING))
  {
    var states := seq(|demands|, _ => NOTHING);
    SumZero(ShareRow(map[], |paths|));
    forall r | 0 <= r < |resources| ensures ResourceOk(resources[r], Load(AllShares(states), paths, r)) {
      assert ResourceWithinLimits(resources[r]);
      forall d | 0 <= d < |demands| ensures LoadRow(AllShares(states), paths, r)[d] == 0 {
        SumZero(CrossRow(map[], paths, r));
      }
      SumZero(LoadRow(AllShares(states), paths, r));
    }
    forall d | 0 <= d < |demands| ensures StateOk(demands[d], states[d], |paths|) && demands[d].maximum >= 0 {
      assert DemandWithinLimits(demands[d], |paths|);
    }
  }
}
