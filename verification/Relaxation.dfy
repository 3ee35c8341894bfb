/**
 The relaxed feasibility question behind the certificate, stated without any network:
 a Hall-type condition on sets of demands, and why every real allocation satisfies it.
 */
module Relaxation {
  import opened Numeric
  import opened Sums
  import opened Fabric

  /** A demand that declares a floor. */
  predicate NeedsFloor(d: DemandDerivation) {
    d.active && d.floor > 0
  }

  /** Ranks of the demands that enter the network: a floor, and at least one path to carry it. */
  function NeedyIds(demands: seq<DemandDerivation>): (ids: seq<DemandId>)
    ensures forall i :: 0 <= i < |ids| ==>
      ids[i] < |demands| && NeedsFloor(demands[ids[i]]) && demands[ids[i]].eligible != []
    ensures Distinct(ids)
  {
    if demands == [] then []
    else
      var d := |demands| - 1;
      NeedyIds(demands[..d]) + (if NeedsFloor(demands[d]) && demands[d].eligible != [] then [d] else [])
  }

  function Needy(demands: seq<DemandDerivation>): (needy: seq<DemandDerivation>)
    ensures |needy| == |NeedyIds(demands)|
  {
    var ids := NeedyIds(demands);
    seq(|ids|, i requires 0 <= i < |ids| => demands[ids[i]])
  }

  /** Some demand declares a floor and has no eligible path at all. */
  predicate Starved(demands: seq<DemandDerivation>) {
    exists d :: 0 <= d < |demands| && NeedsFloor(demands[d]) && demands[d].eligible == []
  }

  /** Sum of all declared floors, whether or not a path exists for them. */
  ghost function TotalFloor(demands: seq<DemandDerivation>): int {
    if demands == [] then 0
    else
      var d := demands[|demands| - 1];
      TotalFloor(demands[..|demands| - 1]) + (if NeedsFloor(d) then d.floor else 0)
  }

  /** The network sees every declared floor unless some demand is starved; then it sees strictly less. */
  lemma {:induction false} NeedyFloors(demands: seq<DemandDerivation>)
    ensures Sum(Floors(Needy(demands))) <= TotalFloor(demands)
    ensures Sum(Floors(Needy(demands))) == TotalFloor(demands) <==> !Starved(demands)
  {
    if demands != [] {
      var m := |demands| - 1;
      var d := demands[m];
      NeedyFloors(demands[..m]);
      assert demands == demands[..m] + [d];
      assert Starved(demands) <==> Starved(demands[..m]) || (NeedsFloor(d) && d.eligible == []) by {
        if Starved(demands[..m]) {
          var k :| 0 <= k < m && NeedsFloor(demands[..m][k]) && demands[..m][k].eligible == [];
          assert demands[k] == demands[..m][k];
        }
        if Starved(demands) {
          var k :| 0 <= k <= m && NeedsFloor(demands[k]) && demands[k].eligible == [];
          assert k < m ==> demands[..m][k] == demands[k];
        }
      }
      if NeedsFloor(d) && d.eligible != [] {
        assert Needy(demands) == Needy(demands[..m]) + [d];
        assert Floors(Needy(demands)) == Floors(Needy(demands[..m])) + [d.floor];
        SumAppend(Floors(Needy(demands[..m])), d.floor);
      } else {
        assert Needy(demands) == Needy(demands[..m]);
      }
    }
  }

  ghost function Floors(demands: seq<DemandDerivation>): (floors: seq<int>)
    ensures |floors| == |demands|
  {
    seq(|demands|, i requires 0 <= i < |demands| => demands[i].floor)
  }

  ghost function Ceilings(resources: seq<ResourceState>, permille: int64): (ceilings: seq<int>)
    ensures |ceilings| == |resources| && forall r :: 0 <= r < |ceilings| ==> ceilings[r] >= 0
  {
    seq(|resources|, r requires 0 <= r < |resources| => CeilingOf(resources[r], permille))
  }

  /** Resource r lies on an eligible path of a demand of the set D. */
  ghost predicate Touches(needy: seq<DemandDerivation>, paths: seq<CandidatePath>, D: set<nat>, r: ResourceId) {
    exists i: nat, p: PathId :: i in D && i < |needy| && p in needy[i].eligible && p < |paths|
      && r in paths[p].resources
  }

  ghost function Reach(needy: seq<DemandDerivation>, paths: seq<CandidatePath>, D: set<nat>, n: nat): set<nat> {
    set r: nat | r < n && Touches(needy, paths, D, r)
  }

  /** The floors of D fit into the ceilings of all resources on the paths of D. */
  ghost predicate Fits(needy: seq<DemandDerivation>, paths: seq<CandidatePath>, ceilings: seq<int>, D: set<nat>) {
    SumIn(Floors(needy), D) <= SumIn(ceilings, Reach(needy, paths, D, |ceilings|))
  }

  /** Hall's condition: every set of demands fits. */
  ghost predicate Hall(needy: seq<DemandDerivation>, paths: seq<CandidatePath>, ceilings: seq<int>) {
    forall D: set<nat> :: Fits(needy, paths, ceilings, D)
  }

  /** Relaxed feasibility at a utilisation ceiling. */
  ghost predicate RelaxedFeasible(demands: seq<DemandDerivation>, paths: seq<CandidatePath>,
                                  resources: seq<ResourceState>, permille: int64)
  {
    !Starved(demands) && Hall(Needy(demands), paths, Ceilings(resources, permille))
  }

  /** Relaxed feasibility is monotone in the ceiling: what fits under a low ceiling fits under a higher one. */
  lemma RelaxedMonotone(demands: seq<DemandDerivation>, paths: seq<CandidatePath>, resources: seq<ResourceState>,
                        low: int64, high: int64)
    requires forall r :: 0 <= r < |resources| ==> ResourceWithinLimits(resources[r])
    requires 0 <= low <= high <= 1000
    requires RelaxedFeasible(demands, paths, resources, low)
    ensures RelaxedFeasible(demands, paths, resources, high)
  {
    var needy, a, b := Needy(demands), Ceilings(resources, low), Ceilings(resources, high);
    forall D: set<nat> ensures Fits(needy, paths, b, D) {
      assert Fits(needy, paths, a, D);
      forall r | 0 <= r < |resources| ensures a[r] <= b[r] {
        CeilingMonotone(resources[r], low, high);
      }
      var R := Reach(needy, paths, D, |resources|);
      SumMonotone(Mask(a, R), Mask(b, R));
    }
  }

  // ---- Real allocations ---------------------------------------------------

  /** Bandwidth of one demand, by path; an absent path carries nothing. */
  type ShareMap = map<PathId, int64>

  function Get(shares: ShareMap, p: PathId): int64 {
    if p in shares then shares[p] else 0
  }

  ghost function ShareRow(shares: ShareMap, n: nat): (row: seq<int>)
    ensures |row| == n
  {
    seq(n, p requires 0 <= p < n => Get(shares, p))
  }

  /** Total bandwidth of a demand over the first n paths. */
  ghost function ShareSum(shares: ShareMap, n: nat): int {
    Sum(ShareRow(shares, n))
  }

  ghost function CrossRow(shares: ShareMap, paths: seq<CandidatePath>, r: ResourceId): (row: seq<int>)
    ensures |row| == |paths|
  {
    seq(|paths|, p requires 0 <= p < |paths| => if r in paths[p].resources then Get(shares, p) else 0)
  }

  ghost function LoadRow(all: seq<ShareMap>, paths: seq<CandidatePath>, r: ResourceId): (row: seq<int>)
    ensures |row| == |all|
  {
    seq(|all|, d requires 0 <= d < |all| => Sum(CrossRow(all[d], paths, r)))
  }

  /** Bandwidth that all demands together place on resource r. */
  ghost function Load(all: seq<ShareMap>, paths: seq<CandidatePath>, r: ResourceId): int {
    Sum(LoadRow(all, paths, r))
  }

  ghost predicate NonNegative(shares: ShareMap) {
    forall p :: p in shares ==> shares[p] >= 0
  }

  /** An allocation of the needy demands: on eligible paths, above every floor, within every ceiling. */
  ghost predicate Carries(needy: seq<DemandDerivation>, paths: seq<CandidatePath>, ceilings: seq<int>,
                          all: seq<ShareMap>) {
    && |all| == |needy|
    && (forall i :: 0 <= i < |all| ==> NonNegative(all[i]))
    && (forall i, p :: 0 <= i < |all| && p in all[i] && all[i][p] > 0 ==> p in needy[i].eligible)
    && (forall i :: 0 <= i < |all| ==> ShareSum(all[i], |paths|) >= needy[i].floor)
    && (forall r :: 0 <= r < |ceilings| ==> Load(all, paths, r) <= ceilings[r])
  }

  /** What one demand loads on each resource of R. */
  ghost function ReachRow(shares: ShareMap, paths: seq<CandidatePath>, R: set<nat>, n: nat): (row: seq<int>)
    ensures |row| == n
  {
    seq(n, r requires 0 <= r < n => if r in R then Sum(CrossRow(shares, paths, r)) else 0)
  }

  /** What one path of a demand loads on each resource of R. */
  ghost function PathRow(shares: ShareMap, path: CandidatePath, p: PathId, R: set<nat>, n: nat): (row: seq<int>)
    ensures |row| == n
  {
    seq(n, r requires 0 <= r < n => if r in R && r in path.resources then Get(shares, p) as int else 0)
  }

  lemma PathLoadsReach(shares: ShareMap, path: CandidatePath, p: PathId, R: set<nat>, n: nat)
    requires NonNegative(shares)
    requires Get(shares, p) > 0 ==> exists r :: r in R && r < n && r in path.resources
    ensures Get(shares, p) <= Sum(PathRow(shares, path, p, R, n))
  {
    if Get(shares, p) > 0 {
      var r :| r in R && r < n && r in path.resources;
      SumAtLeastEntry(PathRow(shares, path, p, R, n), r);
    } else {
      SumNonNegative(PathRow(shares, path, p, R, n));
    }
  }

  ghost predicate TouchesAll(shares: ShareMap, paths: seq<CandidatePath>, R: set<nat>, n: nat) {
    forall p: nat :: p < |paths| && Get(shares, p) > 0 ==> exists r :: r in R && r < n && r in paths[p].resources
  }

  /** One demand whose used paths all touch R loads R with at least its total. */
  lemma DemandLoadsReach(shares: ShareMap, paths: seq<CandidatePath>, R: set<nat>, n: nat)
    requires NonNegative(shares) && TouchesAll(shares, paths, R, n)
    ensures ShareSum(shares, |paths|) <= Sum(ReachRow(shares, paths, R, n))
  {
    var rows := seq(|paths|, p requires 0 <= p < |paths| => PathRow(shares, paths[p], p, R, n));
    SumSwap(rows, n);
    forall p | 0 <= p < |paths| ensures ShareRow(shares, |paths|)[p] <= RowSums(rows)[p] {
      PathLoadsReach(shares, paths[p], p, R, n);
    }
    SumMonotone(ShareRow(shares, |paths|), RowSums(rows));
    forall r | 0 <= r < n ensures ColumnSums(rows, n)[r] == ReachRow(shares, paths, R, n)[r] {
      if r in R {
        assert Column(rows, r) == CrossRow(shares, paths, r);
      } else {
        SumZero(Column(rows, r));
      }
    }
    assert ColumnSums(rows, n) == ReachRow(shares, paths, R, n);
  }

  lemma ReachRowNonNegative(shares: ShareMap, paths: seq<CandidatePath>, R: set<nat>, n: nat)
    requires NonNegative(shares)
    ensures Sum(ReachRow(shares, paths, R, n)) >= 0
  {
    forall r | 0 <= r < n ensures ReachRow(shares, paths, R, n)[r] >= 0 {
      SumNonNegative(CrossRow(shares, paths, r));
    }
    SumNonNegative(ReachRow(shares, paths, R, n));
  }

  /** A demand of D loads the reach of D with at least its floor. */
  lemma FloorWithinReach(needy: seq<DemandDerivation>, paths: seq<CandidatePath>, ceilings: seq<int>,
                         all: seq<ShareMap>, D: set<nat>, i: nat)
    requires Carries(needy, paths, ceilings, all) && i < |all| && i in D
    requires forall p :: 0 <= p < |paths| ==> PathWithinLimits(paths[p], |ceilings|)
    ensures needy[i].floor <= Sum(ReachRow(all[i], paths, Reach(needy, paths, D, |ceilings|), |ceilings|))
  {
    var n, R := |ceilings|, Reach(needy, paths, D, |ceilings|);
    forall p: nat | p < |paths| && Get(all[i], p) > 0
      ensures exists r :: r in R && r < n && r in paths[p].resources
    {
      assert PathWithinLimits(paths[p], n);
      var r := paths[p].resources[0];
      assert p in needy[i].eligible;
      assert r in paths[p].resources;
      assert Touches(needy, paths, D, r);
    }
    DemandLoadsReach(all[i], paths, R, n);
  }

  /** Any set of demands that a real allocation carries satisfies Hall's inequality. */
  lemma AllocationFits(needy: seq<DemandDerivation>, paths: seq<CandidatePath>, ceilings: seq<int>,
                       all: seq<ShareMap>, D: set<nat>)
    requires Carries(needy, paths, ceilings, all)
    requires forall p :: 0 <= p < |paths| ==> PathWithinLimits(paths[p], |ceilings|)
    ensures Fits(needy, paths, ceilings, D)
  {
    var n, R := |ceilings|, Reach(needy, paths, D, |ceilings|);
    var rows := seq(|all|, i requires 0 <= i < |all| => ReachRow(all[i], paths, R, n));
    SumSwap(rows, n);
    forall i | 0 <= i < |all| ensures Mask(Floors(needy), D)[i] <= RowSums(rows)[i] {
      if i in D {
        FloorWithinReach(needy, paths, ceilings, all, D, i);
      } else {
        ReachRowNonNegative(all[i], paths, R, n);
      }
    }
    SumMonotone(Mask(Floors(needy), D), RowSums(rows));
    ColumnsAreLoads(all, paths, ceilings, rows, R);
    SumMonotone(ColumnSums(rows, n), Mask(ceilings, R));
  }

  lemma ColumnsAreLoads(all: seq<ShareMap>, paths: seq<CandidatePath>, ceilings: seq<int>, rows: seq<seq<int>>,
                        R: set<nat>)
    requires |rows| == |all|
    requires forall i :: 0 <= i < |all| ==> |rows[i]| == |ceilings| && rows[i] == ReachRow(all[i], paths, R, |ceilings|)
    requires forall r :: 0 <= r < |ceilings| ==> Load(all, paths, r) <= ceilings[r]
    ensures forall r :: 0 <= r < |ceilings| ==> ColumnSums(rows, |ceilings|)[r] <= Mask(ceilings, R)[r]
  {
    forall r | 0 <= r < |ceilings| ensures ColumnSums(rows, |ceilings|)[r] <= Mask(ceilings, R)[r] {
      if r in R {
        assert Column(rows, r) == LoadRow(all, paths, r);
      } else {
        SumZero(Column(rows, r));
      }
    }
  }

  /** A complete allocation: every active demand has its floor, on eligible paths, within every ceiling. */
  ghost predicate Legal(demands: seq<DemandDerivation>, paths: seq<CandidatePath>, ceilings: seq<int>,
                        all: seq<ShareMap>) {
    && |all| == |demands|
    && (forall d :: 0 <= d < |all| ==> NonNegative(all[d]))
    && (forall d, p :: 0 <= d < |all| && p in all[d] && all[d][p] > 0 ==> p in demands[d].eligible)
    && (forall d :: 0 <= d < |all| && demands[d].active ==> ShareSum(all[d], |paths|) >= demands[d].floor)
    && (forall r :: 0 <= r < |ceilings| ==> Load(all, paths, r) <= ceilings[r])
  }

  ghost function Pick(row: seq<int>, ids: seq<DemandId>): (picked: seq<int>)
    requires forall i :: 0 <= i < |ids| ==> ids[i] < |row|
    ensures |picked| == |ids|
  {
    seq(|ids|, i requires 0 <= i < |ids| => row[ids[i]])
  }

  /** The needy demands load a resource with at most what all demands load it. */
  lemma {:induction false} NeedyLoadLess(demands: seq<DemandDerivation>, row: seq<int>)
    requires |row| == |demands| && forall d :: 0 <= d < |row| ==> row[d] >= 0
    ensures Sum(Pick(row, NeedyIds(demands))) <= Sum(row)
  {
    if demands != [] {
      var m := |demands| - 1;
      var before, after := NeedyIds(demands[..m]), NeedyIds(demands);
      NeedyLoadLess(demands[..m], row[..m]);
      assert Pick(row[..m], before) == Pick(row, before);
      if after != before {
        assert Pick(row, after) == Pick(row, before) + [row[m]];
        SumAppend(Pick(row, before), row[m]);
      }
    }
  }

  lemma LegalIsNotStarved(demands: seq<DemandDerivation>, paths: seq<CandidatePath>, ceilings: seq<int>,
                          all: seq<ShareMap>)
    requires Legal(demands, paths, ceilings, all)
    ensures !Starved(demands)
  {
    if Starved(demands) {
      var d :| 0 <= d < |demands| && NeedsFloor(demands[d]) && demands[d].eligible == [];
      SumZero(ShareRow(all[d], |paths|));
    }
  }

  ghost function NeedyShares(demands: seq<DemandDerivation>, all: seq<ShareMap>): (needy: seq<ShareMap>)
    requires |all| == |demands|
    ensures |needy| == |NeedyIds(demands)|
  {
    var ids := NeedyIds(demands);
    seq(|ids|, i requires 0 <= i < |ids| => all[ids[i]])
  }

  lemma LegalCarriesNeedy(demands: seq<DemandDerivation>, paths: seq<CandidatePath>, ceilings: seq<int>,
                          all: seq<ShareMap>)
    requires Legal(demands, paths, ceilings, all)
    ensures Carries(Needy(demands), paths, ceilings, NeedyShares(demands, all))
  {
    var ids, needy := NeedyIds(demands), NeedyShares(demands, all);
    forall r | 0 <= r < |ceilings| ensures Load(needy, paths, r) <= ceilings[r] {
      var row := LoadRow(all, paths, r);
      forall d | 0 <= d < |all| ensures row[d] >= 0 {
        SumNonNegative(CrossRow(all[d], paths, r));
      }
      NeedyLoadLess(demands, row);
      assert LoadRow(needy, paths, r) == Pick(row, ids);
    }
  }

  /** The relaxation is necessary: a legal allocation exists only where the relaxation is feasible. */
  lemma LegalImpliesRelaxed(demands: seq<DemandDerivation>, paths: seq<CandidatePath>, resources: seq<ResourceState>,
                            permille: int64, all: seq<ShareMap>)
    requires forall p :: 0 <= p < |paths| ==> PathWithinLimits(paths[p], |resources|)
    requires Legal(demands, paths, Ceilings(resources, permille), all)
    ensures RelaxedFeasible(demands, paths, resources, permille)
  {
    var ceilings := Ceilings(resources, permille);
    LegalIsNotStarved(demands, paths, ceilings, all);
    LegalCarriesNeedy(demands, paths, ceilings, all);
    forall D: set<nat> ensures Fits(Needy(demands), paths, ceilings, D) {
      AllocationFits(Needy(demands), paths, ceilings, NeedyShares(demands, all), D);
    }
  }
}
