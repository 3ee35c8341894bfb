/** The resource ledger of the solver: struct Problem of src/solver.cpp and the moves made on it. */
module Ledger {
  import opened Numeric
  import opened Sums
  import opened Fabric
  import opened Relaxation
  import opened LedgerState

  /** Ceilings and accounting are the same; only loads may differ. */
  ghost predicate SameCeilings(before: seq<ResourceState>, after: seq<ResourceState>) {
    |after| == |before| && forall r :: 0 <= r < |before| ==> after[r].(used := 0) == before[r].(used := 0)
  }

  /** Loads only went up. */
  ghost predicate Grown(before: seq<ResourceState>, after: seq<ResourceState>) {
    SameCeilings(before, after) && forall r :: 0 <= r < |before| ==> before[r].used <= after[r].used
  }

  /** No load went up by more than `amount`. */
  ghost predicate GrownBy(before: seq<ResourceState>, after: seq<ResourceState>, amount: int) {
    SameCeilings(before, after) && forall r :: 0 <= r < |before| ==> after[r].used <= before[r].used + amount
  }

  lemma ChargedGrowsBy(first: seq<ResourceState>, before: seq<ResourceState>, after: seq<ResourceState>,
                       path: CandidatePath,
                       placed: int, taken: int)
    requires GrownBy(first, before, placed) && Charged(before, after, path, taken) && taken >= 0
    ensures GrownBy(first, after, placed + taken)
  {
  }

  lemma NothingGrown(resources: seq<ResourceState>)
    ensures GrownBy(resources, resources, 0)
  {
  }

  /** If a path with room for `amount` is full afterwards, at least that much was placed. */
  lemma FilledUp(before: seq<ResourceState>, after: seq<ResourceState>, path: CandidatePath, placed: int, amount: int)
    requires GrownBy(before, after, placed) && HasRoom(before, path, amount) && Full(after, path)
    ensures amount <= placed
  {
    var k :| 0 <= k < |path.resources| && path.resources[k] < |after| && Room(after[path.resources[k]]) <= 0;
    assert after[path.resources[k]].(used := 0) == before[path.resources[k]].(used := 0);
  }

  lemma FullStaysFull(before: seq<ResourceState>, after: seq<ResourceState>, path: CandidatePath)
    requires Grown(before, after) && Full(before, path)
    ensures Full(after, path)
  {
    var k :| 0 <= k < |path.resources| && path.resources[k] < |before| && Room(before[path.resources[k]]) <= 0;
    assert after[path.resources[k]].(used := 0) == before[path.resources[k]].(used := 0);
  }

  lemma ChargedGrows(before: seq<ResourceState>, after: seq<ResourceState>, path: CandidatePath, amount: int)
    requires Charged(before, after, path, amount) && amount >= 0
    ensures Grown(before, after)
  {
  }

  lemma LimitsKeep(demands: seq<DemandDerivation>, paths: seq<CandidatePath>, before: seq<ResourceState>,
                   after: seq<ResourceState>)
    requires WithinLimits(demands, paths, before) && SameCeilings(before, after)
    ensures WithinLimits(demands, paths, after)
  {
    forall r | 0 <= r < |after| ensures ResourceWithinLimits(after[r]) {
      assert after[r].(used := 0) == before[r].(used := 0);
      assert ResourceWithinLimits(before[r]);
    }
  }

  lemma ChargedKeepsLimits(demands: seq<DemandDerivation>, paths: seq<CandidatePath>,
                           before: seq<ResourceState>, after: seq<ResourceState>, path: CandidatePath, delta: int)
    requires WithinLimits(demands, paths, before) && Charged(before, after, path, delta)
    ensures WithinLimits(demands, paths, after)
  {
    LimitsKeep(demands, paths, before, after);
  }

  /** Taking exactly the headroom of a path fills it. */
  lemma BottleneckFills(before: seq<ResourceState>, after: seq<ResourceState>, path: CandidatePath, amount: int)
    requires Charged(before, after, path, amount)
    requires exists k ::
      0 <= k < |path.resources| && path.resources[k] < |before| && Room(before[path.resources[k]]) == amount
    ensures Full(after, path)
  {
    var k :| 0 <= k < |path.resources| && path.resources[k] < |before| && Room(before[path.resources[k]]) == amount;
    var r := path.resources[k];
    assert after[r].(used := 0) == before[r].(used := 0);
    assert Room(after[r]) <= 0;
  }

  lemma ChargedKeepsCeilings(before: seq<ResourceState>, after: seq<ResourceState>, path: CandidatePath, amount: int)
    requires Charged(before, after, path, amount)
    ensures SameCeilings(before, after)
  {
  }

  lemma ChargedElsewhere(before: seq<ResourceState>, after: seq<ResourceState>, path: CandidatePath, amount: int,
                         r: ResourceId)
    requires Charged(before, after, path, amount) && r < |before| && r !in path.resources
    ensures |after| == |before| && after[r].used == before[r].used && SameCeilings(before, after)
  {
  }

  lemma ChargedHere(before: seq<ResourceState>, after: seq<ResourceState>, path: CandidatePath, amount: int,
                    r: ResourceId)
    requires Charged(before, after, path, amount) && r < |before| && r in path.resources
    ensures |after| == |before| && after[r].used == before[r].used + amount && SameCeilings(before, after)
  {
  }

  // ---- Relocation candidates ------------------------------------------------

  /** A share that crosses the blocked resource and might be moved elsewhere. */
  datatype Mover = Mover(demand: DemandId, path: PathId, granted: int64, priority: nat)

  /** Lower priority first, then demand, then path. */
  predicate MovesBefore(a: Mover, b: Mover) {
    if a.priority != b.priority then a.priority < b.priority
    else if a.demand != b.demand then a.demand < b.demand
    else a.path < b.path
  }

  predicate SameShare(a: Mover, b: Mover) {
    a.demand == b.demand && a.path == b.path
  }

  ghost predicate Apart(movers: seq<Mover>) {
    forall i, j :: 0 <= i < j < |movers| ==> !SameShare(movers[i], movers[j])
  }

  /** A path that a share on m's path could be moved to, away from the resource. */
  predicate Alternative(paths: seq<CandidatePath>, m: Mover, resource: ResourceId, c: PathId) {
    c != m.path && c < |paths| && resource !in paths[c].resources
  }

  /** If less than `wanted` was moved, then as much as any alternative had room for. */
  ghost predicate UsesAlternatives(demands: seq<DemandDerivation>, paths: seq<CandidatePath>, m: Mover,
                                   resource: ResourceId,
                                   wanted: int, relocated: int, before: seq<ResourceState>)
  {
    m.demand < |demands| && (relocated < wanted ==>
      forall c: PathId, amount: int :: CouldTake(demands[m.demand], paths, m, resource, before, c, amount) ==>
        amount <= relocated)
  }

  ghost predicate CouldTake(demand: DemandDerivation, paths: seq<CandidatePath>, m: Mover, resource: ResourceId,
                            before: seq<ResourceState>, c: PathId, amount: int)
  {
    c in demand.eligible && Alternative(paths, m, resource, c) && HasRoom(before, paths[c], amount)
  }

  lemma AlternativesUsed(demands: seq<DemandDerivation>, paths: seq<CandidatePath>, m: Mover, resource: ResourceId,
                         wanted: int, relocated: int, before: seq<ResourceState>, after: seq<ResourceState>)
    requires m.demand < |demands| && GrownBy(before, after, relocated)
    requires var eligible := demands[m.demand].eligible;
      relocated < wanted ==>
        forall j :: 0 <= j < |eligible| && Alternative(paths, m, resource, eligible[j]) ==>
          Full(after, paths[eligible[j]])
    ensures UsesAlternatives(demands, paths, m, resource, wanted, relocated, before)
  {
    hide Full, GrownBy;
    forall c: PathId, amount: int | relocated < wanted
      && CouldTake(demands[m.demand], paths, m, resource, before, c, amount)
      ensures amount <= relocated
    {
      FilledUp(before, after, paths[c], relocated, amount);
    }
  }

  lemma NothingChanged(resources: seq<ResourceState>)
    ensures SameCeilings(resources, resources)
  {
  }

  /** The relocations of one repair: whom it dealt with in turn, the books before and after each, and how much moved. */
  datatype RepairRun = RepairRun(movers: seq<Mover>, trail: seq<Books>, moved: seq<int>)

  /** What is still missing after the first k relocations. */
  function Missing(deficit: int, moved: seq<int>, k: nat): int
    requires k <= |moved|
  {
    if k == 0 then deficit else Missing(deficit, moved, k - 1) - moved[k - 1]
  }

  /** Relocation k asks for what is missing, as far as the share goes, and moves all that the alternatives take. */
  ghost predicate IsRelocation(demands: seq<DemandDerivation>, paths: seq<CandidatePath>, resource: ResourceId,
                               m: Mover,
                               missing: int, moved: int, before: Books, after: Books)
  {
    && missing > 0 && 0 <= moved <= missing && moved <= m.granted
    && UsesAlternatives(demands, paths, m, resource, if missing < m.granted then missing else m.granted, moved,
      before.resources)
    && resource < |before.resources| == |after.resources|
    && after.resources[resource].used == before.resources[resource].used - moved
    && SameCeilings(before.resources, after.resources)
  }

  ghost predicate IsRepairRun(demands: seq<DemandDerivation>, paths: seq<CandidatePath>, resource: ResourceId,
                              deficit: int, run: RepairRun) {
    && |run.trail| == |run.moved| + 1 && |run.moved| <= |run.movers| && MoversSorted(run.movers)
    && forall k :: 0 <= k < |run.moved| ==>
         IsRelocation(demands, paths, resource, run.movers[k], Missing(deficit, run.moved, k), run.moved[k],
           run.trail[k], run.trail[k + 1])
  }

  ghost function Continue(run: RepairRun, moved: int, after: Books): RepairRun {
    run.(trail := run.trail + [after], moved := run.moved + [moved])
  }

  lemma {:induction false} MissingPrefix(deficit: int, a: seq<int>, x: int, k: nat)
    requires k <= |a|
    ensures Missing(deficit, a + [x], k) == Missing(deficit, a, k)
  {
    if k > 0 { MissingPrefix(deficit, a, x, k - 1); }
  }

  lemma ContinueRun(demands: seq<DemandDerivation>, paths: seq<CandidatePath>, resource: ResourceId, deficit: int,
                    run: RepairRun, moved: int, after: Books)
    requires IsRepairRun(demands, paths, resource, deficit, run) && |run.moved| < |run.movers|
    requires var k := |run.moved|;
      IsRelocation(demands, paths, resource, run.movers[k], Missing(deficit, run.moved, k), moved, run.trail[k], after)
    ensures IsRepairRun(demands, paths, resource, deficit, Continue(run, moved, after))
    ensures Missing(deficit, Continue(run, moved, after).moved, |run.moved| + 1) == Missing(deficit, run.moved,
      |run.moved|) - moved
  {
    hide IsRelocation;
    var next := Continue(run, moved, after);
    forall k | 0 <= k < |next.moved|
      ensures IsRelocation(demands, paths, resource, next.movers[k], Missing(deficit, next.moved, k), next.moved[k],
        next.trail[k], next.trail[k + 1])
    {
      MissingPrefix(deficit, run.moved, moved, k);
    }
    MissingPrefix(deficit, run.moved, moved, |run.moved|);
  }

  /** What the last of the preferred paths keeps, whatever room another one had before. */
  ghost predicate LastGivesUp(paths: seq<CandidatePath>, preferred: seq<PathId>, before: seq<ResourceState>,
                              was: DemandState, now: DemandState)
    requires preferred != []
  {
    var last := preferred[|preferred| - 1];
    Get(now.shares, last) <= Get(was.shares, last)
    && forall t, amount: int :: RoomAt(paths, preferred, before, t, amount) && Get(now.shares, last) > 0 ==>
         Get(now.shares, last) <= Get(was.shares, last) - amount
  }

  ghost predicate RoomAt(paths: seq<CandidatePath>, preferred: seq<PathId>, before: seq<ResourceState>, t: int,
                         amount: int) {
    0 <= t < |preferred| - 1 && preferred[t] < |paths| && HasRoom(before, paths[preferred[t]], amount)
  }

  lemma GivesUp(paths: seq<CandidatePath>, preferred: seq<PathId>, before: seq<ResourceState>,
                after: seq<ResourceState>,
                moveable: int, moved: int)
    requires preferred != [] && GrownBy(before, after, moved)
    requires moved < moveable ==>
      forall j :: 0 <= j < |preferred| - 1 ==> preferred[j] < |paths| && Full(after, paths[preferred[j]])
    ensures forall t, amount: int :: RoomAt(paths, preferred, before, t, amount) && moved < moveable ==> amount <= moved
  {
    hide Full, GrownBy;
    forall t, amount: int | RoomAt(paths, preferred, before, t, amount) && moved < moveable
      ensures amount <= moved
    {
      FilledUp(before, after, paths[preferred[t]], moved, amount);
    }
  }

  ghost predicate Listed(movers: seq<Mover>, e: DemandId, p: PathId) {
    exists m :: m in movers && m.demand == e && m.path == p
  }

  lemma ListOneMore(movers: seq<Mover>, m: Mover)
    ensures Listed(movers + [m], m.demand, m.path)
    ensures forall e: DemandId, p: PathId :: Listed(movers, e, p) ==> Listed(movers + [m], e, p)
  {
    assert m in movers + [m];
    forall e: DemandId, p: PathId | Listed(movers, e, p)
      ensures Listed(movers + [m], e, p)
    {
      var x :| x in movers && x.demand == e && x.path == p;
      assert x in movers + [m];
    }
  }

  /** Nobody is listed after somebody who should move later. */
  ghost predicate MoversSorted(movers: seq<Mover>) {
    forall i, j :: 0 <= i < j < |movers| ==> !MovesBefore(movers[j], movers[i])
  }

  function InsertMover(m: Mover, movers: seq<Mover>): (r: seq<Mover>)
    ensures forall x :: x in r <==> x == m || x in movers
  {
    if movers == [] || MovesBefore(m, movers[0]) then [m] + movers
    else
      assert movers == [movers[0]] + movers[1..];
      [movers[0]] + InsertMover(m, movers[1..])
  }

  function SortMovers(movers: seq<Mover>): (r: seq<Mover>)
    ensures forall x :: x in r <==> x in movers
  {
    if movers == [] then []
    else
      assert movers == movers[..|movers| - 1] + [movers[|movers| - 1]];
      InsertMover(movers[|movers| - 1], SortMovers(movers[..|movers| - 1]))
  }

  lemma MovesOrder(a: Mover, b: Mover, c: Mover)
    ensures MovesBefore(a, b) ==> !MovesBefore(b, a)
    ensures !MovesBefore(b, a) && !MovesBefore(c, b) ==> !MovesBefore(c, a)
  {
  }

  lemma {:induction false} InsertIsSorted(m: Mover, movers: seq<Mover>)
    requires MoversSorted(movers)
    ensures MoversSorted(InsertMover(m, movers))
  {
    hide MovesBefore;
    var out := InsertMover(m, movers);
    if movers == [] || MovesBefore(m, movers[0]) {
      forall j | 0 < j < |out|
        ensures !MovesBefore(out[j], m)
      {
        MovesOrder(m, movers[0], movers[j - 1]);
      }
    } else {
      InsertIsSorted(m, movers[1..]);
      var rest := InsertMover(m, movers[1..]);
      forall j | 0 <= j < |rest|
        ensures !MovesBefore(rest[j], movers[0])
      {
        assert rest[j] in rest;
        if rest[j] in movers[1..] {
          var k :| 0 <= k < |movers[1..]| && movers[1..][k] == rest[j];
          assert movers[k + 1] == rest[j];
        }
      }
    }
  }

  lemma {:induction false} SortIsSorted(movers: seq<Mover>)
    ensures MoversSorted(SortMovers(movers))
  {
    if movers != [] {
      var m := |movers| - 1;
      SortIsSorted(movers[..m]);
      InsertIsSorted(movers[m], SortMovers(movers[..m]));
    }
  }

  lemma {:induction false} InsertKeepsApart(m: Mover, movers: seq<Mover>)
    requires Apart(movers) && forall x :: x in movers ==> !SameShare(m, x)
    ensures Apart(InsertMover(m, movers))
  {
    if movers == [] || MovesBefore(m, movers[0]) {
    } else {
      InsertKeepsApart(m, movers[1..]);
      var rest := InsertMover(m, movers[1..]);
      forall j | 0 <= j < |rest| ensures !SameShare(movers[0], rest[j]) {
        assert rest[j] in rest;
        if rest[j] in movers[1..] {
          var k :| 0 <= k < |movers[1..]| && movers[1..][k] == rest[j];
          assert movers[k + 1] == rest[j];
        } else {
          assert movers[0] in movers;
        }
      }
    }
  }

  lemma {:induction false} SortKeepsApart(movers: seq<Mover>)
    requires Apart(movers)
    ensures Apart(SortMovers(movers))
  {
    if movers != [] {
      var m := |movers| - 1;
      SortKeepsApart(movers[..m]);
      forall x | x in SortMovers(movers[..m]) ensures !SameShare(movers[m], x) {
        var k :| 0 <= k < m && movers[..m][k] == x;
        assert movers[k] == x;
      }
      InsertKeepsApart(movers[m], SortMovers(movers[..m]));
    }
  }

  class Problem {
    const demands: seq<DemandDerivation>
    const paths: seq<CandidatePath>
    var resources: seq<ResourceState>
    var states: seq<DemandState>

    ghost predicate Valid()
      reads this
    {
      WithinLimits(demands, paths, resources) && Balanced(demands, paths, resources, states)
    }

    /** make_problem: nothing granted, ceilings at the plain availability. */
    constructor (demands: seq<DemandDerivation>, paths: seq<CandidatePath>, resources: seq<ResourceState>)
      requires WithinLimits(demands, paths, resources)
      ensures Valid() && this.demands == demands && this.paths == paths
      ensures states == seq(|demands|, _ => NOTHING)
      ensures |this.resources| == |resources| && forall r :: 0 <= r < |resources| ==>
        this.resources[r] == resources[r].(ceiling := resources[r].available, used := 0)
    {
      this.demands, this.paths := demands, paths;
      this.resources := seq(|resources|, r requires 0 <= r < |resources| =>
        resources[r].(ceiling := resources[r].available, used := 0));
      this.states := seq(|demands|, _ => NOTHING);
      new;
      forall r | 0 <= r < |resources| ensures ResourceWithinLimits(this.resources[r]) {
        assert ResourceWithinLimits(resources[r]);
      }
      EmptyBalances(demands, paths, this.resources);
    }

    /** set_ceiling. The books stay balanced as long as no resource carries more than its new ceiling. */
    method SetCeiling(permille: int64)
      requires Valid()
      modifies this`resources
      ensures |resources| == |old(resources)|
      ensures forall r :: 0 <= r < |resources| ==>
        resources[r] == old(resources)[r].(ceiling := CeilingOf(old(resources)[r], permille))
      ensures Valid() <==> forall r :: 0 <= r < |resources| ==> resources[r].used <= resources[r].ceiling
    {
      ghost var before := resources;
      for k := 0 to |resources|
        invariant |resources| == |before|
        invariant forall r :: 0 <= r < k ==> resources[r] == before[r].(ceiling := CeilingOf(before[r], permille))
        invariant forall r :: k <= r < |resources| ==> resources[r] == before[r]
      {
        resources := resources[k := resources[k].(ceiling := CeilingOf(resources[k], permille))];
      }
      forall r | 0 <= r < |resources|
        ensures ResourceWithinLimits(resources[r]) && resources[r].ceiling <= resources[r].available <= MAX_BANDWIDTH
        ensures ResourceOk(before[r], Load(AllShares(states), paths, r)) && resources[r].used == before[r].used
      {
        assert ResourceWithinLimits(before[r]);
      }
      if Valid() {
        forall r | 0 <= r < |resources| ensures resources[r].used <= resources[r].ceiling {
          assert ResourceOk(resources[r], Load(AllShares(states), paths, r));
        }
      }
    }

    /** path_headroom: the least room along the path, 0 as soon as some resource is full. */
    method PathHeadroom(p: PathId) returns (headroom: int64)
      requires Valid() && p < |paths|
      ensures 0 <= headroom <= MAX_BANDWIDTH
      ensures headroom == 0 <==> Full(resources, paths[p])
      ensures headroom > 0 ==>
        forall k :: 0 <= k < |paths[p].resources| ==> headroom <= Room(resources[paths[p].resources[k]])
      ensures headroom > 0 ==>
        exists k :: 0 <= k < |paths[p].resources| && Room(resources[paths[p].resources[k]]) == headroom
    {
      var path := paths[p].resources;
      assert PathWithinLimits(paths[p], |resources|);
      var best: int64 := MAX_INT64 / 8;
      ghost var at := 0;
      for k := 0 to |path|
        invariant 0 < best && (if k == 0 then best == MAX_INT64 / 8 else best <= MAX_BANDWIDTH)
        invariant forall j :: 0 <= j < k ==> best <= Room(resources[path[j]])
        invariant k > 0 ==> at < k && Room(resources[path[at]]) == best
      {
        assert ResourceOk(resources[path[k]], Load(AllShares(states), paths, path[k]));
        var room := Room(resources[path[k]]);
        if room < best {
          best, at := room, k;
        }
        if best <= 0 {
          return 0;
        }
      }
      headroom := 0;
      if best != MAX_INT64 / 8 {
        headroom := best;
      }
    }

    /** consume / release: every resource of the path is charged once, because path resources are distinct. */
    method Consume(p: PathId, amount: int64)
      requires Valid() && p < |paths| && amount >= 0
      requires forall k :: 0 <= k < |paths[p].resources| && paths[p].resources[k] < |resources| ==>
        amount <= Room(resources[paths[p].resources[k]])
      modifies this`resources
      ensures Charged(old(resources), resources, paths[p], amount)
    {
      var path := paths[p].resources;
      assert PathWithinLimits(paths[p], |resources|);
      for k := 0 to |path|
        invariant |resources| == |old(resources)|
        invariant forall r :: 0 <= r < |resources| ==>
          && resources[r].used == old(resources)[r].used + (if r in path[..k] then amount else 0)
          && resources[r].(used := 0) == old(resources)[r].(used := 0)
      {
        assert ResourceOk(old(resources)[path[k]], Load(AllShares(old(states)), paths, path[k]));
        assert path[..k + 1] == path[..k] + [path[k]];
        assert path[k] !in path[..k];
        resources := resources[path[k] := resources[path[k]].(used := SatAdd(resources[path[k]].used, amount))];
      }
      assert path[..|path|] == path;
    }

    method Release(p: PathId, amount: int64)
      requires Valid() && p < |paths| && amount >= 0
      requires forall r :: 0 <= r < |resources| && r in paths[p].resources ==> amount <= resources[r].used
      modifies this`resources
      ensures Charged(old(resources), resources, paths[p], -amount)
    {
      var path := paths[p].resources;
      assert PathWithinLimits(paths[p], |resources|);
      for k := 0 to |path|
        invariant |resources| == |old(resources)|
        invariant forall r :: 0 <= r < |resources| ==>
          && resources[r].used == old(resources)[r].used - (if r in path[..k] then amount else 0)
          && resources[r].(used := 0) == old(resources)[r].(used := 0)
      {
        assert path[..k + 1] == path[..k] + [path[k]];
        assert path[k] !in path[..k];
        var left := resources[path[k]].used - amount;
        resources := resources[path[k] := resources[path[k]].(used := if left > 0 then left else 0)];
      }
      assert path[..|path|] == path;
    }

    /** A share is bounded by the grant of its demand and by the load of every resource it crosses. */
    lemma ShareFacts(d: DemandId, p: PathId)
      requires Valid() && d < |demands| && p < |paths|
      ensures d < |states| && 0 <= Get(states[d].shares, p) <= states[d].granted <= 2 * MAX_BANDWIDTH
      ensures forall r :: 0 <= r < |resources| && r in paths[p].resources ==>
        Get(states[d].shares, p) <= resources[r].used
    {
      assert StateOk(demands[d], states[d], |paths|);
      ShareWithinGrant(demands[d], states[d], p, |paths|);
      forall r | 0 <= r < |resources| && r in paths[p].resources ensures Get(states[d].shares, p) <= resources[r].used {
        assert ResourceOk(resources[r], Load(AllShares(states), paths, r));
        ShareWithinLoad(demands, paths, resources, states, d, p, r);
      }
    }

    method Grant(d: DemandId, p: PathId, amount: int64)
      requires Valid() && d < |demands| && p in demands[d].eligible
      requires states[d].granted + amount <= 2 * MAX_BANDWIDTH
      requires forall k :: 0 <= k < |paths[p].resources| && paths[p].resources[k] < |resources| ==>
        amount <= Room(resources[paths[p].resources[k]])
      modifies this
      ensures Valid()
      ensures amount <= 0 ==> states == old(states) && resources == old(resources)
      ensures amount > 0 ==>
        && 0 <= Get(old(states)[d].shares, p) <= old(states)[d].granted
        && states == old(states)[d := Credited(old(states)[d], p, amount)]
        && Charged(old(resources), resources, paths[p], amount)
    {
      if amount <= 0 {
        return;
      }
      hide Balanced, WithinLimits, Charged, Room;
      EligibleFacts(d, p);
      ShareFacts(d, p);
      var next := DemandState(
        SatAdd(states[d].granted, amount),
        states[d].shares[p := SatAdd(Get(states[d].shares, p), amount)]);
      assert next == Credited(states[d], p, amount);
      Consume(p, amount);
      GrantBalances(demands, paths, old(resources), resources, states, d, p, amount);
      ChargedKeepsLimits(demands, paths, old(resources), resources, paths[p], amount);
      states := states[d := next];
    }

    method Revoke(d: DemandId, p: PathId, amount: int64)
      requires Valid() && d < |demands| && p < |paths| && amount <= Get(states[d].shares, p)
      modifies this
      ensures Valid()
      ensures amount <= 0 ==> states == old(states) && resources == old(resources)
      ensures amount > 0 ==>
        && Get(old(states)[d].shares, p) <= old(states)[d].granted
        && states == old(states)[d := Debited(old(states)[d], p, amount)]
        && Charged(old(resources), resources, paths[p], -amount)
    {
      if amount <= 0 {
        return;
      }
      hide Balanced, WithinLimits, Charged, Room;
      ShareFacts(d, p);
      var state := states[d];
      if p !in state.shares {
        return;
      }
      var taken := if amount < state.shares[p] then amount else state.shares[p];
      var granted, left := state.granted - taken, state.shares[p] - taken;
      var next := DemandState(
        if granted > 0 then granted else 0,
        if left == 0 then state.shares - {p} else state.shares[p := left]);
      assert next == Debited(state, p, amount);
      Release(p, taken);
      RevokeBalances(demands, paths, old(resources), resources, states, d, p, amount);
      ChargedKeepsLimits(demands, paths, old(resources), resources, paths[p], -amount);
      states := states[d := next];
    }

    /** Nothing but the books of demand d changed. */
    twostate predicate OnlyDemand(d: DemandId)
      reads this
    {
      |states| == |old(states)| && forall e :: 0 <= e < |states| && e != d ==> states[e] == old(states)[e]
    }

    lemma EligibleFacts(d: DemandId, p: PathId)
      requires Valid() && d < |demands| && p in demands[d].eligible
      ensures p < |paths| && d < |states| && 0 <= states[d].granted
      ensures 0 <= demands[d].maximum <= MAX_BANDWIDTH
    {
      assert DemandWithinLimits(demands[d], |paths|);
      assert StateOk(demands[d], states[d], |paths|);
    }

    lemma PathResources(p: PathId)
      requires Valid() && p < |paths|
      ensures forall k :: 0 <= k < |paths[p].resources| ==> paths[p].resources[k] < |resources|
    {
      assert PathWithinLimits(paths[p], |resources|);
    }

    lemma RoomInRange(r: ResourceId)
      requires Valid() && r < |resources|
      ensures 0 <= Room(resources[r]) <= MAX_BANDWIDTH
    {
      assert ResourceOk(resources[r], Load(AllShares(states), paths, r));
    }

    /** Takes up to `limit` from one path; whatever is missing afterwards is missing because the path is full. */
    method Take(d: DemandId, p: PathId, limit: int64) returns (taken: int64)
      requires Valid() && d < |demands| && p in demands[d].eligible
      requires 0 < limit && states[d].granted + limit <= 2 * MAX_BANDWIDTH
      modifies this
      ensures Valid() && OnlyDemand(d) && p < |paths| && Grown(old(resources), resources)
      ensures 0 <= taken <= limit && states[d].granted == old(states)[d].granted + taken
      ensures taken < limit ==> Full(resources, paths[p])
      ensures forall q: PathId :: q != p ==> Get(states[d].shares, q) == Get(old(states)[d].shares, q)
      ensures Charged(old(resources), resources, paths[p], taken)
    {
      hide Balanced, WithinLimits;
      EligibleFacts(d, p);
      PathResources(p);
      var headroom := PathHeadroom(p);
      if headroom <= 0 {
        return 0;
      }
      taken := if headroom < limit then headroom else limit;
      Grant(d, p, taken);
      EligibleFacts(d, p);
      ChargedGrows(old(resources), resources, paths[p], taken);
      if taken == headroom {
        BottleneckFills(old(resources), resources, paths[p], taken);
      }
    }

    /**
     Bottleneck filling along the given paths. The maximum is never passed, and if less was placed than
     asked for and allowed, every path of the list is full.
     */
    method Place(d: DemandId, order: seq<PathId>, need: int64) returns (placed: int64)
      requires Valid() && WithinMaxima(demands, states) && d < |demands|
      requires forall k :: 0 <= k < |order| ==> order[k] in demands[d].eligible
      modifies this
      ensures Valid() && WithinMaxima(demands, states) && OnlyDemand(d)
      ensures placed >= 0 && states[d].granted == old(states)[d].granted + placed
      ensures placed > 0 ==> placed <= need
      ensures Grown(old(resources), resources) && GrownBy(old(resources), resources, placed)
      ensures placed < need && states[d].granted < demands[d].maximum ==>
        forall k :: 0 <= k < |order| ==> order[k] < |paths| && Full(resources, paths[order[k]])
    {
      hide Balanced, WithinLimits, Full, Charged, GrownBy;
      NothingGrown(resources);
      MaximumInRange(d);
      var allowed := demands[d].maximum - states[d].granted;
      if allowed <= 0 {
        return 0;
      }
      var wanted: int64 := if need > allowed then allowed else need;
      placed := 0;
      for k := 0 to |order|
        invariant Valid() && OnlyDemand(d) && |states| == |demands|
        invariant 0 <= placed && (placed > 0 ==> placed <= wanted)
        invariant states[d].granted == old(states)[d].granted + placed
        invariant Grown(old(resources), resources) && GrownBy(old(resources), resources, placed)
        invariant placed < wanted ==>
          forall j :: 0 <= j < k ==> order[j] < |paths| && Full(resources, paths[order[j]])
      {
        if placed >= wanted {
          break;
        }
        ghost var before := resources;
        var taken := Take(d, order[k], wanted - placed);
        ChargedGrowsBy(old(resources), before, resources, paths[order[k]], placed, taken);
        placed := SatAdd(placed, taken);
        forall j | 0 <= j < k && placed < wanted ensures Full(resources, paths[order[j]]) {
          FullStaysFull(before, resources, paths[order[j]]);
        }
      }
    }

    lemma MaximumInRange(d: DemandId)
      requires Valid() && d < |demands|
      ensures d < |states| && 0 <= states[d].granted && 0 <= demands[d].maximum <= MAX_BANDWIDTH
    {
      assert DemandWithinLimits(demands[d], |paths|);
      assert StateOk(demands[d], states[d], |paths|);
    }

    /** A mover describes a current, positive share of another demand across the resource. */
    ghost predicate MoverOk(m: Mover, blocked: DemandId, resource: ResourceId)
      reads this`states
    {
      && m.demand < |demands| && m.demand < |states| && m.demand != blocked && m.path < |paths|
      && m.granted == Get(states[m.demand].shares, m.path) > 0
      && resource in paths[m.path].resources
    }

    /** Demand e, other than the blocked one, has bandwidth on a path across the resource. */
    ghost predicate Crosses(blocked: DemandId, resource: ResourceId, e: DemandId, p: PathId)
      reads this`states
    {
      e < |states| && e != blocked && p < |paths| && resource in paths[p].resources && Get(states[e].shares, p) > 0
    }

    method CollectMovers(blocked: DemandId, resource: ResourceId) returns (movers: seq<Mover>)
      requires Valid()
      ensures Apart(movers) && MoversSorted(movers)
      ensures forall m :: m in movers ==>
        MoverOk(m, blocked, resource) && m.demand < |demands| && m.priority == demands[m.demand].priority
      ensures forall e: DemandId, p: PathId :: Crosses(blocked, resource, e, p) ==> Listed(movers, e, p)
    {
      movers := [];
      for d := 0 to |states|
        invariant Apart(movers)
        invariant forall m :: m in movers ==>
          MoverOk(m, blocked, resource) && m.demand < d && m.priority == demands[m.demand].priority
        invariant forall e: DemandId, p: PathId :: Crosses(blocked, resource, e, p) && e < d ==> Listed(movers, e, p)
      {
        if d != blocked {
          for p := 0 to |paths|
            invariant Apart(movers)
            invariant forall m :: m in movers ==>
              MoverOk(m, blocked, resource) && m.priority == demands[m.demand].priority
            invariant forall m :: m in movers ==> m.demand < d || (m.demand == d && m.path < p)
            invariant forall e: DemandId, q: PathId ::
              Crosses(blocked, resource, e, q) && (e < d || (e == d && q < p)) ==> Listed(movers, e, q)
          {
            if p in states[d].shares && states[d].shares[p] > 0 && resource in paths[p].resources {
              ListOneMore(movers, Mover(d, p, states[d].shares[p], demands[d].priority));
              movers := movers + [Mover(d, p, states[d].shares[p], demands[d].priority)];
            }
          }
        }
      }
      SortKeepsApart(movers);
      SortIsSorted(movers);
      forall e: DemandId, p: PathId | Crosses(blocked, resource, e, p)
        ensures Listed(SortMovers(movers), e, p)
      {
        var m :| m in movers && m.demand == e && m.path == p;
        assert m in SortMovers(movers);
      }
      movers := SortMovers(movers);
    }

    /**
     Moves up to `wanted` units of one share onto other paths of its demand that avoid the resource. The
     grants come first and the revocation last; the demand ends up with exactly what it had.
     */
    method Relocate(m: Mover, ghost blocked: DemandId, resource: ResourceId, wanted: int64)
      returns (relocated: int64, steps: nat)
      requires Valid() && WithinMaxima(demands, states) && resource < |resources|
      requires MoverOk(m, blocked, resource) && 0 < wanted <= m.granted
      modifies this
      ensures Valid() && OnlyDemand(m.demand) && states[m.demand].granted == old(states)[m.demand].granted
      ensures 0 <= relocated <= wanted
      ensures SameCeilings(old(resources), resources)
      ensures resources[resource].used == old(resources)[resource].used - relocated
      ensures forall q :: 0 <= q < |paths| && resource in paths[q].resources && q != m.path ==>
        Get(states[m.demand].shares, q) == Get(old(states)[m.demand].shares, q)
      ensures Get(states[m.demand].shares, m.path) == m.granted - relocated
      ensures UsesAlternatives(demands, paths, m, resource, wanted, relocated, old(resources))
    {
      hide Balanced, WithinLimits, GrownBy, Charged, Full;
      var d := m.demand;
      relocated, steps := 0, 0;
      NothingGrown(resources);
      ShareFacts(d, m.path);
      MaximumInRange(d);
      var candidates := demands[d].eligible;
      for k := 0 to |candidates|
        invariant Valid() && OnlyDemand(d) && SameCeilings(old(resources), resources)
        invariant 0 <= relocated <= wanted && states[d].granted == old(states)[d].granted + relocated
        invariant resources[resource].used == old(resources)[resource].used
        invariant forall q :: 0 <= q < |paths| && resource in paths[q].resources ==>
          Get(states[d].shares, q) == Get(old(states)[d].shares, q)
        invariant GrownBy(old(resources), resources, relocated)
        invariant relocated < wanted ==> forall j :: 0 <= j < k && Alternative(paths, m, resource, candidates[j]) ==>
          Full(resources, paths[candidates[j]])
      {
        if relocated >= wanted {
          break;
        }
        var to := candidates[k];
        EligibleFacts(d, to);
        if to != m.path && resource !in paths[to].resources {
          steps := steps + 1;
          ghost var before := resources;
          var taken := Take(d, to, wanted - relocated);
          ChargedElsewhere(before, resources, paths[to], taken, resource);
          ChargedGrowsBy(old(resources), before, resources, paths[to], relocated, taken);
          relocated := SatAdd(relocated, taken);
          forall j | 0 <= j < k && relocated < wanted && Alternative(paths, m, resource, candidates[j])
            ensures Full(resources, paths[candidates[j]])
          {
            FullStaysFull(before, resources, paths[candidates[j]]);
          }
        }
      }
      AlternativesUsed(demands, paths, m, resource, wanted, relocated, old(resources), resources);
      ghost var before := resources;
      if relocated > 0 {
        Revoke(d, m.path, relocated);
        ChargedHere(before, resources, paths[m.path], -relocated, resource);
      }
    }

    /** No demand holds more or less than before. */
    twostate predicate GrantsKept()
      reads this
    {
      |states| == |old(states)| && forall e :: 0 <= e < |states| ==> states[e].granted == old(states)[e].granted
    }

    /**
     repair_resource: relocates other demands' bandwidth off a resource until `deficit` units are free.
     No demand loses anything, the blocked demand is not touched, and the answer says whether the
     resource really carries `deficit` units less.
     */
    method RepairResource(blocked: DemandId, resource: ResourceId, deficit: int64, iterations: nat, maxIterations: nat)
      returns (repaired: bool, spent: nat, ghost run: RepairRun)
      requires Valid() && WithinMaxima(demands, states) && blocked < |demands| && resource < |resources|
      modifies this
      ensures Valid() && GrantsKept() && states[blocked] == old(states)[blocked]
      ensures SameCeilings(old(resources), resources)
      ensures repaired <==> resources[resource].used <= old(resources)[resource].used - deficit
      ensures spent >= iterations
      ensures IsRepairRun(demands, paths, resource, deficit, run)
      ensures run.trail[0] == Books(old(states), old(resources))
      ensures run.trail[|run.trail| - 1] == Books(states, resources)
      ensures old(forall e: DemandId, p: PathId :: Crosses(blocked, resource, e, p) ==> Listed(run.movers, e, p))
      ensures |run.trail| - 1 < |run.movers| ==> repaired || spent > maxIterations
    {
      hide Balanced, WithinLimits, UsesAlternatives;
      spent := iterations;
      MaximumInRange(blocked);
      var movers := CollectMovers(blocked, resource);
      var missing: int := deficit;
      run := RepairRun(movers, [Books(states, resources)], []);
      assert SameCeilings(resources, resources) by { NothingChanged(resources); }
      for k := 0 to |movers|
        invariant run.movers == movers && |run.moved| == k && IsRepairRun(demands, paths, resource, deficit, run)
        invariant run.trail[0] == Books(old(states), old(resources)) && run.trail[k] == Books(states, resources)
        invariant missing == Missing(deficit, run.moved, k)
        invariant Valid() && GrantsKept() && blocked < |states| && states[blocked] == old(states)[blocked]
        invariant SameCeilings(old(resources), resources)
        invariant forall j :: k <= j < |movers| ==> MoverOk(movers[j], blocked, resource)
        invariant resources[resource].used == old(resources)[resource].used - (deficit - missing)
        invariant missing <= deficit && (deficit > 0 ==> missing >= 0)
        invariant spent >= iterations
      {
        if missing <= 0 || spent > maxIterations {
          break;
        }
        var m := movers[k];
        var wanted: int64 := if missing < m.granted then missing else m.granted;
        label before:
        var relocated, steps := Relocate(m, blocked, resource, wanted);
        spent := spent + steps;
        ContinueRun(demands, paths, resource, deficit, run, relocated, Books(states, resources));
        run := Continue(run, relocated, Books(states, resources));
        missing := missing - relocated;
        forall j | k + 1 <= j < |movers| ensures MoverOk(movers[j], blocked, resource) {
          assert old@before(MoverOk(movers[j], blocked, resource));
          assert !SameShare(movers[k], movers[j]);
        }
      }
      repaired := missing <= 0;
    }

    /**
     consolidate_paths: moves bandwidth from later-preferred onto earlier-preferred paths. No demand's
     grant changes and only the books of d are touched.
     */
    method ConsolidatePaths(d: DemandId, preferred: seq<PathId>)
      requires Valid() && WithinMaxima(demands, states) && d < |demands|
      requires Distinct(preferred) && forall k :: 0 <= k < |preferred| ==> preferred[k] in demands[d].eligible
      modifies this
      ensures Valid() && OnlyDemand(d) && GrantsKept()
      ensures SameCeilings(old(resources), resources)
      // The least preferred path gives up as much as any other path had room for.
      ensures |old(states)[d].shares| >= 2 && preferred != [] ==>
        LastGivesUp(paths, preferred, old(resources), old(states)[d], states[d])
      ensures |old(states)[d].shares| < 2 ==> states == old(states)
    {
      hide Balanced, WithinLimits, Charged, Full;
      MaximumInRange(d);
      if |states[d].shares| < 2 {
        return;
      }
      for k := |preferred| downto 0
        invariant Valid() && OnlyDemand(d) && GrantsKept() && SameCeilings(old(resources), resources)
        invariant k == |preferred| ==> states == old(states) && resources == old(resources)
        invariant 0 <= k < |preferred| ==> LastGivesUp(paths, preferred, old(resources), old(states)[d], states[d])
      {
        ghost var held, first := states[d].shares, resources;
        var from := preferred[k];
        EligibleFacts(d, from);
        if from in states[d].shares && states[d].shares[from] > 0 {
          ShareFacts(d, from);
          var moveable := states[d].shares[from];
          var moved: int64 := 0;
          NothingGrown(resources);
          for t := 0 to |preferred|
            invariant Valid() && OnlyDemand(d) && SameCeilings(old(resources), resources)
            invariant 0 <= moved <= moveable && states[d].granted == old(states)[d].granted + moved
            invariant Get(states[d].shares, from) == moveable <= demands[d].maximum
            invariant k < |preferred| - 1 ==>
              Get(states[d].shares, preferred[|preferred| - 1]) == Get(held, preferred[|preferred| - 1])
            invariant GrownBy(first, resources, moved) && t <= k
            invariant moved < moveable ==>
              forall j :: 0 <= j < t ==> preferred[j] < |paths| && Full(resources, paths[preferred[j]])
          {
            if moved >= moveable || preferred[t] == from {
              break;
            }
            ghost var before := resources;
            var taken := Take(d, preferred[t], moveable - moved);
            ChargedGrowsBy(first, before, resources, paths[preferred[t]], moved, taken);
            moved := SatAdd(moved, taken);
            forall j | 0 <= j < t && moved < moveable
              ensures Full(resources, paths[preferred[j]])
            {
              FullStaysFull(before, resources, paths[preferred[j]]);
            }
          }
          if k == |preferred| - 1 { GivesUp(paths, preferred, first, resources, moveable, moved); }
          if moved > 0 {
            ghost var before := resources;
            Revoke(d, from, moved);
            ChargedKeepsCeilings(before, resources, paths[from], -moved);
          }
        }
      }
    }
  }
}
