/** The construction phases of solve() in src/solver.cpp: hard minimums, soft targets, consolidation. */
module Construction {
  import opened Numeric
  import opened Fabric
  import opened Relaxation
  import opened LedgerState
  import opened Ledger

  /** order_paths: some permutation of the eligible paths, which may depend on the state so far. */
  type Preference = (DemandId, seq<DemandState>) -> seq<PathId>

  ghost predicate PermutesEligible(prefer: Preference, demands: seq<DemandDerivation>) {
    forall d: DemandId, states: seq<DemandState> :: d < |demands| ==>
      && Distinct(prefer(d, states))
      && forall p :: p in prefer(d, states) <==> p in demands[d].eligible
  }

  /** No demand holds less than before. */
  ghost predicate NoneLoses(before: seq<DemandState>, after: seq<DemandState>) {
    |after| == |before| && forall d :: 0 <= d < |before| ==> before[d].granted <= after[d].granted
  }

  predicate BelowFloor(demand: DemandDerivation, state: DemandState) {
    demand.active && !demand.excluded && state.granted < demand.floor
  }

  /** Number of participating demands whose floor was not placed. */
  ghost function UnmetCount(demands: seq<DemandDerivation>, states: seq<DemandState>): nat
    requires |states| == |demands|
  {
    if demands == [] then 0
    else
      var m := |demands| - 1;
      UnmetCount(demands[..m], states[..m]) + (if BelowFloor(demands[m], states[m]) then 1 else 0)
  }

  lemma {:induction false} UnmetNone(demands: seq<DemandDerivation>, states: seq<DemandState>)
    requires |states| == |demands|
    ensures UnmetCount(demands, states) == 0 <==> forall d :: 0 <= d < |demands| ==> !BelowFloor(demands[d], states[d])
  {
    if demands != [] {
      UnmetNone(demands[..|demands| - 1], states[..|demands| - 1]);
    }
  }

  /** One round of repair: frees room for `need` units on some preferred path, if it can. */
  method RepairRound(target: Problem, d: DemandId, preferred: seq<PathId>, need: int64, iterations: nat,
                     maxIterations: nat)
    returns (progressed: bool, spent: nat)
    requires target.Valid() && WithinMaxima(target.demands, target.states) && d < |target.demands|
    requires forall k :: 0 <= k < |preferred| ==> preferred[k] in target.demands[d].eligible
    modifies target
    ensures target.Valid() && target.GrantsKept() && target.states[d] == old(target.states)[d]
    ensures SameCeilings(old(target.resources), target.resources)
  {
    hide Balanced, WithinLimits;
    progressed, spent := false, iterations;
    target.MaximumInRange(d);
    for k := 0 to |preferred|
      invariant target.Valid() && target.GrantsKept() && d < |target.states|
      invariant target.states[d] == old(target.states)[d]
      invariant SameCeilings(old(target.resources), target.resources)
    {
      target.EligibleFacts(d, preferred[k]);
      target.PathResources(preferred[k]);
      var path := target.paths[preferred[k]].resources;
      for j := 0 to |path|
        invariant target.Valid() && target.GrantsKept() && d < |target.states|
        invariant target.states[d] == old(target.states)[d]
        invariant SameCeilings(old(target.resources), target.resources)
      {
        target.RoomInRange(path[j]);
        var headroom: int64 := Room(target.resources[path[j]]);
        if headroom >= need {
          progressed := true;
          break;
        }
        var repaired;
        ghost var run;
        repaired, spent, run := target.RepairResource(d, path[j], need - headroom, spent, maxIterations);
        if repaired {
          progressed := true;
        }
      }
      if progressed {
        break;
      }
    }
  }

  /**
   What placing one floor achieves at least: the floor, the maximum, or as much more as any eligible path had
   room for at the beginning.
   */
  ghost predicate FloorPlaced(demand: DemandDerivation, paths: seq<CandidatePath>, before: seq<ResourceState>, was: int,
                              now: int) {
    now >= demand.floor || now >= demand.maximum
    || forall p: PathId, amount: int :: EligibleRoom(demand, paths, before, p, amount) ==> now >= was + amount
  }

  ghost predicate EligibleRoom(demand: DemandDerivation, paths: seq<CandidatePath>, before: seq<ResourceState>,
                               p: PathId, amount: int) {
    p in demand.eligible && p < |paths| && HasRoom(before, paths[p], amount)
  }

  lemma DirectlyPlaced(demand: DemandDerivation, paths: seq<CandidatePath>, preferred: seq<PathId>,
                       before: seq<ResourceState>,
                       after: seq<ResourceState>, was: int, placed: int)
    requires GrownBy(before, after, placed) && forall p :: p in preferred <==> p in demand.eligible
    requires was + placed >= demand.floor || was + placed >= demand.maximum
      || forall k :: 0 <= k < |preferred| ==> preferred[k] < |paths| && Full(after, paths[preferred[k]])
    ensures FloorPlaced(demand, paths, before, was, was + placed)
  {
    hide Full, GrownBy;
    if was + placed < demand.floor && was + placed < demand.maximum {
      forall p: PathId, amount: int | EligibleRoom(demand, paths, before, p, amount)
        ensures was + placed >= was + amount
      {
        var k :| 0 <= k < |preferred| && preferred[k] == p;
        FilledUp(before, after, paths[p], placed, amount);
      }
    }
  }

  /** No demand but d is granted anything. */
  twostate predicate OnlyGrants(target: Problem, d: DemandId)
    reads target
  {
    && |target.states| == |old(target.states)|
    && forall e :: 0 <= e < |target.states| && e != d ==> target.states[e].granted == old(target.states)[e].granted
  }

  /** Places one floor: first directly, then with up to four rounds of repair. */
  method PlaceFloor(target: Problem, d: DemandId, prefer: Preference, iterations: nat,
                    maxIterations: nat) returns (spent: nat)
    requires target.Valid() && WithinMaxima(target.demands, target.states) && d < |target.demands|
    requires PermutesEligible(prefer, target.demands)
    modifies target
    ensures target.Valid() && WithinMaxima(target.demands, target.states)
    ensures NoneLoses(old(target.states), target.states)
    ensures SameCeilings(old(target.resources), target.resources)
    ensures FloorPlaced(target.demands[d], target.paths, old(target.resources), old(target.states)[d].granted,
      target.states[d].granted)
    ensures OnlyGrants(target, d)
    ensures old(target.states)[d].granted <= 0 <= target.demands[d].floor ==>
      target.states[d].granted <= target.demands[d].floor
  {
    hide Balanced, WithinLimits, Full, GrownBy, FloorPlaced;
    spent := iterations;
    var preferred := prefer(d, target.states);
    target.MaximumInRange(d);
    var floor := target.demands[d].floor;
    var placed := target.Place(d, preferred, floor);
    DirectlyPlaced(target.demands[d], target.paths, preferred, old(target.resources), target.resources,
      old(target.states)[d].granted, placed);
    ghost var direct := target.states[d].granted;
    var rounds := 0;
    while target.states[d].granted < floor && rounds < 4 && spent <= maxIterations
      invariant target.Valid() && WithinMaxima(target.demands, target.states)
      invariant NoneLoses(old(target.states), target.states) && direct <= target.states[d].granted
      invariant OnlyGrants(target, d)
      invariant old(target.states)[d].granted <= 0 <= floor ==> target.states[d].granted <= floor
      invariant SameCeilings(old(target.resources), target.resources)
      decreases 4 - rounds
    {
      rounds := rounds + 1;
      target.MaximumInRange(d);
      var progressed;
      progressed, spent := RepairRound(target, d, preferred, floor - target.states[d].granted, spent, maxIterations);
      if !progressed {
        break;
      }
      target.MaximumInRange(d);
      placed := target.Place(d, preferred, floor - target.states[d].granted);
    }
    MoreIsPlaced(target.demands[d], target.paths, old(target.resources), old(target.states)[d].granted, direct,
      target.states[d].granted);
  }

  lemma MoreIsPlaced(demand: DemandDerivation, paths: seq<CandidatePath>, before: seq<ResourceState>, was: int,
                     now: int, more: int)
    requires FloorPlaced(demand, paths, before, was, now) && now <= more
    ensures FloorPlaced(demand, paths, before, was, more)
  {
  }

  /** The books after each demand of the order has been dealt with in turn. */
  ghost predicate MinimumsRun(demands: seq<DemandDerivation>, paths: seq<CandidatePath>, order: seq<DemandId>,
                              trail: seq<Books>) {
    && |trail| == |order| + 1
    && forall k :: 0 <= k < |order| ==> MinimumStep(demands, paths, order[k], trail[k], trail[k + 1])
  }

  ghost predicate MinimumStep(demands: seq<DemandDerivation>, paths: seq<CandidatePath>, d: DemandId, before: Books,
                              after: Books) {
    && d < |demands| && d < |before.states| && NoneLoses(before.states, after.states)
    && if demands[d].excluded then after == before
       else FloorPlaced(demands[d], paths, before.resources, before.states[d].granted, after.states[d].granted)
  }

  /** Some such run leads from one state of the books to the other. */
  ghost predicate MinimumsPlaced(demands: seq<DemandDerivation>, paths: seq<CandidatePath>, order: seq<DemandId>,
                                 from: Books, to: Books) {
    exists trail: seq<Books> :: MinimumsRun(demands, paths, order, trail) && trail[0] == from && trail[|order|] == to
  }

  /** What a demand may be granted at most: nothing unless it takes part, then what it asks for within its maximum. */
  function Limit(d: DemandDerivation): int64 {
    if d.excluded || !d.active then 0 else Target(d)
  }

  ghost predicate Modest(demands: seq<DemandDerivation>, states: seq<DemandState>) {
    |states| == |demands| && forall d :: 0 <= d < |demands| ==> states[d].granted <= Limit(demands[d])
  }

  ghost predicate NothingGranted(states: seq<DemandState>) {
    forall d :: 0 <= d < |states| ==> states[d].granted == 0
  }

  /** Each demand of the list is dealt with once, and takes part in the planning. */
  predicate Participants(demands: seq<DemandDerivation>, order: seq<DemandId>) {
    Distinct(order) && forall k :: 0 <= k < |order| ==> order[k] < |demands| && demands[order[k]].active
  }

  lemma FloorsNonNegative(target: Problem)
    requires target.Valid()
    ensures forall d :: 0 <= d < |target.demands| ==> target.demands[d].floor >= 0
  {
    forall d | 0 <= d < |target.demands| ensures target.demands[d].floor >= 0 {
      assert DemandWithinLimits(target.demands[d], |target.paths|);
    }
  }

  lemma FloorsAreModest(target: Problem)
    requires target.Valid() && WithinMaxima(target.demands, target.states)
    requires forall d :: 0 <= d < |target.demands| ==>
      (target.demands[d].excluded || !target.demands[d].active ==> target.states[d].granted == 0)
      && target.states[d].granted <= target.demands[d].floor
    ensures Modest(target.demands, target.states)
  {
    forall d | 0 <= d < |target.demands| ensures target.states[d].granted <= Limit(target.demands[d]) {
      assert DemandWithinLimits(target.demands[d], |target.paths|);
    }
  }

  /** run_minimums: every participating floor in order, then the number that could not be placed. */
  method RunMinimums(target: Problem, order: seq<DemandId>, prefer: Preference, iterations: nat, maxIterations: nat)
    returns (unmet: nat, spent: nat)
    requires target.Valid() && WithinMaxima(target.demands, target.states)
    requires PermutesEligible(prefer, target.demands) && forall k :: 0 <= k < |order| ==> order[k] < |target.demands|
    modifies target
    ensures target.Valid() && WithinMaxima(target.demands, target.states)
    ensures NoneLoses(old(target.states), target.states)
    ensures SameCeilings(old(target.resources), target.resources)
    ensures unmet == UnmetCount(target.demands, target.states)
    ensures MinimumsPlaced(target.demands, target.paths, order,
      Books(old(target.states), old(target.resources)), Books(target.states, target.resources))
    ensures NothingGranted(old(target.states)) && Participants(target.demands, order) ==>
      Modest(target.demands, target.states)
  {
    hide Balanced, WithinLimits, FloorPlaced;
    spent := iterations;
    FloorsNonNegative(target);
    ghost var trail := [Books(target.states, target.resources)];
    for k := 0 to |order|
      invariant target.Valid() && WithinMaxima(target.demands, target.states)
      invariant NoneLoses(old(target.states), target.states)
      invariant SameCeilings(old(target.resources), target.resources)
      invariant MinimumsRun(target.demands, target.paths, order[..k], trail)
      invariant trail[0] == Books(old(target.states), old(target.resources))
      invariant trail[k] == Books(target.states, target.resources)
      invariant NothingGranted(old(target.states)) && Participants(target.demands, order) ==>
        forall d :: 0 <= d < |target.demands| ==>
          (d !in order[..k] || target.demands[d].excluded ==> target.states[d].granted == 0)
          && target.states[d].granted <= target.demands[d].floor
    {
      assert order[..k + 1] == order[..k] + [order[k]];
      if !target.demands[order[k]].excluded {
        spent := PlaceFloor(target, order[k], prefer, spent, maxIterations);
      }
      trail := trail + [Books(target.states, target.resources)];
    }
    assert order[..|order|] == order;
    if NothingGranted(old(target.states)) && Participants(target.demands, order) { FloorsAreModest(target); }
    unmet := 0;
    for d := 0 to |target.demands|
      invariant unmet == UnmetCount(target.demands[..d], target.states[..d])
    {
      assert target.demands[..d + 1][..d] == target.demands[..d] && target.states[..d + 1][..d] == target.states[..d];
      if BelowFloor(target.demands[d], target.states[d]) {
        unmet := unmet + 1;
      }
    }
    assert target.demands[..|target.demands|] == target.demands && target.states[..|target.states|] == target.states;
  }

  // ---- Soft targets -----------------------------------------------------------

  function Target(d: DemandDerivation): (t: int64)
    ensures t <= d.desired && t <= d.maximum && (t == d.desired || t == d.maximum)
  {
    if d.desired < d.maximum then d.desired else d.maximum
  }

  /** The demand has its target, or every one of its eligible paths is full. */
  ghost predicate Satisfied(demand: DemandDerivation, state: DemandState, paths: seq<CandidatePath>,
                            resources: seq<ResourceState>) {
    || state.granted >= Target(demand)
    || forall p :: p in demand.eligible ==> p < |paths| && Full(resources, paths[p])
  }

  lemma SatisfiedPersists(demand: DemandDerivation, state: DemandState, paths: seq<CandidatePath>,
                          before: seq<ResourceState>, after: seq<ResourceState>)
    requires Satisfied(demand, state, paths, before) && Grown(before, after)
    ensures Satisfied(demand, state, paths, after)
  {
    if state.granted < Target(demand) {
      forall p | p in demand.eligible ensures p < |paths| && Full(after, paths[p]) {
        FullStaysFull(before, after, paths[p]);
      }
    }
  }

  /** Every demand of the set has been dealt with. */
  ghost predicate WorkConserving(target: Problem, done: multiset<DemandId>)
    reads target
  {
    forall d :: d in done ==>
      && d < |target.demands| && d < |target.states|
      && (target.demands[d].excluded || Satisfied(target.demands[d], target.states[d], target.paths, target.resources))
  }

  /** What soft filling keeps from step to step. */
  twostate predicate Filling(target: Problem, done: multiset<DemandId>)
    reads target
  {
    && target.Valid() && WithinMaxima(target.demands, target.states)
    && NoneLoses(old(target.states), target.states)
    && Grown(old(target.resources), target.resources)
    && WorkConserving(target, done)
    && (old(Modest(target.demands, target.states)) ==> Modest(target.demands, target.states))
  }

  /** fill_one: tops a demand up to its target. */
  method FillOne(target: Problem, d: DemandId, prefer: Preference, ghost done: multiset<DemandId>)
    requires target.Valid() && WithinMaxima(target.demands, target.states) && d < |target.demands|
    requires target.demands[d].active
    requires PermutesEligible(prefer, target.demands) && WorkConserving(target, done)
    modifies target
    ensures Filling(target, done + multiset{d})
  {
    hide Balanced, WithinLimits, Full;
    target.MaximumInRange(d);
    if target.demands[d].excluded {
      return;
    }
    var goal := Target(target.demands[d]);
    if target.states[d].granted >= goal {
      return;
    }
    var preferred := prefer(d, target.states);
    var placed := target.Place(d, preferred, goal - target.states[d].granted);
    if target.states[d].granted < goal {
      forall p | p in target.demands[d].eligible ensures p < |target.paths| && Full(target.resources, target.paths[p]) {
        assert p in preferred;
      }
    }
    forall e | e in done && e != d && !target.demands[e].excluded
      ensures Satisfied(target.demands[e], target.states[e], target.paths, target.resources)
    {
      SatisfiedPersists(target.demands[e], target.states[e], target.paths, old(target.resources), target.resources);
    }
  }

  /** Without the fairness term: every demand once, in processing order. */
  method FillInOrder(target: Problem, order: seq<DemandId>, prefer: Preference)
    requires target.Valid() && WithinMaxima(target.demands, target.states)
    requires PermutesEligible(prefer, target.demands)
    requires forall k :: 0 <= k < |order| ==> order[k] < |target.demands| && target.demands[order[k]].active
    modifies target
    ensures Filling(target, multiset(order))
  {
    hide Balanced, WithinLimits, Full;
    assert order[..0] == [];
    for k := 0 to |order|
      invariant Filling(target, multiset(order[..k]))
    {
      FillOne(target, order[k], prefer, multiset(order[..k]));
      assert order[..k + 1] == order[..k] + [order[k]];
    }
    assert order[..|order|] == order;
  }

  // ---- Round-robin over tenants --------------------------------------------------

  type Groups = seq<seq<DemandId>>

  /** The first k members of a group. */
  function FirstOf(group: seq<DemandId>, k: nat): seq<DemandId> {
    if k < |group| then group[..k] else group
  }

  /** Members visited when tenants before t have had round + 1 turns and the others `round` turns. */
  ghost function Visited(groups: Groups, t: nat, round: nat): multiset<DemandId> {
    if groups == [] then multiset{}
    else
      var m := |groups| - 1;
      Visited(groups[..m], t, round) + multiset(FirstOf(groups[m], if m < t then round + 1 else round))
  }

  ghost function Everyone(groups: Groups): multiset<DemandId> {
    if groups == [] then multiset{}
    else Everyone(groups[..|groups| - 1]) + multiset(groups[|groups| - 1])
  }

  lemma OneMore(group: seq<DemandId>, k: nat)
    ensures multiset(FirstOf(group, k + 1))
      == multiset(FirstOf(group, k)) + (if k < |group| then multiset{group[k]} else multiset{})
  {
    if k < |group| {
      assert FirstOf(group, k + 1) == FirstOf(group, k) + [group[k]];
    }
  }

  lemma {:induction false} VisitNext(groups: Groups, t: nat, round: nat)
    requires t < |groups|
    ensures Visited(groups, t + 1, round)
      == Visited(groups, t, round) + (if round < |groups[t]| then multiset{groups[t][round]} else multiset{})
  {
    hide FirstOf;
    var m := |groups| - 1;
    if t == m {
      VisitSame(groups[..m], t, round);
      OneMore(groups[m], round);
    } else {
      VisitNext(groups[..m], t, round);
    }
  }

  /** Tenants beyond the list do not matter. */
  lemma {:induction false} VisitSame(groups: Groups, t: nat, round: nat)
    requires |groups| <= t
    ensures Visited(groups, t + 1, round) == Visited(groups, t, round)
  {
    if groups != [] { VisitSame(groups[..|groups| - 1], t, round); }
  }

  lemma {:induction false} NextRound(groups: Groups, t: nat, round: nat)
    requires |groups| <= t
    ensures Visited(groups, t, round) == Visited(groups, 0, round + 1)
  {
    if groups != [] { NextRound(groups[..|groups| - 1], t, round); }
  }

  lemma {:induction false} AllVisited(groups: Groups, round: nat)
    requires forall t :: 0 <= t < |groups| ==> |groups[t]| <= round
    ensures Visited(groups, 0, round) == Everyone(groups)
  {
    if groups != [] { AllVisited(groups[..|groups| - 1], round); }
  }

  lemma {:induction false} NoneVisited(groups: Groups)
    ensures Visited(groups, 0, 0) == multiset{}
  {
    if groups != [] { NoneVisited(groups[..|groups| - 1]); }
  }

  lemma {:induction false} JoinGroup(groups: Groups, t: nat, d: DemandId)
    requires t < |groups|
    ensures Everyone(groups[t := groups[t] + [d]]) == Everyone(groups) + multiset{d}
  {
    var m := |groups| - 1;
    var groups' := groups[t := groups[t] + [d]];
    if t == m {
      assert groups'[..m] == groups[..m];
    } else {
      JoinGroup(groups[..m], t, d);
      assert groups'[..m] == groups[..m][t := groups[t] + [d]];
    }
  }

  lemma {:induction false} NobodyYet(groups: Groups)
    requires forall t :: 0 <= t < |groups| ==> groups[t] == []
    ensures Everyone(groups) == multiset{}
  {
    if groups != [] { NobodyYet(groups[..|groups| - 1]); }
  }

  ghost predicate MembersActive(groups: Groups, demands: seq<DemandDerivation>) {
    forall t :: 0 <= t < |groups| ==> forall d :: d in groups[t] ==> d < |demands| && demands[d].active
  }

  /** by_tenant: the processing order split by tenant; tenants without a demand have an empty group. */
  method GroupByTenant(demands: seq<DemandDerivation>, order: seq<DemandId>, tenants: nat) returns (groups: Groups)
    requires forall k :: 0 <= k < |order| ==> order[k] < |demands| && demands[order[k]].active
    requires forall d :: 0 <= d < |demands| ==> demands[d].tenant < tenants
    ensures |groups| == tenants && Everyone(groups) == multiset(order)
    ensures MembersActive(groups, demands)
  {
    hide Everyone;
    groups := seq(tenants, _ => []);
    NobodyYet(groups);
    assert order[..0] == [];
    for k := 0 to |order|
      invariant |groups| == tenants && Everyone(groups) == multiset(order[..k])
      invariant MembersActive(groups, demands)
    {
      var t := demands[order[k]].tenant;
      JoinGroup(groups, t, order[k]);
      groups := groups[t := groups[t] + [order[k]]];
      assert order[..k + 1] == order[..k] + [order[k]];
    }
    assert order[..|order|] == order;
  }

  method MostMembers(groups: Groups) returns (rounds: nat)
    ensures forall t :: 0 <= t < |groups| ==> |groups[t]| <= rounds
  {
    rounds := 0;
    for t := 0 to |groups|
      invariant forall s :: 0 <= s < t ==> |groups[s]| <= rounds
    {
      if rounds < |groups[t]| { rounds := |groups[t]|; }
    }
  }

  /** One round: the next demand of each tenant. */
  method FillRound(target: Problem, groups: Groups, round: nat, prefer: Preference)
    requires target.Valid() && WithinMaxima(target.demands, target.states)
    requires PermutesEligible(prefer, target.demands) && MembersActive(groups, target.demands)
    requires WorkConserving(target, Visited(groups, 0, round))
    modifies target
    ensures Filling(target, Visited(groups, 0, round + 1))
  {
    hide Balanced, WithinLimits, Full, Satisfied, Visited, Everyone, PermutesEligible;
    for t := 0 to |groups|
      invariant Filling(target, Visited(groups, t, round))
    {
      VisitNext(groups, t, round);
      if round < |groups[t]| {
        assert groups[t][round] in groups[t];
        FillOne(target, groups[t][round], prefer, Visited(groups, t, round));
      }
    }
    NextRound(groups, |groups|, round);
  }

  /** With the fairness term: one demand per tenant and round, so every demand exactly once. */
  method FillByTenant(target: Problem, order: seq<DemandId>, tenants: nat, prefer: Preference)
    requires target.Valid() && WithinMaxima(target.demands, target.states)
    requires PermutesEligible(prefer, target.demands)
    requires forall k :: 0 <= k < |order| ==> order[k] < |target.demands| && target.demands[order[k]].active
    requires forall d :: 0 <= d < |target.demands| ==> target.demands[d].tenant < tenants
    modifies target
    ensures Filling(target, multiset(order))
  {
    hide Balanced, WithinLimits, Full, Satisfied, Visited, Everyone, PermutesEligible;
    var groups := GroupByTenant(target.demands, order, tenants);
    var rounds := MostMembers(groups);
    NoneVisited(groups);
    for round := 0 to rounds
      invariant Filling(target, Visited(groups, 0, round))
    {
      FillRound(target, groups, round, prefer);
    }
    AllVisited(groups, rounds);
  }
}
