/** The planning engine as an object: src/engine.cpp, with every mutating operation proved against its model. */
module EngineObject {
  import opened Numeric
  import opened PlanLifecycle
  import opened Authority
  import opened PlanLog
  import opened EngineModel
  import opened EngineSafety
  import Verifier

  /** The plan identities, each once. */
  method Identities(plans: Plans) returns (order: seq<nat>)
    ensures Lists(order, plans)
  {
    var rest := plans.Keys;
    order := [];
    while rest != {}
      invariant rest <= plans.Keys
      invariant forall id :: id in plans <==> id in rest || id in order
      invariant forall id :: id in order ==> id !in rest
      invariant forall i, j :: 0 <= i < j < |order| ==> order[i] != order[j]
      decreases |rest|
    {
      var id :| id in rest;
      rest := rest - {id};
      order := order + [id];
    }
  }

  class Engine {
    const config: Config
    var plans: Plans
    var incumbent: PlanRef
    var live: Option<Live>
    var log: seq<Plan>          // the plan records that were read at recovery, and those appended since

    ghost function State(): State
      reads this
    {
      EngineModel.State(plans, incumbent, live, log)
    }

    ghost predicate Valid()
      reads this
    {
      Invariant(State())
    }

    constructor (config: Config)
      ensures this.config == config && State() == START && Valid()
    {
      this.config := config;
      plans, incumbent, live, log := map[], NO_PLAN, None, [];
      new;
      assert Fold([]) == map[];
    }

    /** Update a plan in memory and append the record. */
    method Store(p: Plan)
      modifies this`plans, this`log
      ensures State() == Put(old(State()), p)
    {
      plans := plans[p.id := p];
      log := log + [p];
    }

    method SubmitSnapshot(snapshot: Live) returns (outcome: Outcome, order: seq<nat>)
      requires Valid()
      modifies this`plans, this`live, this`log
      ensures Valid() && Lists(order, old(plans))
      ensures (State(), outcome) == Submit(old(State()), snapshot, order)
    {
      hide Invariant, Outdated;
      ghost var before := State();
      order := Identities(plans);
      SubmitKeeps(before, snapshot, order);
      if !snapshot.Admissible() { return Refused(InvalidStructure), order; }
      live := Some(snapshot);
      assert order[..0] == [];
      for i := 0 to |order|
        invariant live == Some(snapshot) && incumbent == before.incumbent
        invariant State() == StaleAll(before, snapshot, order[..i]).(live := Some(snapshot))
        invariant Invariant(StaleAll(before, snapshot, order[..i])) && plans.Keys == before.plans.Keys
      {
        StaleAllKeeps(before, snapshot, order[..i + 1]);
        assert order[..i + 1][..i] == order[..i];
        var id := order[i];
        PlanFacts(StaleAll(before, snapshot, order[..i]), id);
        if Outdated(plans[id], snapshot) { Store(Staled(plans[id])); }
      }
      assert order[..|order|] == order;
      outcome := Done;
    }

    method Declare(request: DeclareRequest) returns (outcome: Outcome)
      requires Valid()
      modifies this`plans, this`log
      ensures Valid() && (State(), outcome) == EngineModel.Declare(old(State()), config, request)
    {
      hide Invariant;
      DeclareKeeps(State(), config, request);
      if live.None? { return Refused(StaleAuthority); }
      if request.plan == 0 || request.attempt == 0 || request.attemptGeneration == 0
         || request.publisher == 0 || request.publisherBoot == 0 {
        return Refused(InvalidArgument);
      }
      if config.incarnation == 0 { return Refused(InvalidGeneration); }
      if |plans| >= config.maxRecords { return Refused(LimitExceeded); }
      if request.plan in plans { return Refused(DuplicateIdentity); }
      Store(Plan(request.plan, 1, Declared, NotEvaluated, live.value.authority, request.publisher,
        request.publisherBoot,
                 request.attempt, request.attemptGeneration, Verifier.Allocation([], false), NoIncumbent, 0, 0, 0,
                   NO_PLAN, NO_PLAN));
      outcome := Done;
    }

    /** The plan found under a reference, unless the reference or the plan's state forbids the operation. */
    method Find(ref: PlanRef, target: PlanState) returns (error: Option<Error>)
      ensures error == Check(State(), ref, target)
    {
      if ref.id !in plans { return Some(NotFound); }
      if plans[ref.id].generation != ref.generation { return Some(StaleAuthority); }
      if !CanTransition(plans[ref.id].state, target) { return Some(InvalidTransition); }
      error := None;
    }

    method Validate(ref: PlanRef) returns (outcome: Outcome)
      requires Valid()
      modifies this`plans, this`log
      ensures Valid() && (State(), outcome) == EngineModel.Validate(old(State()), ref)
    {
      hide Invariant, CompareAuthority, CanTransition;
      ValidateKeeps(State(), ref);
      var error := Find(ref, Validated);
      if error.Some? { return Refused(error.value); }
      PlanFacts(State(), ref.id);
      var plan := plans[ref.id];
      if live.None? {
        plans := plans[ref.id := Staled(plan)];
        return Refused(StaleAuthority);
      }
      var delta := CompareAuthority(plan.authority, live.value.authority);
      if !delta.Identical() {
        Store(Staled(plan));
        return Refused(StaleAuthority);
      }
      Store(plan.(state := Validated, applicability := Current));
      outcome := Done;
    }

    /** The result of the solver and of the churn comparison is an input. */
    method Solve(ref: PlanRef, result: SolveResult) returns (outcome: Outcome)
      requires Valid()
      modifies this`plans, this`log
      ensures Valid() && (State(), outcome) == EngineModel.Solve(old(State()), ref, result)
    {
      hide Invariant, CompareAuthority, CanTransition;
      SolveKeeps(State(), ref, result);
      var error := Find(ref, Solving);
      if error.Some? { return Refused(error.value); }
      PlanFacts(State(), ref.id);
      var plan := plans[ref.id];
      if live.None? { return Refused(StaleAuthority); }
      var delta := CompareAuthority(plan.authority, live.value.authority);
      if !delta.Identical() {
        Store(Staled(plan));
        return Refused(StaleAuthority);
      }
      plan := plan.(state := Solving);
      match result {
        case SolveError =>
          Store(plan.(state := Rejected, applicability := NotEvaluated));
          return Refused(SolverError);
        case Solved(status, allocation, churn) =>
          plan := plan.(allocation := allocation, churn := churn);
          match status {
            case Feasible => plan := plan.(state := Proposed);
            case FeasibleDegraded => plan := plan.(state := Degraded);
            case NotFeasible => plan := plan.(state := Rejected);
          }
      }
      Store(plan);
      outcome := Done;
    }

    method Authorize(ref: PlanRef) returns (outcome: Outcome)
      requires Valid()
      modifies this`plans, this`log
      ensures Valid() && (State(), outcome) == EngineModel.Authorize(old(State()), ref)
    {
      hide Invariant, CompareAuthority, CanTransition;
      AuthorizeKeeps(State(), ref);
      var error := Find(ref, Authorized);
      if error.Some? { return Refused(error.value); }
      PlanFacts(State(), ref.id);
      var plan := plans[ref.id];
      if live.None? { return Refused(StaleAuthority); }
      var delta := CompareAuthority(plan.authority, live.value.authority);
      if delta.Stale() {
        Store(Staled(plan));
        return Refused(StaleAuthority);
      }
      if delta.Contradictory() {
        Store(plan.(state := Rejected));
        return Refused(ConflictingAuthority);
      }
      if plan.state == Degraded && !live.value.allowDegradedCommit {
        Store(plan.(state := Rejected));
        return Refused(DegradedNotPermitted);
      }
      if plan.churn == HoldIncumbent || plan.churn == RejectRegression { return Refused(ChurnBound); }
      Store(plan.(state := Authorized, applicability := Current));
      outcome := Done;
    }

    /** The last part of commit, behind every gate: supersede the incumbent, then install the plan. */
    method InstallPlan(plan: Plan, intent: CommitIntent)
      requires Valid() && plan.id in plans && plans[plan.id] == plan && plan.state == Authorized
      requires live.Some? && intent.commit != 0
      modifies this`plans, this`log, this`incumbent
      ensures State() == Install(old(State()), plan, intent)
    {
      hide Invariant;
      PlanFacts(State(), plan.id);
      var committed := plan.(state := Committed, applicability := Current, commit := intent.commit,
                             commitGeneration := intent.generation, committedTick := intent.tick);
      if incumbent.id > 0 && incumbent.id != plan.id && incumbent.id in plans
        && plans[incumbent.id].state == Committed {
        PlanFacts(State(), incumbent.id);
        var previous := plans[incumbent.id];
        committed := committed.(supersedes := previous.Ref());
        Store(previous.(state := PlanState.Superseded, applicability := Applicability.Superseded,
          supersededBy := plan.Ref()));
      }
      Store(committed);
      incumbent := plan.Ref();
    }

    method Commit(ref: PlanRef, intent: CommitIntent) returns (outcome: Outcome)
      requires Valid()
      modifies this`plans, this`log, this`incumbent
      ensures Valid() && (State(), outcome) == EngineModel.Commit(old(State()), ref, intent)
    {
      hide Invariant, CompareAuthority, CanTransition, Install, Verifier.Acceptable;
      CommitKeeps(State(), ref, intent);
      if ref.id !in plans { return Refused(NotFound); }
      PlanFacts(State(), ref.id);
      var plan := plans[ref.id];
      if plan.generation != ref.generation { return Refused(StaleAuthority); }
      if intent.commit == 0 || intent.generation == 0 { return Refused(InvalidGeneration); }
      if plan.state == Committed {
        if plan.commit == intent.commit && plan.commitGeneration == intent.generation { return Done; }
        return Refused(AlreadyCommitted);
      }
      if !CanTransition(plan.state, Committed) { return Refused(InvalidTransition); }
      if live.None? { return Refused(StaleAuthority); }
      var delta := CompareAuthority(plan.authority, live.value.authority);
      if delta.Stale() {
        Store(Staled(plan));
        return Refused(StaleAuthority);
      }
      if delta.Contradictory() {
        Store(plan.(state := Rejected));
        return Refused(ConflictingAuthority);
      }
      LiveIsAdmissible(State());
      var violations := Verifier.VerifyAllocation(live.value.fabric, plan.allocation);
      if violations != {} {
        Store(plan.(state := Rejected));
        return Refused(IntegrityFailure);
      }
      OnlyFromAuthorized(plan.state);
      InstallPlan(plan, intent);
      outcome := Done;
    }

    /** The bounded walk back along the lineage, looking for the plan to be superseded. */
    method WalkLineage(start: PlanRef, target: nat) returns (refused: bool)
      ensures refused == LineageRefuses(plans, start, target, 0)
    {
      var cursor, depth := start, 0;
      while cursor.id > 0 && depth < MAX_LINEAGE_DEPTH
        invariant depth <= MAX_LINEAGE_DEPTH
        invariant LineageRefuses(plans, start, target, 0) == LineageRefuses(plans, cursor, target, depth)
        decreases MAX_LINEAGE_DEPTH - depth
      {
        if cursor.id == target { return true; }
        if cursor.id !in plans { return false; }
        cursor := plans[cursor.id].supersedes;
        depth := depth + 1;
      }
      refused := depth >= MAX_LINEAGE_DEPTH;
    }

    /** In every reachable state the operation is refused and changes nothing. */
    method Supersede(ref: PlanRef, replacement: PlanRef) returns (outcome: Outcome)
      modifies this`plans, this`log
      ensures (State(), outcome) == EngineModel.Supersede(old(State()), ref, replacement)
      ensures old(Valid()) ==> Valid() && State() == old(State()) && outcome.Refused?
    {
      hide Invariant, LineageRefuses;
      ghost var before := State();
      if Invariant(before) { SupersedeAlwaysRefused(before, ref, replacement); }
      if ref.id !in plans || replacement.id !in plans { return Refused(NotFound); }
      var superseded, successor := plans[ref.id], plans[replacement.id];
      if superseded.state != Committed { return Refused(InvalidTransition); }
      if successor.state != Committed { return Refused(InvalidTransition); }
      if superseded.id == successor.id { return Refused(CyclicReference); }
      var refused := WalkLineage(successor.supersedes, superseded.id);
      if refused { return Refused(CyclicReference); }
      Store(superseded.(state := PlanState.Superseded, applicability := Applicability.Superseded,
        supersededBy := successor.Ref()));
      Store(successor.(supersedes := superseded.Ref()));
      outcome := Done;
    }

    method MarkStale(ref: PlanRef) returns (outcome: Outcome)
      requires Valid()
      modifies this`plans, this`log
      ensures Valid() && (State(), outcome) == EngineModel.MarkStale(old(State()), ref)
    {
      hide Invariant;
      MarkStaleKeeps(State(), ref);
      if ref.id !in plans { return Refused(NotFound); }
      if !CanTransition(plans[ref.id].state, PlanState.Stale) { return Refused(InvalidTransition); }
      Store(Staled(plans[ref.id]));
      outcome := Done;
    }

    method Retire(ref: PlanRef) returns (outcome: Outcome)
      requires Valid()
      modifies this`plans, this`log, this`incumbent
      ensures Valid() && (State(), outcome) == EngineModel.Retire(old(State()), ref)
    {
      hide Invariant;
      RetireKeeps(State(), ref);
      if ref.id !in plans { return Refused(NotFound); }
      var plan := plans[ref.id];
      if !CanTransition(plan.state, PlanState.Retired) { return Refused(InvalidTransition); }
      if incumbent.id == plan.id { incumbent := NO_PLAN; }
      Store(plan.(state := PlanState.Retired, applicability := Applicability.Retired));
      outcome := Done;
    }

    method Revalidate(ref: PlanRef) returns (outcome: Outcome, applicability: Applicability)
      requires Valid()
      modifies this`plans, this`log
      ensures Valid() && (State(), outcome) == EngineModel.Revalidate(old(State()), ref)
      ensures outcome.Done? && live.Some? ==> applicability == plans[ref.id].applicability
      ensures outcome.Done? && live.None? ==> applicability == RevalidationRequired
    {
      hide Invariant, CompareAuthority;
      RevalidateKeeps(State(), ref);
      if ref.id !in plans { return Refused(NotFound), NotEvaluated; }
      if live.None? { return Done, RevalidationRequired; }
      PlanFacts(State(), ref.id);
      var plan := plans[ref.id];
      if CompareAuthority(plan.authority, live.value.authority).Identical() {
        plans := plans[ref.id := plan.(applicability := Current)];
        return Done, Current;
      }
      if plan.state == Committed {
        Store(Staled(plan));
      } else {
        plans := plans[ref.id := plan.(applicability := Applicability.Stale)];
      }
      return Done, Applicability.Stale;
    }

    /** Recovery collapses the log to the latest readable record of each plan. */
    method CollapseLog(records: seq<Plan>) returns (seen: seq<Plan>)
      requires plans == map[]
      modifies this`plans
      ensures seen == Readables(records) && plans == Fold(seen)
    {
      hide Readable;
      seen := [];
      assert records[..0] == [];
      for i := 0 to |records|
        invariant seen == Readables(records[..i]) && plans == Fold(seen)
      {
        assert records[..i + 1][..i] == records[..i];
        if !Readable(records[i]) { continue; }
        plans := plans[records[i].id := records[i]];
        assert (seen + [records[i]])[..|seen|] == seen;
        seen := seen + [records[i]];
      }
      assert records[..|records|] == records;
    }

    /** No restored plan is taken for live: what was advancing is stale, what was settled needs revalidation. */
    method DemoteAll(order: seq<nat>)
      requires Lists(order, plans)
      modifies this`plans
      ensures plans == map id | id in old(plans) :: Restored(old(plans)[id])
    {
      hide Restored;
      for i := 0 to |order|
        invariant plans.Keys == old(plans).Keys
        invariant forall k :: 0 <= k < i ==> plans[order[k]] == Restored(old(plans)[order[k]])
        invariant forall k :: i <= k < |order| ==> plans[order[k]] == old(plans)[order[k]]
      {
        plans := plans[order[i] := Restored(plans[order[i]])];
      }
      forall id | id in old(plans)
        ensures plans[id] == Restored(old(plans)[id])
      {
        var k :| 0 <= k < |order| && order[k] == id;
      }
    }

    /** The committed plan of the restored ones becomes the incumbent. */
    method FindIncumbent(order: seq<nat>, ghost target: State)
      requires Invariant(target) && target.plans == plans && Lists(order, plans)
      requires target.incumbent == IncumbentOf(plans)
      modifies this`incumbent
      ensures incumbent == target.incumbent
    {
      hide Invariant;
      incumbent := NO_PLAN;
      for i := 0 to |order|
        invariant incumbent == NO_PLAN || incumbent == target.incumbent
        invariant forall k :: 0 <= k < i && plans[order[k]].state == Committed ==> incumbent == target.incumbent
      {
        if plans[order[i]].state == Committed {
          IncumbentFound(target, order[i]);
          incumbent := plans[order[i]].Ref();
        }
      }
      if id :| id in plans && plans[id].state == Committed {
        var k :| 0 <= k < |order| && order[k] == id;
      }
    }

    /** Recovery reads the plan records of the repository, on an engine that holds no plan yet, and writes nothing. */
    method RecoverFromRepository(records: seq<Plan>) returns (recovered: bool)
      requires Valid() && GoodLog(records)
      modifies this
      ensures Valid() && (recovered <==> old(plans) == map[])
      ensures State() == if recovered then Recover(records) else old(State())
    {
      hide Invariant, GoodLog, Restored, Lists, IncumbentOf, Readables;
      if plans != map[] { return false; }
      ghost var target := Recover(records);
      RecoverKeeps(records);
      var seen := CollapseLog(records);
      var order := Identities(plans);
      SameKeys(order, plans, target.plans);
      DemoteAll(order);
      FindIncumbent(order, target);
      log := seen;
      live := None;
      recovered := true;
    }
  }

  lemma SameKeys(order: seq<nat>, a: Plans, b: Plans)
    requires Lists(order, a) && a.Keys == b.Keys
    ensures Lists(order, b)
  {
    forall id ensures id in b <==> id in order { assert id in a.Keys <==> id in b.Keys; }
  }

  lemma LiveIsAdmissible(s: State)
    requires Invariant(s) && s.live.Some?
    ensures s.live.value.Admissible()
  {
  }

  lemma OnlyFromAuthorized(state: PlanState)
    requires CanTransition(state, Committed)
    ensures state == Authorized
  {
  }

  lemma IncumbentFound(s: State, id: nat)
    requires Invariant(s) && id in s.plans && s.plans[id].state == Committed
    ensures s.incumbent == s.plans[id].Ref()
  {
  }
}
