/** The planning engine as a state machine: one function per mutating operation of src/engine.cpp. */
module EngineModel {
  import opened Numeric
  import opened PlanLifecycle
  import opened Authority
  import opened PlanLog
  import Verifier

  const MAX_LINEAGE_DEPTH: nat := 1024

  /** A submitted snapshot: its authority vector, its derived fabric, and the one policy switch the engine reads. */
  datatype Live = Live(authority: AuthorityVector, fabric: Verifier.Snapshot, allowDegradedCommit: bool) {
    /** What validate_structure establishes. */
    predicate Admissible() { authority.Valid() && fabric.WithinLimits() }
  }

  /** `log` lists the plan records that were read at the last recovery, and those written since. */
  datatype State = State(plans: Plans, incumbent: PlanRef, live: Option<Live>, log: seq<Plan>)

  datatype Error =
    | InvalidStructure | StaleAuthority | InvalidArgument | InvalidGeneration | LimitExceeded | DuplicateIdentity
    | NotFound | InvalidTransition | ConflictingAuthority | DegradedNotPermitted | ChurnBound | AlreadyCommitted
    | IntegrityFailure | CyclicReference | SolverError

  datatype Outcome = Done | Refused(error: Error)

  datatype DeclareRequest =
    DeclareRequest(plan: nat, attempt: nat, attemptGeneration: nat, publisher: nat, publisherBoot: nat)

  /** What the solver and the churn comparison decided. */
  datatype FeasibilityStatus = Feasible | FeasibleDegraded | NotFeasible

  datatype SolveResult =
    | SolveError
    | Solved(status: FeasibilityStatus, allocation: Verifier.Allocation, churn: ChurnDecision)

  datatype CommitIntent = CommitIntent(commit: nat, generation: nat, tick: nat)

  datatype Config = Config(maxRecords: nat, incarnation: nat)

  const START := State(map[], NO_PLAN, None, [])

  /** A plan is updated in memory and the update is appended to the log. */
  function Put(s: State, p: Plan): State {
    s.(plans := s.plans[p.id := p], log := s.log + [p])
  }

  function Staled(p: Plan): Plan {
    p.(state := PlanState.Stale, applicability := Applicability.Stale)
  }

  /** The checks that most operations start with. */
  function Check(s: State, ref: PlanRef, target: PlanState): Option<Error> {
    if ref.id !in s.plans then Some(NotFound)
    else if s.plans[ref.id].generation != ref.generation then Some(StaleAuthority)
    else if !CanTransition(s.plans[ref.id].state, target) then Some(InvalidTransition)
    else None
  }

  function Compared(s: State, p: Plan): Delta
    requires s.live.Some?
  {
    CompareAuthority(p.authority, s.live.value.authority)
  }

  predicate Outdated(p: Plan, live: Live) {
    (p.state == Committed || IsLive(p.state)) && !CompareAuthority(p.authority, live.authority).Identical()
  }

  /** The loop of submit_snapshot over the plans, in the order given. */
  function StaleAll(s: State, live: Live, order: seq<nat>): State {
    if order == [] then s
    else
      var before := StaleAll(s, live, order[..|order| - 1]);
      var id := order[|order| - 1];
      if id in before.plans && Outdated(before.plans[id], live) then Put(before, Staled(before.plans[id])) else before
  }

  /** `order` lists the plan identities, each once, as the iteration over the map meets them. */
  ghost predicate Lists(order: seq<nat>, plans: Plans) {
    (forall id :: id in plans <==> id in order) && forall i, j :: 0 <= i < j < |order| ==> order[i] != order[j]
  }

  ghost function Submit(s: State, live: Live, order: seq<nat>): (State, Outcome) {
    if !live.Admissible() then (s, Refused(InvalidStructure))
    else (StaleAll(s, live, order).(live := Some(live)), Done)
  }

  function Declare(s: State, config: Config, r: DeclareRequest): (State, Outcome) {
    if s.live.None? then (s, Refused(StaleAuthority))
    else if r.plan == 0 || r.attempt == 0 || r.attemptGeneration == 0 || r.publisher == 0 || r.publisherBoot == 0 then
      (s, Refused(InvalidArgument))
    else if config.incarnation == 0 then (s, Refused(InvalidGeneration))
    else if |s.plans| >= config.maxRecords then (s, Refused(LimitExceeded))
    else if r.plan in s.plans then (s, Refused(DuplicateIdentity))
    else
      (Put(s, Plan(r.plan, 1, Declared, NotEvaluated, s.live.value.authority, r.publisher, r.publisherBoot, r.attempt,
                   r.attemptGeneration, Verifier.Allocation([], false), NoIncumbent, 0, 0, 0, NO_PLAN, NO_PLAN)), Done)
  }

  function Validate(s: State, ref: PlanRef): (State, Outcome) {
    var error := Check(s, ref, Validated);
    if error.Some? then (s, Refused(error.value))
    else
      var p := s.plans[ref.id];
      // Without a snapshot the plan is staled in memory only.
      if s.live.None? then (s.(plans := s.plans[ref.id := Staled(p)]), Refused(StaleAuthority))
      else if !Compared(s, p).Identical() then (Put(s, Staled(p)), Refused(StaleAuthority))
      else (Put(s, p.(state := Validated, applicability := Current)), Done)
  }

  function AfterSolve(p: Plan, result: SolveResult): Plan {
    match result
    case SolveError => p.(state := Rejected, applicability := NotEvaluated)
    case Solved(status, allocation, churn) =>
      var state :=
        match status
        case Feasible => Proposed
        case FeasibleDegraded => Degraded
        case NotFeasible => Rejected;
      p.(state := state, allocation := allocation, churn := churn)
  }

  function Solve(s: State, ref: PlanRef, result: SolveResult): (State, Outcome) {
    var error := Check(s, ref, Solving);
    if error.Some? then (s, Refused(error.value))
    else
      var p := s.plans[ref.id];
      if s.live.None? then (s, Refused(StaleAuthority))
      else if !Compared(s, p).Identical() then (Put(s, Staled(p)), Refused(StaleAuthority))
      else (Put(s, AfterSolve(p, result)), if result.SolveError? then Refused(SolverError) else Done)
  }

  function Authorize(s: State, ref: PlanRef): (State, Outcome) {
    var error := Check(s, ref, Authorized);
    if error.Some? then (s, Refused(error.value))
    else
      var p := s.plans[ref.id];
      if s.live.None? then (s, Refused(StaleAuthority))
      else if Compared(s, p).Stale() then (Put(s, Staled(p)), Refused(StaleAuthority))
      else if Compared(s, p).Contradictory() then (Put(s, p.(state := Rejected)), Refused(ConflictingAuthority))
      else if p.state == Degraded && !s.live.value.allowDegradedCommit then
        (Put(s, p.(state := Rejected)), Refused(DegradedNotPermitted))
      else if p.churn == HoldIncumbent || p.churn == RejectRegression then (s, Refused(ChurnBound))
      else (Put(s, p.(state := Authorized, applicability := Current)), Done)
  }

  /** The plan that a commit of `p` supersedes: the incumbent, if it is another plan and still committed. */
  predicate HasPrevious(s: State, p: Plan) {
    && s.incumbent.id > 0 && s.incumbent.id != p.id && s.incumbent.id in s.plans
    && s.plans[s.incumbent.id].state == Committed
  }

  /** A commit that passed every gate. The superseded plan is logged before the committed one. */
  function Install(s: State, p: Plan, intent: CommitIntent): State {
    var committed := p.(state := Committed, applicability := Current, commit := intent.commit,
                        commitGeneration := intent.generation, committedTick := intent.tick);
    if HasPrevious(s, p) then
      var q := s.plans[s.incumbent.id];
      var superseded := q.(state := PlanState.Superseded, applicability := Applicability.Superseded,
        supersededBy := p.Ref());
      Put(Put(s, superseded), committed.(supersedes := q.Ref())).(incumbent := p.Ref())
    else Put(s, committed).(incumbent := p.Ref())
  }

  ghost function Commit(s: State, ref: PlanRef, intent: CommitIntent): (State, Outcome) {
    if ref.id !in s.plans then (s, Refused(NotFound))
    else
      var p := s.plans[ref.id];
      if p.generation != ref.generation then (s, Refused(StaleAuthority))
      else if intent.commit == 0 || intent.generation == 0 then (s, Refused(InvalidGeneration))
      else if p.state == Committed then
        if p.commit == intent.commit && p.commitGeneration == intent.generation then (s, Done)
        else (s, Refused(AlreadyCommitted))
      else if !CanTransition(p.state, Committed) then (s, Refused(InvalidTransition))
      else if s.live.None? then (s, Refused(StaleAuthority))
      else if Compared(s, p).Stale() then (Put(s, Staled(p)), Refused(StaleAuthority))
      else if Compared(s, p).Contradictory() then (Put(s, p.(state := Rejected)), Refused(ConflictingAuthority))
      else if !Verifier.Acceptable(s.live.value.fabric, p.allocation) then
        (Put(s, p.(state := Rejected)), Refused(IntegrityFailure))
      else (Install(s, p, intent), Done)
  }

  /** The bounded walk along `supersedes`: does it meet the target or run out of depth? */
  function LineageRefuses(plans: Plans, cursor: PlanRef, target: nat, depth: nat): bool
    requires depth <= MAX_LINEAGE_DEPTH
    decreases MAX_LINEAGE_DEPTH - depth
  {
    if depth == MAX_LINEAGE_DEPTH then true
    else if cursor.id == 0 then false
    else if cursor.id == target then true
    else if cursor.id !in plans then false
    else LineageRefuses(plans, plans[cursor.id].supersedes, target, depth + 1)
  }

  function Supersede(s: State, incumbent: PlanRef, replacement: PlanRef): (State, Outcome) {
    if incumbent.id !in s.plans || replacement.id !in s.plans then (s, Refused(NotFound))
    else
      var p, q := s.plans[incumbent.id], s.plans[replacement.id];
      if p.state != Committed || q.state != Committed then (s, Refused(InvalidTransition))
      else if p.id == q.id then (s, Refused(CyclicReference))
      else if LineageRefuses(s.plans, q.supersedes, p.id, 0) then (s, Refused(CyclicReference))
      else
        var superseded := p.(state := PlanState.Superseded, applicability := Applicability.Superseded,
          supersededBy := q.Ref());
        (Put(Put(s, superseded), q.(supersedes := p.Ref())), Done)
  }

  function MarkStale(s: State, ref: PlanRef): (State, Outcome) {
    if ref.id !in s.plans then (s, Refused(NotFound))
    else if !CanTransition(s.plans[ref.id].state, PlanState.Stale) then (s, Refused(InvalidTransition))
    else (Put(s, Staled(s.plans[ref.id])), Done)
  }

  function Retire(s: State, ref: PlanRef): (State, Outcome) {
    if ref.id !in s.plans then (s, Refused(NotFound))
    else if !CanTransition(s.plans[ref.id].state, PlanState.Retired) then (s, Refused(InvalidTransition))
    else
      var p := s.plans[ref.id].(state := PlanState.Retired, applicability := Applicability.Retired);
      (Put(s, p).(incumbent := if s.incumbent.id == p.id then NO_PLAN else s.incumbent), Done)
  }

  function Revalidate(s: State, ref: PlanRef): (State, Outcome) {
    if ref.id !in s.plans then (s, Refused(NotFound))
    else if s.live.None? then (s, Done)
    else
      var p := s.plans[ref.id];
      if Compared(s, p).Identical() then (s.(plans := s.plans[ref.id := p.(applicability := Current)]), Done)
      else if p.state == Committed then (Put(s, Staled(p)), Done)
      else (s.(plans := s.plans[ref.id := p.(applicability := Applicability.Stale)]), Done)
  }

  /** What recovery makes of a plan: a live one is not resumed, the others need revalidation. */
  function Restored(p: Plan): Plan {
    if IsLive(p.state) then Staled(p) else p.(applicability := RevalidationRequired)
  }

  ghost function IncumbentOf(plans: Plans): PlanRef {
    if exists id :: id in plans && plans[id].state == Committed then
      var id :| id in plans && plans[id].state == Committed;
      plans[id].Ref()
    else NO_PLAN
  }

  /**
   recover_from_repository, on a fresh engine. It skips what it cannot read, and writes nothing. What was skipped
   stays on disk, but no recovery will ever read it, so the log of the state leaves it out.
   */
  ghost function Recover(log: seq<Plan>): State {
    var seen := Readables(log);
    var plans := map id | id in Fold(seen) :: Restored(Fold(seen)[id]);
    State(plans, IncumbentOf(plans), None, seen)
  }

  datatype Operation =
    | SubmitOp(live: Live, order: seq<nat>)
    | DeclareOp(config: Config, request: DeclareRequest)
    | ValidateOp(ref: PlanRef)
    | SolveOp(ref: PlanRef, result: SolveResult)
    | AuthorizeOp(ref: PlanRef)
    | CommitOp(ref: PlanRef, intent: CommitIntent)
    | SupersedeOp(ref: PlanRef, replacement: PlanRef)
    | MarkStaleOp(ref: PlanRef)
    | RetireOp(ref: PlanRef)
    | RevalidateOp(ref: PlanRef)

  ghost function Step(s: State, op: Operation): (State, Outcome) {
    match op
    case SubmitOp(live, order) => Submit(s, live, order)
    case DeclareOp(config, request) => Declare(s, config, request)
    case ValidateOp(ref) => Validate(s, ref)
    case SolveOp(ref, result) => Solve(s, ref, result)
    case AuthorizeOp(ref) => Authorize(s, ref)
    case CommitOp(ref, intent) => Commit(s, ref, intent)
    case SupersedeOp(ref, replacement) => Supersede(s, ref, replacement)
    case MarkStaleOp(ref) => MarkStale(s, ref)
    case RetireOp(ref) => Retire(s, ref)
    case RevalidateOp(ref) => Revalidate(s, ref)
  }
}
