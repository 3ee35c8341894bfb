/**
 What each operation of the engine (src/engine.cpp) asks for before it succeeds, and what exactly it then does, in every
 state that a run can reach; and what that means for degraded plans over whole runs.
 */
module EngineGates {
  import opened Numeric
  import opened PlanLifecycle
  import opened Authority
  import opened PlanLog
  import opened EngineModel
  import opened EngineSafety
  import Verifier

  /** The reference names a plan in its current generation. */
  predicate Names(s: State, ref: PlanRef) {
    ref.id in s.plans && s.plans[ref.id].generation == ref.generation
  }

  /** A refusal with this error that changes nothing. */
  predicate Unchanged(s: State, next: State, answer: Outcome, error: Error) {
    next == s && answer == Refused(error)
  }

  /** One plan was replaced, in memory and with one record in the log; nothing else happened. */
  predicate Recorded(s: State, next: State, p: Plan) {
    && next.plans == s.plans[p.id := p] && next.log == s.log + [p]
    && next.live == s.live && next.incumbent == s.incumbent
  }

  lemma LiveAuthority(s: State, id: nat)
    requires Invariant(s) && id in s.plans && IsLive(s.plans[id].state)
    ensures s.live.Some? && s.plans[id].authority == s.live.value.authority && s.plans[id].id == id
    ensures Compared(s, s.plans[id]).Identical()
    ensures !Compared(s, s.plans[id]).Stale() && !Compared(s, s.plans[id]).Contradictory()
  {
    PlanFacts(s, id);
    NeverOutdated(s, id);
    assert BoundPlan(s.plans[id], s.live);
  }

  // ---- Declare and validate ------------------------------------------------------------

  /** A plan is declared if and only if there is a snapshot, all identities are present, and there is room for it. */
  lemma DeclareExactly(s: State, config: Config, r: DeclareRequest)
    ensures var (next, answer) := Declare(s, config, r);
      && (answer.Done? <==>
            && s.live.Some? && r.plan > 0 && r.attempt > 0 && r.attemptGeneration > 0 && r.publisher > 0
            && r.publisherBoot > 0 && config.incarnation > 0 && |s.plans| < config.maxRecords && r.plan !in s.plans)
      && (answer.Refused? ==> next == s)
      && (answer.Done? ==>
            && r.plan in next.plans && Recorded(s, next, next.plans[r.plan])
            && var p := next.plans[r.plan];
            && p.id == r.plan && p.generation == 1 && p.state == Declared && p.applicability == NotEvaluated
            && p.authority == s.live.value.authority && p.allocation.demands == [] && !p.allocation.degraded
            && p.publisher == r.publisher && p.publisherBoot == r.publisherBoot
            && p.attempt == r.attempt && p.attemptGeneration == r.attemptGeneration
            && p.commit == 0 && p.supersedes == NO_PLAN && p.supersededBy == NO_PLAN)
  {
  }

  /** A plan is validated if and only if it is DECLARED. */
  lemma ValidateExactly(s: State, ref: PlanRef)
    requires Invariant(s)
    ensures var (next, answer) := Validate(s, ref);
      && (answer.Done? <==> Names(s, ref) && s.plans[ref.id].state == Declared)
      && (answer.Done? ==> Recorded(s, next, s.plans[ref.id].(state := Validated, applicability := Current)))
      && (answer.Refused? ==> next == s)
  {
    hide Invariant, Compared;
    if Names(s, ref) {
      TableByTarget(s.plans[ref.id].state, Validated);
      if s.plans[ref.id].state == Declared { LiveAuthority(s, ref.id); }
    }
  }

  // ---- Solve and authorize ------------------------------------------------------------------

  /** The state a solver outcome leads to: no outcome but a feasible one leaves the plan alive. */
  lemma SolveExactly(s: State, ref: PlanRef, result: SolveResult)
    requires Invariant(s)
    ensures var (next, answer) := Solve(s, ref, result);
      && (answer.Done? <==> Names(s, ref) && s.plans[ref.id].state == Validated && result.Solved?)
      && (!(Names(s, ref) && s.plans[ref.id].state == Validated) ==> next == s)
      && (Names(s, ref) && s.plans[ref.id].state == Validated ==>
            && var p := next.plans[ref.id];
            && Recorded(s, next, p)
            && (result.SolveError? ==>
                  && answer == Refused(SolverError)
                  && p == s.plans[ref.id].(state := Rejected, applicability := NotEvaluated))
            && (result.Solved? ==>
                  && p == s.plans[ref.id].(state := p.state, allocation := result.allocation, churn := result.churn)
                  && (p.state == Proposed <==> result.status == Feasible)
                  && (p.state == Degraded <==> result.status == FeasibleDegraded)
                  && (p.state == Rejected <==> result.status == NotFeasible)))
  {
    hide Invariant, Compared;
    if Names(s, ref) {
      TableByTarget(s.plans[ref.id].state, Solving);
      if s.plans[ref.id].state == Validated { LiveAuthority(s, ref.id); }
    }
  }

  /** PROPOSED, or DEGRADED where the policy allows degraded commits. */
  predicate MayBeAuthorized(s: State, p: Plan) {
    p.state == Proposed || (p.state == Degraded && s.live.Some? && s.live.value.allowDegradedCommit)
  }

  /**
   A plan is authorised if and only if it is PROPOSED, or DEGRADED under a policy that allows it, and its churn decision
   does not hold it back. It then is bound to the live authority. A degraded plan that the policy does not allow is
   rejected for good; any other refusal changes nothing.
   */
  lemma AuthorizeExactly(s: State, ref: PlanRef)
    requires Invariant(s)
    ensures var (next, answer) := Authorize(s, ref);
      && (answer.Done? <==>
            && Names(s, ref) && MayBeAuthorized(s, s.plans[ref.id])
            && s.plans[ref.id].churn != HoldIncumbent && s.plans[ref.id].churn != RejectRegression)
      && (answer.Done? ==>
            && Recorded(s, next, s.plans[ref.id].(state := Authorized, applicability := Current))
            && s.live.Some? && s.plans[ref.id].authority == s.live.value.authority)
      && (ref.id !in s.plans ==> Unchanged(s, next, answer, NotFound))
      && (ref.id in s.plans && !Names(s, ref) ==> Unchanged(s, next, answer, StaleAuthority))
      && (Names(s, ref) && s.plans[ref.id].state != Proposed && s.plans[ref.id].state != Degraded ==>
            Unchanged(s, next, answer, InvalidTransition))
      && (Names(s, ref) && s.plans[ref.id].state == Degraded && !MayBeAuthorized(s, s.plans[ref.id]) ==>
            answer == Refused(DegradedNotPermitted) && Recorded(s, next, s.plans[ref.id].(state := Rejected)))
      && (Names(s, ref) && MayBeAuthorized(s, s.plans[ref.id]) && answer.Refused? ==>
            Unchanged(s, next, answer, ChurnBound))
  {
    hide Invariant, Compared;
    if Names(s, ref) {
      TableByTarget(s.plans[ref.id].state, Authorized);
      PlanFacts(s, ref.id);
      if IsLive(s.plans[ref.id].state) { LiveAuthority(s, ref.id); }
    }
  }

  // ---- Commit ----------------------------------------------------------------------------------

  /** The committed plan as it stands after its commit. */
  function CommittedAs(p: Plan, intent: CommitIntent, supersedes: PlanRef): Plan {
    p.(state := Committed, applicability := Current, commit := intent.commit, commitGeneration := intent.generation,
       committedTick := intent.tick, supersedes := supersedes)
  }

  /** A plan not committed yet commits if and only if it is AUTHORIZED and its allocation passes verification. */
  lemma CommitExactly(s: State, ref: PlanRef, intent: CommitIntent)
    requires Invariant(s) && Names(s, ref) && s.plans[ref.id].state != Committed
    ensures var (next, answer) := Commit(s, ref, intent);
      && (answer.Done? <==>
            && intent.commit > 0 && intent.generation > 0 && s.plans[ref.id].state == Authorized
            && Verifier.Acceptable(s.live.value.fabric, s.plans[ref.id].allocation))
      && (answer == Refused(IntegrityFailure) ==> Recorded(s, next, s.plans[ref.id].(state := Rejected)))
      && (answer.Refused? && answer.error != IntegrityFailure ==> next == s)
  {
    hide Invariant, Compared, Verifier.Acceptable, Install;
    TableByTarget(s.plans[ref.id].state, Committed);
    PlanFacts(s, ref.id);
    if IsLive(s.plans[ref.id].state) { LiveAuthority(s, ref.id); }
  }

  /**
   What a commit does: the plan is COMMITTED and the incumbent; the plan that was committed before, if there was one,
   is SUPERSEDED by it and recorded first; no other plan changes.
   */
  lemma CommitEffect(s: State, ref: PlanRef, intent: CommitIntent)
    requires Invariant(s) && Names(s, ref) && s.plans[ref.id].state != Committed && Commit(s, ref, intent).1.Done?
    ensures var next, p := Commit(s, ref, intent).0, s.plans[ref.id];
      && next.live == s.live && next.incumbent == ref && next.plans.Keys == s.plans.Keys
      && ((forall id :: id in s.plans ==> s.plans[id].state != Committed) ==>
            next.plans == s.plans[ref.id := CommittedAs(p, intent, p.supersedes)]
            && next.log == s.log + [CommittedAs(p, intent, p.supersedes)])
      && (forall q :: q in s.plans && s.plans[q].state == Committed ==>
            var superseded := s.plans[q].(state := PlanState.Superseded, applicability := Applicability.Superseded,
                                          supersededBy := ref);
            next.plans == s.plans[q := superseded][ref.id := CommittedAs(p, intent, s.plans[q].Ref())]
            && next.log == s.log + [superseded, CommittedAs(p, intent, s.plans[q].Ref())])
  {
    hide Invariant, Compared, Verifier.Acceptable;
    var p := s.plans[ref.id];
    PlanFacts(s, ref.id);
    assert p.Ref() == ref;
    forall q | q in s.plans && s.plans[q].state == Committed
      ensures s.incumbent == s.plans[q].Ref() && s.plans[q].id == q && q > 0 && q != ref.id
    {
      AtMostOneCommitted(s, q, q);
      PlanFacts(s, q);
    }
    if HasPrevious(s, p) {
      var q := s.incumbent.id;
      var superseded := s.plans[q].(state := PlanState.Superseded, applicability := Applicability.Superseded,
                                    supersededBy := ref);
      assert s.log + [superseded] + [CommittedAs(p, intent, s.plans[q].Ref())]
        == s.log + [superseded, CommittedAs(p, intent, s.plans[q].Ref())];
    }
  }

  // ---- The others --------------------------------------------------------------------------------

  /** mark_stale works on what is live, committed or superseded; retire on what is committed, superseded or stale. */
  lemma MarkStaleAndRetireExactly(s: State, ref: PlanRef)
    requires Invariant(s)
    ensures var (next, answer) := MarkStale(s, ref);
      && (answer.Done? <==> ref.id in s.plans && (IsLive(s.plans[ref.id].state) || s.plans[ref.id].state == Committed
                                                  || s.plans[ref.id].state == PlanState.Superseded))
      && (answer.Done? ==>
            Recorded(s, next, s.plans[ref.id].(state := PlanState.Stale, applicability := Applicability.Stale)))
      && (answer.Refused? ==> next == s)
    ensures var (next, answer) := Retire(s, ref);
      && (answer.Done? <==>
            ref.id in s.plans && s.plans[ref.id].state in {Committed, PlanState.Superseded, PlanState.Stale})
      && (answer.Done? ==>
            var p := s.plans[ref.id].(state := PlanState.Retired, applicability := Applicability.Retired);
            Recorded(s.(incumbent := if s.incumbent.id == ref.id then NO_PLAN else s.incumbent), next, p))
      && (answer.Refused? ==> next == s)
  {
    hide Invariant;
    if ref.id in s.plans {
      TableByTarget(s.plans[ref.id].state, PlanState.Stale);
      TableByTarget(s.plans[ref.id].state, PlanState.Retired);
      PlanFacts(s, ref.id);
    }
  }

  /** revalidate judges: current if and only if the plan is bound to the live authority. No state or log changes. */
  lemma RevalidateExactly(s: State, ref: PlanRef)
    requires Invariant(s)
    ensures var (next, answer) := Revalidate(s, ref);
      && (answer.Done? <==> ref.id in s.plans)
      && (answer.Refused? || s.live.None? ==> next == s)
      && (answer.Done? && s.live.Some? ==>
            var judged := if s.plans[ref.id].authority == s.live.value.authority then Current else Applicability.Stale;
            next == s.(plans := s.plans[ref.id := s.plans[ref.id].(applicability := judged)]))
  {
    hide Invariant, CompareAuthority;
    if ref.id in s.plans && s.live.Some? {
      PlanFacts(s, ref.id);
      LiveIsValid(s);
      IdenticalMeansEqual(s.plans[ref.id].authority, s.live.value.authority);
      if s.plans[ref.id].state == Committed { NeverOutdated(s, ref.id); }
    }
  }

  lemma LiveIsValid(s: State)
    requires Invariant(s) && s.live.Some?
    ensures s.live.value.authority.Valid()
  {
  }

  /** A plan after a new snapshot: STALE if it was live or committed under another authority, otherwise as before. */
  function After(p: Plan, live: Live): Plan {
    if (IsLive(p.state) || p.state == Committed) && p.authority != live.authority then
      p.(state := PlanState.Stale, applicability := Applicability.Stale)
    else p
  }

  /** submit_snapshot accepts every admissible snapshot, and stales exactly the plans bound to another authority. */
  lemma SubmitExactly(s: State, live: Live, order: seq<nat>)
    requires Invariant(s) && Lists(order, s.plans)
    ensures var (next, answer) := Submit(s, live, order);
      && (answer.Done? <==> live.Admissible()) && (answer.Refused? ==> next == s)
      && (answer.Done? ==>
            && next.live == Some(live) && next.incumbent == s.incumbent && next.plans.Keys == s.plans.Keys
            && forall id :: id in s.plans ==> next.plans[id] == After(s.plans[id], live))
  {
    hide Invariant, Outdated;
    if live.Admissible() {
      AdmissibleIsValid(live);
      StaleAllExactly(s, live, order);
    }
  }

  lemma AdmissibleIsValid(live: Live)
    requires live.Admissible()
    ensures live.authority.Valid()
  {
  }

  lemma {:induction false} StaleAllExactly(s: State, live: Live, order: seq<nat>)
    requires Invariant(s) && live.authority.Valid() && forall i, j :: 0 <= i < j < |order| ==> order[i] != order[j]
    ensures var next := StaleAll(s, live, order);
      && next.incumbent == s.incumbent && next.live == s.live && next.plans.Keys == s.plans.Keys
      && forall id :: id in s.plans ==>
           next.plans[id] == if id in order then After(s.plans[id], live) else s.plans[id]
  {
    hide Invariant, CompareAuthority;
    if order != [] {
      var m := |order| - 1;
      var id := order[m];
      StaleAllExactly(s, live, order[..m]);
      assert id !in order[..m];
      assert order == order[..m] + [id];
      if id in s.plans {
        PlanFacts(s, id);
        IdenticalMeansEqual(s.plans[id].authority, live.authority);
      }
    }
  }

  // ---- Degraded plans over whole runs ----------------------------------------------------------------

  /** Which policies allow degraded commits. The authority vector names the policy by its content. */
  type Allowing = AuthorityVector -> bool

  predicate PolicyIs(allows: Allowing, live: Option<Live>) {
    live.Some? ==> live.value.allowDegradedCommit == allows(live.value.authority)
  }

  /** Every submitted snapshot allows degraded commits exactly if the policy of its authority does. */
  ghost predicate PoliciesAre(allows: Allowing, events: seq<Event>) {
    forall i :: 0 <= i < |events| && events[i].Operate? && events[i].op.SubmitOp? ==>
      PolicyIs(allows, Some(events[i].op.live))
  }

  /** Some record shows the plan as DEGRADED. */
  ghost predicate EndedDegraded(log: seq<Plan>, id: nat) {
    exists p :: p in log && p.id == id && p.state == Degraded
  }

  /** No plan that ended degraded was authorised without the consent of its policy. */
  ghost predicate Gated(allows: Allowing, log: seq<Plan>) {
    log != [] ==>
      && Gated(allows, log[..|log| - 1])
      && var p := log[|log| - 1];
         (p.state == Authorized && EndedDegraded(log[..|log| - 1], p.id) ==> allows(p.authority))
  }

  lemma {:induction false} GatedPrefix(allows: Allowing, log: seq<Plan>, k: nat)
    requires Gated(allows, log) && k <= |log|
    ensures Gated(allows, log[..k])
  {
    if k < |log| {
      GatedPrefix(allows, log[..|log| - 1], k);
      assert log[..|log| - 1][..k] == log[..k];
    } else {
      assert log[..k] == log;
    }
  }

  lemma {:induction false} ReadableIsLogged(log: seq<Plan>)
    ensures forall p :: p in Readables(log) ==> p in log
  {
    if log != [] { ReadableIsLogged(log[..|log| - 1]); }
  }

  lemma {:induction false} GatedReadables(allows: Allowing, log: seq<Plan>)
    requires Gated(allows, log)
    ensures Gated(allows, Readables(log))
  {
    hide Readable;
    if log != [] {
      var before, p := log[..|log| - 1], log[|log| - 1];
      GatedReadables(allows, before);
      ReadableIsLogged(before);
      if Readable(p) { assert (Readables(before) + [p])[..|Readables(before)|] == Readables(before); }
    }
  }

  lemma GatedMore(allows: Allowing, log: seq<Plan>, p: Plan)
    requires Gated(allows, log) && (p.state == Authorized && EndedDegraded(log, p.id) ==> allows(p.authority))
    ensures Gated(allows, log + [p])
  {
    assert (log + [p])[..|log|] == log;
  }

  /** A live plan that ended degraded is DEGRADED or past it. */
  lemma StillDegraded(s: State, id: nat)
    requires Invariant(s) && id in s.plans && IsLive(s.plans[id].state) && EndedDegraded(s.log, id)
    ensures s.plans[id].state != Proposed
  {
    hide Reaches;
    PlanFacts(s, id);
    var d :| d in s.log && d.id == id && d.state == Degraded;
    var i :| 0 <= i < |s.log| && s.log[i] == d;
    assert GoodLog(s.log);
    HistoryFollowsTable(s.log, i, |s.log|);
    assert s.log[..|s.log|] == s.log;
    ReachesOnwards(Degraded, Fold(s.log)[id].state);
  }

  /** Records that do not authorise anything. */
  ghost predicate NoneAuthorized(s: State, next: State) {
    exists more: seq<Plan> ::
      next.log == s.log + more && forall i :: 0 <= i < |more| ==> more[i].state != Authorized
  }

  lemma {:induction false} GatedAppend(allows: Allowing, log: seq<Plan>, more: seq<Plan>)
    requires Gated(allows, log) && forall i :: 0 <= i < |more| ==> more[i].state != Authorized
    ensures Gated(allows, log + more)
  {
    if more == [] {
      assert log + more == log;
    } else {
      var m := |more| - 1;
      GatedAppend(allows, log, more[..m]);
      GatedMore(allows, log + more[..m], more[m]);
      assert log + more == log + more[..m] + [more[m]];
    }
  }

  lemma RecordedOne(s: State, next: State, p: Plan)
    requires next.log == s.log + [p] && p.state != Authorized
    ensures NoneAuthorized(s, next)
  {
  }

  lemma RecordedNone(s: State, next: State)
    requires next.log == s.log
    ensures NoneAuthorized(s, next)
  {
    assert next.log == s.log + [];
  }

  lemma {:induction false} StaleAllAuthorizesNone(s: State, live: Live, order: seq<nat>)
    ensures NoneAuthorized(s, StaleAll(s, live, order))
  {
    hide Outdated;
    if order == [] {
      RecordedNone(s, s);
    } else {
      var m := |order| - 1;
      var before, id := StaleAll(s, live, order[..m]), order[m];
      StaleAllAuthorizesNone(s, live, order[..m]);
      var more: seq<Plan> :| before.log == s.log + more && forall i :: 0 <= i < |more| ==> more[i].state != Authorized;
      if id in before.plans && Outdated(before.plans[id], live) {
        assert s.log + (more + [Staled(before.plans[id])]) == before.log + [Staled(before.plans[id])];
      }
    }
  }

  /** Only authorize() writes an AUTHORIZED record. */
  lemma OnlyAuthorizeAuthorizes(s: State, op: Operation)
    requires Invariant(s) && (op.SubmitOp? ==> Lists(op.order, s.plans)) && !op.AuthorizeOp?
    ensures NoneAuthorized(s, Step(s, op).0)
  {
    hide Invariant, Submit, Declare, Validate, Solve, Authorize, Commit, Supersede, MarkStale, Retire, Revalidate,
      NoneAuthorized;
    match op
    case SubmitOp(live, order) => SubmitAuthorizesNone(s, live, order);
    case DeclareOp(config, request) =>
      DeclareExactly(s, config, request);
      var next := Declare(s, config, request).0;
      if next != s { RecordedOne(s, next, next.plans[request.plan]); } else { RecordedNone(s, s); }
    case ValidateOp(ref) =>
      ValidateExactly(s, ref);
      var next := Validate(s, ref).0;
      if next != s { RecordedOne(s, next, s.plans[ref.id].(state := Validated, applicability := Current)); }
      else { RecordedNone(s, s); }
    case SolveOp(ref, result) =>
      SolveExactly(s, ref, result);
      var next := Solve(s, ref, result).0;
      if next != s { RecordedOne(s, next, next.plans[ref.id]); } else { RecordedNone(s, s); }
    case CommitOp(ref, intent) => CommitAuthorizesNone(s, ref, intent);
    case SupersedeOp(ref, replacement) =>
      SupersedeAlwaysRefused(s, ref, replacement);
      RecordedNone(s, s);
    case MarkStaleOp(ref) =>
      MarkStaleAndRetireExactly(s, ref);
      var next := MarkStale(s, ref).0;
      if next != s {
        RecordedOne(s, next, s.plans[ref.id].(state := PlanState.Stale, applicability := Applicability.Stale));
      } else {
        RecordedNone(s, s);
      }
    case RetireOp(ref) =>
      MarkStaleAndRetireExactly(s, ref);
      var next := Retire(s, ref).0;
      if next != s {
        RecordedOne(s, next, s.plans[ref.id].(state := PlanState.Retired, applicability := Applicability.Retired));
      } else {
        RecordedNone(s, s);
      }
    case RevalidateOp(ref) =>
      RevalidateExactly(s, ref);
      RecordedNone(s, Revalidate(s, ref).0);
  }

  lemma SubmitAuthorizesNone(s: State, live: Live, order: seq<nat>)
    ensures NoneAuthorized(s, Submit(s, live, order).0)
  {
    hide StaleAll;
    if live.Admissible() { StaleAllAuthorizesNone(s, live, order); } else { RecordedNone(s, s); }
  }

  lemma CommitAuthorizesNone(s: State, ref: PlanRef, intent: CommitIntent)
    requires Invariant(s)
    ensures NoneAuthorized(s, Commit(s, ref, intent).0)
  {
    hide Invariant, Commit, NoneAuthorized;
    var (next, answer) := Commit(s, ref, intent);
    if !Names(s, ref) || s.plans[ref.id].state == Committed {
      NotCommitting(s, ref, intent);
      RecordedNone(s, next);
    } else {
      CommitExactly(s, ref, intent);
      if answer.Done? {
        CommitEffect(s, ref, intent);
        CommitRecords(s, ref, intent);
      } else if answer.error == IntegrityFailure {
        RecordedOne(s, next, s.plans[ref.id].(state := Rejected));
      } else {
        RecordedNone(s, next);
      }
    }
  }

  lemma NotCommitting(s: State, ref: PlanRef, intent: CommitIntent)
    requires !Names(s, ref) || s.plans[ref.id].state == Committed
    ensures Commit(s, ref, intent).0 == s
  {
  }

  lemma CommitRecords(s: State, ref: PlanRef, intent: CommitIntent)
    requires Invariant(s) && Names(s, ref) && s.plans[ref.id].state != Committed && Commit(s, ref, intent).1.Done?
    ensures NoneAuthorized(s, Commit(s, ref, intent).0)
  {
    hide Invariant, Commit;
    CommitEffect(s, ref, intent);
    if q :| q in s.plans && s.plans[q].state == Committed {
      var superseded := s.plans[q].(state := PlanState.Superseded, applicability := Applicability.Superseded,
                                    supersededBy := ref);
      var more := [superseded, CommittedAs(s.plans[ref.id], intent, s.plans[q].Ref())];
      assert Commit(s, ref, intent).0.log == s.log + more;
    } else {
      RecordedOne(s, Commit(s, ref, intent).0, CommittedAs(s.plans[ref.id], intent, s.plans[ref.id].supersedes));
    }
  }

  lemma StepIsGated(allows: Allowing, s: State, op: Operation)
    requires Invariant(s) && (op.SubmitOp? ==> Lists(op.order, s.plans) && PolicyIs(allows, Some(op.live)))
    requires Gated(allows, s.log) && PolicyIs(allows, s.live)
    ensures Gated(allows, Step(s, op).0.log) && PolicyIs(allows, Step(s, op).0.live)
  {
    hide Invariant, Gated, EndedDegraded, Authorize;
    StepLive(s, op);
    if op.AuthorizeOp? {
      AuthorizeExactly(s, op.ref);
      var (next, answer) := Authorize(s, op.ref);
      if answer.Done? {
        if EndedDegraded(s.log, op.ref.id) { StillDegraded(s, op.ref.id); }
        PlanFacts(s, op.ref.id);
        GatedMore(allows, s.log, s.plans[op.ref.id].(state := Authorized, applicability := Current));
      } else if next != s {
        GatedMore(allows, s.log, s.plans[op.ref.id].(state := Rejected));
      }
    } else {
      OnlyAuthorizeAuthorizes(s, op);
      var more: seq<Plan> :|
        Step(s, op).0.log == s.log + more && forall i :: 0 <= i < |more| ==> more[i].state != Authorized;
      GatedAppend(allows, s.log, more);
    }
  }

  /** Only submit_snapshot changes the live snapshot. */
  lemma StepLive(s: State, op: Operation)
    requires Invariant(s) && (op.SubmitOp? ==> Lists(op.order, s.plans))
    ensures Step(s, op).0.live == s.live || (op.SubmitOp? && Step(s, op).0.live == Some(op.live))
  {
    hide Invariant, Compared, StaleAll, Verifier.Acceptable;
    if op.SubmitOp? && op.live.Admissible() { SubmitExactly(s, op.live, op.order); }
  }

  lemma {:induction false} RunIsGated(allows: Allowing, s: State, events: seq<Event>)
    requires Invariant(s) && PossibleRun(s, events) && PoliciesAre(allows, events)
    requires Gated(allows, s.log) && PolicyIs(allows, s.live)
    ensures Gated(allows, Run(s, events).log)
    decreases |events|
  {
    hide Step, Recover, GoodLog, Gated, Invariant;
    if events != [] {
      assert PoliciesAre(allows, events[1..]) by {
        forall i | 0 <= i < |events[1..]| && events[1..][i].Operate? && events[1..][i].op.SubmitOp?
          ensures PolicyIs(allows, Some(events[1..][i].op.live))
        {
          assert events[1..][i] == events[i + 1];
        }
      }
      match events[0]
      case Operate(op) =>
        StepKeeps(s, op);
        StepIsGated(allows, s, op);
        RunIsGated(allows, EngineModel.Step(s, op).0, events[1..]);
      case Crash(surviving) =>
        LogIsGood(s);
        GoodPrefix(s.log, surviving);
        RecoverKeeps(s.log[..surviving]);
        RecoverIsGated(allows, s.log, surviving);
        RunIsGated(allows, Recover(s.log[..surviving]), events[1..]);
    }
  }

  lemma RecoverIsGated(allows: Allowing, log: seq<Plan>, surviving: nat)
    requires Gated(allows, log) && surviving <= |log|
    ensures Gated(allows, Recover(log[..surviving]).log) && PolicyIs(allows, Recover(log[..surviving]).live)
  {
    GatedPrefix(allows, log, surviving);
    GatedReadables(allows, log[..surviving]);
  }

  /** The last record of a plan, and where it stands. */
  lemma {:induction false} LastRecord(log: seq<Plan>, id: nat) returns (j: nat)
    requires id in Fold(log)
    ensures j < |log| && log[j].id == id && log[j] == Fold(log)[id]
    ensures forall i :: j < i < |log| ==> log[i].id != id
  {
    var m := |log| - 1;
    if log[m].id == id { j := m; } else { j := LastRecord(log[..m], id); }
  }

  lemma GatedAt(allows: Allowing, log: seq<Plan>, j: nat)
    requires Gated(allows, log) && j < |log| && log[j].state == Authorized && EndedDegraded(log[..j], log[j].id)
    ensures allows(log[j].authority)
  {
    GatedPrefix(allows, log, j + 1);
    assert log[..j + 1][..j] == log[..j];
  }

  /** Behind an AUTHORIZED record there is no DEGRADED one of the same plan. */
  lemma DegradedBefore(log: seq<Plan>, i: nat, j: nat)
    requires GoodLog(log) && i < |log| && j < |log| && log[i].id == log[j].id
    requires log[i].state == Degraded && log[j].state == Authorized
    ensures i < j
  {
    hide Reaches, Fold;
    if j < i {
      HistoryFollowsTable(log, j, i + 1);
      FoldAt(log, i);
      ReachesOnwards(Authorized, Degraded);
    }
  }

  /** In a good, gated log an authorised record that follows a degraded one has the consent of its policy. */
  lemma ConsentAt(allows: Allowing, log: seq<Plan>, j: nat)
    requires GoodLog(log) && Gated(allows, log) && j < |log|
    requires log[j].state == Authorized && EndedDegraded(log, log[j].id)
    ensures allows(log[j].authority)
  {
    hide GoodLog, Gated;
    var d :| d in log && d.id == log[j].id && d.state == Degraded;
    var i :| 0 <= i < |log| && log[i] == d;
    DegradedBefore(log, i, j);
    assert log[..j][i] == d;
    GatedAt(allows, log, j);
  }

  /** Before its commit record a plan has an AUTHORIZED one, under the same authority. */
  lemma AuthorizedBefore(log: seq<Plan>, j: nat) returns (k: nat)
    requires GoodLog(log) && j < |log| && log[j].state == Committed
    ensures k < j && log[k].id == log[j].id && log[k].state == Authorized && log[k].authority == log[j].authority
  {
    hide Reaches, Fold, GoodLog;
    RecordFollows(log, j);
    k := LastRecord(log[..j], log[j].id);
  }

  /**
   Main result for degraded plans: over every run of operations, crashes and recoveries, a plan whose solve ended
   degraded is AUTHORIZED or COMMITTED only if the policy of the authority it is bound to allows degraded commits.
   */
  lemma DegradedOnlyByConsent(allows: Allowing, events: seq<Event>, id: nat)
    requires PossibleRun(START, events) && PoliciesAre(allows, events)
    requires id in Run(START, events).plans && EndedDegraded(Run(START, events).log, id)
    requires Run(START, events).plans[id].state in {Authorized, Committed, PlanState.Superseded}
    ensures allows(Run(START, events).plans[id].authority)
  {
    hide Invariant, Gated, Reaches, EndedDegraded, Run, PossibleRun, GoodLog;
    StartIsGood(allows);
    RunKeeps(START, events);
    RunIsGated(allows, START, events);
    var s := Run(START, events);
    PlanFacts(s, id);
    LogIsGood(s);
    var j := LastRecord(s.log, id);
    if s.plans[id].state == Authorized {
      ConsentAt(allows, s.log, j);
    } else {
      CommitIsKnown(s, id);
      var c := CommittedSomewhere(s.log, id);
      var k := AuthorizedBefore(s.log, c);
      ConsentAt(allows, s.log, k);
      SameAuthority(s.log, c, id);
    }
  }

  lemma StartIsGood(allows: Allowing)
    ensures Invariant(START) && Gated(allows, START.log) && PolicyIs(allows, START.live)
  {
    assert Fold([]) == map[];
  }

  lemma CommitIsKnown(s: State, id: nat)
    requires Invariant(s) && id in s.plans && s.plans[id].state in {Committed, PlanState.Superseded}
    ensures id in Fold(s.log) && Fold(s.log)[id].commit != 0
  {
    hide GoodLog, Reaches;
    PlanFacts(s, id);
  }

  /** All records of a plan carry the same authority. */
  lemma {:induction false} SameAuthority(log: seq<Plan>, i: nat, id: nat)
    requires GoodLog(log) && i < |log| && log[i].id == id
    ensures id in Fold(log) && Fold(log)[id].authority == log[i].authority
  {
    hide Reaches;
    var m := |log| - 1;
    if i < m {
      SameAuthority(log[..m], i, id);
    }
  }
}
