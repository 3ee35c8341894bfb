/** Safety of the planning engine over every run, every crash and every recovery (src/engine.cpp). */
module EngineSafety {
  import opened Numeric
  import opened PlanLifecycle
  import opened Authority
  import opened PlanLog
  import opened EngineModel
  import Verifier

  // ---- The invariant ---------------------------------------------------------------

  /** A plan in memory against its latest record: only a staling of a live plan may be missing from the log. */
  predicate MirrorsPlan(logged: Plan, p: Plan) {
    p == logged.(state := p.state, applicability := p.applicability)
    && (p.state == logged.state || (IsLive(logged.state) && p.state == PlanState.Stale))
  }

  ghost predicate Mirrors(logged: Plans, plans: Plans) {
    logged.Keys == plans.Keys && forall id :: id in plans ==> MirrorsPlan(logged[id], plans[id])
  }

  /** A plan that may still be acted on is bound to the live authority, and to nothing else. */
  predicate BoundPlan(p: Plan, live: Option<Live>) {
    && (IsLive(p.state) ==> live.Some?)
    && (live.Some? && (IsLive(p.state) || p.state == Committed) ==> p.authority == live.value.authority)
    && (p.state == Committed && p.applicability == Current ==> live.Some?)
  }

  ghost predicate Bound(plans: Plans, live: Option<Live>) {
    (live.Some? ==> live.value.Admissible()) && forall id :: id in plans ==> BoundPlan(plans[id], live)
  }

  ghost predicate IncumbentIsCommitted(plans: Plans, incumbent: PlanRef) {
    forall id :: id in plans && plans[id].state == Committed ==> incumbent == plans[id].Ref()
  }

  /** What has been superseded is not live, even where its own record of that was lost. */
  predicate Settled(plans: Plans) {
    forall id :: id in plans && plans[id].supersedes != NO_PLAN ==>
      plans[id].supersedes.id in plans && !IsLive(plans[plans[id].supersedes.id].state)
  }

  ghost predicate Invariant(s: State) {
    && GoodLog(s.log) && Mirrors(Fold(s.log), s.plans) && Settled(s.plans)
    && IncumbentIsCommitted(s.plans, s.incumbent) && Bound(s.plans, s.live)
  }

  // ---- Consequences of the invariant ----------------------------------------------

  /** At most one plan is committed, and it is the incumbent. */
  lemma AtMostOneCommitted(s: State, a: nat, b: nat)
    requires Invariant(s) && a in s.plans && b in s.plans && s.plans[a].state == Committed
    requires s.plans[b].state == Committed
    ensures a == b && s.incumbent == s.plans[a].Ref()
  {
    GoodLogConsistent(s.log);
    assert PlanOk(Fold(s.log), a) && PlanOk(Fold(s.log), b);
    assert MirrorsPlan(Fold(s.log)[a], s.plans[a]) && MirrorsPlan(Fold(s.log)[b], s.plans[b]);
  }

  /** What the log guarantees about a plan in memory. */
  lemma PlanFacts(s: State, id: nat)
    requires Invariant(s) && id in s.plans
    ensures var p, logged := s.plans[id], Fold(s.log);
      && p.id == id && id > 0 && p.generation == 1 && p.authority.Valid() && p.state != Solving
      && id in logged && MirrorsPlan(logged[id], p) && PlanOk(logged, id)
      && (IsLive(p.state) ==>
            p.commit == 0 && p.supersedes == NO_PLAN && p.supersededBy == NO_PLAN && logged[id].state == p.state)
      && (p.state == Committed ==> logged[id].state == Committed)
      && (Unsolved(p) ==> Readable(p)) && (Readable(p) <==> Readable(logged[id]))
  {
    GoodLogConsistent(s.log);
    assert PlanOk(Fold(s.log), id);
    assert MirrorsPlan(Fold(s.log)[id], s.plans[id]);
  }

  /** A live or committed plan compares identical to the live authority: the stale branches below never fire. */
  lemma NeverOutdated(s: State, id: nat)
    requires Invariant(s) && id in s.plans && s.live.Some?
    requires IsLive(s.plans[id].state) || s.plans[id].state == Committed
    ensures Compared(s, s.plans[id]).Identical()
  {
    PlanFacts(s, id);
    assert BoundPlan(s.plans[id], s.live);
    IdenticalMeansEqual(s.plans[id].authority, s.live.value.authority);
  }

  // ---- Preservation ------------------------------------------------------------------

  lemma SettledPut(plans: Plans, p: Plan)
    requires Settled(plans) && (p.id in plans && IsLive(p.state) ==> IsLive(plans[p.id].state))
    requires p.supersedes != NO_PLAN ==>
      p.supersedes.id in plans && p.supersedes.id != p.id && !IsLive(plans[p.supersedes.id].state)
    ensures Settled(plans[p.id := p])
  {
  }

  /** One more record, for a plan that exists or is new. */
  lemma PutKeeps(s: State, p: Plan)
    requires Invariant(s) && MayFollow(Fold(s.log), p) && BoundPlan(p, s.live)
    requires p.state == Committed ==> s.incumbent == p.Ref()
    requires p.id in s.plans && IsLive(p.state) ==> IsLive(s.plans[p.id].state)
    requires p.supersedes != NO_PLAN ==>
      p.supersedes.id in s.plans && p.supersedes.id != p.id && !IsLive(s.plans[p.supersedes.id].state)
    ensures Invariant(Put(s, p))
  {
    hide MayFollow, GoodLog, Settled;
    SettledPut(s.plans, p);
    Extended(s.log, p);
    var next := Put(s, p);
    forall id | id in next.plans
      ensures MirrorsPlan(Fold(next.log)[id], next.plans[id]) && BoundPlan(next.plans[id], s.live)
    {
      if id != p.id {
        assert MirrorsPlan(Fold(s.log)[id], s.plans[id]) && BoundPlan(s.plans[id], s.live);
      }
    }
  }

  /** A plan changes state without being committed or superseded. */
  lemma PlainPutKeeps(s: State, id: nat, p: Plan)
    requires Invariant(s) && id in s.plans
    requires var was := s.plans[id];
      && p.id == id && p.generation == was.generation && p.authority == was.authority && SameLineage(was, p)
      && Reaches(was.state, p.state) && SolvedOnce(was, p)
    requires p.state != Committed && p.state != PlanState.Superseded && p.state != Solving
    requires BoundPlan(p, s.live)
    ensures Invariant(Put(s, p))
  {
    hide Reaches;
    PlanFacts(s, id);
    var logged, was := Fold(s.log)[id], s.plans[id];
    if was.state != logged.state {
      StaleReaches(logged.state);
      ReachesTransitive(logged.state, was.state, p.state);
    }
    assert MayFollow(Fold(s.log), p);
    ReachesOnwards(was.state, p.state);
    PutKeeps(s, p);
  }

  lemma StaleReaches(state: PlanState)
    requires IsLive(state)
    ensures Reaches(state, PlanState.Stale)
  {
    ReachesOne(state, PlanState.Stale);
  }

  lemma StaledKeeps(s: State, id: nat)
    requires Invariant(s) && id in s.plans && CanTransition(s.plans[id].state, PlanState.Stale)
    ensures Invariant(Put(s, Staled(s.plans[id])))
  {
    hide Reaches, GoodLog;
    PlanFacts(s, id);
    ReachesOne(s.plans[id].state, PlanState.Stale);
    PlainPutKeeps(s, id, Staled(s.plans[id]));
  }

  lemma RejectedKeeps(s: State, id: nat)
    requires Invariant(s) && id in s.plans && CanTransition(s.plans[id].state, Rejected)
    ensures Invariant(Put(s, s.plans[id].(state := Rejected)))
  {
    hide Reaches, GoodLog;
    PlanFacts(s, id);
    ReachesOne(s.plans[id].state, Rejected);
    PlainPutKeeps(s, id, s.plans[id].(state := Rejected));
  }

  lemma DeclareKeeps(s: State, config: Config, r: DeclareRequest)
    requires Invariant(s)
    ensures Invariant(Declare(s, config, r).0)
  {
    hide GoodLog, Reaches;
    if Declare(s, config, r).1.Done? {
      var p := Declare(s, config, r).0.plans[r.plan];
      assert r.plan !in Fold(s.log);
      PutKeeps(s, p);
    }
  }

  lemma ValidateKeeps(s: State, ref: PlanRef)
    requires Invariant(s)
    ensures Invariant(Validate(s, ref).0)
    ensures s.live.None? ==> Validate(s, ref).0 == s
  {
    hide GoodLog, Reaches, CompareAuthority;
    if Check(s, ref, Validated).None? {
      var p := s.plans[ref.id];
      assert BoundPlan(p, s.live);
      PlanFacts(s, ref.id);
      NeverOutdated(s, ref.id);
      ReachesOne(p.state, Validated);
      PlainPutKeeps(s, ref.id, p.(state := Validated, applicability := Current));
    }
  }

  lemma SolveKeeps(s: State, ref: PlanRef, result: SolveResult)
    requires Invariant(s)
    ensures Invariant(Solve(s, ref, result).0)
  {
    hide GoodLog, Reaches, CompareAuthority;
    if Check(s, ref, Solving).None? {
      var p := s.plans[ref.id];
      assert BoundPlan(p, s.live);
      PlanFacts(s, ref.id);
      NeverOutdated(s, ref.id);
      var next := AfterSolve(p, result);
      SolvingLeadsTo(p.state, next.state);
      PlainPutKeeps(s, ref.id, next);
    }
  }

  /** The solve passes through SOLVING, which is never left behind. */
  lemma SolvingLeadsTo(from: PlanState, to: PlanState)
    requires CanTransition(from, Solving) && (to == Proposed || to == Degraded || to == Rejected)
    ensures Reaches(from, to)
  {
    ReachesOne(from, Solving);
    ReachesOne(Solving, to);
    ReachesTransitive(from, Solving, to);
  }

  lemma AuthorizeKeeps(s: State, ref: PlanRef)
    requires Invariant(s)
    ensures Invariant(Authorize(s, ref).0)
  {
    hide GoodLog, Reaches, CompareAuthority;
    if Check(s, ref, Authorized).None? {
      var p := s.plans[ref.id];
      assert BoundPlan(p, s.live);
      PlanFacts(s, ref.id);
      NeverOutdated(s, ref.id);
      RejectedKeeps(s, ref.id);
      ReachesOne(p.state, Authorized);
      PlainPutKeeps(s, ref.id, p.(state := Authorized, applicability := Current));
    }
  }

  /** The first of the two records of a commit: the incumbent is superseded by a plan not yet committed. */
  lemma SupersededKeeps(s: State, id: nat, p: Plan)
    requires Invariant(s) && id in s.plans && s.plans[id].state == Committed
    requires p == s.plans[id].(state := PlanState.Superseded, applicability := Applicability.Superseded,
      supersededBy := p.supersededBy)
    requires p.supersededBy != NO_PLAN
    ensures Invariant(Put(s, p))
  {
    hide Reaches, GoodLog;
    PlanFacts(s, id);
    ReachesOne(Committed, PlanState.Superseded);
    assert IsSuperseded(Fold(s.log)[id], p);
    assert MayFollow(Fold(s.log), p);
    PutKeeps(s, p);
  }

  /** The second record, in a state where nothing is committed. */
  lemma CommittedKeeps(s: State, id: nat, p: Plan)
    requires Invariant(s) && id in s.plans && s.plans[id].state == Authorized && s.live.Some?
    requires forall other :: other in s.plans ==> s.plans[other].state != Committed
    requires p.commit != 0 && SupersedesIn(Fold(s.log), p)
    requires p.supersedes != NO_PLAN ==>
      p.supersedes.id in s.plans && !IsLive(s.plans[p.supersedes.id].state)
      && forall other :: other in s.plans ==> s.plans[other].supersedes != p.supersedes
    requires p == s.plans[id].(state := Committed, applicability := Current, commit := p.commit,
                               commitGeneration := p.commitGeneration, committedTick := p.committedTick,
                                 supersedes := p.supersedes)
    ensures Invariant(Put(s, p).(incumbent := p.Ref()))
  {
    hide Reaches, GoodLog;
    PlanFacts(s, id);
    ReachesOne(Authorized, Committed);
    assert BoundPlan(s.plans[id], s.live);
    forall other | other in Fold(s.log)
      ensures Fold(s.log)[other].state != Committed && Fold(s.log)[other].supersedes.id != id
      ensures p.supersedes != NO_PLAN ==> Fold(s.log)[other].supersedes != p.supersedes
    {
      assert MirrorsPlan(Fold(s.log)[other], s.plans[other]);
      if s.plans[other].supersedes == NO_PLAN { PlanFacts(s, id); }
    }
    assert MayFollow(Fold(s.log), p);
    assert Invariant(s.(incumbent := p.Ref()));
    PutKeeps(s.(incumbent := p.Ref()), p);
  }

  lemma InstallKeeps(s: State, id: nat, intent: CommitIntent)
    requires Invariant(s) && id in s.plans && s.plans[id].state == Authorized && s.live.Some? && intent.commit != 0
    ensures Invariant(Install(s, s.plans[id], intent))
  {
    hide Reaches, GoodLog;
    var p := s.plans[id];
    PlanFacts(s, id);
    var committed := p.(state := Committed, applicability := Current, commit := intent.commit,
                        commitGeneration := intent.generation, committedTick := intent.tick);
    if HasPrevious(s, p) {
      var previous := s.incumbent.id;
      var q := s.plans[previous];
      PlanFacts(s, previous);
      var superseded := q.(state := PlanState.Superseded, applicability := Applicability.Superseded,
        supersededBy := p.Ref());
      SupersededKeeps(s, previous, superseded);
      var middle := Put(s, superseded);
      assert Fold(middle.log)[previous] == superseded by { assert middle.log[..|s.log|] == s.log; }
      PlanFacts(middle, previous);
      NothingElseCommitted(s, previous, superseded);
      forall other | other in middle.plans
        ensures middle.plans[other].supersedes != q.Ref()
      {
        NotYetSuperseded(s, previous, other);
      }
      CommittedKeeps(middle, id, committed.(supersedes := q.Ref()));
    } else {
      forall other | other in s.plans
        ensures s.plans[other].state != Committed
      {
        PlanFacts(s, other);
      }
      CommittedKeeps(s, id, committed);
    }
  }

  /** A committed plan has no successor. */
  lemma NotYetSuperseded(s: State, id: nat, other: nat)
    requires Invariant(s) && id in s.plans && other in s.plans && s.plans[id].state == Committed
    ensures s.plans[other].supersedes != s.plans[id].Ref()
  {
    hide GoodLog, Reaches;
    PlanFacts(s, id);
    PlanFacts(s, other);
  }

  lemma NothingElseCommitted(s: State, previous: nat, superseded: Plan)
    requires Invariant(s) && previous in s.plans && s.plans[previous].state == Committed && superseded.id == previous
    requires superseded.state != Committed
    ensures forall other :: other in Put(s, superseded).plans ==> Put(s, superseded).plans[other].state != Committed
  {
    forall other | other in s.plans && s.plans[other].state == Committed
      ensures other == previous
    {
      AtMostOneCommitted(s, other, previous);
    }
  }

  lemma CommitKeeps(s: State, ref: PlanRef, intent: CommitIntent)
    requires Invariant(s)
    ensures Invariant(Commit(s, ref, intent).0)
  {
    hide GoodLog, Reaches, CompareAuthority, Install, Invariant;
    if ref.id in s.plans && s.plans[ref.id].state == Authorized && s.live.Some? {
      PlanFacts(s, ref.id);
      NeverOutdated(s, ref.id);
      RejectedKeeps(s, ref.id);
      if intent.commit != 0 { InstallKeeps(s, ref.id, intent); }
    }
  }

  /** Explicit supersession needs two committed plans, so it is refused in every reachable state. */
  lemma SupersedeAlwaysRefused(s: State, incumbent: PlanRef, replacement: PlanRef)
    requires Invariant(s)
    ensures Supersede(s, incumbent, replacement).1.Refused? && Supersede(s, incumbent, replacement).0 == s
  {
    if incumbent.id in s.plans && replacement.id in s.plans
       && s.plans[incumbent.id].state == Committed && s.plans[replacement.id].state == Committed {
      AtMostOneCommitted(s, incumbent.id, replacement.id);
    }
  }

  lemma RetireKeeps(s: State, ref: PlanRef)
    requires Invariant(s)
    ensures Invariant(Retire(s, ref).0)
  {
    hide Invariant, Reaches;
    if Retire(s, ref).1.Done? {
      var p := s.plans[ref.id].(state := PlanState.Retired, applicability := Applicability.Retired);
      PlanFacts(s, ref.id);
      ReachesOne(s.plans[ref.id].state, PlanState.Retired);
      RetiredKeeps(s, ref.id, p);
      NotIncumbent(Put(s, p), ref.id);
    }
  }

  lemma RetiredKeeps(s: State, id: nat, p: Plan)
    requires Invariant(s) && id in s.plans && Reaches(s.plans[id].state, PlanState.Retired)
    requires p == s.plans[id].(state := PlanState.Retired, applicability := Applicability.Retired) && p.id == id
    ensures Invariant(Put(s, p))
  {
    hide GoodLog, Reaches, Settled;
    PlainPutKeeps(s, id, p);
  }

  /** A plan that is not committed need not be the incumbent. */
  lemma NotIncumbent(s: State, id: nat)
    requires Invariant(s) && id in s.plans && s.plans[id].state != Committed
    ensures s.incumbent.id == id ==> Invariant(s.(incumbent := NO_PLAN))
  {
    hide GoodLog, Mirrors, Settled, Bound;
    forall other | other in s.plans && s.plans[other].state == Committed
      ensures s.incumbent.id == other
    {
      CommittedIdentity(s, other);
    }
  }

  lemma CommittedIdentity(s: State, id: nat)
    requires Invariant(s) && id in s.plans && s.plans[id].state == Committed
    ensures s.incumbent.id == id
  {
    hide GoodLog;
    PlanFacts(s, id);
  }

  /** Judging applicability touches nothing else. */
  lemma ApplicabilityKeeps(s: State, id: nat, p: Plan)
    requires Invariant(s) && id in s.plans && p == s.plans[id].(applicability := p.applicability) && s.live.Some?
    ensures Invariant(s.(plans := s.plans[id := p]))
  {
    hide GoodLog;
    var next := s.(plans := s.plans[id := p]);
    forall other | other in next.plans
      ensures MirrorsPlan(Fold(s.log)[other], next.plans[other]) && BoundPlan(next.plans[other], s.live)
    {
      assert MirrorsPlan(Fold(s.log)[other], s.plans[other]) && BoundPlan(s.plans[other], s.live);
    }
    assert next.plans.Keys == s.plans.Keys;
  }

  lemma RevalidateKeeps(s: State, ref: PlanRef)
    requires Invariant(s)
    ensures Invariant(Revalidate(s, ref).0)
  {
    hide GoodLog, Reaches, CompareAuthority;
    if ref.id in s.plans && s.live.Some? {
      var p := s.plans[ref.id];
      ApplicabilityKeeps(s, ref.id, p.(applicability := Current));
      ApplicabilityKeeps(s, ref.id, p.(applicability := Applicability.Stale));
      if p.state == Committed { NeverOutdated(s, ref.id); }
    }
  }

  lemma MarkStaleKeeps(s: State, ref: PlanRef)
    requires Invariant(s)
    ensures Invariant(MarkStale(s, ref).0)
  {
    hide Invariant;
    if MarkStale(s, ref).1.Done? { StaledKeeps(s, ref.id); }
  }

  // ---- A new snapshot ---------------------------------------------------------------

  /** What the loop of submit_snapshot has achieved after the plans in `order`. */
  ghost predicate Staling(s: State, next: State, live: Live, order: seq<nat>) {
    && Invariant(next) && next.live == s.live && next.incumbent == s.incumbent && next.plans.Keys == s.plans.Keys
    && (forall id :: id in s.plans && id !in order ==> next.plans[id] == s.plans[id])
    && (forall id :: id in s.plans && id in order ==> !Outdated(next.plans[id], live))
  }

  lemma {:induction false} StaleAllKeeps(s: State, live: Live, order: seq<nat>)
    requires Invariant(s) && forall i, j :: 0 <= i < j < |order| ==> order[i] != order[j]
    ensures Staling(s, StaleAll(s, live, order), live, order)
  {
    hide Invariant, CompareAuthority, CanTransition;
    if order != [] {
      var m := |order| - 1;
      var before, id := StaleAll(s, live, order[..m]), order[m];
      StaleAllKeeps(s, live, order[..m]);
      assert id !in order[..m];
      if id in before.plans && Outdated(before.plans[id], live) {
        CanStale(before.plans[id].state);
        PlanFacts(before, id);
        StaledKeeps(before, id);
      }
    }
  }

  lemma CanStale(state: PlanState)
    requires IsLive(state) || state == Committed
    ensures CanTransition(state, PlanState.Stale)
  {
  }

  lemma SubmitKeeps(s: State, live: Live, order: seq<nat>)
    requires Invariant(s) && Lists(order, s.plans)
    ensures Invariant(Submit(s, live, order).0)
  {
    hide GoodLog, Reaches, CompareAuthority, StaleAll;
    if live.Admissible() {
      StaleAllKeeps(s, live, order);
      var next := StaleAll(s, live, order);
      forall id | id in next.plans
        ensures BoundPlan(next.plans[id], Some(live))
      {
        PlanFacts(next, id);
        assert BoundPlan(next.plans[id], next.live);
        IdenticalMeansEqual(next.plans[id].authority, live.authority);
      }
    }
  }

  // ---- Recovery ----------------------------------------------------------------------

  /**
   Whatever prefix of the log survives, and whatever of it cannot be read, recovery puts the engine into a good state.
   */
  lemma RecoverKeeps(log: seq<Plan>)
    requires GoodLog(log)
    ensures Invariant(Recover(log))
  {
    hide GoodLog, Reaches, IncumbentOf, Consistent, AllSeen;
    ReadablesAreGood(log);
    var logged, s := Fold(Readables(log)), Recover(log);
    GoodLogConsistent(Readables(log));
    RestoredMirrors(logged, s.plans);
    forall id | id in s.plans && s.plans[id].state == Committed
      ensures s.incumbent == s.plans[id].Ref()
    {
      assert OneCommitted(logged) by { OnlyOne(logged); }
      OnlyIncumbent(s.plans, logged, id);
    }
  }

  lemma OnlyOne(plans: Plans)
    requires Consistent(plans)
    ensures OneCommitted(plans)
  {
  }

  /** Restored plans against the log they come from. */
  lemma RestoredMirrors(logged: Plans, plans: Plans)
    requires Consistent(logged) && plans.Keys == logged.Keys
    requires forall id :: id in plans ==> plans[id] == Restored(logged[id])
    ensures Mirrors(logged, plans) && Bound(plans, None) && Settled(plans)
  {
    forall id | id in plans
      ensures MirrorsPlan(logged[id], plans[id]) && BoundPlan(plans[id], None)
      ensures plans[id].supersedes != NO_PLAN ==>
        plans[id].supersedes.id in plans && !IsLive(plans[plans[id].supersedes.id].state)
    {
      assert PlanOk(logged, id);
    }
  }

  lemma OnlyIncumbent(plans: Plans, logged: Plans, id: nat)
    requires OneCommitted(logged) && plans.Keys == logged.Keys && id in plans && plans[id].state == Committed
    requires forall other :: other in plans && plans[other].state == Committed ==> logged[other].state == Committed
    ensures IncumbentOf(plans) == plans[id].Ref()
  {
  }

  /** The plan is restored as it was in memory, except that a live one becomes STALE. */
  predicate RestoredAs(p: Plan, r: Plan) {
    r == p.(state := if IsLive(p.state) then PlanState.Stale else p.state, applicability := r.applicability)
  }

  /**
   Recovery restores a plan if and only if its record can be read. Otherwise the plan comes back STALE and without
   its commit, however it stood.
   */
  lemma RecoveryAgrees(s: State, id: nat)
    requires Invariant(s) && id in s.plans
    ensures var r, p := Recover(s.log), s.plans[id];
      && r.plans.Keys == s.plans.Keys
      && (RestoredAs(p, r.plans[id]) <==> Readable(p))
      && (!Readable(p) ==> r.plans[id].state == PlanState.Stale && r.plans[id].commit == 0
                           && r.plans[id].supersedes == NO_PLAN && r.plans[id].supersededBy == NO_PLAN)
      && (p.state == Committed ==> (r.incumbent == p.Ref() <==> Readable(p)))
      && (p.state == Committed && Readable(p) ==> r.plans[id].applicability == RevalidationRequired)
  {
    hide GoodLog, Reaches, IncumbentOf, Invariant, FitsRecord, AllSeen;
    PlanFacts(s, id);
    SeenPlan(s, id);
    RecoverKeeps(s.log);
    var r, seen := Recover(s.log), Fold(Readables(s.log))[id];
    assert r.plans[id] == Restored(seen);
    if s.plans[id].state == Committed {
      if Readable(s.plans[id]) {
        AtMostOneCommitted(r, id, id);
      } else {
        forall other | other in r.plans ensures r.plans[other].id == other { PlanFacts(r, other); }
        NoIncumbentWithout(r, s.plans[id].Ref());
      }
    }
  }

  lemma SeenPlan(s: State, id: nat)
    requires Invariant(s) && id in s.plans
    ensures GoodLog(s.log) && Fold(Readables(s.log)).Keys == s.plans.Keys
    ensures SeenAs(Fold(Readables(s.log))[id], Fold(s.log)[id])
  {
    ReadablesAreGood(s.log);
  }

  /** The recovered incumbent is a committed plan, or none. */
  lemma NoIncumbentWithout(r: State, ref: PlanRef)
    requires ref.id in r.plans && r.plans[ref.id].state != Committed && r.incumbent == IncumbentOf(r.plans)
    requires ref.id > 0 && forall id :: id in r.plans ==> r.plans[id].id == id
    ensures r.incumbent != ref
  {
  }

  // ---- Every run -----------------------------------------------------------------------

  /** An operation, or a crash that leaves the first `surviving` records of the log and is followed by recovery. */
  datatype Event = Operate(op: Operation) | Crash(surviving: nat)

  ghost predicate Possible(s: State, event: Event) {
    match event
    case Operate(SubmitOp(live, order)) => Lists(order, s.plans)
    case Operate(_) => true
    case Crash(surviving) => surviving <= |s.log|
  }

  ghost function After(s: State, event: Event): State
    requires Possible(s, event)
  {
    match event
    case Operate(op) => Step(s, op).0
    case Crash(surviving) => Recover(s.log[..surviving])
  }

  ghost predicate PossibleRun(s: State, events: seq<Event>)
    decreases |events|
  {
    events != [] ==> Possible(s, events[0]) && PossibleRun(After(s, events[0]), events[1..])
  }

  ghost function Run(s: State, events: seq<Event>): State
    requires PossibleRun(s, events)
    decreases |events|
  {
    if events == [] then s else Run(After(s, events[0]), events[1..])
  }

  lemma StepKeeps(s: State, op: Operation)
    requires Invariant(s) && (op.SubmitOp? ==> Lists(op.order, s.plans))
    ensures Invariant(Step(s, op).0)
  {
    hide Invariant, Submit, Declare, Validate, Solve, Authorize, Commit, Supersede, MarkStale, Retire, Revalidate;
    match op
    case SubmitOp(live, order) => SubmitKeeps(s, live, order);
    case DeclareOp(config, request) => DeclareKeeps(s, config, request);
    case ValidateOp(ref) => ValidateKeeps(s, ref);
    case SolveOp(ref, result) => SolveKeeps(s, ref, result);
    case AuthorizeOp(ref) => AuthorizeKeeps(s, ref);
    case CommitOp(ref, intent) => CommitKeeps(s, ref, intent);
    case SupersedeOp(ref, replacement) => SupersedeAlwaysRefused(s, ref, replacement);
    case MarkStaleOp(ref) => MarkStaleKeeps(s, ref);
    case RetireOp(ref) => RetireKeeps(s, ref);
    case RevalidateOp(ref) => RevalidateKeeps(s, ref);
  }

  lemma {:induction false} RunKeeps(s: State, events: seq<Event>)
    requires Invariant(s) && PossibleRun(s, events)
    ensures Invariant(Run(s, events))
    decreases |events|
  {
    hide Step, Recover, GoodLog;
    if events != [] {
      match events[0]
      case Operate(op) =>
        StepKeeps(s, op);
        RunKeeps(Step(s, op).0, events[1..]);
      case Crash(surviving) =>
        GoodPrefix(s.log, surviving);
        RecoverKeeps(s.log[..surviving]);
        RunKeeps(Recover(s.log[..surviving]), events[1..]);
    }
  }

  /**
   Main result: in every state that operations, crashes and recoveries can reach from an empty engine, at most
   one plan is committed and it is the incumbent, every plan still to be acted on is bound to exactly the live
   authority, and recovery from the log would restore the committed plan if and only if its record can be read.
   */
  lemma EveryRunIsSafe(events: seq<Event>, a: nat)
    requires PossibleRun(START, events) && a in Run(START, events).plans
    ensures var s := Run(START, events);
      && (forall b :: b in s.plans && s.plans[a].state == Committed && s.plans[b].state == Committed ==> a == b)
      && (s.plans[a].state == Committed ==>
            s.incumbent == s.plans[a].Ref() && (Recover(s.log).incumbent == s.incumbent <==> Readable(s.plans[a])))
      && (IsLive(s.plans[a].state) ==> s.live.Some?)
      && (s.live.Some? && (IsLive(s.plans[a].state) || s.plans[a].state == Committed) ==>
            s.plans[a].authority == s.live.value.authority)
  {
    assert Fold([]) == map[];
    assert Invariant(START);
    RunKeeps(START, events);
    var s := Run(START, events);
    assert BoundPlan(s.plans[a], s.live);
    forall b | b in s.plans && s.plans[a].state == Committed && s.plans[b].state == Committed
      ensures a == b
    {
      AtMostOneCommitted(s, a, b);
    }
    RecoveryAgrees(s, a);
  }

  // ---- Commits ---------------------------------------------------------------------------

  /**
   A plan is committed only from AUTHORIZED, under the live authority, with an allocation the live fabric can carry.
   */
  lemma CommitGate(s: State, ref: PlanRef, intent: CommitIntent)
    requires Invariant(s) && ref.id in s.plans && s.plans[ref.id].state != Committed && Commit(s, ref, intent).1.Done?
    ensures var p := s.plans[ref.id];
      && p.state == Authorized && s.live.Some? && p.authority == s.live.value.authority
      && Verifier.Acceptable(s.live.value.fabric, p.allocation)
      && Commit(s, ref, intent).0.plans[ref.id].allocation == p.allocation
  {
    hide GoodLog, CompareAuthority;
    PlanFacts(s, ref.id);
    assert BoundPlan(s.plans[ref.id], s.live);
  }

  /** Replaying an accepted commit changes nothing; any other commit of that plan is refused. */
  lemma CommitReplay(s: State, ref: PlanRef, intent: CommitIntent, again: CommitIntent)
    requires Invariant(s) && Commit(s, ref, intent).1.Done? && again.commit != 0 && again.generation != 0
    ensures var next := Commit(s, ref, intent).0;
      Commit(next, ref, again) == (next, if again.commit == intent.commit && again.generation == intent.generation
                                         then Done else Refused(AlreadyCommitted))
  {
    hide GoodLog, CompareAuthority;
    PlanFacts(s, ref.id);
  }

  /**
   A crash between the two records of a commit leaves no plan committed: the new one is stale, the old one superseded.
   */
  lemma CrashInsideCommit(s: State, id: nat, intent: CommitIntent)
    requires Invariant(s) && id in s.plans && s.plans[id].state == Authorized && HasPrevious(s, s.plans[id])
    ensures var r := Recover(Install(s, s.plans[id], intent).log[..|s.log| + 1]);
      && Invariant(r) && r.incumbent == NO_PLAN && id in r.plans && s.incumbent.id in r.plans
      && r.plans[id].state == PlanState.Stale && r.plans[id].supersedes == NO_PLAN
      && (Readable(s.plans[s.incumbent.id]) ==>
            r.plans[s.incumbent.id].state == PlanState.Superseded
              && r.plans[s.incumbent.id].supersededBy == s.plans[id].Ref())
  {
    hide Invariant, Reaches, Recover, FitsRecord;
    var p, previous := s.plans[id], s.incumbent.id;
    var q := s.plans[previous];
    var superseded := q.(state := PlanState.Superseded, applicability := Applicability.Superseded,
      supersededBy := p.Ref());
    var middle := Put(s, superseded);
    assert Install(s, p, intent).log[..|s.log| + 1] == middle.log;
    PlanFacts(s, id);
    PlanFacts(s, previous);
    SupersededKeeps(s, previous, superseded);
    RecoverKeeps(middle.log) by { LogIsGood(middle); }
    RecoveryAgrees(middle, id);
    RecoveryAgrees(middle, previous);
    NothingElseCommitted(s, previous, superseded);
    NothingRecovered(middle);
  }

  lemma LogIsGood(s: State)
    requires Invariant(s)
    ensures GoodLog(s.log)
  {
  }

  lemma SameIdentities(s: State)
    requires Invariant(s)
    ensures Recover(s.log).plans.Keys == s.plans.Keys
  {
    ReadablesAreGood(s.log);
  }

  /** Where nothing is committed, recovery finds no incumbent. */
  lemma NothingRecovered(s: State)
    requires Invariant(s) && forall id :: id in s.plans ==> s.plans[id].state != Committed
    ensures Recover(s.log).incumbent == NO_PLAN
  {
    hide Invariant, Readables, Fold;
    SameIdentities(s);
    forall id | id in Recover(s.log).plans
      ensures Recover(s.log).plans[id].state != Committed
    {
      RecoveryAgrees(s, id);
    }
  }

  /** A commit whose record cannot be read is acknowledged, and gone after the next recovery. */
  lemma UnreadableCommitIsLost(s: State, ref: PlanRef, intent: CommitIntent)
    requires Invariant(s) && ref.id in s.plans && s.plans[ref.id].state != Committed && Commit(s, ref, intent).1.Done?
    requires !Readable(s.plans[ref.id])
    ensures var next := Commit(s, ref, intent).0;
      && next.plans[ref.id].state == Committed && next.incumbent == next.plans[ref.id].Ref()
      && ref.id in Recover(next.log).plans && Recover(next.log).plans[ref.id].state == PlanState.Stale
      && Recover(next.log).incumbent != next.incumbent
  {
    hide GoodLog, CompareAuthority, Recover, Reaches;
    PlanFacts(s, ref.id);
    CommitKeeps(s, ref, intent);
    RecoveryAgrees(Commit(s, ref, intent).0, ref.id);
  }

  /** A plan that supersedes another is named by that plan in turn, unless the commit of the other was lost. */
  lemma LineageLinksBack(s: State, id: nat)
    requires Invariant(s) && id in s.plans && s.plans[id].supersedes != NO_PLAN
    ensures var q := s.plans[id].supersedes;
      && q.id in s.plans && q.id != id && s.plans[q.id].Ref() == q
      && (s.plans[q.id].supersededBy == s.plans[id].Ref() <==> s.plans[q.id].commit != 0)
      && s.plans[q.id].state != Committed && !IsLive(s.plans[q.id].state)
  {
    hide GoodLog, Reaches;
    PlanFacts(s, id);
    var q := s.plans[id].supersedes.id;
    PlanFacts(s, q);
    if s.plans[q].state == Committed { NotYetSuperseded(s, q, id); }
  }

  // ---- Every operation follows the lifecycle table ----------------------------------------

  /**
   From one state to the next the log only grows, no plan disappears, and each state change is a path of the table.
   */
  ghost predicate Progress(s: State, next: State) {
    && |s.log| <= |next.log| && next.log[..|s.log|] == s.log
    && forall id :: id in s.plans ==> id in next.plans && Reaches(s.plans[id].state, next.plans[id].state)
  }

  lemma NoProgress(s: State)
    ensures Progress(s, s)
  {
    forall id | id in s.plans ensures Reaches(s.plans[id].state, s.plans[id].state) { ReachesSelf(s.plans[id].state); }
  }

  lemma ProgressTransitive(a: State, b: State, c: State)
    requires Progress(a, b) && Progress(b, c)
    ensures Progress(a, c)
  {
    hide Reaches;
    assert c.log[..|a.log|] == c.log[..|b.log|][..|a.log|];
    forall id | id in a.plans
      ensures id in c.plans && Reaches(a.plans[id].state, c.plans[id].state)
    {
      ReachesTransitive(a.plans[id].state, b.plans[id].state, c.plans[id].state);
    }
  }

  /** One plan moves along the table, or is new. */
  lemma PutProgress(s: State, p: Plan)
    requires p.id in s.plans ==> Reaches(s.plans[p.id].state, p.state)
    ensures Progress(s, Put(s, p))
  {
    hide Reaches;
    forall id | id in s.plans
      ensures Reaches(s.plans[id].state, Put(s, p).plans[id].state)
    {
      ReachesSelf(s.plans[id].state);
    }
  }

  lemma MoveProgress(s: State, id: nat, p: Plan)
    requires id in s.plans && p.id == id && (CanTransition(s.plans[id].state, p.state) || s.plans[id].state == p.state)
    ensures Progress(s, Put(s, p))
  {
    if CanTransition(s.plans[id].state, p.state) {
      ReachesOne(s.plans[id].state, p.state);
    } else {
      ReachesSelf(p.state);
    }
    PutProgress(s, p);
  }

  lemma {:induction false} StaleAllProgress(s: State, live: Live, order: seq<nat>)
    requires Invariant(s) && forall i, j :: 0 <= i < j < |order| ==> order[i] != order[j]
    ensures Progress(s, StaleAll(s, live, order))
  {
    hide Invariant, CompareAuthority, CanTransition, Progress;
    NoProgress(s);
    if order != [] {
      var m := |order| - 1;
      var before, id := StaleAll(s, live, order[..m]), order[m];
      StaleAllProgress(s, live, order[..m]);
      StaleAllKeeps(s, live, order[..m]);
      if id in before.plans && Outdated(before.plans[id], live) {
        CanStale(before.plans[id].state);
        PlanFacts(before, id);
        MoveProgress(before, id, Staled(before.plans[id]));
        ProgressTransitive(s, before, Put(before, Staled(before.plans[id])));
      }
    }
  }

  lemma SameButLive(s: State, next: State, live: Live)
    requires Progress(s, next)
    ensures Progress(s, next.(live := Some(live)))
  {
  }

  lemma SameButIncumbent(s: State, next: State, incumbent: PlanRef)
    requires Progress(s, next)
    ensures Progress(s, next.(incumbent := incumbent))
  {
  }

  lemma InstallProgress(s: State, id: nat, intent: CommitIntent)
    requires Invariant(s) && id in s.plans && s.plans[id].state == Authorized
    ensures Progress(s, Install(s, s.plans[id], intent))
  {
    hide Invariant, Progress;
    var p := s.plans[id];
    PlanFacts(s, id);
    var committed := p.(state := Committed, applicability := Current, commit := intent.commit,
                        commitGeneration := intent.generation, committedTick := intent.tick);
    if HasPrevious(s, p) {
      var q := s.plans[s.incumbent.id];
      PlanFacts(s, s.incumbent.id);
      var superseded := q.(state := PlanState.Superseded, applicability := Applicability.Superseded,
        supersededBy := p.Ref());
      MoveProgress(s, q.id, superseded);
      var middle := Put(s, superseded);
      MoveProgress(middle, id, committed.(supersedes := q.Ref()));
      ProgressTransitive(s, middle, Put(middle, committed.(supersedes := q.Ref())));
      SameButIncumbent(s, Put(middle, committed.(supersedes := q.Ref())), p.Ref());
    } else {
      MoveProgress(s, id, committed);
      SameButIncumbent(s, Put(s, committed), p.Ref());
    }
  }

  lemma JudgedProgress(s: State, id: nat, p: Plan)
    requires id in s.plans && p.state == s.plans[id].state
    ensures Progress(s, s.(plans := s.plans[id := p]))
  {
    forall other | other in s.plans
      ensures Reaches(s.plans[other].state, s.plans[id := p][other].state)
    {
      ReachesSelf(s.plans[other].state);
    }
  }

  lemma ProgressIsFinal(s: State, next: State, id: nat)
    requires Progress(s, next) && id in s.plans && IsTerminal(s.plans[id].state)
    ensures id in next.plans && next.plans[id].state == s.plans[id].state
  {
    ReachesOnwards(s.plans[id].state, next.plans[id].state);
  }

  lemma ValidateProgress(s: State, ref: PlanRef)
    requires Invariant(s)
    ensures Progress(s, Validate(s, ref).0)
  {
    hide Progress, Compared, GoodLog, Reaches;
    NoProgress(s);
    if Check(s, ref, Validated).None? {
      var p := s.plans[ref.id];
      PlanFacts(s, ref.id);
      assert BoundPlan(p, s.live);
      MoveProgress(s, ref.id, Staled(p));
      MoveProgress(s, ref.id, p.(state := Validated, applicability := Current));
    }
  }

  lemma SolveProgress(s: State, ref: PlanRef, result: SolveResult)
    requires Invariant(s)
    ensures Progress(s, Solve(s, ref, result).0)
  {
    hide Progress, Compared, Invariant, Reaches;
    NoProgress(s);
    if Check(s, ref, Solving).None? {
      var p := s.plans[ref.id];
      PlanFacts(s, ref.id);
      MoveProgress(s, ref.id, Staled(p));
      SolvingLeadsTo(p.state, AfterSolve(p, result).state);
      PutProgress(s, AfterSolve(p, result));
    }
  }

  lemma AuthorizeProgress(s: State, ref: PlanRef)
    requires Invariant(s)
    ensures Progress(s, Authorize(s, ref).0)
  {
    hide Progress, Compared, Invariant, Reaches;
    NoProgress(s);
    if Check(s, ref, Authorized).None? {
      var p := s.plans[ref.id];
      PlanFacts(s, ref.id);
      MoveProgress(s, ref.id, Staled(p));
      MoveProgress(s, ref.id, p.(state := Rejected));
      MoveProgress(s, ref.id, p.(state := Authorized, applicability := Current));
    }
  }

  lemma SubmitProgress(s: State, live: Live, order: seq<nat>)
    requires Invariant(s) && Lists(order, s.plans)
    ensures Progress(s, Submit(s, live, order).0)
  {
    hide Progress, Invariant, StaleAll;
    NoProgress(s);
    StaleAllProgress(s, live, order);
    SameButLive(s, StaleAll(s, live, order), live);
  }

  lemma DeclareProgress(s: State, config: Config, r: DeclareRequest)
    ensures Progress(s, Declare(s, config, r).0)
  {
    hide Progress;
    NoProgress(s);
    if Declare(s, config, r).1.Done? { PutProgress(s, Declare(s, config, r).0.plans[r.plan]); }
  }

  lemma CommitProgress(s: State, ref: PlanRef, intent: CommitIntent)
    requires Invariant(s)
    ensures Progress(s, Commit(s, ref, intent).0)
  {
    hide Progress, Compared, Invariant, Install, Verifier.Acceptable;
    NoProgress(s);
    if ref.id in s.plans && s.plans[ref.id].state == Authorized {
      PlanFacts(s, ref.id);
      MoveProgress(s, ref.id, Staled(s.plans[ref.id]));
      MoveProgress(s, ref.id, s.plans[ref.id].(state := Rejected));
      InstallProgress(s, ref.id, intent);
    }
  }

  lemma MarkStaleProgress(s: State, ref: PlanRef)
    requires Invariant(s)
    ensures Progress(s, MarkStale(s, ref).0)
  {
    hide Progress, Invariant;
    NoProgress(s);
    if MarkStale(s, ref).1.Done? {
      PlanFacts(s, ref.id);
      MoveProgress(s, ref.id, Staled(s.plans[ref.id]));
    }
  }

  lemma RetireProgress(s: State, ref: PlanRef)
    requires Invariant(s)
    ensures Progress(s, Retire(s, ref).0)
  {
    hide Progress, Invariant;
    NoProgress(s);
    if Retire(s, ref).1.Done? {
      PlanFacts(s, ref.id);
      var p := s.plans[ref.id].(state := PlanState.Retired, applicability := Applicability.Retired);
      MoveProgress(s, ref.id, p);
      SameButIncumbent(s, Put(s, p), Retire(s, ref).0.incumbent);
    }
  }

  lemma RevalidateProgress(s: State, ref: PlanRef)
    requires Invariant(s)
    ensures Progress(s, Revalidate(s, ref).0)
  {
    hide Progress, Invariant, Compared;
    NoProgress(s);
    if ref.id in s.plans {
      var p := s.plans[ref.id];
      PlanFacts(s, ref.id);
      JudgedProgress(s, ref.id, p.(applicability := Current));
      JudgedProgress(s, ref.id, p.(applicability := Applicability.Stale));
      if p.state == Committed { MoveProgress(s, ref.id, Staled(p)); }
    }
  }

  /**
   No operation leaves the lifecycle table, forgets a plan, or rewrites the log; so REJECTED and RETIRED are final.
   */
  lemma StepFollowsTable(s: State, op: Operation, id: nat)
    requires Invariant(s) && (op.SubmitOp? ==> Lists(op.order, s.plans))
    ensures Progress(s, Step(s, op).0)
    ensures id in s.plans && IsTerminal(s.plans[id].state) ==>
      id in Step(s, op).0.plans && Step(s, op).0.plans[id].state == s.plans[id].state
  {
    hide Invariant, Progress, Submit, Declare, Validate, Solve, Authorize, Commit, Supersede, MarkStale, Retire,
      Revalidate;
    match op {
      case SubmitOp(live, order) => SubmitProgress(s, live, order);
      case DeclareOp(config, request) => DeclareProgress(s, config, request);
      case ValidateOp(ref) => ValidateProgress(s, ref);
      case SolveOp(ref, result) => SolveProgress(s, ref, result);
      case AuthorizeOp(ref) => AuthorizeProgress(s, ref);
      case CommitOp(ref, intent) => CommitProgress(s, ref, intent);
      case SupersedeOp(ref, replacement) =>
        SupersedeAlwaysRefused(s, ref, replacement);
        NoProgress(s);
      case MarkStaleOp(ref) => MarkStaleProgress(s, ref);
      case RetireOp(ref) => RetireProgress(s, ref);
      case RevalidateOp(ref) => RevalidateProgress(s, ref);
    }
    if id in s.plans && IsTerminal(s.plans[id].state) { ProgressIsFinal(s, Step(s, op).0, id); }
  }
}
