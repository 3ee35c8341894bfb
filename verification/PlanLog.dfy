/**
 The log of plan records that an engine writes (src/engine.cpp): which record may follow which, and what
 every prefix of such a log says about the plans.
 */
module PlanLog {
  import opened Numeric
  import opened PlanLifecycle
  import opened Authority
  import Verifier

  datatype Applicability = NotEvaluated | Current | RevalidationRequired | Stale | Superseded | Retired

  datatype ChurnDecision = NoIncumbent | Accept | HoldIncumbent | RejectRegression

  datatype PlanRef = PlanRef(id: nat, generation: nat)

  const NO_PLAN := PlanRef(0, 0)

  datatype Plan = Plan(
    id: nat,
    generation: nat,
    state: PlanState,
    applicability: Applicability,
    authority: AuthorityVector,
    publisher: nat,
    publisherBoot: nat,
    attempt: nat,
    attemptGeneration: nat,
    allocation: Verifier.Allocation,
    churn: ChurnDecision,
    commit: nat,
    commitGeneration: nat,
    committedTick: nat,
    supersedes: PlanRef,
    supersededBy: PlanRef
  ) {
    function Ref(): PlanRef { PlanRef(id, generation) }
  }

  type Plans = map<nat, Plan>

  // ---- What decode_plan reads back -------------------------------------------------

  const MAX_DEMANDS: nat := 4096
  const MAX_PATHS_PER_DEMAND: nat := 64

  /** The bounds that decode_plan puts on an allocation. encode_plan puts none. */
  predicate FitsRecord(a: Verifier.Allocation) {
    |a.demands| <= MAX_DEMANDS && forall i :: 0 <= i < |a.demands| ==> |a.demands[i].shares| <= MAX_PATHS_PER_DEMAND
  }

  predicate Readable(p: Plan) {
    FitsRecord(p.allocation)
  }

  /** The records that recovery can read; the others are skipped. */
  function Readables(log: seq<Plan>): (seen: seq<Plan>)
    ensures forall i :: 0 <= i < |seen| ==> Readable(seen[i])
  {
    if log == [] then []
    else
      var before := Readables(log[..|log| - 1]);
      if Readable(log[|log| - 1]) then before + [log[|log| - 1]] else before
  }

  /** Recovery keeps the latest record of each plan. */
  function Fold(log: seq<Plan>): Plans {
    if log == [] then map[] else Fold(log[..|log| - 1])[log[|log| - 1].id := log[|log| - 1]]
  }

  /** The fields that a plan gets when it commits, or when it is superseded. */
  predicate SameLineage(a: Plan, b: Plan) {
    a.commit == b.commit && a.commitGeneration == b.commitGeneration && a.committedTick == b.committedTick
    && a.supersedes == b.supersedes && a.supersededBy == b.supersededBy
  }

  predicate FreshPlan(p: Plan) {
    && p.state == Declared && p.commit == 0 && p.supersedes == NO_PLAN && p.supersededBy == NO_PLAN
    && p.allocation == Verifier.Allocation([], false)
  }

  predicate Unsolved(p: Plan) {
    p.state == Declared || p.state == Validated
  }

  /** The allocation is written once, by the solver. */
  predicate SolvedOnce(was: Plan, p: Plan) {
    p.allocation == was.allocation || (was.state == Validated && !Unsolved(p))
  }

  /**
   p supersedes nothing, or a plan that the log shows as superseded by p, unless the log has lost sight of its
   commit because the record could not be read.
   */
  predicate SupersedesIn(plans: Plans, p: Plan) {
    p.supersedes == NO_PLAN
    || (p.supersedes.id in plans && p.supersedes.id != p.id && plans[p.supersedes.id].Ref() == p.supersedes
        && (plans[p.supersedes.id].commit == 0 || plans[p.supersedes.id].supersededBy == p.Ref()))
  }

  /** No plan claims to have superseded p, or what p supersedes. */
  predicate FirstClaim(plans: Plans, p: Plan) {
    forall id :: id in plans ==>
      plans[id].supersedes.id != p.id && (p.supersedes != NO_PLAN ==> plans[id].supersedes != p.supersedes)
  }

  /** What a record that commits a plan may look like. */
  predicate Commits(plans: Plans, was: Plan, p: Plan) {
    && was.state == Authorized && p.state == Committed && p.commit != 0 && p.supersededBy == NO_PLAN
    && (forall id :: id in plans ==> plans[id].state != Committed)
    && SupersedesIn(plans, p) && FirstClaim(plans, p)
  }

  predicate IsSuperseded(was: Plan, p: Plan) {
    && was.state == Committed && p.state == PlanState.Superseded && p.supersededBy != NO_PLAN
    && p == was.(state := p.state, applicability := p.applicability, supersededBy := p.supersededBy)
  }

  /** p may be the next record of a log that folds to these plans. */
  ghost predicate MayFollow(plans: Plans, p: Plan) {
    && p.id > 0 && p.generation == 1 && p.authority.Valid() && p.state != Solving
    && if p.id !in plans then FreshPlan(p)
       else
         var was := plans[p.id];
         p.authority == was.authority && Reaches(was.state, p.state) && SolvedOnce(was, p)
         && (Commits(plans, was, p) || IsSuperseded(was, p)
             || (p.state != Committed && p.state != PlanState.Superseded && SameLineage(was, p)))
  }

  /** Every record may follow those before it. Every prefix of a good log is good. */
  ghost predicate GoodLog(log: seq<Plan>) {
    log != [] ==> GoodLog(log[..|log| - 1]) && MayFollow(Fold(log[..|log| - 1]), log[|log| - 1])
  }

  ghost predicate PlanOk(plans: Plans, id: nat)
    requires id in plans
  {
    var p := plans[id];
    && p.id == id && id > 0 && p.generation == 1 && p.authority.Valid() && p.state != Solving
    && (IsLive(p.state) ==> p.commit == 0 && p.supersedes == NO_PLAN)
    && (p.commit == 0 ==> p.supersededBy == NO_PLAN)
    && (p.state == Committed ==> p.commit != 0 && p.supersededBy == NO_PLAN)
    && (p.state == PlanState.Superseded ==> p.commit != 0)
    && (Unsolved(p) ==> Readable(p))
    && SupersedesIn(plans, p)
  }

  predicate OneCommitted(plans: Plans) {
    forall a, b :: a in plans && b in plans && plans[a].state == Committed && plans[b].state == Committed ==> a == b
  }

  /** No two plans supersede the same plan. */
  predicate OneSuccessor(plans: Plans) {
    forall a, b :: a in plans && b in plans && plans[a].supersedes == plans[b].supersedes != NO_PLAN ==> a == b
  }

  /** What holds of the plans at every point of the log. */
  ghost predicate Consistent(plans: Plans) {
    OneCommitted(plans) && OneSuccessor(plans) && forall id :: id in plans ==> PlanOk(plans, id)
  }

  lemma NextConsistent(plans: Plans, p: Plan)
    requires Consistent(plans) && MayFollow(plans, p)
    ensures Consistent(plans[p.id := p])
  {
    hide Reaches, Readable;
    var next := plans[p.id := p];
    NextIsOk(plans, p);
    forall id | id in plans && id != p.id
      ensures PlanOk(next, id)
    {
      OtherIsOk(plans, p, id);
    }
    if p.id in plans { assert PlanOk(plans, p.id); }
  }

  lemma NextIsOk(plans: Plans, p: Plan)
    requires Consistent(plans) && MayFollow(plans, p)
    ensures PlanOk(plans[p.id := p], p.id)
  {
    hide Reaches;
    if p.id in plans {
      ReachesOnwards(plans[p.id].state, p.state);
      assert PlanOk(plans, p.id);
    }
  }

  /** A new record spoils no claim of another plan. */
  lemma OtherIsOk(plans: Plans, p: Plan, id: nat)
    requires Consistent(plans) && MayFollow(plans, p) && id in plans && id != p.id
    ensures PlanOk(plans[p.id := p], id)
  {
    hide Reaches, Readable;
    assert PlanOk(plans, id);
    if p.id in plans { assert PlanOk(plans, p.id); }
  }

  /** In every prefix of the log at most one plan is committed, and lineage links point back. */
  lemma {:induction false} GoodLogConsistent(log: seq<Plan>)
    requires GoodLog(log)
    ensures Consistent(Fold(log))
  {
    hide Consistent, MayFollow;
    if log != [] {
      GoodLogConsistent(log[..|log| - 1]);
      NextConsistent(Fold(log[..|log| - 1]), log[|log| - 1]);
    } else {
      assert Consistent(map[]) by { NoPlans(); }
    }
  }

  lemma NoPlans()
    ensures Consistent(map[])
  {
  }

  lemma {:induction false} GoodPrefix(log: seq<Plan>, k: nat)
    requires GoodLog(log) && k <= |log|
    ensures GoodLog(log[..k])
  {
    hide MayFollow;
    if k < |log| {
      GoodPrefix(log[..|log| - 1], k);
      assert log[..|log| - 1][..k] == log[..k];
    } else {
      assert log[..k] == log;
    }
  }

  lemma Extended(log: seq<Plan>, p: Plan)
    requires GoodLog(log) && MayFollow(Fold(log), p)
    ensures GoodLog(log + [p]) && Fold(log + [p]) == Fold(log)[p.id := p]
  {
    assert (log + [p])[..|log|] == log;
  }

  /** Record i is what the log says about its plan right after it was written. */
  lemma FoldAt(log: seq<Plan>, i: nat)
    requires i < |log|
    ensures Fold(log[..i + 1]) == Fold(log[..i])[log[i].id := log[i]]
  {
    assert log[..i + 1][..i] == log[..i];
  }

  predicate SameCommit(a: Plan, b: Plan) {
    a.commit == b.commit && a.commitGeneration == b.commitGeneration && a.supersedes == b.supersedes
  }

  /** The history of one plan is a path through the lifecycle, and its commit identity is written once. */
  lemma {:induction false} HistoryFollowsTable(log: seq<Plan>, i: nat, k: nat)
    requires GoodLog(log) && i < k <= |log|
    ensures var plans, first := Fold(log[..k]), log[i];
      && first.id in plans && Reaches(first.state, plans[first.id].state)
      && (first.commit != 0 ==> SameCommit(first, plans[first.id]))
  {
    hide Reaches;
    var first := log[i];
    GoodPrefix(log, k);
    GoodPrefix(log, k - 1);
    FoldAt(log, k - 1);
    assert log[..k][..k - 1] == log[..k - 1];
    GoodLogConsistent(log[..k - 1]);
    if i == k - 1 {
      ReachesSelf(first.state);
    } else {
      HistoryFollowsTable(log, i, k - 1);
      var before, r := Fold(log[..k - 1]), log[k - 1];
      if r.id == first.id {
        assert PlanOk(before, r.id);
        ReachesTransitive(first.state, before[r.id].state, r.state);
      }
    }
  }

  /** Each plan commits at most once, under one commit identity. */
  lemma CommitsOnce(log: seq<Plan>, i: nat, j: nat)
    requires GoodLog(log) && i < j < |log| && log[i].id == log[j].id && log[i].state == Committed
    ensures log[j].state != Committed && !IsLive(log[j].state)
    ensures SameCommit(log[i], log[j])
  {
    hide Reaches;
    HistoryFollowsTable(log, i, j);
    HistoryFollowsTable(log, i, j + 1);
    FoldAt(log, j);
    var before := Fold(log[..j]);
    GoodPrefix(log, i + 1);
    GoodLogConsistent(log[..i + 1]);
    FoldAt(log, i);
    assert PlanOk(Fold(log[..i + 1]), log[i].id);
    ReachesOnwards(log[i].state, before[log[j].id].state);
    ReachesOnwards(log[i].state, log[j].state);
    GoodPrefix(log, j + 1);
    assert log[..j + 1][..j] == log[..j];
    assert MayFollow(before, log[j]);
  }

  // ---- Lineage ---------------------------------------------------------------------

  predicate CommittedAt(log: seq<Plan>, i: int, id: nat) {
    0 <= i < |log| && log[i].id == id && log[i].state == Committed
  }

  /** A plan with a commit identity has a record that committed it. */
  lemma {:induction false} CommittedSomewhere(log: seq<Plan>, id: nat) returns (i: nat)
    requires GoodLog(log) && id in Fold(log) && Fold(log)[id].commit != 0
    ensures CommittedAt(log, i, id)
  {
    hide Reaches;
    var m := |log| - 1;
    if CommittedAt(log, m, id) {
      i := m;
    } else {
      GoodLogConsistent(log[..m]);
      i := CommittedSomewhere(log[..m], id);
    }
  }

  /** If the log shows that the plan superseded by commit j was committed at all, it was committed before. */
  lemma SupersededWasCommitted(log: seq<Plan>, j: nat) returns (i: nat)
    requires GoodLog(log) && j < |log| && log[j].state == Committed && log[j].supersedes.id in Fold(log[..j])
    requires Fold(log[..j])[log[j].supersedes.id].commit != 0
    ensures i < j && CommittedAt(log, i, log[j].supersedes.id)
  {
    GoodPrefix(log, j);
    i := CommittedSomewhere(log[..j], log[j].supersedes.id);
  }

  /** A plan never commits after its successor. */
  lemma SupersededEarlier(log: seq<Plan>, i: nat, j: nat)
    requires GoodLog(log) && i < |log| && j < |log| && log[i].state == log[j].state == Committed
    requires log[j].supersedes == log[i].Ref()
    ensures i < j
  {
    hide Reaches, Fold;
    RecordFollows(log, i);
    RecordFollows(log, j);
    if j < i {
      HistoryFollowsTable(log, j, i);
      RecordCommits(log, j);
    }
  }

  /** What a record adds may follow the records before it. */
  lemma RecordFollows(log: seq<Plan>, i: nat)
    requires GoodLog(log) && i < |log|
    ensures MayFollow(Fold(log[..i]), log[i])
  {
    hide MayFollow;
    GoodPrefix(log, i + 1);
    assert log[..i + 1][..i] == log[..i];
  }

  lemma RecordCommits(log: seq<Plan>, i: nat)
    requires GoodLog(log) && i < |log| && log[i].state == Committed
    ensures log[i].commit != 0
  {
    hide Reaches;
    RecordFollows(log, i);
  }

  /** Positions of the commits that lead back from commit j, newest first. */
  ghost predicate Lineage(log: seq<Plan>, chain: seq<nat>) {
    && (forall k :: 0 <= k < |chain| ==> chain[k] < |log| && log[chain[k]].state == Committed)
    && (forall k :: 0 <= k < |chain| - 1 ==> log[chain[k]].supersedes == log[chain[k + 1]].Ref())
  }

  /** Following `supersedes` goes strictly back in the log ... */
  lemma {:induction false} LineageGoesBack(log: seq<Plan>, chain: seq<nat>, a: nat, b: nat)
    requires GoodLog(log) && Lineage(log, chain) && a < b < |chain|
    ensures chain[b] < chain[a]
    decreases b - a
  {
    hide GoodLog;
    if a + 1 < b {
      LineageGoesBack(log, chain, a, b - 1);
    }
    var j := chain[b - 1];
    assert log[chain[b - 1]].supersedes == log[chain[b - 1 + 1]].Ref();
    SupersededEarlier(log, chain[b], j);
  }

  /** ... so the lineage never comes back to a plan: it is acyclic and no longer than the log. */
  lemma LineageIsAcyclic(log: seq<Plan>, chain: seq<nat>, a: nat, b: nat)
    requires GoodLog(log) && Lineage(log, chain) && a < b < |chain|
    ensures log[chain[a]].id != log[chain[b]].id
  {
    hide GoodLog;
    LineageGoesBack(log, chain, a, b);
    if log[chain[a]].id == log[chain[b]].id { CommitsOnce(log, chain[b], chain[a]); }
  }

  /** The lineage is linear: no two plans supersede the same plan, and what is superseded names its successor. */
  lemma LineageIsLinear(log: seq<Plan>, a: nat, b: nat)
    requires GoodLog(log) && a in Fold(log) && b in Fold(log)
    requires Fold(log)[a].supersedes == Fold(log)[b].supersedes != NO_PLAN
    ensures a == b
    ensures var q := Fold(log)[a].supersedes.id;
      q in Fold(log) && (Fold(log)[q].commit != 0 ==> Fold(log)[q].supersededBy == Fold(log)[a].Ref())
  {
    GoodLogConsistent(log);
    assert PlanOk(Fold(log), a) && PlanOk(Fold(log), b);
  }

  // ---- Records that cannot be read ---------------------------------------------------

  /** A plan in the readable part of the log against the whole log: the same, or as it was before it was solved. */
  ghost predicate SeenAs(seen: Plan, logged: Plan) {
    && (Readable(logged) ==> seen == logged)
    && (!Readable(logged) ==>
          Readable(seen) && Unsolved(seen) && seen.id == logged.id && seen.generation == logged.generation == 1
          && seen.authority == logged.authority && seen.commit == 0
          && seen.supersedes == NO_PLAN && seen.supersededBy == NO_PLAN)
  }

  ghost predicate AllSeen(seen: Plans, logged: Plans) {
    seen.Keys == logged.Keys && forall id :: id in logged ==> SeenAs(seen[id], logged[id])
  }

  /** A readable record may follow the readable part of the log. */
  lemma ReadableFollows(seen: Plans, logged: Plans, p: Plan)
    requires Consistent(logged) && AllSeen(seen, logged) && MayFollow(logged, p) && Readable(p)
    ensures MayFollow(seen, p)
  {
    hide Reaches;
    if p.id in logged {
      var was := logged[p.id];
      assert PlanOk(logged, p.id) && SeenAs(seen[p.id], was);
      assert Readable(was) && seen[p.id] == was;
      if Commits(logged, was, p) {
        forall id | id in seen
          ensures seen[id].state != Committed && seen[id].supersedes.id != p.id
          ensures p.supersedes != NO_PLAN ==> seen[id].supersedes != p.supersedes
        {
          assert SeenAs(seen[id], logged[id]);
        }
        if p.supersedes != NO_PLAN { assert SeenAs(seen[p.supersedes.id], logged[p.supersedes.id]); }
      }
    }
  }

  /** An unreadable record leaves the plan as it was seen before it was solved. */
  lemma UnreadableIsBehind(seen: Plans, logged: Plans, p: Plan)
    requires Consistent(logged) && AllSeen(seen, logged) && MayFollow(logged, p) && !Readable(p)
    ensures AllSeen(seen, logged[p.id := p])
  {
    hide Reaches;
    assert p.id in logged;
    assert PlanOk(logged, p.id) && SeenAs(seen[p.id], logged[p.id]);
  }

  lemma ReadableIsSeen(seen: Plans, logged: Plans, p: Plan)
    requires AllSeen(seen, logged) && Readable(p)
    ensures AllSeen(seen[p.id := p], logged[p.id := p])
  {
  }

  /**
   The readable part of a good log is a good log, and shows every plan as the whole log does or as it was before it
   was solved.
   */
  lemma {:induction false} ReadablesAreGood(log: seq<Plan>)
    requires GoodLog(log)
    ensures GoodLog(Readables(log)) && AllSeen(Fold(Readables(log)), Fold(log))
  {
    hide MayFollow, Consistent, AllSeen, Readable;
    if log == [] {
      assert AllSeen(Fold([]), Fold([])) by { NothingSeen(); }
    } else {
      var before, p := log[..|log| - 1], log[|log| - 1];
      ReadablesAreGood(before);
      GoodLogConsistent(before);
      if Readable(p) {
        ReadableFollows(Fold(Readables(before)), Fold(before), p);
        Extended(Readables(before), p);
        ReadableIsSeen(Fold(Readables(before)), Fold(before), p);
      } else {
        UnreadableIsBehind(Fold(Readables(before)), Fold(before), p);
      }
    }
  }

  lemma NothingSeen()
    ensures AllSeen(Fold([]), Fold([]))
  {
  }

  /** Reading what was already read once skips nothing more. */
  lemma {:induction false} ReadablesConcat(a: seq<Plan>, b: seq<Plan>)
    ensures Readables(Readables(a) + b) == Readables(a + b) == Readables(a) + Readables(b)
    decreases |a| + |b|
  {
    hide Readable;
    if b != [] {
      var m := |b| - 1;
      ReadablesConcat(a, b[..m]);
      assert (a + b)[..|a + b| - 1] == a + b[..m];
      assert (Readables(a) + b)[..|Readables(a) + b| - 1] == Readables(a) + b[..m];
    } else if a != [] {
      var m := |a| - 1;
      ReadablesConcat(a[..m], []);
      assert a + b == a && Readables(a) + b == Readables(a);
      assert a[..m] + [] == a[..m] && Readables(a[..m]) + [] == Readables(a[..m]);
      if Readable(a[m]) { assert (Readables(a[..m]) + [a[m]])[..|Readables(a[..m])|] == Readables(a[..m]); }
    }
  }
}
