/** The plan lifecycle: PlanStateMachine of src/plan.cpp. */
module PlanLifecycle {

  datatype PlanState =
    | Declared | Validated | Solving | Proposed | Authorized | Committed | Superseded | Stale | Degraded | Rejected
      | Retired

  predicate IsTerminal(state: PlanState) {
    state == Rejected || state == Retired
  }

  predicate IsLive(state: PlanState) {
    state in {Declared, Validated, Solving, Proposed, Degraded, Authorized}
  }

  predicate CanTransition(from: PlanState, to: PlanState) {
    from != to &&
    match from
    case Declared => to == Validated || to == Rejected || to == Stale
    case Validated => to == Solving || to == Rejected || to == Stale
    case Solving => to == Proposed || to == Degraded || to == Rejected || to == Stale
    case Proposed => to == Authorized || to == Rejected || to == Stale
    case Degraded => to == Authorized || to == Rejected || to == Stale
    case Authorized => to == Committed || to == Rejected || to == Stale
    case Committed => to == Superseded || to == Stale || to == Retired
    case Superseded => to == Retired || to == Stale
    case Stale => to == Retired
    case Rejected => false
    case Retired => false
  }

  /** A chain of transitions of the table. */
  predicate IsPath(states: seq<PlanState>) {
    |states| > 0 && forall i :: 0 <= i < |states| - 1 ==> CanTransition(states[i], states[i + 1])
  }

  ghost predicate Reaches(from: PlanState, to: PlanState) {
    exists states: seq<PlanState> :: IsPath(states) && states[0] == from && states[|states| - 1] == to
  }

  function Rank(state: PlanState): nat {
    match state
    case Declared => 0
    case Validated => 1
    case Solving => 2
    case Proposed => 3
    case Degraded => 3
    case Authorized => 4
    case Committed => 5
    case Superseded => 6
    case Stale => 7
    case Rejected => 8
    case Retired => 8
  }

  /** The lifecycle has no cycle: a plan makes at most eight transitions. */
  lemma {:induction false} PathsAreShort(states: seq<PlanState>)
    requires IsPath(states)
    ensures Rank(states[0]) + |states| - 1 <= Rank(states[|states| - 1]) <= 8
  {
    if |states| > 1 {
      var n := |states| - 1;
      var before := states[..n];
      assert IsPath(before);
      PathsAreShort(before);
      assert CanTransition(states[n - 1], states[n - 1 + 1]);
    }
  }

  lemma ReachesSelf(state: PlanState)
    ensures Reaches(state, state)
  {
    assert IsPath([state]);
  }

  lemma ReachesOne(from: PlanState, to: PlanState)
    requires CanTransition(from, to)
    ensures Reaches(from, to)
  {
    var path := [from, to];
    assert IsPath(path) && path[0] == from && path[|path| - 1] == to;
  }

  lemma ReachesTransitive(a: PlanState, b: PlanState, c: PlanState)
    requires Reaches(a, b) && Reaches(b, c)
    ensures Reaches(a, c)
  {
    var p :| IsPath(p) && p[0] == a && p[|p| - 1] == b;
    var q :| IsPath(q) && q[0] == b && q[|q| - 1] == c;
    var r := p + q[1..];
    forall i | 0 <= i < |r| - 1
      ensures CanTransition(r[i], r[i + 1])
    {
      if i >= |p| - 1 { assert r[i] == q[i - (|p| - 1)] && r[i + 1] == q[i - (|p| - 1) + 1]; }
    }
    assert IsPath(r) && r[0] == a && r[|r| - 1] == c;
  }

  /**
   Where a plan can go: nothing leads out of REJECTED and RETIRED, and nothing back into a live state or COMMITTED.
   */
  lemma ReachesOnwards(from: PlanState, to: PlanState)
    requires Reaches(from, to)
    ensures IsTerminal(from) ==> to == from
    ensures !IsLive(from) ==> !IsLive(to)
    ensures !IsLive(from) && from != Committed ==> to != Committed
    ensures from == Superseded ==> to == Superseded || to == Stale || to == Retired
    ensures from == Committed ==> to == Committed || to == Superseded || to == Stale || to == Retired
    ensures from == Stale ==> to == Stale || to == Retired
    ensures to == Superseded ==> IsLive(from) || from == Committed || from == Superseded
    ensures (to == Validated ==> from == Declared || from == Validated) && (to == Declared ==> from == Declared)
    ensures to == Proposed ==> from == Declared || from == Validated || from == Solving || from == Proposed
    ensures to == Degraded ==> from == Declared || from == Validated || from == Solving || from == Degraded
  {
    var states :| IsPath(states) && states[0] == from && states[|states| - 1] == to;
    PathOnwards(states);
  }

  lemma {:induction false} PathOnwards(states: seq<PlanState>)
    requires IsPath(states)
    ensures var from, to := states[0], states[|states| - 1];
      && (IsTerminal(from) ==> to == from)
      && (!IsLive(from) ==> !IsLive(to))
      && (!IsLive(from) && from != Committed ==> to != Committed)
      && (from == Superseded ==> to == Superseded || to == Stale || to == Retired)
      && (from == Committed ==> to == Committed || to == Superseded || to == Stale || to == Retired)
      && (from == Stale ==> to == Stale || to == Retired)
      && (to == Superseded ==> IsLive(from) || from == Committed || from == Superseded)
      && (to == Validated ==> from == Declared || from == Validated) && (to == Declared ==> from == Declared)
      && (to == Solving ==> from == Declared || from == Validated || from == Solving)
      && (to == Proposed ==> from == Declared || from == Validated || from == Solving || from == Proposed)
      && (to == Degraded ==> from == Declared || from == Validated || from == Solving || from == Degraded)
  {
    if |states| > 1 {
      var n := |states| - 1;
      assert IsPath(states[..n]);
      PathOnwards(states[..n]);
      assert CanTransition(states[n - 1], states[n - 1 + 1]);
    }
  }

  /** The table read backwards: from which states each state can be entered. */
  lemma TableByTarget(from: PlanState, to: PlanState)
    ensures CanTransition(from, to) <==>
      match to
      case Declared => false
      case Validated => from == Declared
      case Solving => from == Validated
      case Proposed => from == Solving
      case Degraded => from == Solving
      case Authorized => from == Proposed || from == Degraded
      case Committed => from == Authorized
      case Superseded => from == Committed
      case Stale => IsLive(from) || from == Committed || from == Superseded
      case Rejected => IsLive(from)
      case Retired => from == Committed || from == Superseded || from == Stale
    ensures IsLive(from) <==> from != Committed && from != Superseded && from != Stale && !IsTerminal(from)
    ensures IsTerminal(from) <==> forall next: PlanState :: !CanTransition(from, next)
  {
    if !IsTerminal(from) { assert CanTransition(from, Stale) || CanTransition(from, Retired); }
  }
}
