/** Whole runs: what one phase, and the sequence of phases, achieve. */
module Phases {
  import opened Numeric
  import opened FlowTheory
  import opened Residual
  import opened Layers
  import opened Augmentation

  /** The slots hold a feasible flow from source to sink. */
  ghost predicate Carries(adj: Adjacency, arcs: seq<StoredArc>, owner: seq<seq<nat>>, source: nat, sink: nat) {
    && Represents(adj, arcs, owner) && source < |adj| && sink < |adj| && source != sink
    && IsFlow(Plain(arcs), FlowOf(adj, arcs), source, sink)
    && Divergence(adj, arcs, source) >= 0
  }

  lemma StartsEmpty(adj: Adjacency, arcs: seq<StoredArc>, owner: seq<seq<nat>>, source: nat, sink: nat)
    requires Represents(adj, arcs, owner) && source < |adj| && sink < |adj| && source != sink
    requires forall k :: 0 <= k < |arcs| ==> FlowOf(adj, arcs)[k] == 0
    ensures Carries(adj, arcs, owner, source, sink) && Divergence(adj, arcs, source) == 0
  {
    FlowWithinCapacity(adj, arcs, owner);
    forall x: nat ensures NetOut(Plain(arcs), FlowOf(adj, arcs), x) == 0 {
      NetOutZero(Plain(arcs), FlowOf(adj, arcs), x);
    }
  }

  lemma StartPhase(adj: Adjacency, arcs: seq<StoredArc>, owner: seq<seq<nat>>, level: seq<int>, next: seq<nat>,
                   source: nat, sink: nat)
    requires Represents(adj, arcs, owner) && BreadthFirst(adj, source, level) && sink < |adj|
    requires |next| == |adj| && forall u :: 0 <= u < |next| ==> next[u] == 0
    ensures PhaseOk(adj, arcs, owner, level, next, sink) && |level| == |adj| && level[source] == 0
  {
  }

  /** One augmentation raises the value of the flow by what it pushed. */
  lemma AugmentCarries(adj: Adjacency, next: seq<nat>, adj': Adjacency, next': seq<nat>, arcs: seq<StoredArc>,
                       owner: seq<seq<nat>>,
                       level: seq<int>, source: nat, sink: nat, p: int)
    requires Carries(adj, arcs, owner, source, sink) && p >= 0
    requires Represents(adj', arcs, owner) && Delivered(adj, adj', arcs, source, sink, p)
    requires Untouched(adj, next, adj', next', level, source)
    ensures Carries(adj', arcs, owner, source, sink) && |adj'| == |adj|
    ensures Divergence(adj', arcs, source) == Divergence(adj, arcs, source) + p
  {
    FlowWithinCapacity(adj', arcs, owner);
    forall x: nat | x != source && x != sink ensures NetOut(Plain(arcs), FlowOf(adj', arcs), x) == 0 {
      assert Divergence(adj', arcs, x) == Divergence(adj, arcs, x) == 0;
    }
  }

  /** The value can never pass the capacity out of the source: augmentations cannot go on for ever. */
  lemma ValueBounded(adj: Adjacency, arcs: seq<StoredArc>, owner: seq<seq<nat>>, source: nat, sink: nat)
    requires Carries(adj, arcs, owner, source, sink)
    ensures 0 <= Divergence(adj, arcs, source) <= CutCapacity(Plain(arcs), {source})
  {
    WeakDuality(Plain(arcs), FlowOf(adj, arcs), source, sink, {source});
  }

  /** State left behind by a finished phase whose sink was at distance `reach`; 0 stands for no phase yet. */
  ghost predicate Finished(adj: Adjacency, level: seq<int>, next: seq<nat>, source: nat, sink: nat, reach: nat) {
    reach > 0 ==>
      && Layered(adj, level) && CurrentArcs(adj, level, next, sink)
      && source < |adj| && sink < |adj| && level[source] == 0 && level[sink] == reach
      && Exhausted(adj, next, sink, source)
  }

  /** The next breadth-first search, if it still reaches the sink, finds it strictly farther away. */
  lemma NextPhase(adj: Adjacency, level: seq<int>, next: seq<nat>, source: nat, sink: nat, reach: nat, level': seq<int>)
    requires Finished(adj, level, next, source, sink, reach)
    requires BreadthFirst(adj, source, level') && sink < |adj| && sink != source && level'[sink] >= 0
    ensures reach < level'[sink] < |adj|
  {
    if reach > 0 {
      PhaseRaisesSink(adj, level, next, source, sink, level');
    } else {
      assert HasPredecessor(adj, level', sink);
    }
  }

  /** No residual path from source to sink is left. */
  ghost predicate Blocked(adj: Adjacency, source: nat, sink: nat) {
    exists S: set<nat> :: ClosedUnderResidual(adj, S) && SeparatesCut(S, source, sink)
  }

  lemma UnreachedIsBlocked(adj: Adjacency, source: nat, sink: nat, level: seq<int>)
    requires BreadthFirst(adj, source, level) && sink < |adj| && level[sink] < 0
    ensures Blocked(adj, source, sink)
  {
    var S := set v: nat | v < |adj| && level[v] >= 0;
    UnreachedSinkIsCut(adj, source, sink, level, S);
  }

  /** A blocked flow is a maximum flow, and any residually closed set around the source is a minimum cut. */
  lemma BlockedIsMaximum(adj: Adjacency, arcs: seq<StoredArc>, owner: seq<seq<nat>>, source: nat, sink: nat,
                         S: set<nat>)
    requires Carries(adj, arcs, owner, source, sink)
    requires ClosedUnderResidual(adj, S) && SeparatesCut(S, source, sink)
    ensures Divergence(adj, arcs, source) == CutCapacity(Plain(arcs), S)
    ensures forall g :: IsFlow(Plain(arcs), g, source, sink) ==>
      NetOut(Plain(arcs), g, source) <= Divergence(adj, arcs, source)
    ensures forall T :: SeparatesCut(T, source, sink) ==> Divergence(adj, arcs, source) <= CutCapacity(Plain(arcs), T)
  {
    ClosedIsSaturated(adj, arcs, owner, S);
    SaturatedCutIsOptimal(Plain(arcs), FlowOf(adj, arcs), source, sink, S);
  }

  function Members(seen: seq<bool>): set<nat> {
    set v: nat | v < |seen| && seen[v]
  }

  /** Reachability search in progress: the edges of `node` before i, and of all dequeued nodes, were followed. */
  ghost predicate Exploring(adj: Adjacency, source: nat, seen: seq<bool>, queue: seq<nat>, node: nat, i: nat) {
    && |seen| == |adj| && source < |adj| && seen[source]
    && (node < |adj| ==> seen[node])
    && (forall k :: 0 <= k < |queue| ==> queue[k] < |adj| && seen[queue[k]])
    && (forall u: nat, j: nat ::
          IsSlot(adj, u, j) && seen[u] && u !in queue && (u == node ==> j < i) && adj[u][j].capacity > 0 ==>
          adj[u][j].to in Members(seen))
  }

  /** Nothing has been marked that a residually closed set around the source could do without. */
  ghost predicate Least(adj: Adjacency, source: nat, seen: seq<bool>) {
    forall T: set<nat> :: source in T && ClosedUnderResidual(adj, T) ==> Members(seen) <= T
  }

  lemma MarkNode(adj: Adjacency, source: nat, seen: seq<bool>, queue: seq<nat>, node: nat, i: nat, to: nat)
    requires Exploring(adj, source, seen, queue, node, i) && Least(adj, source, seen)
    requires IsSlot(adj, node, i) && adj[node][i].to == to < |adj| && adj[node][i].capacity > 0 && !seen[to]
    ensures Exploring(adj, source, seen[to := true], queue + [to], node, i + 1)
    ensures Least(adj, source, seen[to := true])
    ensures |Members(seen[to := true])| == |Members(seen)| + 1
    ensures |seen| == |adj|
  {
    var seen' := seen[to := true];
    assert Members(seen') == Members(seen) + {to};
    assert node in Members(seen);
    forall u: nat, j: nat | IsSlot(adj, u, j) && seen'[u] && u !in queue + [to] && (u == node ==> j < i + 1)
      && adj[u][j].capacity > 0
      ensures adj[u][j].to in Members(seen')
    {
      assert (queue + [to])[|queue|] == to;
    }
  }

  lemma ExploreStart(adj: Adjacency, source: nat, seen: seq<bool>)
    requires source < |adj| == |seen| && forall u :: 0 <= u < |adj| ==> (seen[u] <==> u == source)
    ensures Exploring(adj, source, seen, [source], |adj|, 0) && Least(adj, source, seen)
  {
  }

  lemma ExploreSkip(adj: Adjacency, source: nat, seen: seq<bool>, queue: seq<nat>, node: nat, i: nat)
    requires Exploring(adj, source, seen, queue, node, i) && IsSlot(adj, node, i)
    requires adj[node][i].to < |seen| && !(adj[node][i].capacity > 0 && !seen[adj[node][i].to])
    ensures Exploring(adj, source, seen, queue, node, i + 1)
  {
  }

  lemma ExploreDone(adj: Adjacency, source: nat, seen: seq<bool>, queue: seq<nat>, node: nat)
    requires node < |adj| && Exploring(adj, source, seen, queue, node, |adj[node]|)
    ensures Exploring(adj, source, seen, queue, |adj|, 0) && |Members(seen)| <= |adj|
  {
    SubsetOfRange(Members(seen), |adj|);
  }

  lemma ExploreFinished(adj: Adjacency, source: nat, seen: seq<bool>)
    requires Exploring(adj, source, seen, [], |adj|, 0)
    ensures ClosedUnderResidual(adj, Members(seen)) && source in Members(seen) && |seen| == |adj|
  {
  }

  lemma ExploreFirst(adj: Adjacency, source: nat, seen: seq<bool>, queue: seq<nat>)
    requires Exploring(adj, source, seen, queue, |adj|, 0) && queue != []
    ensures Exploring(adj, source, seen, queue[1..], queue[0], 0)
    ensures queue[0] < |adj| == |seen| && |Members(seen)| <= |adj|
  {
    SubsetOfRange(Members(seen), |adj|);
    assert queue == [queue[0]] + queue[1..];
  }
}
