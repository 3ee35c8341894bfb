/** One depth-first augmentation, as a relation between the states before and after. */
module Augmentation {
  import opened Numeric
  import opened FlowTheory
  import opened Residual
  import opened Layers

  /** What every augmentation of a phase may assume and keeps. */
  ghost predicate PhaseOk(adj: Adjacency, arcs: seq<StoredArc>, owner: seq<seq<nat>>, level: seq<int>, next: seq<nat>,
                          sink: nat) {
    && Represents(adj, arcs, owner) && sink < |adj|
    && Layered(adj, level) && CurrentArcs(adj, level, next, sink)
    && forall v :: 0 <= v < |level| ==> level[v] < |level|
  }

  /** Nodes at the level of `node` or below it, other than `node` itself, are as they were. */
  ghost predicate Untouched(adj: Adjacency, next: seq<nat>, adj': Adjacency, next': seq<nat>, level: seq<int>,
                            node: nat) {
    && SameTargets(adj, adj') && |next'| == |next| == |level| == |adj| && node < |adj|
    && forall x :: 0 <= x < |adj| && level[x] <= level[node] && x != node ==> adj'[x] == adj[x] && next'[x] == next[x]
  }

  /** p units of flow now start at `node` and end at `sink`; conservation elsewhere is unaffected. */
  ghost predicate Delivered(adj: Adjacency, adj': Adjacency, arcs: seq<StoredArc>, node: nat, sink: nat, p: int) {
    forall x: nat :: Divergence(adj', arcs, x)
      == Divergence(adj, arcs, x) + (if x == node then p else 0) - (if x == sink then p else 0)
  }

  lemma NothingYet(adj: Adjacency, next: seq<nat>, arcs: seq<StoredArc>, level: seq<int>, node: nat, sink: nat, p: int)
    requires |next| == |level| == |adj| && node < |adj| && (node == sink || p == 0)
    ensures Untouched(adj, next, adj, next, level, node) && Delivered(adj, adj, arcs, node, sink, p)
  {
  }

  lemma PhaseFacts(adj: Adjacency, arcs: seq<StoredArc>, owner: seq<seq<nat>>, level: seq<int>, next: seq<nat>,
                   sink: nat, node: nat)
    requires PhaseOk(adj, arcs, owner, level, next, sink) && node < |adj|
    ensures |level| == |next| == |adj| && next[node] <= |adj[node]|
    ensures node != sink && next[node] == |adj[node]| ==> Exhausted(adj, next, sink, node)
    ensures next[node] < |adj[node]| ==> Reversible(adj, node, next[node])
    ensures level[node] < |level| && sink < |adj|
  {
    if next[node] < |adj[node]| {
      SlotsAreReversible(adj, arcs, owner, node, next[node]);
    }
  }

  lemma UntouchedBelow(adj: Adjacency, next: seq<nat>, adj': Adjacency, next': seq<nat>,
                       adj'': Adjacency, next'': seq<nat>, level: seq<int>, node: nat, to: nat)
    requires Untouched(adj, next, adj', next', level, node)
    requires Untouched(adj', next', adj'', next'', level, to) && level[to] == level[node] + 1
    ensures Untouched(adj, next, adj'', next'', level, node)
    ensures |adj''| == |adj'| && adj''[node] == adj'[node] && next''[node] == next'[node]
  {
    assert SameTargets(adj, adj'') by {
      forall u: nat, i: nat | IsSlot(adj, u, i)
        ensures adj''[u][i].to == adj[u][i].to && adj''[u][i].reverse == adj[u][i].reverse
      {
        assert IsSlot(adj', u, i);
      }
    }
  }

  /** Advancing the current arc past a useless edge. */
  lemma AdvanceArc(adj: Adjacency, arcs: seq<StoredArc>, owner: seq<seq<nat>>, level: seq<int>, next: seq<nat>,
                   sink: nat, node: nat)
    requires PhaseOk(adj, arcs, owner, level, next, sink) && node < |adj| && next[node] < |adj[node]|
    requires Admissible(adj, level, node, next[node]) ==> Exhausted(adj, next, sink, adj[node][next[node]].to)
    ensures PhaseOk(adj, arcs, owner, level, next[node := next[node] + 1], sink)
    ensures Untouched(adj, next, adj, next[node := next[node] + 1], level, node)
  {
    var next' := next[node := next[node] + 1];
    forall u: nat, i: nat | Admissible(adj, level, u, i) && i < next'[u]
      ensures Exhausted(adj, next', sink, adj[u][i].to)
    {
      assert Exhausted(adj, next, sink, adj[u][i].to);
    }
  }

  /** Returning from a successful recursive call: the edge just followed is charged with p units. */
  lemma ChargeEdge(adj: Adjacency, arcs: seq<StoredArc>, owner: seq<seq<nat>>, level: seq<int>, next: seq<nat>,
                   sink: nat,
                   node: nat, i: nat, p: int)
    requires PhaseOk(adj, arcs, owner, level, next, sink) && Admissible(adj, level, node, i) && level[node] >= 0
    requires 0 <= p <= adj[node][i].capacity
    ensures Reversible(adj, node, i)
    ensures PhaseOk(Pushed(adj, node, i, p), arcs, owner, level, next, sink)
    ensures Untouched(adj, next, Pushed(adj, node, i, p), next, level, node)
    ensures Delivered(adj, Pushed(adj, node, i, p), arcs, node, adj[node][i].to, p)
  {
    SlotsAreReversible(adj, arcs, owner, node, i);
    PushSlots(adj, node, i, p);
    PushRepresents(adj, arcs, owner, node, i, p);
    PushKeepsLayers(adj, level, node, i, p);
    PushKeepsCurrentArcs(adj, level, next, sink, node, i, p);
    forall x: nat {
      PushDivergence(adj, arcs, owner, node, i, p, x);
    }
  }

  lemma UntouchedTransitive(adj: Adjacency, next: seq<nat>, adj': Adjacency, next': seq<nat>,
                            adj'': Adjacency, next'': seq<nat>, level: seq<int>, node: nat)
    requires Untouched(adj, next, adj', next', level, node) && Untouched(adj', next', adj'', next'', level, node)
    ensures Untouched(adj, next, adj'', next'', level, node)
  {
    forall u: nat, i: nat | IsSlot(adj, u, i)
      ensures adj''[u][i].to == adj[u][i].to && adj''[u][i].reverse == adj[u][i].reverse
    {
      assert IsSlot(adj', u, i);
    }
  }

  lemma DeliveredNothing(adj0: Adjacency, adj1: Adjacency, adj2: Adjacency, arcs: seq<StoredArc>, node: nat, to: nat,
                         sink: nat)
    requires Delivered(adj0, adj1, arcs, node, sink, 0) && Delivered(adj1, adj2, arcs, to, sink, 0)
    ensures Delivered(adj0, adj2, arcs, node, sink, 0)
  {
    forall x: nat ensures Divergence(adj2, arcs, x) == Divergence(adj0, arcs, x) {
      assert Divergence(adj1, arcs, x) == Divergence(adj0, arcs, x);
    }
  }

  /** Flow delivered from the head of an edge, charged to that edge, is delivered from its tail. */
  lemma DeliveredAlong(adj0: Adjacency, adj1: Adjacency, adj2: Adjacency, adj3: Adjacency, arcs: seq<StoredArc>,
                       node: nat, to: nat, sink: nat, p: int)
    requires Delivered(adj0, adj1, arcs, node, sink, 0)
    requires Delivered(adj1, adj2, arcs, to, sink, p)
    requires Delivered(adj2, adj3, arcs, node, to, p)
    ensures Delivered(adj0, adj3, arcs, node, sink, p)
  {
    forall x: nat
      ensures Divergence(adj3, arcs, x)
        == Divergence(adj0, arcs, x) + (if x == node then p else 0) - (if x == sink then p else 0)
    {
      assert Divergence(adj1, arcs, x) == Divergence(adj0, arcs, x);
      assert Divergence(adj2, arcs, x)
        == Divergence(adj1, arcs, x) + (if x == to then p else 0) - (if x == sink then p else 0);
      assert Divergence(adj3, arcs, x)
        == Divergence(adj2, arcs, x) + (if x == node then p else 0) - (if x == to then p else 0);
    }
  }

  /** Coming back from the recursive call along edge i of `node`: the p units delivered from its head are charged. */
  lemma ChargedPath(adj0: Adjacency, next0: seq<nat>, adj1: Adjacency, adj2: Adjacency, arcs: seq<StoredArc>,
                    owner: seq<seq<nat>>, level: seq<int>, next: seq<nat>, sink: nat, node: nat, i: nat, p: int)
    requires PhaseOk(adj2, arcs, owner, level, next, sink) && Admissible(adj2, level, node, i) && level[node] >= 0
    requires 0 <= p <= adj2[node][i].capacity
    requires Untouched(adj0, next0, adj2, next, level, node)
    requires Delivered(adj0, adj1, arcs, node, sink, 0) && Delivered(adj1, adj2, arcs, adj2[node][i].to, sink, p)
    ensures Reversible(adj2, node, i)
    ensures PhaseOk(Pushed(adj2, node, i, p), arcs, owner, level, next, sink)
    ensures Untouched(adj0, next0, Pushed(adj2, node, i, p), next, level, node)
    ensures Delivered(adj0, Pushed(adj2, node, i, p), arcs, node, sink, p)
  {
    hide PhaseOk, Untouched, Delivered;
    ChargeEdge(adj2, arcs, owner, level, next, sink, node, i, p);
    var adj3 := Pushed(adj2, node, i, p);
    UntouchedTransitive(adj0, next0, adj2, next, adj3, next, level, node);
    DeliveredAlong(adj0, adj1, adj2, adj3, arcs, node, adj2[node][i].to, sink, p);
  }
}
