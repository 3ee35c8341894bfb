/**
 The residual adjacency lists of the max-flow solver (src/solver.cpp), as values.
 Class FlowNetwork of module MaxFlow rewrites such lists in place.
 */
module Residual {
  import opened Numeric
  import opened FlowTheory

  datatype Edge = Edge(to: nat, capacity: int64, reverse: nat)

  type Adjacency = seq<seq<Edge>>

  /** One call of add_edge: its arc, and the two adjacency slots it created. */
  datatype StoredArc = StoredArc(from: nat, to: nat, capacity: nat, forward: nat, backward: nat)

  ghost function Plain(arcs: seq<StoredArc>): (plain: seq<Arc>)
    ensures |plain| == |arcs|
  {
    seq(|arcs|, k requires 0 <= k < |arcs| => Arc(arcs[k].from, arcs[k].to, arcs[k].capacity))
  }

  ghost predicate IsSlot(adj: Adjacency, u: nat, i: nat) {
    u < |adj| && i < |adj[u]|
  }

  ghost predicate SameShape<T>(adj: Adjacency, other: seq<seq<T>>) {
    |adj| == |other| && forall u :: 0 <= u < |adj| ==> |adj[u]| == |other[u]|
  }

  /** Two slots that point at each other and together hold the capacity of arc a. */
  ghost predicate Paired(f: Edge, b: Edge, a: StoredArc) {
    && f.to == a.to && f.reverse == a.backward
    && b.to == a.from && b.reverse == a.forward
    && 0 <= f.capacity && 0 <= b.capacity && f.capacity + b.capacity == a.capacity <= MAX_INT64
  }

  /** Arc a, the k-th one added, is stored in a pair of slots that both name k as their owner. */
  ghost predicate ArcStored(adj: Adjacency, owner: seq<seq<nat>>, a: StoredArc, k: nat)
    requires SameShape(adj, owner)
  {
    && a.from != a.to
    && IsSlot(adj, a.from, a.forward) && IsSlot(adj, a.to, a.backward)
    && Paired(adj[a.from][a.forward], adj[a.to][a.backward], a)
    && owner[a.from][a.forward] == k && owner[a.to][a.backward] == k
  }

  /** Slot (u, i) is one of the two slots of the arc that owns it. */
  ghost predicate SlotOwned(adj: Adjacency, arcs: seq<StoredArc>, owner: seq<seq<nat>>, u: nat, i: nat)
    requires SameShape(adj, owner) && IsSlot(adj, u, i)
  {
    var k := owner[u][i];
    && k < |arcs|
    && ((arcs[k].from == u && arcs[k].forward == i) || (arcs[k].to == u && arcs[k].backward == i))
  }

  /** The adjacency lists store exactly the given arcs, each split into residual and pushed capacity. */
  ghost predicate Represents(adj: Adjacency, arcs: seq<StoredArc>, owner: seq<seq<nat>>) {
    && SameShape(adj, owner)
    && (forall k :: 0 <= k < |arcs| ==> ArcStored(adj, owner, arcs[k], k))
    && (forall u: nat, i: nat :: IsSlot(adj, u, i) ==> SlotOwned(adj, arcs, owner, u, i))
  }

  /** The flow on an arc is the capacity that has moved to its backward slot. */
  ghost function ArcFlow(adj: Adjacency, a: StoredArc): int {
    if IsSlot(adj, a.to, a.backward) then adj[a.to][a.backward].capacity else 0
  }

  ghost function FlowOf(adj: Adjacency, arcs: seq<StoredArc>): (flow: seq<int>)
    ensures |flow| == |arcs| && forall k :: 0 <= k < |arcs| ==> flow[k] == ArcFlow(adj, arcs[k])
  {
    seq(|arcs|, k requires 0 <= k < |arcs| => ArcFlow(adj, arcs[k]))
  }

  lemma FlowWithinCapacity(adj: Adjacency, arcs: seq<StoredArc>, owner: seq<seq<nat>>)
    requires Represents(adj, arcs, owner)
    ensures WithinCapacity(Plain(arcs), FlowOf(adj, arcs))
  {
    forall k | 0 <= k < |arcs| ensures 0 <= FlowOf(adj, arcs)[k] <= arcs[k].capacity {
      assert ArcStored(adj, owner, arcs[k], k);
    }
  }

  ghost function Divergence(adj: Adjacency, arcs: seq<StoredArc>, x: nat): int {
    NetOut(Plain(arcs), FlowOf(adj, arcs), x)
  }

  /** Edge (u, i) is well formed and its reverse edge leads back to it. */
  ghost predicate Reversible(adj: Adjacency, u: nat, i: nat)
    requires IsSlot(adj, u, i)
  {
    var e := adj[u][i];
    && e.to != u && IsSlot(adj, e.to, e.reverse) && 0 <= e.capacity
    && var b := adj[e.to][e.reverse];
    && b.to == u && b.reverse == i && 0 <= b.capacity && e.capacity + b.capacity <= MAX_INT64
  }

  lemma SlotsAreReversible(adj: Adjacency, arcs: seq<StoredArc>, owner: seq<seq<nat>>, u: nat, i: nat)
    requires Represents(adj, arcs, owner) && IsSlot(adj, u, i)
    ensures Reversible(adj, u, i)
  {
    assert SlotOwned(adj, arcs, owner, u, i);
    assert ArcStored(adj, owner, arcs[owner[u][i]], owner[u][i]);
  }

  ghost predicate SameTargets(adj: Adjacency, adj': Adjacency) {
    && SameShape(adj, adj')
    && forall u: nat, i: nat :: IsSlot(adj, u, i) ==>
         adj'[u][i].to == adj[u][i].to && adj'[u][i].reverse == adj[u][i].reverse
  }

  /** Pushing p units through slot (u, i): its capacity drops by p, its reverse's rises by p. */
  ghost function Pushed(adj: Adjacency, u: nat, i: nat, p: int): Adjacency
    requires IsSlot(adj, u, i) && Reversible(adj, u, i) && 0 <= p <= adj[u][i].capacity
  {
    var e := adj[u][i];
    var b := adj[e.to][e.reverse];
    adj[u := adj[u][i := e.(capacity := e.capacity - p)]]
       [e.to := adj[e.to][e.reverse := b.(capacity := b.capacity + p)]]
  }

  lemma PushSlots(adj: Adjacency, u: nat, i: nat, p: int)
    requires IsSlot(adj, u, i) && Reversible(adj, u, i) && 0 <= p <= adj[u][i].capacity
    ensures var adj' := Pushed(adj, u, i, p);
      && SameTargets(adj, adj')
      && adj'[u][i].capacity == adj[u][i].capacity - p
      && adj'[adj[u][i].to][adj[u][i].reverse].capacity == adj[adj[u][i].to][adj[u][i].reverse].capacity + p
      && forall v: nat, j: nat :: IsSlot(adj, v, j) && (v, j) != (u, i) && (v, j) != (adj[u][i].to, adj[u][i].reverse)
           ==> adj'[v][j] == adj[v][j]
  {
  }

  lemma PushRepresents(adj: Adjacency, arcs: seq<StoredArc>, owner: seq<seq<nat>>, u: nat, i: nat, p: int)
    requires Represents(adj, arcs, owner) && IsSlot(adj, u, i) && Reversible(adj, u, i)
    requires 0 <= p <= adj[u][i].capacity
    ensures Represents(Pushed(adj, u, i, p), arcs, owner)
  {
    var adj' := Pushed(adj, u, i, p);
    PushSlots(adj, u, i, p);
    assert SlotOwned(adj, arcs, owner, u, i);
    forall k | 0 <= k < |arcs| ensures ArcStored(adj', owner, arcs[k], k) {
      assert ArcStored(adj, owner, arcs[k], k);
      assert ArcStored(adj, owner, arcs[owner[u][i]], owner[u][i]);
    }
    forall v: nat, j: nat | IsSlot(adj', v, j) ensures SlotOwned(adj', arcs, owner, v, j) {
      assert IsSlot(adj, v, j);
      assert SlotOwned(adj, arcs, owner, v, j);
    }
  }

  /** A push moves p units of divergence from the head of the edge to its tail, and none elsewhere. */
  lemma PushDivergence(adj: Adjacency, arcs: seq<StoredArc>, owner: seq<seq<nat>>, u: nat, i: nat, p: int, x: nat)
    requires Represents(adj, arcs, owner) && IsSlot(adj, u, i) && Reversible(adj, u, i)
    requires 0 <= p <= adj[u][i].capacity
    ensures Divergence(Pushed(adj, u, i, p), arcs, x)
         == Divergence(adj, arcs, x) + (if x == u then p else 0) - (if x == adj[u][i].to then p else 0)
  {
    var adj' := Pushed(adj, u, i, p);
    PushSlots(adj, u, i, p);
    PushRepresents(adj, arcs, owner, u, i, p);
    assert SlotOwned(adj, arcs, owner, u, i);
    var k := owner[u][i];
    var flow, flow' := FlowOf(adj, arcs), FlowOf(adj', arcs);
    var d := flow'[k] - flow[k];
    assert ArcStored(adj, owner, arcs[k], k);
    forall j | 0 <= j < |arcs| && j != k ensures flow'[j] == flow[j] {
      assert ArcStored(adj, owner, arcs[j], j);
    }
    assert flow' == flow[k := flow[k] + d];
    NetOutUpdate(Plain(arcs), flow, k, d, x);
  }

  ghost function Widened<T>(rows: seq<seq<T>>, u: nat, x: T): seq<seq<T>>
    requires u < |rows|
  {
    rows[u := rows[u] + [x]]
  }

  /** The adjacency lists after add_edge(from, to, capacity). */
  ghost function Extended(adj: Adjacency, from: nat, to: nat, capacity: int64): Adjacency
    requires from < |adj| && to < |adj| && from != to
  {
    Widened(Widened(adj, from, Edge(to, capacity, |adj[to]|)), to, Edge(from, 0, |adj[from]|))
  }

  lemma ExtendKeepsArcs(adj: Adjacency, owner: seq<seq<nat>>, a: StoredArc, j: nat,
                        from: nat, to: nat, capacity: int64, k: nat)
    requires SameShape(adj, owner) && ArcStored(adj, owner, a, j)
    requires from < |adj| && to < |adj| && from != to
    ensures var adj', owner' := Extended(adj, from, to, capacity), Widened(Widened(owner, from, k), to, k);
      SameShape(adj', owner') && ArcStored(adj', owner', a, j) && ArcFlow(adj', a) == ArcFlow(adj, a)
  {
  }

  /** A new arc carries no flow and leaves every other arc where it was. */
  lemma ExtendRepresents(adj: Adjacency, arcs: seq<StoredArc>, owner: seq<seq<nat>>, from: nat, to: nat,
                         capacity: int64)
    requires Represents(adj, arcs, owner) && from < |adj| && to < |adj| && from != to && capacity >= 0
    ensures var k := |arcs|;
      var arcs' := arcs + [StoredArc(from, to, capacity, |adj[from]|, |adj[to]|)];
      var adj', owner' := Extended(adj, from, to, capacity), Widened(Widened(owner, from, k), to, k);
      Represents(adj', arcs', owner') && FlowOf(adj', arcs') == FlowOf(adj, arcs) + [0]
  {
    var k := |arcs|;
    var arcs' := arcs + [StoredArc(from, to, capacity, |adj[from]|, |adj[to]|)];
    var adj', owner' := Extended(adj, from, to, capacity), Widened(Widened(owner, from, k), to, k);
    forall j | 0 <= j < |arcs|
      ensures ArcStored(adj', owner', arcs'[j], j) && ArcFlow(adj', arcs'[j]) == ArcFlow(adj, arcs[j])
    {
      ExtendKeepsArcs(adj, owner, arcs[j], j, from, to, capacity, k);
    }
    forall u: nat, i: nat | IsSlot(adj', u, i) ensures SlotOwned(adj', arcs', owner', u, i) {
      if IsSlot(adj, u, i) {
        assert SlotOwned(adj, arcs, owner, u, i);
      }
    }
  }
}
