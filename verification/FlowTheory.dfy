/**
 Flows over a list of capacitated arcs: conservation, cuts and weak duality.
 This is the mathematics the max-flow code is checked against; nothing here mentions adjacency lists.
 */
module FlowTheory {

  datatype Arc = Arc(from: nat, to: nat, capacity: nat)

  ghost function Share(a: Arc, f: int, x: nat): int {
    (if a.from == x then f else 0) - (if a.to == x then f else 0)
  }

  /** Flow leaving node x minus flow entering it. */
  ghost function NetOut(arcs: seq<Arc>, flow: seq<int>, x: nat): int
    requires |arcs| == |flow|
  {
    if arcs == [] then 0
    else
      var m := |arcs| - 1;
      NetOut(arcs[..m], flow[..m], x) + Share(arcs[m], flow[m], x)
  }

  /** Flow leaving the node set S minus flow entering it. */
  ghost function Across(arcs: seq<Arc>, flow: seq<int>, S: set<nat>): int
    requires |arcs| == |flow|
  {
    if arcs == [] then 0
    else
      var m := |arcs| - 1;
      Across(arcs[..m], flow[..m], S)
      + (if arcs[m].from in S then flow[m] else 0) - (if arcs[m].to in S then flow[m] else 0)
  }

  /** Capacity of the cut (S, complement of S). */
  ghost function CutCapacity(arcs: seq<Arc>, S: set<nat>): nat {
    if arcs == [] then 0
    else
      var m := |arcs| - 1;
      CutCapacity(arcs[..m], S) + (if arcs[m].from in S && arcs[m].to !in S then arcs[m].capacity else 0)
  }

  ghost predicate WithinCapacity(arcs: seq<Arc>, flow: seq<int>) {
    |arcs| == |flow| && forall k :: 0 <= k < |arcs| ==> 0 <= flow[k] <= arcs[k].capacity
  }

  /** A feasible flow from source to sink: within capacity, and conserved at every other node. */
  ghost predicate IsFlow(arcs: seq<Arc>, flow: seq<int>, source: nat, sink: nat) {
    && WithinCapacity(arcs, flow)
    && forall x: nat :: x != source && x != sink ==> NetOut(arcs, flow, x) == 0
  }

  ghost predicate SeparatesCut(S: set<nat>, source: nat, sink: nat) {
    source in S && sink !in S
  }

  lemma {:induction false} AcrossAddNode(arcs: seq<Arc>, flow: seq<int>, S: set<nat>, x: nat)
    requires |arcs| == |flow| && x !in S
    ensures Across(arcs, flow, S + {x}) == Across(arcs, flow, S) + NetOut(arcs, flow, x)
  {
    if arcs != [] {
      AcrossAddNode(arcs[..|arcs| - 1], flow[..|arcs| - 1], S, x);
    }
  }

  lemma {:induction false} AcrossEmpty(arcs: seq<Arc>, flow: seq<int>)
    requires |arcs| == |flow|
    ensures Across(arcs, flow, {}) == 0
  {
    if arcs != [] { AcrossEmpty(arcs[..|arcs| - 1], flow[..|arcs| - 1]); }
  }

  /** Conservation, summed: what crosses any separating cut is what leaves the source. */
  lemma {:induction false} AcrossCutIsValue(arcs: seq<Arc>, flow: seq<int>, source: nat, sink: nat, S: set<nat>)
    requires IsFlow(arcs, flow, source, sink) && SeparatesCut(S, source, sink)
    ensures Across(arcs, flow, S) == NetOut(arcs, flow, source)
    decreases S
  {
    if S == {source} {
      AcrossEmpty(arcs, flow);
      AcrossAddNode(arcs, flow, {}, source);
      assert {} + {source} == S;
    } else {
      var x :| x in S && x != source;
      AcrossCutIsValue(arcs, flow, source, sink, S - {x});
      AcrossAddNode(arcs, flow, S - {x}, x);
      assert S - {x} + {x} == S;
    }
  }

  lemma {:induction false} AcrossAtMostCapacity(arcs: seq<Arc>, flow: seq<int>, S: set<nat>)
    requires WithinCapacity(arcs, flow)
    ensures Across(arcs, flow, S) <= CutCapacity(arcs, S)
  {
    if arcs != [] {
      var m := |arcs| - 1;
      AcrossAtMostCapacity(arcs[..m], flow[..m], S);
    }
  }

  /** Weak duality: no feasible flow is worth more than any separating cut. */
  lemma WeakDuality(arcs: seq<Arc>, flow: seq<int>, source: nat, sink: nat, S: set<nat>)
    requires IsFlow(arcs, flow, source, sink) && SeparatesCut(S, source, sink)
    ensures NetOut(arcs, flow, source) <= CutCapacity(arcs, S)
  {
    AcrossCutIsValue(arcs, flow, source, sink, S);
    AcrossAtMostCapacity(arcs, flow, S);
  }

  /** S is saturated: every arc leaving it is full and every arc entering it is empty. */
  ghost predicate Saturated(arcs: seq<Arc>, flow: seq<int>, S: set<nat>)
    requires |arcs| == |flow|
  {
    forall k :: 0 <= k < |arcs| ==>
      && (arcs[k].from in S && arcs[k].to !in S ==> flow[k] == arcs[k].capacity)
      && (arcs[k].from !in S && arcs[k].to in S ==> flow[k] == 0)
  }

  lemma {:induction false} AcrossSaturated(arcs: seq<Arc>, flow: seq<int>, S: set<nat>)
    requires |arcs| == |flow| && Saturated(arcs, flow, S)
    ensures Across(arcs, flow, S) == CutCapacity(arcs, S)
  {
    if arcs != [] {
      var m := |arcs| - 1;
      assert Saturated(arcs[..m], flow[..m], S);
      AcrossSaturated(arcs[..m], flow[..m], S);
    }
  }

  /** Max-flow/min-cut: a flow with a saturated separating cut is maximum and the cut is minimum. */
  lemma SaturatedCutIsOptimal(arcs: seq<Arc>, flow: seq<int>, source: nat, sink: nat, S: set<nat>)
    requires IsFlow(arcs, flow, source, sink) && SeparatesCut(S, source, sink) && Saturated(arcs, flow, S)
    ensures NetOut(arcs, flow, source) == CutCapacity(arcs, S)
    ensures forall g :: IsFlow(arcs, g, source, sink) ==> NetOut(arcs, g, source) <= NetOut(arcs, flow, source)
    ensures forall T :: SeparatesCut(T, source, sink) ==> CutCapacity(arcs, S) <= CutCapacity(arcs, T)
  {
    AcrossCutIsValue(arcs, flow, source, sink, S);
    AcrossSaturated(arcs, flow, S);
    forall g | IsFlow(arcs, g, source, sink)
      ensures NetOut(arcs, g, source) <= NetOut(arcs, flow, source)
    {
      WeakDuality(arcs, g, source, sink, S);
    }
    forall T | SeparatesCut(T, source, sink)
      ensures CutCapacity(arcs, S) <= CutCapacity(arcs, T)
    {
      WeakDuality(arcs, flow, source, sink, T);
    }
  }

  /** Changing the flow on one arc moves exactly that amount from its tail to its head. */
  lemma {:induction false} NetOutUpdate(arcs: seq<Arc>, flow: seq<int>, k: nat, d: int, x: nat)
    requires |arcs| == |flow| && k < |arcs|
    ensures NetOut(arcs, flow[k := flow[k] + d], x) == NetOut(arcs, flow, x) + Share(arcs[k], d, x)
  {
    var m := |arcs| - 1;
    var g := flow[k := flow[k] + d];
    if k == m {
      assert g[..m] == flow[..m];
    } else {
      NetOutUpdate(arcs[..m], flow[..m], k, d, x);
      assert g[..m] == flow[..m][k := flow[k] + d];
    }
  }

  /** The all-zero flow has no divergence anywhere. */
  lemma {:induction false} NetOutZero(arcs: seq<Arc>, flow: seq<int>, x: nat)
    requires |arcs| == |flow| && forall k :: 0 <= k < |flow| ==> flow[k] == 0
    ensures NetOut(arcs, flow, x) == 0
  {
    if arcs != [] { NetOutZero(arcs[..|arcs| - 1], flow[..|arcs| - 1], x); }
  }

  lemma {:induction false} CutConcat(a: seq<Arc>, b: seq<Arc>, S: set<nat>)
    ensures CutCapacity(a + b, S) == CutCapacity(a, S) + CutCapacity(b, S)
  {
    if b == [] {
      assert a + b == a;
    } else {
      CutConcat(a, b[..|b| - 1], S);
      assert (a + b)[..|a + b| - 1] == a + b[..|b| - 1];
    }
  }

  ghost function InFlow(arcs: seq<Arc>, flow: seq<int>, x: nat): int
    requires |arcs| == |flow|
  {
    if arcs == [] then 0
    else
      var m := |arcs| - 1;
      InFlow(arcs[..m], flow[..m], x) + (if arcs[m].to == x then flow[m] else 0)
  }

  ghost function OutFlow(arcs: seq<Arc>, flow: seq<int>, x: nat): int
    requires |arcs| == |flow|
  {
    if arcs == [] then 0
    else
      var m := |arcs| - 1;
      OutFlow(arcs[..m], flow[..m], x) + (if arcs[m].from == x then flow[m] else 0)
  }

  ghost function OutDegree(arcs: seq<Arc>, x: nat): nat {
    if arcs == [] then 0
    else OutDegree(arcs[..|arcs| - 1], x) + (if arcs[|arcs| - 1].from == x then 1 else 0)
  }

  lemma {:induction false} OutDegreeConcat(a: seq<Arc>, b: seq<Arc>, x: nat)
    ensures OutDegree(a + b, x) == OutDegree(a, x) + OutDegree(b, x)
  {
    if b == [] {
      assert a + b == a;
    } else {
      OutDegreeConcat(a, b[..|b| - 1], x);
      assert (a + b)[..|a + b| - 1] == a + b[..|b| - 1];
    }
  }

  lemma {:induction false} NetOutIsOutMinusIn(arcs: seq<Arc>, flow: seq<int>, x: nat)
    requires |arcs| == |flow|
    ensures NetOut(arcs, flow, x) == OutFlow(arcs, flow, x) - InFlow(arcs, flow, x)
  {
    if arcs != [] { NetOutIsOutMinusIn(arcs[..|arcs| - 1], flow[..|arcs| - 1], x); }
  }

  lemma {:induction false} InFlowCovers(arcs: seq<Arc>, flow: seq<int>, k: nat)
    requires WithinCapacity(arcs, flow) && k < |arcs|
    ensures 0 <= flow[k] <= InFlow(arcs, flow, arcs[k].to)
  {
    var m := |arcs| - 1;
    if k < m {
      InFlowCovers(arcs[..m], flow[..m], k);
    } else {
      InFlowNonNegative(arcs[..m], flow[..m], arcs[k].to);
    }
  }

  lemma {:induction false} InFlowNonNegative(arcs: seq<Arc>, flow: seq<int>, x: nat)
    requires WithinCapacity(arcs, flow)
    ensures InFlow(arcs, flow, x) >= 0
  {
    if arcs != [] { InFlowNonNegative(arcs[..|arcs| - 1], flow[..|arcs| - 1], x); }
  }

  lemma {:induction false} OutFlowBounded(arcs: seq<Arc>, flow: seq<int>, x: nat, bound: nat)
    requires |arcs| == |flow| && forall k :: 0 <= k < |arcs| && arcs[k].from == x ==> flow[k] <= bound
    ensures OutFlow(arcs, flow, x) <= OutDegree(arcs, x) * bound
  {
    if arcs != [] { OutFlowBounded(arcs[..|arcs| - 1], flow[..|arcs| - 1], x, bound); }
  }

  /** Conservation: what one arc brings into an inner node is at most what that node can pass on. */
  lemma InflowLimitedByOutlets(arcs: seq<Arc>, flow: seq<int>, source: nat, sink: nat, k: nat, bound: nat)
    requires IsFlow(arcs, flow, source, sink) && k < |arcs| && arcs[k].to != source && arcs[k].to != sink
    requires forall j :: 0 <= j < |arcs| && arcs[j].from == arcs[k].to ==> flow[j] <= bound
    ensures flow[k] <= OutDegree(arcs, arcs[k].to) * bound
  {
    var x := arcs[k].to;
    InFlowCovers(arcs, flow, k);
    NetOutIsOutMinusIn(arcs, flow, x);
    OutFlowBounded(arcs, flow, x, bound);
  }
}
