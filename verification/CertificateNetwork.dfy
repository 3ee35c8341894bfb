/**
 The relaxed network of the certificate, as a list of arcs:
 source -> demand (floor), demand -> path and path -> resource (unbounded), resource -> sink (ceiling).
 Its minimum cuts are exactly the sets of demands that break Hall's condition.
 */
module CertificateNetwork {
  import opened Numeric
  import opened Sums
  import opened Fabric
  import opened FlowTheory
  import opened Relaxation

  const SOURCE: nat := 0
  const SINK: nat := 1
  const UNBOUNDED: int := MAX_INT64 / 8

  /** Node numbers are handed out in order: demands, then the used paths, then resources. */
  datatype Layout = Layout(needy: seq<DemandDerivation>, used: seq<PathId>, paths: seq<CandidatePath>,
    ceilings: seq<int>)
  {
    ghost function DemandNode(i: nat): nat { 2 + i }
    ghost function PathsFrom(): nat { 2 + |needy| }
    ghost function ResourcesFrom(): nat { 2 + |needy| + |used| }
    ghost function ResourceNode(r: nat): nat { ResourcesFrom() + r }
    ghost function Nodes(): nat { ResourcesFrom() + |ceilings| }

    ghost predicate Valid() {
      && Distinct(used)
      && (forall k :: 0 <= k < |used| ==> used[k] < |paths|)
      && (forall p :: 0 <= p < |paths| ==> PathWithinLimits(paths[p], |ceilings|))
      && (forall i :: 0 <= i < |needy| ==> needy[i].floor >= 0)
      && (forall i, p :: 0 <= i < |needy| && p in needy[i].eligible ==> p in used)
      && (forall r :: 0 <= r < |ceilings| ==> 0 <= ceilings[r] <= MAX_BANDWIDTH)
    }

    /** The node of a used path. */
    ghost function PathNode(p: PathId): nat
      requires p in used
    {
      PathsFrom() + IndexOf(used, p)
    }
  }

  ghost function IndexOf(s: seq<PathId>, p: PathId): (k: nat)
    requires p in s
    ensures k < |s| && s[k] == p
  {
    if s[0] == p then 0 else 1 + IndexOf(s[1..], p)
  }

  lemma IndexOfDistinct(s: seq<PathId>, k: nat)
    requires Distinct(s) && k < |s|
    ensures s[k] in s && IndexOf(s, s[k]) == k
  {
  }

  // ---- The arcs, in the order in which they are added ----------------------

  ghost function EligibleArcs(l: Layout, i: nat, count: nat): (arcs: seq<Arc>)
    requires l.Valid() && i < |l.needy| && count <= |l.needy[i].eligible|
  {
    seq(count, j requires 0 <= j < count => Arc(l.DemandNode(i), l.PathNode(l.needy[i].eligible[j]), UNBOUNDED))
  }

  ghost function DemandArcs(l: Layout, count: nat): (arcs: seq<Arc>)
    requires l.Valid() && count <= |l.needy|
  {
    if count == 0 then []
    else
      var i := count - 1;
      DemandArcs(l, i) + [Arc(SOURCE, l.DemandNode(i), l.needy[i].floor)] + EligibleArcs(l, i, |l.needy[i].eligible|)
  }

  ghost function CrossingArcs(l: Layout, k: nat, count: nat): (arcs: seq<Arc>)
    requires l.Valid() && k < |l.used| && count <= |l.paths[l.used[k]].resources|
  {
    seq(count, j requires 0 <= j < count =>
      Arc(l.PathsFrom() + k, l.ResourceNode(l.paths[l.used[k]].resources[j]), UNBOUNDED))
  }

  ghost function PathArcs(l: Layout, count: nat): (arcs: seq<Arc>)
    requires l.Valid() && count <= |l.used|
  {
    if count == 0 then []
    else PathArcs(l, count - 1) + CrossingArcs(l, count - 1, |l.paths[l.used[count - 1]].resources|)
  }

  ghost function ResourceArcs(l: Layout, count: nat): (arcs: seq<Arc>)
    requires l.Valid() && count <= |l.ceilings|
  {
    if count == 0 then []
    else ResourceArcs(l, count - 1) + [Arc(l.ResourceNode(count - 1), SINK, l.ceilings[count - 1])]
  }

  ghost function AllArcs(l: Layout): (arcs: seq<Arc>)
    requires l.Valid()
  {
    DemandArcs(l, |l.needy|) + PathArcs(l, |l.used|) + ResourceArcs(l, |l.ceilings|)
  }

  // ---- One more arc -----------------------------------------------------------

  lemma EligibleStep(l: Layout, i: nat, j: nat, head: seq<Arc>)
    requires l.Valid() && i < |l.needy| && j < |l.needy[i].eligible|
    ensures head + EligibleArcs(l, i, j + 1)
      == head + EligibleArcs(l, i, j) + [Arc(l.DemandNode(i), l.PathNode(l.needy[i].eligible[j]), UNBOUNDED)]
    ensures head + EligibleArcs(l, i, 0) == head
  {
    assert EligibleArcs(l, i, j + 1)
      == EligibleArcs(l, i, j) + [Arc(l.DemandNode(i), l.PathNode(l.needy[i].eligible[j]), UNBOUNDED)];
  }

  lemma CrossingStep(l: Layout, k: nat, j: nat, head: seq<Arc>)
    requires l.Valid() && k < |l.used| && j < |l.paths[l.used[k]].resources|
    ensures head + CrossingArcs(l, k, j + 1)
      == head + CrossingArcs(l, k, j) + [Arc(l.PathsFrom() + k, l.ResourceNode(l.paths[l.used[k]].resources[j]),
        UNBOUNDED)]
  {
    assert CrossingArcs(l, k, j + 1)
      == CrossingArcs(l, k, j) + [Arc(l.PathsFrom() + k, l.ResourceNode(l.paths[l.used[k]].resources[j]), UNBOUNDED)];
  }

  lemma NoneYet(l: Layout, head: seq<Arc>)
    requires l.Valid()
    ensures head + PathArcs(l, 0) == head == head + ResourceArcs(l, 0)
    ensures forall i :: 0 <= i < |l.needy| ==> head + EligibleArcs(l, i, 0) == head
    ensures forall k :: 0 <= k < |l.used| ==> head + CrossingArcs(l, k, 0) == head
  {
  }

  lemma PathStep(l: Layout, k: nat, head: seq<Arc>)
    requires l.Valid() && k < |l.used|
    ensures head + PathArcs(l, k) + CrossingArcs(l, k, |l.paths[l.used[k]].resources|) == head + PathArcs(l, k + 1)
  {
  }

  lemma ResourceStep(l: Layout, r: nat, head: seq<Arc>)
    requires l.Valid() && r < |l.ceilings|
    ensures head + ResourceArcs(l, r) + [Arc(l.ResourceNode(r), SINK, l.ceilings[r])] == head + ResourceArcs(l, r + 1)
  {
  }

  // ---- Which arcs there are ------------------------------------------------

  ghost predicate FloorArc(l: Layout, a: Arc) {
    a.from == SOURCE && 2 <= a.to < l.PathsFrom()
  }

  ghost predicate EligibilityArc(l: Layout, a: Arc) {
    2 <= a.from < l.PathsFrom() <= a.to < l.ResourcesFrom() && a.capacity == UNBOUNDED
  }

  ghost predicate CrossingArc(l: Layout, a: Arc) {
    l.PathsFrom() <= a.from < l.ResourcesFrom() <= a.to < l.Nodes() && a.capacity == UNBOUNDED
  }

  ghost predicate CeilingArc(l: Layout, a: Arc) {
    l.ResourcesFrom() <= a.from < l.Nodes() && a.to == SINK && a.capacity <= MAX_BANDWIDTH
  }

  lemma {:induction false} DemandArcKinds(l: Layout, count: nat)
    requires l.Valid() && count <= |l.needy|
    ensures forall k :: 0 <= k < |DemandArcs(l, count)| ==>
      var a := DemandArcs(l, count)[k]; FloorArc(l, a) || EligibilityArc(l, a)
  {
    if count > 0 {
      DemandArcKinds(l, count - 1);
    }
  }

  lemma {:induction false} PathArcKinds(l: Layout, count: nat)
    requires l.Valid() && count <= |l.used|
    ensures forall k :: 0 <= k < |PathArcs(l, count)| ==>
      var a := PathArcs(l, count)[k]; CrossingArc(l, a) && a.from < l.PathsFrom() + count
  {
    if count > 0 {
      PathArcKinds(l, count - 1);
      assert PathWithinLimits(l.paths[l.used[count - 1]], |l.ceilings|);
    }
  }

  lemma {:induction false} ResourceArcKinds(l: Layout, count: nat)
    requires l.Valid() && count <= |l.ceilings|
    ensures forall k :: 0 <= k < |ResourceArcs(l, count)| ==>
      var a := ResourceArcs(l, count)[k]; CeilingArc(l, a) && a.from < l.ResourcesFrom() + count
  {
    if count > 0 {
      ResourceArcKinds(l, count - 1);
    }
  }

  lemma ArcKinds(l: Layout, k: nat)
    requires l.Valid() && k < |AllArcs(l)|
    ensures var a := AllArcs(l)[k]; FloorArc(l, a) || EligibilityArc(l, a) || CrossingArc(l, a) || CeilingArc(l, a)
  {
    DemandArcKinds(l, |l.needy|);
    PathArcKinds(l, |l.used|);
    ResourceArcKinds(l, |l.ceilings|);
  }

  lemma {:induction false} EligibilityArcsPresent(l: Layout, count: nat, i: nat, p: PathId)
    requires l.Valid() && i < count <= |l.needy| && p in l.needy[i].eligible
    ensures Arc(l.DemandNode(i), l.PathNode(p), UNBOUNDED) in DemandArcs(l, count)
  {
    if i == count - 1 {
      var j :| 0 <= j < |l.needy[i].eligible| && l.needy[i].eligible[j] == p;
      assert EligibleArcs(l, i, |l.needy[i].eligible|)[j] == Arc(l.DemandNode(i), l.PathNode(p), UNBOUNDED);
    } else {
      EligibilityArcsPresent(l, count - 1, i, p);
    }
  }

  lemma {:induction false} CrossingArcsPresent(l: Layout, count: nat, k: nat, r: ResourceId)
    requires l.Valid() && k < count <= |l.used| && r in l.paths[l.used[k]].resources
    ensures Arc(l.PathsFrom() + k, l.ResourceNode(r), UNBOUNDED) in PathArcs(l, count)
  {
    if k == count - 1 {
      var j :| 0 <= j < |l.paths[l.used[k]].resources| && l.paths[l.used[k]].resources[j] == r;
      assert CrossingArcs(l, k, |l.paths[l.used[k]].resources|)[j] == Arc(l.PathsFrom() + k, l.ResourceNode(r),
        UNBOUNDED);
    } else {
      CrossingArcsPresent(l, count - 1, k, r);
    }
  }

  // ---- Unbounded arcs never fill up ----------------------------------------

  lemma {:induction false} OutDegreeNone(arcs: seq<Arc>, x: nat)
    requires forall k :: 0 <= k < |arcs| ==> arcs[k].from != x
    ensures OutDegree(arcs, x) == 0
  {
    if arcs != [] { OutDegreeNone(arcs[..|arcs| - 1], x); }
  }

  lemma {:induction false} OutDegreeAtMostLength(arcs: seq<Arc>, x: nat)
    ensures OutDegree(arcs, x) <= |arcs|
  {
    if arcs != [] { OutDegreeAtMostLength(arcs[..|arcs| - 1], x); }
  }

  lemma BlockDegree(l: Layout, m: nat, k: nat)
    requires l.Valid() && m < |l.used|
    ensures var d := OutDegree(CrossingArcs(l, m, |l.paths[l.used[m]].resources|), l.PathsFrom() + k);
      if m == k then d <= MAX_RESOURCES_PER_PATH else d == 0
  {
    var block := CrossingArcs(l, m, |l.paths[l.used[m]].resources|);
    assert PathWithinLimits(l.paths[l.used[m]], |l.ceilings|);
    if m == k {
      OutDegreeAtMostLength(block, l.PathsFrom() + k);
    } else {
      OutDegreeNone(block, l.PathsFrom() + k);
    }
  }

  lemma {:induction false} PathDegree(l: Layout, count: nat, k: nat)
    requires l.Valid() && count <= |l.used| && k < |l.used|
    ensures OutDegree(PathArcs(l, count), l.PathsFrom() + k) <= (if k < count then MAX_RESOURCES_PER_PATH else 0)
  {
    hide OutDegree, CrossingArcs;
    if count > 0 {
      var block := CrossingArcs(l, count - 1, |l.paths[l.used[count - 1]].resources|);
      OutDegreeConcat(PathArcs(l, count - 1), block, l.PathsFrom() + k);
      PathDegree(l, count - 1, k);
      BlockDegree(l, count - 1, k);
    } else {
      OutDegreeNone([], l.PathsFrom() + k);
    }
  }

  lemma {:induction false} ResourceDegree(l: Layout, count: nat, r: nat)
    requires l.Valid() && count <= |l.ceilings| && r < |l.ceilings|
    ensures OutDegree(ResourceArcs(l, count), l.ResourceNode(r)) <= 1
  {
    if count > 0 {
      var last := [Arc(l.ResourceNode(count - 1), SINK, l.ceilings[count - 1])];
      OutDegreeConcat(ResourceArcs(l, count - 1), last, l.ResourceNode(r));
      if r == count - 1 {
        ResourceArcKinds(l, count - 1);
        OutDegreeNone(ResourceArcs(l, count - 1), l.ResourceNode(r));
        OutDegreeAtMostLength(last, l.ResourceNode(r));
      } else {
        ResourceDegree(l, count - 1, r);
        OutDegreeNone(last, l.ResourceNode(r));
      }
    }
  }

  lemma OtherDegrees(l: Layout, x: nat)
    requires l.Valid() && l.PathsFrom() <= x
    ensures OutDegree(DemandArcs(l, |l.needy|), x) == 0
    ensures x < l.ResourcesFrom() ==> OutDegree(ResourceArcs(l, |l.ceilings|), x) == 0
    ensures x >= l.ResourcesFrom() ==> OutDegree(PathArcs(l, |l.used|), x) == 0
  {
    DemandArcKinds(l, |l.needy|);
    OutDegreeNone(DemandArcs(l, |l.needy|), x);
    if x < l.ResourcesFrom() {
      ResourceArcKinds(l, |l.ceilings|);
      OutDegreeNone(ResourceArcs(l, |l.ceilings|), x);
    } else {
      PathArcKinds(l, |l.used|);
      OutDegreeNone(PathArcs(l, |l.used|), x);
    }
  }

  lemma InnerDegrees(l: Layout, x: nat)
    requires l.Valid() && l.PathsFrom() <= x < l.Nodes()
    ensures OutDegree(AllArcs(l), x) <= (if x < l.ResourcesFrom() then MAX_RESOURCES_PER_PATH else 1)
  {
    hide DemandArcs, PathArcs, ResourceArcs, OutDegree;
    OutDegreeConcat(DemandArcs(l, |l.needy|) + PathArcs(l, |l.used|), ResourceArcs(l, |l.ceilings|), x);
    OutDegreeConcat(DemandArcs(l, |l.needy|), PathArcs(l, |l.used|), x);
    OtherDegrees(l, x);
    if x < l.ResourcesFrom() {
      PathDegree(l, |l.used|, x - l.PathsFrom());
    } else {
      ResourceDegree(l, |l.ceilings|, x - l.ResourcesFrom());
    }
  }

  /** An arc into a resource carries at most the ceiling bound. */
  lemma CrossingFlowBounded(l: Layout, flow: seq<int>, k: nat)
    requires l.Valid() && IsFlow(AllArcs(l), flow, SOURCE, SINK) && k < |flow| && CrossingArc(l, AllArcs(l)[k])
    ensures flow[k] <= MAX_BANDWIDTH
  {
    var arcs := AllArcs(l);
    var x := arcs[k].to;
    forall j | 0 <= j < |arcs| && arcs[j].from == x ensures flow[j] <= MAX_BANDWIDTH {
      ArcKinds(l, j);
    }
    InnerDegrees(l, x);
    InflowLimitedByOutlets(arcs, flow, SOURCE, SINK, k, MAX_BANDWIDTH);
    MulMonotone(OutDegree(arcs, x), 1, MAX_BANDWIDTH);
  }

  /** Within the limits of the model no feasible flow fills an unbounded arc. */
  lemma UnboundedArcsKeepRoom(l: Layout, flow: seq<int>, k: nat)
    requires l.Valid() && IsFlow(AllArcs(l), flow, SOURCE, SINK) && k < |flow|
    requires Unbounded(l, AllArcs(l)[k])
    ensures flow[k] < UNBOUNDED
  {
    var arcs := AllArcs(l);
    if CrossingArc(l, arcs[k]) {
      CrossingFlowBounded(l, flow, k);
    } else {
      var x := arcs[k].to;
      forall j | 0 <= j < |arcs| && arcs[j].from == x ensures flow[j] <= MAX_BANDWIDTH {
        ArcKinds(l, j);
        CrossingFlowBounded(l, flow, j);
      }
      InnerDegrees(l, x);
      InflowLimitedByOutlets(arcs, flow, SOURCE, SINK, k, MAX_BANDWIDTH);
      MulMonotone(OutDegree(arcs, x), MAX_RESOURCES_PER_PATH, MAX_BANDWIDTH);
    }
  }

  // ---- Cuts ------------------------------------------------------------------

  ghost predicate Unbounded(l: Layout, a: Arc) {
    EligibilityArc(l, a) || CrossingArc(l, a)
  }

  ghost predicate Leaves(a: Arc, S: set<nat>) {
    a.from in S && a.to !in S
  }

  /** S is not left by any unbounded arc. */
  ghost predicate Closed(l: Layout, S: set<nat>)
    requires l.Valid()
  {
    NoneLeaves(l, AllArcs(l), S)
  }

  ghost function DemandsOutside(l: Layout, S: set<nat>): set<nat> {
    set i: nat | i < |l.needy| && l.DemandNode(i) !in S
  }

  ghost function DemandsInside(l: Layout, S: set<nat>): set<nat> {
    set i: nat | i < |l.needy| && l.DemandNode(i) in S
  }

  ghost function ResourcesInside(l: Layout, S: set<nat>): set<nat> {
    set r: nat | r < |l.ceilings| && l.ResourceNode(r) in S
  }

  lemma {:induction false} CutNone(arcs: seq<Arc>, S: set<nat>)
    requires forall k :: 0 <= k < |arcs| ==> !Leaves(arcs[k], S)
    ensures CutCapacity(arcs, S) == 0
  {
    if arcs != [] { CutNone(arcs[..|arcs| - 1], S); }
  }

  /** No unbounded arc of this list leaves S. */
  ghost predicate NoneLeaves(l: Layout, arcs: seq<Arc>, S: set<nat>) {
    forall k :: 0 <= k < |arcs| ==> !(Unbounded(l, arcs[k]) && Leaves(arcs[k], S))
  }

  lemma NoneLeavesParts(l: Layout, a: seq<Arc>, b: seq<Arc>, S: set<nat>)
    requires NoneLeaves(l, a + b, S)
    ensures NoneLeaves(l, a, S) && NoneLeaves(l, b, S)
  {
    forall k | 0 <= k < |a| ensures !(Unbounded(l, a[k]) && Leaves(a[k], S)) {
      assert (a + b)[k] == a[k];
    }
    forall k | 0 <= k < |b| ensures !(Unbounded(l, b[k]) && Leaves(b[k], S)) {
      assert (a + b)[|a| + k] == b[k];
    }
  }

  lemma EligibleCut(l: Layout, S: set<nat>, i: nat)
    requires l.Valid() && i < |l.needy| && NoneLeaves(l, EligibleArcs(l, i, |l.needy[i].eligible|), S)
    ensures CutCapacity(EligibleArcs(l, i, |l.needy[i].eligible|), S) == 0
  {
    var tail := EligibleArcs(l, i, |l.needy[i].eligible|);
    forall k | 0 <= k < |tail| ensures !Leaves(tail[k], S) {
      assert EligibilityArc(l, tail[k]);
    }
    CutNone(tail, S);
  }

  lemma FloorCut(l: Layout, S: set<nat>, i: nat)
    requires l.Valid() && i < |l.needy| && SOURCE in S
    ensures CutCapacity([Arc(SOURCE, l.DemandNode(i), l.needy[i].floor)], S)
      == Mask(Floors(l.needy), DemandsOutside(l, S))[i]
  {
    assert [Arc(SOURCE, l.DemandNode(i), l.needy[i].floor)][..0] == [];
  }

  lemma {:induction false} DemandCut(l: Layout, S: set<nat>, count: nat)
    requires l.Valid() && count <= |l.needy| && SOURCE in S && NoneLeaves(l, DemandArcs(l, count), S)
    ensures CutCapacity(DemandArcs(l, count), S) == Sum(Mask(Floors(l.needy), DemandsOutside(l, S))[..count])
  {
    hide NoneLeaves, CutCapacity, EligibleArcs, DemandsOutside, Floors;
    if count > 0 {
      var i := count - 1;
      var before, head := DemandArcs(l, i), [Arc(SOURCE, l.DemandNode(i), l.needy[i].floor)];
      var tail := EligibleArcs(l, i, |l.needy[i].eligible|);
      NoneLeavesParts(l, before + head, tail, S);
      NoneLeavesParts(l, before, head, S);
      DemandCut(l, S, i);
      CutConcat(before + head, tail, S);
      CutConcat(before, head, S);
      EligibleCut(l, S, i);
      FloorCut(l, S, i);
      var masked := Mask(Floors(l.needy), DemandsOutside(l, S));
      assert masked[..count] == masked[..i] + [masked[i]];
      SumAppend(masked[..i], masked[i]);
    } else {
      EmptyCut(S);
    }
  }

  lemma EmptyCut(S: set<nat>)
    ensures CutCapacity([], S) == 0
  {
  }

  lemma PathCut(l: Layout, S: set<nat>)
    requires l.Valid() && NoneLeaves(l, PathArcs(l, |l.used|), S)
    ensures CutCapacity(PathArcs(l, |l.used|), S) == 0
  {
    PathArcKinds(l, |l.used|);
    CutNone(PathArcs(l, |l.used|), S);
  }

  lemma {:induction false} ResourceCut(l: Layout, S: set<nat>, count: nat, R: set<nat>)
    requires l.Valid() && count <= |l.ceilings| && SINK !in S && R == ResourcesInside(l, S)
    ensures CutCapacity(ResourceArcs(l, count), S) == Sum(Mask(l.ceilings, R)[..count])
  {
    if count > 0 {
      var r := count - 1;
      ResourceCut(l, S, r, R);
      var arcs := ResourceArcs(l, count);
      assert arcs[..|arcs| - 1] == ResourceArcs(l, r);
      assert Mask(l.ceilings, R)[..count] == Mask(l.ceilings, R)[..r] + [Mask(l.ceilings, R)[r]];
      SumAppend(Mask(l.ceilings, R)[..r], Mask(l.ceilings, R)[r]);
    }
  }

  /** A closed cut costs the floors it leaves out plus the ceilings it takes in. */
  lemma ClosedCut(l: Layout, S: set<nat>)
    requires l.Valid() && SeparatesCut(S, SOURCE, SINK) && Closed(l, S)
    ensures CutCapacity(AllArcs(l), S)
      == SumIn(Floors(l.needy), DemandsOutside(l, S)) + SumIn(l.ceilings, ResourcesInside(l, S))
  {
    hide NoneLeaves, CutCapacity, DemandArcs, PathArcs, ResourceArcs, DemandsOutside, ResourcesInside, Floors;
    var a, b, c := DemandArcs(l, |l.needy|), PathArcs(l, |l.used|), ResourceArcs(l, |l.ceilings|);
    NoneLeavesParts(l, a + b, c, S);
    NoneLeavesParts(l, a, b, S);
    CutConcat(a + b, c, S);
    CutConcat(a, b, S);
    DemandCut(l, S, |l.needy|);
    PathCut(l, S);
    ResourceCut(l, S, |l.ceilings|, ResourcesInside(l, S));
    var outside, inside := Mask(Floors(l.needy), DemandsOutside(l, S)), Mask(l.ceilings, ResourcesInside(l, S));
    assert outside[..|l.needy|] == outside && inside[..|l.ceilings|] == inside;
  }

  /** A closed set that contains a demand contains every resource on its paths. */
  lemma ClosedReaches(l: Layout, S: set<nat>)
    requires l.Valid() && Closed(l, S)
    ensures Reach(l.needy, l.paths, DemandsInside(l, S), |l.ceilings|) <= ResourcesInside(l, S)
  {
    var D, arcs := DemandsInside(l, S), AllArcs(l);
    forall r | r in Reach(l.needy, l.paths, D, |l.ceilings|) ensures r in ResourcesInside(l, S) {
      var i: nat, p: PathId :| i in D && i < |l.needy| && p in l.needy[i].eligible && p < |l.paths|
        && r in l.paths[p].resources;
      var k := IndexOf(l.used, p);
      EligibilityArcsPresent(l, |l.needy|, i, p);
      CrossingArcsPresent(l, |l.used|, k, r);
      var e, c := Arc(l.DemandNode(i), l.PathNode(p), UNBOUNDED), Arc(l.PathsFrom() + k, l.ResourceNode(r), UNBOUNDED);
      assert e in arcs && c in arcs;
      var m :| 0 <= m < |arcs| && arcs[m] == e;
      var n :| 0 <= n < |arcs| && arcs[n] == c;
      assert EligibilityArc(l, arcs[m]) && CrossingArc(l, arcs[n]);
    }
  }

  /** The saturated cut of a maximum flow is closed, because unbounded arcs keep room. */
  lemma SaturatedIsClosed(l: Layout, flow: seq<int>, S: set<nat>)
    requires l.Valid() && IsFlow(AllArcs(l), flow, SOURCE, SINK) && Saturated(AllArcs(l), flow, S)
    ensures Closed(l, S)
  {
    var arcs := AllArcs(l);
    forall k | 0 <= k < |arcs| ensures !(Unbounded(l, arcs[k]) && Leaves(arcs[k], S)) {
      if Unbounded(l, arcs[k]) {
        UnboundedArcsKeepRoom(l, flow, k);
      }
    }
  }

  /** A maximum flow below the total floor exposes a set of demands that breaks Hall's condition. */
  lemma ShortfallBreaksHall(l: Layout, flow: seq<int>, S: set<nat>)
    requires l.Valid() && IsFlow(AllArcs(l), flow, SOURCE, SINK)
    requires SeparatesCut(S, SOURCE, SINK) && Saturated(AllArcs(l), flow, S)
    requires NetOut(AllArcs(l), flow, SOURCE) < Sum(Floors(l.needy))
    ensures !Fits(l.needy, l.paths, l.ceilings, DemandsInside(l, S))
    ensures Reach(l.needy, l.paths, DemandsInside(l, S), |l.ceilings|) <= ResourcesInside(l, S)
  {
    SaturatedIsClosed(l, flow, S);
    SaturatedCutIsOptimal(AllArcs(l), flow, SOURCE, SINK, S);
    ClosedCut(l, S);
    ClosedReaches(l, S);
    var D, out := DemandsInside(l, S), DemandsOutside(l, S);
    SumSplit(Floors(l.needy), D, out);
    SumInMonotone(l.ceilings, Reach(l.needy, l.paths, D, |l.ceilings|), ResourcesInside(l, S));
  }

  // ---- The other direction: a set of demands as a cut ------------------------

  /** Node x belongs to the cut spanned by the demands of D and everything on their paths. */
  ghost predicate InSpan(l: Layout, D: set<nat>, x: nat) {
    || x == SOURCE
    || (2 <= x < l.PathsFrom() && x - 2 in D)
    || (l.PathsFrom() <= x < l.ResourcesFrom()
        && exists i :: i in D && i < |l.needy| && l.used[x - l.PathsFrom()] in l.needy[i].eligible)
    || (l.ResourcesFrom() <= x < l.Nodes() && Touches(l.needy, l.paths, D, x - l.ResourcesFrom()))
  }

  ghost function Span(l: Layout, D: set<nat>): set<nat> {
    set x: nat | x < l.Nodes() && InSpan(l, D, x)
  }

  lemma {:induction false} EligibilityArcMeaning(l: Layout, count: nat, k: nat)
    requires l.Valid() && count <= |l.needy| && k < |DemandArcs(l, count)| && EligibilityArc(l, DemandArcs(l, count)[k])
    ensures l.used[DemandArcs(l, count)[k].to - l.PathsFrom()] in l.needy[DemandArcs(l, count)[k].from - 2].eligible
  {
    var i := count - 1;
    if k < |DemandArcs(l, i)| {
      EligibilityArcMeaning(l, i, k);
    } else {
      var j := k - |DemandArcs(l, i)| - 1;
      assert DemandArcs(l, count)[k] == EligibleArcs(l, i, |l.needy[i].eligible|)[j];
    }
  }

  lemma {:induction false} CrossingArcMeaning(l: Layout, count: nat, k: nat)
    requires l.Valid() && count <= |l.used| && k < |PathArcs(l, count)|
    ensures CrossingArc(l, PathArcs(l, count)[k])
    ensures PathArcs(l, count)[k].to - l.ResourcesFrom()
      in l.paths[l.used[PathArcs(l, count)[k].from - l.PathsFrom()]].resources
  {
    PathArcKinds(l, count);
    if k < |PathArcs(l, count - 1)| {
      CrossingArcMeaning(l, count - 1, k);
    }
  }

  /** Where an eligibility arc starts inside the span, it ends inside. */
  lemma EligibilityStays(l: Layout, D: set<nat>, k: nat)
    requires l.Valid() && k < |DemandArcs(l, |l.needy|)|
    ensures !(Unbounded(l, DemandArcs(l, |l.needy|)[k]) && Leaves(DemandArcs(l, |l.needy|)[k], Span(l, D)))
  {
    var a := DemandArcs(l, |l.needy|)[k];
    DemandArcKinds(l, |l.needy|);
    if EligibilityArc(l, a) { EligibilityArcMeaning(l, |l.needy|, k); }
  }

  lemma CrossingStays(l: Layout, D: set<nat>, k: nat)
    requires l.Valid() && k < |PathArcs(l, |l.used|)|
    ensures !(Unbounded(l, PathArcs(l, |l.used|)[k]) && Leaves(PathArcs(l, |l.used|)[k], Span(l, D)))
  {
    var a := PathArcs(l, |l.used|)[k];
    CrossingArcMeaning(l, |l.used|, k);
    if a.from in Span(l, D) {
      var p := l.used[a.from - l.PathsFrom()];
      var i :| i in D && i < |l.needy| && p in l.needy[i].eligible;
      assert Touches(l.needy, l.paths, D, a.to - l.ResourcesFrom());
    }
  }

  lemma SpanIsClosed(l: Layout, D: set<nat>)
    requires l.Valid()
    ensures Closed(l, Span(l, D))
  {
    var a, b, c := DemandArcs(l, |l.needy|), PathArcs(l, |l.used|), ResourceArcs(l, |l.ceilings|);
    var arcs, S := AllArcs(l), Span(l, D);
    ResourceArcKinds(l, |l.ceilings|);
    hide Span, DemandArcs, PathArcs, ResourceArcs, Leaves;
    forall k | 0 <= k < |arcs| ensures !(Unbounded(l, arcs[k]) && Leaves(arcs[k], S)) {
      if k < |a| {
        assert arcs[k] == a[k];
        EligibilityStays(l, D, k);
      } else if k < |a| + |b| {
        assert arcs[k] == b[k - |a|];
        CrossingStays(l, D, k - |a|);
      } else {
        assert arcs[k] == c[k - |a| - |b|];
      }
    }
  }

  lemma SpanDemand(l: Layout, D: set<nat>, i: nat)
    requires i < |l.needy|
    ensures l.DemandNode(i) in Span(l, D) <==> i in D
  {
    assert InSpan(l, D, l.DemandNode(i)) <==> i in D;
  }

  lemma SpanResource(l: Layout, D: set<nat>, r: nat)
    requires r < |l.ceilings|
    ensures l.ResourceNode(r) in Span(l, D) <==> r in Reach(l.needy, l.paths, D, |l.ceilings|)
  {
    assert InSpan(l, D, l.ResourceNode(r)) <==> Touches(l.needy, l.paths, D, r);
  }

  lemma SpanContents(l: Layout, D: set<nat>)
    requires l.Valid()
    ensures SeparatesCut(Span(l, D), SOURCE, SINK)
    ensures forall i :: 0 <= i < |l.needy| ==> (i in D <==> i !in DemandsOutside(l, Span(l, D)))
    ensures ResourcesInside(l, Span(l, D)) == Reach(l.needy, l.paths, D, |l.ceilings|)
  {
    assert SeparatesCut(Span(l, D), SOURCE, SINK);
    hide Span, Touches, InSpan;
    forall i | 0 <= i < |l.needy| ensures i in D <==> i !in DemandsOutside(l, Span(l, D)) {
      SpanDemand(l, D, i);
    }
    forall r | 0 <= r < |l.ceilings|
      ensures r in ResourcesInside(l, Span(l, D)) <==> r in Reach(l.needy, l.paths, D, |l.ceilings|)
    {
      SpanResource(l, D, r);
    }
  }

  /** A flow that carries every floor makes every set of demands fit. */
  lemma FullFlowFits(l: Layout, flow: seq<int>, D: set<nat>)
    requires l.Valid() && IsFlow(AllArcs(l), flow, SOURCE, SINK)
    requires NetOut(AllArcs(l), flow, SOURCE) >= Sum(Floors(l.needy))
    ensures Fits(l.needy, l.paths, l.ceilings, D)
  {
    var S := Span(l, D);
    SpanIsClosed(l, D);
    SpanContents(l, D);
    hide AllArcs, Span, Closed, SeparatesCut, DemandsOutside, ResourcesInside, IsFlow, NetOut, CutCapacity, Reach;
    WeakDuality(AllArcs(l), flow, SOURCE, SINK, S);
    ClosedCut(l, S);
    SumSplit(Floors(l.needy), D, DemandsOutside(l, S));
  }

  /** A maximum flow carries every floor exactly when Hall's condition holds. */
  lemma FlowDecidesHall(l: Layout, flow: seq<int>, S: set<nat>)
    requires l.Valid() && IsFlow(AllArcs(l), flow, SOURCE, SINK)
    requires SeparatesCut(S, SOURCE, SINK) && Saturated(AllArcs(l), flow, S)
    ensures NetOut(AllArcs(l), flow, SOURCE) >= Sum(Floors(l.needy)) <==> Hall(l.needy, l.paths, l.ceilings)
  {
    if NetOut(AllArcs(l), flow, SOURCE) >= Sum(Floors(l.needy)) {
      forall D: set<nat> ensures Fits(l.needy, l.paths, l.ceilings, D) {
        FullFlowFits(l, flow, D);
      }
    } else {
      ShortfallBreaksHall(l, flow, S);
    }
  }
}
