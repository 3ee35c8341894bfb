/** certify() of src/solver.cpp: a max-flow relaxation used only to prove infeasibility. */
module InfeasibilityCertificate {
  import opened Numeric
  import opened Sums
  import opened Fabric
  import opened Relaxation
  import opened FlowTheory
  import opened CertificateNetwork
  import opened Residual
  import opened Layers
  import opened Phases
  import opened MaxFlow

  datatype Certificate = Certificate(
    built: bool,
    feasible: bool,
    achievable: int64,
    required: int64,
    onlyPathStarved: bool,
    saturatedResources: set<ResourceId>,   // the source keeps sorted vectors without duplicates
    unreachableDemands: set<DemandId>)

  /** The needy demands (by position) that the certificate leaves on the source side of its cut. */
  ghost function SourceSideDemands(demands: seq<DemandDerivation>, c: Certificate): set<nat> {
    set i: nat | i < |NeedyIds(demands)| && NeedyIds(demands)[i] !in c.unreachableDemands
  }

  /** What a certificate that was built says about the relaxation. */
  ghost predicate Sound(demands: seq<DemandDerivation>, paths: seq<CandidatePath>, resources: seq<ResourceState>,
                        permille: int64, c: Certificate)
  {
    && c.required == Clamp(TotalFloor(demands)) && (c.onlyPathStarved <==> Starved(demands))
    && (!c.feasible ==> !RelaxedFeasible(demands, paths, resources, permille))
    && (c.feasible && TotalFloor(demands) <= MAX_INT64 ==> RelaxedFeasible(demands, paths, resources, permille))
    && (!c.feasible && !Starved(demands) ==>
          var D := SourceSideDemands(demands, c);
          && !Fits(Needy(demands), paths, Ceilings(resources, permille), D)
          && Reach(Needy(demands), paths, D, |resources|) !! c.saturatedResources)
  }

  ghost predicate MaximumFlow(l: Layout, flow: seq<int>, S: set<nat>)
    requires l.Valid()
  {
    && IsFlow(AllArcs(l), flow, SOURCE, SINK)
    && SeparatesCut(S, SOURCE, SINK) && Saturated(AllArcs(l), flow, S)
  }

  ghost function LayoutOf(demands: seq<DemandDerivation>, used: seq<PathId>, paths: seq<CandidatePath>,
                          resources: seq<ResourceState>, permille: int64): Layout
  {
    Layout(Needy(demands), used, paths, Ceilings(resources, permille))
  }

  /** The value of a flow never exceeds the floors that the network knows of. */
  lemma ValueWithinFloors(l: Layout, flow: seq<int>)
    requires l.Valid() && IsFlow(AllArcs(l), flow, SOURCE, SINK)
    ensures NetOut(AllArcs(l), flow, SOURCE) <= Sum(Floors(l.needy))
  {
    var S := Span(l, {});
    SpanIsClosed(l, {});
    SpanContents(l, {});
    WeakDuality(AllArcs(l), flow, SOURCE, SINK, S);
    ClosedCut(l, S);
    assert Reach(l.needy, l.paths, {}, |l.ceilings|) == {};
    SumZero(Mask(l.ceilings, {}));
    SumInAtMost(Floors(l.needy), DemandsOutside(l, S));
  }

  lemma SumInAtMost(s: seq<int>, D: set<nat>)
    requires forall i :: 0 <= i < |s| ==> s[i] >= 0
    ensures SumIn(s, D) <= Sum(s)
  {
    SumMonotone(Mask(s, D), s);
  }

  /** Comparing the saturated flow value with the saturated demand decides the relaxation. */
  lemma Verdict(demands: seq<DemandDerivation>, used: seq<PathId>, paths: seq<CandidatePath>,
                resources: seq<ResourceState>, permille: int64, flow: seq<int>, S: set<nat>)
    requires LayoutOf(demands, used, paths, resources, permille).Valid()
    requires MaximumFlow(LayoutOf(demands, used, paths, resources, permille), flow, S)
    ensures var l := LayoutOf(demands, used, paths, resources, permille);
      var feasible := Clamp(NetOut(AllArcs(l), flow, SOURCE)) >= Clamp(TotalFloor(demands));
      && (!feasible ==> !RelaxedFeasible(demands, paths, resources, permille))
      && (feasible && TotalFloor(demands) <= MAX_INT64 ==> RelaxedFeasible(demands, paths, resources, permille))
      && (!feasible && !Starved(demands) ==>
            && !Fits(l.needy, paths, l.ceilings, DemandsInside(l, S))
            && Reach(l.needy, paths, DemandsInside(l, S), |resources|) <= ResourcesInside(l, S))
  {
    var l := LayoutOf(demands, used, paths, resources, permille);
    hide AllArcs, Saturated, SeparatesCut, Fits, Reach, Hall;
    NeedyFloors(demands);
    SumNonNegative(Floors(l.needy));
    ValueWithinFloors(l, flow);
    FlowDecidesHall(l, flow, S);
    if NetOut(AllArcs(l), flow, SOURCE) < Sum(Floors(l.needy)) {
      ShortfallBreaksHall(l, flow, S);
    }
  }

  /** The part of the network that has been built: all its arcs, none of them carrying flow. */
  ghost predicate Building(network: FlowNetwork, arcs: seq<Arc>, nodes: nat)
    reads network
  {
    && network.Valid() && |network.adjacency| == nodes
    && Plain(network.arcs) == arcs
    && forall k :: 0 <= k < |network.Flow()| ==> network.Flow()[k] == 0
  }

  /** The node tables agree with the layout. */
  ghost predicate Numbered(l: Layout, demandNodes: seq<nat>, pathNodes: map<PathId, nat>, resourceNodes: seq<nat>) {
    && l.Valid()
    && |demandNodes| == |l.needy| && (forall i :: 0 <= i < |demandNodes| ==> demandNodes[i] == l.DemandNode(i))
    && (forall p :: p in l.used ==> p in pathNodes && pathNodes[p] == l.PathNode(p))
    && |resourceNodes| == |l.ceilings|
      && (forall r :: 0 <= r < |resourceNodes| ==> resourceNodes[r] == l.ResourceNode(r))
  }

  /** Nodes are handed out consecutively: demands, then used paths, then resources. */
  method NumberNodes(network: FlowNetwork, demandCount: nat, used: seq<PathId>, resourceCount: nat, ghost l: Layout)
    returns (demandNodes: seq<nat>, pathNodes: map<PathId, nat>, resourceNodes: seq<nat>)
    requires l.Valid() && demandCount == |l.needy| && used == l.used && resourceCount == |l.ceilings|
    requires Building(network, [], 2)
    modifies network
    ensures Building(network, [], l.Nodes()) && Numbered(l, demandNodes, pathNodes, resourceNodes)
  {
    demandNodes, pathNodes, resourceNodes := [], map[], [];
    for i := 0 to demandCount
      invariant Building(network, [], 2 + i)
      invariant |demandNodes| == i && forall j :: 0 <= j < i ==> demandNodes[j] == l.DemandNode(j)
    {
      var node := network.AddNode();
      demandNodes := demandNodes + [node];
    }
    for k := 0 to |used|
      invariant Building(network, [], l.PathsFrom() + k)
      invariant forall j :: 0 <= j < k ==> used[j] in pathNodes && pathNodes[used[j]] == l.PathsFrom() + j
    {
      var node := network.AddNode();
      pathNodes := pathNodes[used[k] := node];
    }
    for r := 0 to resourceCount
      invariant Building(network, [], l.ResourcesFrom() + r)
      invariant |resourceNodes| == r && forall j :: 0 <= j < r ==> resourceNodes[j] == l.ResourceNode(j)
    {
      var node := network.AddNode();
      resourceNodes := resourceNodes + [node];
    }
    forall p | p in l.used ensures p in pathNodes && pathNodes[p] == l.PathNode(p) {
      var j := IndexOf(l.used, p);
      assert l.used[j] == p;
    }
  }

  /** add_edge on the network under construction. */
  method AddArc(network: FlowNetwork, from: nat, to: nat, capacity: int64, ghost arcs: seq<Arc>, ghost nodes: nat)
    requires Building(network, arcs, nodes) && from < nodes && to < nodes && from != to && capacity >= 0
    modifies network
    ensures Building(network, arcs + [Arc(from, to, capacity)], nodes)
  {
    network.AddEdge(from, to, capacity);
  }

  /** Node numbers are in range and of different kinds. */
  lemma NodeRanges(l: Layout)
    requires l.Valid()
    ensures 2 <= l.PathsFrom() <= l.ResourcesFrom() <= l.Nodes()
    ensures forall i :: 0 <= i < |l.needy| ==> 2 <= l.DemandNode(i) < l.PathsFrom() && l.needy[i].floor >= 0
    ensures forall p :: p in l.used ==> l.PathsFrom() <= l.PathNode(p) < l.ResourcesFrom()
    ensures forall r :: 0 <= r < |l.ceilings| ==> l.ResourcesFrom() <= l.ResourceNode(r) < l.Nodes()
  {
  }

  // ---- The size of the network ---------------------------------------------------------

  /** source -> demand and demand -> path edges. */
  function DemandEdges(needy: seq<DemandDerivation>): nat {
    if needy == [] then 0 else DemandEdges(needy[..|needy| - 1]) + 1 + |needy[|needy| - 1].eligible|
  }

  /** path -> resource edges. */
  function PathEdges(used: seq<PathId>, paths: seq<CandidatePath>): nat
    requires forall k :: 0 <= k < |used| ==> used[k] < |paths|
  {
    if used == [] then 0
    else PathEdges(used[..|used| - 1], paths) + |paths[used[|used| - 1]].resources|
  }

  predicate IsUsed(needy: seq<DemandDerivation>, p: PathId) {
    exists i :: 0 <= i < |needy| && p in needy[i].eligible
  }

  /** The paths below n that some needy demand may use, in canonical order. */
  function UsedBelow(needy: seq<DemandDerivation>, n: nat): (used: seq<PathId>)
    ensures Distinct(used) && forall k :: 0 <= k < |used| ==> used[k] < n && IsUsed(needy, used[k])
    ensures forall p :: 0 <= p < n && IsUsed(needy, p) ==> p in used
  {
    if n == 0 then [] else UsedBelow(needy, n - 1) + (if IsUsed(needy, n - 1) then [n - 1] else [])
  }

  /** The network would pass the bound on nodes or the bound on edges. */
  predicate Oversized(demands: seq<DemandDerivation>, paths: seq<CandidatePath>, resources: seq<ResourceState>) {
    var needy := Needy(demands);
    var used := UsedBelow(needy, |paths|);
    needy != []
    && (2 + |needy| + |used| + |resources| > MAX_CERTIFICATE_NODES
        || DemandEdges(needy) + PathEdges(used, paths) > MAX_CERTIFICATE_EDGES)
  }

  lemma {:induction false} MoreDemandEdges(needy: seq<DemandDerivation>, i: nat)
    requires i <= |needy|
    ensures DemandEdges(needy[..i]) <= DemandEdges(needy)
    ensures i < |needy| ==> DemandEdges(needy[..i]) + 1 + |needy[i].eligible| <= DemandEdges(needy)
  {
    if i == |needy| {
      assert needy[..i] == needy;
    } else {
      var m := |needy| - 1;
      MoreDemandEdges(needy[..m], i);
      assert needy[..m][..i] == needy[..i];
    }
  }

  lemma {:induction false} MorePathEdges(used: seq<PathId>, paths: seq<CandidatePath>, k: nat)
    requires k <= |used| && forall k :: 0 <= k < |used| ==> used[k] < |paths|
    ensures PathEdges(used[..k], paths) <= PathEdges(used, paths)
    ensures k < |used| ==> PathEdges(used[..k], paths) + |paths[used[k]].resources| <= PathEdges(used, paths)
  {
    if k == |used| {
      assert used[..k] == used;
    } else {
      var m := |used| - 1;
      MorePathEdges(used[..m], paths, k);
      assert used[..m][..k] == used[..k];
    }
  }

  /** source -> demand and demand -> path arcs; gives up when the edge bound is passed. */
  method AddDemandArcs(network: FlowNetwork, needy: seq<DemandDerivation>, demandNodes: seq<nat>,
                       pathNodes: map<PathId, nat>, ghost resourceNodes: seq<nat>, ghost l: Layout)
    returns (ok: bool, edges: nat)
    requires Numbered(l, demandNodes, pathNodes, resourceNodes) && needy == l.needy && Building(network, [], l.Nodes())
    requires forall i :: 0 <= i < |needy| ==> needy[i].eligible != []
    modifies network
    ensures ok ==> Building(network, DemandArcs(l, |needy|), l.Nodes())
    ensures ok <==> DemandEdges(needy) <= MAX_CERTIFICATE_EDGES
    ensures ok ==> edges == DemandEdges(needy)
  {
    hide Building, EligibleArcs;
    ok, edges := true, 0;
    NodeRanges(l);
    for i := 0 to |needy|
      invariant Building(network, DemandArcs(l, i), l.Nodes())
      invariant edges == DemandEdges(needy[..i]) <= MAX_CERTIFICATE_EDGES
    {
      MoreDemandEdges(needy, i);
      assert needy[..i + 1][..i] == needy[..i];
      ghost var head := DemandArcs(l, i) + [Arc(SOURCE, l.DemandNode(i), needy[i].floor)];
      AddArc(network, SOURCE, demandNodes[i], needy[i].floor, DemandArcs(l, i), l.Nodes());
      edges := edges + 1;
      NoneYet(l, head);
      for j := 0 to |needy[i].eligible|
        invariant Building(network, head + EligibleArcs(l, i, j), l.Nodes())
        invariant edges == DemandEdges(needy[..i]) + 1 + j && (j > 0 ==> edges <= MAX_CERTIFICATE_EDGES)
      {
        EligibleStep(l, i, j, head);
        AddArc(network, demandNodes[i], pathNodes[needy[i].eligible[j]], INFINITE, head + EligibleArcs(l, i, j),
          l.Nodes());
        edges := edges + 1;
        if edges > MAX_CERTIFICATE_EDGES {
          return false, edges;
        }
      }
    }
    assert needy[..|needy|] == needy;
  }

  /** path -> resource arcs; gives up when the edge bound is passed. */
  method AddPathArcs(network: FlowNetwork, used: seq<PathId>, paths: seq<CandidatePath>, ghost demandNodes: seq<nat>,
                     pathNodes: map<PathId, nat>, resourceNodes: seq<nat>, edgesSoFar: nat, ghost l: Layout)
    returns (ok: bool)
    requires Numbered(l, demandNodes, pathNodes, resourceNodes) && used == l.used && paths == l.paths
    requires Building(network, DemandArcs(l, |l.needy|), l.Nodes()) && edgesSoFar <= MAX_CERTIFICATE_EDGES
    modifies network
    ensures ok ==> Building(network, DemandArcs(l, |l.needy|) + PathArcs(l, |used|), l.Nodes())
    ensures ok <==> edgesSoFar + PathEdges(used, paths) <= MAX_CERTIFICATE_EDGES
  {
    hide Building, CrossingArcs, DemandArcs, PathArcs;
    ok := true;
    var edges := edgesSoFar;
    ghost var before := DemandArcs(l, |l.needy|);
    NoneYet(l, before);
    NodeRanges(l);
    for k := 0 to |used|
      invariant Building(network, before + PathArcs(l, k), l.Nodes())
      invariant edges == edgesSoFar + PathEdges(used[..k], paths) <= MAX_CERTIFICATE_EDGES
    {
      MorePathEdges(used, paths, k);
      assert used[..k + 1][..k] == used[..k];
      IndexOfDistinct(used, k);
      ghost var head := before + PathArcs(l, k);
      NoneYet(l, head);
      assert PathWithinLimits(paths[used[k]], |l.ceilings|);
      for j := 0 to |paths[used[k]].resources|
        invariant Building(network, head + CrossingArcs(l, k, j), l.Nodes())
        invariant edges == edgesSoFar + PathEdges(used[..k], paths) + j <= MAX_CERTIFICATE_EDGES
      {
        CrossingStep(l, k, j, head);
        AddArc(network, pathNodes[used[k]], resourceNodes[paths[used[k]].resources[j]], INFINITE,
          head + CrossingArcs(l, k, j), l.Nodes());
        edges := edges + 1;
        if edges > MAX_CERTIFICATE_EDGES {
          return false;
        }
      }
      PathStep(l, k, before);
    }
    assert used[..|used|] == used;
  }

  /** resource -> sink arcs, with the ceilings recomputed for the probed utilisation. */
  method AddResourceArcs(network: FlowNetwork, resources: seq<ResourceState>, permille: int64,
                         ghost demandNodes: seq<nat>,
                         ghost pathNodes: map<PathId, nat>, resourceNodes: seq<nat>, ghost l: Layout)
    requires Numbered(l, demandNodes, pathNodes, resourceNodes) && l.ceilings == Ceilings(resources, permille)
    requires Building(network, DemandArcs(l, |l.needy|) + PathArcs(l, |l.used|), l.Nodes())
    modifies network
    ensures Building(network, AllArcs(l), l.Nodes())
  {
    hide Building, DemandArcs, PathArcs, ResourceArcs;
    ghost var before := DemandArcs(l, |l.needy|) + PathArcs(l, |l.used|);
    NoneYet(l, before);
    NodeRanges(l);
    for r := 0 to |resources|
      invariant Building(network, before + ResourceArcs(l, r), l.Nodes())
    {
      ResourceStep(l, r, before);
      AddArc(network, resourceNodes[r], SINK, CeilingOf(resources[r], permille), before + ResourceArcs(l, r),
        l.Nodes());
    }
  }

  lemma StarvedSet(demands: seq<DemandDerivation>)
    ensures var starved := set d: nat | d < |demands| && NeedsFloor(demands[d]) && demands[d].eligible == [];
      starved != {} <==> Starved(demands)
  {
    var starved := set d: nat | d < |demands| && NeedsFloor(demands[d]) && demands[d].eligible == [];
    if starved != {} { var d :| d in starved; }
    if Starved(demands) {
      var d :| 0 <= d < |demands| && NeedsFloor(demands[d]) && demands[d].eligible == [];
      assert d in starved;
    }
  }

  lemma CollectStep(demands: seq<DemandDerivation>, d: nat)
    requires d < |demands|
    ensures TotalFloor(demands[..d + 1]) == TotalFloor(demands[..d]) + (if NeedsFloor(demands[d])
      then demands[d].floor else 0)
    ensures NeedyIds(demands[..d + 1])
      == NeedyIds(demands[..d]) + (if NeedsFloor(demands[d]) && demands[d].eligible != [] then [d] else [])
  {
    assert demands[..d + 1][..d] == demands[..d];
  }

  /** The scan over the demands: totals, starved demands, and the ones that enter the network. */
  method Collect(demands: seq<DemandDerivation>)
    returns (required: int64, starved: set<DemandId>, ids: seq<DemandId>, needy: seq<DemandDerivation>)
    requires forall d :: 0 <= d < |demands| ==> demands[d].floor >= 0
    ensures required == Clamp(TotalFloor(demands))
    ensures starved == set d: nat | d < |demands| && NeedsFloor(demands[d]) && demands[d].eligible == []
    ensures starved != {} <==> Starved(demands)
    ensures ids == NeedyIds(demands) && needy == Needy(demands)
  {
    hide TotalFloor, NeedyIds, Starved;
    required, starved, ids, needy := 0, {}, [], [];
    NothingCollected(demands);
    for d := 0 to |demands|
      invariant TotalFloor(demands[..d]) >= 0 && required == Clamp(TotalFloor(demands[..d]))
      invariant starved == set k: nat | k < d && NeedsFloor(demands[k]) && demands[k].eligible == []
      invariant ids == NeedyIds(demands[..d])
      invariant |needy| == |ids| && forall i :: 0 <= i < |ids| ==> ids[i] < d && needy[i] == demands[ids[i]]
    {
      CollectStep(demands, d);
      var demand := demands[d];
      if NeedsFloor(demand) {
        ClampAdd(TotalFloor(demands[..d]), demand.floor);
        required := SatAdd(required, demand.floor);
        if demand.eligible == [] {
          starved := starved + {d};
        } else {
          ids, needy := ids + [d], needy + [demand];
        }
      }
    }
    assert demands[..|demands|] == demands;
    StarvedSet(demands);
  }

  lemma NothingCollected(demands: seq<DemandDerivation>)
    ensures TotalFloor(demands[..0]) == 0 && NeedyIds(demands[..0]) == []
  {
  }

  /** The set of used paths, in canonical order. */
  method UsedPaths(needy: seq<DemandDerivation>, pathCount: nat) returns (used: seq<PathId>)
    requires forall i, p :: 0 <= i < |needy| && p in needy[i].eligible ==> p < pathCount
    ensures used == UsedBelow(needy, pathCount)
    ensures forall p :: p in used <==> IsUsed(needy, p)
  {
    var usedSet: set<PathId> := {};
    for i := 0 to |needy|
      invariant forall p :: p in usedSet <==> exists j :: 0 <= j < i && p in needy[j].eligible
    {
      usedSet := usedSet + (set p | p in needy[i].eligible);
    }
    used := [];
    for p := 0 to pathCount
      invariant used == UsedBelow(needy, p)
    {
      assert p in usedSet <==> IsUsed(needy, p);
      if p in usedSet {
        used := used + [p];
      }
    }
  }

  lemma SizeOf(demands: seq<DemandDerivation>, paths: seq<CandidatePath>, resources: seq<ResourceState>)
    ensures var needy := Needy(demands);
      var used := UsedBelow(needy, |paths|);
      Oversized(demands, paths, resources)
      <==> (needy != []
            && (2 + |needy| + |used| + |resources| > MAX_CERTIFICATE_NODES
                || DemandEdges(needy) + PathEdges(used, paths) > MAX_CERTIFICATE_EDGES))
  {
  }

  lemma EmptyNetwork(demands: seq<DemandDerivation>, paths: seq<CandidatePath>, resources: seq<ResourceState>,
                     permille: int64)
    requires Needy(demands) == []
    ensures Hall(Needy(demands), paths, Ceilings(resources, permille))
  {
    var c := Ceilings(resources, permille);
    forall D: set<nat> ensures Fits(Needy(demands), paths, c, D) {
      SumZero(Mask(Floors(Needy(demands)), D));
      SumNonNegative(Mask(c, Reach(Needy(demands), paths, D, |c|)));
    }
  }

  lemma LayoutIsValid(demands: seq<DemandDerivation>, used: seq<PathId>, paths: seq<CandidatePath>,
                      resources: seq<ResourceState>, permille: int64)
    requires WithinLimits(demands, paths, resources)
    requires Distinct(used) && forall k :: 0 <= k < |used| ==> used[k] < |paths|
    requires forall p :: p in used <==> IsUsed(Needy(demands), p)
    ensures LayoutOf(demands, used, paths, resources, permille).Valid()
  {
    var l := LayoutOf(demands, used, paths, resources, permille);
    assert forall i, p :: 0 <= i < |l.needy| && p in l.needy[i].eligible ==> IsUsed(l.needy, p);
    forall r | 0 <= r < |resources| ensures 0 <= l.ceilings[r] <= MAX_BANDWIDTH {
      assert ResourceWithinLimits(resources[r]);
    }
    forall i | 0 <= i < |l.needy| ensures l.needy[i].floor >= 0 {
      assert DemandWithinLimits(demands[NeedyIds(demands)[i]], |paths|);
    }
  }

  lemma EligibleInRange(demands: seq<DemandDerivation>, paths: seq<CandidatePath>, resources: seq<ResourceState>)
    requires WithinLimits(demands, paths, resources)
    ensures forall i, p :: 0 <= i < |Needy(demands)| && p in Needy(demands)[i].eligible ==> p < |paths|
    ensures forall d :: 0 <= d < |demands| ==> demands[d].floor >= 0
  {
    forall i, p | 0 <= i < |Needy(demands)| && p in Needy(demands)[i].eligible ensures p < |paths| {
      assert DemandWithinLimits(demands[NeedyIds(demands)[i]], |paths|);
    }
    forall d | 0 <= d < |demands| ensures demands[d].floor >= 0 {
      assert DemandWithinLimits(demands[d], |paths|);
    }
  }

  /** The demands and resources that certify() reports are those on the sink side of the cut. */
  ghost predicate Reports(ids: seq<DemandId>, starved: set<DemandId>, l: Layout, S: set<nat>, c: Certificate) {
    && c.saturatedResources == (set r: nat | r < |l.ceilings| && l.ResourceNode(r) !in S)
    && c.unreachableDemands == starved + (set i: nat | i < |ids| && l.DemandNode(i) !in S :: ids[i])
  }

  lemma ReportedSides(demands: seq<DemandDerivation>, starved: set<DemandId>, l: Layout, S: set<nat>, c: Certificate)
    requires Reports(NeedyIds(demands), starved, l, S, c) && |l.needy| == |NeedyIds(demands)|
    requires forall d :: d in starved ==> d < |demands| && demands[d].eligible == []
    ensures SourceSideDemands(demands, c) == DemandsInside(l, S)
    ensures ResourcesInside(l, S) !! c.saturatedResources
  {
    var ids := NeedyIds(demands);
    forall i: nat | i < |ids| ensures i in SourceSideDemands(demands, c) <==> i in DemandsInside(l, S) {
      if ids[i] in c.unreachableDemands {
        var j: nat :| j < |ids| && l.DemandNode(j) !in S && ids[j] == ids[i];
        assert j == i;
      }
    }
  }

  /** Everything the verdict needs from the finished network. */
  lemma CutIsMaximumFlow(network: FlowNetwork, l: Layout, S: set<nat>)
    requires l.Valid() && network.Valid() && Plain(network.arcs) == AllArcs(l)
    requires Phases.Carries(network.adjacency, network.arcs, network.owner, SOURCE, SINK)
    requires ClosedUnderResidual(network.adjacency, S) && SeparatesCut(S, SOURCE, SINK)
    ensures MaximumFlow(l, network.Flow(), S)
    ensures NetOut(AllArcs(l), network.Flow(), SOURCE) == Divergence(network.adjacency, network.arcs, SOURCE)
  {
    ClosedIsSaturated(network.adjacency, network.arcs, network.owner, S);
  }

  /** The network is complete and carries a maximum flow, whose value saturates to `flow`. */
  ghost predicate Solved(network: FlowNetwork, l: Layout, flow: int64)
    reads network
  {
    && l.Valid() && network.Valid() && Plain(network.arcs) == AllArcs(l)
    && |network.adjacency| == l.Nodes()
    && Phases.Carries(network.adjacency, network.arcs, network.owner, SOURCE, SINK)
    && Blocked(network.adjacency, SOURCE, SINK)
    && flow == Clamp(Divergence(network.adjacency, network.arcs, SOURCE))
  }

  /** Builds the relaxed network and solves it, unless a bound is passed on the way. */
  method BuildAndSolve(needy: seq<DemandDerivation>, used: seq<PathId>, paths: seq<CandidatePath>,
                       resources: seq<ResourceState>, permille: int64, ghost l: Layout)
    returns (ok: bool, flow: int64, network: FlowNetwork, demandNodes: seq<nat>, resourceNodes: seq<nat>, spent: nat)
    requires l.Valid() && l == Layout(needy, used, paths, Ceilings(resources, permille))
    requires forall i :: 0 <= i < |needy| ==> needy[i].eligible != []
    ensures fresh(network)
    ensures DemandEdges(needy) + PathEdges(used, paths) > MAX_CERTIFICATE_EDGES ==> !ok && spent == 0
    ensures DemandEdges(needy) + PathEdges(used, paths) <= MAX_CERTIFICATE_EDGES && spent <= MAX_SOLVER_ITERATIONS ==>
      ok
    ensures ok ==> Solved(network, l, flow)
    ensures ok ==> |demandNodes| == |needy| && forall i :: 0 <= i < |needy| ==> demandNodes[i] == l.DemandNode(i)
    ensures ok ==>
      |resourceNodes| == |resources| && forall r :: 0 <= r < |resources| ==> resourceNodes[r] == l.ResourceNode(r)
  {
    hide AllArcs, DemandArcs, PathArcs, ResourceArcs, Represents;
    flow, spent := 0, 0;
    network := new FlowNetwork(2);
    assert Building(network, [], 2);
    var pathNodes, edges;
    demandNodes, pathNodes, resourceNodes := NumberNodes(network, |needy|, used, |resources|, l);
    ok, edges := AddDemandArcs(network, needy, demandNodes, pathNodes, resourceNodes, l);
    if !ok {
      return;
    }
    ok := AddPathArcs(network, used, paths, demandNodes, pathNodes, resourceNodes, edges, l);
    if !ok {
      return;
    }
    AddResourceArcs(network, resources, permille, demandNodes, pathNodes, resourceNodes, l);
    ghost var phases;
    flow, spent, phases := network.MaxFlow(SOURCE, SINK, MAX_SOLVER_ITERATIONS, 0);
    ok := flow >= 0;
  }

  /**
   The demands and resources outside the least set that is closed under residual edges: the sink side of a minimum
   cut.
   */
  method SinkSide(network: FlowNetwork, flow: int64, ids: seq<DemandId>, demandNodes: seq<nat>, resourceNodes: seq<nat>,
                  ghost l: Layout)
    returns (resources: set<ResourceId>, demands: set<DemandId>, reached: set<nat>)
    requires Solved(network, l, flow)
    requires |ids| == |demandNodes| == |l.needy| && forall i :: 0 <= i < |ids| ==> demandNodes[i] == l.DemandNode(i)
    requires |resourceNodes| == |l.ceilings|
    requires forall r :: 0 <= r < |l.ceilings| ==> resourceNodes[r] == l.ResourceNode(r)
    ensures ClosedUnderResidual(network.adjacency, reached) && SeparatesCut(reached, SOURCE, SINK)
    ensures forall T: set<nat> :: SOURCE in T && ClosedUnderResidual(network.adjacency, T) ==> reached <= T
    ensures resources == set r: nat | r < |l.ceilings| && l.ResourceNode(r) !in reached
    ensures demands == set i: nat | i < |ids| && l.DemandNode(i) !in reached :: ids[i]
  {
    hide AllArcs, Represents, ClosedUnderResidual;
    var seen := network.SourceSide(SOURCE);
    ghost var T: set<nat> :| ClosedUnderResidual(network.adjacency, T) && SeparatesCut(T, SOURCE, SINK);
    reached := Members(seen);
    assert reached <= T;
    resources := set r: nat | r < |resourceNodes| && !seen[resourceNodes[r]];
    demands := set i: nat | i < |ids| && !seen[demandNodes[i]] :: ids[i];
  }

  /**
   Certification at a utilisation ceiling. When the certificate is built its verdict is that of Hall's
   condition, unless the sum of the floors itself does not fit in 64 bits; even then an infeasible
   verdict is right. It is not built if the network is oversized, and otherwise only if the flow
   computation spends more than its budget.
   */
  method Certify(demands: seq<DemandDerivation>, paths: seq<CandidatePath>, resources: seq<ResourceState>,
                 permille: int64)
    returns (result: Certificate, ghost spent: nat)
    requires WithinLimits(demands, paths, resources)
    ensures result.built ==> Sound(demands, paths, resources, permille, result)
    ensures Oversized(demands, paths, resources) ==> !result.built
    ensures !Oversized(demands, paths, resources) && spent <= MAX_SOLVER_ITERATIONS ==> result.built
  {
    hide Oversized;
    spent := 0;
    EligibleInRange(demands, paths, resources);
    var required, starved, ids, needy := Collect(demands);
    if needy == [] {
      EmptyNetwork(demands, paths, resources, permille);
      NeedyFloors(demands);
      assert !Oversized(demands, paths, resources) by { SizeOf(demands, paths, resources); }
      return Certificate(true, starved == {}, 0, required, starved != {}, {}, starved), spent;
    }
    var notBuilt := Certificate(false, false, 0, required, starved != {}, {}, starved);
    var used := UsedPaths(needy, |paths|);
    SizeOf(demands, paths, resources);
    if 2 + |needy| + |used| + |resources| > MAX_CERTIFICATE_NODES {
      return notBuilt, spent;
    }
    ghost var l := LayoutOf(demands, used, paths, resources, permille);
    LayoutIsValid(demands, used, paths, resources, permille);
    var ok, flow, network, demandNodes, resourceNodes, rounds := BuildAndSolve(needy, used, paths, resources, permille,
      l);
    spent := rounds;
    if !ok {
      return notBuilt, spent;
    }
    result := Certificate(true, flow >= required, flow, required, starved != {}, {}, starved);
    hide AllArcs, Represents, RelaxedFeasible, Fits, Reach, WithinLimits;
    ghost var S: set<nat> :| ClosedUnderResidual(network.adjacency, S) && SeparatesCut(S, SOURCE, SINK);
    if !result.feasible {
      var saturated, unreachable, reached := SinkSide(network, flow, ids, demandNodes, resourceNodes, l);
      S := reached;
      result := result.(saturatedResources := saturated, unreachableDemands := starved + unreachable);
      ReportedSides(demands, starved, l, S, result);
    }
    CutIsMaximumFlow(network, l, S);
    Verdict(demands, used, paths, resources, permille, network.Flow(), S);
  }
}
