/** class FlowNetwork of src/solver.cpp. */
module MaxFlow {
  import opened Numeric
  import opened FlowTheory
  import opened Residual
  import opened Layers
  import opened Augmentation
  import opened Phases

  /** std::numeric_limits<Bandwidth>::max() / 8 */
  const INFINITE: int64 := MAX_INT64 / 8

  class FlowNetwork {
    var adjacency: Adjacency
    ghost var arcs: seq<StoredArc>          // every add_edge call so far, in order
    ghost var owner: seq<seq<nat>>    // which arc each slot belongs to

    ghost predicate Valid()
      reads this
    {
      Represents(adjacency, arcs, owner)
    }

    ghost function Flow(): seq<int>
      reads this
    {
      FlowOf(adjacency, arcs)
    }

    constructor (nodeCount: nat)
      ensures Valid() && arcs == [] && |adjacency| == nodeCount
    {
      adjacency := seq(nodeCount, _ => []);
      arcs, owner := [], seq(nodeCount, _ => []);
    }

    method AddNode() returns (node: nat)
      requires Valid()
      modifies this
      ensures Valid() && arcs == old(arcs)
      ensures node == old(|adjacency|) && |adjacency| == node + 1
      ensures Flow() == old(Flow())
    {
      node := |adjacency|;
      adjacency := adjacency + [[]];
      owner := owner + [[]];
      assert forall k :: 0 <= k < |arcs| ==> old(ArcStored(adjacency, owner, arcs[k], k));
      assert forall u: nat, i: nat :: IsSlot(adjacency, u, i) ==>
        old(IsSlot(adjacency, u, i)) && old(SlotOwned(adjacency, arcs, owner, u, i));
    }

    /** A new arc carries no flow; the forward and backward slots point at each other. */
    method AddEdge(from: nat, to: nat, capacity: int64)
      requires Valid() && from < |adjacency| && to < |adjacency| && from != to && capacity >= 0
      modifies this
      ensures Valid() && |adjacency| == old(|adjacency|)
      ensures Plain(arcs) == old(Plain(arcs)) + [Arc(from, to, capacity)]
      ensures Flow() == old(Flow()) + [0]
    {
      ExtendRepresents(adjacency, arcs, owner, from, to, capacity);
      var forward := Edge(to, capacity, |adjacency[to]|);
      var backward := Edge(from, 0, |adjacency[from]|);
      ghost var k := |arcs|;
      arcs := arcs + [StoredArc(from, to, capacity, |adjacency[from]|, |adjacency[to]|)];
      adjacency := adjacency[from := adjacency[from] + [forward]];
      adjacency := adjacency[to := adjacency[to] + [backward]];
      owner := Widened(Widened(owner, from, k), to, k);
    }

    /** Breadth-first search: `level` ends up holding residual distances, -1 where unreachable. */
    method BuildLevels(source: nat, sink: nat, level: array<int>, iterations: nat) returns (reached: bool, spent: nat)
      requires Valid() && source < |adjacency| && sink < |adjacency| && level.Length == |adjacency|
      modifies level
      ensures BreadthFirst(adjacency, source, level[..])
      ensures reached <==> level[sink] >= 0
      ensures spent > iterations
    {
      hide Represents, Scanned, Scanning, BreadthFirst;
      spent := iterations;
      forall u | 0 <= u < level.Length { level[u] := -1; }
      level[source] := 0;
      var queue := [source];
      ghost var visited: set<nat> := {source};
      ScanStart(adjacency, source, level[..]);
      while queue != []
        invariant Scanned(adjacency, source, level[..], visited, queue)
        invariant spent >= iterations && (spent == iterations ==> queue != [])
        decreases |adjacency| - |visited| + |queue|
      {
        spent := spent + 1;
        ScanPop(adjacency, source, level[..], visited, queue);
        ghost var before := |queue| - |visited|;
        var node := queue[0];
        queue := queue[1..];
        for i := 0 to |adjacency[node]|
          invariant Scanning(adjacency, source, level[..], visited, queue, node, i)
          invariant |queue| + 1 - |visited| == before
        {
          SlotsAreReversible(adjacency, arcs, owner, node, i);
          var edge := adjacency[node][i];
          if edge.capacity > 0 && level[edge.to] < 0 {
            ghost var levels := level[..];
            ScanVisit(adjacency, source, levels, visited, queue, node, i, edge.to);
            level[edge.to] := level[node] + 1;
            assert level[..] == levels[edge.to := levels[node] + 1];
            queue := queue + [edge.to];
            visited := visited + {edge.to};
          } else {
            ScanSkip(adjacency, source, level[..], visited, queue, node, i);
          }
        }
        ScanDone(adjacency, source, level[..], visited, queue, node);
      }
      ScanFinished(adjacency, source, level[..], visited);
      reached := level[sink] >= 0;
    }

    /**
     Depth-first search from `node` along admissible edges, charging each edge of the path it finds on
     the way back. Returning 0 means that every edge of `node` has been tried and is useless.
     */
    method Augment(node: nat, sink: nat, limit: int64, level: array<int>, next: array<nat>, iterations: nat)
      returns (pushed: int64, spent: nat)
      requires PhaseOk(adjacency, arcs, owner, level[..], next[..], sink)
      requires node < |adjacency| && level[node] >= 0 && limit > 0
      modifies this`adjacency, next
      ensures PhaseOk(adjacency, arcs, owner, level[..], next[..], sink)
      ensures Untouched(old(adjacency), old(next[..]), adjacency, next[..], level[..], node)
      ensures Delivered(old(adjacency), adjacency, arcs, node, sink, pushed)
      ensures 0 <= pushed <= limit
      ensures pushed == 0 ==> Exhausted(adjacency, next[..], sink, node)
      ensures spent >= iterations
      decreases level.Length - level[node]
    {
      hide PhaseOk, Untouched, Delivered, Exhausted;
      spent := iterations;
      PhaseFacts(adjacency, arcs, owner, level[..], next[..], sink, node);
      NothingYet(adjacency, next[..], arcs, level[..], node, sink, if node == sink then limit else 0);
      if node == sink {
        return limit, spent;
      }
      while next[node] < |adjacency[node]|
        invariant PhaseOk(adjacency, arcs, owner, level[..], next[..], sink)
        invariant |adjacency| == level.Length == next.Length && next[node] <= |adjacency[node]|
        invariant Untouched(old(adjacency), old(next[..]), adjacency, next[..], level[..], node)
        invariant Delivered(old(adjacency), adjacency, arcs, node, sink, 0)
        invariant spent >= iterations
        decreases |adjacency[node]| - next[node]
      {
        spent := spent + 1;
        ghost var adj1, next1 := adjacency, next[..];
        var i := next[node];
        var edge := adjacency[node][i];
        PhaseFacts(adjacency, arcs, owner, level[..], next[..], sink, node);
        if edge.capacity > 0 && level[edge.to] == level[node] + 1 {
          pushed, spent := Augment(edge.to, sink, if limit < edge.capacity then limit else edge.capacity, level, next,
            spent);
          UntouchedBelow(old(adjacency), old(next[..]), adj1, next1, adjacency, next[..], level[..], node, edge.to);
          PhaseFacts(adjacency, arcs, owner, level[..], next[..], sink, node);
          ghost var adj2 := adjacency;
          if pushed > 0 {
            ChargedPath(old(adjacency), old(next[..]), adj1, adj2, arcs, owner, level[..], next[..], sink, node, i,
              pushed);
            adjacency := adjacency[node := adjacency[node][i := edge.(capacity := edge.capacity - pushed)]];
            var back := adjacency[edge.to][edge.reverse];
            adjacency := adjacency[edge.to := adjacency[edge.to][edge.reverse := back.(capacity := back.capacity
              + pushed)]];
            assert adjacency == Pushed(adj2, node, i, pushed);
            return;
          }
          DeliveredNothing(old(adjacency), adj1, adj2, arcs, node, edge.to, sink);
        }
        AdvanceArc(adjacency, arcs, owner, level[..], next[..], sink, node);
        UntouchedTransitive(old(adjacency), old(next[..]), adjacency, next[..], adjacency, next[..][node := i + 1],
          level[..], node);
        label A:
        next[node] := i + 1;
        assert next[..] == old@A(next[..])[node := i + 1];
        PhaseFacts(adjacency, arcs, owner, level[..], next[..], sink, node);
      }
      PhaseFacts(adjacency, arcs, owner, level[..], next[..], sink, node);
      pushed := 0;
    }

    /**
     Dinic's algorithm from the zero flow. A non-negative result is the (saturating) value of a maximum
     flow; -1 means that the iteration budget ran out. The phases are fewer than the nodes whatever the
     budget: the distance of the sink is the termination measure.
     */
    method MaxFlow(source: nat, sink: nat, maxIterations: nat, iterations: nat)
      returns (total: int64, spent: nat, ghost phases: nat)
      requires Valid() && source < |adjacency| && sink < |adjacency| && source != sink
      requires forall k :: 0 <= k < |arcs| ==> Flow()[k] == 0
      modifies this`adjacency
      ensures Valid() && |adjacency| == old(|adjacency|)
      ensures total == -1 || total >= 0
      ensures total == -1 ==> spent > maxIterations
      ensures total >= 0 ==> Carries(adjacency, arcs, owner, source, sink) && Blocked(adjacency, source, sink)
      ensures total >= 0 ==> total == Clamp(Divergence(adjacency, arcs, source))
      ensures phases < |adjacency|
      ensures spent >= iterations
    {
      hide Represents, Layered, CurrentArcs, Untouched, Delivered, IsFlow, BreadthFirst;
      total, spent, phases := 0, iterations, 0;
      ghost var reach := 0;   // distance of the sink in the last phase
      var level := new int[|adjacency|](_ => -1);
      var next := new nat[|adjacency|](_ => 0);
      assert Flow() == FlowOf(adjacency, arcs);
      StartsEmpty(adjacency, arcs, owner, source, sink);
      while true
        invariant Carries(adjacency, arcs, owner, source, sink)
        invariant total == Clamp(Divergence(adjacency, arcs, source))
        invariant |adjacency| == level.Length == next.Length == old(|adjacency|)
        invariant phases <= reach < |adjacency| && spent >= iterations
        invariant Finished(adjacency, level[..], next[..], source, sink, reach)
        decreases |adjacency| - reach
      {
        ghost var oldLevel := level[..];
        var reached;
        reached, spent := BuildLevels(source, sink, level, spent);
        if !reached {
          UnreachedIsBlocked(adjacency, source, sink, level[..]);
          break;
        }
        NextPhase(adjacency, oldLevel, next[..], source, sink, reach, level[..]);
        reach, phases := level[sink], phases + 1;
        if spent > maxIterations {
          return -1, spent, phases;
        }
        ghost var newLevel := level[..];
        forall u | 0 <= u < next.Length { next[u] := 0; }
        assert level[..] == newLevel;
        StartPhase(adjacency, arcs, owner, level[..], next[..], source, sink);
        while true
          invariant Carries(adjacency, arcs, owner, source, sink)
          invariant total == Clamp(Divergence(adjacency, arcs, source))
          invariant PhaseOk(adjacency, arcs, owner, level[..], next[..], sink)
          invariant level[..] == newLevel
          invariant |adjacency| == old(|adjacency|) && spent >= iterations
          decreases CutCapacity(Plain(arcs), {source}) - Divergence(adjacency, arcs, source)
        {
          if spent > maxIterations {
            return -1, spent, phases;
          }
          ghost var adj0, next0 := adjacency, next[..];
          var pushed;
          pushed, spent := Augment(source, sink, INFINITE, level, next, spent);
          AugmentCarries(adj0, next0, adjacency, next[..], arcs, owner, level[..], source, sink, pushed);
          if pushed <= 0 {
            break;
          }
          total := SatAdd(total, pushed);
          ValueBounded(adjacency, arcs, owner, source, sink);
        }
      }
    }

    /** Nodes reachable from `source` in the residual graph: the least residually closed set around it. */
    method SourceSide(source: nat) returns (seen: seq<bool>)
      requires Valid() && source < |adjacency|
      ensures |seen| == |adjacency| && source in Members(seen)
      ensures ClosedUnderResidual(adjacency, Members(seen))
      ensures Least(adjacency, source, seen)
    {
      hide Represents, Exploring, Least, ClosedUnderResidual, Members;
      seen := seq(|adjacency|, _ => false)[source := true];
      var queue := [source];
      ExploreStart(adjacency, source, seen);
      while queue != []
        invariant Exploring(adjacency, source, seen, queue, |adjacency|, 0)
        invariant Least(adjacency, source, seen)
        decreases |adjacency| - |Members(seen)| + |queue|
      {
        var node := queue[0];
        ExploreFirst(adjacency, source, seen, queue);
        queue := queue[1..];
        ghost var before := |queue| - |Members(seen)|;
        for i := 0 to |adjacency[node]|
          invariant Exploring(adjacency, source, seen, queue, node, i) && |seen| == |adjacency|
          invariant Least(adjacency, source, seen)
          invariant |queue| - |Members(seen)| == before
        {
          SlotsAreReversible(adjacency, arcs, owner, node, i);
          var edge := adjacency[node][i];
          if edge.capacity > 0 && !seen[edge.to] {
            MarkNode(adjacency, source, seen, queue, node, i, edge.to);
            seen := seen[edge.to := true];
            queue := queue + [edge.to];
          } else {
            ExploreSkip(adjacency, source, seen, queue, node, i);
          }
        }
        ExploreDone(adjacency, source, seen, queue, node);
      }
      ExploreFinished(adjacency, source, seen);
    }
  }
}
