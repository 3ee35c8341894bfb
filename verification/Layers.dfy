/** Level graphs, current arcs and the reason each Dinic phase is shorter-lived than the last. */
module Layers {
  import opened Residual

  /** No residual edge jumps more than one level forward, and none leaves the levelled part. */
  ghost predicate Layered(adj: Adjacency, level: seq<int>) {
    && |level| == |adj|
    && forall u: nat, i: nat :: IsSlot(adj, u, i) && adj[u][i].capacity > 0 && level[u] >= 0 ==>
         adj[u][i].to < |adj| && 0 <= level[adj[u][i].to] <= level[u] + 1
  }

  /** An edge the depth-first search may follow: residual capacity, exactly one level up. */
  ghost predicate Admissible(adj: Adjacency, level: seq<int>, u: nat, i: nat) {
    && IsSlot(adj, u, i) && adj[u][i].to < |level| && u < |level|
    && adj[u][i].capacity > 0 && level[adj[u][i].to] == level[u] + 1
  }

  /** The search has advanced past every edge of v. */
  ghost predicate Exhausted(adj: Adjacency, next: seq<nat>, sink: nat, v: nat) {
    v < |adj| && v < |next| && v != sink && next[v] == |adj[v]|
  }

  /** Current-arc pruning is safe: an edge before the current arc is useless for this phase. */
  ghost predicate CurrentArcs(adj: Adjacency, level: seq<int>, next: seq<nat>, sink: nat) {
    && |next| == |level| == |adj|
    && (forall u :: 0 <= u < |adj| ==> next[u] <= |adj[u]|)
    && forall u: nat, i: nat :: Admissible(adj, level, u, i) && i < next[u] ==> Exhausted(adj, next, sink, adj[u][i].to)
  }

  ghost predicate HasPredecessor(adj: Adjacency, level: seq<int>, v: nat) {
    exists u: nat, i: nat :: Admissible(adj, level, u, i) && adj[u][i].to == v && level[u] >= 0
  }

  /** What the breadth-first search computes: distances from the source in the residual graph. */
  ghost predicate BreadthFirst(adj: Adjacency, source: nat, level: seq<int>) {
    && source < |adj| == |level| && level[source] == 0
    && Layered(adj, level)
    && (forall v :: 0 <= v < |adj| ==> -1 <= level[v] < |adj|)
    && (forall v :: 0 <= v < |adj| && v != source && level[v] >= 0 ==> HasPredecessor(adj, level, v))
  }

  /** A push along an admissible edge only creates an edge that leads one level down. */
  lemma PushKeepsLayers(adj: Adjacency, level: seq<int>, u: nat, i: nat, p: int)
    requires Layered(adj, level) && Admissible(adj, level, u, i) && level[u] >= 0
    requires Reversible(adj, u, i) && 0 <= p <= adj[u][i].capacity
    ensures Layered(Pushed(adj, u, i, p), level)
  {
    PushSlots(adj, u, i, p);
    var adj' := Pushed(adj, u, i, p);
    forall v: nat, j: nat | IsSlot(adj', v, j) && adj'[v][j].capacity > 0 && level[v] >= 0
      ensures adj'[v][j].to < |adj'| && 0 <= level[adj'[v][j].to] <= level[v] + 1
    {
      assert IsSlot(adj, v, j);
    }
  }

  lemma PushKeepsCurrentArcs(adj: Adjacency, level: seq<int>, next: seq<nat>, sink: nat, u: nat, i: nat, p: int)
    requires CurrentArcs(adj, level, next, sink) && Admissible(adj, level, u, i)
    requires Reversible(adj, u, i) && 0 <= p <= adj[u][i].capacity
    ensures CurrentArcs(Pushed(adj, u, i, p), level, next, sink)
  {
    PushSlots(adj, u, i, p);
    var adj' := Pushed(adj, u, i, p);
    forall v: nat, j: nat | Admissible(adj', level, v, j) && j < next[v]
      ensures Exhausted(adj', next, sink, adj'[v][j].to)
    {
      assert IsSlot(adj, v, j);
      assert Admissible(adj, level, v, j);
    }
  }

  /**
   After a phase that exhausted its source, new distances dominate old ones, and a node whose
   distance did not grow is exhausted.
   */
  lemma {:induction false} DistancesGrow(adj: Adjacency, level: seq<int>, next: seq<nat>,
                                         source: nat, sink: nat, level': seq<int>, v: nat)
    requires Layered(adj, level) && CurrentArcs(adj, level, next, sink)
    requires source < |adj| && level[source] == 0 && Exhausted(adj, next, sink, source)
    requires BreadthFirst(adj, source, level') && v < |adj| && level'[v] >= 0
    ensures 0 <= level[v] <= level'[v]
    ensures level[v] == level'[v] ==> Exhausted(adj, next, sink, v)
    decreases level'[v]
  {
    if v != source {
      assert HasPredecessor(adj, level', v);
      var u: nat, i: nat :| Admissible(adj, level', u, i) && adj[u][i].to == v && level'[u] >= 0;
      DistancesGrow(adj, level, next, source, sink, level', u);
      if level[v] == level'[v] {
        assert Admissible(adj, level, u, i);
      }
    }
  }

  /** Each phase strictly raises the distance of the sink. */
  lemma PhaseRaisesSink(adj: Adjacency, level: seq<int>, next: seq<nat>, source: nat, sink: nat, level': seq<int>)
    requires Layered(adj, level) && CurrentArcs(adj, level, next, sink)
    requires source < |adj| && level[source] == 0 && Exhausted(adj, next, sink, source)
    requires BreadthFirst(adj, source, level') && sink < |adj| && level'[sink] >= 0
    ensures level[sink] < level'[sink]
  {
    DistancesGrow(adj, level, next, source, sink, level', sink);
  }

  /** S is closed under residual edges. */
  ghost predicate ClosedUnderResidual(adj: Adjacency, S: set<nat>) {
    forall u: nat, i: nat :: IsSlot(adj, u, i) && u in S && adj[u][i].capacity > 0 ==> adj[u][i].to in S
  }

  /** A residually closed set is a saturated cut. */
  lemma ClosedIsSaturated(adj: Adjacency, arcs: seq<StoredArc>, owner: seq<seq<nat>>, S: set<nat>)
    requires Represents(adj, arcs, owner) && ClosedUnderResidual(adj, S)
    ensures FlowTheory.Saturated(Plain(arcs), FlowOf(adj, arcs), S)
  {
    forall k | 0 <= k < |arcs|
      ensures arcs[k].from in S && arcs[k].to !in S ==> FlowOf(adj, arcs)[k] == arcs[k].capacity
      ensures arcs[k].from !in S && arcs[k].to in S ==> FlowOf(adj, arcs)[k] == 0
    {
      assert ArcStored(adj, owner, arcs[k], k);
    }
  }

  /** The levelled nodes of a breadth-first search that missed the sink form a separating closed set. */
  lemma UnreachedSinkIsCut(adj: Adjacency, source: nat, sink: nat, level: seq<int>, S: set<nat>)
    requires BreadthFirst(adj, source, level) && sink < |adj| && level[sink] < 0
    requires forall v: nat :: v in S <==> v < |adj| && level[v] >= 0
    ensures ClosedUnderResidual(adj, S) && FlowTheory.SeparatesCut(S, source, sink)
  {
  }

  /** Edge (u, i) does not violate the layering. */
  ghost predicate Settled(adj: Adjacency, level: seq<int>, u: nat, i: nat)
    requires IsSlot(adj, u, i) && |level| == |adj|
  {
    adj[u][i].capacity > 0 && u < |level| && level[u] >= 0 ==>
      adj[u][i].to < |adj| && 0 <= level[adj[u][i].to] <= level[u] + 1
  }

  /** Half-finished breadth-first search: every levelled node is justified, and levels are contiguous. */
  ghost predicate Searching(adj: Adjacency, source: nat, level: seq<int>, visited: set<nat>) {
    && source in visited && |level| == |adj|
    && (forall v: nat :: v in visited <==> v < |adj| && level[v] >= 0)
    && (forall v :: 0 <= v < |adj| ==> -1 <= level[v] < |visited|)
    && level[source] == 0
    && (forall v: nat :: v in visited && v != source ==> HasPredecessor(adj, level, v))
  }

  /** The queue holds nodes of the current level, then of the next; nothing deeper has been seen. */
  ghost predicate Frontier(level: seq<int>, queue: seq<nat>, top: int) {
    && 0 <= top
    && (forall k :: 0 <= k < |queue| ==> queue[k] < |level| && top <= level[queue[k]])
    && (forall j, k :: 0 <= j < k < |queue| ==> level[queue[j]] <= level[queue[k]])
    && (forall v :: 0 <= v < |level| ==> level[v] <= top + 1)
  }

  ghost predicate InOrder(level: seq<int>, queue: seq<nat>) {
    queue != [] ==> queue[0] < |level| && Frontier(level, queue, level[queue[0]])
  }

  lemma PredecessorSurvives(adj: Adjacency, level: seq<int>, to: nat, d: int, v: nat)
    requires HasPredecessor(adj, level, v) && v != to && to < |level| && level[to] < 0
    ensures HasPredecessor(adj, level[to := d], v)
  {
    var u: nat, j: nat :| Admissible(adj, level, u, j) && adj[u][j].to == v && level[u] >= 0;
    assert Admissible(adj, level[to := d], u, j);
  }

  lemma BecomesPredecessor(adj: Adjacency, level: seq<int>, node: nat, i: nat, to: nat)
    requires Admissible(adj, level, node, i) && adj[node][i].to == to && level[node] >= 0
    ensures HasPredecessor(adj, level, to)
  {
  }

  lemma Visit(adj: Adjacency, source: nat, level: seq<int>, visited: set<nat>, node: nat, i: nat, to: nat)
    requires Searching(adj, source, level, visited) && IsSlot(adj, node, i) && node in visited
    requires adj[node][i].to == to < |adj| && adj[node][i].capacity > 0 && level[to] < 0
    ensures Searching(adj, source, level[to := level[node] + 1], visited + {to})
    ensures |visited + {to}| == |visited| + 1
    ensures node < |level| == |adj| && level[node] >= 0
  {
    hide HasPredecessor;
    var level' := level[to := level[node] + 1];
    assert to !in visited;
    BecomesPredecessor(adj, level', node, i, to);
    forall v: nat | v in visited && v != source ensures HasPredecessor(adj, level', v) {
      PredecessorSurvives(adj, level, to, level[node] + 1, v);
    }
  }

  /** Between two queue pops: everything seen and no longer queued has had its edges examined. */
  ghost predicate Scanned(adj: Adjacency, source: nat, level: seq<int>, visited: set<nat>, queue: seq<nat>) {
    && Searching(adj, source, level, visited)
    && InOrder(level, queue)
    && forall u: nat, j: nat :: IsSlot(adj, u, j) && u !in queue ==> Settled(adj, level, u, j)
  }

  /** While the edges of `node` are examined: the first i are done. */
  ghost predicate Scanning(adj: Adjacency, source: nat, level: seq<int>, visited: set<nat>, queue: seq<nat>,
                           node: nat, i: nat)
  {
    && Searching(adj, source, level, visited) && node in visited
    && Frontier(level, queue, level[node])
    && forall u: nat, j: nat :: IsSlot(adj, u, j) && u !in queue && (u == node ==> j < i) ==> Settled(adj, level, u, j)
  }

  lemma ScanStart(adj: Adjacency, source: nat, level: seq<int>)
    requires source < |adj| == |level| && level[source] == 0
    requires forall u :: 0 <= u < |level| && u != source ==> level[u] == -1
    ensures Scanned(adj, source, level, {source}, [source])
  {
  }

  lemma ScanPop(adj: Adjacency, source: nat, level: seq<int>, visited: set<nat>, queue: seq<nat>)
    requires Scanned(adj, source, level, visited, queue) && queue != []
    ensures Scanning(adj, source, level, visited, queue[1..], queue[0], 0)
    ensures queue[0] < |adj| == |level| && |visited| <= |adj|
  {
    SubsetOfRange(visited, |adj|);
    forall u: nat, j: nat | IsSlot(adj, u, j) && u !in queue[1..] && (u == queue[0] ==> j < 0)
      ensures Settled(adj, level, u, j)
    {
      assert queue == [queue[0]] + queue[1..];
    }
  }

  lemma SettledSurvives(adj: Adjacency, level: seq<int>, u: nat, j: nat, to: nat, d: int)
    requires |level| == |adj| && IsSlot(adj, u, j) && Settled(adj, level, u, j)
    requires u != to && to < |level| && level[to] < 0
    ensures Settled(adj, level[to := d], u, j)
  {
  }

  lemma FrontierGrows(level: seq<int>, queue: seq<nat>, top: int, to: nat)
    requires Frontier(level, queue, top) && to < |level| && level[to] < 0
    ensures Frontier(level[to := top + 1], queue + [to], top)
  {
  }

  lemma ScanVisit(adj: Adjacency, source: nat, level: seq<int>, visited: set<nat>, queue: seq<nat>,
                  node: nat, i: nat, to: nat)
    requires Scanning(adj, source, level, visited, queue, node, i) && IsSlot(adj, node, i)
    requires adj[node][i].to == to < |adj| && adj[node][i].capacity > 0 && level[to] < 0
    ensures Scanning(adj, source, level[to := level[node] + 1], visited + {to}, queue + [to], node, i + 1)
    ensures |visited + {to}| == |visited| + 1
  {
    hide Searching, Frontier, HasPredecessor;
    Visit(adj, source, level, visited, node, i, to);
    FrontierGrows(level, queue, level[node], to);
    forall u: nat, j: nat | IsSlot(adj, u, j) && u !in queue + [to] && (u == node ==> j < i + 1)
      ensures Settled(adj, level[to := level[node] + 1], u, j)
    {
      assert (queue + [to])[|queue|] == to;
      if u != node || j != i {
        SettledSurvives(adj, level, u, j, to, level[node] + 1);
      }
    }
  }

  lemma ScanSkip(adj: Adjacency, source: nat, level: seq<int>, visited: set<nat>, queue: seq<nat>, node: nat, i: nat)
    requires Scanning(adj, source, level, visited, queue, node, i) && IsSlot(adj, node, i)
    requires adj[node][i].to < |adj| == |level| && !(adj[node][i].capacity > 0 && level[adj[node][i].to] < 0)
    ensures Scanning(adj, source, level, visited, queue, node, i + 1)
  {
  }

  lemma ScanDone(adj: Adjacency, source: nat, level: seq<int>, visited: set<nat>, queue: seq<nat>, node: nat)
    requires node < |adj| && Scanning(adj, source, level, visited, queue, node, |adj[node]|)
    ensures Scanned(adj, source, level, visited, queue) && |visited| <= |adj|
  {
    SubsetOfRange(visited, |adj|);
  }

  lemma ScanFinished(adj: Adjacency, source: nat, level: seq<int>, visited: set<nat>)
    requires Scanned(adj, source, level, visited, [])
    ensures BreadthFirst(adj, source, level)
  {
    SubsetOfRange(visited, |adj|);
    assert forall u: nat, i: nat :: IsSlot(adj, u, i) ==> Settled(adj, level, u, i);
  }

  lemma {:induction false} SubsetOfRange(S: set<nat>, n: nat)
    requires forall v :: v in S ==> v < n
    ensures |S| <= n
  {
    if n > 0 {
      SubsetOfRange(S - {n - 1}, n - 1);
    }
  }
}
