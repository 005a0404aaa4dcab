/** Directed graphs given by an edge list: walks, cycles and topological orders. */
module Graphs {
  import opened Sequences

  datatype Edge = Edge(source: string, target: string)

  predicate IsStep(edges: seq<Edge>, w: seq<string>, i: nat)
    requires 0 < i < |w|
  {
    Edge(w[i - 1], w[i]) in edges
  }

  predicate IsWalk(edges: seq<Edge>, w: seq<string>) {
    |w| > 0 && forall i :: 0 < i < |w| ==> IsStep(edges, w, i)
  }

  predicate IsCycle(edges: seq<Edge>, w: seq<string>) {
    |w| > 1 && IsWalk(edges, w) && w[0] == w[|w| - 1]
  }

  ghost predicate Acyclic(edges: seq<Edge>) {
    forall w :: !IsCycle(edges, w)
  }

  predicate EdgesWithin(edges: seq<Edge>, nodes: set<string>) {
    forall e :: e in edges ==> e.source in nodes && e.target in nodes
  }

  /** Every node exactly once, and every edge's source before its target. */
  ghost predicate IsTopologicalOrder(order: seq<string>, nodes: set<string>, edges: seq<Edge>) {
    && Distinct(order)
    && Elems(order) == nodes
    && SourcesFirst(order, edges)
  }

  ghost predicate FollowsItsSources(order: seq<string>, edges: seq<Edge>, j: nat)
    requires j < |order|
  {
    forall p :: Edge(p, order[j]) in edges ==> p in order[..j]
  }

  ghost predicate SourcesFirst(order: seq<string>, edges: seq<Edge>) {
    forall j {:trigger FollowsItsSources(order, edges, j)} :: 0 <= j < |order| ==> FollowsItsSources(order, edges, j)
  }

  ghost predicate IsRoot(edges: seq<Edge>, u: string) {
    forall p :: Edge(p, u) !in edges
  }

  ghost predicate IsLeaf(edges: seq<Edge>, u: string) {
    forall t :: Edge(u, t) !in edges
  }

  ghost predicate HasPredecessorIn(edges: seq<Edge>, nodes: set<string>, u: string) {
    exists p :: p in nodes && Edge(p, u) in edges
  }

  /** Every node of the set has a predecessor in the set. */
  ghost predicate NobodyFirst(edges: seq<Edge>, nodes: set<string>) {
    forall u {:trigger HasPredecessorIn(edges, nodes, u)} :: u in nodes ==> HasPredecessorIn(edges, nodes, u)
  }

  lemma SubWalk(edges: seq<Edge>, w: seq<string>, i: nat, j: nat)
    requires IsWalk(edges, w) && i <= j < |w|
    ensures IsWalk(edges, w[i..j + 1])
  {
    var sub := w[i..j + 1];
    forall k | 0 < k < |sub| ensures IsStep(edges, sub, k) {
      assert IsStep(edges, w, i + k);
    }
  }

  lemma JoinWalks(edges: seq<Edge>, v: seq<string>, w: seq<string>)
    requires IsWalk(edges, v) && IsWalk(edges, w) && Edge(v[|v| - 1], w[0]) in edges
    ensures IsWalk(edges, v + w)
  {
    var vw := v + w;
    forall k | 0 < k < |vw| ensures IsStep(edges, vw, k) {
      if k < |v| {
        assert IsStep(edges, v, k);
      } else if k > |v| {
        assert IsStep(edges, w, k - |v|);
      }
    }
  }

  /** A walk that ends at position j of a topological order starts no later, and earlier if it has a step. */
  lemma {:induction false} WalkGoesForward(order: seq<string>, edges: seq<Edge>, w: seq<string>, j: nat)
    requires SourcesFirst(order, edges)
    requires IsWalk(edges, w) && j < |order| && w[|w| - 1] == order[j]
    ensures w[0] in order[..j + 1]
    ensures |w| > 1 ==> w[0] in order[..j]
    decreases |w|
  {
    if |w| > 1 {
      var init := w[..|w| - 1];
      assert IsStep(edges, w, |w| - 1);
      SubWalk(edges, w, 0, |w| - 2);
      assert FollowsItsSources(order, edges, j);
      var k :| 0 <= k < j && order[k] == w[|w| - 2];
      WalkGoesForward(order, edges, init, k);
      assert order[..k + 1] <= order[..j];
    }
  }

  lemma OrderedImpliesAcyclic(order: seq<string>, nodes: set<string>, edges: seq<Edge>)
    requires IsTopologicalOrder(order, nodes, edges) && EdgesWithin(edges, nodes)
    ensures Acyclic(edges)
  {
    forall w ensures !IsCycle(edges, w) {
      if IsCycle(edges, w) {
        assert IsStep(edges, w, |w| - 1);
        assert w[|w| - 1] in Elems(order);
        var j :| 0 <= j < |order| && order[j] == w[|w| - 1];
        WalkGoesForward(order, edges, w, j);
        assert false;
      }
    }
  }

  /** In a set where every node has a predecessor one can walk backwards for any number of steps. */
  lemma {:induction false} WalkBackwards(edges: seq<Edge>, stuck: set<string>, u: string, n: nat)
    returns (w: seq<string>)
    requires u in stuck
    requires NobodyFirst(edges, stuck)
    ensures |w| == n + 1 && IsWalk(edges, w) && Inside(w, stuck) && w[n] == u
    decreases n
  {
    if n == 0 {
      w := [u];
    } else {
      assert HasPredecessorIn(edges, stuck, u);
      var p :| p in stuck && Edge(p, u) in edges;
      var back := WalkBackwards(edges, stuck, p, n - 1);
      JoinWalks(edges, back, [u]);
      w := back + [u];
    }
  }

  /** A non-empty set in which every node has a predecessor contains a cycle. */
  lemma StuckImpliesCycle(edges: seq<Edge>, stuck: set<string>) returns (cycle: seq<string>)
    requires stuck != {}
    requires NobodyFirst(edges, stuck)
    ensures IsCycle(edges, cycle) && Inside(cycle, stuck)
  {
    var u :| u in stuck;
    var w := WalkBackwards(edges, stuck, u, |stuck|);
    var i, j := Pigeonhole(w, stuck);
    cycle := w[i..j + 1];
    SubWalk(edges, w, i, j);
  }

  /** Following predecessors in a topological order ends at a root. */
  lemma {:induction false} ReachedFromRoot(order: seq<string>, edges: seq<Edge>, j: nat) returns (w: seq<string>)
    requires SourcesFirst(order, edges) && j < |order|
    ensures IsWalk(edges, w) && IsRoot(edges, w[0]) && w[|w| - 1] == order[j] && Inside(w, Elems(order))
  {
    if IsRoot(edges, order[j]) {
      w := [order[j]];
    } else {
      var p :| Edge(p, order[j]) in edges;
      assert FollowsItsSources(order, edges, j);
      var k :| 0 <= k < j && order[k] == p;
      w := ReachedFromRoot(order, edges, k);
      JoinWalks(edges, w, [order[j]]);
      w := w + [order[j]];
    }
  }

  /** Following successors in a topological order ends at a leaf. */
  lemma {:induction false} ReachesLeaf(order: seq<string>, nodes: set<string>, edges: seq<Edge>, j: nat)
    returns (w: seq<string>)
    requires IsTopologicalOrder(order, nodes, edges) && EdgesWithin(edges, nodes) && j < |order|
    ensures IsWalk(edges, w) && IsLeaf(edges, w[|w| - 1]) && w[0] == order[j] && Inside(w, nodes)
    decreases |order| - j
  {
    if IsLeaf(edges, order[j]) {
      w := [order[j]];
    } else {
      var t :| Edge(order[j], t) in edges;
      assert t in Elems(order);
      var k :| 0 <= k < |order| && order[k] == t;
      assert FollowsItsSources(order, edges, k);
      assert order[j] in order[..k];
      w := ReachesLeaf(order, nodes, edges, k);
      JoinWalks(edges, [order[j]], w);
      w := [order[j]] + w;
    }
  }
}
