/** Directed graphs given by an edge list, with repetitions allowed: paths, cycles, topological orders. */
module Digraph {
  import opened Prelude

  /** `(u, v)` says that `v` depends on `u`. */
  type Edges<N> = seq<(N, N)>

  /** A non-empty walk along edges. */
  ghost predicate IsPath<N>(edges: Edges<N>, p: seq<N>) {
    p != [] && forall i :: 0 <= i < |p| - 1 ==> (p[i], p[i + 1]) in edges
  }

  /** `v` can be reached from `u` in zero or more steps. */
  ghost predicate Reaches<N(!new)>(edges: Edges<N>, u: N, v: N) {
    exists p :: IsPath(edges, p) && p[0] == u && p[|p| - 1] == v
  }

  /** `u` lies on a directed cycle. */
  ghost predicate OnCycle<N(!new)>(edges: Edges<N>, u: N) {
    exists p :: IsPath(edges, p) && |p| > 1 && p[0] == u && p[|p| - 1] == u
  }

  ghost predicate Acyclic<N(!new)>(edges: Edges<N>) {
    forall u :: !OnCycle(edges, u)
  }

  /** `v` lies on a cycle or is reachable from one. */
  ghost predicate BehindCycle<N(!new)>(edges: Edges<N>, v: N) {
    exists u :: OnCycle(edges, u) && Reaches(edges, u, v)
  }

  /** Every predecessor of a listed node is listed strictly earlier. */
  ghost predicate IsTopological<N>(edges: Edges<N>, order: seq<N>) {
    forall e, j :: e in edges && 0 <= j < |order| && e.1 == order[j] ==> e.0 in order[..j]
  }

  /** A path that ends in a topological order starts in it, strictly earlier when it moves at all. */
  lemma {:induction false} PathStartsEarlier<N>(edges: Edges<N>, order: seq<N>, p: seq<N>, j: nat)
    requires IsTopological(edges, order) && IsPath(edges, p)
    requires j < |order| && order[j] == p[|p| - 1]
    ensures |p| > 1 ==> p[0] in order[..j]
    decreases |p|
  {
    if |p| > 1 {
      var n := |p| - 2;
      assert (p[n], p[n + 1]) in edges;
      var i :| 0 <= i < j && order[i] == p[n];
      PathStartsEarlier(edges, order, p[..n + 1], i);
    }
  }

  /** No node of a topological order is behind a cycle. */
  lemma TopologicalIsBehindNoCycle<N(!new)>(edges: Edges<N>, order: seq<N>, v: N)
    requires IsTopological(edges, order) && Distinct(order) && v in order
    ensures !BehindCycle(edges, v)
  {
    if BehindCycle(edges, v) {
      var u :| OnCycle(edges, u) && Reaches(edges, u, v);
      var p :| IsPath(edges, p) && p[0] == u && p[|p| - 1] == v;
      var c :| IsPath(edges, c) && |c| > 1 && c[0] == u && c[|c| - 1] == u;
      var j :| 0 <= j < |order| && order[j] == v;
      PathStartsEarlier(edges, order, p, j);
      var i :| 0 <= i < |order| && order[i] == u;
      PathStartsEarlier(edges, order, c, i);
      assert false;
    }
  }

  ghost predicate HasPredecessorIn<N>(edges: Edges<N>, stuck: set<N>, v: N) {
    exists u <- stuck :: (u, v) in edges
  }

  /** An edge back to a node of the path closes a cycle in front of the path's end. */
  lemma EdgeBackClosesCycle<N(!new)>(edges: Edges<N>, p: seq<N>, j: nat)
    requires IsPath(edges, p) && j < |p| && (p[j], p[0]) in edges
    ensures BehindCycle(edges, p[|p| - 1])
  {
    var cycle := [p[j]] + p[..j + 1];
    assert IsPath(edges, cycle) && |cycle| > 1 && cycle[0] == p[j] && cycle[|cycle| - 1] == p[j];
    assert OnCycle(edges, p[j]);
    var rest := p[j..];
    assert IsPath(edges, rest) && rest[0] == p[j] && rest[|rest| - 1] == p[|p| - 1];
    assert Reaches(edges, p[j], p[|p| - 1]);
  }

  lemma PrependStep<N>(edges: Edges<N>, u: N, p: seq<N>)
    requires IsPath(edges, p) && (u, p[0]) in edges
    ensures IsPath(edges, [u] + p)
  {
  }

  /** Where every node has a predecessor inside a finite set, walking back must close a cycle. */
  lemma {:induction false} WalkBackFindsCycle<N(!new)>(edges: Edges<N>, stuck: set<N>, p: seq<N>, unseen: set<N>)
    requires p != [] && IsPath(edges, p)
    requires forall v <- stuck :: v in p || v in unseen
    requires p[0] in stuck && forall v <- stuck :: HasPredecessorIn(edges, stuck, v)
    ensures BehindCycle(edges, p[|p| - 1])
    decreases |unseen|
  {
    hide IsPath, BehindCycle;
    assert HasPredecessorIn(edges, stuck, p[0]);
    var u :| u in stuck && (u, p[0]) in edges;
    if u in p {
      var j :| 0 <= j < |p| && p[j] == u;
      EdgeBackClosesCycle(edges, p, j);
    } else {
      PrependStep(edges, u, p);
      WalkBackFindsCycle(edges, stuck, [u] + p, unseen - {u});
    }
  }

  lemma StuckIsBehindCycle<N(!new)>(edges: Edges<N>, stuck: set<N>, v: N)
    requires v in stuck
    requires forall w <- stuck :: HasPredecessorIn(edges, stuck, w)
    ensures BehindCycle(edges, v)
  {
    WalkBackFindsCycle(edges, stuck, [v], stuck);
  }

  /** A graph is acyclic exactly when nothing is behind a cycle. */
  lemma AcyclicMeansNothingBehind<N(!new)>(edges: Edges<N>)
    ensures Acyclic(edges) <==> forall v :: !BehindCycle(edges, v)
  {
    forall u | OnCycle(edges, u) ensures BehindCycle(edges, u) {
      assert IsPath(edges, [u]);
      assert Reaches(edges, u, u);
    }
  }

  /** Where every edge leads to a higher rank there is no cycle. */
  lemma RankedIsAcyclic<N(!new)>(edges: Edges<N>, rank: N -> int)
    requires forall e <- edges :: rank(e.0) < rank(e.1)
    ensures Acyclic(edges)
  {
    forall p: seq<N> | IsPath(edges, p) && |p| > 1 ensures rank(p[0]) < rank(p[|p| - 1]) {
      PathClimbs(edges, rank, p);
    }
  }

  lemma {:induction false} PathClimbs<N>(edges: Edges<N>, rank: N -> int, p: seq<N>)
    requires IsPath(edges, p) && |p| > 1
    requires forall e <- edges :: rank(e.0) < rank(e.1)
    ensures rank(p[0]) < rank(p[|p| - 1])
  {
    var n := |p| - 2;
    assert (p[n], p[n + 1]) in edges;
    if n > 0 {
      PathClimbs(edges, rank, p[..n + 1]);
    }
  }
}
