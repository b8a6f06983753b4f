/**
 Kahn's algorithm over a mutable in-degree map and a queue, as `_detect_cycles` and
 `validate_dependencies` both run it.  Python iterates its sets in no particular order; the model
 picks elements arbitrarily.
 */
module Kahn {
  import opened Prelude
  import opened Digraph

  /** The targets of the edges that leave `u`, in edge order. */
  ghost function Targets<N(!new)>(edges: Edges<N>, u: N): (t: seq<N>)
    ensures forall v :: v in t <==> (u, v) in edges
  {
    if edges == [] then []
    else
      var last := edges[|edges| - 1];
      Targets(edges[..|edges| - 1], u) + if last.0 == u then [last.1] else []
  }

  /** How many edges enter `v` from nodes that have not been taken. */
  ghost function Pending<N>(edges: Edges<N>, v: N, taken: seq<N>): nat {
    if edges == [] then 0
    else
      var last := edges[|edges| - 1];
      Pending(edges[..|edges| - 1], v, taken) + if last.1 == v && last.0 !in taken then 1 else 0
  }

  /** How often `v` occurs in `s`. */
  ghost function Occurrences<N>(s: seq<N>, v: N): nat {
    if s == [] then 0 else Occurrences(s[..|s| - 1], v) + if s[|s| - 1] == v then 1 else 0
  }

  /** Taking `u` removes from every node's pending count the number of edges that `u` sends to it. */
  lemma {:induction false} TakingDecrements<N(!new)>(edges: Edges<N>, v: N, taken: seq<N>, u: N)
    requires u !in taken
    ensures Pending(edges, v, taken) == Pending(edges, v, taken + [u]) + Occurrences(Targets(edges, u), v)
  {
    if edges != [] {
      var rest, last := edges[..|edges| - 1], edges[|edges| - 1];
      TakingDecrements(rest, v, taken, u);
      if last.0 == u {
        var t := Targets(edges, u);
        assert t[..|t| - 1] == Targets(rest, u);
      } else {
        assert Targets(edges, u) == Targets(rest, u);
      }
    }
  }

  lemma {:induction false} PendingMeaning<N(!new)>(edges: Edges<N>, v: N, taken: seq<N>)
    ensures Pending(edges, v, taken) > 0 <==> exists u :: (u, v) in edges && u !in taken
  {
    if edges != [] {
      var rest, last := edges[..|edges| - 1], edges[|edges| - 1];
      PendingMeaning(rest, v, taken);
      assert edges == rest + [last];
      if last.1 == v && last.0 !in taken {
        assert (last.0, v) in edges;
      }
    }
  }

  lemma {:induction false} OccurrencesSplit<N(!new)>(s: seq<N>, t: seq<N>, v: N)
    ensures Occurrences(s + t, v) == Occurrences(s, v) + Occurrences(t, v)
  {
    if t == [] {
      assert s + t == s;
    } else {
      assert (s + t)[..|s + t| - 1] == s + t[..|t| - 1];
      OccurrencesSplit(s, t[..|t| - 1], v);
    }
  }

  lemma {:induction false} OccurrencesPositive<N(!new)>(s: seq<N>, v: N)
    ensures Occurrences(s, v) > 0 <==> v in s
  {
    if s != [] {
      OccurrencesPositive(s[..|s| - 1], v);
    }
  }

  ghost predicate Closed<N(!new)>(nodes: set<N>, edges: Edges<N>) {
    forall e <- edges :: e.0 in nodes && e.1 in nodes
  }

  /**
   The state between two rounds: `order` holds the nodes already popped, `queue` those waiting, and
   a node is in one of them exactly when nothing is pending for it.
   */
  ghost predicate Drained<N(!new)>(nodes: set<N>, edges: Edges<N>, inDegree: map<N, int>, order: seq<N>,
      queue: seq<N>)
  {
    && inDegree.Keys == nodes
    && Distinct(order) && Distinct(queue)
    && (forall v <- order :: v in nodes && v !in queue)
    && (forall v <- queue :: v in nodes)
    && (forall v <- nodes :: inDegree[v] == Pending(edges, v, order))
    && (forall v <- nodes :: v in order || v in queue <==> inDegree[v] == 0)
    && IsTopological(edges, order)
  }

  /** The state while the targets of a popped `node` are being decremented; `done` of them are. */
  ghost predicate Draining<N(!new)>(nodes: set<N>, edges: Edges<N>, inDegree: map<N, int>, order: seq<N>, queue: seq<N>,
      node: N, done: seq<N>)
  {
    && inDegree.Keys == nodes
    && Distinct(order) && Distinct(queue)
    && node in nodes && node !in order && node !in queue
    && (forall v <- order :: v in nodes && v !in queue)
    && (forall v <- queue :: v in nodes)
    && (forall v <- nodes :: inDegree[v] == Pending(edges, v, order) - Occurrences(done, v))
    && (forall v <- nodes :: v in order || v == node || v in queue <==> inDegree[v] == 0)
    && IsTopological(edges, order + [node])
  }

  lemma PopStartsDraining<N(!new)>(nodes: set<N>, edges: Edges<N>, inDegree: map<N, int>, order: seq<N>, queue: seq<N>)
    requires Closed(nodes, edges) && queue != [] && Drained(nodes, edges, inDegree, order, queue)
    ensures Draining(nodes, edges, inDegree, order, queue[1..], queue[0], [])
    ensures queue[0] in nodes && queue[0] !in order
  {
    var node := queue[0];
    assert queue == [node] + queue[1..];
    PendingMeaning(edges, node, order);
    PopKeepsTopological(edges, order, node);
  }

  lemma PopKeepsTopological<N(!new)>(edges: Edges<N>, order: seq<N>, node: N)
    requires IsTopological(edges, order) && forall u :: (u, node) in edges ==> u in order
    ensures IsTopological(edges, order + [node])
  {
    var next := order + [node];
    forall e, j | e in edges && 0 <= j < |next| && e.1 == next[j] ensures e.0 in next[..j] {
      assert next[..j] == order[..j];
      if j == |order| {
        assert e == (e.0, node) && order[..j] == order;
      }
    }
  }

  lemma DecrementKeepsDraining<N(!new)>(nodes: set<N>, edges: Edges<N>, inDegree: map<N, int>, order: seq<N>,
      queue: seq<N>,
                                        node: N, done: seq<N>, v: N)
    requires Draining(nodes, edges, inDegree, order, queue, node, done)
    requires v in nodes && inDegree[v] > 0
    ensures var left := inDegree[v] - 1;
            Draining(nodes, edges, inDegree[v := left], order,
                     if left == 0 then queue + [v] else queue, node, done + [v])
  {
    assert (done + [v])[..|done|] == done;
  }

  /** A target that still has to be decremented has a positive in-degree. */
  lemma TargetIsPending<N(!new)>(edges: Edges<N>, order: seq<N>, node: N, j: nat, v: N)
    requires node !in order && j < |Targets(edges, node)| && v == Targets(edges, node)[j]
    ensures Pending(edges, v, order) - Occurrences(Targets(edges, node)[..j], v) > 0
  {
    var t := Targets(edges, node);
    TakingDecrements(edges, v, order, node);
    OccurrencesSplit(t[..j], t[j..], v);
    assert t == t[..j] + t[j..];
    OccurrencesPositive(t[j..], v);
    assert t[j..][0] == v;
  }

  lemma DrainingEnds<N(!new)>(nodes: set<N>, edges: Edges<N>, inDegree: map<N, int>, order: seq<N>, queue: seq<N>,
      node: N)
    requires Draining(nodes, edges, inDegree, order, queue, node, Targets(edges, node))
    ensures Drained(nodes, edges, inDegree, order + [node], queue)
  {
    forall v | v in nodes ensures inDegree[v] == Pending(edges, v, order + [node]) {
      TakingDecrements(edges, v, order, node);
    }
  }

  /** `adj` and `inDegree` are what the edges say: `adj` may leave out nodes without successors. */
  ghost predicate Built<N(!new)>(nodes: set<N>, edges: Edges<N>, adj: map<N, seq<N>>, inDegree: map<N, int>) {
    && Closed(nodes, edges)
    && inDegree.Keys == nodes
    && (forall v <- nodes :: inDegree[v] == Pending(edges, v, []))
    && (forall u <- nodes :: Successors(adj, u) == Targets(edges, u))
  }

  /** `adj[u]` of a `defaultdict(list)`. */
  function Successors<N(==)>(adj: map<N, seq<N>>, u: N): seq<N> {
    if u in adj then adj[u] else []
  }

  lemma NothingBuilt<N(!new)>(nodes: set<N>, inDegree: map<N, int>)
    requires inDegree.Keys == nodes && forall v <- nodes :: inDegree[v] == 0
    ensures Built(nodes, [], map[], inDegree)
  {
  }

  /** `adj[u].append(v)` and `in_degree[v] += 1` record one more edge. */
  method AddEdge<N(!new, ==)>(ghost nodes: set<N>, ghost edges: Edges<N>, adj0: map<N, seq<N>>, inDegree0: map<N, int>,
      u: N, v: N)
    returns (adj: map<N, seq<N>>, inDegree: map<N, int>)
    requires Built(nodes, edges, adj0, inDegree0) && u in nodes && v in nodes
    ensures Built(nodes, edges + [(u, v)], adj, inDegree)
  {
    ghost var more := edges + [(u, v)];
    assert more[..|edges|] == edges && more[|edges|] == (u, v);
    adj := adj0[u := Successors(adj0, u) + [v]];
    inDegree := inDegree0[v := inDegree0[v] + 1];
  }

  /**
   Draining counts the `taken` nodes; those left with a positive in-degree are exactly the ones on a
   cycle or reachable from one.
   */
  method Drain<N(!new, ==)>(nodes: set<N>, ghost edges: Edges<N>, adj: map<N, seq<N>>, inDegree0: map<N, int>)
    returns (inDegree: map<N, int>, taken: nat)
    requires Built(nodes, edges, adj, inDegree0)
    ensures inDegree.Keys == nodes
    ensures forall v <- nodes :: inDegree[v] > 0 <==> BehindCycle(edges, v)
    ensures taken < |nodes| <==> exists v <- nodes :: inDegree[v] > 0
  {
    var queue := ReadyNodes(nodes, inDegree0);
    ghost var order;
    inDegree, taken, order := DrainQueue(nodes, edges, adj, inDegree0, queue);
    Verdict(nodes, edges, inDegree, order);
  }

  /** The `while queue` loop. */
  method DrainQueue<N(!new, ==)>(ghost nodes: set<N>, ghost edges: Edges<N>, adj: map<N, seq<N>>, inDegree0: map<N,
      int>, queue0: seq<N>)
    returns (inDegree: map<N, int>, taken: nat, ghost order: seq<N>)
    requires Closed(nodes, edges) && forall u <- nodes :: Successors(adj, u) == Targets(edges, u)
    requires Drained(nodes, edges, inDegree0, [], queue0)
    ensures Drained(nodes, edges, inDegree, order, []) && taken == |order|
  {
    hide Drained, Draining, Closed, Targets, Successors;
    var queue := queue0;
    inDegree, taken, order := inDegree0, 0, [];
    ghost var left := nodes;
    while queue != []
      invariant taken == |order|
      invariant Drained(nodes, edges, inDegree, order, queue)
      invariant forall v :: v in left <==> v in nodes && v !in order
      decreases left
    {
      var node := queue[0];
      PopStartsDraining(nodes, edges, inDegree, order, queue);
      queue := queue[1..];
      taken := taken + 1;
      inDegree, queue := Release(nodes, edges, Successors(adj, node), inDegree, order, queue, node);
      order := order + [node];
      left := left - {node};
    }
  }

  /** The initial queue: the nodes that nothing enters, in any order. */
  method ReadyNodes<N(!new, ==)>(nodes: set<N>, inDegree: map<N, int>) returns (queue: seq<N>)
    requires inDegree.Keys == nodes
    ensures Distinct(queue)
    ensures forall v :: v in queue <==> v in nodes && inDegree[v] == 0
  {
    queue := [];
    var left := nodes;
    while left != {}
      invariant left <= nodes && Distinct(queue)
      invariant forall v :: v in queue <==> v in nodes - left && inDegree[v] == 0
      decreases |left|
    {
      var v :| v in left;
      if inDegree[v] == 0 {
        queue := queue + [v];
      }
      left := left - {v};
    }
  }

  /** `for neighbor in adj[node]`: decrement each, and queue those that reach zero. */
  method Release<N(!new, ==)>(ghost nodes: set<N>, ghost edges: Edges<N>, adj: seq<N>, inDegree0: map<N, int>,
      ghost order: seq<N>, queue0: seq<N>, ghost node: N)
    returns (inDegree: map<N, int>, queue: seq<N>)
    requires adj == Targets(edges, node)
    requires Closed(nodes, edges) && Draining(nodes, edges, inDegree0, order, queue0, node, [])
    ensures Drained(nodes, edges, inDegree, order + [node], queue)
    ensures Draining(nodes, edges, inDegree, order, queue, node, Targets(edges, node))
  {
    inDegree, queue := inDegree0, queue0;
    for j := 0 to |adj|
      invariant Draining(nodes, edges, inDegree, order, queue, node, adj[..j])
    {
      var v := adj[j];
      assert (node, v) in edges;
      TargetIsPending(edges, order, node, j, v);
      DecrementKeepsDraining(nodes, edges, inDegree, order, queue, node, adj[..j], v);
      assert adj[..j + 1] == adj[..j] + [v];
      inDegree := inDegree[v := inDegree[v] - 1];
      if inDegree[v] == 0 {
        queue := queue + [v];
      }
    }
    assert adj[..|adj|] == adj;
    DrainingEnds(nodes, edges, inDegree, order, queue, node);
  }

  lemma Verdict<N(!new)>(nodes: set<N>, edges: Edges<N>, inDegree: map<N, int>, order: seq<N>)
    requires Closed(nodes, edges) && Drained(nodes, edges, inDegree, order, [])
    ensures inDegree.Keys == nodes
    ensures forall v <- nodes :: inDegree[v] > 0 <==> BehindCycle(edges, v)
    ensures |order| < |nodes| <==> exists v <- nodes :: inDegree[v] > 0
  {
    var stuck := set v | v in nodes && v !in order;
    forall v | v in stuck ensures HasPredecessorIn(edges, stuck, v) {
      PendingMeaning(edges, v, order);
      var u :| (u, v) in edges && u !in order;
      assert u in stuck;
    }
    forall v | v in nodes ensures inDegree[v] > 0 <==> BehindCycle(edges, v) {
      if v in stuck {
        StuckIsBehindCycle(edges, stuck, v);
      } else {
        TopologicalIsBehindNoCycle(edges, order, v);
      }
    }
    CountPopped(nodes, order, stuck);
    assert forall v <- nodes :: v in stuck <==> inDegree[v] > 0;
  }

  /** A cycle puts some node of the graph behind a cycle. */
  lemma CycleShowsInNodes<N(!new)>(nodes: set<N>, edges: Edges<N>)
    requires Closed(nodes, edges)
    ensures Acyclic(edges) <==> forall v <- nodes :: !BehindCycle(edges, v)
  {
    AcyclicMeansNothingBehind(edges);
    forall u | OnCycle(edges, u) ensures u in nodes && BehindCycle(edges, u) {
      var p :| IsPath(edges, p) && |p| > 1 && p[0] == u && p[|p| - 1] == u;
      assert (p[0], p[1]) in edges;
      assert IsPath(edges, [u]) && Reaches(edges, u, u);
    }
  }

  lemma CountPopped<N(!new)>(nodes: set<N>, order: seq<N>, stuck: set<N>)
    requires Distinct(order) && (forall v <- order :: v in nodes) && stuck == set v | v in nodes && v !in order
    ensures |order| < |nodes| <==> exists v :: v in stuck
  {
    var popped := set v | v in order;
    DistinctCardinality(order);
    assert nodes == popped + stuck;
  }

  lemma {:induction false} DistinctCardinality<N(!new)>(s: seq<N>)
    requires Distinct(s)
    ensures |set v | v in s| == |s|
  {
    if s != [] {
      var rest, last := s[..|s| - 1], s[|s| - 1];
      DistinctCardinality(rest);
      assert (set v | v in s) == (set v | v in rest) + {last};
    }
  }
}
