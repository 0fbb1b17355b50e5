// A topological sort of a directed graph whose nodes are the indices `0 .. n` and whose
// edges are index pairs, failing on a cycle: the role `petgraph::algo::toposort` plays in
// src/commands/version/dependency_graph.rs. petgraph's depth-first order is not
// reproduced; Kahn's algorithm, always taking the smallest ready node, stands in for it,
// and the graph code relies only on the properties proved here.
module Toposort {
  import opened Wrappers

  /** An edge `(from, to)`: `from` must come before `to`. */
  type Edge = (nat, nat)

  /**
    * `order` lists every node `0 .. n` exactly once, and puts the source of every edge
    * strictly before its target (so a self-loop admits no order).
    */
  predicate IsTopologicalOrder(n: nat, edges: seq<Edge>, order: seq<nat>)
  {
    && |order| == n
    && (forall i :: 0 <= i < n ==> order[i] < n)
    && (forall i, j :: 0 <= i < j < n ==> order[i] != order[j])
    && (forall v :: 0 <= v < n ==> v in order)
    && (forall k, i, j :: 0 <= k < |edges| && 0 <= i < n && 0 <= j < n && order[i] == edges[k].0 && order[j] == edges[k].1 ==> i < j)
  }

  /** The nodes of a graph with `n` nodes. */
  function Nodes(n: nat): (r: set<nat>)
    ensures forall v: nat :: v in r <==> v < n
  {
    if n == 0 then {} else Nodes(n - 1) + {n - 1}
  }

  /** No edge into `v` starts at a node still to be placed. */
  predicate Ready(edges: seq<Edge>, remaining: set<nat>, v: nat)
  {
    forall k :: 0 <= k < |edges| && edges[k].1 == v ==> edges[k].0 !in remaining
  }

  /** The smallest node from `from` on that is still to be placed and ready. */
  function FirstReady(n: nat, edges: seq<Edge>, remaining: set<nat>, from: nat): (r: Option<nat>)
    ensures r.Some? ==> from <= r.value < n && r.value in remaining && Ready(edges, remaining, r.value)
    ensures r.None? ==> forall v :: from <= v < n && v in remaining ==> !Ready(edges, remaining, v)
    decreases n - from
  {
    if from >= n then None
    else if from in remaining && Ready(edges, remaining, from) then Some(from)
    else FirstReady(n, edges, remaining, from + 1)
  }

  /** Kahn's algorithm: place a ready node until none is left, or none is ready. */
  function Kahn(n: nat, edges: seq<Edge>, remaining: set<nat>, placed: seq<nat>): Option<seq<nat>>
    decreases |remaining|
  {
    if remaining == {} then Some(placed)
    else
      match FirstReady(n, edges, remaining, 0)
      case None => None
      case Some(v) => Kahn(n, edges, remaining - {v}, placed + [v])
  }

  /** `toposort`: an order of all nodes with every edge going forward, or None on a cycle. */
  function Toposort(n: nat, edges: seq<Edge>): Option<seq<nat>>
  {
    Kahn(n, edges, Nodes(n), [])
  }

  /** What holds of the nodes placed so far. */
  ghost predicate KahnInvariant(n: nat, edges: seq<Edge>, remaining: set<nat>, placed: seq<nat>)
  {
    && (forall v: nat :: v in remaining <==> v < n && v !in placed)
    && (forall i :: 0 <= i < |placed| ==> placed[i] < n)
    && (forall i, j :: 0 <= i < j < |placed| ==> placed[i] != placed[j])
    && (forall k, j :: 0 <= k < |edges| && 0 <= j < |placed| && placed[j] == edges[k].1 ==> edges[k].0 !in remaining)
    && (forall k, i, j :: 0 <= k < |edges| && 0 <= i < |placed| && 0 <= j < |placed| && placed[i] == edges[k].0 && placed[j] == edges[k].1 ==> i < j)
  }

  /** Placing a ready node keeps the invariant. */
  lemma PlaceReady(n: nat, edges: seq<Edge>, remaining: set<nat>, placed: seq<nat>, v: nat)
    requires KahnInvariant(n, edges, remaining, placed)
    requires v in remaining && Ready(edges, remaining, v)
    ensures KahnInvariant(n, edges, remaining - {v}, placed + [v])
  {
    var next := placed + [v];
    forall k, i, j | 0 <= k < |edges| && 0 <= i < |next| && 0 <= j < |next| && next[i] == edges[k].0 && next[j] == edges[k].1
      ensures i < j
    {
      if j == |placed| {
        assert edges[k].0 !in remaining;
        assert i != j;
      } else if i == |placed| {
        assert false;
      } else {
        assert placed[i] == edges[k].0 && placed[j] == edges[k].1;
      }
    }
    forall k, j | 0 <= k < |edges| && 0 <= j < |next| && next[j] == edges[k].1
      ensures edges[k].0 !in remaining - {v}
    {
      if j < |placed| {
        assert placed[j] == edges[k].1;
      }
    }
  }

  /** When the order is found, it is a topological order. */
  lemma {:induction false} KahnSound(n: nat, edges: seq<Edge>, remaining: set<nat>, placed: seq<nat>)
    requires KahnInvariant(n, edges, remaining, placed)
    ensures Kahn(n, edges, remaining, placed).Some? ==> IsTopologicalOrder(n, edges, Kahn(n, edges, remaining, placed).value)
    decreases |remaining|
  {
    if remaining == {} {
      AllPlaced(n, placed);
    } else {
      var r := FirstReady(n, edges, remaining, 0);
      if r.Some? {
        PlaceReady(n, edges, remaining, placed, r.value);
        KahnSound(n, edges, remaining - {r.value}, placed + [r.value]);
      }
    }
  }

  /** Distinct nodes below `n` that include every node below `n` are exactly `n` many. */
  lemma AllPlaced(n: nat, placed: seq<nat>)
    requires forall v: nat :: v < n ==> v in placed
    requires forall i :: 0 <= i < |placed| ==> placed[i] < n
    requires forall i, j :: 0 <= i < j < |placed| ==> placed[i] != placed[j]
    ensures |placed| == n
  {
    var s := set i | 0 <= i < |placed| :: placed[i];
    DistinctCardinality(placed);
    forall v: nat | v < n
      ensures v in s
    {
      assert v in placed;
      var i :| 0 <= i < |placed| && placed[i] == v;
    }
    assert s == Nodes(n);
    NodesCardinality(n);
  }

  /** A sequence without repetitions has as many distinct elements as entries. */
  lemma {:induction false} DistinctCardinality(xs: seq<nat>)
    requires forall i, j :: 0 <= i < j < |xs| ==> xs[i] != xs[j]
    ensures |set i | 0 <= i < |xs| :: xs[i]| == |xs|
  {
    if xs != [] {
      var init := xs[..|xs| - 1];
      DistinctCardinality(init);
      var s := set i | 0 <= i < |xs| :: xs[i];
      var t := set i | 0 <= i < |init| :: init[i];
      assert s == t + {xs[|xs| - 1]};
      assert xs[|xs| - 1] !in t;
    }
  }

  lemma {:induction false} NodesCardinality(n: nat)
    ensures |Nodes(n)| == n
  {
    if n > 0 {
      NodesCardinality(n - 1);
      assert Nodes(n) == Nodes(n - 1) + {n - 1};
    }
  }

  /** Some edge into `v` starts in `stuck`. */
  ghost predicate Blocked(edges: seq<Edge>, stuck: set<nat>, v: nat)
  {
    exists k :: 0 <= k < |edges| && edges[k].1 == v && edges[k].0 in stuck
  }

  /**
    * A non-empty set of nodes in which every node has an edge coming from the set: the
    * nodes on and behind a cycle.
    */
  ghost predicate Stuck(n: nat, edges: seq<Edge>, stuck: set<nat>)
  {
    && stuck != {}
    && (forall v :: v in stuck ==> v < n)
    && (forall v {:trigger Blocked(edges, stuck, v)} :: v in stuck ==> Blocked(edges, stuck, v))
  }

  /** When no order is found, Kahn's algorithm stopped at a stuck set. */
  lemma {:induction false} KahnFailsOnStuck(n: nat, edges: seq<Edge>, remaining: set<nat>, placed: seq<nat>)
    requires forall v :: v in remaining ==> v < n
    ensures Kahn(n, edges, remaining, placed).None? ==> exists stuck :: Stuck(n, edges, stuck)
    decreases |remaining|
  {
    if remaining != {} {
      var r := FirstReady(n, edges, remaining, 0);
      if r.None? {
        forall v | v in remaining
          ensures Blocked(edges, remaining, v)
        {
          assert !Ready(edges, remaining, v);
        }
        assert Stuck(n, edges, remaining);
      } else {
        KahnFailsOnStuck(n, edges, remaining - {r.value}, placed + [r.value]);
      }
    }
  }

  /** Every node has a position in a topological order. */
  lemma InOrder(n: nat, edges: seq<Edge>, order: seq<nat>, v: nat)
    requires IsTopologicalOrder(n, edges, order) && v < n
    ensures exists i :: 0 <= i < n && order[i] == v
  {
    assert v in order;
  }

  /** In a topological order, the source of an edge sits strictly before its target. */
  lemma SourceBefore(n: nat, edges: seq<Edge>, order: seq<nat>, k: nat, j: nat)
    requires IsTopologicalOrder(n, edges, order)
    requires k < |edges| && edges[k].0 < n && j < n && order[j] == edges[k].1
    ensures exists i :: 0 <= i < j && order[i] == edges[k].0
  {
    InOrder(n, edges, order, edges[k].0);
  }

  /** A topological order exists only for graphs whose edges among the nodes join distinct nodes. */
  lemma NoSelfLoopInOrder(n: nat, edges: seq<Edge>, order: seq<nat>)
    requires IsTopologicalOrder(n, edges, order)
    ensures forall k :: 0 <= k < |edges| && edges[k].0 < n ==> edges[k].0 != edges[k].1
  {
    forall k | 0 <= k < |edges| && edges[k].0 < n
      ensures edges[k].0 != edges[k].1
    {
      InOrder(n, edges, order, edges[k].0);
    }
  }

  /** In a topological order, the first `i` entries lie outside a stuck set, for every `i`. */
  lemma {:induction false} StuckNotBefore(n: nat, edges: seq<Edge>, stuck: set<nat>, order: seq<nat>, i: nat)
    requires Stuck(n, edges, stuck) && IsTopologicalOrder(n, edges, order)
    requires i <= n
    ensures forall i' :: 0 <= i' < i ==> order[i'] !in stuck
  {
    if i > 0 {
      StuckNotBefore(n, edges, stuck, order, i - 1);
      if order[i - 1] in stuck {
        assert Blocked(edges, stuck, order[i - 1]);
        var k :| 0 <= k < |edges| && edges[k].1 == order[i - 1] && edges[k].0 in stuck;
        SourceBefore(n, edges, order, k, i - 1);
        assert false;
      }
    }
  }

  /** A stuck set admits no topological order: its first node in the order has a predecessor in it. */
  lemma StuckHasNoOrder(n: nat, edges: seq<Edge>, stuck: set<nat>, order: seq<nat>)
    requires Stuck(n, edges, stuck)
    ensures !IsTopologicalOrder(n, edges, order)
  {
    if IsTopologicalOrder(n, edges, order) {
      StuckNotBefore(n, edges, stuck, order, n);
      var v :| v in stuck;
      InOrder(n, edges, order, v);
      assert false;
    }
  }

  /** `toposort` succeeds exactly when a topological order exists, and then returns one. */
  lemma ToposortCorrect(n: nat, edges: seq<Edge>)
    ensures Toposort(n, edges).Some? ==> IsTopologicalOrder(n, edges, Toposort(n, edges).value)
    ensures Toposort(n, edges).None? ==> forall order :: !IsTopologicalOrder(n, edges, order)
  {
    KahnSound(n, edges, Nodes(n), []);
    KahnFailsOnStuck(n, edges, Nodes(n), []);
    if Toposort(n, edges).None? {
      var stuck :| Stuck(n, edges, stuck);
      forall order
        ensures !IsTopologicalOrder(n, edges, order)
      {
        StuckHasNoOrder(n, edges, stuck, order);
      }
    }
  }

  /** An edge from a node to itself admits no order, so `toposort` fails on it. */
  lemma SelfLoopFails(n: nat, edges: seq<Edge>, v: nat)
    requires v < n && (v, v) in edges
    ensures Toposort(n, edges).None?
  {
    ToposortCorrect(n, edges);
    if Toposort(n, edges).Some? {
      NoSelfLoopInOrder(n, edges, Toposort(n, edges).value);
      assert false;
    }
  }
}
