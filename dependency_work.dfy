// `Work` (src/commands/version/dependency_graph.rs): the graph, `node_mapping` and the
// per-node fields as state the methods update in place, over Lua blocks. Every method is
// proved to compute the corresponding function of module DependencyGraph, whose lemmas
// carry the invariants of the work loop and of the final pass.
module DependencyWork {
  import opened Wrappers
  import opened SdkVersion
  import opened LuaAst
  import opened VersionUtils
  import VersionWalk
  import VersionResolution
  import DefaultVisitor
  import RequireDependencies
  import opened Toposort
  import opened DependencyGraph

  /** How one pass of the work loop ended. */
  datatype PassOutcome = AllDone | MoreWork | PassFailed

  class Work {
    var nodes: seq<DependencyGraphNode<Block>>
    var edges: seq<Edge>
    var nodeMapping: map<Path, nat>
    /** The files: absent when unreadable, None when they do not parse. */
    const resources: map<Path, Option<Block>>
    /** `RequirePathLocator` over `resources`. */
    const locate: RequireDependencies.Locator
    const topNodePaths: seq<Path>
    const versionFile: VersionWalk.VersionFile

    /** The graph and `node_mapping` as a value. */
    function Graph(): DependencyGraph.Graph<Block>
      reads this
    {
      DependencyGraph.Graph(nodes, edges, nodeMapping)
    }

    /**
      * What the work reads: the files, `collect_dependencies` and a `VersionResolver` walk,
      * as the constructor installs them.
      */
    const ctx: Context<Block>

    /** `ctx` reads this work's files. */
    predicate Wired()
    {
      ctx.resources == resources
    }

    /** `ctx` collects dependencies as `collect_dependencies` does, with `locate`. */
    ghost predicate Collects()
    {
      forall path, block :: ctx.collect(path, block) == RequireDependencies.FileDependencies(locate, path, block)
    }

    /** `ctx` resolves a block's version as a `VersionResolver` walk over `versionFile` does. */
    ghost predicate Resolves()
    {
      forall block :: ctx.resolve(block) == VersionWalk.ResolveBlock(versionFile, block)
    }

    /** Paths are made of components, so each top path is a well-formed one. */
    predicate TopPathsWellFormed()
    {
      forall k :: 0 <= k < |topNodePaths| ==> WellFormedPath(topNodePaths[k])
    }

    /** The top paths, normalised. */
    function Tops(): (r: seq<Path>)
      requires TopPathsWellFormed()
      ensures |r| == |topNodePaths|
      ensures forall k :: 0 <= k < |r| ==> r[k] == NormalizeSpec(topNodePaths[k], false)
    {
      seq(|topNodePaths|, k requires 0 <= k < |topNodePaths| && TopPathsWellFormed() => NormalizeSpec(topNodePaths[k], false))
    }

    /** `Work::new` with an empty graph. */
    constructor (resources: map<Path, Option<Block>>, locate: RequireDependencies.Locator,
                 topNodePaths: seq<Path>, versionFile: VersionWalk.VersionFile)
      ensures this.resources == resources && this.locate == locate
      ensures this.topNodePaths == topNodePaths && this.versionFile == versionFile
      ensures Graph() == DependencyGraph.Graph([], [], map[])
      ensures Wired() && Collects() && Resolves()
    {
      this.resources := resources;
      this.locate := locate;
      this.topNodePaths := topNodePaths;
      this.versionFile := versionFile;
      ctx := Context(
        resources,
        (path: Path, block: Block) => RequireDependencies.FileDependencies(locate, path, block),
        (block: Block) => VersionWalk.ResolveBlock(versionFile, block));
      nodes := [];
      edges := [];
      nodeMapping := map[];
    }

    /**
      * `add_dependencies_to_graph`: a node for each dependency without one, and the node
      * index of every dependency, in order.
      */
    method AddDependenciesToGraph(deps: seq<Path>) returns (indexes: seq<nat>)
      modifies this
      ensures Graph() == AddNodes(old(Graph()), false, deps)
      ensures |indexes| == |deps|
      ensures forall k :: 0 <= k < |deps| ==> deps[k] in nodeMapping && indexes[k] == nodeMapping[deps[k]]
    {
      indexes := [];
      var i := 0;
      while i < |deps|
        invariant 0 <= i <= |deps|
        invariant Graph() == AddNodes(old(Graph()), false, deps[..i])
        invariant |indexes| == i
        invariant forall k :: 0 <= k < i ==> deps[k] in nodeMapping && indexes[k] == nodeMapping[deps[k]]
      {
        var dep := deps[i];
        ghost var g := Graph();
        assert deps[..i + 1][..i] == deps[..i];
        assert AddNodes(old(Graph()), false, deps[..i + 1]) == AddNode(g, false, dep);
        if dep in nodeMapping {
          indexes := indexes + [nodeMapping[dep]];
        } else {
          var index := |nodes|;
          nodes := nodes + [NewNode(false, dep)];
          nodeMapping := nodeMapping[dep := index];
          indexes := indexes + [index];
        }
        i := i + 1;
      }
      assert deps[..i] == deps;
    }

    /**
      * `collect_dependencies`: a `RequireDependencyProcessor` run over the node's block;
      * its dependencies, or its errors when there are any.
      */
    method CollectDependencies(index: nat, block: Block) returns (r: Result<seq<Path>, seq<RequireDependencies.RequireError>>)
      requires index < |nodes|
      ensures r == RequireDependencies.FileDependencies(locate, nodes[index].path, block)
      ensures Collects() ==> r == ctx.collect(nodes[index].path, block)
    {
      var visitor := new RequireDependencies.RequireDependencyProcessor(nodes[index].path, locate);
      visitor.VisitBlock(block);
      ghost var literals := RequireDependencies.RequiredLiterals(DefaultVisitor.BlockEvents(block));
      assert visitor.Errors() == RequireDependencies.Failures(locate, nodes[index].path, literals);
      assert visitor.Deps() == RequireDependencies.Resolved(locate, nodes[index].path, literals);
      if visitor.Errors() != [] {
        return Err(visitor.Errors());
      }
      return Ok(visitor.Deps());
    }

    /** `advance_work`. */
    method AdvanceWork(index: nat) returns (r: Result<State, WorkError>)
      requires Wired()
      requires index < |nodes| && nodes[index].state == Processing ==> nodes[index].block.Some?
      modifies this
      ensures (r, Graph()) == Advance(ctx, old(Graph()), index)
    {
      if index >= |nodes| {
        return Err(NodeNotFound);
      }
      var state := nodes[index].state;
      match state {
        case NotProcessed =>
          var path := nodes[index].path;
          if path !in resources {
            return Err(FailedToRead(path));
          }
          if resources[path].None? {
            return Err(FailedToParse(path));
          }
          var block := resources[path].value;
          var deps := ctx.collect(path, block);
          if deps.Err? {
            return Err(FailedToCollectDependencies(path, deps.error));
          }
          ghost var g := Graph();
          var _ := AddDependenciesToGraph(deps.value);
          nodes := nodes[index := nodes[index].(state := Processing, dependsOn := deps.value, block := Some(block))];
          assert Graph() == LoadStep(ctx, g, index);
          return Ok(Processing);
        case Processing =>
          var version := ctx.resolve(nodes[index].block.value);
          nodes := nodes[index := nodes[index].(sdkVersion := version)];
          nodes := nodes[index := nodes[index].(state := Processed)];
          assert Graph() == ResolveStep(ctx, old(Graph()), index);
          return Ok(Processed);
        case Processed =>
          return Ok(state);
      }
    }

    /** The edges queued for a node that has reached Processing, appended to `addEdges`. */
    method QueueEdges(index: nat, addEdges: seq<Edge>) returns (r: seq<Edge>)
      requires index < |nodes|
      ensures r == addEdges + QueuedEdges(Graph(), index)
    {
      var deps := nodes[index].dependsOn;
      r := addEdges;
      var i := 0;
      while i < |deps|
        invariant 0 <= i <= |deps|
        invariant r == addEdges + EdgesInto(nodeMapping, deps[..i], index)
      {
        assert deps[..i + 1][..i] == deps[..i];
        if deps[i] in nodeMapping {
          r := r + [(nodeMapping[deps[i]], index)];
        }
        i := i + 1;
      }
      assert deps[..i] == deps;
    }

    /** `graph.add_edge` for each queued edge, in order. */
    method AddEdges(addEdges: seq<Edge>)
      modifies this
      ensures Graph() == old(Graph()).(edges := old(edges) + addEdges)
    {
      var i := 0;
      while i < |addEdges|
        invariant 0 <= i <= |addEdges|
        invariant Graph() == old(Graph()).(edges := old(edges) + addEdges[..i])
      {
        assert addEdges[..i + 1] == addEdges[..i] + [addEdges[i]];
        edges := edges + [addEdges[i]];
        i := i + 1;
      }
      assert addEdges[..i] == addEdges;
    }

    /** The top-node loop: one top node per normalised top path that has no node yet. */
    method AddTopNodes()
      requires TopPathsWellFormed()
      modifies this
      ensures Graph() == AddNodes(old(Graph()), true, Tops())
    {
      var tops := Tops();
      var i := 0;
      while i < |topNodePaths|
        invariant 0 <= i <= |topNodePaths|
        invariant Graph() == AddNodes(old(Graph()), true, tops[..i])
      {
        assert tops[..i + 1][..i] == tops[..i];
        var path := NormalizePath(topNodePaths[i]);
        if path !in nodeMapping {
          var index := |nodes|;
          nodes := nodes + [NewNode(true, path)];
          nodeMapping := nodeMapping[path := index];
        }
        i := i + 1;
      }
      assert tops[..i] == tops;
    }

    /**
      * The body of `'work_loop` for one node: a node not done is advanced; the edges into
      * a node that reaches Processing are queued, and a node that reaches Processed is
      * counted. A node already done is left as it is; any other lowers the work left.
      */
    method VisitNode(index: nat, addEdges: seq<Edge>, doneCount: nat, ghost tops: seq<Path>, ghost u: set<Path>)
      returns (failed: bool, addEdges': seq<Edge>, doneCount': nat)
      requires Wired() && Covers(ctx, tops, u)
      requires WorkInvariant(ctx, tops, u, Graph())
      requires PendingSound(Graph(), addEdges) && EdgesComplete(Graph(), addEdges)
      requires doneCount == CountState(nodes, Processed) && index < |nodes|
      modifies this
      ensures WorkInvariant(ctx, tops, u, Graph()) && |old(nodes)| <= |nodes|
      ensures failed ==> exists i :: 0 <= i < |nodes| && nodes[i].state == NotProcessed && !Loads(ctx, nodes[i].path)
      ensures !failed ==>
        && PendingSound(Graph(), addEdges') && EdgesComplete(Graph(), addEdges')
        && doneCount' == CountState(nodes, Processed)
      ensures !failed && old(IsDone(nodes[index])) ==> Graph() == old(Graph()) && addEdges' == addEdges
      ensures !failed && !old(IsDone(nodes[index])) ==> Measure(u, Graph()) < Measure(u, old(Graph()))
    {
      addEdges', doneCount' := addEdges, doneCount;
      failed := false;
      if IsDone(nodes[index]) {
        return;
      }
      ghost var g := Graph();
      assert Staged(ctx, g, g.nodes[index]);
      var r := AdvanceWork(index);
      AdvanceCases(ctx, g, index);
      match r {
        case Err(_) =>
          failed := true;
        case Ok(NotProcessed) =>
          assert false;
        case Ok(Processing) =>
          WorkInvariantDepsMapped(ctx, tops, u, g);
          LoadQueuesSoundEdges(ctx, g, index, addEdges);
          LoadQueuesAllEdges(ctx, g, index, addEdges);
          AdvanceProgress(ctx, tops, u, g, index);
          addEdges' := QueueEdges(index, addEdges);
        case Ok(Processed) =>
          ResolveKeepsEdges(ctx, g, index, addEdges);
          AdvanceProgress(ctx, tops, u, g, index);
          doneCount' := doneCount + 1;
      }
    }

    /**
      * What holds after the first `t` nodes of a pass over `order` that started from `g0`:
      * the work invariant, the queued edges, the count of Processed nodes, and the work
      * left, lower once some node has advanced; while none has, the graph is still `g0`
      * and every node visited was already Processed.
      */
    ghost predicate PassInvariant(g0: DependencyGraph.Graph<Block>, order: seq<nat>, t: nat, addEdges: seq<Edge>,
                                  doneCount: nat, advanced: bool, tops: seq<Path>, u: set<Path>)
      reads this
    {
      && t <= |order| && |g0.nodes| <= |u|
      && (forall k :: 0 <= k < |order| ==> order[k] < |g0.nodes|)
      && WorkInvariant(ctx, tops, u, Graph())
      && PendingSound(Graph(), addEdges) && EdgesComplete(Graph(), addEdges)
      && doneCount == CountState(nodes, Processed)
      && |g0.nodes| <= |nodes|
      && Measure(u, Graph()) <= Measure(u, g0)
      && (advanced ==> Measure(u, Graph()) < Measure(u, g0))
      && (!advanced ==> Graph() == g0 && addEdges == [])
      && (!advanced ==> forall k :: 0 <= k < t ==> g0.nodes[order[k]].state == Processed)
    }

    /** The body of `'work_loop` for the `t`-th node of a pass. */
    method PassStep(ghost g0: DependencyGraph.Graph<Block>, order: seq<nat>, t: nat, addEdges: seq<Edge>,
                    doneCount: nat, ghost advanced: bool, ghost tops: seq<Path>, ghost u: set<Path>)
      returns (failed: bool, addEdges': seq<Edge>, doneCount': nat, ghost advanced': bool)
      requires PassInvariant(g0, order, t, addEdges, doneCount, advanced, tops, u) && t < |order|
      requires Wired() && Covers(ctx, tops, u)
      modifies this
      ensures failed ==> WorkInvariant(ctx, tops, u, Graph())
      ensures failed ==> exists i :: 0 <= i < |nodes| && nodes[i].state == NotProcessed && !Loads(ctx, nodes[i].path)
      ensures !failed ==> PassInvariant(g0, order, t + 1, addEdges', doneCount', advanced', tops, u)
    {
      var index := order[t];
      ghost var wasDone := IsDone(nodes[index]);
      failed, addEdges', doneCount' := VisitNode(index, addEdges, doneCount, tops, u);
      advanced' := advanced || !wasDone;
      if !failed && !advanced' {
        assert Graph() == g0;
        assert IsDone(g0.nodes[index]);
      }
    }

    /**
      * One pass of `'work_loop` over `order`, every node of the graph, with the edges
      * queued during the pass added after it, or as soon as every node is done. A pass
      * that does not fail advances some node, so it lowers the work left.
      */
    method WorkPass(order: seq<nat>, doneCount0: nat, ghost tops: seq<Path>, ghost u: set<Path>) returns (outcome: PassOutcome, doneCount: nat)
      requires Wired() && Covers(ctx, tops, u)
      requires WorkInvariant(ctx, tops, u, Graph()) && EdgesComplete(Graph(), [])
      requires forall t :: 0 <= t < |order| ==> order[t] < |nodes|
      requires forall v :: 0 <= v < |nodes| ==> v in order
      requires doneCount0 == CountState(nodes, Processed) < |nodes|
      modifies this
      ensures WorkInvariant(ctx, tops, u, Graph())
      ensures outcome == PassFailed ==>
        exists i :: 0 <= i < |nodes| && nodes[i].state == NotProcessed && !Loads(ctx, nodes[i].path)
      ensures outcome != PassFailed ==>
        && EdgesComplete(Graph(), [])
        && doneCount == CountState(nodes, Processed)
        && Measure(u, Graph()) < Measure(u, old(Graph()))
      ensures outcome == AllDone ==> doneCount == |nodes|
      ensures outcome == MoreWork ==> doneCount < |nodes|
    {
      ghost var g0 := Graph();
      var addEdges: seq<Edge> := [];
      doneCount := doneCount0;
      ghost var advanced := false;
      var t := 0;
      while t < |order|
        invariant PassInvariant(g0, order, t, addEdges, doneCount, advanced, tops, u)
        invariant doneCount < |nodes|
      {
        var failed;
        failed, addEdges, doneCount, advanced := PassStep(g0, order, t, addEdges, doneCount, advanced, tops, u);
        if failed {
          return PassFailed, doneCount;
        }
        if doneCount == |nodes| {
          FinishPass(g0, order, t + 1, addEdges, doneCount0, doneCount, advanced, tops, u);
          return AllDone, doneCount;
        }
        t := t + 1;
      }
      if !advanced {
        AllVisitedDone(g0, order);
        assert false;
      }
      FinishPass(g0, order, t, addEdges, doneCount0, doneCount, advanced, tops, u);
      return MoreWork, doneCount;
    }

    /** The end of a pass that advanced some node: the queued edges go into the graph. */
    method FinishPass(ghost g0: DependencyGraph.Graph<Block>, order: seq<nat>, t: nat, addEdges: seq<Edge>,
                      doneCount0: nat, doneCount: nat, ghost advanced: bool, ghost tops: seq<Path>, ghost u: set<Path>)
      requires PassInvariant(g0, order, t, addEdges, doneCount, advanced, tops, u)
      requires doneCount0 == CountState(g0.nodes, Processed) < |g0.nodes|
      requires advanced || doneCount == |nodes|
      modifies this
      ensures nodes == old(nodes)
      ensures WorkInvariant(ctx, tops, u, Graph()) && EdgesComplete(Graph(), [])
      ensures doneCount == CountState(nodes, Processed)
      ensures Measure(u, Graph()) < Measure(u, g0)
    {
      assert advanced;
      FlushEdges(addEdges, tops, u);
      assert Graph().nodes == old(Graph()).nodes;
    }

    /** The edges queued during a pass go into the graph, which then has every edge it needs. */
    method FlushEdges(addEdges: seq<Edge>, ghost tops: seq<Path>, ghost u: set<Path>)
      requires WorkInvariant(ctx, tops, u, Graph())
      requires PendingSound(Graph(), addEdges) && EdgesComplete(Graph(), addEdges)
      modifies this
      ensures nodes == old(nodes) && nodeMapping == old(nodeMapping) && edges == old(edges) + addEdges
      ensures WorkInvariant(ctx, tops, u, Graph()) && EdgesComplete(Graph(), [])
    {
      FlushKeepsInvariant(ctx, tops, u, Graph(), addEdges);
      AddEdges(addEdges);
    }

    /**
      * The final pass: along a topological order, each node's version is narrowed by the
      * intersection of its dependencies' versions, which are final by then.
      */
    method PropagateVersions(order: seq<nat>)
      requires MappingValid(Graph()) && DepsMapped(Graph()) && EdgesComplete(Graph(), [])
      requires IsTopologicalOrder(|nodes|, edges, order)
      modifies this
      ensures PropagatedUpTo(old(Graph()), Graph(), order, |order|)
    {
      ghost var g0 := Graph();
      var t := 0;
      while t < |order|
        invariant PropagatedUpTo(g0, Graph(), order, t)
      {
        SettleNode(g0, order, t);
        t := t + 1;
      }
    }

    /** The body of the propagation loop: the `t`-th node of `order` takes in its dependencies' versions. */
    method SettleNode(ghost g0: DependencyGraph.Graph<Block>, order: seq<nat>, t: nat)
      requires MappingValid(g0) && DepsMapped(g0) && EdgesComplete(g0, [])
      requires IsTopologicalOrder(|g0.nodes|, g0.edges, order)
      requires PropagatedUpTo(g0, Graph(), order, t) && t < |order|
      modifies this
      ensures PropagatedUpTo(g0, Graph(), order, t + 1)
    {
      var j := order[t];
      ghost var g := Graph();
      PropagateStep(g0, g, order, t);
      var sdkVersionOfDeps := DepVersions(Graph(), nodes[j].dependsOn);
      nodes := nodes[j := nodes[j].(sdkVersion := Intersection(nodes[j].sdkVersion, FoldIntersection(Default(), sdkVersionOfDeps)))];
      assert Graph() == Settle(g, j);
    }

    /**
      * Why the work loop gives up: the edges have a cycle, or an unprocessed node's file
      * does not read, parse or resolve its requires.
      */
    ghost predicate Stuck()
      reads this
    {
      || Toposort.Toposort(|nodes|, edges).None?
      || exists i :: 0 <= i < |nodes| && nodes[i].state == NotProcessed && !Loads(ctx, nodes[i].path)
    }

    /** One round of `'work_loop`: sort the graph topologically, then one pass in that order. */
    method WorkRound(doneCount0: nat, ghost tops: seq<Path>, ghost u: set<Path>) returns (outcome: PassOutcome, doneCount: nat)
      requires Wired() && Covers(ctx, tops, u)
      requires WorkInvariant(ctx, tops, u, Graph()) && EdgesComplete(Graph(), [])
      requires doneCount0 == CountState(nodes, Processed) < |nodes|
      modifies this
      ensures WorkInvariant(ctx, tops, u, Graph())
      ensures outcome == PassFailed ==> Stuck()
      ensures outcome != PassFailed ==>
        && EdgesComplete(Graph(), [])
        && doneCount == CountState(nodes, Processed)
        && Measure(u, Graph()) < Measure(u, old(Graph()))
      ensures outcome == AllDone ==> doneCount == |nodes|
      ensures outcome == MoreWork ==> doneCount < |nodes|
    {
      var sorted := Toposort.Toposort(|nodes|, edges);
      if sorted.None? {
        return PassFailed, doneCount0;
      }
      ToposortCorrect(|nodes|, edges);
      outcome, doneCount := WorkPass(sorted.value, doneCount0, tops, u);
    }

    /**
      * `'work_loop`: rounds until every node is Processed. It fails on a dependency cycle
      * or on a file that does not read, parse or resolve its requires.
      */
    method RunWorkLoop(ghost tops: seq<Path>, ghost u: set<Path>) returns (ok: bool)
      requires Wired() && Covers(ctx, tops, u)
      requires WorkInvariant(ctx, tops, u, Graph()) && EdgesComplete(Graph(), [])
      requires CountState(nodes, Processed) < |nodes|
      modifies this
      ensures WorkInvariant(ctx, tops, u, Graph())
      ensures ok ==> EdgesComplete(Graph(), []) && forall i :: 0 <= i < |nodes| ==> nodes[i].state == Processed
      ensures !ok ==> Stuck()
    {
      var doneCount := CountState(nodes, Processed);
      while true
        invariant WorkInvariant(ctx, tops, u, Graph()) && EdgesComplete(Graph(), [])
        invariant doneCount == CountState(nodes, Processed) < |nodes|
        decreases Measure(u, Graph())
      {
        var outcome;
        outcome, doneCount := WorkRound(doneCount, tops, u);
        if outcome == PassFailed {
          return false;
        }
        if outcome == AllDone {
          CountAll(nodes, Processed);
          return true;
        }
      }
    }

    /**
      * `compute_dependency_graph` on a new `Work`. On success the graph is final: one
      * complete node per top path and per dependency, an edge per dependency, no cycle,
      * and each version narrowed by those of its dependencies. It fails only on a file
      * that does not read, parse or resolve its requires, or on a dependency cycle, and
      * then no version has been narrowed: each node is at its stage, with its own version
      * once Processed.
      */
    method ComputeDependencyGraph() returns (r: Result<(), ()>)
      requires Wired() && TopPathsWellFormed()
      requires Graph() == DependencyGraph.Graph([], [], map[])
      modifies this
      ensures r.Ok? ==> Final(ctx, Tops(), Graph())
      ensures r.Err? ==> forall i :: 0 <= i < |nodes| ==> Staged(ctx, Graph(), nodes[i])
      ensures r.Err? ==> Stuck()
    {
      AddTopNodes();
      ghost var u := Universe(ctx, Tops());
      TopGraphInvariant<Block>(ctx, Tops(), u);
      var totalNotDone := |nodes| - CountState(nodes, Processed);
      if totalNotDone == 0 {
        EmptyFinal(ctx, Graph());
        return Ok(());
      }
      var ok := RunWorkLoop(Tops(), u);
      if !ok {
        return Err(());
      }
      var sorted := Toposort.Toposort(|nodes|, edges);
      if sorted.None? {
        return Err(());
      }
      ToposortCorrect(|nodes|, edges);
      WorkInvariantDepsMapped(ctx, Tops(), u, Graph());
      ghost var g0 := Graph();
      PropagateVersions(sorted.value);
      PropagatedIsFinal(ctx, Tops(), u, g0, Graph());
      return Ok(());
    }
  }
}
