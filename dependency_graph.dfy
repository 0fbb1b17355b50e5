// The dependency graph of src/commands/version/dependency_graph.rs. Every module file is
// a node, found from the top-level files through their `require` calls. Each node goes
// NotProcessed -> Processing (its file read and parsed, its dependencies collected and
// added as nodes) -> Processed (its own SDK version resolved), pass after pass in
// topological order; edges run from a dependency to the module requiring it. Finally every
// node's version is narrowed by the versions of its dependencies, in topological order.
module DependencyGraph {
  import opened Wrappers
  import opened SdkVersion
  import LuaAst
  import opened VersionUtils
  import VersionWalk
  import VersionResolution
  import RequireDependencies
  import opened Toposort

  /** The stages of a node. */
  datatype State = NotProcessed | Processing | Processed

  /** A module of the graph. */
  datatype DependencyGraphNode<B> = DependencyGraphNode(
    dependsOn: seq<Path>,
    isTopNode: bool,
    sdkVersion: SdkVersionOut,
    state: State,
    path: Path,
    block: Option<B>)

  /** `DependencyGraphNode<B>::new` (`create_top_node`, `create_node`): only the path is known. */
  function NewNode<B>(isTopNode: bool, path: Path): DependencyGraphNode<B>
  {
    DependencyGraphNode([], isTopNode, Default(), NotProcessed, path, None)
  }

  /** `is_done`. */
  predicate IsDone<B>(node: DependencyGraphNode<B>)
  {
    node.state == Processed
  }

  /**
    * The graph: the nodes by index (a stable graph that never loses one), the edges
    * `(dependency, dependent)`, and `node_mapping` from a path to its node.
    */
  datatype Graph<B> = Graph(nodes: seq<DependencyGraphNode<B>>, edges: seq<Edge>, nodeMapping: map<Path, nat>)

  /**
    * What the work reads but never changes, for files parsed into values of type `B`: the
    * file system (`Resources`), in which a path is absent when its file cannot be read and
    * maps to None when it does not parse; `collect`, the dependencies of a parsed file or
    * the errors resolving its requires; `resolve`, the SDK version of a parsed file alone.
    * `Work` instantiates these with Lua blocks, `FileDependencies` and `ResolveBlock`.
    */
  datatype Context<!B> = Context(
    resources: map<Path, Option<B>>,
    collect: (Path, B) -> Result<seq<Path>, seq<RequireDependencies.RequireError>>,
    resolve: B -> SdkVersionOut)

  /** The errors of `advance_work`. */
  datatype WorkError =
    | NodeNotFound
    | FailedToRead(path: Path)
    | FailedToParse(path: Path)
    | FailedToCollectDependencies(path: Path, errors: seq<RequireDependencies.RequireError>)

  // ---- node_mapping ----

  /** `node_mapping` and the nodes agree: each maps to the other, one to one. */
  predicate MappingValid<B>(g: Graph<B>)
  {
    && (forall p :: p in g.nodeMapping ==> g.nodeMapping[p] < |g.nodes| && g.nodes[g.nodeMapping[p]].path == p)
    && (forall i :: 0 <= i < |g.nodes| ==> g.nodes[i].path in g.nodeMapping && g.nodeMapping[g.nodes[i].path] == i)
    && |g.nodeMapping.Keys| == |g.nodes|
  }

  /** One step of `add_dependencies_to_graph` and of the top-node loop: a node for `path` unless it has one. */
  function AddNode<B>(g: Graph<B>, isTopNode: bool, path: Path): Graph<B>
  {
    if path in g.nodeMapping then g
    else Graph(g.nodes + [NewNode(isTopNode, path)], g.edges, g.nodeMapping[path := |g.nodes|])
  }

  /**
    * A node for each path that has none yet, in order: the nodes there were stay where
    * they were, every path ends up mapped, and the new nodes are fresh, unprocessed ones
    * for paths that were not mapped.
    */
  function AddNodes<B>(g: Graph<B>, isTopNode: bool, paths: seq<Path>): (r: Graph<B>)
    ensures r.edges == g.edges
    ensures |g.nodes| <= |r.nodes| && r.nodes[..|g.nodes|] == g.nodes
    decreases |paths|
  {
    if paths == [] then g
    else AddNode(AddNodes(g, isTopNode, paths[..|paths| - 1]), isTopNode, paths[|paths| - 1])
  }

  /**
    * After adding nodes for `paths`, every path is mapped, the paths mapped before keep
    * their index, and the new nodes are fresh, unprocessed ones for paths that were not
    * mapped.
    */
  lemma {:induction false} AddNodesShape<B>(g: Graph<B>, isTopNode: bool, paths: seq<Path>)
    ensures var r := AddNodes(g, isTopNode, paths);
      && (forall p :: p in g.nodeMapping ==> p in r.nodeMapping && r.nodeMapping[p] == g.nodeMapping[p])
      && (forall p :: p in r.nodeMapping <==> p in g.nodeMapping || p in paths)
      && (forall i :: |g.nodes| <= i < |r.nodes| ==>
            r.nodes[i] == NewNode(isTopNode, r.nodes[i].path) && r.nodes[i].path in paths && r.nodes[i].path !in g.nodeMapping)
    decreases |paths|
  {
    if paths != [] {
      var init := paths[..|paths| - 1];
      AddNodesShape(g, isTopNode, init);
      assert forall p :: p in init ==> p in paths;
      assert paths == init + [paths[|paths| - 1]];
    }
  }

  /** Adding a node keeps `node_mapping` and the nodes in step. */
  lemma AddNodeKeepsMapping<B>(g: Graph<B>, isTopNode: bool, path: Path)
    requires MappingValid(g)
    ensures MappingValid(AddNode(g, isTopNode, path))
  {
    if path !in g.nodeMapping {
      var r := AddNode(g, isTopNode, path);
      assert r.nodeMapping.Keys == g.nodeMapping.Keys + {path};
      forall i | 0 <= i < |r.nodes|
        ensures r.nodes[i].path in r.nodeMapping && r.nodeMapping[r.nodes[i].path] == i
      {
        if i < |g.nodes| {
          assert r.nodes[i] == g.nodes[i];
        }
      }
    }
  }

  /** Adding nodes keeps `node_mapping` and the nodes in step. */
  lemma {:induction false} AddNodesKeepsMapping<B>(g: Graph<B>, isTopNode: bool, paths: seq<Path>)
    requires MappingValid(g)
    ensures MappingValid(AddNodes(g, isTopNode, paths))
    decreases |paths|
  {
    if paths != [] {
      AddNodesKeepsMapping(g, isTopNode, paths[..|paths| - 1]);
      AddNodeKeepsMapping(AddNodes(g, isTopNode, paths[..|paths| - 1]), isTopNode, paths[|paths| - 1]);
    }
  }

  // ---- counting nodes by state ----

  /** How many nodes are in state `s`. */
  function CountState<B>(nodes: seq<DependencyGraphNode<B>>, s: State): (r: nat)
    ensures r <= |nodes|
  {
    if nodes == [] then 0
    else CountState(nodes[..|nodes| - 1], s) + (if nodes[|nodes| - 1].state == s then 1 else 0)
  }

  lemma {:induction false} CountAppend<B>(xs: seq<DependencyGraphNode<B>>, ys: seq<DependencyGraphNode<B>>, s: State)
    ensures CountState(xs + ys, s) == CountState(xs, s) + CountState(ys, s)
    decreases |ys|
  {
    if ys == [] {
      assert xs + ys == xs;
    } else {
      assert (xs + ys)[..|xs + ys| - 1] == xs + ys[..|ys| - 1];
      CountAppend(xs, ys[..|ys| - 1], s);
    }
  }

  lemma {:induction false} CountUpdate<B>(xs: seq<DependencyGraphNode<B>>, i: nat, x: DependencyGraphNode<B>, s: State)
    requires i < |xs|
    ensures CountState(xs[i := x], s) + (if xs[i].state == s then 1 else 0) == CountState(xs, s) + (if x.state == s then 1 else 0)
    decreases |xs|
  {
    if i < |xs| - 1 {
      assert xs[i := x][..|xs| - 1] == xs[..|xs| - 1][i := x];
      CountUpdate(xs[..|xs| - 1], i, x, s);
    } else {
      assert xs[i := x][..|xs| - 1] == xs[..|xs| - 1];
    }
  }

  /** All nodes are in one state exactly when the count of that state is the number of nodes. */
  lemma {:induction false} CountAll<B>(xs: seq<DependencyGraphNode<B>>, s: State)
    ensures CountState(xs, s) == |xs| <==> forall i :: 0 <= i < |xs| ==> xs[i].state == s
    decreases |xs|
  {
    if xs != [] {
      CountAll(xs[..|xs| - 1], s);
      if CountState(xs, s) == |xs| {
        forall i | 0 <= i < |xs|
          ensures xs[i].state == s
        {
          if i < |xs| - 1 {
            assert xs[i] == xs[..|xs| - 1][i];
          }
        }
      }
      if forall i :: 0 <= i < |xs| ==> xs[i].state == s {
        var init := xs[..|xs| - 1];
        assert forall i :: 0 <= i < |init| ==> init[i].state == s;
      }
    }
  }

  /** Nodes all in one state count fully for that state and not at all for the others. */
  lemma {:induction false} CountUniform<B>(xs: seq<DependencyGraphNode<B>>, s0: State, s: State)
    requires forall i :: 0 <= i < |xs| ==> xs[i].state == s0
    ensures CountState(xs, s) == if s == s0 then |xs| else 0
    decreases |xs|
  {
    if xs != [] {
      CountUniform(xs[..|xs| - 1], s0, s);
    }
  }

  // ---- edges ----

  /** An edge `(m, j)` stands for a dependency: node `m`'s path is one that node `j` depends on. */
  predicate DependencyEdge<B>(g: Graph<B>, e: Edge)
  {
    e.0 < |g.nodes| && e.1 < |g.nodes| && g.nodes[e.0].path in g.nodes[e.1].dependsOn
  }

  /** Every edge stands for a dependency. */
  predicate EdgesSound<B>(g: Graph<B>)
  {
    forall k :: 0 <= k < |g.edges| ==> DependencyEdge(g, g.edges[k])
  }

  /** Every mapped dependency has its edge, in the graph or among the `pending` ones. */
  predicate EdgesComplete<B>(g: Graph<B>, pending: seq<Edge>)
  {
    forall j, d :: 0 <= j < |g.nodes| && d in g.nodes[j].dependsOn && d in g.nodeMapping ==>
      (g.nodeMapping[d], j) in g.edges + pending
  }

  /** Every dependency of every node has a node. */
  predicate DepsMapped<B>(g: Graph<B>)
  {
    forall i, d :: 0 <= i < |g.nodes| && d in g.nodes[i].dependsOn ==> d in g.nodeMapping
  }

  /**
    * The edges the work loop queues for a node that has just reached Processing: one from
    * each mapped dependency to the node, in order.
    */
  function EdgesInto(nodeMapping: map<Path, nat>, deps: seq<Path>, j: nat): (r: seq<Edge>)
    ensures |r| <= |deps|
    decreases |deps|
  {
    if deps == [] then []
    else
      var init := deps[..|deps| - 1];
      var last := deps[|deps| - 1];
      EdgesInto(nodeMapping, init, j) + (if last in nodeMapping then [(nodeMapping[last], j)] else [])
  }

  /** An edge into `j` from the node of some mapped path of `deps`. */
  predicate EdgeFromDeps(nodeMapping: map<Path, nat>, deps: seq<Path>, j: nat, e: Edge)
  {
    e.1 == j && exists d :: d in deps && d in nodeMapping && e.0 == nodeMapping[d]
  }

  /** The edges queued are exactly those from a mapped dependency into the node. */
  lemma {:induction false} EdgesIntoShape(nodeMapping: map<Path, nat>, deps: seq<Path>, j: nat)
    ensures forall d :: d in deps && d in nodeMapping ==> (nodeMapping[d], j) in EdgesInto(nodeMapping, deps, j)
    ensures forall k :: 0 <= k < |EdgesInto(nodeMapping, deps, j)| ==>
      EdgeFromDeps(nodeMapping, deps, j, EdgesInto(nodeMapping, deps, j)[k])
    decreases |deps|
  {
    if deps != [] {
      var init := deps[..|deps| - 1];
      var last := deps[|deps| - 1];
      EdgesIntoShape(nodeMapping, init, j);
      assert deps == init + [last];
      var r0 := EdgesInto(nodeMapping, init, j);
      var r := EdgesInto(nodeMapping, deps, j);
      forall k | 0 <= k < |r|
        ensures EdgeFromDeps(nodeMapping, deps, j, r[k])
      {
        if k < |r0| {
          assert EdgeFromDeps(nodeMapping, init, j, r0[k]);
          var d :| d in init && d in nodeMapping && r0[k].0 == nodeMapping[d];
          assert d in deps && r[k] == r0[k];
        } else {
          assert r[k] == (nodeMapping[last], j);
        }
      }
      forall d | d in deps && d in nodeMapping
        ensures (nodeMapping[d], j) in r
      {
        if d != last {
          assert d in init;
          assert (nodeMapping[d], j) in r0;
        }
      }
    }
  }

  // ---- the work invariant ----

  /** `resolve`: a file that reads, parses, and whose requires all resolve. */
  predicate Loads<B>(ctx: Context<B>, path: Path)
  {
    path in ctx.resources && ctx.resources[path].Some?
    && ctx.collect(path, ctx.resources[path].value).Ok?
  }

  /**
    * What a node's stage says about it: an unprocessed node has no dependencies yet; a
    * node that has been processed holds its file's block and its collected, mapped
    * dependencies, and once Processed, its own resolved version.
    */
  predicate Staged<B(==)>(ctx: Context<B>, g: Graph<B>, node: DependencyGraphNode<B>)
  {
    if node.state == NotProcessed then node.dependsOn == []
    else
      && node.path in ctx.resources && node.block.Some? && ctx.resources[node.path] == node.block
      && ctx.collect(node.path, node.block.value) == Ok(node.dependsOn)
      && (forall d :: d in node.dependsOn ==> d in g.nodeMapping)
      && (node.state == Processed ==> node.sdkVersion == ctx.resolve(node.block.value))
  }

  /** The dependencies of a file that loads. */
  function LoadedDependencies<B>(ctx: Context<B>, path: Path): seq<Path>
    requires Loads(ctx, path)
  {
    ctx.collect(path, ctx.resources[path].value).value
  }

  /** `u` holds the top paths and every dependency of every file that loads. */
  ghost predicate Covers<B>(ctx: Context<B>, tops: seq<Path>, u: set<Path>)
  {
    && (forall t :: t in tops ==> t in u)
    && (forall p, d :: Loads(ctx, p) && d in LoadedDependencies(ctx, p) ==> d in u)
  }

  /** Every path the graph can come to hold: the top paths and every dependency of a file that loads. */
  ghost function Universe<B>(ctx: Context<B>, tops: seq<Path>): (u: set<Path>)
    ensures Covers(ctx, tops, u)
  {
    (set t | t in tops) + (set p, d | p in ctx.resources && Loads(ctx, p) && d in LoadedDependencies(ctx, p) :: d)
  }

  /**
    * What holds of the graph between two steps of the work loop, for the normalised top
    * paths `tops` and a set `u` of paths that covers them.
    */
  ghost predicate WorkInvariant<B>(ctx: Context<B>, tops: seq<Path>, u: set<Path>, g: Graph<B>)
  {
    && MappingValid(g)
    && (forall i :: 0 <= i < |g.nodes| ==> Staged(ctx, g, g.nodes[i]))
    && (forall i :: 0 <= i < |g.nodes| ==> (g.nodes[i].isTopNode <==> g.nodes[i].path in tops))
    && (forall t :: t in tops ==> t in g.nodeMapping)
    && (forall p :: p in g.nodeMapping ==> p in u)
    && |g.nodes| <= |u|
    && EdgesSound(g)
  }

  /**
    * The work left: two for each path not yet a node and each unprocessed node, one for
    * each node in Processing.
    */
  function Measure<B>(u: set<Path>, g: Graph<B>): nat
    requires |g.nodes| <= |u|
  {
    2 * (|u| - |g.nodes|) + 2 * CountState(g.nodes, NotProcessed) + CountState(g.nodes, Processing)
  }

  lemma {:induction false} SubsetCardinality<T>(a: set<T>, b: set<T>)
    requires a <= b
    ensures |a| <= |b|
    decreases |a|
  {
    if a != {} {
      var x :| x in a;
      SubsetCardinality(a - {x}, b - {x});
    }
  }

  // ---- advance_work ----

  /** The node in its next stage, once its file has been read, parsed and its dependencies collected. */
  function Loaded<B>(node: DependencyGraphNode<B>, block: B, deps: seq<Path>): DependencyGraphNode<B>
  {
    node.(state := Processing, dependsOn := deps, block := Some(block))
  }

  /** The node in its last stage, holding its own resolved version. */
  function Resolved<B>(node: DependencyGraphNode<B>, version: SdkVersionOut): DependencyGraphNode<B>
  {
    node.(sdkVersion := version, state := Processed)
  }

  /**
    * Loading a node whose file loads: a node for each of its dependencies that has none,
    * then the node itself in Processing with its block and dependencies.
    */
  function LoadStep<B>(ctx: Context<B>, g: Graph<B>, index: nat): Graph<B>
    requires index < |g.nodes| && Loads(ctx, g.nodes[index].path)
  {
    var node := g.nodes[index];
    var deps := LoadedDependencies(ctx, node.path);
    var added := AddNodes(g, false, deps);
    added.(nodes := added.nodes[index := Loaded(node, ctx.resources[node.path].value, deps)])
  }

  /** Resolving a node in Processing: its version is that of its own block. */
  function ResolveStep<B>(ctx: Context<B>, g: Graph<B>, index: nat): Graph<B>
    requires index < |g.nodes| && g.nodes[index].block.Some?
  {
    g.(nodes := g.nodes[index := Resolved(g.nodes[index], ctx.resolve(g.nodes[index].block.value))])
  }

  /**
    * `advance_work`: moves one node a stage on and returns its new stage. An unprocessed
    * node's file is read, parsed and searched for requires, which become nodes; a node in
    * Processing gets the version of a fresh `VersionResolver` walk of its block; a
    * Processed node stays. The graph is unchanged on every error.
    */
  function Advance<B>(ctx: Context<B>, g: Graph<B>, index: nat): (Result<State, WorkError>, Graph<B>)
    requires index < |g.nodes| && g.nodes[index].state == Processing ==> g.nodes[index].block.Some?
  {
    if index >= |g.nodes| then (Err(NodeNotFound), g)
    else
      var node := g.nodes[index];
      match node.state
      case NotProcessed =>
        if node.path !in ctx.resources then (Err(FailedToRead(node.path)), g)
        else if ctx.resources[node.path].None? then (Err(FailedToParse(node.path)), g)
        else
          (match ctx.collect(node.path, ctx.resources[node.path].value)
           case Err(errors) => (Err(FailedToCollectDependencies(node.path, errors)), g)
           case Ok(_) => (Ok(Processing), LoadStep(ctx, g, index)))
      case Processing => (Ok(Processed), ResolveStep(ctx, g, index))
      case Processed => (Ok(Processed), g)
  }

  /**
    * `advance_work` fails exactly on a missing node, or on an unprocessed node whose file
    * does not read, parse or resolve its requires, and then leaves the graph as it was;
    * otherwise an unprocessed node is loaded, a node in Processing is resolved and a
    * Processed node stays, and NotProcessed is never reported.
    */
  lemma AdvanceCases<B>(ctx: Context<B>, g: Graph<B>, index: nat)
    requires index < |g.nodes| && g.nodes[index].state == Processing ==> g.nodes[index].block.Some?
    ensures var (r, g') := Advance(ctx, g, index);
      && (r.Err? <==> index >= |g.nodes| || (g.nodes[index].state == NotProcessed && !Loads(ctx, g.nodes[index].path)))
      && (r.Err? ==> g' == g)
      && (r.Ok? ==> r.value != NotProcessed)
    ensures index < |g.nodes| && g.nodes[index].state == NotProcessed && Loads(ctx, g.nodes[index].path) ==>
      Advance(ctx, g, index) == (Ok(Processing), LoadStep(ctx, g, index))
    ensures index < |g.nodes| && g.nodes[index].state == Processing ==>
      Advance(ctx, g, index) == (Ok(Processed), ResolveStep(ctx, g, index))
    ensures index < |g.nodes| && g.nodes[index].state == Processed ==> Advance(ctx, g, index) == (Ok(Processed), g)
  {
  }

  /**
    * What loading changes: the node moves to Processing with its file's block and
    * dependencies, every dependency without a node gets a fresh unprocessed one, and
    * nothing else changes.
    */
  lemma LoadShape<B>(ctx: Context<B>, g: Graph<B>, index: nat)
    requires index < |g.nodes| && Loads(ctx, g.nodes[index].path)
    ensures var g' := LoadStep(ctx, g, index);
      var deps := LoadedDependencies(ctx, g.nodes[index].path);
      && g'.edges == g.edges && |g.nodes| <= |g'.nodes|
      && (forall i :: 0 <= i < |g.nodes| && i != index ==> g'.nodes[i] == g.nodes[i])
      && (forall i :: |g.nodes| <= i < |g'.nodes| ==>
            g'.nodes[i] == NewNode(false, g'.nodes[i].path) && g'.nodes[i].path in deps)
      && g'.nodes[index] == Loaded(g.nodes[index], ctx.resources[g.nodes[index].path].value, deps)
      && (forall p :: p in g.nodeMapping ==> p in g'.nodeMapping && g'.nodeMapping[p] == g.nodeMapping[p])
      && (forall p :: p in g'.nodeMapping <==> p in g.nodeMapping || p in deps)
      && (MappingValid(g) ==> MappingValid(g'))
  {
    LoadNodes(ctx, g, index);
    LoadMapping(ctx, g, index);
  }

  /** Loading changes the loaded node, appends fresh nodes for new dependencies, and keeps the edges. */
  lemma LoadNodes<B>(ctx: Context<B>, g: Graph<B>, index: nat)
    requires index < |g.nodes| && Loads(ctx, g.nodes[index].path)
    ensures var g' := LoadStep(ctx, g, index);
      var deps := LoadedDependencies(ctx, g.nodes[index].path);
      && g'.edges == g.edges && |g.nodes| <= |g'.nodes|
      && (forall i :: 0 <= i < |g.nodes| && i != index ==> g'.nodes[i] == g.nodes[i])
      && (forall i :: |g.nodes| <= i < |g'.nodes| ==>
            g'.nodes[i] == NewNode(false, g'.nodes[i].path) && g'.nodes[i].path in deps)
      && g'.nodes[index] == Loaded(g.nodes[index], ctx.resources[g.nodes[index].path].value, deps)
  {
    var node := g.nodes[index];
    var deps := LoadedDependencies(ctx, node.path);
    var added := AddNodes(g, false, deps);
    AddNodesShape(g, false, deps);
    assert forall i :: |g.nodes| <= i < |added.nodes| ==>
            added.nodes[i] == NewNode(false, added.nodes[i].path) && added.nodes[i].path in deps && added.nodes[i].path !in g.nodeMapping;
    var g' := LoadStep(ctx, g, index);
    assert g'.nodes == added.nodes[index := Loaded(node, ctx.resources[node.path].value, deps)];
    forall i | 0 <= i < |g.nodes| && i != index
      ensures g'.nodes[i] == g.nodes[i]
    {
      assert added.nodes[..|g.nodes|][i] == g.nodes[i];
    }
    forall i | |g.nodes| <= i < |g'.nodes|
      ensures g'.nodes[i] == NewNode(false, g'.nodes[i].path) && g'.nodes[i].path in deps
    {
      assert g'.nodes[i] == added.nodes[i];
    }
  }

  /** Loading keeps every mapped path where it was and maps the new dependencies. */
  lemma LoadMapping<B>(ctx: Context<B>, g: Graph<B>, index: nat)
    requires index < |g.nodes| && Loads(ctx, g.nodes[index].path)
    ensures var g' := LoadStep(ctx, g, index);
      var deps := LoadedDependencies(ctx, g.nodes[index].path);
      && (forall p :: p in g.nodeMapping ==> p in g'.nodeMapping && g'.nodeMapping[p] == g.nodeMapping[p])
      && (forall p :: p in g'.nodeMapping <==> p in g.nodeMapping || p in deps)
      && (MappingValid(g) ==> MappingValid(g'))
  {
    var node := g.nodes[index];
    var deps := LoadedDependencies(ctx, node.path);
    var added := AddNodes(g, false, deps);
    AddNodesShape(g, false, deps);
    var g' := LoadStep(ctx, g, index);
    assert g'.nodeMapping == added.nodeMapping;
    if MappingValid(g) {
      AddNodesKeepsMapping(g, false, deps);
      assert g'.nodes[index].path == added.nodes[index].path;
      forall i | 0 <= i < |g'.nodes|
        ensures g'.nodes[i].path == added.nodes[i].path
      {
      }
    }
  }

  /** Loading an unprocessed node whose file loads keeps the work invariant. */
  lemma LoadKeepsInvariant<B>(ctx: Context<B>, tops: seq<Path>, u: set<Path>, g: Graph<B>, index: nat)
    requires Covers(ctx, tops, u) && WorkInvariant(ctx, tops, u, g)
    requires index < |g.nodes| && g.nodes[index].state == NotProcessed && Loads(ctx, g.nodes[index].path)
    ensures WorkInvariant(ctx, tops, u, LoadStep(ctx, g, index))
  {
    LoadMapping(ctx, g, index);
    LoadKeepsCovered(ctx, tops, u, g, index);
    LoadKeepsStaged(ctx, tops, u, g, index);
    LoadKeepsEdgesSound(ctx, tops, u, g, index);
  }

  /** After loading, every mapped path is still one of `u`, so there are no more nodes than paths in `u`. */
  lemma LoadKeepsCovered<B>(ctx: Context<B>, tops: seq<Path>, u: set<Path>, g: Graph<B>, index: nat)
    requires Covers(ctx, tops, u) && WorkInvariant(ctx, tops, u, g)
    requires index < |g.nodes| && g.nodes[index].state == NotProcessed && Loads(ctx, g.nodes[index].path)
    ensures var g' := LoadStep(ctx, g, index);
      (forall p :: p in g'.nodeMapping ==> p in u) && |g'.nodes| <= |u|
  {
    LoadMapping(ctx, g, index);
    var node := g.nodes[index];
    var g' := LoadStep(ctx, g, index);
    forall p | p in g'.nodeMapping
      ensures p in u
    {
      if p !in g.nodeMapping {
        assert p in LoadedDependencies(ctx, node.path);
      }
    }
    SubsetCardinality(g'.nodeMapping.Keys, u);
  }

  /** After loading, every node is still staged and marked top exactly when its path is a top path. */
  lemma LoadKeepsStaged<B>(ctx: Context<B>, tops: seq<Path>, u: set<Path>, g: Graph<B>, index: nat)
    requires Covers(ctx, tops, u) && WorkInvariant(ctx, tops, u, g)
    requires index < |g.nodes| && g.nodes[index].state == NotProcessed && Loads(ctx, g.nodes[index].path)
    ensures var g' := LoadStep(ctx, g, index);
      forall i :: 0 <= i < |g'.nodes| ==>
        Staged(ctx, g', g'.nodes[i]) && (g'.nodes[i].isTopNode <==> g'.nodes[i].path in tops)
  {
    LoadShape(ctx, g, index);
    var g' := LoadStep(ctx, g, index);
    forall i | 0 <= i < |g'.nodes|
      ensures Staged(ctx, g', g'.nodes[i])
      ensures g'.nodes[i].isTopNode <==> g'.nodes[i].path in tops
    {
      if i < |g.nodes| && i != index {
        assert Staged(ctx, g, g.nodes[i]);
      }
    }
  }

  /** Loading adds no edge and keeps the nodes' paths and dependencies, so every edge still stands for a dependency. */
  lemma LoadKeepsEdgesSound<B>(ctx: Context<B>, tops: seq<Path>, u: set<Path>, g: Graph<B>, index: nat)
    requires Covers(ctx, tops, u) && WorkInvariant(ctx, tops, u, g)
    requires index < |g.nodes| && g.nodes[index].state == NotProcessed && Loads(ctx, g.nodes[index].path)
    ensures EdgesSound(LoadStep(ctx, g, index))
  {
    LoadNodes(ctx, g, index);
    var g' := LoadStep(ctx, g, index);
    forall k | 0 <= k < |g'.edges|
      ensures DependencyEdge(g', g'.edges[k])
    {
      assert DependencyEdge(g, g.edges[k]);
    }
  }

  /** Resolving a node in Processing keeps the work invariant. */
  lemma ResolveKeepsInvariant<B>(ctx: Context<B>, tops: seq<Path>, u: set<Path>, g: Graph<B>, index: nat)
    requires WorkInvariant(ctx, tops, u, g)
    requires index < |g.nodes| && g.nodes[index].state == Processing
    ensures g.nodes[index].block.Some?
    ensures WorkInvariant(ctx, tops, u, ResolveStep(ctx, g, index))
  {
    assert Staged(ctx, g, g.nodes[index]);
    var g' := ResolveStep(ctx, g, index);
    forall i | 0 <= i < |g'.nodes|
      ensures Staged(ctx, g', g'.nodes[i])
    {
      assert Staged(ctx, g, g.nodes[i]);
    }
    forall k | 0 <= k < |g'.edges|
      ensures DependencyEdge(g', g'.edges[k])
    {
      assert DependencyEdge(g, g.edges[k]);
    }
  }

  /** Every queued edge stands for a dependency. */
  predicate PendingSound<B>(g: Graph<B>, pending: seq<Edge>)
  {
    forall k :: 0 <= k < |pending| ==> DependencyEdge(g, pending[k])
  }

  /** The edges queued for a node once it is loaded: one from each of its mapped dependencies. */
  function QueuedEdges<B>(g: Graph<B>, index: nat): seq<Edge>
    requires index < |g.nodes|
  {
    EdgesInto(g.nodeMapping, g.nodes[index].dependsOn, index)
  }

  /** Loading a node and queueing the edges into it keeps every queued edge standing for a dependency. */
  lemma LoadQueuesSoundEdges<B>(ctx: Context<B>, g: Graph<B>, index: nat, pending: seq<Edge>)
    requires MappingValid(g) && index < |g.nodes| && Loads(ctx, g.nodes[index].path)
    requires g.nodes[index].dependsOn == [] && PendingSound(g, pending)
    ensures var g' := LoadStep(ctx, g, index); PendingSound(g', pending + QueuedEdges(g', index))
  {
    LoadShape(ctx, g, index);
    var g' := LoadStep(ctx, g, index);
    var queued := QueuedEdges(g', index);
    EdgesIntoShape(g'.nodeMapping, g'.nodes[index].dependsOn, index);
    forall k | 0 <= k < |pending + queued|
      ensures DependencyEdge(g', (pending + queued)[k])
    {
      if k < |pending| {
        var e := pending[k];
        assert DependencyEdge(g, e);
        assert e.1 != index;
        assert g'.nodes[e.0].path == g.nodes[e.0].path;
      } else {
        var d :| d in g'.nodes[index].dependsOn && d in g'.nodeMapping && queued[k - |pending|].0 == g'.nodeMapping[d];
      }
    }
  }

  /** Loading a node and queueing the edges into it leaves no mapped dependency without its edge. */
  lemma LoadQueuesAllEdges<B>(ctx: Context<B>, g: Graph<B>, index: nat, pending: seq<Edge>)
    requires index < |g.nodes| && Loads(ctx, g.nodes[index].path)
    requires g.nodes[index].dependsOn == [] && DepsMapped(g)
    requires EdgesComplete(g, pending)
    ensures var g' := LoadStep(ctx, g, index); EdgesComplete(g', pending + QueuedEdges(g', index))
  {
    LoadShape(ctx, g, index);
    var g' := LoadStep(ctx, g, index);
    var queued := QueuedEdges(g', index);
    EdgesIntoShape(g'.nodeMapping, g'.nodes[index].dependsOn, index);
    forall j, d | 0 <= j < |g'.nodes| && d in g'.nodes[j].dependsOn && d in g'.nodeMapping
      ensures (g'.nodeMapping[d], j) in g'.edges + pending + queued
    {
      if j == index {
        assert (g'.nodeMapping[d], j) in queued;
      } else {
        assert j < |g.nodes|;
        assert g'.nodes[j] == g.nodes[j];
        assert g'.nodeMapping[d] == g.nodeMapping[d];
      }
    }
    assert g'.edges + (pending + queued) == g'.edges + pending + queued;
  }

  /** Resolving a node changes no dependency, so the edge bookkeeping is kept. */
  lemma ResolveKeepsEdges<B>(ctx: Context<B>, g: Graph<B>, index: nat, pending: seq<Edge>)
    requires index < |g.nodes| && g.nodes[index].block.Some?
    requires PendingSound(g, pending) && EdgesComplete(g, pending)
    ensures var g' := ResolveStep(ctx, g, index); PendingSound(g', pending) && EdgesComplete(g', pending)
  {
    var g' := ResolveStep(ctx, g, index);
    forall k | 0 <= k < |pending|
      ensures DependencyEdge(g', pending[k])
    {
      assert DependencyEdge(g, pending[k]);
    }
  }

  /** Adding the queued edges to the graph keeps the work invariant and leaves no dependency without its edge. */
  lemma FlushKeepsInvariant<B>(ctx: Context<B>, tops: seq<Path>, u: set<Path>, g: Graph<B>, pending: seq<Edge>)
    requires WorkInvariant(ctx, tops, u, g) && PendingSound(g, pending) && EdgesComplete(g, pending)
    ensures WorkInvariant(ctx, tops, u, g.(edges := g.edges + pending))
    ensures EdgesComplete(g.(edges := g.edges + pending), [])
  {
    var g' := g.(edges := g.edges + pending);
    forall i | 0 <= i < |g'.nodes|
      ensures Staged(ctx, g', g'.nodes[i])
    {
      assert Staged(ctx, g, g.nodes[i]);
    }
    forall k | 0 <= k < |g'.edges|
      ensures DependencyEdge(g', g'.edges[k])
    {
      if k < |g.edges| {
        assert DependencyEdge(g, g.edges[k]);
      } else {
        assert DependencyEdge(g, pending[k - |g.edges|]);
      }
    }
    assert g'.edges + [] == g.edges + pending;
  }

  /**
    * Loading a node: one node leaves NotProcessed for Processing and the new nodes join
    * NotProcessed; no node becomes Processed.
    */
  lemma LoadCounts<B>(ctx: Context<B>, g: Graph<B>, index: nat, s: State)
    requires index < |g.nodes| && g.nodes[index].state == NotProcessed && Loads(ctx, g.nodes[index].path)
    ensures var g' := LoadStep(ctx, g, index);
      CountState(g'.nodes, s) + (if s == NotProcessed then 1 else 0)
        == CountState(g.nodes, s) + (if s == Processing then 1 else 0) + (if s == NotProcessed then |g'.nodes| - |g.nodes| else 0)
  {
    LoadNodes(ctx, g, index);
    var node := g.nodes[index];
    var deps := LoadedDependencies(ctx, node.path);
    var added := AddNodes(g, false, deps);
    var g' := LoadStep(ctx, g, index);
    assert g'.nodes == added.nodes[index := Loaded(node, ctx.resources[node.path].value, deps)];
    var newNodes := added.nodes[|g.nodes|..];
    assert added.nodes == g.nodes + newNodes;
    forall i | 0 <= i < |newNodes|
      ensures newNodes[i].state == NotProcessed
    {
      assert newNodes[i] == g'.nodes[|g.nodes| + i];
    }
    CountAppend(g.nodes, newNodes, s);
    CountUniform(newNodes, NotProcessed, s);
    CountUpdate(added.nodes, index, Loaded(node, ctx.resources[node.path].value, deps), s);
  }

  /** Resolving a node: one node leaves Processing for Processed. */
  lemma ResolveCounts<B>(ctx: Context<B>, g: Graph<B>, index: nat, s: State)
    requires index < |g.nodes| && g.nodes[index].state == Processing && g.nodes[index].block.Some?
    ensures CountState(ResolveStep(ctx, g, index).nodes, s) + (if s == Processing then 1 else 0)
      == CountState(g.nodes, s) + (if s == Processed then 1 else 0)
  {
    CountUpdate(g.nodes, index, ResolveStep(ctx, g, index).nodes[index], s);
  }

  /**
    * Advancing a node that is not done lowers the work left, and counts one more
    * Processed node exactly when it resolves one.
    */
  lemma AdvanceProgress<B>(ctx: Context<B>, tops: seq<Path>, u: set<Path>, g: Graph<B>, index: nat)
    requires Covers(ctx, tops, u) && WorkInvariant(ctx, tops, u, g)
    requires index < |g.nodes| && !IsDone(g.nodes[index])
    requires g.nodes[index].state == NotProcessed ==> Loads(ctx, g.nodes[index].path)
    ensures g.nodes[index].state == Processing ==> g.nodes[index].block.Some?
    ensures var (r, g') := Advance(ctx, g, index);
      && WorkInvariant(ctx, tops, u, g')
      && Measure(u, g') < Measure(u, g)
      && CountState(g'.nodes, Processed) == CountState(g.nodes, Processed) + (if r == Ok(Processed) then 1 else 0)
  {
    if g.nodes[index].state == NotProcessed {
      LoadKeepsInvariant(ctx, tops, u, g, index);
      LoadCounts(ctx, g, index, NotProcessed);
      LoadCounts(ctx, g, index, Processing);
      LoadCounts(ctx, g, index, Processed);
    } else {
      ResolveKeepsInvariant(ctx, tops, u, g, index);
      ResolveCounts(ctx, g, index, NotProcessed);
      ResolveCounts(ctx, g, index, Processing);
      ResolveCounts(ctx, g, index, Processed);
    }
    AdvanceCases(ctx, g, index);
  }

  // ---- the top nodes ----

  /** The graph before any work: one unprocessed top node per top path, without duplicates. */
  function TopGraph<B>(tops: seq<Path>): Graph<B>
  {
    AddNodes(Graph([], [], map[]), true, tops)
  }

  /** The top graph holds one fresh top node per distinct top path, and no edge. */
  lemma TopGraphShape<B>(tops: seq<Path>)
    ensures var g := TopGraph<B>(tops);
      && MappingValid(g) && g.edges == []
      && (forall p :: p in g.nodeMapping <==> p in tops)
      && (forall i :: 0 <= i < |g.nodes| ==> g.nodes[i] == NewNode(true, g.nodes[i].path))
  {
    var empty: Graph<B> := Graph([], [], map[]);
    AddNodesKeepsMapping(empty, true, tops);
    AddNodesShape(empty, true, tops);
  }

  /** The top nodes satisfy the work invariant, have every edge they need, and none is done. */
  lemma TopGraphInvariant<B>(ctx: Context<B>, tops: seq<Path>, u: set<Path>)
    requires Covers(ctx, tops, u)
    ensures WorkInvariant(ctx, tops, u, TopGraph(tops))
    ensures EdgesComplete(TopGraph<B>(tops), [])
    ensures CountState(TopGraph<B>(tops).nodes, Processed) == 0
    ensures TopGraph<B>(tops).nodes == [] <==> tops == []
  {
    var g := TopGraph<B>(tops);
    TopGraphShape<B>(tops);
    forall i | 0 <= i < |g.nodes|
      ensures g.nodes[i].state == NotProcessed && g.nodes[i].dependsOn == []
      ensures Staged(ctx, g, g.nodes[i])
      ensures g.nodes[i].isTopNode <==> g.nodes[i].path in tops
    {
      assert g.nodes[i] == NewNode(true, g.nodes[i].path);
      assert g.nodes[i].path in g.nodeMapping;
    }
    assert g.nodeMapping.Keys <= u by {
      forall p | p in g.nodeMapping
        ensures p in u
      {
        assert p in tops;
      }
    }
    SubsetCardinality(g.nodeMapping.Keys, u);
    CountUniform(g.nodes, NotProcessed, Processed);
    if tops != [] {
      assert tops[0] in g.nodeMapping;
    }
  }

  // ---- the final pass over the versions ----

  /** The versions of the nodes of `deps`, in order (`sdk_version_of_deps`). */
  function DepVersions<B>(g: Graph<B>, deps: seq<Path>): (r: seq<SdkVersionOut>)
    requires forall d :: d in deps ==> d in g.nodeMapping && g.nodeMapping[d] < |g.nodes|
    ensures |r| == |deps|
    ensures forall k :: 0 <= k < |deps| ==> r[k] == g.nodes[g.nodeMapping[deps[k]]].sdkVersion
  {
    seq(|deps|, k requires 0 <= k < |deps| => g.nodes[g.nodeMapping[deps[k]]].sdkVersion)
  }

  /** Node `j` narrowed by the intersection of its dependencies' versions. */
  function Settle<B>(g: Graph<B>, j: nat): Graph<B>
    requires MappingValid(g) && DepsMapped(g) && j < |g.nodes|
  {
    var node := g.nodes[j];
    g.(nodes := g.nodes[j := node.(sdkVersion := Intersection(node.sdkVersion,
      FoldIntersection(Default(), DepVersions(g, node.dependsOn))))])
  }

  /**
    * `g` differs from `g0` only in its versions, and node `j`'s version is its version in
    * `g0` narrowed by the versions its dependencies have in `g`.
    */
  predicate SettledIn<B>(g0: Graph<B>, g: Graph<B>, j: nat)
    requires MappingValid(g) && DepsMapped(g) && j < |g.nodes| && |g0.nodes| == |g.nodes|
  {
    g.nodes[j].sdkVersion == Intersection(g0.nodes[j].sdkVersion,
      FoldIntersection(Default(), DepVersions(g, g.nodes[j].dependsOn)))
  }

  /** `g` is `g0` with only versions changed. */
  ghost predicate SameButVersions<B>(g0: Graph<B>, g: Graph<B>)
  {
    && g.edges == g0.edges && g.nodeMapping == g0.nodeMapping && |g.nodes| == |g0.nodes|
    && (forall i :: 0 <= i < |g.nodes| ==> g.nodes[i] == g0.nodes[i].(sdkVersion := g.nodes[i].sdkVersion))
  }

  /**
    * The final pass has settled the first `t` nodes of `order` and left the others'
    * versions as they were.
    */
  ghost predicate PropagatedUpTo<B>(g0: Graph<B>, g: Graph<B>, order: seq<nat>, t: nat)
    requires MappingValid(g0) && DepsMapped(g0) && |order| == |g0.nodes|
    requires forall i :: 0 <= i < |order| ==> order[i] < |g0.nodes|
  {
    && t <= |order|
    && SameButVersions(g0, g)
    && MappingValid(g) && DepsMapped(g)
    && (forall i :: t <= i < |order| ==> g.nodes[order[i]].sdkVersion == g0.nodes[order[i]].sdkVersion)
    && (forall i :: 0 <= i < t ==> SettledIn(g0, g, order[i]))
  }

  /** In a topological order, a node's dependencies all come strictly before it. */
  lemma DepBefore<B>(g: Graph<B>, order: seq<nat>, i: nat, d: Path)
    requires EdgesComplete(g, []) && IsTopologicalOrder(|g.nodes|, g.edges, order)
    requires i < |g.nodes| && order[i] < |g.nodes| && d in g.nodes[order[i]].dependsOn && d in g.nodeMapping
    ensures forall i' :: 0 <= i' < |g.nodes| && order[i'] == g.nodeMapping[d] ==> i' < i
  {
    assert g.edges + [] == g.edges;
    var k :| 0 <= k < |g.edges| && g.edges[k] == (g.nodeMapping[d], order[i]);
  }

  /** Only version changes at nodes that are not dependencies leave the dependencies' versions as they were. */
  lemma DepVersionsFramed<B>(g: Graph<B>, g': Graph<B>, deps: seq<Path>)
    requires forall d :: d in deps ==> d in g.nodeMapping && g.nodeMapping[d] < |g.nodes|
    requires g'.nodeMapping == g.nodeMapping && |g'.nodes| == |g.nodes|
    requires forall d :: d in deps ==> g'.nodes[g.nodeMapping[d]].sdkVersion == g.nodes[g.nodeMapping[d]].sdkVersion
    ensures DepVersions(g', deps) == DepVersions(g, deps)
  {
    forall k | 0 <= k < |deps|
      ensures DepVersions(g', deps)[k] == DepVersions(g, deps)[k]
    {
      assert deps[k] in deps;
    }
  }

  /** Settling changes one version and nothing else. */
  lemma SettleFrame<B>(g0: Graph<B>, g: Graph<B>, j: nat)
    requires MappingValid(g) && DepsMapped(g) && j < |g.nodes| && SameButVersions(g0, g)
    ensures var g' := Settle(g, j);
      && SameButVersions(g0, g') && MappingValid(g') && DepsMapped(g')
      && (forall i :: 0 <= i < |g.nodes| && i != j ==> g'.nodes[i] == g.nodes[i])
      && (forall i :: 0 <= i < |g.nodes| ==> g'.nodes[i].dependsOn == g.nodes[i].dependsOn)
  {
    var g' := Settle(g, j);
    forall i | 0 <= i < |g.nodes|
      ensures g'.nodes[i] == g0.nodes[i].(sdkVersion := g'.nodes[i].sdkVersion)
    {
      assert g.nodes[i] == g0.nodes[i].(sdkVersion := g.nodes[i].sdkVersion);
    }
  }

  /** Settling node `order[t]` keeps a node settled earlier in a topological order settled. */
  lemma SettledKept<B>(g0: Graph<B>, g: Graph<B>, order: seq<nat>, t: nat, i: nat)
    requires MappingValid(g0) && EdgesComplete(g0, [])
    requires IsTopologicalOrder(|g0.nodes|, g0.edges, order)
    requires MappingValid(g) && DepsMapped(g) && SameButVersions(g0, g)
    requires i < t < |order| && SettledIn(g0, g, order[i])
    ensures MappingValid(Settle(g, order[t])) && DepsMapped(Settle(g, order[t]))
    ensures SettledIn(g0, Settle(g, order[t]), order[i])
  {
    SettleFrame(g0, g, order[t]);
    var g' := Settle(g, order[t]);
    var deps := g.nodes[order[i]].dependsOn;
    assert g.nodes[order[i]] == g0.nodes[order[i]].(sdkVersion := g.nodes[order[i]].sdkVersion);
    forall d | d in deps
      ensures g.nodeMapping[d] != order[t]
    {
      DepBefore(g0, order, i, d);
    }
    assert g'.nodes[order[i]] == g.nodes[order[i]];
    DepVersionsFramed(g, g', deps);
  }

  /** Settling node `order[t]` after its dependencies leaves it settled. */
  lemma SettledNew<B>(g0: Graph<B>, g: Graph<B>, order: seq<nat>, t: nat)
    requires MappingValid(g0) && EdgesComplete(g0, [])
    requires IsTopologicalOrder(|g0.nodes|, g0.edges, order)
    requires MappingValid(g) && DepsMapped(g) && SameButVersions(g0, g)
    requires t < |order| && g.nodes[order[t]].sdkVersion == g0.nodes[order[t]].sdkVersion
    ensures MappingValid(Settle(g, order[t])) && DepsMapped(Settle(g, order[t]))
    ensures SettledIn(g0, Settle(g, order[t]), order[t])
  {
    SettleFrame(g0, g, order[t]);
    var g' := Settle(g, order[t]);
    var deps := g.nodes[order[t]].dependsOn;
    assert g.nodes[order[t]] == g0.nodes[order[t]].(sdkVersion := g.nodes[order[t]].sdkVersion);
    forall d | d in deps
      ensures g.nodeMapping[d] != order[t]
    {
      DepBefore(g0, order, t, d);
    }
    DepVersionsFramed(g, g', deps);
  }

  /** Settling the next node of a topological order keeps every node settled so far settled. */
  lemma PropagateStep<B>(g0: Graph<B>, g: Graph<B>, order: seq<nat>, t: nat)
    requires MappingValid(g0) && DepsMapped(g0) && EdgesComplete(g0, [])
    requires IsTopologicalOrder(|g0.nodes|, g0.edges, order)
    requires PropagatedUpTo(g0, g, order, t) && t < |order|
    ensures PropagatedUpTo(g0, Settle(g, order[t]), order, t + 1)
  {
    var g' := Settle(g, order[t]);
    SettleFrame(g0, g, order[t]);
    forall i | 0 <= i < t
      ensures SettledIn(g0, g', order[i])
    {
      SettledKept(g0, g, order, t, i);
    }
    SettledNew(g0, g, order, t);
    forall i | t + 1 <= i < |order|
      ensures g'.nodes[order[i]].sdkVersion == g0.nodes[order[i]].sdkVersion
    {
      assert order[i] != order[t];
    }
  }

  /** Settling every node of a topological order settles every node. */
  lemma PropagatedAll<B>(g0: Graph<B>, g: Graph<B>, order: seq<nat>)
    requires MappingValid(g0) && DepsMapped(g0) && IsTopologicalOrder(|g0.nodes|, g0.edges, order)
    requires PropagatedUpTo(g0, g, order, |order|)
    ensures forall j :: 0 <= j < |g.nodes| ==> SettledIn(g0, g, j)
  {
    forall j | 0 <= j < |g.nodes|
      ensures SettledIn(g0, g, j)
    {
      assert j in order;
      var i :| 0 <= i < |order| && order[i] == j;
    }
  }

  // ---- the outcome ----

  /** A node whose file has been read, parsed and searched, and whose own version is resolved. */
  predicate Complete<B(==)>(ctx: Context<B>, node: DependencyGraphNode<B>)
  {
    && node.state == Processed && node.path in ctx.resources && node.block.Some?
    && ctx.resources[node.path] == node.block
    && ctx.collect(node.path, node.block.value) == Ok(node.dependsOn)
  }

  /**
    * The graph `compute_dependency_graph` leaves when it succeeds: one node per top path
    * and per dependency of a node, each complete; an edge exactly for each dependency; no
    * cycle; and each node's version is its own resolved version narrowed by the final
    * versions of all its dependencies.
    */
  ghost predicate Final<B>(ctx: Context<B>, tops: seq<Path>, g: Graph<B>)
  {
    && MappingValid(g) && DepsMapped(g)
    && (forall t :: t in tops ==> t in g.nodeMapping)
    && (forall i :: 0 <= i < |g.nodes| ==> (g.nodes[i].isTopNode <==> g.nodes[i].path in tops))
    && (forall i :: 0 <= i < |g.nodes| ==> Complete(ctx, g.nodes[i]))
    && EdgesSound(g) && EdgesComplete(g, [])
    && Toposort.Toposort(|g.nodes|, g.edges).Some?
    && (forall j :: 0 <= j < |g.nodes| ==>
          g.nodes[j].sdkVersion == Intersection(ctx.resolve(g.nodes[j].block.value),
            FoldIntersection(Default(), DepVersions(g, g.nodes[j].dependsOn))))
  }

  /**
    * Settling every node of a completed work graph along its topological order gives
    * the final graph.
    */
  lemma PropagatedIsFinal<B>(ctx: Context<B>, tops: seq<Path>, u: set<Path>, g0: Graph<B>, g: Graph<B>)
    requires WorkInvariant(ctx, tops, u, g0) && EdgesComplete(g0, [])
    requires forall i :: 0 <= i < |g0.nodes| ==> g0.nodes[i].state == Processed
    requires Toposort.Toposort(|g0.nodes|, g0.edges).Some?
    requires var order := Toposort.Toposort(|g0.nodes|, g0.edges).value;
      IsTopologicalOrder(|g0.nodes|, g0.edges, order) && DepsMapped(g0) &&
      PropagatedUpTo(g0, g, order, |order|)
    ensures Final(ctx, tops, g)
  {
    var order := Toposort.Toposort(|g0.nodes|, g0.edges).value;
    PropagatedAll(g0, g, order);
    forall i | 0 <= i < |g.nodes|
      ensures Complete(ctx, g.nodes[i])
      ensures g.nodes[i].isTopNode <==> g.nodes[i].path in tops
      ensures g.nodes[i].sdkVersion == Intersection(ctx.resolve(g.nodes[i].block.value),
            FoldIntersection(Default(), DepVersions(g, g.nodes[i].dependsOn)))
    {
      assert Staged(ctx, g0, g0.nodes[i]);
      assert g.nodes[i] == g0.nodes[i].(sdkVersion := g.nodes[i].sdkVersion);
      assert SettledIn(g0, g, i);
    }
    forall k | 0 <= k < |g.edges|
      ensures DependencyEdge(g, g.edges[k])
    {
      assert DependencyEdge(g0, g0.edges[k]);
    }
  }

  /** In the final graph a node's version admits exactly what its own version and all its dependencies' versions admit. */
  lemma FinalContains<B>(ctx: Context<B>, tops: seq<Path>, g: Graph<B>, j: nat, v: nat)
    requires Final(ctx, tops, g) && j < |g.nodes|
    ensures Contains(g.nodes[j].sdkVersion, v) <==>
      && Contains(ctx.resolve(g.nodes[j].block.value), v)
      && forall d :: d in g.nodes[j].dependsOn ==> Contains(g.nodes[g.nodeMapping[d]].sdkVersion, v)
  {
    var deps := g.nodes[j].dependsOn;
    var vs := DepVersions(g, deps);
    FoldIntersectionContains(Default(), vs, v);
    if forall k :: 0 <= k < |vs| ==> Contains(vs[k], v) {
      forall d | d in deps
        ensures Contains(g.nodes[g.nodeMapping[d]].sdkVersion, v)
      {
        var k :| 0 <= k < |deps| && deps[k] == d;
        assert Contains(vs[k], v);
      }
    }
    if forall d :: d in deps ==> Contains(g.nodes[g.nodeMapping[d]].sdkVersion, v) {
      forall k | 0 <= k < |vs|
        ensures Contains(vs[k], v)
      {
        assert deps[k] in deps;
      }
    }
  }

  /** In the final graph a module is at least as strict as its own code and as each module it requires. */
  lemma FinalBounds<B>(ctx: Context<B>, tops: seq<Path>, g: Graph<B>, j: nat)
    requires Final(ctx, tops, g) && j < |g.nodes|
    ensures AtLeastAsStrict(g.nodes[j].sdkVersion, ctx.resolve(g.nodes[j].block.value))
    ensures forall d :: d in g.nodes[j].dependsOn ==> AtLeastAsStrict(g.nodes[j].sdkVersion, g.nodes[g.nodeMapping[d]].sdkVersion)
  {
    var deps := g.nodes[j].dependsOn;
    var vs := DepVersions(g, deps);
    FoldIntersectionBound(Default(), vs);
    forall d | d in deps
      ensures AtLeastAsStrict(g.nodes[j].sdkVersion, g.nodes[g.nodeMapping[d]].sdkVersion)
    {
      var k :| 0 <= k < |deps| && deps[k] == d;
      assert AtLeastAsStrict(FoldIntersection(Default(), vs), vs[k]);
    }
  }

  /**
    * Two final graphs that differ at most in their versions are equal: the versions do
    * not depend on which topological order the final pass follows.
    */
  lemma FinalUnique<B>(ctx: Context<B>, tops: seq<Path>, g1: Graph<B>, g2: Graph<B>)
    requires Final(ctx, tops, g1) && Final(ctx, tops, g2) && SameButVersions(g1, g2)
    ensures g1 == g2
  {
    var n := |g1.nodes|;
    var order := Toposort.Toposort(n, g1.edges).value;
    ToposortCorrect(n, g1.edges);
    FinalUniquePrefix(ctx, tops, g1, g2, order, n);
    forall j | 0 <= j < n
      ensures g1.nodes[j] == g2.nodes[j]
    {
      assert j in order;
      assert g2.nodes[j] == g1.nodes[j].(sdkVersion := g2.nodes[j].sdkVersion);
    }
    assert g1.nodes == g2.nodes;
  }

  /** The versions of two final graphs agree on every prefix of a topological order. */
  lemma {:induction false} FinalUniquePrefix<B>(ctx: Context<B>, tops: seq<Path>, g1: Graph<B>, g2: Graph<B>, order: seq<nat>, t: nat)
    requires Final(ctx, tops, g1) && Final(ctx, tops, g2) && SameButVersions(g1, g2)
    requires IsTopologicalOrder(|g1.nodes|, g1.edges, order) && t <= |order|
    ensures forall i :: 0 <= i < t ==> g1.nodes[order[i]].sdkVersion == g2.nodes[order[i]].sdkVersion
  {
    if t > 0 {
      FinalUniquePrefix(ctx, tops, g1, g2, order, t - 1);
      var j := order[t - 1];
      var deps := g1.nodes[j].dependsOn;
      assert g2.nodes[j] == g1.nodes[j].(sdkVersion := g2.nodes[j].sdkVersion);
      forall d | d in deps
        ensures g2.nodes[g1.nodeMapping[d]].sdkVersion == g1.nodes[g1.nodeMapping[d]].sdkVersion
      {
        DepBefore(g1, order, t - 1, d);
        var m := g1.nodeMapping[d];
        assert m in order;
        var i :| 0 <= i < |order| && order[i] == m;
      }
      DepVersionsFramed(g1, g2, deps);
    }
  }

  /** `get_versions`: the version of each top node, by path. */
  function TopVersions<B>(g: Graph<B>): (r: map<Path, SdkVersionOut>)
    requires MappingValid(g)
    ensures forall p :: p in r <==> p in g.nodeMapping && g.nodes[g.nodeMapping[p]].isTopNode
  {
    map p | p in g.nodeMapping && g.nodes[g.nodeMapping[p]].isTopNode :: g.nodes[g.nodeMapping[p]].sdkVersion
  }

  /** After a successful run, `get_versions` holds exactly the top paths, each with its node's final version. */
  lemma FinalTopVersions<B>(ctx: Context<B>, tops: seq<Path>, g: Graph<B>)
    requires Final(ctx, tops, g)
    ensures forall p :: p in TopVersions(g) <==> p in tops
    ensures forall p :: p in TopVersions(g) ==> TopVersions(g)[p] == g.nodes[g.nodeMapping[p]].sdkVersion
  {
  }

  /** Under the work invariant every dependency of every node has a node. */
  lemma WorkInvariantDepsMapped<B>(ctx: Context<B>, tops: seq<Path>, u: set<Path>, g: Graph<B>)
    requires WorkInvariant(ctx, tops, u, g)
    ensures DepsMapped(g)
  {
    forall i, d | 0 <= i < |g.nodes| && d in g.nodes[i].dependsOn
      ensures d in g.nodeMapping
    {
      assert Staged(ctx, g, g.nodes[i]);
    }
  }

  /** The graph without nodes is final when there are no top paths. */
  lemma EmptyFinal<B>(ctx: Context<B>, g: Graph<B>)
    requires g.nodes == [] && g.edges == [] && MappingValid(g)
    ensures Final(ctx, [], g)
  {
    assert Toposort.Toposort(0, []) == Some([]);
  }

  /** Every node listed and every one Processed: the Processed count is the number of nodes. */
  lemma AllVisitedDone<B>(g: Graph<B>, order: seq<nat>)
    requires forall v :: 0 <= v < |g.nodes| ==> v in order
    requires forall t :: 0 <= t < |order| ==> order[t] < |g.nodes| && g.nodes[order[t]].state == Processed
    ensures CountState(g.nodes, Processed) == |g.nodes|
  {
    forall v | 0 <= v < |g.nodes|
      ensures g.nodes[v].state == Processed
    {
      assert v in order;
      var t :| 0 <= t < |order| && order[t] == v;
    }
    CountAll(g.nodes, Processed);
  }
}
