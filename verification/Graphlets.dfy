// graph_build_graphlets: read a graph, layer it, pack the layers, and make one
// pruned clone per graphlet; undo everything when any driver call fails.
module Graphlets {
  import opened Dag
  import opened Layering
  import opened Packing
  import opened Splitting
  import opened CudaGraphs

  datatype Graphlet = Graphlet(graph: Handle, exec: Handle, group: Group)

  datatype Flags = Flags(upload: bool, deviceLaunch: bool, other: nat)

  datatype Reason =
    | WholeMode | MissingDriverApi | EmptyOrUnreadable | DeviceLaunch | AllocationFailure
    | NodeQueryFailure | UnsupportedNode | EdgeQueryFailure | ForeignEdgeFound | CyclicOrInvalidDag
    | CloneFailure | CloneMappingFailure | ClonePruneFailure | GraphletInstantiateFailure
    | Updated

  datatype BuildResult =
    | Split(graphlets: seq<Graphlet>, nodeCount: nat, edgeCount: nat)
    | Fallback(reason: Reason, nodeCount: nat, edgeCount: nat)

  // graph_node_supported
  predicate NodeSupported(n: Node) {
    n.kind == Kernel || n.kind == Memcpy || n.kind == Memset || n.kind == Empty
  }

  // ----- what a finished split is -----

  ghost function GroupsOf(graphlets: seq<Graphlet>): (groups: seq<Group>)
    ensures |groups| == |graphlets|
    ensures forall k :: 0 <= k < |graphlets| ==> groups[k] == graphlets[k].group
  {
    if graphlets == [] then [] else GroupsOf(graphlets[..|graphlets| - 1]) + [graphlets[|graphlets| - 1].group]
  }

  ghost predicate SplitBy(content: Graph, layer: LayerMap, graphlets: seq<Graphlet>, execs: map<Handle, Graph>) {
    && Layered(content, layer)
    && (forall n :: n in content.nodes ==> NodeSupported(n))
    && Adjacent(GroupsOf(graphlets))
    && (forall n :: n in content.nodes ==> layer[n] < Covered(GroupsOf(graphlets), |graphlets|))
    && AllRun(execs, graphlets, content, layer)
  }

  ghost predicate AllRun(execs: map<Handle, Graph>, graphlets: seq<Graphlet>, content: Graph, layer: LayerMap)
    requires layer.Keys == content.nodes
  {
    forall k :: 0 <= k < |graphlets| ==> Runs(execs, graphlets[k], content, layer)
  }

  ghost predicate Runs(execs: map<Handle, Graph>, graphlet: Graphlet, content: Graph, layer: LayerMap)
    requires layer.Keys == content.nodes
  {
    graphlet.exec in execs && execs[graphlet.exec] == Piece(content, layer, graphlet.group)
  }

  // The graphlets together stand for `content`.
  ghost predicate SplitOf(content: Graph, graphlets: seq<Graphlet>, execs: map<Handle, Graph>) {
    exists layer :: SplitBy(content, layer, graphlets, execs)
  }

  // The executables of the first n graphlets, in index order.
  ghost function ExecList(graphlets: seq<Graphlet>, n: nat): (execs: seq<Handle>)
    requires n <= |graphlets|
    ensures |execs| == n && forall i :: 0 <= i < n ==> execs[i] == graphlets[i].exec
  {
    if n == 0 then [] else ExecList(graphlets, n - 1) + [graphlets[n - 1].exec]
  }

  // ----- the driver objects a list of graphlets owns -----

  ghost function ExecHandles(graphlets: seq<Graphlet>): set<Handle> {
    if graphlets == [] then {} else ExecHandles(graphlets[..|graphlets| - 1]) + ExecOf(graphlets[|graphlets| - 1])
  }

  ghost function ExecOf(g: Graphlet): set<Handle> {
    if g.exec == NULL then {} else {g.exec}
  }

  ghost function GraphHandles(graphlets: seq<Graphlet>): set<Handle> {
    if graphlets == [] then {} else GraphHandles(graphlets[..|graphlets| - 1]) + GraphOwned(graphlets[|graphlets| - 1])
  }

  ghost function GraphOwned(g: Graphlet): set<Handle> {
    if g.graph == NULL then {} else {g.graph}
  }

  lemma {:induction false} ExecInHandles(graphlets: seq<Graphlet>, k: nat)
    requires k < |graphlets| && graphlets[k].exec != NULL
    ensures graphlets[k].exec in ExecHandles(graphlets)
  {
    if k < |graphlets| - 1 { ExecInHandles(graphlets[..|graphlets| - 1], k); }
  }

  // graph_destroy_graphlets
  method DestroyGraphlets(driver: Driver, graphlets: seq<Graphlet>)
    requires driver.Valid()
    modifies driver`graphs, driver`execs
    ensures driver.Valid()
    ensures driver.execs == old(driver.execs) - ExecHandles(graphlets)
    ensures driver.graphs == old(driver.graphs) - GraphHandles(graphlets)
  {
    for i := 0 to |graphlets|
      invariant driver.Valid()
      invariant driver.execs == old(driver.execs) - ExecHandles(graphlets[..i])
      invariant driver.graphs == old(driver.graphs) - GraphHandles(graphlets[..i])
    {
      assert graphlets[..i + 1][..i] == graphlets[..i];
      if graphlets[i].exec != NULL {
        driver.DestroyExec(graphlets[i].exec);
      }
      if graphlets[i].graph != NULL {
        driver.DestroyGraph(graphlets[i].graph);
      }
    }
    assert graphlets[..|graphlets|] == graphlets;
  }

  // ----- one graphlet -----

  predicate Outside(layers: seq<nat>, group: Group, i: nat)
    requires i < |layers|
  {
    layers[i] < group.first || layers[i] > group.last
  }

  // What is left of `all` once the outside nodes among the first i are destroyed.
  ghost function Kept(all: set<Node>, nodes: seq<Node>, layers: seq<nat>, group: Group, i: nat): set<Node>
    requires i <= |nodes| == |layers|
  {
    if i == 0 then all
    else if Outside(layers, group, i - 1) then Kept(all, nodes, layers, group, i - 1) - {nodes[i - 1]}
    else Kept(all, nodes, layers, group, i - 1)
  }

  lemma {:induction false} InKept(all: set<Node>, nodes: seq<Node>, layers: seq<nat>, group: Group, i: nat, n: Node)
    requires i <= |nodes| == |layers|
    ensures n in Kept(all, nodes, layers, group, i)
       <==> n in all && !exists k :: 0 <= k < i && nodes[k] == n && Outside(layers, group, k)
  {
    if i > 0 { InKept(all, nodes, layers, group, i - 1, n); }
  }

  lemma KeptIsInLayers(g: Graph, nodes: seq<Node>, layers: seq<nat>, group: Group)
    requires NoRepeats(nodes) && |layers| == |nodes| && Elements(nodes) == g.nodes
    ensures Kept(g.nodes, nodes, layers, group, |nodes|) ==
      InLayers(g, LayerMapOf(nodes, layers), group.first, group.last)
  {
    var layer := LayerMapOf(nodes, layers);
    forall n
      ensures n in Kept(g.nodes, nodes, layers, group, |nodes|) <==> n in InLayers(g, layer, group.first, group.last)
    {
      KeptIfInLayers(g, nodes, layers, group, n);
    }
  }

  lemma KeptIfInLayers(g: Graph, nodes: seq<Node>, layers: seq<nat>, group: Group, n: Node)
    requires NoRepeats(nodes) && |layers| == |nodes| && Elements(nodes) == g.nodes
    ensures n in Kept(g.nodes, nodes, layers, group, |nodes|) <==>
      n in InLayers(g, LayerMapOf(nodes, layers), group.first, group.last)
  {
    InKept(g.nodes, nodes, layers, group, |nodes|, n);
    if n in g.nodes {
      assert n in nodes;
      var i :| 0 <= i < |nodes| && nodes[i] == n;
      assert LayerMapOf(nodes, layers)[n] == layers[i];
    }
  }

  lemma RestrictTwice(g: Graph, a: set<Node>, n: Node)
    requires a <= g.nodes
    ensures Restrict(Restrict(g, a), Restrict(g, a).nodes - {n}) == Restrict(g, a - {n})
  {
    assert Restrict(g, a).nodes == a;
  }

  // Destroy the cloned nodes that belong to other graphlets.
  method Prune(driver: Driver, clone: Handle, nodes: seq<Node>, layers: seq<nat>, group: Group) returns (ok: bool)
    requires driver.Valid() && clone in driver.graphs
    requires NoRepeats(nodes) && |layers| == |nodes| && Elements(nodes) == driver.graphs[clone].nodes
    modifies driver`graphs
    ensures driver.Valid()
    ensures clone in driver.graphs && driver.graphs - {clone} == old(driver.graphs) - {clone}
    ensures ok ==> driver.graphs[clone] == Piece(old(driver.graphs)[clone], LayerMapOf(nodes, layers), group)
    ensures driver.reliable ==> ok
  {
    ghost var g := driver.graphs[clone];
    assert Restrict(g, g.nodes) == g;
    for i := 0 to |nodes|
      invariant driver.Valid()
      invariant clone in driver.graphs && driver.graphs - {clone} == old(driver.graphs) - {clone}
      invariant Kept(g.nodes, nodes, layers, group, i) <= g.nodes
      invariant driver.graphs[clone] == Restrict(g, Kept(g.nodes, nodes, layers, group, i))
    {
      if Outside(layers, group, i) {
        InKept(g.nodes, nodes, layers, group, i, nodes[i]);
        assert nodes[i] in Elements(nodes);
        RestrictTwice(g, Kept(g.nodes, nodes, layers, group, i), nodes[i]);
        ok := driver.DestroyNode(clone, nodes[i]);
        if !ok {
          return;
        }
      }
    }
    KeptIsInLayers(g, nodes, layers, group);
    return true;
  }

  datatype Outcome = Done | Failed(reason: Reason)

  // Clone, prune and instantiate one graphlet. Whatever it created, even on a
  // failure, is recorded in the graphlet.
  method BuildPiece(driver: Driver, graph: Handle, nodes: seq<Node>, layers: seq<nat>, group: Group)
    returns (outcome: Outcome, graphlet: Graphlet)
    requires driver.Valid() && graph in driver.graphs
    requires NoRepeats(nodes) && |layers| == |nodes| && Elements(nodes) == driver.graphs[graph].nodes
    modifies driver`graphs, driver`execs, driver`next
    ensures driver.Valid() && driver.next >= old(driver.next) && graphlet.group == group
    ensures forall h :: h in ExecOf(graphlet) ==> old(driver.next) <= h && h in driver.execs
    ensures forall h :: h in GraphOwned(graphlet) ==> old(driver.next) <= h && h in driver.graphs
    ensures driver.execs - ExecOf(graphlet) == old(driver.execs)
    ensures driver.graphs - GraphOwned(graphlet) == old(driver.graphs)
    ensures outcome.Failed? ==> !driver.reliable && outcome.reason != CyclicOrInvalidDag
    ensures outcome.Done? ==>
      Runs(driver.execs, graphlet, old(driver.graphs)[graph], LayerMapOf(nodes, layers))
  {
    ghost var content, before := driver.graphs[graph], driver.graphs;
    graphlet := Graphlet(NULL, NULL, group);
    var ok, clone := driver.CloneGraph(graph);
    if !ok {
      return Failed(CloneFailure), graphlet;
    }
    graphlet := graphlet.(graph := clone);
    assert clone !in before && driver.graphs - {clone} == before;
    var gotArray := driver.Succeeds();
    if !gotArray {
      return Failed(AllocationFailure), graphlet;
    }
    var mapped := driver.Succeeds();
    if !mapped {
      return Failed(CloneMappingFailure), graphlet;
    }
    ok := Prune(driver, clone, nodes, layers, group);
    if !ok {
      return Failed(ClonePruneFailure), graphlet;
    }
    var exec;
    ok, exec := driver.Instantiate(clone);
    if !ok {
      return Failed(GraphletInstantiateFailure), graphlet;
    }
    assert exec !in old(driver.execs);
    return Done, graphlet.(exec := exec);
  }

  // ----- all graphlets -----

  // What BuildPieces has created for the first |graphlets| groups.
  ghost predicate Built(execs0: map<Handle, Graph>, graphs0: map<Handle, Graph>, execs: map<Handle, Graph>,
                        graphs: map<Handle, Graph>, graphlets: seq<Graphlet>, fresh0: Handle)
  {
    && execs - ExecHandles(graphlets) == execs0
    && graphs - GraphHandles(graphlets) == graphs0
    && (forall h :: h in ExecHandles(graphlets) ==> fresh0 <= h && h in execs)
    && (forall h :: h in GraphHandles(graphlets) ==> fresh0 <= h && h in graphs)
  }

  lemma BuiltStep(execs0: map<Handle, Graph>, graphs0: map<Handle, Graph>, execs1: map<Handle, Graph>,
                  graphs1: map<Handle, Graph>, execs: map<Handle, Graph>, graphs: map<Handle, Graph>,
                  graphlets: seq<Graphlet>, g: Graphlet, fresh0: Handle)
    requires Built(execs0, graphs0, execs1, graphs1, graphlets, fresh0)
    requires execs - ExecOf(g) == execs1 && graphs - GraphOwned(g) == graphs1
    requires forall h :: h in ExecOf(g) ==> fresh0 <= h && h in execs
    requires forall h :: h in GraphOwned(g) ==> fresh0 <= h && h in graphs
    ensures Built(execs0, graphs0, execs, graphs, graphlets + [g], fresh0)
  {
    var all := graphlets + [g];
    assert all[..|all| - 1] == graphlets && all[|all| - 1] == g;
    assert ExecHandles(all) == ExecHandles(graphlets) + ExecOf(g);
    assert GraphHandles(all) == GraphHandles(graphlets) + GraphOwned(g);
    assert forall h :: h in execs1 ==> h in execs - ExecOf(g);
    assert forall h :: h in graphs1 ==> h in graphs - GraphOwned(g);
    MinusTwice(execs, ExecHandles(graphlets), ExecOf(g));
    MinusTwice(graphs, GraphHandles(graphlets), GraphOwned(g));
    assert execs - ExecHandles(all) == execs0;
    assert graphs - GraphHandles(all) == graphs0;
  }

  lemma MinusTwice(m: map<Handle, Graph>, a: set<Handle>, b: set<Handle>)
    ensures m - (a + b) == m - b - a
  {
  }

  lemma GroupsOfStep(graphlets: seq<Graphlet>, g: Graphlet)
    ensures GroupsOf(graphlets + [g]) == GroupsOf(graphlets) + [g.group]
  {
    assert (graphlets + [g])[..|graphlets|] == graphlets;
  }

  lemma AllRunStep(execs1: map<Handle, Graph>, execs: map<Handle, Graph>, graphlets: seq<Graphlet>, g: Graphlet,
                   content: Graph, layer: LayerMap)
    requires layer.Keys == content.nodes && execs - ExecOf(g) == execs1
    requires AllRun(execs1, graphlets, content, layer) && Runs(execs, g, content, layer)
    ensures AllRun(execs, graphlets + [g], content, layer)
  {
    forall k | 0 <= k < |graphlets|
      ensures Runs(execs, graphlets[k], content, layer)
    {
      assert Runs(execs1, graphlets[k], content, layer);
      assert graphlets[k].exec in execs - ExecOf(g);
    }
  }

  // One clone per group; if any call fails, every object made so far is destroyed.
  method BuildPieces(driver: Driver, graph: Handle, nodes: seq<Node>, layers: seq<nat>, groups: seq<Group>)
    returns (outcome: Outcome, graphlets: seq<Graphlet>)
    requires driver.Valid() && graph in driver.graphs
    requires NoRepeats(nodes) && |layers| == |nodes| && Elements(nodes) == driver.graphs[graph].nodes
    modifies driver`graphs, driver`execs, driver`next
    ensures driver.Valid() && driver.next >= old(driver.next)
    ensures outcome.Failed? ==> !driver.reliable && outcome.reason != CyclicOrInvalidDag
    ensures outcome.Failed? ==> driver.execs == old(driver.execs) && driver.graphs == old(driver.graphs)
    ensures outcome.Done? ==>
      && GroupsOf(graphlets) == groups
      && Built(old(driver.execs), old(driver.graphs), driver.execs, driver.graphs, graphlets, old(driver.next))
      && LayerMapOf(nodes, layers).Keys == old(driver.graphs)[graph].nodes
      && AllRun(driver.execs, graphlets, old(driver.graphs)[graph], LayerMapOf(nodes, layers))
  {
    ghost var content := driver.graphs[graph];
    ghost var layer := LayerMapOf(nodes, layers);
    LayerMapKeys(nodes, layers);
    graphlets := [];
    for group := 0 to |groups|
      invariant driver.Valid() && driver.next >= old(driver.next)
      invariant GroupsOf(graphlets) == groups[..group]
      invariant Built(old(driver.execs), old(driver.graphs), driver.execs, driver.graphs, graphlets, old(driver.next))
      invariant AllRun(driver.execs, graphlets, content, layer)
      invariant graph in driver.graphs && driver.graphs[graph] == content
    {
      ghost var execs1, graphs1 := driver.execs, driver.graphs;
      var graphlet;
      outcome, graphlet := BuildPiece(driver, graph, nodes, layers, groups[group]);
      BuiltStep(old(driver.execs), old(driver.graphs), execs1, graphs1, driver.execs, driver.graphs, graphlets,
                graphlet, old(driver.next));
      GroupsOfStep(graphlets, graphlet);
      if outcome.Failed? {
        DestroyGraphlets(driver, graphlets + [graphlet]);
        return outcome, [];
      }
      assert graph in graphs1 && graph in driver.graphs - GraphOwned(graphlet);
      AllRunStep(execs1, driver.execs, graphlets, graphlet, content, layer);
      graphlets := graphlets + [graphlet];
    }
    assert groups[..|groups|] == groups;
    return Done, graphlets;
  }

  // ----- the whole of graph_build_graphlets -----

  // As few graphlets as any division into layer ranges that obeys the limit.
  ghost predicate BestSplit(content: Graph, graphlets: seq<Graphlet>, limit: nat) {
    exists layer, sizes ::
      && Layered(content, layer) && SizesOf(content, layer, sizes)
      && Divides(sizes, GroupsOf(graphlets), |sizes|) && WithinLimit(GroupsOf(graphlets), limit)
      && (forall other :: Divides(sizes, other, |sizes|) && WithinLimit(other, limit) ==> |graphlets| <= |other|)
  }

  ghost predicate Unsplittable(content: Graph) {
    content.nodes == {} || HasCycle(content) || exists n :: n in content.nodes && !NodeSupported(n)
  }

  // Why a graph is launched whole when every driver call works.
  ghost function WhyWhole(content: Graph, flags: Flags, symbols: bool): Reason {
    if !symbols then MissingDriverApi
    else if content.nodes == {} then EmptyOrUnreadable
    else if flags.deviceLaunch then DeviceLaunch
    else if exists n :: n in content.nodes && !NodeSupported(n) then UnsupportedNode
    else CyclicOrInvalidDag
  }

  // Split only what can be split, and as well as can be; fall back for the right
  // reason, and never when nothing failed and the graph can be split.
  ghost predicate RightAnswer(r: BuildResult, content: Graph, flags: Flags, limit: nat, symbols: bool, reliable: bool) {
    match r
    case Split(graphlets, nodeCount, _) =>
      CanBeSplit(content, flags, symbols) && BestSplit(content, graphlets, limit) && nodeCount == |content.nodes|
    case Fallback(reason, _, _) =>
      && (reason == CyclicOrInvalidDag ==> HasCycle(content))
      && (reliable ==> reason == WhyWhole(content, flags, symbols))
      && (reliable ==> !CanBeSplit(content, flags, symbols))
  }

  ghost predicate CanBeSplit(content: Graph, flags: Flags, symbols: bool) {
    symbols && !flags.deviceLaunch && !Unsplittable(content)
  }

  // What greedy packing of layered nodes gives.
  lemma PackedWell(content: Graph, nodes: seq<Node>, layers: seq<nat>, count: nat, limit: nat, graphlets: seq<Graphlet>)
    requires NoRepeats(nodes) && |layers| == |nodes| && Elements(nodes) == content.nodes
    requires Layered(content, LayerMapOf(nodes, layers))
    requires (forall i :: 0 <= i < |nodes| ==> layers[i] < count) && (forall l :: 0 <= l < count ==> l in layers)
    requires count > 0 && GroupsOf(graphlets) == Groups(Sizes(layers, count), limit)
    ensures BestSplit(content, graphlets, limit) && Adjacent(GroupsOf(graphlets))
    ensures forall n :: n in content.nodes ==> LayerMapOf(nodes, layers)[n] < Covered(GroupsOf(graphlets), |graphlets|)
  {
    var layer, sizes, groups := LayerMapOf(nodes, layers), Sizes(layers, count), GroupsOf(graphlets);
    SizesPositive(layers, count);
    GroupsAreGreedy(sizes, limit);
    SizesAreOf(content, nodes, layers, count);
    DividesIsAdjacent(sizes, groups);
    ShowBest(content, layer, sizes, graphlets, limit);
  }

  lemma FoundIsBest(content: Graph, nodes: seq<Node>, from: seq<Node>, to: seq<Node>, layers: seq<nat>, count: nat,
                    limit: nat, graphlets: seq<Graphlet>, execs: map<Handle, Graph>)
    requires |from| == |to| && NoRepeats(nodes) && nodes != []
    requires content == GraphOf(nodes, from, to) && LayersFound(nodes, from, to, layers, count)
    requires forall n :: n in nodes ==> NodeSupported(n)
    requires count > 0 && GroupsOf(graphlets) == Groups(Sizes(layers, count), limit)
    requires LayerMapOf(nodes, layers).Keys == content.nodes
    requires AllRun(execs, graphlets, content, LayerMapOf(nodes, layers))
    ensures SplitOf(content, graphlets, execs) && BestSplit(content, graphlets, limit) && !Unsplittable(content)
    ensures |nodes| == |content.nodes|
  {
    ListedOnce(nodes);
    var layer := LayerMapOf(nodes, layers);
    PackedWell(content, nodes, layers, count, limit, graphlets);
    CanSplit(content, nodes, layer);
    assert SplitBy(content, layer, graphlets, execs);
  }

  lemma CanSplit(content: Graph, nodes: seq<Node>, layer: LayerMap)
    requires content.nodes == Elements(nodes) && nodes != [] && Layered(content, layer)
    requires forall n :: n in nodes ==> NodeSupported(n)
    ensures !Unsplittable(content)
    ensures forall n :: n in content.nodes ==> NodeSupported(n)
  {
    LayeredIsAcyclic(content, layer);
    assert nodes[0] in content.nodes;
    assert forall n :: n in content.nodes ==> n in nodes;
  }

  lemma ShowBest(content: Graph, layer: LayerMap, sizes: seq<nat>, graphlets: seq<Graphlet>, limit: nat)
    requires Layered(content, layer) && SizesOf(content, layer, sizes)
    requires Divides(sizes, GroupsOf(graphlets), |sizes|) && WithinLimit(GroupsOf(graphlets), limit)
    requires Greedy(sizes, GroupsOf(graphlets), limit)
    ensures BestSplit(content, graphlets, limit)
  {
    GreedyBeatsAll(sizes, GroupsOf(graphlets), limit);
  }

  lemma GreedyBeatsAll(sizes: seq<nat>, groups: seq<Group>, limit: nat)
    requires Divides(sizes, groups, |sizes|) && Greedy(sizes, groups, limit)
    ensures forall other :: Divides(sizes, other, |sizes|) && WithinLimit(other, limit) ==> |groups| <= |other|
  {
    forall other | Divides(sizes, other, |sizes|) && WithinLimit(other, limit)
      ensures |groups| <= |other|
    {
      GreedyIsOptimal(sizes, groups, other, limit);
    }
  }

  // What may stand in the way of a split, and the name each obstacle goes by.
  lemma Obstacles(r: BuildResult, content: Graph, flags: Flags, limit: nat, symbols: bool, reliable: bool)
    requires RightAnswer(r, content, flags, limit, symbols, reliable)
    ensures r.Split? ==> symbols && !flags.deviceLaunch && content.nodes != {} && !HasCycle(content)
    ensures r.Split? ==> forall n :: n in content.nodes ==> n.kind in {Kernel, Memcpy, Memset, Empty}
    ensures reliable && r.Fallback? ==>
      match r.reason
      case MissingDriverApi => !symbols
      case EmptyOrUnreadable => content.nodes == {}
      case DeviceLaunch => flags.deviceLaunch
      case UnsupportedNode => exists n :: n in content.nodes && n.kind in {Host, ChildGraph, OtherKind}
      case CyclicOrInvalidDag => HasCycle(content)
      case _ => false
  {
  }

  // graph_build_graphlets
  method BuildGraphlets(driver: Driver, graph: Handle, flags: Flags, limit: nat, symbols: bool) returns (r: BuildResult)
    requires driver.Valid() && graph in driver.graphs
    modifies driver`graphs, driver`execs, driver`next
    ensures driver.Valid() && driver.next >= old(driver.next)
    ensures r.Fallback? ==> driver.execs == old(driver.execs) && driver.graphs == old(driver.graphs)
    ensures RightAnswer(r, old(driver.graphs)[graph], flags, limit, symbols, driver.reliable)
    ensures r.Split? ==>
      && SplitOf(old(driver.graphs)[graph], r.graphlets, driver.execs)
      && Built(old(driver.execs), old(driver.graphs), driver.execs, driver.graphs, r.graphlets, old(driver.next))
  {
    ghost var content := driver.graphs[graph];
    assert content == old(driver.graphs)[graph];
    if !symbols {
      return Fallback(MissingDriverApi, 0, 0);
    }
    var ok, nodes := driver.GetNodes(graph);
    if !ok || nodes == [] {
      return Fallback(EmptyOrUnreadable, 0, 0);
    }
    var nodeCount := |nodes|;
    assert nodes[0] in content.nodes;
    if flags.deviceLaunch {
      return Fallback(DeviceLaunch, nodeCount, 0);
    }
    var gotArrays := driver.Succeeds();
    if !gotArrays {
      return Fallback(AllocationFailure, nodeCount, 0);
    }
    var requeried := driver.Succeeds();
    if !requeried {
      return Fallback(NodeQueryFailure, nodeCount, 0);
    }
    var typesRead := driver.Succeeds();
    assert forall i :: 0 <= i < |nodes| ==> nodes[i] in Elements(nodes);
    if !typesRead || exists i :: 0 <= i < |nodes| && !NodeSupported(nodes[i]) {
      return Fallback(UnsupportedNode, nodeCount, 0);
    }
    var from, to;
    ok, from, to := driver.GetEdges(graph);
    if !ok {
      return Fallback(EdgeQueryFailure, nodeCount, 0);
    }
    var gotEdgeArrays := driver.Succeeds();
    if from != [] && !gotEdgeArrays {
      return Fallback(AllocationFailure, nodeCount, |from|);
    }
    assert content == GraphOf(nodes, from, to);
    r := LayerAndBuild(driver, graph, flags, limit, nodes, from, to);
  }

  // The graph has been read and can be split unless it has a cycle.
  method LayerAndBuild(driver: Driver, graph: Handle, flags: Flags, limit: nat, nodes: seq<Node>, from: seq<Node>,
                       to: seq<Node>)
    returns (r: BuildResult)
    requires driver.Valid() && graph in driver.graphs && !flags.deviceLaunch
    requires |from| == |to| && NoRepeats(nodes) && nodes != [] && driver.graphs[graph] == GraphOf(nodes, from, to)
    requires forall n :: n in nodes ==> NodeSupported(n)
    modifies driver`graphs, driver`execs, driver`next
    ensures driver.Valid() && driver.next >= old(driver.next)
    ensures r.Fallback? ==> driver.execs == old(driver.execs) && driver.graphs == old(driver.graphs)
    ensures RightAnswer(r, old(driver.graphs)[graph], flags, limit, true, driver.reliable)
    ensures r.Split? ==>
      && SplitOf(old(driver.graphs)[graph], r.graphlets, driver.execs)
      && Built(old(driver.execs), old(driver.graphs), driver.execs, driver.graphs, r.graphlets, old(driver.next))
  {
    ghost var content := driver.graphs[graph];
    EdgesStayInside(content, nodes, from, to);
    var layering := ComputeLayers(nodes, from, to);
    if !layering.Layers? {
      CycleIsWhy(content, nodes, flags);
      var why := if layering.ForeignEdge? then ForeignEdgeFound else CyclicOrInvalidDag;
      return Fallback(why, |nodes|, |from|);
    }
    LayerMapKeys(nodes, layering.layers);
    var outcome, graphlets := PackAndBuild(driver, graph, nodes, layering.layers, layering.count, limit);
    if outcome.Failed? {
      return Fallback(outcome.reason, |nodes|, |from|);
    }
    FoundIsBest(content, nodes, from, to, layering.layers, layering.count, limit, graphlets, driver.execs);
    return Split(graphlets, |nodes|, |from|);
  }

  lemma CycleIsWhy(content: Graph, nodes: seq<Node>, flags: Flags)
    requires nodes != [] && content.nodes == Elements(nodes) && !flags.deviceLaunch
    requires forall n :: n in nodes ==> NodeSupported(n)
    ensures WhyWhole(content, flags, true) == CyclicOrInvalidDag
  {
    assert nodes[0] in content.nodes;
    assert forall n :: n in content.nodes ==> n in nodes;
  }

  lemma ListedOnce(nodes: seq<Node>)
    requires NoRepeats(nodes)
    ensures |nodes| == |Elements(nodes)|
  {
    NoRepeatsFits(nodes, Elements(nodes));
    SetFits(nodes);
  }

  lemma EdgesStayInside(content: Graph, nodes: seq<Node>, from: seq<Node>, to: seq<Node>)
    requires |from| == |to| && WellFormed(content) && content == GraphOf(nodes, from, to)
    ensures AllInside(nodes, from) && AllInside(nodes, to)
  {
    forall e | 0 <= e < |from|
      ensures IsNode(nodes, from[e]) && IsNode(nodes, to[e])
    {
      assert Edge(from[e], to[e]) in content.edges;
      assert from[e] in Elements(nodes) && to[e] in Elements(nodes);
    }
  }

  // The packing passes and the clones.
  method PackAndBuild(driver: Driver, graph: Handle, nodes: seq<Node>, layers: seq<nat>, layerCount: nat, limit: nat)
    returns (outcome: Outcome, graphlets: seq<Graphlet>)
    requires driver.Valid() && graph in driver.graphs
    requires NoRepeats(nodes) && nodes != [] && |layers| == |nodes| && Elements(nodes) == driver.graphs[graph].nodes
    requires forall i :: 0 <= i < |nodes| ==> layers[i] < layerCount
    requires forall l :: 0 <= l < layerCount ==> l in layers
    modifies driver`graphs, driver`execs, driver`next
    ensures driver.Valid() && driver.next >= old(driver.next)
    ensures outcome.Failed? ==> !driver.reliable && outcome.reason != CyclicOrInvalidDag
    ensures outcome.Failed? ==> driver.execs == old(driver.execs) && driver.graphs == old(driver.graphs)
    ensures outcome.Done? ==>
      && layerCount > 0
      && GroupsOf(graphlets) == Groups(Sizes(layers, layerCount), limit)
      && Built(old(driver.execs), old(driver.graphs), driver.execs, driver.graphs, graphlets, old(driver.next))
      && LayerMapOf(nodes, layers).Keys == old(driver.graphs)[graph].nodes
      && AllRun(driver.execs, graphlets, old(driver.graphs)[graph], LayerMapOf(nodes, layers))
  {
    assert layers[0] < layerCount;
    LayerMapKeys(nodes, layers);
    var graphletCount := CountGroups(layers, layerCount, limit);
    var gotArray := driver.Succeeds();
    if !gotArray {
      return Failed(AllocationFailure), [];
    }
    var groups := new Group[graphletCount](_ => Group(0, 0, 0));
    FillGroups(layers, layerCount, limit, groups);
    outcome, graphlets := BuildPieces(driver, graph, nodes, layers, groups[..]);
  }
}
