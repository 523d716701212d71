// Why running the graphlets one after another means the same as running the
// whole graph.
module Splitting {
  import opened Dag
  import opened Layering
  import opened Packing

  ghost function InLayers(g: Graph, layer: LayerMap, lo: nat, hi: nat): set<Node>
    requires layer.Keys == g.nodes
  {
    set n | n in g.nodes && lo <= layer[n] <= hi
  }

  // The graph one graphlet holds: the layers of its group, the rest pruned away.
  ghost function Piece(g: Graph, layer: LayerMap, group: Group): Graph
    requires layer.Keys == g.nodes
  {
    Restrict(g, InLayers(g, layer, group.first, group.last))
  }

  function Flatten(orders: seq<seq<Node>>): seq<Node> {
    if orders == [] then [] else Flatten(orders[..|orders| - 1]) + orders[|orders| - 1]
  }

  // Adjacent ranges of layers, starting at layer 0.
  ghost predicate Adjacent(groups: seq<Group>) {
    && (groups != [] ==> groups[0].first == 0)
    && (forall k :: 0 <= k < |groups| ==> groups[k].first <= groups[k].last)
    && (forall k, m :: 0 <= k && m == k + 1 < |groups| ==> groups[m].first == groups[k].last + 1)
  }

  lemma DividesIsAdjacent(sizes: seq<nat>, groups: seq<Group>)
    requires Divides(sizes, groups, |sizes|)
    ensures Adjacent(groups)
  {
    assert forall k :: 0 <= k < |groups| ==> GroupFits(sizes, groups[k], |sizes|);
  }

  ghost predicate PiecesRan(g: Graph, layer: LayerMap, groups: seq<Group>, orders: seq<seq<Node>>)
    requires layer.Keys == g.nodes
  {
    && |orders| <= |groups|
    && (forall k :: 0 <= k < |orders| ==> PieceRan(g, layer, groups[k], orders[k]))
  }

  ghost predicate PieceRan(g: Graph, layer: LayerMap, group: Group, order: seq<Node>)
    requires layer.Keys == g.nodes
  {
    IsExecution(Piece(g, layer, group), order)
  }

  // ----- pruning loses no ordering -----

  lemma {:induction false} PathLayersClimb(g: Graph, layer: LayerMap, p: seq<Node>, i: nat)
    requires Layered(g, layer) && IsPath(g, p) && i < |p|
    ensures layer[p[0]] <= layer[p[i]] <= layer[p[|p| - 1]]
  {
    PathClimbs(g, layer, p[..i + 1]);
    PathClimbs(g, layer, p[i..]);
  }

  // Two nodes kept in one graphlet are ordered by the clone exactly when the
  // original graph orders them.
  lemma PruningKeepsOrder(g: Graph, layer: LayerMap, group: Group, a: Node, b: Node)
    requires Layered(g, layer)
    requires a in Piece(g, layer, group).nodes && b in Piece(g, layer, group).nodes
    ensures Reaches(g, a, b) <==> Reaches(Piece(g, layer, group), a, b)
  {
    var piece := Piece(g, layer, group);
    if Reaches(g, a, b) {
      var p :| PathFromTo(g, p, a, b);
      forall i | 0 <= i < |p|
        ensures p[i] in piece.nodes
      {
        PathLayersClimb(g, layer, p, i);
      }
      assert PathFromTo(piece, p, a, b);
    }
    if Reaches(piece, a, b) {
      var p :| PathFromTo(piece, p, a, b);
      assert PathFromTo(g, p, a, b);
    }
  }

  lemma PieceHasNoCycle(g: Graph, layer: LayerMap, group: Group)
    requires Layered(g, layer)
    ensures WellFormed(Piece(g, layer, group)) && !HasCycle(Piece(g, layer, group))
  {
    var piece := Piece(g, layer, group);
    LayeredIsAcyclic(g, layer);
    forall a
      ensures !Reaches(piece, a, a)
    {
      assert !Reaches(g, a, a);
      forall p
        ensures !PathFromTo(piece, p, a, a)
      {
        assert !PathFromTo(g, p, a, a);
      }
    }
  }

  // ----- running the pieces in order -----

  ghost function Covered(groups: seq<Group>, k: nat): nat
    requires k <= |groups|
  {
    if k == 0 then 0 else groups[k - 1].last + 1
  }

  ghost predicate RanBelow(g: Graph, layer: LayerMap, order: seq<Node>, top: nat)
    requires layer.Keys == g.nodes
  {
    forall n {:trigger n in order} :: n in order <==> n in g.nodes && layer[n] < top
  }

  lemma AppendPiece(g: Graph, layer: LayerMap, group: Group, done: seq<Node>, next: seq<Node>)
    requires Layered(g, layer) && group.first <= group.last
    requires RanBelow(g, layer, done, group.first) && NoRepeats(done) && RespectsEdges(g, done)
    requires IsExecution(Piece(g, layer, group), next)
    ensures RanBelow(g, layer, done + next, group.last + 1)
    ensures NoRepeats(done + next) && RespectsEdges(g, done + next)
  {
    var piece := Piece(g, layer, group);
    forall n
      ensures n in next <==> n in g.nodes && group.first <= layer[n] <= group.last
    {
      assert n in next <==> n in Elements(next);
    }
    var all := done + next;
    forall i | 0 <= i < |done|
      ensures all[i] in g.nodes && layer[all[i]] < group.first
    {
      assert all[i] in done;
    }
    forall i | |done| <= i < |all|
      ensures all[i] in piece.nodes && group.first <= layer[all[i]]
    {
      assert all[i] in next;
    }
    forall i, j | 0 <= i <= j < |all|
      ensures Edge(all[j], all[i]) !in g.edges && (i < j ==> all[i] != all[j])
    {
      if i >= |done| {
        var x, y := next[i - |done|], next[j - |done|];
        assert Edge(y, x) !in piece.edges;
      } else if j < |done| {
        assert all[i] == done[i] && all[j] == done[j];
      }
    }
  }

  lemma {:induction false} PiecesRunBelow(g: Graph, layer: LayerMap, groups: seq<Group>, orders: seq<seq<Node>>)
    requires Layered(g, layer) && Adjacent(groups) && PiecesRan(g, layer, groups, orders)
    ensures RanBelow(g, layer, Flatten(orders), Covered(groups, |orders|))
    ensures NoRepeats(Flatten(orders)) && RespectsEdges(g, Flatten(orders))
    decreases |orders|
  {
    if orders != [] {
      var k := |orders| - 1;
      PiecesRunBelow(g, layer, groups, orders[..k]);
      assert groups[k].first == Covered(groups, k) by {
        if k > 0 { assert groups[k].first == groups[k - 1].last + 1; }
      }
      AppendPiece(g, layer, groups[k], Flatten(orders[..k]), orders[k]);
    }
  }

  // When a graphlet fails to launch, what has run is closed under dependencies.
  lemma SplitPrefixIsPartial(g: Graph, layer: LayerMap, groups: seq<Group>, orders: seq<seq<Node>>)
    requires Layered(g, layer) && Adjacent(groups) && PiecesRan(g, layer, groups, orders)
    ensures IsPartialExecution(g, Flatten(orders))
  {
    PiecesRunBelow(g, layer, groups, orders);
  }

  // Every original node runs exactly once, in an order the original edges allow.
  lemma SplitIsExecution(g: Graph, layer: LayerMap, groups: seq<Group>, orders: seq<seq<Node>>)
    requires Layered(g, layer) && Adjacent(groups)
    requires PiecesRan(g, layer, groups, orders) && |orders| == |groups|
    requires forall n :: n in g.nodes ==> layer[n] < Covered(groups, |groups|)
    ensures IsExecution(g, Flatten(orders))
  {
    PiecesRunBelow(g, layer, groups, orders);
    SplitPrefixIsPartial(g, layer, groups, orders);
    FullPartialIsExecution(g, Flatten(orders));
  }

  // The split run ends in the state of any run of the whole graph, for every
  // device semantics under which unordered nodes commute.
  lemma SplitPreservesMeaning<S(!new)>(g: Graph, layer: LayerMap, groups: seq<Group>, orders: seq<seq<Node>>,
                                       step: (Node, S) -> S, whole: seq<Node>, s: S)
    requires Layered(g, layer) && Adjacent(groups)
    requires PiecesRan(g, layer, groups, orders) && |orders| == |groups|
    requires forall n :: n in g.nodes ==> layer[n] < Covered(groups, |groups|)
    requires RaceFree(g, step) && IsExecution(g, whole)
    ensures Run(step, Flatten(orders), s) == Run(step, whole, s)
  {
    SplitIsExecution(g, layer, groups, orders);
    ExecutionsAgree(g, step, Flatten(orders), whole, s);
  }

  // Why an update must drop the split: pieces cut from the old content never amount
  // to a run of a content with other nodes or other parameters.
  lemma StalePiecesNeverRunTheUpdate(g: Graph, layer: LayerMap, groups: seq<Group>, orders: seq<seq<Node>>,
                                     updated: Graph)
    requires Layered(g, layer) && Adjacent(groups)
    requires PiecesRan(g, layer, groups, orders) && |orders| == |groups|
    requires forall n :: n in g.nodes ==> layer[n] < Covered(groups, |groups|)
    requires updated.nodes != g.nodes
    ensures !IsExecution(updated, Flatten(orders))
  {
    SplitIsExecution(g, layer, groups, orders);
  }

  // ----- group counts are node counts -----

  ghost function LayerNodes(g: Graph, layer: LayerMap, l: nat): set<Node>
    requires layer.Keys == g.nodes
  {
    set n | n in g.nodes && layer[n] == l
  }

  // sizes[l] is the number of nodes on layer l, and there are no other layers.
  ghost predicate SizesOf(g: Graph, layer: LayerMap, sizes: seq<nat>)
    requires layer.Keys == g.nodes
  {
    && (forall n :: n in g.nodes ==> layer[n] < |sizes|)
    && (forall l :: 0 <= l < |sizes| ==> sizes[l] == |LayerNodes(g, layer, l)|)
  }

  ghost function OnLayer(nodes: seq<Node>, layers: seq<nat>, l: nat): set<Node>
    requires |nodes| == |layers|
  {
    if nodes == [] then {}
    else OnLayer(nodes[..|nodes| - 1], layers[..|nodes| - 1], l)
         + (if layers[|nodes| - 1] == l then {nodes[|nodes| - 1]} else {})
  }

  lemma {:induction false} InOnLayer(nodes: seq<Node>, layers: seq<nat>, l: nat, n: Node)
    requires |layers| == |nodes|
    ensures n in OnLayer(nodes, layers, l) <==> exists i :: 0 <= i < |nodes| && nodes[i] == n && layers[i] == l
  {
    if nodes != [] {
      var m := |nodes| - 1;
      InOnLayer(nodes[..m], layers[..m], l, n);
      assert forall i :: 0 <= i < m ==> nodes[..m][i] == nodes[i] && layers[..m][i] == layers[i];
    }
  }

  lemma {:induction false} OnLayerCounts(nodes: seq<Node>, layers: seq<nat>, l: nat)
    requires NoRepeats(nodes) && |layers| == |nodes|
    ensures |OnLayer(nodes, layers, l)| == LayerSize(layers, l)
  {
    if nodes != [] {
      var m := |nodes| - 1;
      OnLayerCounts(nodes[..m], layers[..m], l);
      InOnLayer(nodes[..m], layers[..m], l, nodes[m]);
    }
  }

  lemma SizesAreOf(g: Graph, nodes: seq<Node>, layers: seq<nat>, count: nat)
    requires NoRepeats(nodes) && |layers| == |nodes| && Elements(nodes) == g.nodes
    requires forall i :: 0 <= i < |nodes| ==> layers[i] < count
    ensures LayerMapOf(nodes, layers).Keys == g.nodes
    ensures SizesOf(g, LayerMapOf(nodes, layers), Sizes(layers, count))
  {
    var layer := LayerMapOf(nodes, layers);
    LayerMapKeys(nodes, layers);
    forall n | n in g.nodes
      ensures layer[n] < count
    {
      assert n in nodes;
    }
    forall l | 0 <= l < count
      ensures |LayerNodes(g, layer, l)| == LayerSize(layers, l)
    {
      OnLayerCounts(nodes, layers, l);
      forall n
        ensures n in LayerNodes(g, layer, l) <==> n in OnLayer(nodes, layers, l)
      {
        InOnLayer(nodes, layers, l, n);
        assert n in g.nodes <==> n in nodes;
      }
      assert LayerNodes(g, layer, l) == OnLayer(nodes, layers, l);
    }
  }

  lemma LayerMapKeys(nodes: seq<Node>, layers: seq<nat>)
    requires NoRepeats(nodes) && |layers| == |nodes|
    ensures LayerMapOf(nodes, layers).Keys == Elements(nodes)
  {
    var layer := LayerMapOf(nodes, layers);
    forall n
      ensures n in layer.Keys <==> n in Elements(nodes)
    {
      if n in Elements(nodes) {
        var i :| 0 <= i < |nodes| && nodes[i] == n;
        assert nodes[i] in layer;
      }
    }
  }

  lemma {:induction false} RangeCount(g: Graph, layer: LayerMap, sizes: seq<nat>, lo: nat, hi: nat)
    requires layer.Keys == g.nodes && SizesOf(g, layer, sizes)
    requires lo <= hi < |sizes|
    ensures |InLayers(g, layer, lo, hi)| == Sum(sizes, lo, hi + 1)
    decreases hi
  {
    if lo == hi {
      assert InLayers(g, layer, lo, hi) == LayerNodes(g, layer, hi);
      assert Sum(sizes, lo, lo) == 0;
    } else {
      RangeCount(g, layer, sizes, lo, hi - 1);
      assert InLayers(g, layer, lo, hi) == InLayers(g, layer, lo, hi - 1) + LayerNodes(g, layer, hi);
    }
  }
}
