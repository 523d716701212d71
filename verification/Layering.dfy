// Kahn layering of a captured graph (graph_build_graphlets, first half), and
// what the layers it assigns mean.
module Layering {
  import opened Dag

  // What the driver's two edge lists describe.
  ghost function GraphOf(nodes: seq<Node>, from: seq<Node>, to: seq<Node>): Graph
    requires |from| == |to|
  {
    Graph(Elements(nodes), set e | 0 <= e < |from| :: Edge(from[e], to[e]))
  }

  // ----- layers and longest paths -----

  type LayerMap = map<Node, nat>

  // Every edge climbs, and every node above layer 0 sits right above one it depends on.
  ghost predicate Layered(g: Graph, layer: LayerMap) {
    && WellFormed(g)
    && layer.Keys == g.nodes
    && (forall e :: e in g.edges ==> layer[e.src] < layer[e.dst])
    && (forall n {:trigger HasSupport(g, layer, n)} :: n in g.nodes && layer[n] > 0 ==> HasSupport(g, layer, n))
  }

  ghost predicate HasSupport(g: Graph, layer: LayerMap, n: Node)
    requires n in layer
  {
    exists m :: Edge(m, n) in g.edges && m in layer && layer[m] + 1 == layer[n]
  }

  lemma {:induction false} PathClimbs(g: Graph, layer: LayerMap, p: seq<Node>)
    requires Layered(g, layer) && IsPath(g, p)
    ensures layer[p[|p| - 1]] >= layer[p[0]] + |p| - 1
  {
    if |p| > 1 {
      PathClimbs(g, layer, p[..|p| - 1]);
      assert Edge(p[|p| - 2], p[|p| - 1]) in g.edges;
    }
  }

  lemma {:induction false} PathUpTo(g: Graph, layer: LayerMap, n: Node) returns (p: seq<Node>)
    requires Layered(g, layer) && n in g.nodes
    ensures IsPath(g, p) && p[|p| - 1] == n && |p| == layer[n] + 1
    decreases layer[n]
  {
    if layer[n] == 0 {
      p := [n];
    } else {
      assert HasSupport(g, layer, n);
      var m :| Edge(m, n) in g.edges && m in layer && layer[m] + 1 == layer[n];
      p := PathUpTo(g, layer, m);
      p := p + [n];
    }
  }

  // The layer of a node is the length of the longest dependency chain into it.
  lemma LayersAreLongestPaths(g: Graph, layer: LayerMap, n: Node)
    requires Layered(g, layer) && n in g.nodes
    ensures IsLongestInto(g, n, layer[n])
  {
    var w := PathUpTo(g, layer, n);
    forall p | IsPath(g, p) && p[|p| - 1] == n
      ensures |p| <= layer[n] + 1
    {
      PathClimbs(g, layer, p);
    }
  }

  lemma LayeredIsAcyclic(g: Graph, layer: LayerMap)
    requires Layered(g, layer)
    ensures !HasCycle(g)
  {
    forall a
      ensures !Reaches(g, a, a)
    {
      forall p | PathFromTo(g, p, a, a)
        ensures false
      {
        PathClimbs(g, layer, p);
      }
    }
  }

  // Layers are the only assignment of their kind.
  lemma LayersAreUnique(g: Graph, a: LayerMap, b: LayerMap)
    requires Layered(g, a) && Layered(g, b)
    ensures a == b
  {
    forall n | n in g.nodes
      ensures a[n] == b[n]
    {
      LayersAreLongestPaths(g, a, n);
      LayersAreLongestPaths(g, b, n);
    }
  }

  // ----- a set in which every node waits for another one holds a cycle -----

  lemma {:induction false} NoRepeatsFits(p: seq<Node>, s: set<Node>)
    requires NoRepeats(p)
    requires forall n :: n in p ==> n in s
    ensures |p| <= |s|
    ensures |p| == |s| ==> forall n :: n in s ==> n in p
  {
    if p == [] {
      if s != {} { assert |s| > 0; }
    } else {
      var x := p[|p| - 1];
      var q := p[..|p| - 1];
      assert x in p && forall n :: n in q ==> n in p;
      NoRepeatsFits(q, s - {x});
    }
  }

  ghost predicate EveryoneWaits(g: Graph, stuck: set<Node>) {
    forall n {:trigger Waits(g, stuck, n)} :: n in stuck ==> Waits(g, stuck, n)
  }

  ghost predicate Waits(g: Graph, stuck: set<Node>, n: Node) {
    exists m :: m in stuck && Edge(m, n) in g.edges
  }

  lemma StuckSetHasCycle(g: Graph, stuck: set<Node>)
    requires stuck != {} && stuck <= g.nodes && EveryoneWaits(g, stuck)
    ensures HasCycle(g)
  {
    var n :| n in stuck;
    WalkBack(g, stuck, [n]);
  }

  lemma {:induction false} WalkBack(g: Graph, stuck: set<Node>, p: seq<Node>)
    requires stuck <= g.nodes && EveryoneWaits(g, stuck)
    requires IsPath(g, p) && NoRepeats(p)
    requires forall n :: n in p ==> n in stuck
    ensures HasCycle(g)
    decreases |stuck| - |p|
  {
    NoRepeatsFits(p, stuck);
    assert p[0] in stuck && Waits(g, stuck, p[0]);
    var m :| m in stuck && Edge(m, p[0]) in g.edges;
    var q := [m] + p;
    assert IsPath(g, q);
    if m in p {
      var k :| 0 <= k < |p| && p[k] == m;
      assert PathFromTo(g, q[..k + 2], m, m);
      assert Reaches(g, m, m);
    } else {
      NoRepeatsFits(q, stuck);
      WalkBack(g, stuck, q);
    }
  }

  // ----- the rounds of the layering loop -----

  // After k rounds exactly the nodes of `layer` are placed.
  ghost predicate Placed(nodes: set<Node>, from: seq<Node>, to: seq<Node>, layer: LayerMap, k: nat)
    requires |from| == |to|
  {
    && layer.Keys <= nodes
    && (forall n :: n in layer ==> layer[n] < k)
    && (forall l :: 0 <= l < k ==> Inhabited(layer, l))
    && (forall e :: 0 <= e < |to| && to[e] in layer ==> from[e] in layer && layer[from[e]] < layer[to[e]])
    && (forall n {:trigger Supported(from, to, layer, n)} :: n in layer && layer[n] > 0 ==>
          Supported(from, to, layer, n))
    && (k > 0 ==> forall n {:trigger HeldBack(from, to, layer, k, n)} :: n in nodes && n !in layer ==>
          HeldBack(from, to, layer, k, n))
  }

  ghost predicate Inhabited(layer: LayerMap, l: nat) {
    exists n :: n in layer && layer[n] == l
  }

  ghost predicate Supported(from: seq<Node>, to: seq<Node>, layer: LayerMap, n: Node)
    requires |from| == |to| && n in layer
  {
    exists e :: 0 <= e < |to| && to[e] == n && from[e] in layer && layer[from[e]] + 1 == layer[n]
  }

  // n waits for a node that is unplaced, or was placed only in the last round.
  ghost predicate HeldBack(from: seq<Node>, to: seq<Node>, layer: LayerMap, k: nat, n: Node)
    requires |from| == |to|
  {
    exists e :: 0 <= e < |to| && to[e] == n && (from[e] !in layer || layer[from[e]] + 1 == k)
  }

  ghost predicate AllInputsIn(from: seq<Node>, to: seq<Node>, done: set<Node>, n: Node)
    requires |from| == |to|
  {
    forall e :: 0 <= e < |to| && to[e] == n ==> from[e] in done
  }

  ghost function Ready(nodes: set<Node>, from: seq<Node>, to: seq<Node>, done: set<Node>): set<Node>
    requires |from| == |to|
  {
    set n | n in nodes && n !in done && AllInputsIn(from, to, done, n)
  }

  ghost function AddLayer(layer: LayerMap, ready: set<Node>, k: nat): LayerMap {
    layer + map n | n in ready :: k
  }

  lemma AddLayerKeys(layer: LayerMap, ready: set<Node>, k: nat)
    ensures AddLayer(layer, ready, k).Keys == layer.Keys + ready
  {
  }

  lemma RoundPlaces(nodes: set<Node>, from: seq<Node>, to: seq<Node>, layer: LayerMap, k: nat)
    requires |from| == |to|
    requires Placed(nodes, from, to, layer, k)
    requires Ready(nodes, from, to, layer.Keys) != {}
    ensures Placed(nodes, from, to, AddLayer(layer, Ready(nodes, from, to, layer.Keys), k), k + 1)
  {
    var ready := Ready(nodes, from, to, layer.Keys);
    var next := AddLayer(layer, ready, k);
    forall l | 0 <= l < k + 1
      ensures Inhabited(next, l)
    {
      if l == k {
        var n :| n in ready;
        assert next[n] == l;
      } else {
        assert Inhabited(layer, l);
        var n :| n in layer && layer[n] == l;
        assert n in next && next[n] == l;
      }
    }
    forall n | n in next && next[n] > 0
      ensures Supported(from, to, next, n)
    {
      if n in ready {
        assert HeldBack(from, to, layer, k, n);
      } else {
        assert Supported(from, to, layer, n);
      }
    }
  }

  lemma NoneReadyMeansStuck(nodes: seq<Node>, from: seq<Node>, to: seq<Node>, layer: LayerMap, k: nat)
    requires |from| == |to|
    requires Placed(Elements(nodes), from, to, layer, k)
    requires Ready(Elements(nodes), from, to, layer.Keys) == {} && layer.Keys != Elements(nodes)
    ensures HasCycle(GraphOf(nodes, from, to)) || !AllInside(nodes, from)
  {
    var g := GraphOf(nodes, from, to);
    if AllInside(nodes, from) {
      var stuck := g.nodes - layer.Keys;
      forall n | n in stuck
        ensures Waits(g, stuck, n)
      {
        assert n !in Ready(g.nodes, from, to, layer.Keys);
        var e :| 0 <= e < |to| && to[e] == n && from[e] !in layer.Keys;
        assert IsNode(nodes, from[e]);
        assert Edge(from[e], to[e]) in g.edges;
      }
      assert g.nodes == layer.Keys + stuck;
      StuckSetHasCycle(g, stuck);
    }
  }

  lemma AllPlacedIsLayered(nodes: seq<Node>, from: seq<Node>, to: seq<Node>, layer: LayerMap, k: nat)
    requires |from| == |to|
    requires Placed(Elements(nodes), from, to, layer, k) && layer.Keys == Elements(nodes)
    requires AllInside(nodes, to)
    ensures Layered(GraphOf(nodes, from, to), layer)
    ensures AllInside(nodes, from)
  {
    var g := GraphOf(nodes, from, to);
    forall e | 0 <= e < |from|
      ensures from[e] in layer && to[e] in layer && layer[from[e]] < layer[to[e]]
      ensures IsNode(nodes, from[e])
    {
      assert IsNode(nodes, to[e]) && to[e] in Elements(nodes);
    }
    forall n | n in g.nodes && layer[n] > 0
      ensures HasSupport(g, layer, n)
    {
      assert Supported(from, to, layer, n);
      var e :| 0 <= e < |to| && to[e] == n && from[e] in layer && layer[from[e]] + 1 == layer[n];
      assert Edge(from[e], n) in g.edges;
    }
  }

  // ----- counting the edges a node still waits for -----

  ghost function Waiting(from: seq<Node>, to: seq<Node>, n: Node, done: set<Node>, m: nat): nat
    requires m <= |from| == |to|
  {
    if m == 0 then 0
    else Waiting(from, to, n, done, m - 1) + (if to[m - 1] == n && from[m - 1] !in done then 1 else 0)
  }

  ghost function EdgesBetween(from: seq<Node>, to: seq<Node>, c: Node, n: Node, m: nat): nat
    requires m <= |from| == |to|
  {
    if m == 0 then 0
    else EdgesBetween(from, to, c, n, m - 1) + (if to[m - 1] == n && from[m - 1] == c then 1 else 0)
  }

  lemma {:induction false} WaitingZero(from: seq<Node>, to: seq<Node>, n: Node, done: set<Node>, m: nat)
    requires m <= |from| == |to|
    ensures Waiting(from, to, n, done, m) == 0 <==> forall e :: 0 <= e < m && to[e] == n ==> from[e] in done
  {
    if m > 0 { WaitingZero(from, to, n, done, m - 1); }
  }

  lemma {:induction false} WaitingRelease(from: seq<Node>, to: seq<Node>, n: Node, done: set<Node>, c: Node, m: nat)
    requires m <= |from| == |to| && c !in done
    ensures Waiting(from, to, n, done + {c}, m) == Waiting(from, to, n, done, m) - EdgesBetween(from, to, c, n, m)
  {
    if m > 0 { WaitingRelease(from, to, n, done, c, m - 1); }
  }

  lemma {:induction false} EdgesBetweenGrows(from: seq<Node>, to: seq<Node>, c: Node, n: Node, a: nat, b: nat)
    requires a <= b <= |from| == |to|
    ensures EdgesBetween(from, to, c, n, a) <= EdgesBetween(from, to, c, n, b)
    decreases b
  {
    if a < b { EdgesBetweenGrows(from, to, c, n, a, b - 1); }
  }

  // ----- the loops -----

  // graph_node_index: the first position of a node, or -1.
  method NodeIndex(nodes: seq<Node>, needle: Node) returns (r: int)
    ensures r == -1 <==> needle !in nodes
    ensures r != -1 ==> 0 <= r < |nodes| && nodes[r] == needle && needle !in nodes[..r]
  {
    var i := 0;
    while i < |nodes|
      invariant 0 <= i <= |nodes|
      invariant needle !in nodes[..i]
    {
      if nodes[i] == needle {
        return i;
      }
      i := i + 1;
    }
    return -1;
  }

  // Every indegree counts the listed edges whose source is not yet released.
  ghost predicate CountsWaiting(nodes: seq<Node>, from: seq<Node>, to: seq<Node>, indegree: seq<nat>, done: set<Node>)
    requires |from| == |to|
  {
    && |indegree| == |nodes|
    && (forall d {:trigger Counted(nodes, from, to, indegree, done, d)} :: 0 <= d < |nodes| ==>
          Counted(nodes, from, to, indegree, done, d))
  }

  ghost predicate Counted(nodes: seq<Node>, from: seq<Node>, to: seq<Node>, indegree: seq<nat>, done: set<Node>, d: nat)
    requires d < |nodes| == |indegree| && |from| == |to|
  {
    indegree[d] == Waiting(from, to, nodes[d], done, |from|)
  }

  // Every listed end of an edge is a node of the graph.
  ghost predicate AllInside(nodes: seq<Node>, ends: seq<Node>) {
    forall e {:trigger IsNode(nodes, ends[e])} :: 0 <= e < |ends| ==> IsNode(nodes, ends[e])
  }

  ghost predicate IsNode(nodes: seq<Node>, n: Node) {
    n in nodes
  }

  // Count the edges into each node; false when an edge ends outside the graph.
  method CountIndegrees(nodes: seq<Node>, from: seq<Node>, to: seq<Node>, indegree: array<nat>) returns (ok: bool)
    requires |from| == |to| && NoRepeats(nodes)
    requires indegree.Length == |nodes|
    requires forall d :: 0 <= d < |nodes| ==> indegree[d] == 0
    modifies indegree
    ensures ok <==> AllInside(nodes, to)
    ensures ok ==> CountsWaiting(nodes, from, to, indegree[..], {})
  {
    for e := 0 to |to|
      invariant forall k :: 0 <= k < e ==> to[k] in nodes
      invariant forall d :: 0 <= d < |nodes| ==> indegree[d] == Waiting(from, to, nodes[d], {}, e)
    {
      var destination := NodeIndex(nodes, to[e]);
      assert IsNode(nodes, to[e]) <==> destination >= 0;
      if destination < 0 {
        return false;
      }
      indegree[destination] := indegree[destination] + 1;
    }
    return true;
  }

  // First pass of a round: mark and place every unplaced node that waits for none.
  method MarkReady(nodes: seq<Node>, indegree: array<nat>, layers: array<nat>, processed: array<nat>, layerCount: nat)
    returns (thisLayer: nat)
    requires indegree.Length == layers.Length == processed.Length == |nodes|
    requires layers != processed && layers != indegree && indegree != processed
    requires forall i :: 0 <= i < |nodes| ==> processed[i] <= 1
    modifies layers, processed
    ensures forall i :: 0 <= i < |nodes| ==>
      processed[i] == if old(processed[i]) == 0 && indegree[i] == 0 then 2 else old(processed[i])
    ensures forall i :: 0 <= i < |nodes| ==> layers[i] == if processed[i] == 2 then layerCount else old(layers[i])
    ensures thisLayer == 0 <==> forall i :: 0 <= i < |nodes| ==> processed[i] != 2
  {
    thisLayer := 0;
    for i := 0 to |nodes|
      invariant forall k :: i <= k < |nodes| ==> processed[k] == old(processed[k]) && layers[k] == old(layers[k])
      invariant forall k :: 0 <= k < i ==>
        processed[k] == if old(processed[k]) == 0 && indegree[k] == 0 then 2 else old(processed[k])
      invariant forall k :: 0 <= k < i ==> layers[k] == if processed[k] == 2 then layerCount else old(layers[k])
      invariant thisLayer == 0 <==> forall k :: 0 <= k < i ==> processed[k] != 2
    {
      if processed[i] == 0 && indegree[i] == 0 {
        layers[i] := layerCount;
        processed[i] := 2;
        thisLayer := thisLayer + 1;
      }
    }
  }

  // Drop the edges that leave one node.
  method ReleaseEdges(nodes: seq<Node>, from: seq<Node>, to: seq<Node>, indegree: array<nat>, c: Node,
                      ghost done: set<Node>)
    requires |from| == |to| && NoRepeats(nodes) && c !in done
    requires CountsWaiting(nodes, from, to, indegree[..], done)
    requires AllInside(nodes, to)
    modifies indegree
    ensures CountsWaiting(nodes, from, to, indegree[..], done + {c})
  {
    var m := |from|;
    forall d | 0 <= d < |nodes|
      ensures indegree[d] == Waiting(from, to, nodes[d], done, m)
    {
      assert Counted(nodes, from, to, indegree[..], done, d);
    }
    for edge := 0 to |from|
      invariant forall d :: 0 <= d < |nodes| ==>
        indegree[d] == Waiting(from, to, nodes[d], done, m) - EdgesBetween(from, to, c, nodes[d], edge)
    {
      if from[edge] != c {
        continue;
      }
      var destination := NodeIndex(nodes, to[edge]);
      assert IsNode(nodes, to[edge]);
      WaitingRelease(from, to, to[edge], done, c, m);
      EdgesBetweenGrows(from, to, c, to[edge], edge + 1, m);
      if destination >= 0 && indegree[destination] > 0 {
        indegree[destination] := indegree[destination] - 1;
      }
    }
    forall d | 0 <= d < |nodes|
      ensures Counted(nodes, from, to, indegree[..], done + {c}, d)
    {
      WaitingRelease(from, to, nodes[d], done, c, m);
    }
  }

  // The done nodes, and the marked ones among the first i.
  ghost function Released(nodes: seq<Node>, marks: seq<nat>, done: set<Node>, i: nat): set<Node>
    requires i <= |nodes| == |marks|
  {
    if i == 0 then done
    else if marks[i - 1] == 2 then Released(nodes, marks, done, i - 1) + {nodes[i - 1]}
    else Released(nodes, marks, done, i - 1)
  }

  lemma {:induction false} InReleased(nodes: seq<Node>, marks: seq<nat>, done: set<Node>, i: nat, n: Node)
    requires i <= |nodes| == |marks|
    ensures n in Released(nodes, marks, done, i) <==>
      n in done || exists k :: 0 <= k < i && marks[k] == 2 && nodes[k] == n
  {
    if i > 0 { InReleased(nodes, marks, done, i - 1, n); }
  }

  // The flags say exactly which nodes are done.
  ghost predicate Flags(nodes: seq<Node>, processed: seq<nat>, done: set<Node>) {
    && |processed| == |nodes|
    && (forall i {:trigger Flag(nodes, processed, done, i)} :: 0 <= i < |nodes| ==> Flag(nodes, processed, done, i))
  }

  ghost predicate Flag(nodes: seq<Node>, processed: seq<nat>, done: set<Node>, i: nat)
    requires i < |nodes| == |processed|
  {
    processed[i] <= 2 && (processed[i] == 1 <==> nodes[i] in done)
  }

  lemma MarkedStep(nodes: seq<Node>, marks: seq<nat>, i: nat, done: set<Node>)
    requires NoRepeats(nodes) && i < |nodes|
    requires Flags(nodes, marks, done) && marks[i] == 2
    requires Released(nodes, marks, done, i) <= Elements(nodes)
    ensures nodes[i] !in Released(nodes, marks, done, i) && nodes[i] in Elements(nodes)
    ensures |Released(nodes, marks, done, i)| < |nodes|
  {
    assert Flag(nodes, marks, done, i);
    InReleased(nodes, marks, done, i, nodes[i]);
    RoomLeft(nodes, Released(nodes, marks, done, i));
  }

  // Second pass of a round: release the edges of every marked node.
  method ReleaseMarked(nodes: seq<Node>, from: seq<Node>, to: seq<Node>, indegree: array<nat>, processed: array<nat>,
                       remaining: nat, ghost done: set<Node>)
    returns (left: nat)
    requires |from| == |to| && NoRepeats(nodes)
    requires indegree.Length == processed.Length == |nodes| && indegree != processed
    requires CountsWaiting(nodes, from, to, indegree[..], done)
    requires AllInside(nodes, to)
    requires Flags(nodes, processed[..], done)
    requires done <= Elements(nodes) && remaining == |nodes| - |done|
    modifies indegree, processed
    ensures forall i :: 0 <= i < |nodes| ==> processed[i] == if old(processed[i]) == 2 then 1 else old(processed[i])
    ensures CountsWaiting(nodes, from, to, indegree[..], Released(nodes, old(processed[..]), done, |nodes|))
    ensures left == |nodes| - |Released(nodes, old(processed[..]), done, |nodes|)|
  {
    left := remaining;
    ghost var marks := processed[..];
    ghost var released := done;
    for i := 0 to |nodes|
      invariant forall k :: 0 <= k < i ==> processed[k] == if marks[k] == 2 then 1 else marks[k]
      invariant forall k :: i <= k < |nodes| ==> processed[k] == marks[k]
      invariant released == Released(nodes, marks, done, i)
      invariant released <= Elements(nodes)
      invariant CountsWaiting(nodes, from, to, indegree[..], released)
      invariant left == |nodes| - |released|
    {
      if processed[i] == 2 {
        MarkedStep(nodes, marks, i, done);
        processed[i] := 1;
        left := left - 1;
        ReleaseEdges(nodes, from, to, indegree, nodes[i], released);
        released := released + {nodes[i]};
      }
    }
  }

  lemma RoomLeft(nodes: seq<Node>, done: set<Node>)
    requires NoRepeats(nodes)
    requires done <= Elements(nodes)
    ensures |done| <= |nodes|
    ensures |done| == |nodes| <==> done == Elements(nodes)
  {
    var all := Elements(nodes);
    NoRepeatsFits(nodes, all);
    SetFits(nodes);
    SubsetSize(done, all);
  }

  lemma {:induction false} SetFits(nodes: seq<Node>)
    ensures |Elements(nodes)| <= |nodes|
  {
    if nodes != [] {
      SetFits(nodes[1..]);
      assert Elements(nodes) == {nodes[0]} + Elements(nodes[1..]);
    }
  }

  lemma {:induction false} SubsetSize(a: set<Node>, b: set<Node>)
    requires a <= b
    ensures |a| <= |b|
    ensures |a| == |b| <==> a == b
  {
    assert b == a + (b - a);
  }

  // ----- the layering loop -----

  datatype LayerResult =
    | ForeignEdge
    | CyclicOrInvalid
    | Layers(layers: seq<nat>, count: nat)

  ghost function LayerMapOf(nodes: seq<Node>, layers: seq<nat>): LayerMap
    requires NoRepeats(nodes) && |layers| == |nodes|
  {
    map i | 0 <= i < |nodes| :: nodes[i] := layers[i]
  }

  // The state of the loop between rounds.
  ghost predicate BetweenRounds(nodes: seq<Node>, from: seq<Node>, to: seq<Node>,
                                indegree: seq<nat>, layers: seq<nat>, processed: seq<nat>, layer: LayerMap, k: nat)
    requires |from| == |to|
  {
    && |layers| == |processed| == |nodes|
    && Placed(Elements(nodes), from, to, layer, k)
    && CountsWaiting(nodes, from, to, indegree, layer.Keys)
    && Flags(nodes, processed, layer.Keys)
    && (forall i :: 0 <= i < |nodes| ==> processed[i] <= 1)
    && (forall i {:trigger Stored(nodes, layers, layer, i)} :: 0 <= i < |nodes| ==> Stored(nodes, layers, layer, i))
  }

  ghost predicate Stored(nodes: seq<Node>, layers: seq<nat>, layer: LayerMap, i: nat)
    requires i < |nodes| == |layers|
  {
    nodes[i] in layer ==> layer[nodes[i]] == layers[i]
  }

  // The first pass marks exactly the ready nodes.
  lemma MarksAreReady(nodes: seq<Node>, from: seq<Node>, to: seq<Node>, indegree: seq<nat>, done: set<Node>,
                      processed: seq<nat>, marks: seq<nat>)
    requires |from| == |to| && |marks| == |nodes|
    requires CountsWaiting(nodes, from, to, indegree, done)
    requires Flags(nodes, processed, done) && forall i :: 0 <= i < |nodes| ==> processed[i] <= 1
    requires forall i :: 0 <= i < |nodes| ==>
      marks[i] == if processed[i] == 0 && indegree[i] == 0 then 2 else processed[i]
    ensures Flags(nodes, marks, done)
    ensures Released(nodes, marks, done, |nodes|) == done + Ready(Elements(nodes), from, to, done)
    ensures forall i :: 0 <= i < |nodes| ==> (marks[i] == 2 <==> nodes[i] in Ready(Elements(nodes), from, to, done))
  {
    var ready := Ready(Elements(nodes), from, to, done);
    forall i | 0 <= i < |nodes|
      ensures Flag(nodes, marks, done, i)
      ensures marks[i] == 2 <==> nodes[i] in ready
    {
      assert Counted(nodes, from, to, indegree, done, i) && Flag(nodes, processed, done, i);
      WaitingZero(from, to, nodes[i], done, |from|);
      assert nodes[i] in Elements(nodes);
    }
    forall n
      ensures n in Released(nodes, marks, done, |nodes|) <==> n in done || n in ready
    {
      InReleased(nodes, marks, done, |nodes|, n);
      assert n in ready ==> n in Elements(nodes);
    }
  }

  // What a round leaves in the arrays, given what its two passes did.
  lemma RoundKeeps(nodes: seq<Node>, from: seq<Node>, to: seq<Node>, layer: LayerMap, k: nat,
                   layers0: seq<nat>, marks: seq<nat>, indegree: seq<nat>, layers: seq<nat>, processed: seq<nat>)
    requires |from| == |to| && NoRepeats(nodes)
    requires |layers0| == |marks| == |layers| == |processed| == |nodes|
    requires Placed(Elements(nodes), from, to, layer, k)
    requires Ready(Elements(nodes), from, to, layer.Keys) != {}
    requires Flags(nodes, marks, layer.Keys)
    requires forall i :: 0 <= i < |nodes| ==>
      (marks[i] == 2 <==> nodes[i] in Ready(Elements(nodes), from, to, layer.Keys))
    requires forall i {:trigger Stored(nodes, layers0, layer, i)} :: 0 <= i < |nodes| ==>
      Stored(nodes, layers0, layer, i)
    requires forall i :: 0 <= i < |nodes| ==> processed[i] == if marks[i] == 2 then 1 else marks[i]
    requires forall i :: 0 <= i < |nodes| ==> layers[i] == if marks[i] == 2 then k else layers0[i]
    requires CountsWaiting(nodes, from, to, indegree, layer.Keys + Ready(Elements(nodes), from, to, layer.Keys))
    ensures BetweenRounds(nodes, from, to, indegree, layers, processed,
                          AddLayer(layer, Ready(Elements(nodes), from, to, layer.Keys), k), k + 1)
  {
    var ready := Ready(Elements(nodes), from, to, layer.Keys);
    RoundPlaces(Elements(nodes), from, to, layer, k);
    AddLayerKeys(layer, ready, k);
    forall i | 0 <= i < |nodes|
      ensures Flag(nodes, processed, layer.Keys + ready, i) && processed[i] <= 1
      ensures Stored(nodes, layers, AddLayer(layer, ready, k), i)
    {
      assert Flag(nodes, marks, layer.Keys, i) && Stored(nodes, layers0, layer, i);
    }
  }

  // The two passes of a round.
  method RoundPasses(nodes: seq<Node>, from: seq<Node>, to: seq<Node>,
                     indegree: array<nat>, layers: array<nat>, processed: array<nat>,
                     remaining: nat, layerCount: nat, ghost done: set<Node>)
    returns (thisLayer: nat, left: nat, ghost marks: seq<nat>)
    requires |from| == |to| && NoRepeats(nodes) && AllInside(nodes, to)
    requires indegree.Length == layers.Length == processed.Length == |nodes|
    requires layers != processed && layers != indegree && indegree != processed
    requires CountsWaiting(nodes, from, to, indegree[..], done)
    requires Flags(nodes, processed[..], done) && forall i :: 0 <= i < |nodes| ==> processed[i] <= 1
    requires done <= Elements(nodes) && remaining == |nodes| - |done|
    modifies indegree, layers, processed
    ensures |marks| == |nodes| && Flags(nodes, marks, done)
    ensures forall i :: 0 <= i < |nodes| ==> (marks[i] == 2 <==> nodes[i] in Ready(Elements(nodes), from, to, done))
    ensures thisLayer == 0 <==> Ready(Elements(nodes), from, to, done) == {}
    ensures thisLayer != 0 ==>
      && (forall i :: 0 <= i < |nodes| ==> processed[i] == if marks[i] == 2 then 1 else marks[i])
      && (forall i :: 0 <= i < |nodes| ==> layers[i] == if marks[i] == 2 then layerCount else old(layers[i]))
      && CountsWaiting(nodes, from, to, indegree[..], done + Ready(Elements(nodes), from, to, done))
      && left == |nodes| - |done + Ready(Elements(nodes), from, to, done)|
  {
    ghost var before := processed[..];
    left := remaining;
    thisLayer := MarkReady(nodes, indegree, layers, processed, layerCount);
    marks := processed[..];
    MarksAreReady(nodes, from, to, indegree[..], done, before, marks);
    NoneMarked(nodes, marks, Ready(Elements(nodes), from, to, done));
    if thisLayer != 0 {
      left := ReleaseMarked(nodes, from, to, indegree, processed, remaining, done);
    }
  }

  // One round: place the ready nodes on layer k and release their edges.
  method Round(nodes: seq<Node>, from: seq<Node>, to: seq<Node>,
               indegree: array<nat>, layers: array<nat>, processed: array<nat>,
               remaining: nat, layerCount: nat, ghost layer: LayerMap)
    returns (thisLayer: nat, left: nat, ghost next: LayerMap)
    requires |from| == |to| && NoRepeats(nodes) && AllInside(nodes, to)
    requires indegree.Length == layers.Length == processed.Length == |nodes|
    requires layers != processed && layers != indegree && indegree != processed
    requires BetweenRounds(nodes, from, to, indegree[..], layers[..], processed[..], layer, layerCount)
    requires remaining == |nodes| - |layer.Keys|
    modifies indegree, layers, processed
    ensures next == AddLayer(layer, Ready(Elements(nodes), from, to, layer.Keys), layerCount)
    ensures thisLayer == 0 <==> Ready(Elements(nodes), from, to, layer.Keys) == {}
    ensures thisLayer != 0 ==>
      && BetweenRounds(nodes, from, to, indegree[..], layers[..], processed[..], next, layerCount + 1)
      && left == |nodes| - |next.Keys| < remaining
  {
    ghost var ready := Ready(Elements(nodes), from, to, layer.Keys);
    ghost var layers0 := layers[..];
    next := AddLayer(layer, ready, layerCount);
    AddLayerKeys(layer, ready, layerCount);
    ghost var marks: seq<nat>;
    thisLayer, left, marks := RoundPasses(nodes, from, to, indegree, layers, processed, remaining, layerCount,
                                          layer.Keys);
    if thisLayer != 0 {
      RoundKeeps(nodes, from, to, layer, layerCount, layers0, marks, indegree[..], layers[..], processed[..]);
      SubsetSize(layer.Keys, next.Keys);
    }
  }

  lemma NoneMarked(nodes: seq<Node>, marks: seq<nat>, ready: set<Node>)
    requires |marks| == |nodes| && ready <= Elements(nodes)
    requires forall i :: 0 <= i < |nodes| ==> (marks[i] == 2 <==> nodes[i] in ready)
    ensures ready == {} <==> forall i :: 0 <= i < |nodes| ==> marks[i] != 2
  {
    forall n | n in ready
      ensures exists i :: 0 <= i < |nodes| && marks[i] == 2
    {
      assert n in Elements(nodes);
    }
  }

  // The first half of graph_build_graphlets: layers, or the reason to fall back.
  method ComputeLayers(nodes: seq<Node>, from: seq<Node>, to: seq<Node>) returns (r: LayerResult)
    requires |from| == |to| && NoRepeats(nodes)
    ensures r.ForeignEdge? <==> !AllInside(nodes, to)
    ensures !r.ForeignEdge? ==>
      (r.CyclicOrInvalid? <==> HasCycle(GraphOf(nodes, from, to)) || !AllInside(nodes, from))
    ensures r.Layers? ==> LayersFound(nodes, from, to, r.layers, r.count)
  {
    var indegree := new nat[|nodes|](_ => 0);
    var layers := new nat[|nodes|](_ => 0);
    var processed := new nat[|nodes|](_ => 0);
    var ok := CountIndegrees(nodes, from, to, indegree);
    if !ok {
      return ForeignEdge;
    }
    var remaining: nat, layerCount: nat := |nodes|, 0;
    ghost var layer: LayerMap := map[];
    assert layer.Keys == {};
    while remaining != 0
      invariant BetweenRounds(nodes, from, to, indegree[..], layers[..], processed[..], layer, layerCount)
      invariant remaining == |nodes| - |layer.Keys|
      decreases remaining
    {
      ghost var next: LayerMap;
      var thisLayer: nat, left: nat;
      thisLayer, left, next := Round(nodes, from, to, indegree, layers, processed, remaining, layerCount, layer);
      if thisLayer == 0 {
        RoomLeft(nodes, layer.Keys);
        NoneReadyMeansStuck(nodes, from, to, layer, layerCount);
        return CyclicOrInvalid;
      }
      remaining, layer, layerCount := left, next, layerCount + 1;
    }
    RoomLeft(nodes, layer.Keys);
    LoopEndsLayered(nodes, from, to, indegree[..], layers[..], processed[..], layer, layerCount);
    return Layers(layers[..], layerCount);
  }

  // What the layering hands to the packing passes.
  ghost predicate LayersFound(nodes: seq<Node>, from: seq<Node>, to: seq<Node>, layers: seq<nat>, count: nat)
    requires |from| == |to| && NoRepeats(nodes)
  {
    && |layers| == |nodes|
    && Layered(GraphOf(nodes, from, to), LayerMapOf(nodes, layers))
    && (forall i :: 0 <= i < |nodes| ==> layers[i] < count)
    && (forall l :: 0 <= l < count ==> l in layers)
  }

  lemma LoopEndsLayered(nodes: seq<Node>, from: seq<Node>, to: seq<Node>,
                        indegree: seq<nat>, layers: seq<nat>, processed: seq<nat>, layer: LayerMap, k: nat)
    requires |from| == |to| && NoRepeats(nodes)
    requires BetweenRounds(nodes, from, to, indegree, layers, processed, layer, k)
    requires layer.Keys == Elements(nodes) && AllInside(nodes, to)
    ensures LayersFound(nodes, from, to, layers, k)
    ensures !HasCycle(GraphOf(nodes, from, to)) && AllInside(nodes, from)
  {
    AllPlacedIsLayered(nodes, from, to, layer, k);
    LayeredIsAcyclic(GraphOf(nodes, from, to), layer);
    forall i | 0 <= i < |nodes|
      ensures layer[nodes[i]] == layers[i]
    {
      assert nodes[i] in Elements(nodes) && Stored(nodes, layers, layer, i);
    }
    assert layer == LayerMapOf(nodes, layers);
    AllLayersInhabited(nodes, layer, layers, k);
  }

  lemma AllLayersInhabited(nodes: seq<Node>, layer: LayerMap, layers: seq<nat>, count: nat)
    requires |layers| == |nodes| && layer.Keys == Elements(nodes)
    requires forall i :: 0 <= i < |nodes| ==> layer[nodes[i]] == layers[i]
    requires forall l :: 0 <= l < count ==> Inhabited(layer, l)
    ensures forall l :: 0 <= l < count ==> l in layers
  {
    forall l | 0 <= l < count
      ensures l in layers
    {
      assert Inhabited(layer, l);
      var n :| n in layer && layer[n] == l;
      assert n in Elements(nodes);
      var i :| 0 <= i < |nodes| && nodes[i] == n;
      assert layers[i] == l;
    }
  }
}
