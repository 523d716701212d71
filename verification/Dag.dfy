// Graphs of device work, the orders in which a driver may run them, and what
// any two such orders have in common.
module Dag {

  // The kinds of node a captured graph may hold. Only the first four can be
  // split (graph_node_supported); the rest stand for every other driver kind.
  datatype NodeKind = Kernel | Memcpy | Memset | Empty | Host | ChildGraph | OtherKind

  // A node handle together with the work it stands for.
  datatype Node = Node(id: nat, kind: NodeKind, params: nat)

  datatype Edge = Edge(src: Node, dst: Node)

  datatype Graph = Graph(nodes: set<Node>, edges: set<Edge>)

  ghost predicate WellFormed(g: Graph) {
    forall e :: e in g.edges ==> e.src in g.nodes && e.dst in g.nodes
  }

  // The graph left after every node outside `kept` is destroyed with its edges.
  function Restrict(g: Graph, kept: set<Node>): Graph {
    Graph(g.nodes * kept, set e | e in g.edges && e.src in kept && e.dst in kept)
  }

  // ----- paths -----

  ghost predicate IsPath(g: Graph, p: seq<Node>) {
    && |p| > 0
    && (forall i :: 0 <= i < |p| ==> p[i] in g.nodes)
    && (forall i, j :: 0 <= i && j == i + 1 < |p| ==> Edge(p[i], p[j]) in g.edges)
  }

  ghost predicate PathFromTo(g: Graph, p: seq<Node>, a: Node, b: Node) {
    IsPath(g, p) && |p| >= 2 && p[0] == a && p[|p| - 1] == b
  }

  // b depends on a through one edge or more
  ghost predicate Reaches(g: Graph, a: Node, b: Node) {
    exists p :: PathFromTo(g, p, a, b)
  }

  ghost predicate HasCycle(g: Graph) {
    exists a :: Reaches(g, a, a)
  }

  // the longest path that ends in n has exactly k edges
  ghost predicate IsLongestInto(g: Graph, n: Node, k: nat) {
    && (exists p :: IsPath(g, p) && p[|p| - 1] == n && |p| == k + 1)
    && (forall p :: IsPath(g, p) && p[|p| - 1] == n ==> |p| <= k + 1)
  }

  // ----- executions -----

  function Elements(order: seq<Node>): set<Node> {
    set n | n in order
  }

  predicate NoRepeats(order: seq<Node>) {
    forall i, j :: 0 <= i < j < |order| ==> order[i] != order[j]
  }

  predicate RespectsEdges(g: Graph, order: seq<Node>) {
    forall i, j :: 0 <= i <= j < |order| ==> Edge(order[j], order[i]) !in g.edges
  }

  // Every node runs exactly once, and never before a node it depends on.
  predicate IsExecution(g: Graph, order: seq<Node>) {
    && Elements(order) == g.nodes
    && NoRepeats(order)
    && RespectsEdges(g, order)
  }

  // Some nodes run once each, each after all the nodes it depends on.
  ghost predicate IsPartialExecution(g: Graph, order: seq<Node>) {
    && (forall n :: n in order ==> n in g.nodes)
    && NoRepeats(order)
    && RespectsEdges(g, order)
    && (forall e :: e in g.edges && e.dst in order ==> e.src in order)
  }

  // What a launch may leave behind: all of the graph if it succeeded, and
  // otherwise a part that is closed under dependencies.
  ghost predicate RanAsFarAs(g: Graph, order: seq<Node>, ok: bool) {
    if ok then IsExecution(g, order) else IsPartialExecution(g, order)
  }

  lemma FullPartialIsExecution(g: Graph, order: seq<Node>)
    requires IsPartialExecution(g, order)
    requires forall n :: n in g.nodes ==> n in order
    ensures IsExecution(g, order)
  {
    assert Elements(order) == g.nodes;
  }

  // ----- edges order paths -----

  lemma {:induction false} PathIsOrdered(g: Graph, order: seq<Node>, p: seq<Node>, at: seq<nat>)
    requires NoRepeats(order) && RespectsEdges(g, order)
    requires IsPath(g, p) && |at| == |p|
    requires forall i :: 0 <= i < |p| ==> at[i] < |order| && order[at[i]] == p[i]
    ensures at[0] <= at[|p| - 1] && (|p| >= 2 ==> at[0] < at[|p| - 1])
  {
    if |p| >= 2 {
      var m := |p| - 1;
      PathIsOrdered(g, order, p[..m], at[..m]);
      assert Edge(p[m - 1], p[m]) in g.edges;
    }
  }

  lemma ExecutionOrdersPaths(g: Graph, order: seq<Node>, i: nat, j: nat)
    requires IsExecution(g, order)
    requires i <= j < |order|
    ensures !Reaches(g, order[j], order[i])
  {
    if Reaches(g, order[j], order[i]) {
      var p :| PathFromTo(g, p, order[j], order[i]);
      forall n | n in p
        ensures n in order
      {
        assert n in Elements(order);
      }
      PathIsOrdered(g, order, p, Positions(order, p));
    }
  }

  ghost function Positions(order: seq<Node>, p: seq<Node>): (at: seq<nat>)
    requires forall n :: n in p ==> n in order
    ensures |at| == |p|
    ensures forall i :: 0 <= i < |p| ==> at[i] < |order| && order[at[i]] == p[i]
  {
    if p == [] then [] else
      assert p[0] in p;
      var k: nat :| k < |order| && order[k] == p[0];
      [k] + Positions(order, p[1..])
  }

  // ----- every execution of a race-free graph means the same -----

  function Run<S>(step: (Node, S) -> S, order: seq<Node>, s: S): S {
    if order == [] then s else Run(step, order[1..], step(order[0], s))
  }

  ghost predicate Commute<S(!new)>(step: (Node, S) -> S, a: Node, b: Node) {
    forall s :: step(a, step(b, s)) == step(b, step(a, s))
  }

  ghost predicate Unordered(g: Graph, a: Node, b: Node) {
    !Reaches(g, a, b) && !Reaches(g, b, a)
  }

  // Nodes that the graph leaves unordered may run in either order.
  ghost predicate RaceFree<S(!new)>(g: Graph, step: (Node, S) -> S) {
    forall a, b :: a in g.nodes && b in g.nodes && a != b && Unordered(g, a, b) ==> Commute(step, a, b)
  }

  ghost predicate Swappable<S(!new)>(step: (Node, S) -> S, x: Node, u: seq<Node>) {
    forall i :: 0 <= i < |u| ==> Commute(step, x, u[i])
  }

  lemma {:induction false} MoveToFront<S(!new)>(step: (Node, S) -> S, x: Node, u: seq<Node>, v: seq<Node>, s: S)
    requires Swappable(step, x, u)
    ensures Run(step, u + [x] + v, s) == Run(step, u + v, step(x, s))
  {
    if u == [] {
      assert u + [x] + v == [x] + v && u + v == v;
    } else {
      MoveToFront(step, x, u[1..], v, step(u[0], s));
      assert (u + [x] + v)[1..] == u[1..] + [x] + v;
      assert Commute(step, x, u[0]);
      assert (u + v)[1..] == u[1..] + v;
    }
  }

  ghost predicate PathOrdered(g: Graph, order: seq<Node>) {
    && NoRepeats(order)
    && (forall n :: n in order ==> n in g.nodes)
    && (forall i, j :: 0 <= i < j < |order| ==> !Reaches(g, order[j], order[i]))
  }

  lemma PathOrderedDrop(g: Graph, u: seq<Node>, x: Node, v: seq<Node>)
    requires PathOrdered(g, u + [x] + v)
    ensures PathOrdered(g, u + v)
    ensures forall n :: n in u + v <==> n in u + [x] + v && n != x
  {
    var o := u + [x] + v;
    assert o[|u|] == x;
    forall i, j | 0 <= i < j < |u + v|
      ensures (u + v)[i] != (u + v)[j] && !Reaches(g, (u + v)[j], (u + v)[i])
    {
      var i', j' := if i < |u| then i else i + 1, if j < |u| then j else j + 1;
      assert (u + v)[i] == o[i'] && (u + v)[j] == o[j'];
    }
    forall n
      ensures n in u + v <==> n in o && n != x
    {
      if n in u { var k :| 0 <= k < |u| && u[k] == n; assert o[k] == n; }
      if n in v { var k :| 0 <= k < |v| && v[k] == n; assert o[|u| + 1 + k] == n; }
    }
  }

  // In both orders x runs before or after exactly what the graph allows, so
  // whatever the second order runs before x commutes with x.
  lemma EarlierNodesCommute<S(!new)>(g: Graph, step: (Node, S) -> S, x: Node, rest: seq<Node>, u: seq<Node>,
                                     v: seq<Node>)
    requires RaceFree(g, step)
    requires PathOrdered(g, [x] + rest) && PathOrdered(g, u + [x] + v)
    requires forall n :: n in u ==> n in rest
    ensures Swappable(step, x, u)
  {
    var o := u + [x] + v;
    forall i | 0 <= i < |u|
      ensures Commute(step, x, u[i])
    {
      assert o[i] == u[i] && o[|u|] == x;
      assert u[i] in rest;
      var k :| 0 <= k < |rest| && rest[k] == u[i];
      assert ([x] + rest)[k + 1] == u[i] && ([x] + rest)[0] == x;
    }
  }

  lemma {:induction false} OrdersAgree<S(!new)>(g: Graph, step: (Node, S) -> S, o1: seq<Node>, o2: seq<Node>, s: S)
    requires RaceFree(g, step)
    requires PathOrdered(g, o1) && PathOrdered(g, o2)
    requires forall n :: n in o1 <==> n in o2
    ensures Run(step, o1, s) == Run(step, o2, s)
    decreases |o1|
  {
    if o1 == [] {
      if o2 != [] { SomethingIn(o2); }
    } else {
      var x, rest := o1[0], o1[1..];
      assert x in o2;
      var k :| 0 <= k < |o2| && o2[k] == x;
      var u, v := o2[..k], o2[k + 1..];
      assert o2 == u + [x] + v && o1 == [x] + rest;
      FrontLeaves(g, x, rest, u, v);
      EarlierNodesCommute(g, step, x, rest, u, v);
      MoveToFront(step, x, u, v, s);
      OrdersAgree(g, step, rest, u + v, step(x, s));
    }
  }

  lemma SomethingIn(order: seq<Node>)
    requires order != []
    ensures exists n :: n in order
  {
    assert order[0] in order;
  }

  lemma FrontLeaves(g: Graph, x: Node, rest: seq<Node>, u: seq<Node>, v: seq<Node>)
    requires PathOrdered(g, [x] + rest) && PathOrdered(g, u + [x] + v)
    requires forall n :: n in [x] + rest <==> n in u + [x] + v
    ensures PathOrdered(g, rest) && PathOrdered(g, u + v)
    ensures forall n :: n in rest <==> n in u + v
    ensures forall n :: n in u ==> n in rest
  {
    assert [] + [x] + rest == [x] + rest && [] + rest == rest;
    PathOrderedDrop(g, [], x, rest);
    PathOrderedDrop(g, u, x, v);
    assert forall n :: n in u ==> n in u + v;
  }

  // Any two executions of a race-free graph leave the device in the same state.
  lemma ExecutionsAgree<S(!new)>(g: Graph, step: (Node, S) -> S, o1: seq<Node>, o2: seq<Node>, s: S)
    requires RaceFree(g, step)
    requires IsExecution(g, o1) && IsExecution(g, o2)
    ensures Run(step, o1, s) == Run(step, o2, s)
  {
    ExecutionIsPathOrdered(g, o1);
    ExecutionIsPathOrdered(g, o2);
    forall n
      ensures n in o1 <==> n in o2
    {
      assert n in o1 <==> n in Elements(o1);
      assert n in o2 <==> n in Elements(o2);
    }
    OrdersAgree(g, step, o1, o2, s);
  }

  lemma ExecutionIsPathOrdered(g: Graph, order: seq<Node>)
    requires IsExecution(g, order)
    ensures PathOrdered(g, order)
  {
    assert forall n :: n in order ==> n in Elements(order);
    forall i, j | 0 <= i < j < |order|
      ensures !Reaches(g, order[j], order[i])
    {
      ExecutionOrdersPaths(g, order, i, j);
    }
  }
}
