// The part of the CUDA driver the graph scheduler talks to. A driver call may
// fail at any time; which one does is left open.
module CudaGraphs {
  import opened Dag
  import opened Layering

  type Handle = nat
  const NULL: Handle := 0

  class Driver {
    const reliable: bool            // no call and no allocation ever fails
    var graphs: map<Handle, Graph>  // live CUgraph objects
    var execs: map<Handle, Graph>   // live executables, and what each one runs
    var next: Handle                // handles are never handed out twice
    var log: seq<Node>              // every node the device has run, in order
    ghost var launches: seq<Handle> // every executable handed to it, in order

    ghost predicate Valid()
      reads this
    {
      && next > NULL
      && (forall h :: h in graphs ==> NULL < h < next && WellFormed(graphs[h]))
      && (forall h :: h in execs ==> NULL < h < next && WellFormed(execs[h]))
    }

    constructor (reliable: bool)
      ensures Valid() && graphs == map[] && execs == map[] && log == [] && launches == [] && this.reliable == reliable
    {
      this.reliable := reliable;
      graphs, execs, next, log, launches := map[], map[], 1, [], [];
    }

    // Whether one call, or one allocation, succeeds.
    method Succeeds() returns (ok: bool)
      ensures reliable ==> ok
    {
      ok := *;
      ok := ok || reliable;
    }

    // cuGraphGetNodes: all the nodes, once each, in some order.
    method GetNodes(graph: Handle) returns (ok: bool, nodes: seq<Node>)
      requires graph in graphs
      ensures NoRepeats(nodes) && (reliable ==> ok)
      ensures ok ==> Elements(nodes) == graphs[graph].nodes
    {
      nodes := [];
      ok := Succeeds();
      if !ok { return; }
      var left := graphs[graph].nodes;
      while left != {}
        invariant NoRepeats(nodes)
        invariant Elements(nodes) + left == graphs[graph].nodes
        invariant Elements(nodes) !! left
        decreases left
      {
        var n :| n in left;
        left := left - {n};
        assert Elements(nodes + [n]) == Elements(nodes) + {n};
        assert forall k :: 0 <= k < |nodes| ==> nodes[k] in Elements(nodes);
        nodes := nodes + [n];
      }
    }

    // cuGraphGetEdges: all the edges, as a list of sources and a list of targets.
    method GetEdges(graph: Handle) returns (ok: bool, from: seq<Node>, to: seq<Node>)
      requires graph in graphs
      ensures |from| == |to| && (reliable ==> ok)
      ensures ok ==> (set e | 0 <= e < |from| :: Edge(from[e], to[e])) == graphs[graph].edges
    {
      from, to := [], [];
      ok := Succeeds();
      if !ok { return; }
      var left := graphs[graph].edges;
      while left != {}
        invariant |from| == |to|
        invariant (set e | 0 <= e < |from| :: Edge(from[e], to[e])) + left == graphs[graph].edges
        decreases left
      {
        var e :| e in left;
        left := left - {e};
        ListedStep(from, to, e);
        from, to := from + [e.src], to + [e.dst];
      }
    }

    static lemma ListedStep(from: seq<Node>, to: seq<Node>, e: Edge)
      requires |from| == |to|
      ensures (set k | 0 <= k < |from + [e.src]| :: Edge((from + [e.src])[k], (to + [e.dst])[k]))
           == (set k | 0 <= k < |from| :: Edge(from[k], to[k])) + {e}
    {
      var f, t := from + [e.src], to + [e.dst];
      assert Edge(f[|from|], t[|from|]) == e;
      forall k | 0 <= k < |from|
        ensures Edge(f[k], t[k]) == Edge(from[k], to[k])
      {
      }
    }

    // cuGraphClone
    method CloneGraph(graph: Handle) returns (ok: bool, clone: Handle)
      requires Valid() && graph in graphs
      modifies this`graphs, this`next
      ensures Valid() && (reliable ==> ok)
      ensures ok ==> clone == old(next) && next == old(next) + 1 && graphs == old(graphs)[clone := old(graphs)[graph]]
      ensures !ok ==> clone == NULL && graphs == old(graphs) && next == old(next)
    {
      clone := NULL;
      ok := Succeeds();
      if ok {
        clone := next;
        graphs, next := graphs[clone := graphs[graph]], next + 1;
      }
    }

    // cuGraphDestroyNode, on the clone of a node
    method DestroyNode(graph: Handle, node: Node) returns (ok: bool)
      requires Valid() && graph in graphs && node in graphs[graph].nodes
      modifies this`graphs
      ensures Valid() && (reliable ==> ok)
      ensures graphs == if ok
        then old(graphs)[graph := Restrict(old(graphs)[graph], old(graphs)[graph].nodes - {node})]
        else old(graphs)
    {
      ok := Succeeds();
      if ok {
        graphs := graphs[graph := Restrict(graphs[graph], graphs[graph].nodes - {node})];
      }
    }

    // cuGraphInstantiate and its variants
    method Instantiate(graph: Handle) returns (ok: bool, exec: Handle)
      requires Valid() && graph in graphs
      modifies this`execs, this`next
      ensures Valid() && (reliable ==> ok)
      ensures ok ==> exec == old(next) && next == old(next) + 1 && execs == old(execs)[exec := graphs[graph]]
      ensures !ok ==> exec == NULL && execs == old(execs) && next == old(next)
    {
      exec := NULL;
      ok := Succeeds();
      if ok {
        exec := next;
        execs, next := execs[exec := graphs[graph]], next + 1;
      }
    }

    method DestroyGraph(graph: Handle)
      requires Valid()
      modifies this`graphs
      ensures Valid() && graphs == old(graphs) - {graph}
    {
      graphs := graphs - {graph};
    }

    method DestroyExec(exec: Handle)
      requires Valid()
      modifies this`execs
      ensures Valid() && execs == old(execs) - {exec}
    {
      execs := execs - {exec};
    }

    // cuGraphExecUpdate and the per-node parameter updates: what `exec` runs
    // becomes `content`.
    method Update(exec: Handle, content: Graph) returns (ok: bool)
      requires Valid() && exec in execs && WellFormed(content)
      modifies this`execs
      ensures Valid() && (reliable ==> ok)
      ensures execs == if ok then old(execs)[exec := content] else old(execs)
    {
      ok := Succeeds();
      if ok { execs := execs[exec := content]; }
    }

    // cuGraphExecHostNodeSetParams: succeeds only on a host node of `exec`.
    method UpdateHostNode(exec: Handle, node: Node, content: Graph) returns (ok: bool)
      requires Valid() && exec in execs && WellFormed(content)
      modifies this`execs
      ensures Valid()
      ensures ok ==> node in old(execs)[exec].nodes && node.kind == Host
      ensures reliable && node in old(execs)[exec].nodes && node.kind == Host ==> ok
      ensures execs == if ok then old(execs)[exec := content] else old(execs)
    {
      ok := Succeeds();
      ok := ok && node in execs[exec].nodes && node.kind == Host;
      if ok { execs := execs[exec := content]; }
    }

    // Nothing in `left` has to run before n.
    static predicate Free(g: Graph, left: set<Node>, n: Node) {
      forall e :: e in g.edges && e.dst == n ==> e.src !in left
    }

    // Some order of the graph's nodes in which every node comes after the nodes it
    // depends on: again and again, any node that waits for nothing. There is one
    // unless the graph has a cycle.
    method Schedule(g: Graph) returns (ok: bool, order: seq<Node>)
      requires WellFormed(g)
      ensures ok ==> IsExecution(g, order)
      ensures !ok ==> HasCycle(g)
    {
      order := [];
      var left := g.nodes;
      while left != {}
        invariant left <= g.nodes && Elements(order) == g.nodes - left
        invariant NoRepeats(order) && RespectsEdges(g, order)
        invariant forall e :: e in g.edges && e.src in left ==> e.dst in left
        decreases left
      {
        if n :| n in left && Free(g, left, n) {
          ScheduleStep(g, order, left, n);
          order, left := order + [n], left - {n};
        } else {
          NoneFreeMeansCycle(g, left);
          return false, order;
        }
      }
      return true, order;
    }

    static lemma ScheduleStep(g: Graph, order: seq<Node>, left: set<Node>, n: Node)
      requires WellFormed(g) && n in left && left <= g.nodes && Elements(order) == g.nodes - left
      requires NoRepeats(order) && RespectsEdges(g, order)
      requires forall e :: e in g.edges && e.src in left ==> e.dst in left
      requires Free(g, left, n)
      ensures Elements(order + [n]) == g.nodes - (left - {n})
      ensures NoRepeats(order + [n]) && RespectsEdges(g, order + [n])
    {
      assert Elements(order + [n]) == Elements(order) + {n};
      forall i | 0 <= i < |order|
        ensures order[i] !in left && Edge(n, order[i]) !in g.edges
      {
        assert order[i] in Elements(order);
      }
    }

    static lemma NoneFreeMeansCycle(g: Graph, left: set<Node>)
      requires left != {} && left <= g.nodes
      requires forall n {:trigger Free(g, left, n)} :: n in left ==> !Free(g, left, n)
      ensures HasCycle(g)
    {
      forall n | n in left
        ensures Waits(g, left, n)
      {
        assert !Free(g, left, n);
        var e :| e in g.edges && e.dst == n && e.src in left;
        assert e == Edge(e.src, n);
      }
      StuckSetHasCycle(g, left);
    }

    // cuGraphLaunch: on success the graph runs in some order its edges allow.
    method Launch(exec: Handle) returns (ok: bool, ghost order: seq<Node>)
      requires Valid() && exec in execs
      modifies this`log, this`launches
      ensures Valid() && launches == old(launches) + [exec]
      ensures ok ==> IsExecution(execs[exec], order)
      ensures log == old(log) + order && (!ok ==> order == [])
      ensures reliable && !HasCycle(execs[exec]) ==> ok
    {
      order := [];
      launches := launches + [exec];
      ok := Succeeds();
      var possible, chosen := Schedule(execs[exec]);
      ok := ok && possible;
      if ok {
        order := chosen;
        log := log + chosen;
      }
    }
  }
}
