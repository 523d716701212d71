// The scheduler's list of executables and the calls that go through it: record,
// invalidate, forget, launch, and the driver calls the proxy wraps around them.
module GraphScheduler {
  import opened Dag
  import opened Layering
  import opened Packing
  import opened Splitting
  import opened CudaGraphs
  import opened Graphlets
  import opened GraphRegistry

  datatype Mode = Off | Whole | ByGraphlet

  class Metadata {
    const originalExec: Handle
    const flags: Flags
    var nodeCount: nat
    var edgeCount: nat
    var splittable: bool
    var reason: Reason
    var graphlets: seq<Graphlet>
    var next: Metadata?

    constructor (exec: Handle, flags: Flags)
      ensures originalExec == exec && this.flags == flags
      ensures !splittable && reason == WholeMode && graphlets == [] && next == null
    {
      originalExec, this.flags := exec, flags;
      nodeCount, edgeCount, splittable, reason, graphlets, next := 0, 0, false, WholeMode, [], null;
    }

    ghost predicate Mirrors(e: Entry)
      reads this
    {
      e == Entry(originalExec, splittable, graphlets)
    }
  }

  class Scheduler {
    const driver: Driver
    const policyEnabled: bool
    const passthrough: bool
    const mode: Mode
    const maxNodes: nat
    var head: Metadata?
    ghost var items: seq<Metadata>   // the linked list, front to back
    ghost var entries: seq<Entry>    // what it holds

    ghost predicate Linked()
      reads this, items
    {
      && (head == if items == [] then null else items[0])
      && (forall i {:trigger items[i].next} :: 0 <= i < |items| ==>
            items[i].next == if i + 1 < |items| then items[i + 1] else null)
      && (forall i, j :: 0 <= i < j < |items| ==> items[i] != items[j])
      && |entries| == |items|
      && (forall i :: 0 <= i < |items| ==> items[i].Mirrors(entries[i]))
    }

    ghost predicate Valid()
      reads this, items, driver
    {
      ValidBut(NULL)
    }

    // Valid, except that the entry of `stale` may describe an older content.
    ghost predicate ValidBut(stale: Handle)
      reads this, items, driver
    {
      && Linked() && driver.Valid() && ConsistentBut(entries, driver.execs, stale)
      && (forall h :: h in OwnedGraphs(entries) ==> h < driver.next)
    }

    // The executables and graphs that belong to the application.
    ghost function AppExecs(): map<Handle, Graph>
      reads this, driver
    {
      driver.execs - OwnedExecs(entries)
    }

    ghost function AppGraphs(): map<Handle, Graph>
      reads this, driver
    {
      driver.graphs - OwnedGraphs(entries)
    }

    predicate SplittingOn() {
      policyEnabled && !passthrough && mode == ByGraphlet
    }

    constructor (driver: Driver, policyEnabled: bool, passthrough: bool, mode: Mode, maxNodes: nat)
      requires driver.Valid()
      ensures Valid() && this.driver == driver && entries == []
      ensures this.policyEnabled == policyEnabled && this.passthrough == passthrough
      ensures this.mode == mode && this.maxNodes == maxNodes
    {
      this.driver, this.policyEnabled, this.passthrough, this.mode, this.maxNodes :=
        driver, policyEnabled, passthrough, mode, maxNodes;
      head, items, entries := null, [], [];
    }

    // graph_find_locked
    method Find(exec: Handle) returns (m: Metadata?, ghost k: nat)
      requires Linked()
      ensures m == null ==> !Recorded(entries, exec)
      ensures m != null ==> k < |items| && m == items[k] && entries[k].exec == exec
    {
      m, k := head, 0;
      while m != null
        invariant k <= |items| && m == if k < |items| then items[k] else null
        invariant forall i :: 0 <= i < k ==> entries[i].exec != exec
        decreases |items| - k
      {
        assert m.Mirrors(entries[k]);
        if m.originalExec == exec {
          return;
        }
        m, k := m.next, k + 1;
      }
    }

    // Unlink the entry of `exec`, if there is one, and destroy its graphlets.
    method Unlink(exec: Handle)
      requires Valid()
      modifies this, items, driver`graphs, driver`execs
      ensures Valid()
      ensures !Recorded(entries, exec) && forall x :: x in entries ==> x in old(entries)
      ensures forall m :: m in items ==> m in old(items)
      ensures forall e :: e != exec ==> (SplitEntry(entries, e) <==> SplitEntry(old(entries), e))
      ensures AppExecs() == old(AppExecs()) && AppGraphs() == old(AppGraphs())
      ensures OwnedExecs(entries) <= old(OwnedExecs(entries)) && OwnedGraphs(entries) <= old(OwnedGraphs(entries))
    {
      var m: Metadata?, prev: Metadata? := head, null;
      ghost var k := 0;
      while m != null
        invariant k <= |items| && m == (if k < |items| then items[k] else null)
        invariant prev == if k == 0 then null else items[k - 1]
        invariant forall i :: 0 <= i < k ==> entries[i].exec != exec
        decreases |items| - k
      {
        assert m.Mirrors(entries[k]);
        if m.originalExec == exec {
          break;
        }
        prev, m, k := m, m.next, k + 1;
      }
      if m != null {
        RemoveSplits(entries, k, driver.execs);
        UnlinkAt(prev, m, k);
      }
    }

    // Take the k-th item out of the linked list.
    method Unhook(prev: Metadata?, m: Metadata, ghost k: nat)
      requires Linked()
      requires k < |items| && m == items[k] && prev == if k == 0 then null else items[k - 1]
      modifies this, items
      ensures Linked()
      ensures entries == RemoveAt(old(entries), k) && items == RemoveAt(old(items), k)
      ensures m.graphlets == old(m.graphlets)
    {
      ghost var rest := RemoveAt(items, k);
      assert forall i :: 0 <= i < |rest| ==> rest[i] == items[if i < k then i else i + 1];
      assert m.next == if k + 1 < |items| then items[k + 1] else null;
      if prev == null {
        head := m.next;
      } else {
        prev.next := m.next;
      }
      items, entries := rest, RemoveAt(entries, k);
    }

    method UnlinkAt(prev: Metadata?, m: Metadata, ghost k: nat)
      requires Valid()
      requires k < |items| && m == items[k] && prev == if k == 0 then null else items[k - 1]
      modifies this, items, driver`graphs, driver`execs
      ensures Valid()
      ensures entries == RemoveAt(old(entries), k) && items == RemoveAt(old(items), k)
      ensures AppExecs() == old(AppExecs()) && AppGraphs() == old(AppGraphs())
    {
      ghost var was := entries;
      assert m.Mirrors(was[k]);
      RemoveKeeps(was, k, driver.execs, NULL);
      RemoveFrame(was, k, driver.execs, driver.graphs);
      RemoveSplits(was, k, driver.execs);
      Unhook(prev, m, k);
      DestroyGraphlets(driver, m.graphlets);
    }

    static lemma RemoveFrame(was: seq<Entry>, k: nat, execs: map<Handle, Graph>, graphs: map<Handle, Graph>)
      requires Consistent(was, execs) && k < |was|
      ensures (execs - ExecHandles(was[k].graphlets)) - OwnedExecs(RemoveAt(was, k)) == execs - OwnedExecs(was)
      ensures (graphs - GraphHandles(was[k].graphlets)) - OwnedGraphs(RemoveAt(was, k)) == graphs - OwnedGraphs(was)
    {
      OthersApart(was, k);
      OwnedExecsAfterRemove(was, k);
      OwnedGraphsAfterRemove(was, k);
      assert ExecHandles(was[k].graphlets) <= OwnedExecs(was) && GraphHandles(was[k].graphlets) <= OwnedGraphs(was);
      MinusSplit(execs, OwnedExecs(was), ExecHandles(was[k].graphlets));
      MinusSplit(graphs, OwnedGraphs(was), GraphHandles(was[k].graphlets));
    }

    static lemma RemoveSplits(was: seq<Entry>, k: nat, execs: map<Handle, Graph>)
      requires Consistent(was, execs) && k < |was|
      ensures !Recorded(RemoveAt(was, k), was[k].exec)
      ensures OwnedExecs(RemoveAt(was, k)) <= OwnedExecs(was) && OwnedGraphs(RemoveAt(was, k)) <= OwnedGraphs(was)
      ensures forall e :: e != was[k].exec ==> (SplitEntry(RemoveAt(was, k), e) <==> SplitEntry(was, e))
    {
      var rest := RemoveAt(was, k);
      OthersApart(was, k);
      OwnedExecsAfterRemove(was, k);
      OwnedGraphsAfterRemove(was, k);
      RemoveKeeps(was, k, execs, NULL);
      forall e | e != was[k].exec
        ensures SplitEntry(rest, e) <==> SplitEntry(was, e)
      {
        SplitAfterRemove(was, k, e);
      }
    }

    static lemma SplitAfterRemove(was: seq<Entry>, k: nat, e: Handle)
      requires k < |was| && e != was[k].exec
      ensures SplitEntry(RemoveAt(was, k), e) <==> SplitEntry(was, e)
    {
      var rest := RemoveAt(was, k);
      if SplitEntry(was, e) {
        var i :| 0 <= i < |was| && was[i].exec == e && was[i].splittable;
        assert rest[if i < k then i else i - 1] == was[i];
      }
      if SplitEntry(rest, e) {
        var i :| 0 <= i < |rest| && rest[i].exec == e && rest[i].splittable;
        assert was[if i < k then i else i + 1] == rest[i];
      }
    }

    // lilt_graph_forget
    method Forget(exec: Handle)
      requires Valid()
      modifies this, items, driver`graphs, driver`execs
      ensures Valid() && !SplitEntry(entries, exec)
      ensures exec != NULL ==> !Recorded(entries, exec)
      ensures forall m :: m in items ==> m in old(items)
      ensures forall e :: e != exec ==> (SplitEntry(entries, e) <==> SplitEntry(old(entries), e))
      ensures AppExecs() == old(AppExecs()) && AppGraphs() == old(AppGraphs())
    {
      if exec == NULL {
        NullIsUnrecorded(entries, driver.execs);
        return;
      }
      Unlink(exec);
    }

    // Turn the k-th item into one that is launched whole.
    method ClearSplit(m: Metadata, why: Reason, ghost k: nat)
      requires Linked() && k < |items| && m == items[k]
      modifies m, this`entries
      ensures Linked() && entries == old(entries)[k := Entry(old(entries)[k].exec, false, [])] && m.reason == why
    {
      assert m.Mirrors(entries[k]);
      m.graphlets, m.splittable, m.reason := [], false, why;
      entries := entries[k := Entry(entries[k].exec, false, [])];
    }

    method MarkWhole(m: Metadata, why: Reason, ghost k: nat, ghost stale: Handle)
      requires ValidBut(stale) && k < |items| && m == items[k] && (stale == NULL || stale == m.originalExec)
      modifies m, this`entries, driver`graphs, driver`execs
      ensures Valid() && entries == old(entries)[k := Entry(old(entries)[k].exec, false, [])] && m.reason == why
      ensures AppExecs() == old(AppExecs()) && AppGraphs() == old(AppGraphs())
    {
      assert m.Mirrors(entries[k]);
      WholeKeeps(entries, k, driver.execs, stale);
      WholeFrame(entries, k, driver.execs, driver.graphs, stale);
      DestroyGraphlets(driver, m.graphlets);
      ClearSplit(m, why, k);
    }

    // lilt_graph_invalidate: afterwards no entry is stale.
    method Invalidate(exec: Handle, why: Reason)
      requires ValidBut(exec)
      modifies items, this`entries, driver`graphs, driver`execs
      ensures Valid() && !SplitEntry(entries, exec)
      ensures forall e :: e != exec ==> (SplitEntry(entries, e) <==> SplitEntry(old(entries), e))
      ensures AppExecs() == old(AppExecs()) && AppGraphs() == old(AppGraphs())
    {
      if exec == NULL {
        NullIsUnrecorded(entries, driver.execs);
        return;
      }
      var m;
      ghost var k: nat;
      m, k := Find(exec);
      if m != null {
        assert m.Mirrors(entries[k]);
        OnlyEntry(entries, k);
        if m.splittable {
          WholeSplits(entries, k, driver.execs, exec);
          MarkWhole(m, why, k, exec);
          return;
        }
      }
      WholeIsNeverStale(entries, driver.execs, exec);
    }

    static lemma NullIsUnrecorded(was: seq<Entry>, execs: map<Handle, Graph>)
      requires Consistent(was, execs)
      ensures !Recorded(was, NULL) && !SplitEntry(was, NULL)
    {
      assert forall k :: 0 <= k < |was| ==> EntryOk(was[k], execs, NULL);
    }

    static lemma OnlyEntry(was: seq<Entry>, k: nat)
      requires forall i, j :: 0 <= i < j < |was| ==> Apart(was[i], was[j])
      requires k < |was|
      ensures SplitEntry(was, was[k].exec) <==> was[k].splittable
    {
      forall j | 0 <= j < |was| && was[j].exec == was[k].exec
        ensures j == k
      {
        OneEntry(was, j, k);
      }
    }

    static lemma WholeFrame(was: seq<Entry>, k: nat, execs: map<Handle, Graph>, graphs: map<Handle, Graph>,
                            stale: Handle)
      requires ConsistentBut(was, execs, stale) && k < |was| && (stale == NULL || stale == was[k].exec)
      ensures (execs - ExecHandles(was[k].graphlets)) - OwnedExecs(was[k := Entry(was[k].exec, false, [])]) ==
        execs - OwnedExecs(was)
      ensures (graphs - GraphHandles(was[k].graphlets)) - OwnedGraphs(was[k := Entry(was[k].exec, false, [])]) ==
        graphs - OwnedGraphs(was)
    {
      WholeKeeps(was, k, execs, stale);
      assert ExecHandles(was[k].graphlets) <= OwnedExecs(was) && GraphHandles(was[k].graphlets) <= OwnedGraphs(was);
      MinusSplit(execs, OwnedExecs(was), ExecHandles(was[k].graphlets));
      MinusSplit(graphs, OwnedGraphs(was), GraphHandles(was[k].graphlets));
    }

    static lemma WholeSplits(was: seq<Entry>, k: nat, execs: map<Handle, Graph>, stale: Handle)
      requires ConsistentBut(was, execs, stale) && k < |was| && (stale == NULL || stale == was[k].exec)
      ensures !SplitEntry(was[k := Entry(was[k].exec, false, [])], was[k].exec)
      ensures forall e :: e != was[k].exec ==>
        (SplitEntry(was[k := Entry(was[k].exec, false, [])], e) <==> SplitEntry(was, e))
    {
      WholeKeeps(was, k, execs, stale);
      forall e | e != was[k].exec
        ensures SplitEntry(was[k := Entry(was[k].exec, false, [])], e) <==> SplitEntry(was, e)
      {
        SplitAfterReplace(was, k, Entry(was[k].exec, false, []), e);
      }
    }

    static lemma SplitAfterReplace(was: seq<Entry>, k: nat, whole: Entry, e: Handle)
      requires k < |was| && e != was[k].exec == whole.exec
      ensures SplitEntry(was[k := whole], e) <==> SplitEntry(was, e)
    {
      var after := was[k := whole];
      if SplitEntry(was, e) {
        var i :| 0 <= i < |was| && was[i].exec == e && was[i].splittable;
        assert after[i] == was[i];
      }
      if SplitEntry(after, e) {
        var i :| 0 <= i < |after| && after[i].exec == e && after[i].splittable;
        assert after[i] == was[i];
      }
    }

    // ----- record -----

    method Prepend(m: Metadata)
      requires Linked() && m !in items && m.next == null
      modifies this, m
      ensures Linked() && items == [m] + old(items)
      ensures entries == [old(Entry(m.originalExec, m.splittable, m.graphlets))] + old(entries)
    {
      ghost var after := [m] + items;
      assert forall i :: 0 < i < |after| ==> after[i] == items[i - 1];
      m.next := head;
      head := m;
      items, entries := after, [Entry(m.originalExec, m.splittable, m.graphlets)] + entries;
    }

    // Replace whatever the list holds for `exec` by a new item.
    method Insert(m: Metadata, ghost content: Graph)
      requires Valid() && m !in items && m.next == null
      requires Incoming(entries, Entry(m.originalExec, m.splittable, m.graphlets), driver.execs, content, driver.next)
      modifies this, items, m, driver`graphs, driver`execs
      ensures Valid() && entries != [] && entries[0] == old(Entry(m.originalExec, m.splittable, m.graphlets))
      ensures Recorded(entries, m.originalExec) && (SplitEntry(entries, m.originalExec) <==> old(m.splittable))
      ensures forall e :: e != m.originalExec ==> (SplitEntry(entries, e) <==> SplitEntry(old(entries), e))
      ensures AppExecs() == old(AppExecs()) - old(ExecHandles(m.graphlets))
      ensures AppGraphs() == old(AppGraphs()) - old(GraphHandles(m.graphlets))
      ensures forall x :: x in items ==> x == m || x in old(items)
    {
      ghost var e := Entry(m.originalExec, m.splittable, m.graphlets);
      ghost var was, execs0 := entries, driver.execs;
      Unlink(m.originalExec);
      ghost var rest := entries;
      InsertKeeps(was, rest, e, execs0, driver.execs, content, driver.next);
      PushFrame(rest, e, driver.execs, driver.graphs);
      PushSplits(rest, e);
      Prepend(m);
    }

    // Whether a graph recorded with these flags is to be split.
    ghost predicate Wanted(content: Graph, flags: Flags, symbols: bool) {
      SplittingOn() && CanBeSplit(content, flags, symbols)
    }

    // It is wanted in the graphlet mode only, and only of graphs that can be split.
    lemma WantedOnly(content: Graph, flags: Flags, symbols: bool)
      ensures Wanted(content, flags, symbols) <==>
        && policyEnabled && !passthrough && mode == ByGraphlet
        && symbols && !flags.deviceLaunch && content.nodes != {} && !HasCycle(content)
        && forall n :: n in content.nodes ==> n.kind !in {Host, ChildGraph, OtherKind}
    {
    }

    // lilt_graph_record, for an executable the application has just instantiated.
    method Record(exec: Handle, graph: Handle, flags: Flags, symbols: bool)
      requires Valid()
      requires exec != NULL && graph != NULL ==>
        exec in AppExecs() && graph in AppGraphs() && AppExecs()[exec] == AppGraphs()[graph]
      modifies this, items, driver`graphs, driver`execs, driver`next
      ensures Valid()
      ensures AppExecs() == old(AppExecs()) && AppGraphs() == old(AppGraphs())
      ensures SplitEntry(entries, exec) ==> SplitEntry(old(entries), exec) || Wanted(AppExecs()[exec], flags, symbols)
      ensures SplitEntry(entries, exec) && !SplitEntry(old(entries), exec) ==>
        && policyEnabled && !passthrough && mode == ByGraphlet && symbols && !flags.deviceLaunch
        && !HasCycle(AppExecs()[exec])
      ensures exec != NULL && graph != NULL && driver.reliable ==>
        Recorded(entries, exec) && (SplitEntry(entries, exec) <==> Wanted(AppExecs()[exec], flags, symbols))
      ensures forall e :: e != exec ==> (SplitEntry(entries, e) <==> SplitEntry(old(entries), e))
      ensures forall x :: x in items && x !in old(items) ==> fresh(x)
    {
      if exec == NULL || graph == NULL {
        return;
      }
      var gotMetadata := driver.Succeeds();
      if !gotMetadata {
        return;
      }
      ghost var content := driver.execs[exec];
      var m := new Metadata(exec, flags);
      if SplittingOn() {
        Fill(m, graph, symbols, content);
      }
      Insert(m, content);
    }

    method StoreResult(m: Metadata, r: BuildResult)
      requires Linked() && m !in items
      modifies m
      ensures Linked() && m.next == old(m.next)
      ensures m.splittable == (if r.Split? then true else old(m.splittable))
      ensures m.graphlets == if r.Split? then r.graphlets else old(m.graphlets)
      ensures m.nodeCount == r.nodeCount && m.edgeCount == r.edgeCount && (r.Fallback? ==> m.reason == r.reason)
    {
      m.nodeCount, m.edgeCount := r.nodeCount, r.edgeCount;
      match r
      case Fallback(reason, _, _) =>
        m.reason := reason;
      case Split(graphlets, _, _) =>
        m.splittable, m.graphlets := true, graphlets;
    }

    static function EntryOf(exec: Handle, r: BuildResult): Entry {
      if r.Split? then Entry(exec, true, r.graphlets) else Entry(exec, false, [])
    }

    // Build the graphlets of a new item.
    method Fill(m: Metadata, graph: Handle, symbols: bool, ghost content: Graph)
      requires Valid() && m !in items && m.next == null && !m.splittable && m.graphlets == []
      requires m.originalExec in AppExecs() && graph in AppGraphs()
      requires content == AppExecs()[m.originalExec] == AppGraphs()[graph]
      modifies m, driver`graphs, driver`execs, driver`next
      ensures Valid() && m.next == null
      ensures Incoming(entries, Entry(m.originalExec, m.splittable, m.graphlets), driver.execs, content, driver.next)
      ensures m.splittable ==> CanBeSplit(content, m.flags, symbols)
      ensures driver.reliable && CanBeSplit(content, m.flags, symbols) ==> m.splittable
      ensures AppExecs() - ExecHandles(m.graphlets) == old(AppExecs())
      ensures AppGraphs() - GraphHandles(m.graphlets) == old(AppGraphs())
    {
      var r := BuildFor(m.originalExec, graph, m.flags, symbols, content);
      StoreResult(m, r);
    }

    method BuildFor(exec: Handle, graph: Handle, flags: Flags, symbols: bool, ghost content: Graph)
      returns (r: BuildResult)
      requires Valid() && exec in AppExecs() && graph in AppGraphs()
      requires content == AppExecs()[exec] == AppGraphs()[graph]
      modifies driver`graphs, driver`execs, driver`next
      ensures Valid() && Incoming(entries, EntryOf(exec, r), driver.execs, content, driver.next)
      ensures RightAnswer(r, content, flags, maxNodes, symbols, driver.reliable)
      ensures AppExecs() - ExecHandles(EntryOf(exec, r).graphlets) == old(AppExecs())
      ensures AppGraphs() - GraphHandles(EntryOf(exec, r).graphlets) == old(AppGraphs())
    {
      ghost var execs0, graphs0, fresh0 := driver.execs, driver.graphs, driver.next;
      assert graph in graphs0 && graphs0[graph] == content;
      r := BuildGraphlets(driver, graph, flags, maxNodes, symbols);
      BuildResultFrame(entries, exec, r, execs0, graphs0, driver.execs, driver.graphs, fresh0, driver.next, content);
    }

    static lemma BuildResultFrame(was: seq<Entry>, exec: Handle, r: BuildResult, execs0: map<Handle, Graph>,
                                  graphs0: map<Handle, Graph>, execs: map<Handle, Graph>, graphs: map<Handle, Graph>,
                                  fresh0: Handle, next: Handle, content: Graph)
      requires Consistent(was, execs0) && NULL !in execs
      requires r.Fallback? ==> execs == execs0 && graphs == graphs0
      requires r.Split? ==> SplitOf(content, r.graphlets, execs)
      requires r.Split? ==> Built(execs0, graphs0, execs, graphs, r.graphlets, fresh0)
      requires forall h :: h in execs0 ==> h < fresh0
      requires forall h :: h in OwnedGraphs(was) ==> h < fresh0
      requires forall h :: h in graphs ==> h < next
      requires exec in execs0 && execs0[exec] == content && exec !in OwnedExecs(was)
      ensures Consistent(was, execs) && Incoming(was, EntryOf(exec, r), execs, content, next)
      ensures execs - OwnedExecs(was) - ExecHandles(EntryOf(exec, r).graphlets) == execs0 - OwnedExecs(was)
      ensures graphs - OwnedGraphs(was) - GraphHandles(EntryOf(exec, r).graphlets) == graphs0 - OwnedGraphs(was)
    {
      if r.Split? {
        BuildFrame(was, EntryOf(exec, r), execs0, graphs0, execs, graphs, fresh0, next, content);
      }
    }

    static lemma BuildFrame(was: seq<Entry>, e: Entry, execs0: map<Handle, Graph>, graphs0: map<Handle, Graph>,
                            execs: map<Handle, Graph>, graphs: map<Handle, Graph>, fresh0: Handle, next: Handle,
                            content: Graph)
      requires Consistent(was, execs0) && NULL !in execs
      requires Built(execs0, graphs0, execs, graphs, e.graphlets, fresh0)
      requires forall h :: h in execs0 ==> h < fresh0
      requires forall h :: h in OwnedGraphs(was) ==> h < fresh0
      requires forall h :: h in graphs ==> h < next
      requires e.exec in execs0 && execs0[e.exec] == content && e.exec !in OwnedExecs(was)
      requires e.splittable && SplitOf(content, e.graphlets, execs)
      ensures Consistent(was, execs) && Incoming(was, e, execs, content, next)
      ensures execs - OwnedExecs(was) - ExecHandles(e.graphlets) == execs0 - OwnedExecs(was)
      ensures graphs - OwnedGraphs(was) - GraphHandles(e.graphlets) == graphs0 - OwnedGraphs(was)
    {
      BuildKeepsRegistry(was, execs0, execs, e.graphlets);
      BuiltIsIncoming(was, e, execs0, graphs0, execs, graphs, fresh0, next, content);
      MinusSwap(execs, OwnedExecs(was), ExecHandles(e.graphlets));
      MinusSwap(graphs, OwnedGraphs(was), GraphHandles(e.graphlets));
    }

    // ----- launch -----

    // The driver was handed the graphlets in index order, all of them if `all`.
    ghost predicate Handed(graphlets: seq<Graphlet>, before: seq<Handle>, after: seq<Handle>, all: bool) {
      exists n :: 0 <= n <= |graphlets| && after == before + ExecList(graphlets, n) && (all ==> n == |graphlets|)
    }

    // The graphlets one after another, stopping at the first that fails.
    method LaunchPieces(graphlets: seq<Graphlet>, ghost content: Graph) returns (ok: bool, ghost order: seq<Node>)
      requires driver.Valid() && SplitOf(content, graphlets, driver.execs)
      modifies driver`log, driver`launches
      ensures driver.Valid() && driver.log == old(driver.log) + order
      ensures Handed(graphlets, old(driver.launches), driver.launches, ok)
      ensures RanAsFarAs(content, order, ok)
      ensures driver.reliable ==> ok
    {
      ghost var layer :| SplitBy(content, layer, graphlets, driver.execs);
      ghost var orders: seq<seq<Node>>;
      ok, orders := LaunchEach(graphlets, content, layer);
      order := Flatten(orders);
      SplitPrefixIsPartial(content, layer, GroupsOf(graphlets), orders);
      if ok {
        SplitIsExecution(content, layer, GroupsOf(graphlets), orders);
      }
    }

    method LaunchEach(graphlets: seq<Graphlet>, ghost content: Graph, ghost layer: LayerMap)
      returns (ok: bool, ghost orders: seq<seq<Node>>)
      requires driver.Valid() && Layered(content, layer) && AllRun(driver.execs, graphlets, content, layer)
      modifies driver`log, driver`launches
      ensures driver.Valid() && driver.log == old(driver.log) + Flatten(orders)
      ensures PiecesRan(content, layer, GroupsOf(graphlets), orders) && (ok ==> |orders| == |graphlets|)
      ensures Handed(graphlets, old(driver.launches), driver.launches, ok)
      ensures driver.reliable ==> ok
    {
      orders := [];
      for i := 0 to |graphlets|
        invariant driver.Valid() && |orders| == i && PiecesRan(content, layer, GroupsOf(graphlets), orders)
        invariant driver.log == old(driver.log) + Flatten(orders)
        invariant driver.launches == old(driver.launches) + ExecList(graphlets, i)
      {
        assert Runs(driver.execs, graphlets[i], content, layer);
        ghost var piece: seq<Node>;
        ok, piece := LaunchPiece(graphlets[i], content, layer);
        assert driver.launches == old(driver.launches) + ExecList(graphlets, i + 1);
        if !ok {
          return;
        }
        OneMorePieceRan(content, layer, GroupsOf(graphlets), orders, piece);
        orders := orders + [piece];
      }
      return true, orders;
    }

    method LaunchPiece(g: Graphlet, ghost content: Graph, ghost layer: LayerMap)
      returns (ok: bool, ghost piece: seq<Node>)
      requires driver.Valid() && Layered(content, layer) && Runs(driver.execs, g, content, layer)
      modifies driver`log, driver`launches
      ensures driver.Valid() && driver.log == old(driver.log) + piece
        && driver.launches == old(driver.launches) + [g.exec]
      ensures if ok then PieceRan(content, layer, g.group, piece) else piece == []
      ensures driver.reliable ==> ok
    {
      PieceHasNoCycle(content, layer, g.group);
      ok, piece := driver.Launch(g.exec);
    }

    static lemma OneMorePieceRan(content: Graph, layer: LayerMap, groups: seq<Group>, orders: seq<seq<Node>>,
                                 next: seq<Node>)
      requires layer.Keys == content.nodes && PiecesRan(content, layer, groups, orders) && |orders| < |groups|
      requires PieceRan(content, layer, groups[|orders|], next)
      ensures PiecesRan(content, layer, groups, orders + [next])
      ensures Flatten(orders + [next]) == Flatten(orders) + next
    {
      var all := orders + [next];
      assert all[..|orders|] == orders;
      assert forall k :: 0 <= k < |orders| ==> all[k] == orders[k];
    }

    // The driver was handed the graphlets recorded for `exec`.
    ghost predicate HandedPieces(entries: seq<Entry>, exec: Handle, before: seq<Handle>, after: seq<Handle>,
                                 all: bool)
    {
      exists k :: 0 <= k < |entries| && entries[k].exec == exec && Handed(entries[k].graphlets, before, after, all)
    }

    // lilt_graph_launch: whichever way it goes, what runs is an execution of
    // what the executable holds now, or, on a failure, a part of one that is
    // closed under dependencies.
    method Launch(exec: Handle, symbolFound: bool) returns (ok: bool, inPieces: bool, ghost order: seq<Node>)
      requires Valid() && exec in AppExecs()
      modifies driver`log, driver`launches
      ensures Valid() && driver.log == old(driver.log) + order
      ensures symbolFound && !inPieces ==> driver.launches == old(driver.launches) + [exec]
      ensures inPieces ==> HandedPieces(entries, exec, old(driver.launches), driver.launches, ok)
      ensures if ok then IsExecution(driver.execs[exec], order) else IsPartialExecution(driver.execs[exec], order)
      ensures symbolFound ==>
        inPieces == (policyEnabled && !passthrough && mode == ByGraphlet && SplitEntry(entries, exec))
      ensures driver.reliable && symbolFound && !HasCycle(driver.execs[exec]) ==> ok
      ensures !symbolFound ==> !ok
      ensures !ok && !inPieces ==> order == []
    {
      ok, inPieces, order := false, false, [];
      if !symbolFound {
        return;
      }
      if policyEnabled && mode == Off {
        ok, order := LaunchWhole(exec);
        return;
      }
      ok, inPieces, order := LaunchRecorded(exec);
    }

    method LaunchRecorded(exec: Handle) returns (ok: bool, inPieces: bool, ghost order: seq<Node>)
      requires Valid() && exec in driver.execs
      modifies driver`log, driver`launches
      ensures driver.Valid() && driver.log == old(driver.log) + order
      ensures if inPieces then HandedPieces(entries, exec, old(driver.launches), driver.launches, ok)
              else driver.launches == old(driver.launches) + [exec]
      ensures inPieces == (SplittingOn() && SplitEntry(entries, exec))
      ensures RanAsFarAs(driver.execs[exec], order, ok) && (!ok && !inPieces ==> order == [])
      ensures driver.reliable && !HasCycle(driver.execs[exec]) ==> ok
    {
      var m;
      ghost var k: nat;
      m, k := FindSplit(exec);
      inPieces := m != null;
      if m != null {
        ok, order := LaunchPieces(m.graphlets, driver.execs[exec]);
        assert HandedPieces(entries, exec, old(driver.launches), driver.launches, ok);
      } else {
        ok, order := LaunchWhole(exec);
      }
    }

    method LaunchWhole(exec: Handle) returns (ok: bool, ghost order: seq<Node>)
      requires driver.Valid() && exec in driver.execs
      modifies driver`log, driver`launches
      ensures driver.Valid() && driver.log == old(driver.log) + order
        && driver.launches == old(driver.launches) + [exec]
      ensures RanAsFarAs(driver.execs[exec], order, ok) && (!ok ==> order == [])
      ensures driver.reliable && !HasCycle(driver.execs[exec]) ==> ok
    {
      ok, order := driver.Launch(exec);
    }

    // The item of an executable that is to be launched in pieces.
    method FindSplit(exec: Handle) returns (m: Metadata?, ghost k: nat)
      requires Valid()
      ensures (m != null) == (SplittingOn() && SplitEntry(entries, exec))
      ensures m != null ==>
        && k < |entries| && entries[k].exec == exec && m.graphlets == entries[k].graphlets
        && exec in driver.execs && SplitOf(driver.execs[exec], m.graphlets, driver.execs)
    {
      m, k := Find(exec);
      if m != null {
        assert m.Mirrors(entries[k]) && EntryOk(entries[k], driver.execs, NULL);
        OnlyEntry(entries, k);
        if !SplittingOn() || !m.splittable {
          m := null;
        }
      }
    }

    // ----- the driver calls the proxy wraps -----

    // cuGraphInstantiate and its variants
    method InstantiateGraph(graph: Handle, flags: Flags, symbols: bool) returns (ok: bool, exec: Handle)
      requires Valid() && graph in AppGraphs()
      modifies this, items, driver`graphs, driver`execs, driver`next
      ensures Valid() && AppGraphs() == old(AppGraphs())
      ensures ok ==> exec !in old(AppExecs()) && AppExecs() == old(AppExecs())[exec := old(AppGraphs())[graph]]
      ensures !ok ==> AppExecs() == old(AppExecs())
      ensures ok && SplitEntry(entries, exec) ==> Wanted(old(AppGraphs())[graph], flags, symbols)
      ensures ok && driver.reliable && Wanted(old(AppGraphs())[graph], flags, symbols) ==> SplitEntry(entries, exec)
      ensures forall e :: e in old(AppExecs()) ==> (SplitEntry(entries, e) <==> SplitEntry(old(entries), e))
      ensures driver.reliable ==> ok
      ensures forall x :: x in items && x !in old(items) ==> fresh(x)
    {
      ghost var execs0 := driver.execs;
      ok, exec := driver.Instantiate(graph);
      if ok {
        FreshExec(entries, execs0, exec, driver.graphs[graph]);
        Record(exec, graph, flags, symbols);
      }
    }

    static lemma FreshExec(was: seq<Entry>, execs: map<Handle, Graph>, exec: Handle, content: Graph)
      requires Consistent(was, execs) && exec !in execs && exec != NULL
      ensures Consistent(was, execs[exec := content]) && !Recorded(was, exec)
      ensures execs[exec := content] - OwnedExecs(was) == (execs - OwnedExecs(was))[exec := content]
    {
      ConsistentFrame(was, execs, execs[exec := content]);
      forall k | 0 <= k < |was|
        ensures was[k].exec != exec
      {
        assert EntryOk(was[k], execs, NULL);
      }
      forall h | h in OwnedExecs(was)
        ensures h in execs
      {
        var k :| 0 <= k < |was| && h in ExecHandles(was[k].graphlets);
        assert ExecHandles(was[k].graphlets) <= execs.Keys;
      }
    }

    // The intercepted updates (whole-graph, kernel, memcpy, memset and
    // node-enable): the driver call, then the invalidation if it succeeded.
    method UpdateExec(exec: Handle, content: Graph) returns (ok: bool)
      requires Valid() && exec in AppExecs() && WellFormed(content)
      modifies items, this`entries, driver`graphs, driver`execs
      ensures Valid() && AppGraphs() == old(AppGraphs()) && (driver.reliable ==> ok)
      ensures AppExecs() == if ok then old(AppExecs())[exec := content] else old(AppExecs())
      ensures ok ==> !SplitEntry(entries, exec)
      ensures forall e :: e != exec ==> (SplitEntry(entries, e) <==> SplitEntry(old(entries), e))
    {
      UpdateLeavesStale(entries, exec, content, driver.execs);
      ghost var execs0, owned := driver.execs, OwnedExecs(entries);
      ok := driver.Update(exec, content);
      if ok {
        assert driver.execs - owned == (execs0 - owned)[exec := content];
        Invalidate(exec, Updated);
      }
    }

    // cuGraphExecHostNodeSetParams, which the proxy passes through.
    method UpdateHostNode(exec: Handle, node: Node, content: Graph) returns (ok: bool)
      requires Valid() && exec in AppExecs() && WellFormed(content)
      modifies driver`execs
      ensures Valid() && AppGraphs() == old(AppGraphs())
      ensures AppExecs() == if ok then old(AppExecs())[exec := content] else old(AppExecs())
      ensures ok ==> !SplitEntry(entries, exec)
    {
      UpdateLeavesStale(entries, exec, content, driver.execs);
      ghost var execs0, owned := driver.execs, OwnedExecs(entries);
      ok := driver.UpdateHostNode(exec, node, content);
      if ok {
        assert driver.execs - owned == (execs0 - owned)[exec := content];
        HostGraphIsWhole(entries, execs0, exec, node);
        WholeIsNeverStale(entries, driver.execs, exec);
      }
    }

    // cuGraphExecDestroy
    method DestroyExec(exec: Handle)
      requires Valid() && exec in AppExecs()
      modifies this, items, driver`graphs, driver`execs
      ensures Valid() && AppGraphs() == old(AppGraphs())
      ensures AppExecs() == old(AppExecs()) - {exec}
      ensures forall x :: x in items ==> x in old(items)
    {
      Forget(exec);
      ConsistentFrame(entries, driver.execs, driver.execs - {exec});
      MinusSwap(driver.execs, {exec}, OwnedExecs(entries));
      driver.DestroyExec(exec);
    }
  }
}
