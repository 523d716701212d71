// What the scheduler remembers about executables, as a value: at most one entry
// per executable, and the driver objects each entry owns.
module GraphRegistry {
  import opened Dag
  import opened CudaGraphs
  import opened Graphlets

  datatype Entry = Entry(exec: Handle, splittable: bool, graphlets: seq<Graphlet>)

  function RemoveAt<T>(s: seq<T>, k: nat): seq<T>
    requires k < |s|
  {
    s[..k] + s[k + 1..]
  }

  ghost function OwnedExecs(entries: seq<Entry>): set<Handle> {
    set k, h | 0 <= k < |entries| && h in ExecHandles(entries[k].graphlets) :: h
  }

  ghost function OwnedGraphs(entries: seq<Entry>): set<Handle> {
    set k, h | 0 <= k < |entries| && h in GraphHandles(entries[k].graphlets) :: h
  }

  // A split entry stands for what the executable runs now; `stale` names an
  // executable whose content has changed since its entry was made.
  ghost predicate EntryOk(e: Entry, execs: map<Handle, Graph>, stale: Handle) {
    && e.exec in execs
    && (!e.splittable ==> e.graphlets == [])
    && (e.splittable && e.exec != stale ==> SplitOf(execs[e.exec], e.graphlets, execs))
  }

  ghost predicate Apart(a: Entry, b: Entry) {
    && a.exec != b.exec
    && ExecHandles(a.graphlets) !! ExecHandles(b.graphlets)
    && GraphHandles(a.graphlets) !! GraphHandles(b.graphlets)
  }

  ghost predicate Consistent(entries: seq<Entry>, execs: map<Handle, Graph>) {
    ConsistentBut(entries, execs, NULL)
  }

  ghost predicate ConsistentBut(entries: seq<Entry>, execs: map<Handle, Graph>, stale: Handle) {
    && NULL !in execs
    && (forall k :: 0 <= k < |entries| ==>
          EntryOk(entries[k], execs, stale) && ExecHandles(entries[k].graphlets) <= execs.Keys)
    && (forall j, k :: 0 <= j < k < |entries| ==> Apart(entries[j], entries[k]))
    && (forall j :: 0 <= j < |entries| ==> entries[j].exec !in OwnedExecs(entries))
  }

  ghost predicate Recorded(entries: seq<Entry>, exec: Handle) {
    exists k :: 0 <= k < |entries| && entries[k].exec == exec
  }

  // An executable that will be launched piece by piece.
  ghost predicate SplitEntry(entries: seq<Entry>, exec: Handle) {
    exists k :: 0 <= k < |entries| && entries[k].exec == exec && entries[k].splittable
  }

  lemma ExecsDiffer(entries: seq<Entry>, j: nat, k: nat)
    requires forall i, l :: 0 <= i < l < |entries| ==> Apart(entries[i], entries[l])
    requires j < |entries| && k < |entries| && j != k
    ensures entries[j].exec != entries[k].exec
  {
    assert if j < k then Apart(entries[j], entries[k]) else Apart(entries[k], entries[j]);
  }

  lemma OneEntry(entries: seq<Entry>, j: nat, k: nat)
    requires forall i, l :: 0 <= i < l < |entries| ==> Apart(entries[i], entries[l])
    requires j < |entries| && k < |entries|
    requires entries[j].exec == entries[k].exec
    ensures j == k
  {
    if j != k { ExecsDiffer(entries, j, k); }
  }

  // A split depends only on the graph it stands for and on its own executables.
  lemma SplitOfFrame(content: Graph, graphlets: seq<Graphlet>, a: map<Handle, Graph>, b: map<Handle, Graph>)
    requires NULL !in a && SplitOf(content, graphlets, a)
    requires forall h :: h in ExecHandles(graphlets) && h in a ==> h in b && b[h] == a[h]
    ensures SplitOf(content, graphlets, b)
  {
    var layer :| SplitBy(content, layer, graphlets, a);
    forall k | 0 <= k < |graphlets|
      ensures Runs(b, graphlets[k], content, layer)
    {
      assert Runs(a, graphlets[k], content, layer);
      ExecInHandles(graphlets, k);
    }
    assert SplitBy(content, layer, graphlets, b);
  }

  // Driver changes that leave every recorded and every owned executable alone.
  lemma ConsistentFrame(entries: seq<Entry>, a: map<Handle, Graph>, b: map<Handle, Graph>)
    requires Consistent(entries, a) && NULL !in b
    requires forall h :: h in a && (h in OwnedExecs(entries) || Recorded(entries, h)) ==> h in b && b[h] == a[h]
    ensures Consistent(entries, b)
  {
    forall k | 0 <= k < |entries|
      ensures EntryOk(entries[k], b, NULL) && ExecHandles(entries[k].graphlets) <= b.Keys
    {
      assert EntryOk(entries[k], a, NULL) && Recorded(entries, entries[k].exec);
      assert ExecHandles(entries[k].graphlets) <= OwnedExecs(entries);
      if entries[k].splittable {
        SplitOfFrame(a[entries[k].exec], entries[k].graphlets, a, b);
      }
    }
  }

  // ----- removing an entry and destroying its graphlets -----

  lemma OthersApart(entries: seq<Entry>, k: nat)
    requires k < |entries|
    requires forall i, j :: 0 <= i < j < |entries| ==> Apart(entries[i], entries[j])
    ensures forall i :: 0 <= i < |entries| && i != k ==>
      ExecHandles(entries[i].graphlets) !! ExecHandles(entries[k].graphlets)
    ensures forall i :: 0 <= i < |entries| && i != k ==>
      GraphHandles(entries[i].graphlets) !! GraphHandles(entries[k].graphlets)
    ensures forall i :: 0 <= i < |entries| && i != k ==> entries[i].exec != entries[k].exec
  {
    forall i | 0 <= i < |entries| && i != k
      ensures if i < k then Apart(entries[i], entries[k]) else Apart(entries[k], entries[i])
    {
    }
  }

  lemma OwnedExecsAfterRemove(entries: seq<Entry>, k: nat)
    requires k < |entries|
    requires forall i :: 0 <= i < |entries| && i != k ==>
      ExecHandles(entries[i].graphlets) !! ExecHandles(entries[k].graphlets)
    ensures OwnedExecs(RemoveAt(entries, k)) == OwnedExecs(entries) - ExecHandles(entries[k].graphlets)
  {
    var rest := RemoveAt(entries, k);
    forall h
      ensures h in OwnedExecs(rest) <==> h in OwnedExecs(entries) && h !in ExecHandles(entries[k].graphlets)
    {
      if h in OwnedExecs(rest) {
        var i :| 0 <= i < |rest| && h in ExecHandles(rest[i].graphlets);
        assert rest[i] == entries[if i < k then i else i + 1];
      }
      if h in OwnedExecs(entries) && h !in ExecHandles(entries[k].graphlets) {
        var i :| 0 <= i < |entries| && h in ExecHandles(entries[i].graphlets);
        assert rest[if i < k then i else i - 1] == entries[i];
      }
    }
  }

  lemma OwnedGraphsAfterRemove(entries: seq<Entry>, k: nat)
    requires k < |entries|
    requires forall i :: 0 <= i < |entries| && i != k ==>
      GraphHandles(entries[i].graphlets) !! GraphHandles(entries[k].graphlets)
    ensures OwnedGraphs(RemoveAt(entries, k)) == OwnedGraphs(entries) - GraphHandles(entries[k].graphlets)
  {
    var rest := RemoveAt(entries, k);
    forall h
      ensures h in OwnedGraphs(rest) <==> h in OwnedGraphs(entries) && h !in GraphHandles(entries[k].graphlets)
    {
      if h in OwnedGraphs(rest) {
        var i :| 0 <= i < |rest| && h in GraphHandles(rest[i].graphlets);
        assert rest[i] == entries[if i < k then i else i + 1];
      }
      if h in OwnedGraphs(entries) && h !in GraphHandles(entries[k].graphlets) {
        var i :| 0 <= i < |entries| && h in GraphHandles(entries[i].graphlets);
        assert rest[if i < k then i else i - 1] == entries[i];
      }
    }
  }

  lemma SubConsistent(entries: seq<Entry>, k: nat, execs: map<Handle, Graph>, stale: Handle)
    requires ConsistentBut(entries, execs, stale) && k < |entries| && (stale == NULL || stale == entries[k].exec)
    ensures Consistent(RemoveAt(entries, k), execs)
    ensures forall i :: 0 <= i < |RemoveAt(entries, k)| ==> RemoveAt(entries, k)[i].exec != entries[k].exec
  {
    var rest := RemoveAt(entries, k);
    OthersApart(entries, k);
    OwnedExecsAfterRemove(entries, k);
    forall i | 0 <= i < |rest|
      ensures rest[i] == entries[if i < k then i else i + 1] && rest[i].exec != entries[k].exec
    {
      var i' := if i < k then i else i + 1;
      assert if i < k then Apart(entries[i'], entries[k]) else Apart(entries[k], entries[i']);
    }
  }

  lemma RemoveKeeps(entries: seq<Entry>, k: nat, execs: map<Handle, Graph>, stale: Handle)
    requires ConsistentBut(entries, execs, stale) && k < |entries| && (stale == NULL || stale == entries[k].exec)
    ensures Consistent(RemoveAt(entries, k), execs - ExecHandles(entries[k].graphlets))
    ensures !Recorded(RemoveAt(entries, k), entries[k].exec)
  {
    SubConsistent(entries, k, execs, stale);
    OthersApart(entries, k);
    OwnedExecsAfterRemove(entries, k);
    var rest := RemoveAt(entries, k);
    forall h | Recorded(rest, h)
      ensures h !in ExecHandles(entries[k].graphlets)
    {
      var i :| 0 <= i < |rest| && rest[i].exec == h;
      assert rest[i] == entries[if i < k then i else i + 1];
      assert ExecHandles(entries[k].graphlets) <= OwnedExecs(entries);
    }
    ConsistentFrame(rest, execs, execs - ExecHandles(entries[k].graphlets));
  }

  // ----- marking an entry whole -----

  lemma WholeKeeps(entries: seq<Entry>, k: nat, execs: map<Handle, Graph>, stale: Handle)
    requires ConsistentBut(entries, execs, stale) && k < |entries| && (stale == NULL || stale == entries[k].exec)
    ensures Consistent(entries[k := Entry(entries[k].exec, false, [])], execs - ExecHandles(entries[k].graphlets))
    ensures OwnedExecs(entries[k := Entry(entries[k].exec, false, [])]) ==
      OwnedExecs(entries) - ExecHandles(entries[k].graphlets)
    ensures OwnedGraphs(entries[k := Entry(entries[k].exec, false, [])]) ==
      OwnedGraphs(entries) - GraphHandles(entries[k].graphlets)
    ensures !SplitEntry(entries[k := Entry(entries[k].exec, false, [])], entries[k].exec)
  {
    var whole := Entry(entries[k].exec, false, []);
    var after := entries[k := whole];
    var gone := ExecHandles(entries[k].graphlets);
    RemoveKeeps(entries, k, execs, stale);
    OthersApart(entries, k);
    OwnedExecsAfterRemove(entries, k);
    OwnedGraphsAfterRemove(entries, k);
    OwnedAfterReplace(entries, k, whole);
    forall j | 0 <= j < |after|
      ensures EntryOk(after[j], execs - gone, NULL) && ExecHandles(after[j].graphlets) <= (execs - gone).Keys
      ensures j != k ==> after[j].exec != entries[k].exec
    {
      if j == k {
        assert EntryOk(entries[k], execs, stale);
        assert gone <= OwnedExecs(entries);
      } else {
        var rest := RemoveAt(entries, k);
        assert after[j] == entries[j] == rest[if j < k then j else j - 1];
        assert if j < k then Apart(entries[j], entries[k]) else Apart(entries[k], entries[j]);
      }
    }
    forall i, j | 0 <= i < j < |after|
      ensures Apart(after[i], after[j])
    {
      assert Apart(entries[i], entries[j]);
    }
  }

  lemma OwnedAfterReplace(entries: seq<Entry>, k: nat, whole: Entry)
    requires k < |entries| && whole.graphlets == []
    ensures OwnedExecs(entries[k := whole]) == OwnedExecs(RemoveAt(entries, k))
    ensures OwnedGraphs(entries[k := whole]) == OwnedGraphs(RemoveAt(entries, k))
  {
    var after, rest := entries[k := whole], RemoveAt(entries, k);
    forall i | 0 <= i < |entries| && i != k
      ensures after[i] == rest[if i < k then i else i - 1]
    {
    }
    forall i | 0 <= i < |rest|
      ensures rest[i] == after[if i < k then i else i + 1]
    {
    }
    assert ExecHandles(after[k].graphlets) == {} && GraphHandles(after[k].graphlets) == {};
  }

  // ----- adding an entry in front -----

  lemma OwnedAfterPush(entries: seq<Entry>, e: Entry)
    ensures OwnedExecs([e] + entries) == ExecHandles(e.graphlets) + OwnedExecs(entries)
    ensures OwnedGraphs([e] + entries) == GraphHandles(e.graphlets) + OwnedGraphs(entries)
  {
    var after := [e] + entries;
    assert after[0] == e;
    forall i | 0 <= i < |entries|
      ensures after[i + 1] == entries[i]
    {
    }
  }

  lemma PushKeeps(entries: seq<Entry>, e: Entry, execs: map<Handle, Graph>)
    requires Consistent(entries, execs) && EntryOk(e, execs, NULL)
    requires !Recorded(entries, e.exec) && e.exec !in OwnedExecs(entries) && e.exec !in ExecHandles(e.graphlets)
    requires ExecHandles(e.graphlets) <= execs.Keys
    requires ExecHandles(e.graphlets) !! OwnedExecs(entries) && GraphHandles(e.graphlets) !! OwnedGraphs(entries)
    requires forall k :: 0 <= k < |entries| ==> entries[k].exec !in ExecHandles(e.graphlets)
    ensures Consistent([e] + entries, execs)
  {
    var after := [e] + entries;
    OwnedAfterPush(entries, e);
    assert forall i :: 0 < i < |after| ==> after[i] == entries[i - 1];
    forall i, j | 0 <= i < j < |after|
      ensures Apart(after[i], after[j])
    {
      if i > 0 {
        assert Apart(entries[i - 1], entries[j - 1]);
      } else {
        NewIsApart(entries, e, j - 1);
      }
    }
  }

  lemma NewIsApart(entries: seq<Entry>, e: Entry, j: nat)
    requires j < |entries| && !Recorded(entries, e.exec)
    requires ExecHandles(e.graphlets) !! OwnedExecs(entries) && GraphHandles(e.graphlets) !! OwnedGraphs(entries)
    ensures Apart(e, entries[j])
  {
    assert ExecHandles(entries[j].graphlets) <= OwnedExecs(entries);
    assert GraphHandles(entries[j].graphlets) <= OwnedGraphs(entries);
  }

  // ----- recording freshly built graphlets -----

  // The objects of a new entry, before the registry owns them.
  ghost predicate Incoming(entries: seq<Entry>, e: Entry, execs: map<Handle, Graph>, content: Graph, next: Handle) {
    && e.exec in execs && execs[e.exec] == content
    && e.exec !in OwnedExecs(entries) && e.exec !in ExecHandles(e.graphlets)
    && ExecHandles(e.graphlets) <= execs.Keys
    && ExecHandles(e.graphlets) !! OwnedExecs(entries) && GraphHandles(e.graphlets) !! OwnedGraphs(entries)
    && (forall k :: 0 <= k < |entries| ==> entries[k].exec !in ExecHandles(e.graphlets))
    && (forall h :: h in GraphHandles(e.graphlets) ==> h < next)
    && (if e.splittable then SplitOf(content, e.graphlets, execs) else e.graphlets == [])
  }

  lemma MinusSplit(m: map<Handle, Graph>, all: set<Handle>, part: set<Handle>)
    requires part <= all
    ensures m - part - (all - part) == m - all
  {
    assert part + (all - part) == all;
    MinusTwice(m, all - part, part);
  }

  lemma MinusSwap(m: map<Handle, Graph>, a: set<Handle>, b: set<Handle>)
    ensures m - a - b == m - b - a
  {
  }

  lemma BuildKeepsRegistry(entries: seq<Entry>, execs0: map<Handle, Graph>, execs: map<Handle, Graph>,
                           made: seq<Graphlet>)
    requires Consistent(entries, execs0) && NULL !in execs && execs - ExecHandles(made) == execs0
    ensures Consistent(entries, execs)
  {
    forall h | h in execs0
      ensures h in execs && execs[h] == execs0[h]
    {
      assert h in execs - ExecHandles(made);
    }
    ConsistentFrame(entries, execs0, execs);
  }

  lemma BuiltIsIncoming(entries: seq<Entry>, e: Entry, execs0: map<Handle, Graph>, graphs0: map<Handle, Graph>,
                        execs: map<Handle, Graph>, graphs: map<Handle, Graph>, fresh0: Handle, next: Handle,
                        content: Graph)
    requires Consistent(entries, execs0) && NULL !in execs
    requires Built(execs0, graphs0, execs, graphs, e.graphlets, fresh0)
    requires forall h :: h in execs0 ==> h < fresh0
    requires forall h :: h in OwnedGraphs(entries) ==> h < fresh0
    requires ExecHandles(e.graphlets) <= execs.Keys && GraphHandles(e.graphlets) <= graphs.Keys
    requires forall h :: h in graphs ==> h < next
    requires e.exec in execs0 && execs0[e.exec] == content && e.exec !in OwnedExecs(entries)
    requires e.splittable && SplitOf(content, e.graphlets, execs)
    ensures Incoming(entries, e, execs, content, next)
  {
    assert e.exec in execs - ExecHandles(e.graphlets);
    forall h | h in OwnedExecs(entries)
      ensures h in execs0
    {
      var k :| 0 <= k < |entries| && h in ExecHandles(entries[k].graphlets);
      assert ExecHandles(entries[k].graphlets) <= execs0.Keys;
    }
    forall k | 0 <= k < |entries|
      ensures entries[k].exec in execs0
    {
      assert EntryOk(entries[k], execs0, NULL);
    }
  }

  lemma SurvivesUnlink(execs0: map<Handle, Graph>, execs: map<Handle, Graph>, owned0: set<Handle>, owned: set<Handle>,
                       e: Entry, content: Graph)
    requires NULL !in execs0 && execs0 - owned0 == execs - owned
    requires e.exec in execs0 && execs0[e.exec] == content && e.exec !in owned0
    requires ExecHandles(e.graphlets) <= execs0.Keys && ExecHandles(e.graphlets) !! owned0
    requires if e.splittable then SplitOf(content, e.graphlets, execs0) else e.graphlets == []
    ensures EntryOk(e, execs, NULL) && ExecHandles(e.graphlets) <= execs.Keys
  {
    forall h | h in execs0 && h !in owned0
      ensures h in execs && execs[h] == execs0[h]
    {
      assert h in execs0 - owned0;
      assert h in execs - owned && (execs - owned)[h] == (execs0 - owned0)[h];
    }
    if e.splittable {
      SplitOfFrame(content, e.graphlets, execs0, execs);
    }
  }

  // Old entry unlinked, new entry in front: the registry is consistent again.
  lemma InsertKeeps(was: seq<Entry>, rest: seq<Entry>, e: Entry, execs0: map<Handle, Graph>, execs: map<Handle, Graph>,
                    content: Graph, next: Handle)
    requires NULL !in execs0 && Incoming(was, e, execs0, content, next)
    requires Consistent(rest, execs) && !Recorded(rest, e.exec)
    requires execs0 - OwnedExecs(was) == execs - OwnedExecs(rest)
    requires OwnedExecs(rest) <= OwnedExecs(was) && OwnedGraphs(rest) <= OwnedGraphs(was)
    requires forall x :: x in rest ==> x in was
    requires forall h :: h in OwnedGraphs(rest) ==> h < next
    ensures Consistent([e] + rest, execs)
    ensures forall h :: h in OwnedGraphs([e] + rest) ==> h < next
  {
    SurvivesUnlink(execs0, execs, OwnedExecs(was), OwnedExecs(rest), e, content);
    forall k | 0 <= k < |rest|
      ensures rest[k].exec !in ExecHandles(e.graphlets)
    {
      assert rest[k] in was;
    }
    PushKeeps(rest, e, execs);
    OwnedAfterPush(rest, e);
  }

  lemma PushFrame(rest: seq<Entry>, e: Entry, execs: map<Handle, Graph>, graphs: map<Handle, Graph>)
    ensures execs - OwnedExecs([e] + rest) == execs - OwnedExecs(rest) - ExecHandles(e.graphlets)
    ensures graphs - OwnedGraphs([e] + rest) == graphs - OwnedGraphs(rest) - GraphHandles(e.graphlets)
  {
    OwnedAfterPush(rest, e);
    MinusTwice(execs, ExecHandles(e.graphlets), OwnedExecs(rest));
    MinusTwice(graphs, GraphHandles(e.graphlets), OwnedGraphs(rest));
  }

  lemma PushSplits(rest: seq<Entry>, e: Entry)
    requires !Recorded(rest, e.exec)
    ensures Recorded([e] + rest, e.exec)
    ensures SplitEntry([e] + rest, e.exec) <==> e.splittable
    ensures forall x :: x != e.exec ==> (SplitEntry([e] + rest, x) <==> SplitEntry(rest, x))
  {
    var after := [e] + rest;
    assert after[0] == e && forall i :: 0 < i < |after| ==> after[i] == rest[i - 1];
    forall x | x != e.exec && SplitEntry(rest, x)
      ensures SplitEntry(after, x)
    {
      var i :| 0 <= i < |rest| && rest[i].exec == x && rest[i].splittable;
      assert after[i + 1] == rest[i];
    }
  }

  // ----- an executable that changes what it runs -----

  // Changing what an executable runs makes at most its own entry stale.
  lemma UpdateLeavesStale(entries: seq<Entry>, exec: Handle, content: Graph, execs: map<Handle, Graph>)
    requires Consistent(entries, execs) && exec in execs && exec !in OwnedExecs(entries)
    ensures ConsistentBut(entries, execs[exec := content], exec)
  {
    var after := execs[exec := content];
    forall k | 0 <= k < |entries|
      ensures EntryOk(entries[k], after, exec) && ExecHandles(entries[k].graphlets) <= after.Keys
    {
      assert EntryOk(entries[k], execs, NULL);
      assert ExecHandles(entries[k].graphlets) <= OwnedExecs(entries);
      if entries[k].splittable && entries[k].exec != exec {
        SplitOfFrame(execs[entries[k].exec], entries[k].graphlets, execs, after);
      }
    }
  }

  // A stale entry that is not split does no harm.
  lemma WholeIsNeverStale(entries: seq<Entry>, execs: map<Handle, Graph>, exec: Handle)
    requires ConsistentBut(entries, execs, exec) && !SplitEntry(entries, exec)
    ensures Consistent(entries, execs)
  {
    forall k | 0 <= k < |entries|
      ensures EntryOk(entries[k], execs, NULL)
    {
      assert EntryOk(entries[k], execs, exec);
    }
  }

  lemma SplitIsSupported(content: Graph, graphlets: seq<Graphlet>, execs: map<Handle, Graph>, n: Node)
    requires SplitOf(content, graphlets, execs) && n in content.nodes
    ensures NodeSupported(n)
  {
    var layer :| SplitBy(content, layer, graphlets, execs);
  }

  // Updates that are not intercepted touch host nodes, and nothing that holds
  // one is ever split.
  lemma HostGraphIsWhole(entries: seq<Entry>, execs: map<Handle, Graph>, exec: Handle, n: Node)
    requires Consistent(entries, execs) && exec in execs
    requires n in execs[exec].nodes && n.kind == Host
    ensures !SplitEntry(entries, exec)
  {
    forall k | 0 <= k < |entries| && entries[k].exec == exec
      ensures !entries[k].splittable
    {
      assert EntryOk(entries[k], execs, NULL);
      if entries[k].splittable { SplitIsSupported(execs[exec], entries[k].graphlets, execs, n); }
    }
  }
}
