// Packing contiguous layers into graphlets under a node limit
// (graph_build_graphlets, second half): the counting pass, the filling pass,
// and why the result is as short as any division that obeys the limit.
module Packing {

  // Layers first..last, holding count nodes.
  datatype Group = Group(first: nat, last: nat, count: nat)

  // ----- layer sizes -----

  ghost function LayerSize(layers: seq<nat>, l: nat): nat {
    if layers == [] then 0
    else LayerSize(layers[..|layers| - 1], l) + (if layers[|layers| - 1] == l then 1 else 0)
  }

  ghost function Sizes(layers: seq<nat>, count: nat): (sizes: seq<nat>)
    ensures |sizes| == count
    ensures forall l :: 0 <= l < count ==> sizes[l] == LayerSize(layers, l)
  {
    if count == 0 then [] else Sizes(layers, count - 1) + [LayerSize(layers, count - 1)]
  }

  // Nodes in layers lo up to but not including hi.
  ghost function Sum(sizes: seq<nat>, lo: nat, hi: nat): nat
    requires hi <= |sizes|
  {
    if hi <= lo then 0 else Sum(sizes, lo, hi - 1) + sizes[hi - 1]
  }

  lemma {:induction false} SumSplits(sizes: seq<nat>, lo: nat, mid: nat, hi: nat)
    requires lo <= mid <= hi <= |sizes|
    ensures Sum(sizes, lo, hi) == Sum(sizes, lo, mid) + Sum(sizes, mid, hi)
    decreases hi
  {
    if mid < hi { SumSplits(sizes, lo, mid, hi - 1); }
  }

  lemma SumWidens(sizes: seq<nat>, lo: nat, a: nat, b: nat, hi: nat)
    requires lo <= a <= b <= hi <= |sizes|
    ensures Sum(sizes, a, b) <= Sum(sizes, lo, hi)
  {
    SumSplits(sizes, lo, a, hi);
    SumSplits(sizes, a, b, hi);
  }

  ghost function NodesBelow(layers: seq<nat>, l: nat): nat {
    if layers == [] then 0
    else NodesBelow(layers[..|layers| - 1], l) + (if layers[|layers| - 1] < l then 1 else 0)
  }

  lemma {:induction false} NodesBelowNext(layers: seq<nat>, l: nat)
    ensures NodesBelow(layers, l + 1) == NodesBelow(layers, l) + LayerSize(layers, l)
    ensures NodesBelow(layers, 0) == 0
  {
    if layers != [] { NodesBelowNext(layers[..|layers| - 1], l); }
  }

  lemma {:induction false} NodesBelowAll(layers: seq<nat>, count: nat)
    requires forall i :: 0 <= i < |layers| ==> layers[i] < count
    ensures NodesBelow(layers, count) == |layers|
  {
    if layers != [] { NodesBelowAll(layers[..|layers| - 1], count); }
  }

  lemma {:induction false} SumIsNodesBelow(layers: seq<nat>, count: nat, l: nat)
    requires l <= count
    ensures Sum(Sizes(layers, count), 0, l) == NodesBelow(layers, l)
  {
    if l == 0 {
      NodesBelowNext(layers, 0);
    } else {
      SumIsNodesBelow(layers, count, l - 1);
      NodesBelowNext(layers, l - 1);
    }
  }

  // Every node is in exactly one layer: the layer sizes add up to the graph.
  lemma SizesAddUp(layers: seq<nat>, count: nat)
    requires forall i :: 0 <= i < |layers| ==> layers[i] < count
    ensures Sum(Sizes(layers, count), 0, count) == |layers|
  {
    SumIsNodesBelow(layers, count, count);
    NodesBelowAll(layers, count);
  }

  lemma {:induction false} LayerSizePositive(layers: seq<nat>, l: nat)
    requires l in layers
    ensures LayerSize(layers, l) > 0
  {
    var n := |layers| - 1;
    if layers[n] != l {
      assert layers == layers[..n] + [layers[n]];
      LayerSizePositive(layers[..n], l);
    }
  }

  lemma SizesPositive(layers: seq<nat>, count: nat)
    requires forall l :: 0 <= l < count ==> l in layers
    ensures forall l :: 0 <= l < count ==> Sizes(layers, count)[l] > 0
  {
    forall l | 0 <= l < count
      ensures Sizes(layers, count)[l] > 0
    {
      LayerSizePositive(layers, l);
    }
  }

  // ----- what a division into graphlets is -----

  // Non-empty adjacent ranges that cover layers 0..n-1, each with its node count.
  ghost predicate Divides(sizes: seq<nat>, groups: seq<Group>, n: nat)
    requires n <= |sizes|
  {
    && (groups == [] <==> n == 0)
    && (groups != [] ==> groups[0].first == 0 && groups[|groups| - 1].last == n - 1)
    && (forall k :: 0 <= k < |groups| ==> GroupFits(sizes, groups[k], n))
    && (forall k, m :: 0 <= k && m == k + 1 < |groups| ==> groups[m].first == groups[k].last + 1)
  }

  ghost predicate GroupFits(sizes: seq<nat>, g: Group, n: nat)
    requires n <= |sizes|
  {
    g.first <= g.last < n && g.count == Sum(sizes, g.first, g.last + 1)
  }

  // At most `limit` nodes, or a single layer, which cannot be divided.
  ghost predicate WithinLimit(groups: seq<Group>, limit: nat) {
    forall k :: 0 <= k < |groups| ==> groups[k].count <= limit || groups[k].first == groups[k].last
  }

  // No group could have taken its successor's first layer.
  ghost predicate Greedy(sizes: seq<nat>, groups: seq<Group>, limit: nat) {
    forall k, m :: 0 <= k && m == k + 1 < |groups| && groups[m].first < |sizes| ==>
      groups[k].count + sizes[groups[m].first] > limit
  }

  lemma {:induction false} LastGrows(sizes: seq<nat>, groups: seq<Group>, n: nat, j: nat, k: nat)
    requires n <= |sizes| && Divides(sizes, groups, n)
    requires j <= k < |groups|
    ensures groups[j].last <= groups[k].last && (j < k ==> groups[j].last < groups[k].first)
    decreases k
  {
    if j < k {
      LastGrows(sizes, groups, n, j, k - 1);
      assert GroupFits(sizes, groups[k], n);
      assert groups[k].first == groups[k - 1].last + 1;
    }
  }

  // Group by group, greedy packing has covered at least as many layers.
  lemma {:induction false} GreedyStaysAhead(sizes: seq<nat>, greedy: seq<Group>, other: seq<Group>, limit: nat, j: nat)
    requires Divides(sizes, greedy, |sizes|) && Greedy(sizes, greedy, limit)
    requires Divides(sizes, other, |sizes|) && WithinLimit(other, limit)
    requires j < |greedy| && j < |other|
    ensures other[j].last <= greedy[j].last
  {
    var n := |sizes|;
    assert GroupFits(sizes, greedy[j], n) && GroupFits(sizes, other[j], n);
    if j > 0 {
      GreedyStaysAhead(sizes, greedy, other, limit, j - 1);
      assert greedy[j].first == greedy[j - 1].last + 1 && other[j].first == other[j - 1].last + 1;
    }
    assert other[j].first <= greedy[j].first;
    if other[j].last > greedy[j].last {
      if j + 1 < |greedy| {
        assert greedy[j + 1].first == greedy[j].last + 1;
        SumWidens(sizes, other[j].first, greedy[j].first, greedy[j].last + 2, other[j].last + 1);
      }
    }
  }

  lemma EarlierEndsBelow(sizes: seq<nat>, groups: seq<Group>, j: nat)
    requires Divides(sizes, groups, |sizes|) && j + 1 < |groups|
    ensures groups[j].last + 1 < |sizes|
  {
    LastGrows(sizes, groups, |sizes|, j, |groups| - 1);
    assert GroupFits(sizes, groups[|groups| - 1], |sizes|);
  }

  // No division that obeys the limit uses fewer graphlets.
  lemma GreedyIsOptimal(sizes: seq<nat>, greedy: seq<Group>, other: seq<Group>, limit: nat)
    requires Divides(sizes, greedy, |sizes|) && Greedy(sizes, greedy, limit)
    requires Divides(sizes, other, |sizes|) && WithinLimit(other, limit)
    ensures |greedy| <= |other|
  {
    if 0 < |other| < |greedy| {
      EarlierEndsBelow(sizes, greedy, |other| - 1);
      GreedyStaysAhead(sizes, greedy, other, limit, |other| - 1);
    }
  }

  ghost function CountSum(groups: seq<Group>): nat {
    if groups == [] then 0 else CountSum(groups[..|groups| - 1]) + groups[|groups| - 1].count
  }

  lemma {:induction false} CountsAddUp(sizes: seq<nat>, groups: seq<Group>, n: nat)
    requires n <= |sizes| && Divides(sizes, groups, n)
    ensures CountSum(groups) == Sum(sizes, 0, n)
  {
    if groups != [] {
      var g := groups[|groups| - 1];
      var rest := groups[..|groups| - 1];
      assert GroupFits(sizes, g, n);
      if rest != [] {
        assert g.first == rest[|rest| - 1].last + 1;
        forall k | 0 <= k < |rest|
          ensures GroupFits(sizes, rest[k], g.first)
        {
          assert GroupFits(sizes, groups[k], n);
          LastGrows(sizes, groups, n, k, |groups| - 1);
        }
      }
      assert Divides(sizes, rest, g.first);
      CountsAddUp(sizes, rest, g.first);
      SumSplits(sizes, 0, g.first, n);
    }
  }

  // ----- the packing both passes follow -----

  // closed: finished graphlets; first, acc: the one being filled.
  datatype Packed = Packed(closed: seq<Group>, first: nat, acc: nat)

  ghost function Pack(sizes: seq<nat>, limit: nat, l: nat): (p: Packed)
    requires l <= |sizes|
    ensures p.first <= l
  {
    if l == 0 then Packed([], 0, 0)
    else
      var p := Pack(sizes, limit, l - 1);
      if p.acc != 0 && p.acc + sizes[l - 1] > limit then
        Packed(p.closed + [Group(p.first, if l >= 2 then l - 2 else 0, p.acc)], l - 1, sizes[l - 1])
      else Packed(p.closed, p.first, p.acc + sizes[l - 1])
  }

  ghost function Groups(sizes: seq<nat>, limit: nat): (groups: seq<Group>)
    requires |sizes| > 0
  {
    var p := Pack(sizes, limit, |sizes|);
    p.closed + [Group(p.first, |sizes| - 1, p.acc)]
  }

  ghost predicate PackedSoFar(sizes: seq<nat>, limit: nat, l: nat, p: Packed)
    requires l <= |sizes|
  {
    && p.first <= l && (l > 0 ==> p.first < l && p.acc > 0)
    && p.acc == Sum(sizes, p.first, l)
    && (p.acc <= limit || p.first + 1 == l)
    && Divides(sizes, p.closed, p.first) && WithinLimit(p.closed, limit) && Greedy(sizes, p.closed, limit)
    && (p.closed != [] ==> p.closed[|p.closed| - 1].count + sizes[p.first] > limit)
  }

  lemma CloseGroup(sizes: seq<nat>, limit: nat, l: nat, closed: seq<Group>, g: Group)
    requires g.first <= l <= |sizes|
    requires Divides(sizes, closed, g.first) && WithinLimit(closed, limit) && Greedy(sizes, closed, limit)
    requires GroupFits(sizes, g, l) && g.last + 1 == l
    requires g.count <= limit || g.first == g.last
    requires closed != [] ==> closed[|closed| - 1].count + sizes[g.first] > limit
    ensures Divides(sizes, closed + [g], l) && WithinLimit(closed + [g], limit) && Greedy(sizes, closed + [g], limit)
  {
    var groups := closed + [g];
    forall k | 0 <= k < |groups|
      ensures GroupFits(sizes, groups[k], l)
    {
      if k < |closed| { assert GroupFits(sizes, closed[k], g.first); }
    }
  }

  lemma {:induction false} PackKeeps(sizes: seq<nat>, limit: nat, l: nat)
    requires l <= |sizes|
    requires forall k :: 0 <= k < |sizes| ==> sizes[k] > 0
    ensures PackedSoFar(sizes, limit, l, Pack(sizes, limit, l))
  {
    if l > 0 {
      PackKeeps(sizes, limit, l - 1);
      var p := Pack(sizes, limit, l - 1);
      if p.acc != 0 && p.acc + sizes[l - 1] > limit {
        CloseGroup(sizes, limit, l - 1, p.closed, Group(p.first, l - 2, p.acc));
      }
    }
  }

  // Both passes produce a division that obeys the limit and leaves no room.
  lemma GroupsAreGreedy(sizes: seq<nat>, limit: nat)
    requires |sizes| > 0
    requires forall k :: 0 <= k < |sizes| ==> sizes[k] > 0
    ensures Divides(sizes, Groups(sizes, limit), |sizes|)
    ensures WithinLimit(Groups(sizes, limit), limit)
    ensures Greedy(sizes, Groups(sizes, limit), limit)
  {
    var n := |sizes|;
    PackKeeps(sizes, limit, n);
    var p := Pack(sizes, limit, n);
    CloseGroup(sizes, limit, n, p.closed, Group(p.first, n - 1, p.acc));
  }

  // ----- the passes -----

  method CountLayer(layers: seq<nat>, layer: nat) returns (count: nat)
    ensures count == LayerSize(layers, layer)
  {
    count := 0;
    for i := 0 to |layers|
      invariant count == LayerSize(layers[..i], layer)
    {
      assert layers[..i + 1][..i] == layers[..i];
      count := count + if layers[i] == layer then 1 else 0;
    }
    assert layers[..|layers|] == layers;
  }

  // The counting pass.
  method CountGroups(layers: seq<nat>, layerCount: nat, limit: nat) returns (graphletCount: nat)
    requires layerCount > 0
    requires forall l :: 0 <= l < layerCount ==> l in layers
    ensures graphletCount == |Groups(Sizes(layers, layerCount), limit)|
  {
    ghost var sizes := Sizes(layers, layerCount);
    SizesPositive(layers, layerCount);
    var accumulated := 0;
    graphletCount := 0;
    for layer := 0 to layerCount
      invariant graphletCount == |Pack(sizes, limit, layer).closed|
      invariant accumulated == Pack(sizes, limit, layer).acc
      invariant layer > 0 ==> accumulated > 0
    {
      var layerNodes := CountLayer(layers, layer);
      if accumulated != 0 && accumulated + layerNodes > limit {
        graphletCount := graphletCount + 1;
        accumulated := 0;
      }
      accumulated := accumulated + layerNodes;
    }
    if accumulated != 0 {
      graphletCount := graphletCount + 1;
    }
  }

  // The filling pass: it needs exactly the slots the counting pass asked for.
  method FillGroups(layers: seq<nat>, layerCount: nat, limit: nat, graphlets: array<Group>)
    requires layerCount > 0
    requires graphlets.Length == |Groups(Sizes(layers, layerCount), limit)|
    modifies graphlets
    ensures graphlets[..] == Groups(Sizes(layers, layerCount), limit)
  {
    ghost var sizes := Sizes(layers, layerCount);
    var firstLayer, accumulated, graphletIndex := 0, 0, 0;
    for layer := 0 to layerCount
      invariant graphletIndex == |Pack(sizes, limit, layer).closed| < graphlets.Length
      invariant graphlets[..graphletIndex] == Pack(sizes, limit, layer).closed
      invariant firstLayer == Pack(sizes, limit, layer).first
      invariant accumulated == Pack(sizes, limit, layer).acc
      invariant layer == 0 ==> accumulated == 0
    {
      var layerNodes := CountLayer(layers, layer);
      ClosedGrows(sizes, limit, layer + 1);
      if accumulated != 0 && accumulated + layerNodes > limit {
        graphlets[graphletIndex] := Group(firstLayer, layer - 1, accumulated);
        graphletIndex := graphletIndex + 1;
        firstLayer := layer;
        accumulated := 0;
      }
      accumulated := accumulated + layerNodes;
    }
    graphlets[graphletIndex] := Group(firstLayer, layerCount - 1, accumulated);
  }

  lemma {:induction false} ClosedGrows(sizes: seq<nat>, limit: nat, l: nat)
    requires 0 < |sizes| && l <= |sizes|
    ensures |Pack(sizes, limit, l).closed| < |Groups(sizes, limit)|
    decreases |sizes| - l
  {
    if l < |sizes| { ClosedGrows(sizes, limit, l + 1); }
  }
}
