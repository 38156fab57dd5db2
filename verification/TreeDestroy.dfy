/** Giving the nodes of a tree back. */
module TreeDestroy {
  import opened BPlusTreeModel
  import opened BPlusTree

  /** What the recursion does to nodes: it reads their fields, and it frees them. */
  datatype Touch = Look(n: BpNode) | Free(n: BpNode)

  // ---------------------------------------------------------------- what is freed

  /** All nodes of a layout, each after its children. */
  ghost function AllNodes(lay: Layout): seq<BpNode>
    decreases lay, 0
  {
    match lay
    case LeafAt(n) => [n]
    case InnerAt(n, subs) => AllNodesOf(subs) + [n]
  }

  ghost function AllNodesOf(subs: seq<Layout>): seq<BpNode>
    decreases subs, 1
  {
    if subs == [] then [] else AllNodesOf(subs[..|subs| - 1]) + AllNodes(subs[|subs| - 1])
  }

  lemma {:induction false} NodesInside(lay: Layout)
    ensures forall m <- AllNodes(lay) :: m in Footprint(lay)
    decreases lay, 0
  {
    match lay
    case LeafAt(n) =>
    case InnerAt(n, subs) => NodesInsideOf(subs);
  }

  lemma {:induction false} NodesInsideOf(subs: seq<Layout>)
    ensures forall m <- AllNodesOf(subs) :: m in FootprintAll(subs)
    decreases subs, 1
  {
    if subs != [] {
      var last := |subs| - 1;
      NodesInsideOf(subs[..last]);
      NodesInside(subs[last]);
      FootprintSplits(subs);
    }
  }

  lemma {:induction false} FootprintSplits(subs: seq<Layout>)
    requires subs != []
    ensures var last := |subs| - 1; FootprintAll(subs) == FootprintAll(subs[..last]) + Footprint(subs[last])
    ensures Apart(subs) ==> var last := |subs| - 1;
      Apart(subs[..last]) && FootprintAll(subs[..last]) !! Footprint(subs[last])
  {
    hide Footprint;
    var last := |subs| - 1;
    assert forall i :: 0 <= i < last ==> subs[..last][i] == subs[i];
  }

  lemma {:induction false} AllNodesOnce(lay: Layout)
    requires Separate(lay)
    ensures Distinct(AllNodes(lay))
    decreases lay, 0
  {
    match lay
    case LeafAt(n) =>
    case InnerAt(n, subs) =>
      AllNodesOfOnce(subs);
      NodesInsideOf(subs);
      assert n in NodeObjects(n);
      DisjointLeaves(AllNodesOf(subs), [n], FootprintAll(subs), NodeObjects(n));
  }

  /** No node stands at two places. */
  lemma {:induction false} AllNodesOfOnce(subs: seq<Layout>)
    requires SeparateAll(subs)
    ensures Distinct(AllNodesOf(subs))
    decreases subs, 1
  {
    if subs != [] {
      var last := |subs| - 1;
      var others := subs[..last];
      FootprintSplits(subs);
      assert forall i :: 0 <= i < last ==> others[i] == subs[i];
      AllNodesOfOnce(others);
      AllNodesOnce(subs[last]);
      NodesInsideOf(others);
      NodesInside(subs[last]);
      DisjointLeaves(AllNodesOf(others), AllNodes(subs[last]), FootprintAll(others), Footprint(subs[last]));
    }
  }

  // ---------------------------------------------------------------- what is read, and when

  /** The nodes that a trace frees, in order. */
  ghost function FreedBy(trace: seq<Touch>): seq<BpNode> {
    if trace == [] then []
    else
      var before, last := FreedBy(trace[..|trace| - 1]), trace[|trace| - 1];
      if last.Free? then before + [last.n] else before
  }

  /** No node is read, or freed again, after it was freed. */
  ghost predicate NoUseAfterFree(trace: seq<Touch>) {
    forall i, j :: 0 <= i < j < |trace| && trace[i].Free? ==> trace[j].n != trace[i].n
  }

  /** What node_destroy does to the nodes of a layout. */
  ghost function Touches(lay: Layout): seq<Touch>
    decreases lay, 0
  {
    match lay
    case LeafAt(n) => [Look(n), Free(n)]
    case InnerAt(n, subs) => [Look(n)] + TouchesOf(n, subs) + [Look(n), Free(n)]
  }

  ghost function TouchesOf(n: BpNode, subs: seq<Layout>): seq<Touch>
    decreases subs, 1
  {
    if subs == [] then [] else TouchesOf(n, subs[..|subs| - 1]) + [Look(n)] + Touches(subs[|subs| - 1])
  }

  lemma {:induction false} FreedConcat(a: seq<Touch>, b: seq<Touch>)
    ensures FreedBy(a + b) == FreedBy(a) + FreedBy(b)
    decreases |b|
  {
    if b == [] {
      assert a + b == a;
    } else {
      var last := |b| - 1;
      FreedConcat(a, b[..last]);
      assert (a + b)[..|a + b| - 1] == a + b[..last] && (a + b)[|a + b| - 1] == b[last];
    }
  }

  lemma {:induction false} FreedSmall(n: BpNode)
    ensures FreedBy([Look(n)]) == [] && FreedBy([Look(n), Free(n)]) == [n]
  {
    assert [Look(n), Free(n)][..1] == [Look(n)] && [Look(n)][..0] == [];
  }

  /** The nodes of a layout are freed, each once and after its children. */
  lemma {:induction false} TouchesFree(lay: Layout)
    ensures FreedBy(Touches(lay)) == AllNodes(lay)
    decreases lay, 0
  {
    match lay
    case LeafAt(n) =>
      FreedSmall(n);
    case InnerAt(n, subs) =>
      FreedSmall(n);
      TouchesOfFree(n, subs);
      FreedConcat([Look(n)], TouchesOf(n, subs));
      FreedConcat([Look(n)] + TouchesOf(n, subs), [Look(n), Free(n)]);
      hide FreedBy, TouchesOf, AllNodesOf;
  }

  lemma {:induction false} TouchesOfFree(n: BpNode, subs: seq<Layout>)
    ensures FreedBy(TouchesOf(n, subs)) == AllNodesOf(subs)
    decreases subs, 1
  {
    if subs != [] {
      var last := |subs| - 1;
      FreedSmall(n);
      TouchesOfFree(n, subs[..last]);
      TouchesFree(subs[last]);
      FreedConcat(TouchesOf(n, subs[..last]), [Look(n)]);
      FreedConcat(TouchesOf(n, subs[..last]) + [Look(n)], Touches(subs[last]));
    }
  }

  lemma {:induction false} TouchesInside(lay: Layout)
    ensures forall u <- Touches(lay) :: u.n in Footprint(lay)
    decreases lay, 0
  {
    match lay
    case LeafAt(n) =>
    case InnerAt(n, subs) => TouchesInsideOf(n, subs);
  }

  lemma {:induction false} TouchesInsideOf(n: BpNode, subs: seq<Layout>)
    ensures forall u <- TouchesOf(n, subs) :: u == Look(n) || u.n in FootprintAll(subs)
    decreases subs, 1
  {
    if subs != [] {
      var last := |subs| - 1;
      TouchesInsideOf(n, subs[..last]);
      TouchesInside(subs[last]);
      FootprintSplits(subs);
    }
  }

  /** What is freed in the first part is not touched in the second. */
  lemma {:induction false} JoinTraces(a: seq<Touch>, b: seq<Touch>)
    requires NoUseAfterFree(a) && NoUseAfterFree(b)
    requires forall u, v :: u in a && v in b && u.Free? ==> u.n != v.n
    ensures NoUseAfterFree(a + b)
  {
    var ab := a + b;
    forall i, j | 0 <= i < j < |ab| && ab[i].Free? ensures ab[j].n != ab[i].n {
      if i < |a| <= j {
        assert a[i] in a && b[j - |a|] in b;
      } else if |a| <= i {
        assert ab[i] == b[i - |a|] && ab[j] == b[j - |a|];
      }
    }
  }

  lemma {:induction false} TouchesSafe(lay: Layout)
    requires Separate(lay)
    ensures NoUseAfterFree(Touches(lay))
    decreases lay, 0
  {
    match lay
    case LeafAt(n) =>
    case InnerAt(n, subs) =>
      assert n in NodeObjects(n);
      TouchesSafeOf(n, subs);
      TouchesInsideOf(n, subs);
      JoinTraces([Look(n)], TouchesOf(n, subs));
      JoinTraces([Look(n)] + TouchesOf(n, subs), [Look(n), Free(n)]);
  }

  lemma {:induction false} TouchesSafeOf(n: BpNode, subs: seq<Layout>)
    requires SeparateAll(subs) && n !in FootprintAll(subs)
    ensures NoUseAfterFree(TouchesOf(n, subs))
    decreases subs, 1
  {
    if subs != [] {
      var last := |subs| - 1;
      var others := subs[..last];
      FootprintSplits(subs);
      assert forall i :: 0 <= i < last ==> others[i] == subs[i];
      TouchesSafeOf(n, others);
      TouchesSafe(subs[last]);
      TouchesInsideOf(n, others);
      TouchesInside(subs[last]);
      JoinTraces(TouchesOf(n, others), [Look(n)]);
      JoinTraces(TouchesOf(n, others) + [Look(n)], Touches(subs[last]));
    }
  }

  // ---------------------------------------------------------------- the recursion

  /** node_destroy, with the trace of what it does to nodes: it frees exactly the nodes of
      the tree, each once and after its children, and uses none after it was freed. */
  method NodeDestroy(n: BpNode, trace: seq<Touch>, ghost lay: Layout, ghost t: Tree) returns (trace': seq<Touch>)
    requires lay.n == n && Separate(lay) && Holds(lay, t)
    ensures trace' == trace + Touches(lay)
    ensures FreedBy(Touches(lay)) == AllNodes(lay) && Distinct(AllNodes(lay)) && NoUseAfterFree(Touches(lay))
    decreases lay
  {
    hide *;
    AllNodesOnce(lay);
    TouchesFree(lay);
    TouchesSafe(lay);
    Allocated(lay);
    TopNode(lay, t);
    trace' := trace + [Look(n)];
    if !n.isLeaf {
      ghost var subs := lay.subs;
      var i := 0;
      NoTouches(n, subs);
      while i <= n.numKeys
        invariant 0 <= i <= |subs| && Holds(lay, t)
        invariant trace' == trace + [Look(n)] + TouchesOf(n, subs[..i])
      {
        ChildHolds(lay, t, i);
        OneMoreChild(n, subs, i);
        trace' := trace' + [Look(n)];
        trace' := NodeDestroy(n.children[i], trace', subs[i], t.cs[i]);
        i := i + 1;
        TopNode(lay, t);
      }
      assert subs[..|subs|] == subs;
      trace' := trace' + [Look(n)];
    }
    trace' := trace' + [Free(n)];
  }

  lemma {:induction false} TopNode(lay: Layout, t: Tree)
    requires Separate(lay) && Holds(lay, t)
    ensures lay.n.isLeaf <==> lay.LeafAt?
    ensures lay.LeafAt? ==> Touches(lay) == [Look(lay.n)] + [Free(lay.n)]
    ensures lay.InnerAt? ==> |lay.subs| == lay.n.numKeys + 1
    ensures lay.InnerAt? ==>
      Touches(lay) == [Look(lay.n)] + TouchesOf(lay.n, lay.subs) + [Look(lay.n)] + [Free(lay.n)]
    ensures lay.InnerAt? ==> lay == InnerAt(lay.n, lay.subs) && forall i :: 0 <= i < |lay.subs| ==> lay.subs[i] < lay
  {
    hide TouchesOf, Footprint;
  }

  lemma {:induction false} ChildHolds(lay: Layout, t: Tree, i: nat)
    requires Separate(lay) && Holds(lay, t) && lay.InnerAt? && i < |lay.subs|
    ensures t.Inner? && |t.cs| == |lay.subs| && Separate(lay.subs[i]) && Holds(lay.subs[i], t.cs[i])
    ensures lay.n.children.Length > i && lay.n.children[i] == lay.subs[i].n
  {
    assert NodesOf(lay.subs)[i] == lay.subs[i].n;
  }

  lemma {:induction false} OneMoreChild(n: BpNode, subs: seq<Layout>, i: nat)
    requires i < |subs|
    ensures TouchesOf(n, subs[..i + 1]) == TouchesOf(n, subs[..i]) + [Look(n)] + Touches(subs[i])
  {
    hide Touches;
    var first := subs[..i + 1];
    assert first[..i] == subs[..i] && first[i] == subs[i];
  }

  lemma {:induction false} NoTouches(n: BpNode, subs: seq<Layout>)
    ensures TouchesOf(n, subs[..0]) == []
  {
  }
}
