/** The B+ tree on the heap: nodes with fixed arrays, updated in place.  A ghost
    layout names the nodes of a subtree; Holds says that they store a given tree. */
module BPlusTree {
  import opened Options
  import opened BPlusTreeModel

  class BpNode {
    const isLeaf: bool
    var numKeys: nat
    const keys: array<int>
    const children: array<BpNode?>
    const values: array<nat>
    var next: BpNode?

    constructor (isLeaf: bool)
      ensures this.isLeaf == isLeaf && numKeys == 0 && next == null
      ensures Sized(this) && fresh(NodeObjects(this))
    {
      this.isLeaf := isLeaf;
      numKeys := 0;
      keys := new int[MAX_KEYS](_ => 0);
      children := new BpNode?[MAX_KEYS + 1](_ => null);
      values := new nat[MAX_KEYS](_ => 0);
      next := null;
    }
  }

  datatype InsertResult =
    InsertResult(split: bool, promotedKey: int, right: BpNode?, insertedNew: bool)

  ghost predicate Sized(n: BpNode) {
    && n.keys.Length == n.values.Length == MAX_KEYS
    && n.children.Length == MAX_KEYS + 1
    && (n.keys as object) != n.values
  }

  ghost function NodeObjects(n: BpNode): set<object> {
    {n, n.keys, n.children, n.values}
  }

  // ---------------------------------------------------------------- layouts

  /** Which node stands where. */
  datatype Layout = LeafAt(n: BpNode) | InnerAt(n: BpNode, subs: seq<Layout>)

  ghost function Footprint(lay: Layout): set<object> {
    match lay
    case LeafAt(n) => NodeObjects(n)
    case InnerAt(n, subs) =>
      NodeObjects(n) + set i, o | 0 <= i < |subs| && o in Footprint(subs[i]) :: o
  }

  ghost function FootprintAll(subs: seq<Layout>): set<object> {
    set i, o | 0 <= i < |subs| && o in Footprint(subs[i]) :: o
  }

  lemma {:induction false} Allocated(lay: Layout)
    ensures forall o <- Footprint(lay) :: allocated(o)
    decreases lay
  {
    match lay
    case LeafAt(n) =>
    case InnerAt(n, subs) =>
      forall i | 0 <= i < |subs| ensures forall o <- Footprint(subs[i]) :: allocated(o) {
        Allocated(subs[i]);
      }
  }

  lemma {:induction false} AllocatedAll(subs: seq<Layout>)
    ensures forall o <- FootprintAll(subs) :: allocated(o)
  {
    forall i | 0 <= i < |subs| ensures forall o <- Footprint(subs[i]) :: allocated(o) {
      Allocated(subs[i]);
    }
  }

  ghost predicate Apart(subs: seq<Layout>) {
    forall i, j :: 0 <= i < j < |subs| ==> Footprint(subs[i]) !! Footprint(subs[j])
  }

  /** No node and no array is used twice. */
  ghost predicate Separate(lay: Layout) {
    match lay
    case LeafAt(n) => Sized(n)
    case InnerAt(n, subs) =>
      && subs != []
      && Sized(n)
      && NodeObjects(n) !! FootprintAll(subs)
      && Apart(subs)
      && forall i :: 0 <= i < |subs| ==> Separate(subs[i])
  }

  ghost predicate SeparateAll(subs: seq<Layout>) {
    Apart(subs) && forall i :: 0 <= i < |subs| ==> Separate(subs[i])
  }

  ghost function NodesOf(subs: seq<Layout>): (ns: seq<BpNode?>)
    ensures |ns| == |subs| && forall i :: 0 <= i < |ns| ==> ns[i] == subs[i].n
  {
    seq(|subs|, i requires 0 <= i < |subs| => subs[i].n)
  }

  ghost predicate HoldsEntries(n: BpNode, es: seq<Entry>)
    reads NodeObjects(n)
  {
    && Sized(n) && n.isLeaf
    && n.numKeys == |es| <= MAX_KEYS
    && forall i :: 0 <= i < |es| ==> n.keys[i] == es[i].key && n.values[i] == es[i].value
  }

  ghost predicate HoldsKeys(n: BpNode, ks: seq<int>, subs: seq<Layout>)
    reads NodeObjects(n)
  {
    && Sized(n) && !n.isLeaf
    && n.numKeys == |ks| <= MAX_KEYS
    && |subs| == |ks| + 1
    && n.keys[..|ks|] == ks
    && n.children[..|subs|] == NodesOf(subs)
  }

  /** The nodes of the layout store the tree. */
  ghost predicate Holds(lay: Layout, t: Tree)
    reads Footprint(lay)
  {
    match lay
    case LeafAt(n) => t.Leaf? && HoldsEntries(n, t.es)
    case InnerAt(n, subs) =>
      && t.Inner? && |t.cs| == |subs|
      && HoldsKeys(n, t.ks, subs)
      && forall i :: 0 <= i < |subs| ==> Holds(subs[i], t.cs[i])
  }

  ghost predicate HoldsAll(subs: seq<Layout>, cs: seq<Tree>)
    reads FootprintAll(subs)
  {
    |subs| == |cs| && forall i :: 0 <= i < |subs| ==> Holds(subs[i], cs[i])
  }

  // ---------------------------------------------------------------- copy loops

  /** Moves the elements from position c on up by one. */
  method ShiftUp<T>(a: array<T>, c: nat, m: nat)
    requires c <= m < a.Length
    modifies a
    ensures forall x :: 0 <= x < c ==> a[x] == old(a[x])
    ensures forall x :: c < x <= m ==> a[x] == old(a[x - 1])
  {
    var i := m;
    while i > c
      invariant c <= i <= m
      invariant forall x :: 0 <= x < i ==> a[x] == old(a[x])
      invariant forall x :: i < x <= m ==> a[x] == old(a[x - 1])
    {
      a[i] := a[i - 1];
      i := i - 1;
    }
  }

  /** Puts e at position c of the first m elements. */
  method InsertAt<T>(a: array<T>, c: nat, m: nat, e: T)
    requires c <= m < a.Length
    modifies a
    ensures a[..m + 1] == Inserted(old(a[..m]), c, e)
  {
    ShiftUp(a, c, m);
    a[c] := e;
  }

  /** Copies src to temp, leaving room for e at position c. */
  method Gather<T>(src: array<T>, c: nat, e: T, temp: array<T>)
    requires c <= src.Length && temp.Length == src.Length + 1 && temp != src
    modifies temp
    ensures forall x :: 0 <= x < c ==> temp[x] == src[x]
    ensures temp[c] == e
    ensures forall x :: c < x < temp.Length ==> temp[x] == src[x - 1]
  {
    var i, j := 0, 0;
    while i < temp.Length
      invariant 0 <= i <= temp.Length && j == if i <= c then i else i - 1
      invariant forall x :: 0 <= x < i && x < c ==> temp[x] == src[x]
      invariant c < i ==> temp[c] == e
      invariant forall x :: c < x < i ==> temp[x] == src[x - 1]
    {
      if i == c {
        temp[i] := e;
      } else {
        temp[i] := src[j];
        j := j + 1;
      }
      i := i + 1;
    }
  }

  method CopyRange<T>(src: array<T>, lo: nat, count: nat, dst: array<T>)
    requires lo + count <= src.Length && count <= dst.Length && src != dst
    modifies dst
    ensures forall x :: 0 <= x < count ==> dst[x] == src[lo + x]
  {
    var i := 0;
    while i < count
      invariant 0 <= i <= count
      invariant forall x :: 0 <= x < i ==> dst[x] == src[lo + x]
    {
      dst[i] := src[lo + i];
      i := i + 1;
    }
  }

  // ---------------------------------------------------------------- leaf operations

  method LeafFindPosition(n: BpNode, k: int, ghost es: seq<Entry>) returns (pos: nat)
    requires HoldsEntries(n, es)
    ensures pos == Position(es, k)
  {
    pos := 0;
    while pos < n.numKeys && n.keys[pos] < k
      invariant pos <= |es|
      invariant forall i :: 0 <= i < pos ==> es[i].key < k
    {
      pos := pos + 1;
    }
    PositionUnique(es, k, pos);
  }

  method LeafShift(n: BpNode, pos: nat, k: int, v: nat, ghost es: seq<Entry>)
    requires HoldsEntries(n, es) && pos <= |es| < MAX_KEYS
    modifies n`numKeys, n.keys, n.values
    ensures HoldsEntries(n, Inserted(es, pos, Entry(k, v)))
  {
    ShiftUp(n.keys, pos, n.numKeys);
    ShiftUp(n.values, pos, n.numKeys);
    n.keys[pos] := k;
    n.values[pos] := v;
    n.numKeys := n.numKeys + 1;
  }

  method LeafGather(n: BpNode, pos: nat, k: int, v: nat, ghost es: seq<Entry>)
    returns (tempKeys: array<int>, tempValues: array<nat>)
    requires HoldsEntries(n, es) && pos <= |es| == MAX_KEYS
    ensures fresh(tempKeys) && fresh(tempValues)
    ensures HoldsTemp(tempKeys, tempValues, Inserted(es, pos, Entry(k, v)))
  {
    tempKeys := new int[MAX_KEYS + 1];
    tempValues := new nat[MAX_KEYS + 1];
    Gather(n.keys, pos, k, tempKeys);
    Gather(n.values, pos, v, tempValues);
  }

  ghost predicate HoldsTemp(tempKeys: array<int>, tempValues: array<nat>, all: seq<Entry>)
    reads tempKeys, tempValues
  {
    && |all| == tempKeys.Length == tempValues.Length == MAX_KEYS + 1
    && (tempKeys as object) != tempValues
    && (forall x :: 0 <= x < |all| ==> tempKeys[x] == all[x].key)
    && (forall x :: 0 <= x < |all| ==> tempValues[x] == all[x].value)
  }

  /** Fills the node with a part of the gathered entries. */
  method LeafFill(n: BpNode, tempKeys: array<int>, tempValues: array<nat>, lo: nat, count: nat,
                  ghost all: seq<Entry>)
    requires Sized(n) && n.isLeaf && HoldsTemp(tempKeys, tempValues, all)
    requires lo + count <= MAX_KEYS + 1 && count <= MAX_KEYS
    requires {n.keys as object, n.values} !! {tempKeys as object, tempValues}
    modifies n`numKeys, n.keys, n.values
    ensures HoldsEntries(n, all[lo..lo + count])
    ensures HoldsTemp(tempKeys, tempValues, all)
  {
    n.numKeys := count;
    CopyRange(tempKeys, lo, count, n.keys);
    CopyRange(tempValues, lo, count, n.values);
  }

  method LeafSplit(n: BpNode, pos: nat, k: int, v: nat, ghost es: seq<Entry>) returns (right: BpNode)
    requires HoldsEntries(n, es) && pos <= |es| == MAX_KEYS
    modifies n`numKeys, n`next, n.keys, n.values
    ensures fresh(NodeObjects(right)) && right.next == old(n.next) && n.next == right
    ensures var all := Inserted(es, pos, Entry(k, v));
      HoldsEntries(n, all[..16]) && HoldsEntries(right, all[16..])
  {
    ghost var all := Inserted(es, pos, Entry(k, v));
    var total := MAX_KEYS + 1;
    var tempKeys, tempValues := LeafGather(n, pos, k, v, es);
    right := new BpNode(true);
    var leftCount := total / 2;
    var rightCount := total - leftCount;
    LeafFill(n, tempKeys, tempValues, 0, leftCount, all);
    LeafFill(right, tempKeys, tempValues, leftCount, rightCount, all);
    right.next := n.next;
    n.next := right;
    assert all[16..32] == all[16..];
  }

  method LeafInsert(n: BpNode, k: int, v: nat, ghost es: seq<Entry>) returns (res: InsertResult)
    requires HoldsEntries(n, es)
    modifies n`numKeys, n`next, n.keys, n.values
    ensures var ins := InsertLeaf(es, k, v);
      && res.insertedNew == ins.added
      && (match ins
          case Whole(t, _) => !res.split && n.next == old(n.next) && HoldsEntries(n, t.es)
          case Split(l, p, r, _) =>
            && res.split && res.promotedKey == p && res.right != null
            && fresh(NodeObjects(res.right)) && n.next == res.right && res.right.next == old(n.next)
            && HoldsEntries(n, l.es) && HoldsEntries(res.right, r.es))
  {
    var pos := LeafFindPosition(n, k, es);
    if pos < n.numKeys && n.keys[pos] == k {
      n.values[pos] := v;
      return InsertResult(false, 0, null, false);
    }
    if n.numKeys < MAX_KEYS {
      LeafShift(n, pos, k, v, es);
      return InsertResult(false, 0, null, true);
    }
    var right := LeafSplit(n, pos, k, v, es);
    return InsertResult(true, right.keys[0], right, true);
  }

  // ---------------------------------------------------------------- inner node operations

  method ChildIndexForKey(n: BpNode, k: int, ghost ks: seq<int>) returns (idx: nat)
    requires Sized(n) && n.numKeys == |ks| <= MAX_KEYS && n.keys[..|ks|] == ks
    ensures idx == ChildIndex(ks, k)
  {
    idx := 0;
    while idx < n.numKeys && k >= n.keys[idx]
      invariant idx <= |ks|
      invariant forall i :: 0 <= i < idx ==> ks[i] <= k
    {
      assert n.keys[idx] == ks[idx];
      idx := idx + 1;
    }
    assert idx < |ks| ==> n.keys[idx] == ks[idx];
  }

  method NodeShift(n: BpNode, c: nat, p: int, right: BpNode)
    requires Sized(n) && c <= n.numKeys < MAX_KEYS
    modifies n`numKeys, n.keys, n.children
    ensures n.numKeys == old(n.numKeys) + 1
    ensures n.keys[..n.numKeys] == Inserted(old(n.keys[..n.numKeys]), c, p)
    ensures n.children[..n.numKeys + 1] == Inserted(old(n.children[..n.numKeys + 1]), c + 1, right)
  {
    InsertAt(n.keys, c, n.numKeys, p);
    InsertAt(n.children, c + 1, n.numKeys + 1, right);
    n.numKeys := n.numKeys + 1;
  }

  method NodeGather(n: BpNode, c: nat, p: int, sub: BpNode)
    returns (tempKeys: array<int>, tempChildren: array<BpNode?>)
    requires Sized(n) && c <= MAX_KEYS
    ensures fresh(tempKeys) && fresh(tempChildren)
    ensures tempKeys[..] == Inserted(n.keys[..], c, p)
    ensures tempChildren[..] == Inserted(n.children[..], c + 1, sub)
  {
    tempKeys := new int[MAX_KEYS + 1];
    tempChildren := new BpNode?[MAX_KEYS + 2];
    Gather(n.keys, c, p, tempKeys);
    Gather(n.children, c + 1, sub, tempChildren);
  }

  /** Fills the node with a part of the gathered keys and children. */
  method NodeFill(n: BpNode, tempKeys: array<int>, tempChildren: array<BpNode?>, lo: nat, count: nat)
    requires Sized(n) && tempKeys != n.keys && tempChildren != n.children
    requires lo + count <= tempKeys.Length == MAX_KEYS + 1 && tempChildren.Length == MAX_KEYS + 2
    requires count <= MAX_KEYS
    modifies n`numKeys, n.keys, n.children
    ensures n.numKeys == count
    ensures n.keys[..count] == tempKeys[lo..lo + count]
    ensures n.children[..count + 1] == tempChildren[lo..lo + count + 1]
  {
    n.numKeys := count;
    CopyRange(tempKeys, lo, count, n.keys);
    CopyRange(tempChildren, lo, count + 1, n.children);
  }

  method ClearChildren(n: BpNode, from: nat)
    requires Sized(n) && from <= MAX_KEYS + 1
    modifies n.children
    ensures n.children[..from] == old(n.children[..from])
    ensures forall i :: from <= i <= MAX_KEYS ==> n.children[i] == null
  {
    var i := from;
    while i < MAX_KEYS + 1
      invariant from <= i <= MAX_KEYS + 1
      invariant n.children[..from] == old(n.children[..from])
      invariant forall j :: from <= j < i ==> n.children[j] == null
    {
      n.children[i] := null;
      i := i + 1;
    }
  }

  method NodeSplit(n: BpNode, c: nat, p: int, sub: BpNode) returns (promoted: int, right: BpNode)
    requires Sized(n) && c <= n.numKeys == MAX_KEYS
    modifies n`numKeys, n.keys, n.children
    ensures fresh(NodeObjects(right)) && Sized(right) && !right.isLeaf
    ensures n.numKeys == 16 && right.numKeys == 15
    ensures var ks := Inserted(old(n.keys[..]), c, p);
      promoted == ks[16] && n.keys[..16] == ks[..16] && right.keys[..15] == ks[17..]
    ensures var cs := Inserted(old(n.children[..]), c + 1, sub);
      n.children[..17] == cs[..17] && right.children[..16] == cs[17..]
  {
    var totalKeys := MAX_KEYS + 1;
    var tempKeys, tempChildren := NodeGather(n, c, p, sub);
    ghost var ks, cs := tempKeys[..], tempChildren[..];
    right := new BpNode(false);
    var mid := totalKeys / 2;
    var leftKeys := mid;
    var rightKeys := totalKeys - mid - 1;
    NodeFill(n, tempKeys, tempChildren, 0, leftKeys);
    ClearChildren(n, leftKeys + 1);
    NodeFill(right, tempKeys, tempChildren, mid + 1, rightKeys);
    promoted := tempKeys[mid];
    assert tempKeys[..] == ks && tempChildren[..] == cs;
  }

  // ---------------------------------------------------------------- the leaf chain

  ghost function Leaves(lay: Layout): seq<BpNode>
    decreases lay
  {
    match lay
    case LeafAt(n) => [n]
    case InnerAt(_, subs) => LeavesAll(subs)
  }

  ghost function LeavesAll(subs: seq<Layout>): seq<BpNode>
    decreases subs
  {
    if subs == [] then [] else Leaves(subs[0]) + LeavesAll(subs[1..])
  }

  ghost function After(ls: seq<BpNode>, i: nat, exit: BpNode?): BpNode? {
    if i + 1 < |ls| then ls[i + 1] else exit
  }

  /** Each leaf points to the following one and the last one to exit. */
  ghost predicate Chained(ls: seq<BpNode>, exit: BpNode?)
    reads ls
  {
    forall i :: 0 <= i < |ls| ==> ls[i].next == After(ls, i, exit)
  }

  /** The same for leaves that lie in a given set of objects. */
  ghost predicate ChainedIn(objects: set<object>, ls: seq<BpNode>, exit: BpNode?)
    reads objects
  {
    (forall l <- ls :: l in objects) && Chained(ls, exit)
  }

  lemma {:induction false} LeavesAllConcat(a: seq<Layout>, b: seq<Layout>)
    ensures LeavesAll(a + b) == LeavesAll(a) + LeavesAll(b)
  {
    if a == [] {
      assert a + b == b;
    } else {
      LeavesAllConcat(a[1..], b);
      assert (a + b)[0] == a[0] && (a + b)[1..] == a[1..] + b;
      Associate(Leaves(a[0]), LeavesAll(a[1..]), LeavesAll(b));
    }
  }

  lemma {:induction false} LeavesAllAround(a: seq<Layout>, mid: seq<Layout>, b: seq<Layout>)
    ensures LeavesAll(a + mid + b) == LeavesAll(a) + LeavesAll(mid) + LeavesAll(b)
  {
    LeavesAllConcat(a + mid, b);
    LeavesAllConcat(a, mid);
  }

  lemma {:induction false} LeavesTwo(l: Layout, r: Layout)
    ensures LeavesAll([l, r]) == Leaves(l) + Leaves(r)
  {
    LeavesAllConcat([l], [r]);
    LeavesOne(l);
    LeavesOne(r);
    assert [l] + [r] == [l, r];
  }

  lemma {:induction false} LeavesOne(l: Layout)
    ensures LeavesAll([l]) == Leaves(l)
  {
    assert LeavesAll([l]) == Leaves(l) + LeavesAll([]);
  }

  lemma {:induction false} LeavesInside(lay: Layout)
    requires Separate(lay)
    ensures Leaves(lay) != []
    ensures forall n <- Leaves(lay) :: n in Footprint(lay)
    decreases lay, 0
  {
    match lay
    case LeafAt(n) =>
    case InnerAt(_, subs) =>
      forall i | 0 <= i < |subs| ensures Footprint(subs[i]) <= Footprint(lay) {}
      LeavesAllInside(subs);
      assert LeavesAll(subs) == Leaves(subs[0]) + LeavesAll(subs[1..]);
      LeavesInside(subs[0]);
  }

  lemma {:induction false} LeavesAllInside(subs: seq<Layout>)
    requires forall i :: 0 <= i < |subs| ==> Separate(subs[i])
    ensures forall n <- LeavesAll(subs) :: n in FootprintAll(subs)
    decreases subs, 1
  {
    if subs != [] {
      LeavesInside(subs[0]);
      assert forall i :: 0 <= i < |subs[1..]| ==> subs[1..][i] == subs[i + 1];
      LeavesAllInside(subs[1..]);
      forall n | n in LeavesAll(subs) ensures n in FootprintAll(subs) {
        if n in Leaves(subs[0]) {
        } else {
          assert n in FootprintAll(subs[1..]);
          var i, o :| 0 <= i < |subs[1..]| && o in Footprint(subs[1..][i]) && o == n;
          assert o in Footprint(subs[i + 1]);
        }
      }
    }
  }

  lemma {:induction false} ChainJoin(a: seq<BpNode>, b: seq<BpNode>, exit: BpNode?)
    requires b != [] && Chained(a, b[0]) && Chained(b, exit)
    ensures Chained(a + b, exit)
  {
    var ls := a + b;
    forall i | 0 <= i < |ls| ensures ls[i].next == After(ls, i, exit) {
      if i < |a| {
        assert ls[i] == a[i] && (i + 1 < |a| ==> ls[i + 1] == a[i + 1]);
        assert i + 1 == |a| ==> ls[i + 1] == b[0];
      } else {
        assert ls[i] == b[i - |a|] && (i + 1 < |ls| ==> ls[i + 1] == b[i + 1 - |a|]);
      }
    }
  }

  lemma {:induction false} ChainSplit(a: seq<BpNode>, b: seq<BpNode>, exit: BpNode?)
    requires Chained(a + b, exit)
    ensures Chained(a, if b != [] then b[0] else exit)
    ensures Chained(b, exit)
  {
    var ls := a + b;
    forall i | 0 <= i < |a|
      ensures a[i].next == After(a, i, if b != [] then b[0] else exit)
    {
      assert ls[i] == a[i] && (i + 1 < |a| ==> ls[i + 1] == a[i + 1]);
      assert i + 1 == |a| && b != [] ==> ls[i + 1] == b[0];
    }
    forall i | 0 <= i < |b| ensures b[i].next == After(b, i, exit) {
      assert ls[|a| + i] == b[i] && (i + 1 < |b| ==> ls[|a| + i + 1] == b[i + 1]);
    }
  }

  // ---------------------------------------------------------------- insertion

  /** The layouts out store the outcome of an insertion into the subtree at n. */
  ghost predicate Stores(out: seq<Layout>, ins: Insertion, res: InsertResult, n: BpNode)
    reads FootprintAll(out)
  {
    && SeparateAll(out)
    && HoldsAll(out, Trees(ins))
    && out[0].n == n
    && res.insertedNew == ins.added
    && res.split == ins.Split?
    && (ins.Split? ==> res.promotedKey == ins.promoted && res.right == out[1].n)
  }

  ghost function Spliced(subs: seq<Layout>, c: nat, out: seq<Layout>): seq<Layout>
    requires c < |subs|
  {
    subs[..c] + out + subs[c + 1..]
  }

  lemma {:induction false} SplicedAt(subs: seq<Layout>, c: nat, out: seq<Layout>, i: nat)
    requires c < |subs| && i < |Spliced(subs, c, out)|
    ensures i < c ==> Spliced(subs, c, out)[i] == subs[i]
    ensures c <= i < c + |out| ==> Spliced(subs, c, out)[i] == out[i - c]
    ensures c + |out| <= i ==> Spliced(subs, c, out)[i] == subs[i - |out| + 1]
  {
  }

  /** Replacing a subtree by what grew out of it keeps the nodes apart. */
  lemma {:induction false} SplicedSeparate(subs: seq<Layout>, c: nat, out: seq<Layout>)
    requires SeparateAll(subs) && c < |subs| && SeparateAll(out)
    requires forall i :: 0 <= i < |subs| && i != c ==> Footprint(subs[i]) !! FootprintAll(out)
    ensures SeparateAll(Spliced(subs, c, out))
  {
    hide Separate, Footprint;
    var all := Spliced(subs, c, out);
    forall i | 0 <= i < |out| ensures Footprint(out[i]) <= FootprintAll(out) {}
    forall i | 0 <= i < |all| ensures Separate(all[i]) {
      SplicedAt(subs, c, out, i);
    }
    forall i, j | 0 <= i < j < |all| ensures Footprint(all[i]) !! Footprint(all[j]) {
      SplicedAt(subs, c, out, i);
      SplicedAt(subs, c, out, j);
    }
  }

  lemma {:induction false} NodesSpliced(subs: seq<Layout>, c: nat, out: seq<Layout>)
    requires c < |subs| && |out| == 2 && out[0].n == subs[c].n
    ensures NodesOf(Spliced(subs, c, out)) == Inserted(NodesOf(subs), c + 1, out[1].n)
  {
    forall i | 0 <= i <= |subs|
      ensures Spliced(subs, c, out)[i].n == Inserted(NodesOf(subs), c + 1, out[1].n)[i]
    {
      SpliceAt(subs, c, out[0], out[1], i);
      assert out == [out[0], out[1]];
    }
  }

  lemma {:induction false} SeparateParts(n: BpNode, subs: seq<Layout>, m: nat)
    requires Sized(n) && SeparateAll(subs) && NodeObjects(n) !! FootprintAll(subs) && 0 < m <= |subs|
    ensures Separate(InnerAt(n, subs[..m]))
    ensures FootprintAll(subs[..m]) + FootprintAll(subs[m..]) == FootprintAll(subs)
    ensures FootprintAll(subs[..m]) !! FootprintAll(subs[m..])
    ensures SeparateAll(subs[..m]) && SeparateAll(subs[m..])
  {
    forall o | o in FootprintAll(subs) ensures o in FootprintAll(subs[..m]) + FootprintAll(subs[m..]) {
      var i, o' :| 0 <= i < |subs| && o' in Footprint(subs[i]) && o' == o;
      assert if i < m then o in Footprint(subs[..m][i]) else o in Footprint(subs[m..][i - m]);
    }
    forall o | o in FootprintAll(subs[m..]) ensures o in FootprintAll(subs) {
      var i, o' :| 0 <= i < |subs[m..]| && o' in Footprint(subs[m..][i]) && o' == o;
      assert o in Footprint(subs[m + i]);
    }
    forall i, j | 0 <= i < m <= j < |subs| ensures Footprint(subs[i]) !! Footprint(subs[j]) {}
    assert forall i :: 0 <= i < m ==> subs[..m][i] == subs[i];
    assert forall j :: 0 <= j < |subs[m..]| ==> subs[m..][j] == subs[m + j];
  }

  lemma {:induction false} Assemble(n: BpNode, ks: seq<int>, subs: seq<Layout>, cs: seq<Tree>)
    requires HoldsKeys(n, ks, subs) && HoldsAll(subs, cs)
    requires SeparateAll(subs) && NodeObjects(n) !! FootprintAll(subs)
    ensures Separate(InnerAt(n, subs)) && Holds(InnerAt(n, subs), Inner(ks, cs))
    ensures Footprint(InnerAt(n, subs)) == NodeObjects(n) + FootprintAll(subs)
  {
  }

  /** A promoted child fits into the node. */
  method NodeAbsorb(n: BpNode, c: nat, p: int, right: BpNode, ghost ks: seq<int>, ghost subs: seq<Layout>,
                    ghost all: seq<Layout>, ghost cs: seq<Tree>)
    requires HoldsKeys(n, ks, subs) && |ks| < MAX_KEYS && c < |subs|
    requires NodesOf(all) == Inserted(NodesOf(subs), c + 1, right)
    requires SeparateAll(all) && HoldsAll(all, cs) && NodeObjects(n) !! FootprintAll(all)
    modifies n`numKeys, n.keys, n.children
    ensures HoldsKeys(n, Inserted(ks, c, p), all) && HoldsAll(all, cs)
  {
    hide SeparateAll, HoldsAll, FootprintAll;
    AllocatedAll(all);
    NodeShift(n, c, p, right);
  }

  lemma {:induction false} SplicedHolds(subs: seq<Layout>, cs: seq<Tree>, c: nat, out: seq<Layout>, ts: seq<Tree>)
    requires c < |subs| == |cs|
    requires HoldsAll(subs[..c], cs[..c]) && HoldsAll(out, ts) && HoldsAll(subs[c + 1..], cs[c + 1..])
    ensures HoldsAll(Spliced(subs, c, out), cs[..c] + ts + cs[c + 1..])
  {
    hide Holds;
    var all, trees := Spliced(subs, c, out), cs[..c] + ts + cs[c + 1..];
    forall i | 0 <= i < |all| ensures Holds(all[i], trees[i]) {
      if i < c {
        assert all[i] == subs[..c][i] && trees[i] == cs[..c][i];
      } else if i < c + |out| {
        assert all[i] == out[i - c] && trees[i] == ts[i - c];
      } else {
        var j := i - c - |out|;
        assert all[i] == subs[c + 1..][j] && trees[i] == cs[c + 1..][j];
      }
    }
  }

  /** The node is full: it keeps the first half and a new node takes the rest. */
  method NodeOverflow(n: BpNode, c: nat, p: int, sub: BpNode, ghost ks: seq<int>, ghost subs: seq<Layout>,
                      ghost all: seq<Layout>, ghost cs: seq<Tree>)
    returns (promoted: int, right: BpNode)
    requires HoldsKeys(n, ks, subs) && |ks| == MAX_KEYS && c < |subs|
    requires NodesOf(all) == Inserted(NodesOf(subs), c + 1, sub)
    requires SeparateAll(all) && HoldsAll(all, cs) && NodeObjects(n) !! FootprintAll(all)
    modifies n`numKeys, n.keys, n.children
    ensures fresh(NodeObjects(right)) && HoldsAll(all, cs)
    ensures var ks' := Inserted(ks, c, p);
      promoted == ks'[16] && HoldsKeys(n, ks'[..16], all[..17]) && HoldsKeys(right, ks'[17..], all[17..])
  {
    hide SeparateAll, HoldsAll, FootprintAll;
    AllocatedAll(all);
    assert n.keys[..] == ks && n.children[..] == NodesOf(subs);
    promoted, right := NodeSplit(n, c, p, sub);
    assert NodesOf(all[..17]) == NodesOf(all)[..17];
    assert NodesOf(all[17..]) == NodesOf(all)[17..];
  }

  lemma {:induction false} HoldsParts(subs: seq<Layout>, cs: seq<Tree>, m: nat)
    requires HoldsAll(subs, cs) && m <= |subs|
    ensures HoldsAll(subs[..m], cs[..m]) && HoldsAll(subs[m..], cs[m..])
  {
    hide Holds;
    assert forall j :: 0 <= j < |subs[m..]| ==> subs[m..][j] == subs[m + j] && cs[m..][j] == cs[m + j];
  }

  lemma {:induction false} AssembleTwo(n: BpNode, right: BpNode, ks: seq<int>, all: seq<Layout>, cs: seq<Tree>)
    requires |ks| == MAX_KEYS + 1 && |all| == |cs| == MAX_KEYS + 2
    requires HoldsKeys(n, ks[..16], all[..17]) && HoldsKeys(right, ks[17..], all[17..])
    requires SeparateAll(all) && HoldsAll(all, cs)
    requires NodeObjects(n) !! FootprintAll(all) && NodeObjects(right) !! FootprintAll(all)
    requires NodeObjects(n) !! NodeObjects(right)
    ensures var top := [InnerAt(n, all[..17]), InnerAt(right, all[17..])];
      && SeparateAll(top)
      && HoldsAll(top, [Inner(ks[..16], cs[..17]), Inner(ks[17..], cs[17..])])
      && FootprintAll(top) == NodeObjects(n) + NodeObjects(right) + FootprintAll(all)
      && LeavesAll(top) == LeavesAll(all)
  {
    hide Holds, Separate, Footprint;
    var l, r := InnerAt(n, all[..17]), InnerAt(right, all[17..]);
    HoldsParts(all, cs, 17);
    SeparateParts(n, all, 17);
    Assemble(n, ks[..16], all[..17], cs[..17]);
    Assemble(right, ks[17..], all[17..], cs[17..]);
    assert [l, r][0] == l && [l, r][1] == r;
    assert FootprintAll([l, r]) == Footprint(l) + Footprint(r);
    LeavesTwo(l, r);
    assert all == all[..17] + all[17..];
    LeavesAllConcat(all[..17], all[17..]);
  }

  lemma {:induction false} AssembleOne(n: BpNode, ks: seq<int>, all: seq<Layout>, cs: seq<Tree>)
    requires HoldsKeys(n, ks, all) && HoldsAll(all, cs)
    requires SeparateAll(all) && NodeObjects(n) !! FootprintAll(all)
    ensures var top := [InnerAt(n, all)];
      && SeparateAll(top)
      && HoldsAll(top, [Inner(ks, cs)])
      && FootprintAll(top) == NodeObjects(n) + FootprintAll(all)
      && LeavesAll(top) == LeavesAll(all)
  {
    Assemble(n, ks, all, cs);
    LeavesOne(InnerAt(n, all));
    assert [InnerAt(n, all)][0] == InnerAt(n, all);
  }

  /** Takes a promoted key and its right child into the node, which may overflow. */
  method NodePromote(n: BpNode, c: nat, p: int, sub: BpNode, added: bool, ghost ks: seq<int>,
                     ghost subs: seq<Layout>, ghost all: seq<Layout>, ghost cs: seq<Tree>)
    returns (up: InsertResult, ghost top: seq<Layout>)
    requires HoldsKeys(n, ks, subs) && c < |subs|
    requires NodesOf(all) == Inserted(NodesOf(subs), c + 1, sub) && |cs| == |all|
    requires SeparateAll(all) && HoldsAll(all, cs) && NodeObjects(n) !! FootprintAll(all)
    modifies n`numKeys, n.keys, n.children
    ensures Stores(top, Rebalance(Inserted(ks, c, p), cs, added), up, n)
    ensures LeavesAll(top) == LeavesAll(all)
    ensures forall o <- FootprintAll(top) :: o in FootprintAll(all) || o in NodeObjects(n) || fresh(o)
  {
    hide SeparateAll, HoldsAll, FootprintAll, LeavesAll;
    AllocatedAll(all);
    if n.numKeys < MAX_KEYS {
      NodeAbsorb(n, c, p, sub, ks, subs, all, cs);
      up := InsertResult(false, 0, null, added);
      AssembleOne(n, Inserted(ks, c, p), all, cs);
      top := [InnerAt(n, all)];
    } else {
      var promoted, right := NodeOverflow(n, c, p, sub, ks, subs, all, cs);
      up := InsertResult(true, promoted, right, added);
      AssembleTwo(n, right, Inserted(ks, c, p), all, cs);
      top := [InnerAt(n, all[..17]), InnerAt(right, all[17..])];
    }
  }

  lemma {:induction false} NodeUnsplit(n: BpNode, c: nat, ks: seq<int>, cs: seq<Tree>, subs: seq<Layout>,
                                       t: Tree, sub: Layout)
    requires HoldsKeys(n, ks, subs) && |cs| == |subs| && c < |subs| && sub.n == subs[c].n
    requires var all := Spliced(subs, c, [sub]);
      SeparateAll(all) && HoldsAll(all, cs[..c] + [t] + cs[c + 1..]) && NodeObjects(n) !! FootprintAll(all)
    ensures var top := [InnerAt(n, Spliced(subs, c, [sub]))];
      && SeparateAll(top) && HoldsAll(top, [Inner(ks, cs[c := t])])
      && FootprintAll(top) == NodeObjects(n) + FootprintAll(Spliced(subs, c, [sub]))
      && LeavesAll(top) == LeavesAll(Spliced(subs, c, [sub]))
  {
    hide SeparateAll, HoldsAll, FootprintAll, LeavesAll;
    var all := Spliced(subs, c, [sub]);
    assert cs[..c] + [t] + cs[c + 1..] == cs[c := t];
    forall i | 0 <= i < |all| ensures all[i].n == subs[i].n {
      SplicedAt(subs, c, [sub], i);
    }
    assert NodesOf(all) == NodesOf(subs);
    AssembleOne(n, ks, all, cs[c := t]);
  }

  ghost function Around(n: BpNode, subs: seq<Layout>, c: nat): set<object>
    requires c < |subs|
  {
    NodeObjects(n) + FootprintAll(subs[..c]) + FootprintAll(subs[c + 1..])
  }

  /** Everything in an inner node and below it, except for its child c. */
  ghost predicate HoldsAround(n: BpNode, ks: seq<int>, cs: seq<Tree>, subs: seq<Layout>, c: nat,
                              first: BpNode, exit: BpNode?)
    requires c < |subs|
    reads Around(n, subs, c)
  {
    && |cs| == |subs|
    && HoldsKeys(n, ks, subs)
    && HoldsAll(subs[..c], cs[..c])
    && HoldsAll(subs[c + 1..], cs[c + 1..])
    && (forall l <- LeavesAll(subs[..c]) + LeavesAll(subs[c + 1..]) :: l in Around(n, subs, c))
    && Chained(LeavesAll(subs[..c]), first)
    && Chained(LeavesAll(subs[c + 1..]), exit)
  }

  /** The leaf that follows the subtree of child c. */
  ghost function ExitOf(subs: seq<Layout>, c: nat, exit: BpNode?): BpNode?
    requires c < |subs|
  {
    var ls := LeavesAll(subs[c + 1..]);
    if ls != [] then ls[0] else exit
  }

  lemma {:induction false} DropAt(subs: seq<Layout>, c: nat)
    requires c < |subs|
    ensures forall i :: c < i < |subs| ==> subs[c + 1..][i - c - 1] == subs[i]
    ensures forall l <- subs[c + 1..] :: l in subs
    ensures forall l <- subs[..c] :: l in subs
  {
  }

  lemma {:induction false} FootprintThree(subs: seq<Layout>, c: nat)
    requires c < |subs|
    ensures FootprintAll(subs) == FootprintAll(subs[..c]) + Footprint(subs[c]) + FootprintAll(subs[c + 1..])
    ensures Apart(subs) ==> FootprintAll(subs[..c]) !! Footprint(subs[c])
    ensures Apart(subs) ==> FootprintAll(subs[c + 1..]) !! Footprint(subs[c])
  {
    hide Footprint;
    var a, d := subs[..c], subs[c + 1..];
    assert forall i :: 0 <= i < c ==> Footprint(a[i]) == Footprint(subs[i]);
    forall i | 0 <= i < |d| ensures Footprint(d[i]) == Footprint(subs[c + 1 + i]) {}
    forall o | o in FootprintAll(subs) ensures o in FootprintAll(a) + Footprint(subs[c]) + FootprintAll(d) {
      var i, o' :| 0 <= i < |subs| && o' in Footprint(subs[i]) && o' == o;
      assert i < c ==> o in Footprint(a[i]);
      assert i > c ==> o in Footprint(d[i - c - 1]);
    }
  }

  lemma {:induction false} AroundApart(n: BpNode, subs: seq<Layout>, c: nat)
    requires Separate(InnerAt(n, subs)) && c < |subs|
    ensures Around(n, subs, c) !! Footprint(subs[c])
    ensures Around(n, subs, c) + Footprint(subs[c]) == Footprint(InnerAt(n, subs))
    ensures forall i :: 0 <= i < |subs| && i != c ==> Footprint(subs[i]) <= Around(n, subs, c)
  {
    FootprintThree(subs, c);
    Assembled(n, subs);
    hide Separate, NodeObjects, Footprint;
    assert forall i :: 0 <= i < c ==> subs[..c][i] == subs[i];
    DropAt(subs, c);
    forall i | c < i < |subs| ensures Footprint(subs[i]) <= Around(n, subs, c) {
      assert Footprint(subs[c + 1..][i - c - 1]) == Footprint(subs[i]);
    }
  }

  lemma {:induction false} Assembled(n: BpNode, subs: seq<Layout>)
    requires Separate(InnerAt(n, subs))
    ensures Footprint(InnerAt(n, subs)) == NodeObjects(n) + FootprintAll(subs)
    ensures NodeObjects(n) !! FootprintAll(subs) && SeparateAll(subs)
  {
  }

  lemma {:induction false} LeavesAround(n: BpNode, subs: seq<Layout>, c: nat)
    requires Separate(InnerAt(n, subs)) && c < |subs|
    ensures forall l <- LeavesAll(subs[..c]) :: l in Around(n, subs, c)
    ensures forall l <- LeavesAll(subs[c + 1..]) :: l in Around(n, subs, c)
  {
    Assembled(n, subs);
    DropAt(subs, c);
    hide Separate;
    LeavesAllInside(subs[..c]);
    LeavesAllInside(subs[c + 1..]);
  }

  lemma {:induction false} DescendChain(subs: seq<Layout>, c: nat, exit: BpNode?)
    requires c < |subs| && Chained(LeavesAll(subs), exit) && Leaves(subs[c]) != []
    ensures LeavesAll(subs) != []
    ensures Chained(LeavesAll(subs[..c]), Leaves(subs[c])[0])
    ensures Chained(Leaves(subs[c]), ExitOf(subs, c, exit))
    ensures Chained(LeavesAll(subs[c + 1..]), exit)
  {
    hide Chained;
    var a, b, d := LeavesAll(subs[..c]), Leaves(subs[c]), LeavesAll(subs[c + 1..]);
    assert subs == subs[..c] + [subs[c]] + subs[c + 1..];
    LeavesAllAround(subs[..c], [subs[c]], subs[c + 1..]);
    LeavesOne(subs[c]);
    assert a + b + d == a + (b + d);
    ChainSplit(a, b + d, exit);
    ChainSplit(b, d, exit);
  }

  lemma {:induction false} AscendChain(subs: seq<Layout>, c: nat, exit: BpNode?, out: seq<Layout>)
    requires c < |subs|
    requires LeavesAll(out) != [] && Leaves(subs[c]) != [] && LeavesAll(out)[0] == Leaves(subs[c])[0]
    requires Chained(LeavesAll(subs[..c]), Leaves(subs[c])[0])
    requires Chained(LeavesAll(out), ExitOf(subs, c, exit))
    requires Chained(LeavesAll(subs[c + 1..]), exit)
    ensures var all := Spliced(subs, c, out);
      Chained(LeavesAll(all), exit)
      && LeavesAll(all) != [] && LeavesAll(subs) != [] && LeavesAll(all)[0] == LeavesAll(subs)[0]
  {
    hide Chained;
    var a, b, d := LeavesAll(subs[..c]), LeavesAll(out), LeavesAll(subs[c + 1..]);
    LeavesAllAround(subs[..c], out, subs[c + 1..]);
    if d != [] {
      ChainJoin(b, d, exit);
    } else {
      assert b + d == b;
    }
    ChainJoin(a, b + d, exit);
    assert a + b + d == a + (b + d);
    assert subs == subs[..c] + [subs[c]] + subs[c + 1..];
    LeavesAllAround(subs[..c], [subs[c]], subs[c + 1..]);
    LeavesOne(subs[c]);
  }

  lemma {:induction false} Descend(lay: Layout, t: Tree, k: int, exit: BpNode?)
    requires lay.InnerAt? && Separate(lay) && Holds(lay, t) && Good(t) && Chained(Leaves(lay), exit)
    ensures var c := ChildIndex(t.ks, k);
      && Good(t.cs[c]) && Separate(lay.subs[c]) && Holds(lay.subs[c], t.cs[c])
      && Leaves(lay.subs[c]) != [] && Leaves(lay) != []
      && HoldsAround(lay.n, t.ks, t.cs, lay.subs, c, Leaves(lay.subs[c])[0], exit)
      && Chained(Leaves(lay.subs[c]), ExitOf(lay.subs, c, exit))
  {
    var c, subs := ChildIndex(t.ks, k), lay.subs;
    Routing(t.ks, t.cs, k);
    LeavesInside(subs[c]);
    DescendChain(subs, c, exit);
    LeavesAround(lay.n, subs, c);
    assert HoldsAll(subs, t.cs);
    hide Holds, HoldsKeys, Separate, Chained;
    HoldsParts(subs, t.cs, c);
    HoldsParts(subs, t.cs, c + 1);
  }

  lemma {:induction false} Ascend(n: BpNode, ks: seq<int>, cs: seq<Tree>, subs: seq<Layout>, c: nat,
                                  first: BpNode, exit: BpNode?, out: seq<Layout>, ts: seq<Tree>)
    requires Separate(InnerAt(n, subs)) && c < |subs|
    requires HoldsAround(n, ks, cs, subs, c, first, exit)
    requires SeparateAll(out) && HoldsAll(out, ts) && Around(n, subs, c) !! FootprintAll(out)
    requires LeavesAll(out) != [] && LeavesAll(out)[0] == first && Leaves(subs[c]) != [] && Leaves(subs[c])[0] == first
    requires Chained(LeavesAll(out), ExitOf(subs, c, exit))
    ensures var all := Spliced(subs, c, out);
      && SeparateAll(all) && HoldsAll(all, cs[..c] + ts + cs[c + 1..])
      && NodeObjects(n) !! FootprintAll(all)
      && FootprintAll(all) <= Around(n, subs, c) + FootprintAll(out)
      && Chained(LeavesAll(all), exit)
      && LeavesAll(all) != [] && LeavesAll(subs) != [] && LeavesAll(all)[0] == LeavesAll(subs)[0]
  {
    AroundApart(n, subs, c);
    Assembled(n, subs);
    SplicedInside(n, subs, c, out);
    hide Holds, HoldsKeys, Separate, Chained, Around;
    SplicedSeparate(subs, c, out);
    SplicedHolds(subs, cs, c, out, ts);
    AscendChain(subs, c, exit, out);
  }

  lemma {:induction false} SplicedInside(n: BpNode, subs: seq<Layout>, c: nat, out: seq<Layout>)
    requires Separate(InnerAt(n, subs)) && c < |subs| && Around(n, subs, c) !! FootprintAll(out)
    ensures var all := Spliced(subs, c, out);
      FootprintAll(all) <= Around(n, subs, c) + FootprintAll(out) && NodeObjects(n) !! FootprintAll(all)
  {
    hide Separate;
    var all := Spliced(subs, c, out);
    AroundApart(n, subs, c);
    forall i | 0 <= i < |all|
      ensures Footprint(all[i]) <= Around(n, subs, c) + FootprintAll(out) && NodeObjects(n) !! Footprint(all[i])
    {
      SplicedAt(subs, c, out, i);
      if i < c {
        InnerApart(n, subs, i);
      } else if i >= c + |out| {
        InnerApart(n, subs, i - |out| + 1);
      }
    }
  }

  lemma {:induction false} InnerApart(n: BpNode, subs: seq<Layout>, i: nat)
    requires Separate(InnerAt(n, subs)) && i < |subs|
    ensures NodeObjects(n) !! Footprint(subs[i]) && Footprint(subs[i]) <= FootprintAll(subs)
  {
  }

  method LeafCase(n: BpNode, k: int, v: nat, ghost es: seq<Entry>, ghost exit: BpNode?)
    returns (res: InsertResult, ghost out: seq<Layout>)
    requires HoldsEntries(n, es) && n.next == exit
    modifies NodeObjects(n)
    ensures Stores(out, InsertLeaf(es, k, v), res, n)
    ensures forall o <- FootprintAll(out) :: o in NodeObjects(n) || fresh(o)
    ensures Chained(LeavesAll(out), exit) && LeavesAll(out) != [] && LeavesAll(out)[0] == n
  {
    res := LeafInsert(n, k, v, es);
    if res.split {
      out := [LeafAt(n), LeafAt(res.right)];
      TwoLeaves(n, res.right, exit, InsertLeaf(es, k, v));
    } else {
      out := [LeafAt(n)];
      OneLeaf(n, exit, InsertLeaf(es, k, v).t);
    }
  }

  lemma {:induction false} OneLeaf(n: BpNode, exit: BpNode?, t: Tree)
    requires t.Leaf? && HoldsEntries(n, t.es) && n.next == exit
    ensures var out := [LeafAt(n)];
      && SeparateAll(out) && HoldsAll(out, [t]) && FootprintAll(out) == NodeObjects(n)
      && LeavesAll(out) == [n] && Chained(LeavesAll(out), exit)
  {
    LeavesOne(LeafAt(n));
    var out := [LeafAt(n)];
    assert out[0] == LeafAt(n);
    assert FootprintAll(out) == Footprint(out[0]);
  }

  lemma {:induction false} TwoLeaves(n: BpNode, right: BpNode, exit: BpNode?, ins: Insertion)
    requires ins.Split? && ins.l.Leaf? && ins.r.Leaf?
    requires HoldsEntries(n, ins.l.es) && HoldsEntries(right, ins.r.es)
    requires NodeObjects(n) !! NodeObjects(right) && n.next == right && right.next == exit
    ensures var out := [LeafAt(n), LeafAt(right)];
      && SeparateAll(out) && HoldsAll(out, [ins.l, ins.r])
      && FootprintAll(out) == NodeObjects(n) + NodeObjects(right)
      && LeavesAll(out) == [n, right] && Chained(LeavesAll(out), exit)
  {
    LeavesTwo(LeafAt(n), LeafAt(right));
    var out := [LeafAt(n), LeafAt(right)];
    assert out[0] == LeafAt(n) && out[1] == LeafAt(right);
    assert Leaves(out[0]) + Leaves(out[1]) == [n, right];
  }

  /** One insertion below a node: the heap follows the model, new nodes are fresh,
      and the chain still leads from the same first leaf to the same exit. */
  method NodeInsert(n: BpNode, k: int, v: nat, ghost lay: Layout, ghost t: Tree, ghost exit: BpNode?)
    returns (res: InsertResult, ghost out: seq<Layout>)
    requires lay.n == n && Separate(lay) && Holds(lay, t) && Good(t) && Chained(Leaves(lay), exit)
    modifies Footprint(lay)
    ensures Stores(out, Insert(t, k, v), res, n)
    ensures forall o <- FootprintAll(out) :: o in Footprint(lay) || fresh(o)
    ensures Chained(LeavesAll(out), exit)
    ensures LeavesAll(out) != [] && Leaves(lay) != [] && LeavesAll(out)[0] == Leaves(lay)[0]
    decreases t, 1
  {
    if n.isLeaf {
      assert Leaves(lay)[0] == n;
      res, out := LeafCase(n, k, v, t.es, exit);
    } else {
      res, out := InnerCase(n, k, v, lay, t, exit);
    }
  }

  method InnerCase(n: BpNode, k: int, v: nat, ghost lay: Layout, ghost t: Tree, ghost exit: BpNode?)
    returns (res: InsertResult, ghost out: seq<Layout>)
    requires lay.n == n && Separate(lay) && Holds(lay, t) && Good(t) && Chained(Leaves(lay), exit)
    requires lay.InnerAt?
    modifies Footprint(lay)
    ensures Stores(out, Insert(t, k, v), res, n)
    ensures forall o <- FootprintAll(out) :: o in Footprint(lay) || fresh(o)
    ensures Chained(LeavesAll(out), exit)
    ensures LeavesAll(out) != [] && Leaves(lay) != [] && LeavesAll(out)[0] == Leaves(lay)[0]
    decreases t, 0
  {
    hide *;
    InnerParts(lay, t, k, v, exit);
    Allocated(lay);
    ghost var ks, cs, subs := t.ks, t.cs, lay.subs;
    var c := ChildIndexForKey(n, k, ks);
    JoinedChain(Footprint(lay), Leaves(lay), exit);
    ghost var sub, ins := subs[c], Insert(cs[c], k, v);
    assert lay == InnerAt(n, subs);
    Descend(lay, t, k, exit);
    AroundApart(n, subs, c);
    var below, out' := NodeInsert(n.children[c], k, v, sub, cs[c], ExitOf(subs, c, exit));
    assert Footprint(sub) <= Footprint(lay) && Around(n, subs, c) <= Footprint(lay);
    res, out := InnerFinish(n, c, below, ks, cs, subs, ins, out', exit);
  }

  lemma {:induction false} InnerParts(lay: Layout, t: Tree, k: int, v: nat, exit: BpNode?)
    requires lay.InnerAt? && Separate(lay) && Holds(lay, t) && Good(t) && Chained(Leaves(lay), exit)
    ensures ChainedIn(Footprint(lay), Leaves(lay), exit)
    ensures t.Inner? && HoldsKeys(lay.n, t.ks, lay.subs) && |t.cs| == |lay.subs| == |t.ks| + 1
    ensures lay.n.numKeys == |t.ks| <= MAX_KEYS && Sized(lay.n) && lay.n.keys[..|t.ks|] == t.ks
    ensures forall i :: 0 <= i < |lay.subs| ==> lay.n.children[i] == lay.subs[i].n
    ensures var c := ChildIndex(t.ks, k);
      c < |t.cs| && Shape(t) && Shape(t.cs[c]) && Insert(t, k, v) == InsertAbove(t.ks, t.cs, c, Insert(t.cs[c], k, v))
    ensures Leaves(lay) == LeavesAll(lay.subs) && {lay.n, lay.n.keys, lay.n.children} <= Footprint(lay)
  {
    LeavesInside(lay);
    forall i | 0 <= i < |lay.subs| ensures lay.n.children[i] == lay.subs[i].n {
      assert NodesOf(lay.subs)[i] == lay.subs[i].n;
    }
  }

  /** Brings what happened at child c into the node. */
  method InnerFinish(n: BpNode, c: nat, below: InsertResult, ghost ks: seq<int>, ghost cs: seq<Tree>,
                     ghost subs: seq<Layout>, ghost ins: Insertion, ghost out': seq<Layout>, ghost exit: BpNode?)
    returns (res: InsertResult, ghost out: seq<Layout>)
    requires Separate(InnerAt(n, subs)) && c < |subs| && Leaves(subs[c]) != []
    requires HoldsAround(n, ks, cs, subs, c, Leaves(subs[c])[0], exit)
    requires Stores(out', ins, below, subs[c].n) && Around(n, subs, c) !! FootprintAll(out')
    requires LeavesAll(out') != [] && LeavesAll(out')[0] == Leaves(subs[c])[0]
    requires Chained(LeavesAll(out'), ExitOf(subs, c, exit))
    modifies n`numKeys, n.keys, n.children
    ensures Stores(out, InsertAbove(ks, cs, c, ins), res, n)
    ensures forall o <- FootprintAll(out) :: o in Around(n, subs, c) || o in FootprintAll(out') || fresh(o)
    ensures Chained(LeavesAll(out), exit)
    ensures LeavesAll(out) != [] && LeavesAll(subs) != [] && LeavesAll(out)[0] == LeavesAll(subs)[0]
  {
    hide *;
    ghost var all := Spliced(subs, c, out');
    Joined(n, c, below, ks, cs, subs, ins, out', exit);
    ghost var cs' := Graft(cs, c, ins);
    AllocatedAll(all);
    if below.split {
      NodesSpliced(subs, c, out');
      res, out := NodePromote(n, c, below.promotedKey, below.right, below.insertedNew, ks, subs, all, cs');
      JoinedChain(FootprintAll(all), LeavesAll(all), exit);
    } else {
      res := below;
      NodeUnsplit(n, c, ks, cs, subs, ins.t, out'[0]);
      out := [InnerAt(n, all)];
      StoresWhole(out, ins, below, res, n, ks, cs, c);
    }
  }

  lemma {:induction false} JoinedChain(objects: set<object>, ls: seq<BpNode>, exit: BpNode?)
    requires ChainedIn(objects, ls, exit)
    ensures Chained(ls, exit)
  {
  }

  lemma {:induction false} StoresWhole(out: seq<Layout>, ins: Insertion, below: InsertResult, res: InsertResult,
                                       n: BpNode, ks: seq<int>, cs: seq<Tree>, c: nat)
    requires |cs| == |ks| + 1 && c < |cs|
    requires ins.Whole? && res == below && !below.split && below.insertedNew == ins.added
    requires |out| == 1 && out[0].n == n && SeparateAll(out) && HoldsAll(out, [Inner(ks, cs[c := ins.t])])
    ensures Stores(out, InsertAbove(ks, cs, c, ins), res, n)
  {
  }

  lemma {:induction false} Joined(n: BpNode, c: nat, below: InsertResult, ks: seq<int>, cs: seq<Tree>,
                                  subs: seq<Layout>, ins: Insertion, out: seq<Layout>, exit: BpNode?)
    requires Separate(InnerAt(n, subs)) && c < |subs| && Leaves(subs[c]) != []
    requires HoldsAround(n, ks, cs, subs, c, Leaves(subs[c])[0], exit)
    requires Stores(out, ins, below, subs[c].n) && Around(n, subs, c) !! FootprintAll(out)
    requires LeavesAll(out) != [] && LeavesAll(out)[0] == Leaves(subs[c])[0]
    requires Chained(LeavesAll(out), ExitOf(subs, c, exit))
    ensures HoldsKeys(n, ks, subs) && |cs| == |subs| == |ks| + 1
    ensures |out| == (if below.split then 2 else 1) && out[0].n == subs[c].n && below.split == ins.Split?
    ensures below.insertedNew == ins.added
    ensures ins.Split? ==> below.promotedKey == ins.promoted && below.right == out[1].n
    ensures ins.Split? ==>
      InsertAbove(ks, cs, c, ins) == Rebalance(Inserted(ks, c, ins.promoted), Graft(cs, c, ins), ins.added)
    ensures ins.Whole? ==> Graft(cs, c, ins) == cs[..c] + [ins.t] + cs[c + 1..] && out == [out[0]]
    ensures var all := Spliced(subs, c, out);
      && SeparateAll(all) && HoldsAll(all, Graft(cs, c, ins)) && |Graft(cs, c, ins)| == |all|
      && NodeObjects(n) !! FootprintAll(all)
      && NodeObjects(n) <= Around(n, subs, c)
      && n !in FootprintAll(all) && n.keys !in FootprintAll(all) && n.children !in FootprintAll(all)
      && FootprintAll(all) <= Around(n, subs, c) + FootprintAll(out)
      && ChainedIn(FootprintAll(all), LeavesAll(all), exit) && Chained(LeavesAll(all), exit)
      && LeavesAll(all) != [] && LeavesAll(subs) != [] && LeavesAll(all)[0] == LeavesAll(subs)[0]
  {
    Ascend(n, ks, cs, subs, c, Leaves(subs[c])[0], exit, out, Trees(ins));
    var all := Spliced(subs, c, out);
    SeparateEach(all);
    hide Separate, Holds, HoldsKeys, Footprint, Leaves, LeavesAll, Chained;
    LeavesAllInside(all);
  }

  lemma {:induction false} SeparateEach(subs: seq<Layout>)
    requires SeparateAll(subs)
    ensures forall i :: 0 <= i < |subs| ==> Separate(subs[i])
  {
  }

  // ---------------------------------------------------------------- the whole tree

  /** A whole tree stands at root, and its last leaf ends the chain. */
  ghost predicate Stored(root: BpNode, lay: Layout, t: Tree)
    reads Footprint(lay)
  {
    lay.n == root && Separate(lay) && Holds(lay, t) && ChainedIn(Footprint(lay), Leaves(lay), null)
  }

  method NewLeaf() returns (root: BpNode)
    ensures Stored(root, LeafAt(root), Leaf([])) && fresh(Footprint(LeafAt(root)))
  {
    root := new BpNode(true);
  }

  /** A new root above the two halves of a split one. */
  method GrowRoot(l: BpNode, p: int, r: BpNode, ghost out: seq<Layout>, ghost ins: Insertion) returns (root: BpNode)
    requires ins.Split? && ins.promoted == p && |out| == 2 && out[0].n == l && out[1].n == r
    requires SeparateAll(out) && HoldsAll(out, Trees(ins)) && Chained(LeavesAll(out), null)
    requires forall o <- FootprintAll(out) :: allocated(o)
    ensures Stored(root, InnerAt(root, out), Root(ins))
    ensures Footprint(InnerAt(root, out)) == NodeObjects(root) + FootprintAll(out) && fresh(NodeObjects(root))
  {
    SeparateEach(out);
    LeavesAllInside(out);
    assert ChainedIn(FootprintAll(out), LeavesAll(out), null);
    hide SeparateAll, HoldsAll, Chained, ChainedIn, FootprintAll, Separate, Holds, Leaves, LeavesAll;
    root := new BpNode(false);
    root.numKeys := 1;
    root.keys[0] := p;
    root.children[0] := l;
    root.children[1] := r;
    assert NodesOf(out) == [l, r];
    Grown(root, p, out, Trees(ins));
  }

  lemma {:induction false} Grown(root: BpNode, p: int, out: seq<Layout>, ts: seq<Tree>)
    requires HoldsKeys(root, [p], out) && HoldsAll(out, ts)
    requires SeparateAll(out) && NodeObjects(root) !! FootprintAll(out)
    requires ChainedIn(FootprintAll(out), LeavesAll(out), null)
    ensures Stored(root, InnerAt(root, out), Inner([p], ts))
    ensures Footprint(InnerAt(root, out)) == NodeObjects(root) + FootprintAll(out)
  {
    Assemble(root, [p], out, ts);
    assert Leaves(InnerAt(root, out)) == LeavesAll(out);
    hide Separate, Holds, SeparateAll, HoldsAll, HoldsKeys, Footprint, FootprintAll, Leaves, LeavesAll;
  }

  lemma {:induction false} Unsplit(out: seq<Layout>, t: Tree, root: BpNode)
    requires |out| == 1 && SeparateAll(out) && HoldsAll(out, [t]) && out[0].n == root && Chained(LeavesAll(out), null)
    ensures Stored(root, out[0], t) && Footprint(out[0]) == FootprintAll(out)
  {
    LeavesInside(out[0]);
    LeavesOne(out[0]);
    assert out == [out[0]];
  }

  lemma {:induction false} StoredOutcome(out: seq<Layout>, ins: Insertion, res: InsertResult, n: BpNode)
    requires Stores(out, ins, res, n)
    ensures SeparateAll(out) && HoldsAll(out, Trees(ins)) && |out| == |Trees(ins)| && out[0].n == n
    ensures res.insertedNew == ins.added && res.split == ins.Split?
    ensures ins.Split? ==> |out| == 2 && res.promotedKey == ins.promoted && res.right == out[1].n
    ensures ins.Whole? ==> |out| == 1 && Trees(ins) == [ins.t] && Root(ins) == ins.t
  {
  }

  method RootInsert(root: BpNode, k: int, v: nat, ghost lay: Layout, ghost t: Tree)
    returns (root': BpNode, added: bool, ghost lay': Layout)
    requires Stored(root, lay, t) && Good(t)
    modifies Footprint(lay)
    ensures Stored(root', lay', Root(Insert(t, k, v))) && added == Insert(t, k, v).added
    ensures fresh(Footprint(lay') - Footprint(lay))
  {
    hide Holds, Separate, Chained, Leaves, LeavesAll, Footprint, FootprintAll, Stores, Insert, Shape, Ascending;
    var res, out := NodeInsert(root, k, v, lay, t, null);
    StoredOutcome(out, Insert(t, k, v), res, root);
    AllocatedAll(out);
    added := res.insertedNew;
    if res.split {
      root' := GrowRoot(root, res.promotedKey, res.right, out, Insert(t, k, v));
      lay' := InnerAt(root', out);
    } else {
      Unsplit(out, Insert(t, k, v).t, root);
      root', lay' := root, out[0];
    }
  }

  ghost function OptionFootprint(layout: Option<Layout>): set<object> {
    if layout.Some? then Footprint(layout.value) else {}
  }

  ghost predicate StoredOrEmpty(root: BpNode?, layout: Option<Layout>, t: Tree)
    reads OptionFootprint(layout)
  {
    && Good(t)
    && (layout.None? ==> root == null && t == Leaf([]))
    && (layout.Some? ==> root != null && Stored(root, layout.value, t))
  }

  /** The same for a tree that may still have no root. */
  method RootOrLeafInsert(root: BpNode?, k: int, v: nat, ghost layout: Option<Layout>, ghost t: Tree)
    returns (root': BpNode, added: bool, ghost lay': Layout)
    requires StoredOrEmpty(root, layout, t)
    modifies OptionFootprint(layout)
    ensures Shape(t) && StoredOrEmpty(root', Some(lay'), Root(Insert(t, k, v))) && added == Insert(t, k, v).added
    ensures fresh(OptionFootprint(Some(lay')) - OptionFootprint(layout))
  {
    InsertGood(t, k, v);
    assert Shape(t);
    hide Good, Stored, Footprint, Insert, Root, Shape;
    if root == null {
      var leaf := NewLeaf();
      ghost var lay := LeafAt(leaf);
      root', added, lay' := RootInsert(leaf, k, v, lay, t);
      assert fresh(Footprint(lay)) && fresh(Footprint(lay') - Footprint(lay));
      assert forall o <- Footprint(lay') :: o in Footprint(lay) || o in Footprint(lay') - Footprint(lay);
    } else {
      root', added, lay' := RootInsert(root, k, v, layout.value, t);
    }
  }

  /** Looking a key up among the entries that a node stores. */
  ghost function LookupIn(n: BpNode, k: int): Option<nat>
    reads NodeObjects(n)
  {
    Lookup(StoredEntries(n), k)
  }

  lemma {:induction false} StoredAre(n: BpNode, es: seq<Entry>)
    requires HoldsEntries(n, es)
    ensures StoredEntries(n) == es
  {
  }

  lemma {:induction false} LookupThere(n: BpNode, es: seq<Entry>, k: int)
    requires HoldsEntries(n, es)
    ensures LookupIn(n, k) == Lookup(es, k)
  {
    StoredAre(n, es);
  }

  /** Walks down to the only leaf that can hold the key. */
  method FindLeaf(root: BpNode, k: int, ghost lay: Layout, ghost t: Tree)
    returns (leaf: BpNode, ghost es: seq<Entry>, ghost visited: nat)
    requires Stored(root, lay, t) && Good(t) && Shape(t)
    ensures HoldsEntries(leaf, es) && Lookup(es, k) == Find(t, k) && visited == Height(t) + 1
    ensures Find(t, k) == LookupIn(leaf, k)
  {
    hide *;
    StoredParts(root, lay, t);
    leaf := root;
    ghost var l, u := lay, t;
    visited := 1;
    while !leaf.isLeaf
      invariant l.n == leaf && Separate(l) && Holds(l, u) && Good(u) && Shape(u)
      invariant Find(u, k) == Find(t, k) && visited + Height(u) == Height(t) + 1
      decreases u
    {
      StepDown(l, u, k);
      ghost var l', u' := l.subs[ChildIndex(u.ks, k)], u.cs[ChildIndex(u.ks, k)];
      Allocated(l');
      var idx := ChildIndexForKey(leaf, k, u.ks);
      leaf := leaf.children[idx];
      l, u := l', u';
      visited := visited + 1;
    }
    LeafParts(l, u, k);
    es := u.es;
    LookupThere(leaf, es, k);
  }

  lemma {:induction false} StoredParts(root: BpNode, lay: Layout, t: Tree)
    requires Stored(root, lay, t) && Good(t)
    ensures lay.n == root && Separate(lay) && Holds(lay, t) && Shape(t)
  {
  }

  lemma {:induction false} LeafParts(lay: Layout, t: Tree, k: int)
    requires Separate(lay) && Holds(lay, t) && Good(t) && lay.n.isLeaf
    ensures t.Leaf? && HoldsEntries(lay.n, t.es) && Find(t, k) == Lookup(t.es, k) && Height(t) == 0
  {
  }

  class BPlusTree {
    var root: BpNode?
    var size: nat
    ghost var layout: Option<Layout>
    ghost var model: Tree

    ghost function Repr(): set<object>
      reads this
    {
      {this} + OptionFootprint(layout)
    }

    ghost predicate Valid()
      reads this, Repr()
    {
      && this !in OptionFootprint(layout)
      && StoredOrEmpty(root, layout, model)
      && size == |Flat(model)|
    }

    /** Whatever is allocated later does not belong to the tree. */
    lemma {:induction false} ReprAllocated()
      ensures forall o <- Repr() :: allocated(o)
    {
      if layout.Some? {
        Allocated(layout.value);
      }
    }

    /** The mapping from keys to record positions. */
    ghost function Contents(): map<int, nat>
      reads this
    {
      ToMap(Flat(model))
    }

    constructor ()
      ensures Valid() && fresh(Repr()) && Contents() == map[] && size == 0
    {
      root := null;
      size := 0;
      layout := None;
      model := Leaf([]);
    }

    method Insert(k: int, v: nat)
      requires Valid()
      modifies Repr()
      ensures Valid() && forall o <- Repr() :: o in old(Repr()) || fresh(o)
      ensures model == Root(BPlusTreeModel.Insert(old(model), k, v))
      ensures Contents() == old(Contents())[k := v]
      ensures size == |Contents()|
    {
      hide *;
      ValidParts();
      ghost var t := model;
      var root', added, lay := RootOrLeafInsert(root, k, v, layout, t);
      assert this !in OptionFootprint(Some(lay));
      root := root';
      layout := Some(lay);
      if added {
        size := size + 1;
      }
      model := Root(BPlusTreeModel.Insert(t, k, v));
      InsertContents(t, k, v);
      ValidFromParts();
    }

    /** Also counts the nodes that the search looks at. */
    method Search(k: int) returns (found: bool, value: nat, ghost visited: nat)
      requires Valid()
      ensures found <==> k in Contents()
      ensures found ==> value == Contents()[k]
      ensures root != null ==> visited == Height(model) + 1
      ensures size >= 1 && visited >= 2 ==> 2 * Power(16, visited - 1) <= size
    {
      hide Good, Separate, Holds, Power, Height, Flat, ToMap, Find, Position;
      SearchContents(model, k);
      if root == null {
        NothingStored();
        return false, 0, 0;
      }
      var leaf, es, visits := FindLeaf(root, k, layout.value, model);
      visited := visits;
      var pos := LeafFindPosition(leaf, k, es);
      if pos < leaf.numKeys && leaf.keys[pos] == k {
        return true, leaf.values[pos], visited;
      }
      return false, 0, visited;
    }

    lemma {:induction false} NothingStored()
      requires Valid() && root == null
      ensures Contents() == map[] && size == 0
    {
    }

    /** The leaves in the order in which next leads through them. */
    ghost function Chain(): seq<BpNode>
      reads this
    {
      if layout.Some? then Leaves(layout.value) else []
    }

    /** The chain starts at the leftmost leaf, visits every leaf once, ends in null
        and lists the whole map in ascending order of keys. */
    lemma {:induction false} LeafChain()
      requires Valid() && root != null
      ensures Chain() != [] && Chain()[0] == Leftmost(layout.value)
      ensures forall i :: 0 <= i < |Chain()| ==> Chain()[i].next == After(Chain(), i, null)
      ensures forall i, j :: 0 <= i < j < |Chain()| ==> Chain()[i] != Chain()[j]
      ensures Chain() != [] && Listed(Chain()) == Flat(model)
      ensures Ascending(Flat(model)) && ToMap(Flat(model)) == Contents()
    {
      LeftmostFirst(layout.value);
      LeavesDistinct(layout.value);
      LeavesList(layout.value, model);
    }

    lemma {:induction false} ValidParts()
      requires Valid()
      ensures Repr() == {this} + OptionFootprint(layout) && this !in OptionFootprint(layout)
      ensures StoredOrEmpty(root, layout, model) && size == |Flat(model)| && Contents() == ToMap(Flat(model))
    {
    }

    lemma {:induction false} ValidFromParts()
      requires this !in OptionFootprint(layout)
      requires StoredOrEmpty(root, layout, model) && size == |Flat(model)|
      ensures Valid() && Repr() == {this} + OptionFootprint(layout) && Contents() == ToMap(Flat(model))
    {
    }
  }

  lemma {:induction false} InsertContents(t: Tree, k: int, v: nat)
    requires Good(t)
    ensures Shape(t)
    ensures var t' := Root(Insert(t, k, v));
      && Good(t') && ToMap(Flat(t')) == ToMap(Flat(t))[k := v]
      && |Flat(t')| == |Flat(t)| + (if Insert(t, k, v).added then 1 else 0)
      && |Flat(t')| == |ToMap(Flat(t'))|
  {
    InsertGood(t, k, v);
    InsertAdded(t, k, v);
    ToMapPut(Flat(t), k, v);
    ToMapSize(Put(Flat(t), k, v));
  }

  lemma {:induction false} SearchContents(t: Tree, k: int)
    requires Good(t)
    ensures Shape(t)
    ensures Find(t, k) == if k in ToMap(Flat(t)) then Some(ToMap(Flat(t))[k]) else None
    ensures Height(t) >= 1 ==> 2 * Power(16, Height(t)) <= |Flat(t)|
  {
    FindFlat(t, k);
    LookupIsMap(Flat(t), k);
    if Height(t) >= 1 {
      HeightBound(t);
    }
  }

  lemma {:induction false} StepDown(lay: Layout, t: Tree, k: int)
    requires Separate(lay) && Holds(lay, t) && Good(t) && !lay.n.isLeaf
    ensures lay.InnerAt? && t.Inner? && Sized(lay.n) && lay.n.numKeys == |t.ks| <= MAX_KEYS
    ensures lay.n.keys[..|t.ks|] == t.ks
    ensures forall i :: 0 <= i < |t.cs| ==> t.cs[i] < t
    ensures var c := ChildIndex(t.ks, k);
      && c < |lay.subs| == |t.cs| && lay.n.children[c] == lay.subs[c].n
      && Separate(lay.subs[c]) && Holds(lay.subs[c], t.cs[c]) && Good(t.cs[c]) && Shape(t.cs[c])
      && Find(t, k) == Find(t.cs[c], k) && Height(t) == 1 + Height(t.cs[c])
  {
    Routing(t.ks, t.cs, k);
    assert NodesOf(lay.subs)[ChildIndex(t.ks, k)] == lay.subs[ChildIndex(t.ks, k)].n;
  }

  ghost function Leftmost(lay: Layout): BpNode
    requires Separate(lay)
  {
    match lay
    case LeafAt(n) => n
    case InnerAt(_, subs) => Leftmost(subs[0])
  }

  lemma {:induction false} LeftmostFirst(lay: Layout)
    requires Separate(lay)
    ensures Leaves(lay) != [] && Leaves(lay)[0] == Leftmost(lay)
    decreases lay
  {
    match lay
    case LeafAt(n) =>
    case InnerAt(_, subs) =>
      LeftmostFirst(subs[0]);
  }

  ghost predicate Distinct(ls: seq<BpNode>) {
    forall i, j :: 0 <= i < j < |ls| ==> ls[i] != ls[j]
  }

  lemma {:induction false} LeavesDistinct(lay: Layout)
    requires Separate(lay)
    ensures Distinct(Leaves(lay))
    decreases lay, 0
  {
    match lay
    case LeafAt(n) =>
    case InnerAt(_, subs) =>
      LeavesAllDistinct(subs);
  }

  lemma {:induction false} LeavesAllDistinct(subs: seq<Layout>)
    requires SeparateAll(subs)
    ensures Distinct(LeavesAll(subs))
    decreases subs, 1
  {
    if subs != [] {
      LeavesDistinct(subs[0]);
      assert forall i :: 0 <= i < |subs[1..]| ==> subs[1..][i] == subs[i + 1];
      LeavesAllDistinct(subs[1..]);
      LeavesInside(subs[0]);
      LeavesAllInside(subs[1..]);
      DisjointLeaves(Leaves(subs[0]), LeavesAll(subs[1..]), Footprint(subs[0]), FootprintAll(subs[1..]));
    }
  }

  lemma {:induction false} DisjointLeaves(a: seq<BpNode>, b: seq<BpNode>, fa: set<object>, fb: set<object>)
    requires Distinct(a) && Distinct(b) && fa !! fb
    requires (forall l <- a :: l in fa) && (forall l <- b :: l in fb)
    ensures Distinct(a + b)
  {
    var ls := a + b;
    forall i, j | 0 <= i < j < |ls| ensures ls[i] != ls[j] {
      if i < |a| <= j {
        assert a[i] in a && b[j - |a|] in b;
      }
    }
  }

  /** The entries that the listed nodes store, read off the heap. */
  ghost function Listed(ls: seq<BpNode>): seq<Entry>
    reads set l, o | l in ls && o in NodeObjects(l) :: o
  {
    if ls == [] then [] else StoredEntries(ls[0]) + Listed(ls[1..])
  }

  ghost function StoredEntries(n: BpNode): seq<Entry>
    reads NodeObjects(n)
  {
    if Sized(n) && n.numKeys <= MAX_KEYS then
      seq(n.numKeys, i requires 0 <= i < n.numKeys && Sized(n) && n.numKeys <= MAX_KEYS
                       reads NodeObjects(n) => Entry(n.keys[i], n.values[i]))
    else []
  }

  lemma {:induction false} ListedConcat(a: seq<BpNode>, b: seq<BpNode>)
    ensures Listed(a + b) == Listed(a) + Listed(b)
  {
    hide StoredEntries;
    if a == [] {
      assert a + b == b;
    } else {
      ListedConcat(a[1..], b);
      assert (a + b)[0] == a[0] && (a + b)[1..] == a[1..] + b;
      Associate(StoredEntries(a[0]), Listed(a[1..]), Listed(b));
    }
  }

  lemma {:induction false} LeavesList(lay: Layout, t: Tree)
    requires Holds(lay, t)
    ensures Listed(Leaves(lay)) == Flat(t)
    decreases lay, 0
  {
    match lay
    case LeafAt(n) =>
      assert StoredEntries(n) == t.es;
      assert Listed([n]) == StoredEntries(n) + Listed([]);
    case InnerAt(_, subs) =>
      LeavesAllList(subs, t.cs);
  }

  lemma {:induction false} LeavesAllList(subs: seq<Layout>, cs: seq<Tree>)
    requires HoldsAll(subs, cs)
    ensures Listed(LeavesAll(subs)) == FlatAll(cs)
    decreases subs, 1
  {
    if subs != [] {
      LeavesList(subs[0], cs[0]);
      HoldsParts(subs, cs, 1);
      LeavesAllList(subs[1..], cs[1..]);
      ListedConcat(Leaves(subs[0]), LeavesAll(subs[1..]));
    }
  }
}
