/** The B+ tree as a value: what a tree lists, which trees are well shaped, what
    an insertion returns, and the laws that tie the three together.  The heap
    nodes of module BPlusTree are proved to compute exactly these functions. */
module BPlusTreeModel {
  import opened Options

  const MAX_KEYS := 31

  datatype Entry = Entry(key: int, value: nat)

  datatype Tree =
    | Leaf(es: seq<Entry>)
    | Inner(ks: seq<int>, cs: seq<Tree>)

  /** The tree that an insertion leaves in place of the old one, or its two halves. */
  datatype Insertion =
    | Whole(t: Tree, added: bool)
    | Split(l: Tree, promoted: int, r: Tree, added: bool)

  // ---------------------------------------------------------------- sorted lists

  ghost predicate Ascending(es: seq<Entry>) {
    forall i, j :: 0 <= i < j < |es| ==> es[i].key < es[j].key
  }

  ghost predicate Below(es: seq<Entry>, k: int) {
    forall i :: 0 <= i < |es| ==> es[i].key < k
  }

  ghost predicate Above(es: seq<Entry>, k: int) {
    forall i :: 0 <= i < |es| ==> k < es[i].key
  }

  /** The position of the first entry whose key is not below k. */
  function Position(es: seq<Entry>, k: int): (p: nat)
    ensures p <= |es|
    ensures forall i :: 0 <= i < p ==> es[i].key < k
    ensures p < |es| ==> k <= es[p].key
  {
    if es == [] || k <= es[0].key then 0 else 1 + Position(es[1..], k)
  }

  /** The sequence with x put in at position c; later elements move up by one. */
  function Inserted<T>(s: seq<T>, c: nat, x: T): (r: seq<T>)
    requires c <= |s|
    ensures |r| == |s| + 1
    ensures forall i :: 0 <= i < |r| ==> r[i] == if i < c then s[i] else if i == c then x else s[i - 1]
  {
    s[..c] + [x] + s[c..]
  }

  /** The reference for insertion: update or insert in a sorted list. */
  function Put(es: seq<Entry>, k: int, v: nat): seq<Entry> {
    var p := Position(es, k);
    if p < |es| && es[p].key == k then es[p := Entry(k, v)]
    else Inserted(es, p, Entry(k, v))
  }

  function Lookup(es: seq<Entry>, k: int): Option<nat> {
    var p := Position(es, k);
    if p < |es| && es[p].key == k then Some(es[p].value) else None
  }

  ghost function ToMap(es: seq<Entry>): map<int, nat> {
    if es == [] then map[] else ToMap(es[1..])[es[0].key := es[0].value]
  }

  lemma {:induction false} PositionUnique(es: seq<Entry>, k: int, p: nat)
    requires p <= |es|
    requires forall i :: 0 <= i < p ==> es[i].key < k
    requires p < |es| ==> k <= es[p].key
    ensures p == Position(es, k)
  {
  }

  lemma {:induction false} PutAscending(es: seq<Entry>, k: int, v: nat)
    requires Ascending(es)
    ensures Ascending(Put(es, k, v))
  {
  }

  lemma {:induction false} ToMapDomain(es: seq<Entry>, k: int)
    ensures k in ToMap(es) <==> exists i :: 0 <= i < |es| && es[i].key == k
  {
    if es != [] {
      ToMapDomain(es[1..], k);
      if k in ToMap(es[1..]) {
        var i :| 0 <= i < |es[1..]| && es[1..][i].key == k;
        assert es[i + 1].key == k;
      }
      if i :| 0 < i < |es| && es[i].key == k {
        assert es[1..][i - 1].key == k;
      }
    }
  }

  lemma {:induction false} ToMapAt(es: seq<Entry>, i: nat)
    requires Ascending(es) && i < |es|
    ensures es[i].key in ToMap(es) && ToMap(es)[es[i].key] == es[i].value
  {
    if i > 0 {
      ToMapAt(es[1..], i - 1);
    }
  }

  /** On a sorted list, looking a key up is applying the map. */
  lemma {:induction false} LookupIsMap(es: seq<Entry>, k: int)
    requires Ascending(es)
    ensures Lookup(es, k) == if k in ToMap(es) then Some(ToMap(es)[k]) else None
  {
    var p := Position(es, k);
    ToMapDomain(es, k);
    if p < |es| && es[p].key == k {
      ToMapAt(es, p);
    }
  }

  lemma {:induction false} PositionMiddle(a: seq<Entry>, b: seq<Entry>, c: seq<Entry>, k: int)
    requires Below(a, k) && Above(c, k)
    ensures Position(a + b + c, k) == |a| + Position(b, k)
    ensures Lookup(a + b + c, k) == Lookup(b, k)
  {
    var all := a + b + c;
    forall i | 0 <= i < |a| + Position(b, k) ensures all[i].key < k {
      assert all[i] == if i < |a| then a[i] else b[i - |a|];
    }
    PositionUnique(all, k, |a| + Position(b, k));
  }

  lemma {:induction false} SliceMiddle<T>(a: seq<T>, b: seq<T>, c: seq<T>, p: nat)
    requires p <= |b|
    ensures (a + b + c)[..|a| + p] == a + b[..p]
    ensures (a + b + c)[|a| + p..] == b[p..] + c
  {
  }

  lemma {:induction false} Regroup<T>(a: seq<T>, x: seq<T>, e: T, y: seq<T>, c: seq<T>)
    ensures (a + x) + [e] + (y + c) == a + (x + [e] + y) + c
  {
  }

  lemma {:induction false} UpdateMiddle<T>(a: seq<T>, b: seq<T>, c: seq<T>, p: nat, e: T)
    requires p < |b|
    ensures (a + b + c)[|a| + p] == b[p]
    ensures (a + b + c)[|a| + p := e] == a + b[p := e] + c
  {
  }

  lemma {:induction false} FirstAfter<T>(a: seq<T>, b: seq<T>, c: seq<T>)
    ensures c != [] ==> (a + b + c)[|a| + |b|] == c[0]
  {
  }

  lemma {:induction false} PutAt(es: seq<Entry>, k: int, v: nat, p: nat)
    requires p == Position(es, k)
    ensures p <= |es|
    ensures Put(es, k, v) ==
      if p < |es| && es[p].key == k then es[p := Entry(k, v)] else es[..p] + [Entry(k, v)] + es[p..]
  {
    hide Position;
  }

  lemma {:induction false} HeldAt(a: seq<Entry>, b: seq<Entry>, c: seq<Entry>, k: int, p: nat)
    requires p <= |b| && Above(c, k)
    ensures (|a| + p < |a + b + c| && (a + b + c)[|a| + p].key == k) <==> (p < |b| && b[p].key == k)
  {
    if p == |b| {
      FirstAfter(a, b, c);
    } else {
      UpdateMiddle(a, b, c, p, b[p]);
    }
  }

  /** Putting a key into the only segment that can hold it. */
  lemma {:induction false} PutMiddle(a: seq<Entry>, b: seq<Entry>, c: seq<Entry>, k: int, v: nat)
    requires Below(a, k) && Above(c, k)
    ensures Put(a + b + c, k, v) == a + Put(b, k, v) + c
  {
    hide *;
    var p := Position(b, k);
    PositionMiddle(a, b, c, k);
    PutAt(b, k, v, p);
    PutAt(a + b + c, k, v, |a| + p);
    HeldAt(a, b, c, k, p);
    if p < |b| {
      UpdateMiddle(a, b, c, p, Entry(k, v));
    }
    SliceMiddle(a, b, c, p);
    Regroup(a, b[..p], Entry(k, v), b[p..], c);
  }

  lemma {:induction false} PutCons(es: seq<Entry>, k: int, v: nat)
    requires es != [] && es[0].key < k
    ensures Put(es, k, v) == [es[0]] + Put(es[1..], k, v)
  {
    PutMiddle([es[0]], es[1..], [], k, v);
    assert [es[0]] + es[1..] + [] == es;
  }

  lemma {:induction false} ToMapPut(es: seq<Entry>, k: int, v: nat)
    requires Ascending(es)
    ensures ToMap(Put(es, k, v)) == ToMap(es)[k := v]
  {
    if es == [] {
    } else if k <= es[0].key {
      assert Position(es, k) == 0;
      if k == es[0].key {
        assert Put(es, k, v)[1..] == es[1..];
      } else {
        assert Put(es, k, v)[1..] == es;
      }
    } else {
      ToMapPut(es[1..], k, v);
      PutCons(es, k, v);
    }
  }

  lemma {:induction false} ToMapSize(es: seq<Entry>)
    requires Ascending(es)
    ensures |ToMap(es)| == |es|
  {
    if es != [] {
      ToMapSize(es[1..]);
      ToMapDomain(es[1..], es[0].key);
      assert ToMap(es).Keys == ToMap(es[1..]).Keys + {es[0].key};
    }
  }

  // ---------------------------------------------------------------- trees

  /** The entries of the leaves from left to right. */
  ghost function Flat(t: Tree): seq<Entry>
    decreases t
  {
    match t
    case Leaf(es) => es
    case Inner(_, cs) => FlatAll(cs)
  }

  ghost function FlatAll(cs: seq<Tree>): seq<Entry>
    decreases cs
  {
    if cs == [] then [] else Flat(cs[0]) + FlatAll(cs[1..])
  }

  ghost function Height(t: Tree): nat {
    match t
    case Leaf(_) => 0
    case Inner(_, cs) => if cs == [] then 1 else 1 + Height(cs[0])
  }

  ghost predicate StartsAt(t: Tree, k: int) {
    Flat(t) != [] && Flat(t)[0].key == k
  }

  /** The occupancy that only the root may miss. */
  predicate Full(t: Tree) {
    match t
    case Leaf(es) => 16 <= |es|
    case Inner(ks, _) => 15 <= |ks|
  }

  /** Sizes, equal leaf depth, occupancy below the root, and every separator the
      least key of the subtree to its right. */
  ghost predicate Shape(t: Tree) {
    match t
    case Leaf(es) => |es| <= MAX_KEYS
    case Inner(ks, cs) =>
      1 <= |ks| <= MAX_KEYS && Separated(ks, cs) && forall i :: 0 <= i < |cs| ==> Shape(cs[i])
  }

  ghost predicate Separated(ks: seq<int>, cs: seq<Tree>) {
    && |cs| == |ks| + 1
    && (forall i :: 0 <= i < |cs| ==> Full(cs[i]) && Height(cs[i]) == Height(cs[0]))
    && (forall i :: 0 <= i < |ks| ==> StartsAt(cs[i + 1], ks[i]))
  }

  /** What Shape asks of the keys and children of a node, for any number of them. */
  ghost predicate Children(ks: seq<int>, cs: seq<Tree>) {
    Separated(ks, cs) && forall i :: 0 <= i < |cs| ==> Shape(cs[i])
  }

  /** A tree that insertions can reach. */
  ghost predicate Good(t: Tree) {
    Shape(t) && Ascending(Flat(t))
  }

  /** Sizes in numbers: at most 31 keys in a node and one child more, at least 16 entries in
      a leaf and 15 keys in an inner node other than the root. */
  ghost predicate NodeSizes(t: Tree, root: bool) {
    match t
    case Leaf(es) => |es| <= 31 && (root || 16 <= |es|)
    case Inner(ks, cs) =>
      && (if root then 1 else 15) <= |ks| <= 31 && |cs| == |ks| + 1
      && forall i :: 0 <= i < |cs| ==> NodeSizes(cs[i], false)
  }

  lemma {:induction false} ShapeSizes(t: Tree, root: bool)
    requires Shape(t) && (root || Full(t))
    ensures NodeSizes(t, root)
  {
    if t.Inner? {
      forall i | 0 <= i < |t.cs| ensures NodeSizes(t.cs[i], false) {
        ShapeSizes(t.cs[i], false);
      }
    }
  }

  /** The first child whose right-hand separator lies above k. */
  function ChildIndex(ks: seq<int>, k: int): (c: nat)
    ensures c <= |ks|
    ensures forall i :: 0 <= i < c ==> ks[i] <= k
    ensures c < |ks| ==> k < ks[c]
  {
    if ks == [] || k < ks[0] then 0 else 1 + ChildIndex(ks[1..], k)
  }

  ghost function InsertLeaf(es: seq<Entry>, k: int, v: nat): Insertion {
    var all := Put(es, k, v);
    if |all| <= MAX_KEYS then Whole(Leaf(all), |es| < |all|)
    else Split(Leaf(all[..16]), all[16].key, Leaf(all[16..]), true)
  }

  /** What a node becomes when its keys and children are ks and cs, one of each
      possibly in excess: at 32 keys the middle key moves up. */
  ghost function Rebalance(ks: seq<int>, cs: seq<Tree>, added: bool): Insertion
    requires |cs| == |ks| + 1
  {
    if |ks| <= MAX_KEYS then Whole(Inner(ks, cs), added)
    else Split(Inner(ks[..16], cs[..17]), ks[16], Inner(ks[17..], cs[17..]), added)
  }

  /** A node divides exactly when it would hold 32 keys. */
  lemma {:induction false} SplitsAt32(es: seq<Entry>, k: int, v: nat, ks: seq<int>, cs: seq<Tree>, added: bool)
    requires |cs| == |ks| + 1
    ensures InsertLeaf(es, k, v).Split? <==> |Put(es, k, v)| >= 32
    ensures Rebalance(ks, cs, added).Split? <==> |ks| >= 32
  {
  }

  ghost function Trees(ins: Insertion): seq<Tree> {
    match ins
    case Whole(t, _) => [t]
    case Split(l, _, r, _) => [l, r]
  }

  /** The children after an insertion below child c. */
  ghost function Graft(cs: seq<Tree>, c: nat, ins: Insertion): seq<Tree>
    requires c < |cs|
  {
    cs[..c] + Trees(ins) + cs[c + 1..]
  }

  /** What a node becomes after the insertion below its child c. */
  ghost function InsertAbove(ks: seq<int>, cs: seq<Tree>, c: nat, ins: Insertion): Insertion
    requires |cs| == |ks| + 1 && c < |cs|
  {
    match ins
    case Whole(t, added) => Whole(Inner(ks, cs[c := t]), added)
    case Split(l, p, r, added) => Rebalance(Inserted(ks, c, p), Graft(cs, c, ins), added)
  }

  ghost function Insert(t: Tree, k: int, v: nat): Insertion
    requires Shape(t)
    decreases t
  {
    match t
    case Leaf(es) => InsertLeaf(es, k, v)
    case Inner(ks, cs) =>
      var c := ChildIndex(ks, k);
      InsertAbove(ks, cs, c, Insert(cs[c], k, v))
  }

  ghost function Find(t: Tree, k: int): Option<nat>
    requires Shape(t)
    decreases t
  {
    match t
    case Leaf(es) => Lookup(es, k)
    case Inner(ks, cs) => Find(cs[ChildIndex(ks, k)], k)
  }

  /** The root grows by one level when the old root was split. */
  ghost function Root(ins: Insertion): Tree {
    match ins
    case Whole(t, _) => t
    case Split(l, p, r, _) => Inner([p], [l, r])
  }

  ghost function FlatInsertion(ins: Insertion): seq<Entry> {
    match ins
    case Whole(t, _) => Flat(t)
    case Split(l, _, r, _) => Flat(l) + Flat(r)
  }

  // ---------------------------------------------------------------- lemmas on lists of children

  lemma {:induction false} Associate<T>(a: seq<T>, b: seq<T>, c: seq<T>)
    ensures a + (b + c) == a + b + c
  {
  }

  lemma {:induction false} FlatAllConcat(a: seq<Tree>, b: seq<Tree>)
    ensures FlatAll(a + b) == FlatAll(a) + FlatAll(b)
  {
    hide Flat;
    if a == [] {
      assert a + b == b;
    } else {
      FlatAllConcat(a[1..], b);
      assert (a + b)[0] == a[0] && (a + b)[1..] == a[1..] + b;
      Associate(Flat(a[0]), FlatAll(a[1..]), FlatAll(b));
    }
  }

  lemma {:induction false} FlatAllAt(cs: seq<Tree>, c: nat)
    requires c < |cs|
    ensures FlatAll(cs) == FlatAll(cs[..c]) + Flat(cs[c]) + FlatAll(cs[c + 1..])
  {
    assert cs == cs[..c] + cs[c..];
    FlatAllConcat(cs[..c], cs[c..]);
    assert cs[c..][1..] == cs[c + 1..];
  }

  lemma {:induction false} FlatAllReplace(a: seq<Tree>, mid: seq<Tree>, b: seq<Tree>)
    ensures FlatAll(a + mid + b) == FlatAll(a) + FlatAll(mid) + FlatAll(b)
  {
    FlatAllConcat(a + mid, b);
    FlatAllConcat(a, mid);
  }

  lemma {:induction false} FlatTwo(l: Tree, r: Tree)
    ensures FlatAll([l]) == Flat(l)
    ensures FlatAll([l, r]) == Flat(l) + Flat(r)
  {
    assert FlatAll([l]) == Flat(l) + FlatAll([]);
    assert [l, r][1..] == [r];
    assert FlatAll([r]) == Flat(r) + FlatAll([]);
  }

  lemma {:induction false} AscendingPart(a: seq<Entry>, b: seq<Entry>, d: seq<Entry>)
    requires Ascending(a + b + d)
    ensures Ascending(b)
    ensures b != [] ==> Below(a, b[0].key)
    ensures d != [] && b != [] ==> Above(d[1..], d[0].key)
  {
    var f := a + b + d;
    assert forall i :: 0 <= i < |a| ==> f[i] == a[i];
    assert forall i :: 0 <= i < |b| ==> f[|a| + i] == b[i];
    assert forall i :: 0 <= i < |d| ==> f[|a| + |b| + i] == d[i];
    if d != [] {
      forall i | 0 <= i < |d[1..]| ensures d[0].key < d[1..][i].key {
        assert f[|a| + |b|].key < f[|a| + |b| + (i + 1)].key;
      }
    }
  }

  lemma {:induction false} FirstOfChildren(cs: seq<Tree>)
    requires cs != [] && Flat(cs[0]) != []
    ensures FlatAll(cs) != [] && FlatAll(cs)[0] == Flat(cs[0])[0]
  {
  }

  /** Routing is right: only the chosen child can hold the key. */
  lemma {:induction false} Routing(ks: seq<int>, cs: seq<Tree>, k: int)
    requires Separated(ks, cs) && Ascending(FlatAll(cs))
    ensures var c := ChildIndex(ks, k);
      && FlatAll(cs) == FlatAll(cs[..c]) + Flat(cs[c]) + FlatAll(cs[c + 1..])
      && Below(FlatAll(cs[..c]), k) && Above(FlatAll(cs[c + 1..]), k) && Ascending(Flat(cs[c]))
      && (c > 0 ==> Flat(cs[c]) != [] && Flat(cs[c])[0].key <= k)
  {
    var c := ChildIndex(ks, k);
    FlatAllAt(cs, c);
    var a, b, d := FlatAll(cs[..c]), Flat(cs[c]), FlatAll(cs[c + 1..]);
    AscendingPart(a, b, d);
    if c > 0 {
      assert StartsAt(cs[c - 1 + 1], ks[c - 1]);
    }
    if c < |ks| {
      assert StartsAt(cs[c + 1], ks[c]);
      FirstOfChildren(cs[c + 1..]);
      assert d == [d[0]] + d[1..];
      AscendingPart(a + b, d, []);
      assert a + b + d + [] == a + b + d;
    }
  }

  // ---------------------------------------------------------------- the laws of insertion

  /** Splitting a node moves no entry. */
  lemma {:induction false} RebalanceFlat(ks: seq<int>, cs: seq<Tree>, added: bool)
    requires |cs| == |ks| + 1
    ensures FlatInsertion(Rebalance(ks, cs, added)) == FlatAll(cs)
  {
    if |ks| > MAX_KEYS {
      assert cs == cs[..17] + cs[17..];
      FlatAllConcat(cs[..17], cs[17..]);
    }
  }

  lemma {:induction false} GraftFlat(cs: seq<Tree>, c: nat, ins: Insertion)
    requires c < |cs|
    ensures FlatAll(Graft(cs, c, ins)) == FlatAll(cs[..c]) + FlatInsertion(ins) + FlatAll(cs[c + 1..])
  {
    match ins
    case Whole(t, _) =>
      FlatAllReplace(cs[..c], [t], cs[c + 1..]);
      FlatTwo(t, t);
    case Split(l, p, r, _) =>
      FlatAllReplace(cs[..c], [l, r], cs[c + 1..]);
      FlatTwo(l, r);
  }

  lemma {:induction false} InsertAboveFlat(ks: seq<int>, cs: seq<Tree>, c: nat, ins: Insertion)
    requires |cs| == |ks| + 1 && c < |cs|
    ensures FlatInsertion(InsertAbove(ks, cs, c, ins))
         == FlatAll(cs[..c]) + FlatInsertion(ins) + FlatAll(cs[c + 1..])
  {
    GraftFlat(cs, c, ins);
    match ins
    case Whole(t, added) =>
      assert cs[c := t] == Graft(cs, c, ins);
    case Split(l, p, r, added) =>
      RebalanceFlat(Inserted(ks, c, p), Graft(cs, c, ins), added);
  }

  /** An insertion changes the listing of the leaves exactly as an insertion into
      a sorted list does, through every kind of split. */
  lemma {:induction false} InsertFlat(t: Tree, k: int, v: nat)
    requires Good(t)
    ensures FlatInsertion(Insert(t, k, v)) == Put(Flat(t), k, v)
    decreases t
  {
    hide Ascending, Below, Above, InsertAbove;
    match t
    case Leaf(es) =>
    case Inner(ks, cs) =>
      var c := ChildIndex(ks, k);
      Routing(ks, cs, k);
      InsertFlat(cs[c], k, v);
      PutMiddle(FlatAll(cs[..c]), Flat(cs[c]), FlatAll(cs[c + 1..]), k, v);
      InsertAboveFlat(ks, cs, c, Insert(cs[c], k, v));
  }

  /** An insertion reports a new key exactly when a search would have missed it. */
  lemma {:induction false} InsertAdded(t: Tree, k: int, v: nat)
    requires Good(t)
    ensures Insert(t, k, v).added <==> Lookup(Flat(t), k).None?
    decreases t
  {
    hide Ascending, Below, Above, Position;
    match t
    case Leaf(es) =>
    case Inner(ks, cs) =>
      var c := ChildIndex(ks, k);
      Routing(ks, cs, k);
      PositionMiddle(FlatAll(cs[..c]), Flat(cs[c]), FlatAll(cs[c + 1..]), k);
      InsertAdded(cs[c], k, v);
  }

  /** Searching from the root finds what a search of the sorted listing finds. */
  lemma {:induction false} FindFlat(t: Tree, k: int)
    requires Good(t)
    ensures Find(t, k) == Lookup(Flat(t), k)
    decreases t
  {
    hide Ascending, Below, Above, Position;
    match t
    case Leaf(es) =>
    case Inner(ks, cs) =>
      var c := ChildIndex(ks, k);
      Routing(ks, cs, k);
      PositionMiddle(FlatAll(cs[..c]), Flat(cs[c]), FlatAll(cs[c + 1..]), k);
      FindFlat(cs[c], k);
  }

  lemma {:induction false} FullIsNonempty(t: Tree)
    requires Shape(t) && Full(t)
    ensures Flat(t) != []
    decreases t
  {
    match t
    case Leaf(es) =>
    case Inner(ks, cs) =>
      FullIsNonempty(cs[0]);
  }

  lemma {:induction false} PutFirst(es: seq<Entry>, k: int, v: nat)
    requires es != [] && es[0].key <= k
    ensures Put(es, k, v) != [] && Put(es, k, v)[0].key == es[0].key
  {
  }

  /** What an insertion leaves behind is well shaped at every level, and a split
      announces the least key of its right half. */
  ghost predicate WellSplit(t: Tree, ins: Insertion) {
    match ins
    case Whole(t', _) => Shape(t') && Height(t') == Height(t) && (Full(t) ==> Full(t'))
    case Split(l, p, r, added) =>
      && added
      && Shape(l) && Full(l) && Height(l) == Height(t)
      && Shape(r) && Full(r) && Height(r) == Height(t)
      && StartsAt(r, p)
  }

  lemma {:induction false} RebalanceShape(ks: seq<int>, cs: seq<Tree>, added: bool)
    requires Children(ks, cs) && 1 <= |ks| <= MAX_KEYS + 1
    requires |ks| == MAX_KEYS + 1 ==> added
    ensures WellSplit(Inner(ks, cs), Rebalance(ks, cs, added))
  {
    if |ks| > MAX_KEYS {
      assert StartsAt(cs[16 + 1], ks[16]);
      FirstOfChildren(cs[17..]);
    }
  }

  lemma {:induction false} GraftWhole(ks: seq<int>, cs: seq<Tree>, c: nat, t: Tree)
    requires Children(ks, cs) && c < |cs| && Shape(t) && Full(t) && Height(t) == Height(cs[0])
    requires c > 0 ==> StartsAt(t, ks[c - 1])
    ensures Children(ks, cs[c := t])
  {
    var cs' := cs[c := t];
    forall i | 0 <= i < |ks| ensures StartsAt(cs'[i + 1], ks[i]) {
      assert StartsAt(cs[i + 1], ks[i]);
    }
  }

  lemma {:induction false} SpliceAt<T>(s: seq<T>, c: nat, x: T, y: T, i: nat)
    requires c < |s| && i <= |s|
    ensures (s[..c] + [x, y] + s[c + 1..])[i]
         == if i < c then s[i] else if i == c then x else if i == c + 1 then y else s[i - 1]
  {
  }

  lemma {:induction false} GraftSplit(ks: seq<int>, cs: seq<Tree>, c: nat, l: Tree, p: int, r: Tree)
    requires Children(ks, cs) && c < |cs|
    requires Shape(l) && Full(l) && Height(l) == Height(cs[0])
    requires Shape(r) && Full(r) && Height(r) == Height(cs[0])
    requires StartsAt(r, p) && (c > 0 ==> StartsAt(l, ks[c - 1]))
    ensures Children(Inserted(ks, c, p), cs[..c] + [l, r] + cs[c + 1..])
  {
    var ks', cs' := Inserted(ks, c, p), cs[..c] + [l, r] + cs[c + 1..];
    hide Shape, Full, StartsAt, Height;
    forall i | 0 <= i < |cs'| ensures Shape(cs'[i]) && Full(cs'[i]) && Height(cs'[i]) == Height(cs[0]) {
      SpliceAt(cs, c, l, r, i);
    }
    forall i | 0 <= i < |ks'| ensures StartsAt(cs'[i + 1], ks'[i]) {
      SpliceAt(cs, c, l, r, i + 1);
      if i + 1 < c {
        assert StartsAt(cs[i + 1], ks[i]);
      } else if i > c {
        assert StartsAt(cs[i - 1 + 1], ks[i - 1]);
      }
    }
  }

  lemma {:induction false} InsertAboveShape(ks: seq<int>, cs: seq<Tree>, c: nat, ins: Insertion)
    requires Shape(Inner(ks, cs)) && c < |cs| && WellSplit(cs[c], ins)
    requires c > 0 ==> FlatInsertion(ins) != [] && FlatInsertion(ins)[0].key == ks[c - 1]
    ensures WellSplit(Inner(ks, cs), InsertAbove(ks, cs, c, ins))
  {
    match ins
    case Whole(t, added) =>
      GraftWhole(ks, cs, c, t);
    case Split(l, p, r, added) =>
      FullIsNonempty(l);
      GraftSplit(ks, cs, c, l, p, r);
      RebalanceShape(Inserted(ks, c, p), Graft(cs, c, ins), added);
  }

  /** Every insertion keeps the shape of the tree, and when it splits the root of
      a subtree both halves are well shaped and full enough. */
  lemma {:induction false} InsertShape(t: Tree, k: int, v: nat)
    requires Good(t)
    ensures WellSplit(t, Insert(t, k, v))
    decreases t
  {
    match t
    case Leaf(es) =>
    case Inner(ks, cs) =>
      var c := ChildIndex(ks, k);
      Routing(ks, cs, k);
      InsertShape(cs[c], k, v);
      InsertFlat(cs[c], k, v);
      if c > 0 {
        assert StartsAt(cs[c - 1 + 1], ks[c - 1]);
        PutFirst(Flat(cs[c]), k, v);
      }
      InsertAboveShape(ks, cs, c, Insert(cs[c], k, v));
  }

  /** One insertion into a whole tree, root growth included. */
  lemma {:induction false} InsertGood(t: Tree, k: int, v: nat)
    requires Good(t)
    ensures var t' := Root(Insert(t, k, v));
      Good(t') && Flat(t') == Put(Flat(t), k, v) && Height(t) <= Height(t') <= Height(t) + 1
  {
    InsertFlat(t, k, v);
    InsertShape(t, k, v);
    PutAscending(Flat(t), k, v);
    match Insert(t, k, v)
    case Whole(_, _) =>
    case Split(l, p, r, _) =>
      FlatTwo(l, r);
  }

  // ---------------------------------------------------------------- every run

  /** The tree after a run of insertions into an empty one. */
  ghost function Build(ops: seq<Entry>): (t: Tree)
    ensures Good(t)
    decreases |ops|
  {
    if ops == [] then Leaf([])
    else
      var t, e := Build(ops[..|ops| - 1]), ops[|ops| - 1];
      InsertGood(t, e.key, e.value);
      Root(Insert(t, e.key, e.value))
  }

  /** The reference: the map after the same run. */
  ghost function MapAfter(ops: seq<Entry>): map<int, nat>
    decreases |ops|
  {
    if ops == [] then map[]
    else MapAfter(ops[..|ops| - 1])[ops[|ops| - 1].key := ops[|ops| - 1].value]
  }

  lemma {:induction false} BuildIsMap(ops: seq<Entry>)
    ensures ToMap(Flat(Build(ops))) == MapAfter(ops)
    decreases |ops|
  {
    if ops != [] {
      var t, e := Build(ops[..|ops| - 1]), ops[|ops| - 1];
      BuildIsMap(ops[..|ops| - 1]);
      InsertGood(t, e.key, e.value);
      ToMapPut(Flat(t), e.key, e.value);
    }
  }

  /** After any run of insertions, searching the tree is applying the map, and the
      tree lists every key once. */
  lemma {:induction false} SearchAfterRun(ops: seq<Entry>, k: int)
    ensures Find(Build(ops), k) == if k in MapAfter(ops) then Some(MapAfter(ops)[k]) else None
    ensures |Flat(Build(ops))| == |MapAfter(ops)|
  {
    BuildIsMap(ops);
    FindFlat(Build(ops), k);
    LookupIsMap(Flat(Build(ops)), k);
    ToMapSize(Flat(Build(ops)));
  }

  // ---------------------------------------------------------------- height

  ghost function Power(b: nat, e: nat): nat {
    if e == 0 then 1 else b * Power(b, e - 1)
  }

  lemma {:induction false} OneMore(n: nat, m: nat)
    ensures (n + 1) * m == m + n * m
  {
  }

  lemma {:induction false} FlatAllSize(cs: seq<Tree>, least: nat, most: nat)
    requires forall i :: 0 <= i < |cs| ==> least <= |Flat(cs[i])| <= most
    ensures |cs| * least <= |FlatAll(cs)| <= |cs| * most
  {
    if cs != [] {
      assert forall i :: 0 <= i < |cs[1..]| ==> cs[1..][i] == cs[i + 1];
      FlatAllSize(cs[1..], least, most);
      OneMore(|cs[1..]|, least);
      OneMore(|cs[1..]|, most);
    }
  }

  lemma {:induction false} Product(a: nat, b: nat, m: nat)
    requires a <= b
    ensures a * m <= b * m
  {
  }

  /** A subtree that is not the root holds between 16 * 16^h and 31 * 32^h entries. */
  lemma {:induction false} SubtreeSize(t: Tree)
    requires Shape(t)
    ensures Full(t) ==> Power(16, Height(t) + 1) <= |Flat(t)|
    ensures |Flat(t)| <= 31 * Power(32, Height(t))
    decreases t
  {
    match t
    case Leaf(es) =>
      assert Power(16, 1) == 16 * Power(16, 0);
    case Inner(ks, cs) =>
      var h := Height(cs[0]);
      forall i | 0 <= i < |cs| ensures Power(16, h + 1) <= |Flat(cs[i])| <= 31 * Power(32, h) {
        SubtreeSize(cs[i]);
      }
      FlatAllSize(cs, Power(16, h + 1), 31 * Power(32, h));
      if Full(t) {
        Product(16, |cs|, Power(16, h + 1));
      }
      Product(|cs|, 32, 31 * Power(32, h));
      assert Power(32, h + 1) == 32 * Power(32, h);
  }

  /** Once the root has split, a tree of height h holds at least 2 * 16^h entries,
      so its height is at most log16(size / 2). */
  lemma {:induction false} HeightBound(t: Tree)
    requires Shape(t) && Height(t) >= 1
    ensures 2 * Power(16, Height(t)) <= |Flat(t)|
  {
    var cs := t.cs;
    var h := Height(cs[0]);
    forall i | 0 <= i < |cs| ensures Power(16, h + 1) <= |Flat(cs[i])| <= 31 * Power(32, h) {
      SubtreeSize(cs[i]);
    }
    FlatAllSize(cs, Power(16, h + 1), 31 * Power(32, h));
    Product(2, |cs|, Power(16, h + 1));
  }
}
