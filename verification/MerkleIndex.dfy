/** A Merkle tree as an index: search by leaf index, update of a leaf with
    rehashing of its path, and the finite map that both implement. */
module MerkleIndex {
  import opened Bytes
  import opened Powers
  import opened MerkleTree

  datatype Option<+T> = None | Some(value: T)

  // ----- Search -----

  /** How the compared values are read: as they are, or converted to another integer type. */
  type Order = int -> int

  /** The leaf that the descent for key k reaches. */
  function Find(t: Tree, k: int, ord: Order): (leaf: Tree)
    ensures leaf.Leaf?
  {
    match t
    case Leaf(_, _, _) => t
    case Node(index, _, _, l, r) => if k <= ord(index) then Find(l, k, ord) else Find(r, k, ord)
  }

  function Lookup(t: Tree, k: int, ord: Order): Option<Digest> {
    var leaf := Find(t, k, ord);
    if ord(leaf.index) == k then Some(leaf.hash) else None
  }

  /** The position among the leaves that the descent reaches. */
  function Position(t: Tree, k: int, ord: Order): (p: nat)
    ensures p < |Leaves(t)|
    ensures Leaves(t)[p] == Record(Find(t, k, ord).index, Find(t, k, ord).hash)
  {
    match t
    case Leaf(_, _, _) => 0
    case Node(index, _, _, l, r) => if k <= ord(index) then Position(l, k, ord) else |Leaves(l)| + Position(r, k, ord)
  }

  predicate Ascending(ls: seq<Record>, ord: Order) {
    forall i, j :: 0 <= i < j < |ls| ==> ord(ls[i].index) < ord(ls[j].index)
  }

  /** In an ordered tree the separator of a node is the maximum of its left subtree and below its right subtree. */
  lemma SeparatorBounds(t: Tree, ord: Order)
    requires t.Node? && Indexed(t) && Ascending(Leaves(t), ord)
    ensures Ascending(Leaves(t.left), ord) && Ascending(Leaves(t.right), ord)
    ensures forall i :: 0 <= i < |Leaves(t.left)| ==> ord(Leaves(t.left)[i].index) <= ord(t.index)
    ensures exists i :: 0 <= i < |Leaves(t.left)| && Leaves(t.left)[i].index == t.index
    ensures forall i :: 0 <= i < |Leaves(t.right)| ==> ord(t.index) < ord(Leaves(t.right)[i].index)
  {
    var a, b, all := Leaves(t.left), Leaves(t.right), Leaves(t);
    LastIndexIsLastLeaf(t.left);
    LeavesOfNode(t);
    hide Leaves;
    assert forall i :: 0 <= i < |a| ==> all[i] == a[i];
    assert forall i :: 0 <= i < |b| ==> all[|a| + i] == b[i];
    assert a[|a| - 1].index == t.index;
  }

  /** The search finds every leaf of an ordered tree. */
  lemma {:induction false} FindsEveryLeaf(t: Tree, j: nat, ord: Order)
    requires Indexed(t) && Ascending(Leaves(t), ord) && j < |Leaves(t)|
    ensures Position(t, ord(Leaves(t)[j].index), ord) == j
  {
    if t.Node? {
      SeparatorBounds(t, ord);
      var m := |Leaves(t.left)|;
      if j < m {
        FindsEveryLeaf(t.left, j, ord);
      } else {
        assert Leaves(t)[j] == Leaves(t.right)[j - m];
        FindsEveryLeaf(t.right, j - m, ord);
      }
    }
  }

  /** The descent for the index of leaf j ends at leaf j. */
  predicate Reaches(t: Tree, j: nat, ord: Order)
    requires j < |Leaves(t)|
  {
    Position(t, ord(Leaves(t)[j].index), ord) == j
  }

  lemma ReachesInNode(t: Tree, j: nat, ord: Order)
    requires t.Node? && j < |Leaves(t)|
    ensures Reaches(t, j, ord) <==>
      var k, m := ord(Leaves(t)[j].index), |Leaves(t.left)|;
      if j < m then k <= ord(t.index) && Reaches(t.left, j, ord)
      else k > ord(t.index) && Reaches(t.right, j - m, ord)
  {
    assert Leaves(t)[j] == if j < |Leaves(t.left)| then Leaves(t.left)[j] else Leaves(t.right)[j - |Leaves(t.left)|];
  }

  /** The search finds every leaf if and only if the tree is ordered. */
  lemma {:induction false} FindsAllExactly(t: Tree, ord: Order)
    requires Indexed(t)
    ensures (forall j :: 0 <= j < |Leaves(t)| ==> Reaches(t, j, ord)) <==> Ascending(Leaves(t), ord)
  {
    if Ascending(Leaves(t), ord) {
      forall j | 0 <= j < |Leaves(t)|
        ensures Reaches(t, j, ord)
      {
        FindsEveryLeaf(t, j, ord);
      }
    } else if t.Node? && forall j :: 0 <= j < |Leaves(t)| ==> Reaches(t, j, ord) {
      FindsAllExactly(t.left, ord);
      FindsAllExactly(t.right, ord);
      PartsAreAscending(t, ord);
    }
  }

  lemma PartsAreAscending(t: Tree, ord: Order)
    requires t.Node? && forall j :: 0 <= j < |Leaves(t)| ==> Reaches(t, j, ord)
    ensures forall j :: 0 <= j < |Leaves(t.left)| ==> Reaches(t.left, j, ord)
    ensures forall j :: 0 <= j < |Leaves(t.right)| ==> Reaches(t.right, j, ord)
    ensures Ascending(Leaves(t.left), ord) && Ascending(Leaves(t.right), ord) ==> Ascending(Leaves(t), ord)
  {
    hide Reaches, Leaves, Ascending;
    LeavesOfNode(t);
    var a, b := Leaves(t.left), Leaves(t.right);
    forall j | 0 <= j < |a|
      ensures Reaches(t.left, j, ord) && ord(a[j].index) <= ord(t.index)
    {
      ReachesInNode(t, j, ord);
    }
    forall j | 0 <= j < |b|
      ensures Reaches(t.right, j, ord) && ord(t.index) < ord(b[j].index)
    {
      assert Reaches(t, |a| + j, ord);
      ReachesInNode(t, |a| + j, ord);
    }
    if Ascending(a, ord) && Ascending(b, ord) {
      AscendingSum(a, b, ord(t.index), ord);
    }
  }

  lemma LeavesOfNode(t: Tree)
    requires t.Node?
    ensures Leaves(t) == Leaves(t.left) + Leaves(t.right)
    ensures forall j :: 0 <= j < |Leaves(t)| ==>
      Leaves(t)[j] == if j < |Leaves(t.left)| then Leaves(t.left)[j] else Leaves(t.right)[j - |Leaves(t.left)|]
  {
    assert Leaves(t) == Leaves(t.left) + Leaves(t.right);
    hide Leaves;
  }

  lemma AscendingSum(a: seq<Record>, b: seq<Record>, m: int, ord: Order)
    requires Ascending(a, ord) && Ascending(b, ord)
    requires forall j :: 0 <= j < |a| ==> ord(a[j].index) <= m
    requires forall j :: 0 <= j < |b| ==> m < ord(b[j].index)
    ensures Ascending(a + b, ord)
  {
    var ls := a + b;
    forall i, j | 0 <= i < j < |ls|
      ensures ord(ls[i].index) < ord(ls[j].index)
    {
      assert ls[i] == if i < |a| then a[i] else b[i - |a|];
      assert ls[j] == if j < |a| then a[j] else b[j - |a|];
    }
  }

  /** Search in an ordered tree is lookup among its leaves: it succeeds exactly on the indices of leaves. */
  lemma SearchIsLookup(t: Tree, k: int, ord: Order)
    requires Indexed(t) && Ascending(Leaves(t), ord)
    ensures Lookup(t, k, ord).Some? <==> exists j :: 0 <= j < |Leaves(t)| && ord(Leaves(t)[j].index) == k
    ensures forall j :: 0 <= j < |Leaves(t)| && ord(Leaves(t)[j].index) == k ==>
      Lookup(t, k, ord) == Some(Leaves(t)[j].hash)
  {
    var p := Position(t, k, ord);
    assert Leaves(t)[p].index == Find(t, k, ord).index;
    forall j | 0 <= j < |Leaves(t)| && ord(Leaves(t)[j].index) == k
      ensures p == j
    {
      FindsEveryLeaf(t, j, ord);
    }
  }

  // ----- Update -----

  /** The leaf on the path of k gets hash x, and the nodes above it are rehashed. */
  function Put(t: Tree, k: int, x: Digest, ord: Order, h: Combiner): (u: Tree)
    ensures u.index == t.index && u.level == t.level
  {
    match t
    case Leaf(index, level, _) => Leaf(index, level, x)
    case Node(index, level, _, l, r) =>
      if k <= ord(index) then
        var l' := Put(l, k, x, ord, h);
        Node(index, level, h(l'.hash, r.hash), l', r)
      else
        var r' := Put(r, k, x, ord, h);
        Node(index, level, h(l.hash, r'.hash), l, r')
  }

  function Update(t: Tree, k: int, x: Digest, ord: Order, h: Combiner): Tree {
    if ord(Find(t, k, ord).index) == k then Put(t, k, x, ord, h) else t
  }

  /** An update changes the hash of one leaf. */
  lemma {:induction false} PutLeaves(t: Tree, k: int, x: Digest, ord: Order, h: Combiner)
    ensures var p := Position(t, k, ord);
      Leaves(Put(t, k, x, ord, h)) == Leaves(t)[p := Record(Leaves(t)[p].index, x)]
  {
    if t.Node? {
      if k <= ord(t.index) {
        PutLeaves(t.left, k, x, ord, h);
      } else {
        PutLeaves(t.right, k, x, ord, h);
      }
    }
  }

  /** An update changes no level and no index, so every search goes where it went before. */
  lemma {:induction false} PutKeepsSearch(t: Tree, k: int, x: Digest, ord: Order, h: Combiner, k': int, ord': Order)
    ensures Perfect(t) ==> Perfect(Put(t, k, x, ord, h))
    ensures LastIndex(Put(t, k, x, ord, h)) == LastIndex(t)
    ensures Indexed(t) ==> Indexed(Put(t, k, x, ord, h))
    ensures Position(Put(t, k, x, ord, h), k', ord') == Position(t, k', ord')
  {
    PutLeaves(t, k, x, ord, h);
    if t.Node? {
      PutKeepsSearch(t.left, k, x, ord, h, k', ord');
      PutKeepsSearch(t.right, k, x, ord, h, k', ord');
      PutLeaves(t.left, k, x, ord, h);
    }
  }

  /** A tree whose hashes are consistent stays consistent. */
  lemma {:induction false} PutKeepsHashed(t: Tree, k: int, x: Digest, ord: Order, h: Combiner)
    requires Hashed(t, h)
    ensures Hashed(Put(t, k, x, ord, h), h)
  {
    if t.Node? {
      PutKeepsHashed(t.left, k, x, ord, h);
      PutKeepsHashed(t.right, k, x, ord, h);
    }
  }

  /** Every internal node on the path of k stores the combination of its children's hashes. */
  predicate PathHashed(t: Tree, k: int, ord: Order, h: Combiner) {
    match t
    case Leaf(_, _, _) => true
    case Node(index, _, hash, l, r) =>
      hash == h(l.hash, r.hash) && if k <= ord(index) then PathHashed(l, k, ord, h) else PathHashed(r, k, ord, h)
  }

  /** t and u differ at most in the hashes on the path of k. */
  predicate SameOffPath(t: Tree, u: Tree, k: int, ord: Order) {
    match t
    case Leaf(index, level, _) => u.Leaf? && u.index == index && u.level == level
    case Node(index, level, _, l, r) =>
      && u.Node? && u.index == index && u.level == level
      && if k <= ord(index) then u.right == r && SameOffPath(l, u.left, k, ord)
         else u.left == l && SameOffPath(r, u.right, k, ord)
  }

  /** Put is the only tree that differs from t on the path alone, has x at the leaf and is consistent on the path. */
  lemma {:induction false} PutIsDetermined(t: Tree, u: Tree, k: int, x: Digest, ord: Order, h: Combiner)
    ensures u == Put(t, k, x, ord, h) <==>
      SameOffPath(t, u, k, ord) && PathHashed(u, k, ord, h) && Find(u, k, ord).hash == x
  {
    if t.Node? && u.Node? {
      PutIsDetermined(t.left, u.left, k, x, ord, h);
      PutIsDetermined(t.right, u.right, k, x, ord, h);
    }
  }

  // ----- Agreement with a rebuild -----

  /** On the path of k in t the two combinations give the same digests. */
  predicate AgreeOnPath(t: Tree, k: int, ord: Order, h: Combiner, g: Combiner) {
    match t
    case Leaf(_, _, _) => true
    case Node(index, _, _, l, r) =>
      h(l.hash, r.hash) == g(l.hash, r.hash)
      && if k <= ord(index) then AgreeOnPath(l, k, ord, h, g) else AgreeOnPath(r, k, ord, h, g)
  }

  /** The tree with leaf hash x and its path combined by h. */
  lemma {:induction false} PutAgrees(t: Tree, k: int, x: Digest, ord: Order, h: Combiner, g: Combiner)
    ensures Put(t, k, x, ord, g) == Put(t, k, x, ord, h) <==> AgreeOnPath(Put(t, k, x, ord, h), k, ord, h, g)
  {
    if t.Node? {
      if k <= ord(t.index) {
        PutAgrees(t.left, k, x, ord, h, g);
      } else {
        PutAgrees(t.right, k, x, ord, h, g);
      }
    }
  }

  /** Putting x at leaf j with the combination of the build gives the tree built from the changed leaves. */
  lemma PutIsRebuild(ls: seq<Record>, d: nat, j: nat, x: Digest, ord: Order, h: Combiner)
    requires |ls| == Pow2(d) && j < |ls| && Position(Halving(ls, d, h), ord(ls[j].index), ord) == j
    ensures Put(Halving(ls, d, h), ord(ls[j].index), x, ord, h) == Halving(ls[j := Record(ls[j].index, x)], d, h)
  {
    var t, k := Halving(ls, d, h), ord(ls[j].index);
    HalvingProperties(ls, d, h);
    PutLeaves(t, k, x, ord, h);
    PutKeepsSearch(t, k, x, ord, h, k, ord);
    PutKeepsHashed(t, k, x, ord, h);
    TreeIsHalving(Put(t, k, x, ord, h), h);
  }

  /** When the search finds leaf j, an update by combination g on a tree built with combination h agrees
      with rebuilding from the changed leaves exactly when the two combinations agree on the path in the
      rebuilt tree. */
  lemma UpdateIsRebuild(ls: seq<Record>, d: nat, j: nat, x: Digest, ord: Order, h: Combiner, g: Combiner)
    requires |ls| == Pow2(d) && j < |ls| && Position(Halving(ls, d, h), ord(ls[j].index), ord) == j
    ensures var k := ord(ls[j].index); var rebuilt := Halving(ls[j := Record(ls[j].index, x)], d, h);
      Update(Halving(ls, d, h), k, x, ord, g) == rebuilt <==> AgreeOnPath(rebuilt, k, ord, h, g)
  {
    var t, k := Halving(ls, d, h), ord(ls[j].index);
    HalvingProperties(ls, d, h);
    PutIsRebuild(ls, d, j, x, ord, h);
    PutAgrees(t, k, x, ord, h, g);
  }
}
