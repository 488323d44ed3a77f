/** Merkle trees as values: what a tree of MHT nodes holds, without pointers.
    Halving is the reference definition of the tree that the builder must
    produce; it is recursive and knows nothing of queues. */
module MerkleTree {
  import opened Bytes
  import opened Powers

  datatype Record = Record(index: int, hash: Digest)

  datatype Tree =
    | Leaf(index: int, level: nat, hash: Digest)
    | Node(index: int, level: nat, hash: Digest, left: Tree, right: Tree)

  // ----- Properties of trees -----

  /** Every level is one more than the levels of both children, and leaves are at level 0. */
  predicate Perfect(t: Tree) {
    match t
    case Leaf(_, level, _) => level == 0
    case Node(_, level, _, l, r) => Perfect(l) && Perfect(r) && level == l.level + 1 == r.level + 1
  }

  function LastIndex(t: Tree): int {
    match t
    case Leaf(index, _, _) => index
    case Node(_, _, _, _, r) => LastIndex(r)
  }

  /** Every internal node stores the index of the rightmost leaf of its left subtree. */
  predicate Indexed(t: Tree) {
    match t
    case Leaf(_, _, _) => true
    case Node(index, _, _, l, r) => Indexed(l) && Indexed(r) && index == LastIndex(l)
  }

  /** Every internal node stores the combination, by h, of its children's hashes. */
  predicate Hashed(t: Tree, h: Combiner) {
    match t
    case Leaf(_, _, _) => true
    case Node(_, _, hash, l, r) => Hashed(l, h) && Hashed(r, h) && hash == h(l.hash, r.hash)
  }

  function Leaves(t: Tree): (ls: seq<Record>)
    ensures |ls| > 0
  {
    match t
    case Leaf(index, _, hash) => [Record(index, hash)]
    case Node(_, _, _, l, r) => Leaves(l) + Leaves(r)
  }

  // ----- The reference definition -----

  type Combiner = (Digest, Digest) -> Digest

  /** The tree over 2^k leaves by recursive halving; h combines the hashes of two children. */
  function Halving(ls: seq<Record>, k: nat, h: Combiner): (t: Tree)
    requires |ls| == Pow2(k)
  {
    if k == 0 then
      Leaf(ls[0].index, 0, ls[0].hash)
    else
      var m := Pow2(k - 1);
      var l, r := Halving(ls[..m], k - 1, h), Halving(ls[m..], k - 1, h);
      Node(ls[m - 1].index, k, h(l.hash, r.hash), l, r)
  }

  lemma {:induction false} LastIndexIsLastLeaf(t: Tree)
    ensures LastIndex(t) == Leaves(t)[|Leaves(t)| - 1].index
  {
    if t.Node? {
      LastIndexIsLastLeaf(t.right);
    }
  }

  lemma {:induction false} PerfectSize(t: Tree)
    requires Perfect(t)
    ensures |Leaves(t)| == Pow2(t.level)
  {
    if t.Node? {
      PerfectSize(t.left);
      PerfectSize(t.right);
    }
  }

  lemma HalvingOfTwo(a: seq<Record>, b: seq<Record>, k: nat, h: Combiner)
    requires |a| == |b| == Pow2(k)
    ensures |a + b| == Pow2(k + 1)
    ensures var l, r := Halving(a, k, h), Halving(b, k, h);
      Halving(a + b, k + 1, h) == Node(a[|a| - 1].index, k + 1, h(l.hash, r.hash), l, r)
  {
    assert (a + b)[..Pow2(k)] == a && (a + b)[Pow2(k)..] == b;
  }

  /** A tree with the three properties is determined by its leaves. */
  lemma {:induction false} TreeIsHalving(t: Tree, h: Combiner)
    requires Perfect(t) && Indexed(t) && Hashed(t, h)
    ensures |Leaves(t)| == Pow2(t.level)
    ensures t == Halving(Leaves(t), t.level, h)
  {
    if t.Node? {
      assert t.left.level == t.right.level;
      TreeIsHalving(t.left, h);
      TreeIsHalving(t.right, h);
      LastIndexIsLastLeaf(t.left);
      HalvingOfTwo(Leaves(t.left), Leaves(t.right), t.left.level, h);
    }
  }

  lemma OneRecord(ls: seq<Record>, h: Combiner)
    requires |ls| == Pow2(0)
    ensures var t := Halving(ls, 0, h);
      Perfect(t) && Indexed(t) && Hashed(t, h) && Leaves(t) == ls && t.level == 0
  {
  }

  lemma NodeProperties(l: Tree, r: Tree, h: Combiner)
    requires Perfect(l) && Indexed(l) && Hashed(l, h) && Perfect(r) && Indexed(r) && Hashed(r, h) && l.level == r.level
    ensures var t := Node(LastIndex(l), l.level + 1, h(l.hash, r.hash), l, r);
      Perfect(t) && Indexed(t) && Hashed(t, h) && Leaves(t) == Leaves(l) + Leaves(r)
  {
  }

  lemma JoinedProperties(a: seq<Record>, b: seq<Record>, k: nat, h: Combiner)
    requires |a| == |b| == Pow2(k)
    requires var l := Halving(a, k, h); Perfect(l) && Indexed(l) && Hashed(l, h) && Leaves(l) == a && l.level == k
    requires var r := Halving(b, k, h); Perfect(r) && Indexed(r) && Hashed(r, h) && Leaves(r) == b && r.level == k
    ensures |a + b| == Pow2(k + 1)
    ensures var t := Halving(a + b, k + 1, h);
      Perfect(t) && Indexed(t) && Hashed(t, h) && Leaves(t) == a + b && t.level == k + 1
  {
    hide *;
    var l, r := Halving(a, k, h), Halving(b, k, h);
    LastIndexIsLastLeaf(l);
    NodeProperties(l, r, h);
    HalvingOfTwo(a, b, k, h);
  }

  /** The reference tree has the three properties, its leaves are the given ones in order, and its root
      is at level k. */
  lemma {:induction false} HalvingProperties(ls: seq<Record>, k: nat, h: Combiner)
    requires |ls| == Pow2(k)
    ensures var t := Halving(ls, k, h);
      Perfect(t) && Indexed(t) && Hashed(t, h) && Leaves(t) == ls && t.level == k
  {
    hide *;
    if k == 0 {
      OneRecord(ls, h);
    } else {
      Pow2Step(k);
      var m := Pow2(k - 1);
      var a, b := ls[..m], ls[m..];
      assert ls == a + b;
      HalvingProperties(a, k - 1, h);
      HalvingProperties(b, k - 1, h);
      JoinedProperties(a, b, k - 1, h);
    }
  }
}
