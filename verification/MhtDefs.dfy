/** mhtdefs.c: Merkle hash tree nodes, their construction and combination. */
module MhtDefs {
  import opened Bytes
  import opened Sha256Spec
  import Sha256Impl
  import opened Hashing
  import opened MerkleTree

  const NODELEVEL_LEAF: nat := 0
  const UNASSIGNED_INDEX: int := 0x7fff_ffff
  const DEF_UPPER_BOUND_INDEX: int := 0x7fff_ffff - 0x0fff_ffff

  /** The hash of every padding leaf (defs.c:3-6). */
  const ZERO_HASH: Digest := [
    0x5f, 0xec, 0xeb, 0x66, 0xff, 0xc8, 0x6f, 0x38, 0xd9, 0x52, 0x78, 0x6c, 0x6d, 0x69, 0x6c, 0x79,
    0xc2, 0xdb, 0xc2, 0x39, 0xdd, 0x4e, 0x91, 0xb4, 0x67, 0x29, 0xd7, 0x3a, 0x27, 0xfb, 0x57, 0xe9
  ]

  class MHTNode {
    var pageNo: int
    var hash: Digest
    var level: nat
    var isSupplement: bool
    var lchild: MHTNode?
    var rchild: MHTNode?

    /** makeMHTNode. */
    constructor (pageNo: int, level: nat, d: Digest)
      ensures this.pageNo == pageNo && this.level == level && hash == d
      ensures !isSupplement && lchild == null && rchild == null
    {
      this.pageNo := pageNo;
      this.level := level;
      hash := d;
      isSupplement := false;
      lchild := null;
      rchild := null;
    }
  }

  /** The nodes of a tree in the heap, arranged as the tree. */
  datatype Shape = Tip(node: MHTNode) | Fork(node: MHTNode, left: Shape, right: Shape)

  ghost function Nodes(s: Shape): set<MHTNode> {
    match s
    case Tip(n) => {n}
    case Fork(n, l, r) => {n} + Nodes(l) + Nodes(r)
  }

  ghost function Postorder(s: Shape): (p: seq<MHTNode>)
    ensures |p| > 0 && p[|p| - 1] == s.node
  {
    match s
    case Tip(n) => [n]
    case Fork(n, l, r) => Postorder(l) + Postorder(r) + [n]
  }

  /** The leaf nodes from left to right. */
  ghost function Tips(s: Shape): (p: seq<MHTNode>)
    ensures |p| > 0
  {
    match s
    case Tip(n) => [n]
    case Fork(_, l, r) => Tips(l) + Tips(r)
  }

  ghost predicate AllIn(p: seq<MHTNode>, all: set<MHTNode>) {
    forall i :: 0 <= i < |p| ==> p[i] in all
  }

  lemma {:induction false} PostorderInNodes(s: Shape)
    ensures AllIn(Postorder(s), Nodes(s))
  {
    if s.Fork? {
      PostorderInNodes(s.left);
      PostorderInNodes(s.right);
    }
  }

  lemma {:induction false} TipsInNodes(s: Shape)
    ensures AllIn(Tips(s), Nodes(s))
  {
    if s.Fork? {
      TipsInNodes(s.left);
      TipsInNodes(s.right);
    }
  }

  /** No node occurs twice: every node other than the root has one parent. */
  ghost predicate Separate(s: Shape) {
    match s
    case Tip(_) => true
    case Fork(n, l, r) => Separate(l) && Separate(r) && n !in Nodes(l) && n !in Nodes(r) && Nodes(l) !! Nodes(r)
  }

  /** The child pointers in the heap form the shape. */
  ghost predicate Linked(s: Shape)
    reads Nodes(s)`lchild, Nodes(s)`rchild
  {
    match s
    case Tip(n) => n.lchild == null && n.rchild == null
    case Fork(n, l, r) => n.lchild == l.node && n.rchild == r.node && Linked(l) && Linked(r)
  }

  /** The tree that the heap holds. */
  ghost function Value(s: Shape): Tree
    reads Nodes(s)`pageNo, Nodes(s)`level, Nodes(s)`hash
  {
    match s
    case Tip(n) => Leaf(n.pageNo, n.level, n.hash)
    case Fork(n, l, r) => Node(n.pageNo, n.level, n.hash, Value(l), Value(r))
  }

  /** A tree as the builder makes it. */
  ghost predicate Built(s: Shape)
    reads Nodes(s)`lchild, Nodes(s)`rchild, Nodes(s)`pageNo, Nodes(s)`level, Nodes(s)`hash
  {
    Linked(s) && Perfect(Value(s)) && Indexed(Value(s)) && Hashed(Value(s), BuildHash)
  }

  /** get_the_right_most_child. */
  method GetTheRightMostChild(node: MHTNode, ghost s: Shape) returns (r: MHTNode)
    requires s.node == node && Linked(s) && Perfect(Value(s))
    ensures r == Tips(s)[|Tips(s)| - 1] && r.level == NODELEVEL_LEAF && r.pageNo == LastIndex(Value(s))
  {
    r := node;
    ghost var cur := s;
    while r.level != NODELEVEL_LEAF
      invariant cur.node == r && Linked(cur) && Perfect(Value(cur))
      invariant LastIndex(Value(cur)) == LastIndex(Value(s)) && Tips(cur)[|Tips(cur)| - 1] == Tips(s)[|Tips(s)| - 1]
      decreases cur
    {
      r := r.rchild;
      cur := cur.right;
    }
  }

  /** strlen: the scan stays within a buffer that holds a zero byte. */
  method StrLen(buf: array<byte>) returns (n: nat)
    requires buf.Length > 0 && buf[buf.Length - 1] == 0
    ensures n < buf.Length
    ensures buf[..n] == CString(buf[..])
  {
    n := 0;
    while buf[n] != 0
      invariant n < buf.Length
      invariant buf[..n] + CString(buf[n..]) == CString(buf[..])
      decreases buf.Length - n
    {
      n := n + 1;
    }
  }

  lemma {:induction false} CStringStops(a: seq<byte>)
    ensures CString(a + [0]) == CString(a)
  {
    if a != [] {
      assert (a + [0])[1..] == a[1..] + [0];
      CStringStops(a[1..]);
    }
  }

  /** generateCombinedHash_SHA256. */
  method GenerateCombinedHash(hash1: Digest, hash2: Digest, buf: array<byte>)
    requires buf.Length >= 32
    modifies buf
    ensures buf[..32] == BuildHash(hash1, hash2)
  {
    hide Sha256, CString, Sha256Impl.SHA256_CTX.Absorbed;
    var tmp := new byte[65](_ => 0);
    forall i | 0 <= i < 32 {
      tmp[i] := hash1[i];
    }
    forall i | 0 <= i < 32 {
      tmp[32 + i] := hash2[i];
    }
    assert tmp[..] == hash1 + hash2 + [0];
    CStringStops(hash1 + hash2);
    var n := StrLen(tmp);
    var ctx := new Sha256Impl.SHA256_CTX();
    ctx.Init();
    ctx.Update(tmp[..n], []);
    assert [] + tmp[..n] == CString(hash1 + hash2);
    ctx.Final(buf, CString(hash1 + hash2));
  }

  lemma ForkIsBuilt(n: MHTNode, l: Shape, r: Shape)
    requires Built(l) && Built(r) && l.node.level == r.node.level
    requires n.lchild == l.node && n.rchild == r.node && n.level == l.node.level + 1
    requires n.pageNo == LastIndex(Value(l)) && n.hash == BuildHash(l.node.hash, r.node.hash)
    ensures Built(Fork(n, l, r))
  {
    hide BuildHash;
  }

  lemma LeafIndex(s: Shape)
    requires Perfect(Value(s)) && s.node.level == NODELEVEL_LEAF
    ensures s.node.pageNo == LastIndex(Value(s))
  {
  }

  /** combineNodes. */
  method CombineNodes(lchild: MHTNode, rchild: MHTNode, ghost l: Shape, ghost r: Shape)
    returns (n: MHTNode, ghost s: Shape)
    requires l.node == lchild && r.node == rchild
    requires Built(l) && Built(r)
    requires Separate(l) && Separate(r) && Nodes(l) !! Nodes(r)
    requires lchild.level == rchild.level
    ensures fresh(n) && s == Fork(n, l, r)
    ensures Separate(s) && Built(s)
    ensures n.level == lchild.level + 1 && !n.isSupplement
  {
    hide BuildHash, Perfect, Indexed, Hashed, Linked, Value, Nodes;
    var buf := new byte[32];
    assert allocated(Nodes(l)) && allocated(Nodes(r));
    GenerateCombinedHash(lchild.hash, rchild.hash, buf);
    if lchild.level == NODELEVEL_LEAF {
      LeafIndex(l);
      n := new MHTNode(lchild.pageNo, lchild.level + 1, buf[..32]);
    } else {
      var last := GetTheRightMostChild(lchild, l);
      n := new MHTNode(last.pageNo, lchild.level + 1, buf[..32]);
    }
    n.isSupplement := false;
    n.lchild := lchild;
    n.rchild := rchild;
    s := Fork(n, l, r);
    ForkIsBuilt(n, l, r);
  }

  /** makeZeroMHTNode. */
  method MakeZeroMHTNode(pageNo: int) returns (n: MHTNode)
    ensures fresh(n) && Built(Tip(n))
    ensures n.pageNo == pageNo && n.level == NODELEVEL_LEAF && n.hash == ZERO_HASH && n.isSupplement
  {
    n := new MHTNode(pageNo, NODELEVEL_LEAF, ZERO_HASH);
    n.isSupplement := true;
  }
}
