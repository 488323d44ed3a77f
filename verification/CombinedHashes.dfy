/** What follows from the two ways of combining hashes: where an update agrees with a rebuild, and
    what the root says about the leaves.  Nothing is assumed of SHA-256; where two different strings
    with one digest would be needed, they are exhibited. */
module CombinedHashes {
  import opened Bytes
  import opened Sha256Spec
  import opened Hashing
  import opened MerkleTree
  import opened MerkleIndex

  ghost predicate Collision(a: seq<byte>, b: seq<byte>) {
    a != b && Sha256(a) == Sha256(b)
  }

  /** The build hashes the longest zero-free prefix of the 64 bytes, so the two hashed strings are equal
      exactly when there is no zero byte among the 64. */
  lemma CombinedInputs(l: Digest, r: Digest)
    ensures CString(l + r) == l + r <==> ZeroFree(l) && ZeroFree(r)
  {
    CStringIsLongestZeroFreePrefix(l + r);
    assert forall i :: 0 <= i < |l| ==> (l + r)[i] == l[i];
    assert forall i :: 0 <= i < |r| ==> (l + r)[|l| + i] == r[i];
  }

  lemma ZeroFreeAgree(l: Digest, r: Digest)
    requires ZeroFree(l) && ZeroFree(r)
    ensures BuildHash(l, r) == FullHash(l, r)
  {
    hide Sha256;
    CombinedInputs(l, r);
  }

  /** Equal digests of the string that a build hashes and of the 64 bytes of another pair: the pairs are
      equal and free of zero bytes, or the two strings collide. */
  lemma BuildMeetsFull(l: Digest, r: Digest, l': Digest, r': Digest)
    requires BuildHash(l, r) == FullHash(l', r')
    ensures (l == l' && r == r' && ZeroFree(l) && ZeroFree(r)) || Collision(CString(l + r), l' + r')
  {
    hide Sha256;
    CStringIsLongestZeroFreePrefix(l + r);
    CombinedInputs(l, r);
    if CString(l + r) == l' + r' {
      assert |CString(l + r)| == |l + r|;
      SameHalves(l, r, l', r');
    }
  }

  lemma FullMeetsFull(l: Digest, r: Digest, l': Digest, r': Digest)
    requires FullHash(l, r) == FullHash(l', r')
    ensures (l == l' && r == r') || Collision(l + r, l' + r')
  {
    hide Sha256;
    if l + r == l' + r' {
      SameHalves(l, r, l', r');
    }
  }

  lemma SameHalves(l: Digest, r: Digest, l': Digest, r': Digest)
    requires l + r == l' + r'
    ensures l == l' && r == r'
  {
    assert l == (l + r)[..32] && r == (l + r)[32..];
    assert l' == (l' + r')[..32] && r' == (l' + r')[32..];
  }

  // ----- Trees without zero bytes -----

  /** No node below the root of t has a hash with a zero byte. */
  predicate ZeroFreeChildren(t: Tree) {
    match t
    case Leaf(_, _, _) => true
    case Node(_, _, _, l, r) => ZeroFree(l.hash) && ZeroFree(r.hash) && ZeroFreeChildren(l) && ZeroFreeChildren(r)
  }

  /** Without zero bytes a built tree is consistent for the combination that updates use. */
  lemma {:induction false} ZeroFreeTreeIsConsistent(t: Tree)
    requires Hashed(t, BuildHash) && ZeroFreeChildren(t)
    ensures Hashed(t, FullHash)
  {
    hide BuildHash, FullHash;
    if t.Node? {
      ZeroFreeAgree(t.left.hash, t.right.hash);
      ZeroFreeTreeIsConsistent(t.left);
      ZeroFreeTreeIsConsistent(t.right);
    }
  }

  // ----- Update against rebuild -----

  /** No child of a node on the path of k has a hash with a zero byte. */
  predicate ZeroFreeOnPath(t: Tree, k: int, ord: Order) {
    match t
    case Leaf(_, _, _) => true
    case Node(index, _, _, l, r) =>
      ZeroFree(l.hash) && ZeroFree(r.hash)
      && if k <= ord(index) then ZeroFreeOnPath(l, k, ord) else ZeroFreeOnPath(r, k, ord)
  }

  /** The digest that an update of leaf k to x carries up to the root of t: x, combined at each level
      with the sibling on the path. */
  function Chain(t: Tree, k: int, x: Digest, ord: Order): Digest {
    match t
    case Leaf(_, _, _) => x
    case Node(index, _, _, l, r) =>
      if k <= ord(index) then FullHash(Chain(l, k, x, ord), r.hash) else FullHash(l.hash, Chain(r, k, x, ord))
  }

  /** Before the call: neither the siblings on the path of k nor the digests that the update carries up
      past them have a zero byte. */
  predicate ZeroFreeChain(t: Tree, k: int, x: Digest, ord: Order) {
    match t
    case Leaf(_, _, _) => true
    case Node(index, _, _, l, r) =>
      if k <= ord(index) then
        ZeroFree(Chain(l, k, x, ord)) && ZeroFree(r.hash) && ZeroFreeChain(l, k, x, ord)
      else
        ZeroFree(l.hash) && ZeroFree(Chain(r, k, x, ord)) && ZeroFreeChain(r, k, x, ord)
  }

  /** At some node on the path of k the 64 bytes that the update hashes in u and the string that the
      build hashes in r are different strings with one digest. */
  ghost predicate CollisionOnPath(u: Tree, r: Tree, k: int, ord: Order) {
    u.Node? && r.Node?
    && (Collision(CString(r.left.hash + r.right.hash), u.left.hash + u.right.hash)
        || if k <= ord(u.index) then CollisionOnPath(u.left, r.left, k, ord)
           else CollisionOnPath(u.right, r.right, k, ord))
  }

  lemma {:induction false} ChainIsRootHash(t: Tree, k: int, x: Digest, ord: Order)
    ensures Put(t, k, x, ord, FullHash).hash == Chain(t, k, x, ord)
  {
    hide FullHash;
    if t.Node? {
      ChainIsRootHash(t.left, k, x, ord);
      ChainIsRootHash(t.right, k, x, ord);
    }
  }

  /** The update and the rebuild give one tree when the chain has no zero byte; otherwise even their
      roots differ, or a collision lies on the path. */
  lemma {:induction false} PutAgainstRebuild(t: Tree, k: int, x: Digest, ord: Order)
    ensures var u, r := Put(t, k, x, ord, FullHash), Put(t, k, x, ord, BuildHash);
      && (ZeroFreeChain(t, k, x, ord) ==> u == r)
      && (u.hash == r.hash ==> ZeroFreeChain(t, k, x, ord) || CollisionOnPath(u, r, k, ord))
      && (ZeroFreeOnPath(r, k, ord) <==> ZeroFreeChain(t, k, x, ord))
  {
    hide BuildHash, FullHash, Collision, ZeroFree;
    if t.Node? {
      var c := if k <= ord(t.index) then t.left else t.right;
      var u, r := Put(t, k, x, ord, FullHash), Put(t, k, x, ord, BuildHash);
      PutAgainstRebuild(c, k, x, ord);
      ChainIsRootHash(c, k, x, ord);
      if ZeroFree(u.left.hash) && ZeroFree(u.right.hash) {
        ZeroFreeAgree(u.left.hash, u.right.hash);
      }
      if u.hash == r.hash {
        BuildMeetsFull(r.left.hash, r.right.hash, u.left.hash, u.right.hash);
      }
    }
  }

  // ----- What the root says about the leaves -----

  ghost predicate SameLeafHashes(t: Tree, u: Tree) {
    |Leaves(t)| == |Leaves(u)| && forall i :: 0 <= i < |Leaves(t)| ==> Leaves(t)[i].hash == Leaves(u)[i].hash
  }

  lemma SameLeavesOfTwo(t: Tree, u: Tree)
    requires t.Node? && u.Node? && SameLeafHashes(t.left, u.left) && SameLeafHashes(t.right, u.right)
    ensures SameLeafHashes(t, u)
  {
  }

  /** What an update and a build hash for a pair of children. */
  function FullInput(l: Digest, r: Digest): seq<byte> { l + r }

  function BuildInput(l: Digest, r: Digest): seq<byte> { CString(l + r) }

  /** At some position in both trees different strings with one digest were hashed. */
  ghost predicate NodesCollide(t: Tree, u: Tree, input: (Digest, Digest) -> seq<byte>) {
    t.Node? && u.Node?
    && (Collision(input(t.left.hash, t.right.hash), input(u.left.hash, u.right.hash))
        || NodesCollide(t.left, u.left, input) || NodesCollide(t.right, u.right, input))
  }

  /** Two trees consistent for the 64-byte combination, of one level and with one root hash, have the
      same leaf hashes, or a collision lies at one of their positions. */
  lemma {:induction false} RootFixesLeaves(t: Tree, u: Tree)
    requires Perfect(t) && Perfect(u) && t.level == u.level && t.hash == u.hash
    requires Hashed(t, FullHash) && Hashed(u, FullHash)
    ensures SameLeafHashes(t, u) || NodesCollide(t, u, FullInput)
  {
    hide FullHash, Collision;
    if t.Node? && !NodesCollide(t, u, FullInput) {
      FullMeetsFull(t.left.hash, t.right.hash, u.left.hash, u.right.hash);
      RootFixesLeaves(t.left, u.left);
      RootFixesLeaves(t.right, u.right);
      SameLeavesOfTwo(t, u);
    }
  }

  // ----- What the root of a built tree says about the leaves -----

  /** There is no zero byte among the first 63 of the 64 bytes. */
  predicate Telling(l: Digest, r: Digest) { ZeroFree(l) && ZeroFree(r[..31]) }

  predicate TellingNodes(t: Tree) {
    match t
    case Leaf(_, _, _) => true
    case Node(_, _, _, l, r) => Telling(l.hash, r.hash) && TellingNodes(l) && TellingNodes(r)
  }

  /** Then the string that a build hashes determines both digests. */
  lemma TellingPair(l: Digest, r: Digest, l': Digest, r': Digest)
    requires Telling(l, r) && CString(l + r) == CString(l' + r')
    ensures l == l' && r == r'
  {
    var a, b, c := l + r, l' + r', CString(l + r);
    CStringIsLongestZeroFreePrefix(a);
    CStringIsLongestZeroFreePrefix(b);
    hide CString;
    assert forall i :: 0 <= i < 32 ==> a[i] == l[i];
    assert forall i :: 32 <= i < 63 ==> a[i] == r[..31][i - 32];
    assert |c| >= 63;
    assert a[..|c|] == b[..|c|];
    assert a == b;
    SameHalves(l, r, l', r');
  }

  lemma BuildMeetsBuild(l: Digest, r: Digest, l': Digest, r': Digest)
    requires Telling(l, r) && BuildHash(l, r) == BuildHash(l', r')
    ensures (l == l' && r == r') || Collision(BuildInput(l, r), BuildInput(l', r'))
  {
    hide Sha256, Telling;
    if CString(l + r) == CString(l' + r') {
      TellingPair(l, r, l', r');
    }
  }

  /** Two built trees of one level with one root hash have the same leaf hashes, or a collision lies at
      one of their positions, when in one of them no pair has a zero byte among its first 63 bytes. */
  lemma {:induction false} BuiltRootFixesLeaves(t: Tree, u: Tree)
    requires Perfect(t) && Perfect(u) && t.level == u.level && t.hash == u.hash
    requires Hashed(t, BuildHash) && Hashed(u, BuildHash) && TellingNodes(t)
    ensures SameLeafHashes(t, u) || NodesCollide(t, u, BuildInput)
  {
    hide BuildHash, Collision, Telling, BuildInput;
    if t.Node? && !NodesCollide(t, u, BuildInput) {
      BuildMeetsBuild(t.left.hash, t.right.hash, u.left.hash, u.right.hash);
      BuiltRootFixesLeaves(t.left, u.left);
      BuiltRootFixesLeaves(t.right, u.right);
      SameLeavesOfTwo(t, u);
    }
  }

  /** Among the first n leaves one is hidden from the root: the first leaf of a right subtree, when the left
      child has a zero byte, or when the two are a pair of leaves with a zero byte among the first 63. */
  predicate Blind(t: Tree, n: nat) {
    match t
    case Leaf(_, _, _) => false
    case Node(_, _, _, l, r) =>
      || (|Leaves(l)| < n && (!ZeroFree(l.hash) || (r.Leaf? && !Telling(l.hash, r.hash))))
      || Blind(l, n)
      || (|Leaves(l)| < n && Blind(r, n - |Leaves(l)|))
  }

  /** d with another last byte. */
  function Flip(d: Digest): Digest { d[31 := if d[31] == 0 then 1 else 0] }

  function Flipped(r: Record): Record { Record(r.index, Flip(r.hash)) }

  /** What follows a zero byte is not hashed. */
  lemma {:induction false} CStringIgnoresRest(a: seq<byte>, b: seq<byte>, i: nat)
    requires i < |a| == |b| && a[i] == 0 && a[..i + 1] == b[..i + 1]
    ensures CString(a) == CString(b)
  {
    assert a[0] == a[..i + 1][0] && b[0] == b[..i + 1][0];
    if i > 0 {
      assert a[1..][..i] == a[..i + 1][1..] && b[1..][..i] == b[..i + 1][1..];
      CStringIgnoresRest(a[1..], b[1..], i - 1);
    } else {
      assert b[..1][0] == 0;
    }
  }

  lemma HiddenByLeft(l: Digest, r: Digest, r': Digest)
    requires !ZeroFree(l)
    ensures BuildHash(l, r) == BuildHash(l, r')
  {
    hide Sha256;
    var i :| 0 <= i < |l| && l[i] == 0;
    assert (l + r)[..i + 1] == l[..i + 1] == (l + r')[..i + 1];
    CStringIgnoresRest(l + r, l + r', i);
  }

  lemma HiddenInRight(l: Digest, r: Digest)
    requires !Telling(l, r)
    ensures BuildHash(l, r) == BuildHash(l, Flip(r))
  {
    hide Sha256;
    if ZeroFree(l) {
      var i :| 0 <= i < 31 && r[..31][i] == 0;
      assert (l + r)[..32 + i + 1] == l + r[..i + 1] == l + Flip(r)[..i + 1] == (l + Flip(r))[..32 + i + 1];
      CStringIgnoresRest(l + r, l + Flip(r), 32 + i);
    } else {
      HiddenByLeft(l, r, Flip(r));
    }
  }

  /** The tree with another hash at its first leaf. */
  lemma {:induction false} FlipFirst(t: Tree) returns (u: Tree)
    requires Perfect(t) && Hashed(t, BuildHash)
    ensures Perfect(u) && Hashed(u, BuildHash) && u.level == t.level
    ensures LastIndex(u) == LastIndex(t) && (Indexed(t) ==> Indexed(u))
    ensures Leaves(u) == Leaves(t)[0 := Flipped(Leaves(t)[0])]
    ensures t.Leaf? ==> u.Leaf? && u.hash == Flip(t.hash)
  {
    hide BuildHash, Flip;
    if t.Leaf? {
      u := Leaf(t.index, t.level, Flip(t.hash));
    } else {
      var l := FlipFirst(t.left);
      u := Node(t.index, t.level, BuildHash(l.hash, t.right.hash), l, t.right);
    }
  }

  /** A blind tree has a twin: a built tree with the same root hash and another hash at one of the first n leaves. */
  lemma {:induction false} BlindRootMissesLeaf(t: Tree, n: nat) returns (u: Tree, j: nat)
    requires Perfect(t) && Hashed(t, BuildHash) && Blind(t, n)
    ensures Perfect(u) && Hashed(u, BuildHash) && u.level == t.level && u.hash == t.hash
    ensures LastIndex(u) == LastIndex(t) && (Indexed(t) ==> Indexed(u))
    ensures j < n && j < |Leaves(t)| && Leaves(u) == Leaves(t)[j := Flipped(Leaves(t)[j])]
    ensures !SameLeafHashes(t, u)
  {
    hide BuildHash, Flip, Telling, ZeroFree;
    var m := |Leaves(t.left)|;
    if Blind(t.left, n) {
      var l;
      l, j := BlindRootMissesLeaf(t.left, n);
      u := t.(left := l);
    } else if m < n && Blind(t.right, n - m) {
      var r;
      r, j := BlindRootMissesLeaf(t.right, n - m);
      u, j := t.(right := r), m + j;
    } else {
      var r := FlipFirst(t.right);
      u, j := t.(right := r), m;
      if t.right.Leaf? && !Telling(t.left.hash, t.right.hash) {
        HiddenInRight(t.left.hash, t.right.hash);
      } else {
        HiddenByLeft(t.left.hash, t.right.hash, r.hash);
      }
    }
    FlipDiffers(Leaves(t)[j].hash);
  }

  lemma FlipDiffers(d: Digest)
    ensures Flip(d) != d
  {
    assert Flip(d)[31] != d[31];
  }

  /** An inner node with a zero byte in the hash of its right child, before the last byte. */
  predicate InnerRightZero(t: Tree) {
    match t
    case Leaf(_, _, _) => false
    case Node(_, _, _, l, r) => (r.Node? && !ZeroFree(r.hash[..31])) || InnerRightZero(l) || InnerRightZero(r)
  }

  /** Only that case is neither told nor blind. */
  lemma {:induction false} ToldOrBlind(t: Tree, n: nat)
    requires n == |Leaves(t)| && !InnerRightZero(t)
    ensures TellingNodes(t) <==> !Blind(t, n)
  {
    hide ZeroFree;
    if t.Node? {
      BlindAmongAll(t.left, n);
      ToldOrBlind(t.left, |Leaves(t.left)|);
      ToldOrBlind(t.right, |Leaves(t.right)|);
    }
  }

  lemma {:induction false} BlindAmongAll(t: Tree, n: nat)
    requires n >= |Leaves(t)|
    ensures Blind(t, n) <==> Blind(t, |Leaves(t)|)
  {
    if t.Node? {
      BlindAmongAll(t.left, n);
      BlindAmongAll(t.left, |Leaves(t)|);
      BlindAmongAll(t.right, n - |Leaves(t.left)|);
    }
  }

  const ZERO_DIGEST: Digest := [
    0, 0, 0, 0, 0, 0, 0, 0, 0, 0, 0, 0, 0, 0, 0, 0,
    0, 0, 0, 0, 0, 0, 0, 0, 0, 0, 0, 0, 0, 0, 0, 0
  ]

  /** With an all-zero left child the build hashes the empty string, whatever the right child. */
  lemma ZeroLeftChild(r: Digest)
    ensures BuildHash(ZERO_DIGEST, r) == Sha256([])
    ensures !ZeroFree(ZERO_DIGEST)
  {
    hide Sha256;
    assert (ZERO_DIGEST + r)[0] == 0;
    assert ZERO_DIGEST[0] == 0;
  }

  /** So the root of such a built pair says nothing about its second leaf. */
  lemma BuiltRootMissesLeaf(i: int, j: int, r: Digest, r': Digest)
    requires r != r'
    ensures var t, u := Halving([Record(i, ZERO_DIGEST), Record(j, r)], 1, BuildHash),
                        Halving([Record(i, ZERO_DIGEST), Record(j, r')], 1, BuildHash);
      t.hash == u.hash && !SameLeafHashes(t, u)
  {
    hide BuildHash;
    var t, u := Halving([Record(i, ZERO_DIGEST), Record(j, r)], 1, BuildHash),
                Halving([Record(i, ZERO_DIGEST), Record(j, r')], 1, BuildHash);
    ZeroLeftChild(r);
    ZeroLeftChild(r');
    HalvingProperties([Record(i, ZERO_DIGEST), Record(j, r)], 1, BuildHash);
    HalvingProperties([Record(i, ZERO_DIGEST), Record(j, r')], 1, BuildHash);
    assert Leaves(t)[1].hash == r && Leaves(u)[1].hash == r';
  }
}
