/** test_1.c: getMHash and updateMTree on a tree of MHT nodes in the heap. */
module TreeOps {
  import opened Bytes
  import opened Sha256Spec
  import Sha256Impl
  import opened Hashing
  import opened MerkleTree
  import opened MerkleIndex
  import opened MapSemantics
  import opened Seqs
  import opened MhtDefs

  const SUCCESS: int := 1
  const FAIL: int := 0

  /** getMHash: the hash of the leaf with index pgno is copied to mHash. */
  method GetMHash(root: MHTNode, pgno: int, mHash: array<byte>, ghost s: Shape) returns (ret: int)
    requires s.node == root && Linked(s) && Perfect(Value(s))
    requires IsUnsigned(pgno) && mHash.Length >= 32
    modifies mHash
    ensures match Lookup(Value(s), pgno, Unsigned)
      case Some(d) => ret == SUCCESS && mHash[..32] == d && mHash[32..] == old(mHash[32..])
      case None => ret == FAIL && mHash[..] == old(mHash[..])
  {
    var temp := root;
    ghost var cur := s;
    var level := temp.level;
    while level != 0
      invariant cur.node == temp && Linked(cur) && Perfect(Value(cur)) && level == temp.level
      invariant Find(Value(cur), pgno, Unsigned) == Find(Value(s), pgno, Unsigned)
      decreases cur
    {
      if pgno <= Unsigned(temp.pageNo) {
        temp := temp.lchild;
        cur := cur.left;
      } else {
        temp := temp.rchild;
        cur := cur.right;
      }
      level := temp.level;
    }
    if Unsigned(temp.pageNo) != pgno {
      return FAIL;
    }
    forall i | 0 <= i < 32 {
      mHash[i] := temp.hash[i];
    }
    return SUCCESS;
  }

  /** One step up the path: the node is rehashed from its children (test_1.c:288-295). */
  method Rehash(temp: MHTNode, hashRet: array<byte>, ghost p: Shape, ghost t0: Tree, ghost k: int, ghost x: Digest)
    requires p.Fork? && p.node == temp && Linked(p) && Separate(p)
    requires hashRet.Length >= 32
    requires t0.Node? && t0.index == temp.pageNo && t0.level == temp.level
    requires if k <= temp.pageNo then
        Value(p.left) == Put(t0.left, k, x, Signed, FullHash) && Value(p.right) == t0.right
      else
        Value(p.left) == t0.left && Value(p.right) == Put(t0.right, k, x, Signed, FullHash)
    modifies hashRet, temp`hash
    ensures Linked(p) && Value(p) == Put(t0, k, x, Signed, FullHash)
    ensures hashRet[..32] == temp.hash && hashRet[32..] == old(hashRet[32..])
  {
    hide FullHash, Linked, Value, Nodes, Separate, Put;
    assert allocated(Nodes(p)) && allocated(Nodes(p.left)) && allocated(Nodes(p.right));
    Children(p);
    PutAtNode(t0, k, x);
    var msg := temp.lchild.hash + temp.rchild.hash;
    FullHashOf(temp.lchild.hash, temp.rchild.hash);
    Sha256Impl.HashBuffer(msg, hashRet);
    temp.hash := hashRet[..32];
    ValueOfFork(p);
  }

  lemma ValueOfFork(p: Shape)
    requires p.Fork?
    ensures Value(p) == Node(p.node.pageNo, p.node.level, p.node.hash, Value(p.left), Value(p.right))
  {
  }

  lemma PutAtNode(t: Tree, k: int, x: Digest)
    requires t.Node?
    ensures Put(t, k, x, Signed, FullHash) ==
      if k <= t.index then
        var l := Put(t.left, k, x, Signed, FullHash);
        Node(t.index, t.level, FullHash(l.hash, t.right.hash), l, t.right)
      else
        var r := Put(t.right, k, x, Signed, FullHash);
        Node(t.index, t.level, FullHash(t.left.hash, r.hash), t.left, r)
  {
    hide FullHash;
  }

  lemma FullHashOf(l: Digest, r: Digest)
    ensures FullHash(l, r) == Sha256(l + r)
  {
  }

  lemma Children(p: Shape)
    requires p.Fork? && Linked(p) && Separate(p)
    ensures Linked(p.left) && Linked(p.right)
    ensures p.node !in Nodes(p.left) && p.node !in Nodes(p.right)
    ensures p.node.lchild == p.left.node && p.node.rchild == p.right.node
    ensures Value(p.left).hash == p.left.node.hash && Value(p.right).hash == p.right.node.hash
  {
  }

  /** path goes down from s, at each node to the child where the descent for k goes. */
  ghost predicate Steps(path: seq<Shape>, s: Shape, k: int)
    reads (set i | 0 <= i < |path| :: path[i].node)`pageNo
  {
    && path != [] && path[0] == s
    && (forall i :: 0 <= i < |path| - 1 ==> path[i].Fork?)
    && forall i :: 0 <= i < |path| - 1 ==>
         path[i + 1] == if k <= path[i].node.pageNo then path[i].left else path[i].right
  }

  /** In a perfect tree each step goes down one level. */
  lemma {:induction false} LevelsOnPath(path: seq<Shape>, s: Shape, k: int, i: nat)
    requires Steps(path, s, k) && Perfect(Value(s)) && i < |path|
    ensures Perfect(Value(path[i])) && path[i].node.level == s.node.level - i
  {
    if i > 0 {
      LevelsOnPath(path, s, k, i - 1);
    }
  }

  /** path leads from s towards the leaf that the descent for k reaches, one level at a time. */
  ghost predicate Descent(path: seq<Shape>, s: Shape, k: int)
    reads Nodes(s)`pageNo, Nodes(s)`lchild, Nodes(s)`rchild, Nodes(s)`level
  {
    && path != []
    && (forall i :: 0 <= i < |path| ==> Nodes(path[i]) <= Nodes(s) && path[i].node in Nodes(s))
    && (forall i :: 0 <= i < |path| ==> Linked(path[i]) && Separate(path[i]))
    && (forall i :: 0 <= i < |path| ==> path[i].node.level == |path| - 1 - i + Last(path).node.level)
    && Steps(path, s, k)
  }

  lemma ChildFacts(p: Shape, k: int)
    requires Linked(p) && Separate(p) && Perfect(Value(p)) && p.node.level != 0
    ensures p.Fork? && p.node.lchild == p.left.node && p.node.rchild == p.right.node
    ensures var c := if k <= p.node.pageNo then p.left else p.right;
      && Linked(c) && Separate(c) && Perfect(Value(c)) && Nodes(c) <= Nodes(p) && c.node in Nodes(c)
      && c.node.level == p.node.level - 1
      && Find(Value(p), k, Signed) == Find(Value(c), k, Signed)
  {
  }

  lemma NextStep(path: seq<Shape>, s: Shape, k: int)
    requires Steps(path, s, k) && Last(path).Fork?
    ensures Steps(path + [if k <= Last(path).node.pageNo then Last(path).left else Last(path).right], s, k)
  {
  }

  lemma DescentStep(path: seq<Shape>, s: Shape, k: int)
    requires Descent(path, s, k) && Perfect(Value(Last(path))) && Last(path).node.level != 0
    ensures Last(path).Fork?
    ensures Last(path).node.lchild == Last(path).left.node && Last(path).node.rchild == Last(path).right.node
    ensures var c := if k <= Last(path).node.pageNo then Last(path).left else Last(path).right;
      && Descent(path + [c], s, k) && Perfect(Value(c)) && c.node.level == Last(path).node.level - 1
      && Find(Value(Last(path)), k, Signed) == Find(Value(c), k, Signed)
  {
    var p := Last(path);
    var c := if k <= p.node.pageNo then p.left else p.right;
    hide Linked, Separate, Perfect, Value, Nodes, Find, Steps;
    ChildFacts(p, k);
    NextStep(path, s, k);
    assert Last(path + [c]) == c;
    assert forall i :: 0 <= i < |path| ==> (path + [c])[i] == path[i];
  }

  /** The descent of updateMTree: every node on the way is pushed (test_1.c:254-274). */
  method Descend(root: MHTNode, nodeList: array<MHTNode?>, pgno: int, ghost s: Shape)
    returns (temp: MHTNode, index: nat, ghost path: seq<Shape>)
    requires s.node == root && Linked(s) && Separate(s) && Perfect(Value(s))
    requires root.level < nodeList.Length
    modifies nodeList
    ensures path != [] && Descent(path, s, pgno) && index == |path| <= nodeList.Length
    ensures Last(path).Tip? && Last(path).node == temp && temp.level == 0
    ensures Find(Value(s), pgno, Signed) == Value(Last(path))
    ensures forall i :: 0 <= i < index ==> nodeList[i] == path[i].node
  {
    hide Linked, Separate, Value, Nodes, Perfect, Find;
    temp := root;
    nodeList[0] := temp;
    index := 1;
    var level := temp.level;
    path := [s];
    assert allocated(Nodes(s));
    DescentStart(s, pgno);
    while level != 0
      invariant Descent(path, s, pgno) && index == |path| && index + level == 1 + root.level
      invariant temp == Last(path).node && level == temp.level
      invariant Perfect(Value(Last(path)))
      invariant Find(Value(s), pgno, Signed) == Find(Value(Last(path)), pgno, Signed)
      invariant forall i :: 0 <= i < index ==> nodeList[i] == path[i].node
      decreases level
    {
      DescentStep(path, s, pgno);
      if pgno <= temp.pageNo {
        temp := temp.lchild;
        path := path + [Last(path).left];
      } else {
        temp := temp.rchild;
        path := path + [Last(path).right];
      }
      nodeList[index] := temp;
      index := index + 1;
      level := temp.level;
    }
    LeafReached(Last(path), pgno);
  }

  lemma DescentStart(s: Shape, k: int)
    requires Linked(s) && Separate(s)
    ensures Descent([s], s, k)
  {
  }

  lemma LeafReached(s: Shape, k: int)
    requires Perfect(Value(s)) && s.node.level == 0
    ensures s.Tip? && Find(Value(s), k, Signed) == Value(s)
  {
  }

  /** The two subtrees of an inner node of the path: the next one on the path, and one that shares no node with it. */
  lemma Siblings(path: seq<Shape>, s: Shape, k: int, i: nat)
    requires Descent(path, s, k) && i < |path| - 1
    ensures path[i].Fork? && path[i].node.level != 0
    ensures path[i + 1] == if k <= path[i].node.pageNo then path[i].left else path[i].right
    ensures Nodes(path[i]) == {path[i].node} + Nodes(path[i].left) + Nodes(path[i].right)
    ensures Nodes(path[i].left) !! Nodes(path[i].right)
    ensures Value(path[i]) == Node(path[i].node.pageNo, path[i].node.level, path[i].node.hash,
                                   Value(path[i].left), Value(path[i].right))
  {
  }

  lemma OnPath(path: seq<Shape>, s: Shape, k: int)
    requires Descent(path, s, k) && Last(path).node.level == 0
    ensures path[0] == s
    ensures forall i :: 0 <= i < |path| ==> path[i].node in Nodes(s) && Nodes(path[i]) <= Nodes(s)
    ensures forall i :: 0 <= i < |path| ==> path[i].node.level == |path| - 1 - i
    ensures forall i :: 0 <= i < |path| ==> Linked(path[i]) && Separate(path[i])
  {
  }

  /** The hashes of the nodes outside a subtree are the old ones. */
  twostate predicate UnchangedOutside(all: set<MHTNode>, new inside: set<MHTNode>)
    reads all`hash
  {
    forall n :: n in all && n !in inside ==> n.hash == old(n.hash)
  }

  /** A node is popped: a leaf takes the given hash, an inner node the hash of its children (test_1.c:284-295). */
  method PopNode(temp: MHTNode, hashRet: array<byte>, ghost p: Shape, ghost t0: Tree, ghost k: int, ghost x: Digest)
    requires p.node == temp && Linked(p) && Separate(p)
    requires hashRet.Length >= 32
    requires temp.level == 0 ==> p.Tip? && hashRet[..32] == x
    requires temp.level != 0 ==> p.Fork?
    requires t0.index == temp.pageNo && t0.level == temp.level && (t0.Leaf? <==> p.Tip?)
    requires p.Fork? ==>
      if k <= temp.pageNo then Value(p.left) == Put(t0.left, k, x, Signed, FullHash) && Value(p.right) == t0.right
      else Value(p.left) == t0.left && Value(p.right) == Put(t0.right, k, x, Signed, FullHash)
    modifies hashRet, temp`hash
    ensures Value(p) == Put(t0, k, x, Signed, FullHash)
    ensures hashRet[..32] == temp.hash && hashRet[32..] == old(hashRet[32..])
  {
    hide FullHash;
    if temp.level != 0 {
      Rehash(temp, hashRet, p, t0, k, x);
    } else {
      temp.hash := hashRet[..32];
    }
  }

  /** The ascent of updateMTree: the pushed nodes are popped and get their new hashes (test_1.c:282-297). */
  method Ascend(nodeList: array<MHTNode?>, depth: nat, hashRet: array<byte>, ghost pgno: int,
                ghost path: seq<Shape>, ghost s: Shape, ghost all: set<MHTNode>)
    requires all == Nodes(s) && path != [] && Descent(path, s, pgno) && Last(path).Tip? && Last(path).node.level == 0
    requires depth == |path| <= nodeList.Length && forall i :: 0 <= i < depth ==> nodeList[i] == path[i].node
    requires hashRet.Length >= 32 && hashRet as object != nodeList
    modifies hashRet, all`hash
    ensures Value(s) == Put(old(Value(s)), pgno, old(hashRet[..32]), Signed, FullHash)
    ensures hashRet[..32] == s.node.hash && hashRet[32..] == old(hashRet[32..])
  {
    hide Linked, Separate, Value, Nodes, Perfect, Put, FullHash, Descent;
    ghost var x: Digest := hashRet[..32];
    OnPath(path, s, pgno);
    forall i | 0 <= i < |path| - 1 {
      Siblings(path, s, pgno, i);
    }
    TipValue(Last(path));
    var index := depth;
    while index > 0
      invariant 0 <= index <= |path| && hashRet[32..] == old(hashRet[32..])
      invariant Descent(path, s, pgno)
      invariant forall i :: 0 <= i < |path| ==> nodeList[i] == path[i].node
      invariant UnchangedOutside(all, Below(path, index))
      invariant hashRet[..32] == if index < |path| then path[index].node.hash else x
      invariant index < |path| ==> Value(path[index]) == Put(old(Value(path[index])), pgno, x, Signed, FullHash)
      decreases index
    {
      index := index - 1;
      OnPath(path, s, pgno);
      ghost var p := path[index];
      if index < |path| - 1 {
        Siblings(path, s, pgno, index);
        assert if pgno <= p.node.pageNo then Value(p.right) == old(Value(p.right))
               else Value(p.left) == old(Value(p.left));
      }
      PopNode(nodeList[index], hashRet, p, old(Value(p)), pgno, x);
    }
  }

  /** The nodes of the subtree at position i of the path. */
  ghost function Below(path: seq<Shape>, i: nat): set<MHTNode> {
    if i < |path| then Nodes(path[i]) else {}
  }

  lemma TipValue(s: Shape)
    requires s.Tip?
    ensures Value(s) == Leaf(s.node.pageNo, s.node.level, s.node.hash)
    ensures Nodes(s) == {s.node}
  {
  }

  /** updateMTree: hashRet holds the new hash of leaf pgno and ends as the hash of the root; without such a
      leaf nothing changes.  The path must fit the 30 slots of the stack. */
  method UpdateMTree(root: MHTNode, hashRet: array<byte>, pgno: int, ghost s: Shape)
    requires s.node == root && Linked(s) && Separate(s) && Perfect(Value(s))
    requires root.level < 30 && hashRet.Length >= 32
    modifies hashRet, Nodes(s)`hash
    ensures Value(s) == Update(old(Value(s)), pgno, old(hashRet[..32]), Signed, FullHash)
    ensures if Lookup(old(Value(s)), pgno, Signed).Some? then
        hashRet[..32] == root.hash && hashRet[32..] == old(hashRet[32..])
      else hashRet[..] == old(hashRet[..])
  {
    hide Linked, Separate, Value, Perfect, Put, FullHash, Descent, Nodes;
    ghost var all := Nodes(s);
    assert allocated(Nodes(s));
    var nodeList := new MHTNode?[30];
    var temp, index;
    ghost var path;
    temp, index, path := Descend(root, nodeList, pgno, s);
    TipValue(Last(path));
    if temp.pageNo != pgno {
      return;
    }
    Ascend(nodeList, index, hashRet, pgno, path, s, all);
  }

  /** A run of lookups and updates, as the timing loops of test_1.c make them. */
  method Run(root: MHTNode, ops: seq<Op>, ghost s: Shape) returns (outs: seq<Option<Digest>>)
    requires s.node == root && Linked(s) && Separate(s) && Perfect(Value(s)) && root.level < 30
    requires forall i :: 0 <= i < |ops| && ops[i].Get? ==> IsUnsigned(ops[i].key)
    modifies Nodes(s)`hash
    ensures (Value(s), outs) == TreeRun(old(Value(s)), ops, FullHash)
  {
    hide Linked, Separate, Value, Perfect, Put, FullHash, Nodes, Update, Lookup;
    outs := [];
    var buf := new byte[32];
    var i := 0;
    while i < |ops|
      invariant 0 <= i <= |ops|
      invariant Linked(s) && Separate(s) && Perfect(Value(s))
      invariant (Value(s), outs) == TreeRun(old(Value(s)), ops[..i], FullHash)
    {
      assert ops[..i + 1] == ops[..i] + [ops[i]];
      assert Init(ops[..i + 1]) == ops[..i];
      assert allocated(Nodes(s));
      match ops[i] {
        case Get(key) =>
          var ret := GetMHash(root, key, buf, s);
          outs := outs + [if ret == SUCCESS then Some(buf[..32]) else None];
        case Set(index, hash) =>
          forall k | 0 <= k < 32 {
            buf[k] := hash[k];
          }
          assert buf[..32] == hash;
          UpdateKeepsPerfect(Value(s), index, hash);
          UpdateMTree(root, buf, index, s);
      }
      i := i + 1;
    }
    assert ops[..i] == ops;
  }

  lemma UpdateKeepsPerfect(t: Tree, k: int, x: Digest)
    requires Perfect(t)
    ensures Perfect(Update(t, k, x, Signed, FullHash))
  {
    hide FullHash;
    PutKeepsSearch(t, k, x, Signed, FullHash, k, Signed);
  }
}
