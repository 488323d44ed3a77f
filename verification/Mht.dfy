/** mht.c: the streaming builder. */
module Mht {
  import opened Bytes
  import opened MhtDefs
  import opened DbQueue
  import opened MerkleTree
  import opened Hashing
  import opened Powers
  import opened Levels
  import opened Seqs
  import opened Forest
  import opened QueueScan
  import opened Dataset
  import Sha256Impl
  import opened Sha256Spec
  import AnswerZero

  // ----- Supplement flags -----

  /** The leaves that have left the queue: those of the first tree, once it is more than a leaf. */
  ghost function PoppedTips(fs: seq<Shape>): (p: seq<MHTNode>)
  {
    if fs != [] && fs[0].Fork? then Tips(fs[0]) else []
  }

  /** In the data phase a leaf is flagged exactly when it has been popped and its index is UNASSIGNED_INDEX or more. */
  ghost predicate DataFlags(fs: seq<Shape>)
    reads AllNodes(fs)`isSupplement, AllNodes(fs)`pageNo
  {
    forall n :: n in AllNodes(fs) && n in AllTips(fs) ==>
      n.isSupplement == (n in PoppedTips(fs) && n.pageNo >= UNASSIGNED_INDEX)
  }

  /** Internal nodes are never flagged. */
  ghost predicate InternalsUnflagged(fs: seq<Shape>)
    reads AllNodes(fs)`isSupplement, AllNodes(fs)`level
  {
    forall n :: n in AllNodes(fs) && n.level > 0 ==> !n.isSupplement
  }

  lemma {:induction false} TipsAreTips(s: Shape)
    requires Perfect(Value(s))
    ensures forall n :: n in Tips(s) ==> n in Nodes(s) && n.level == NODELEVEL_LEAF
  {
    if s.Fork? {
      TipsAreTips(s.left);
      TipsAreTips(s.right);
    }
  }

  lemma {:induction false} AllTipsAreTips(fs: seq<Shape>)
    requires AllBuilt(fs)
    ensures forall n :: n in AllTips(fs) ==> n in AllNodes(fs) && n.level == NODELEVEL_LEAF
  {
    if fs != [] {
      AllTipsAreTips(Init(fs));
      TipsAreTips(Last(fs));
    }
  }

  lemma {:induction false} FirstTips(fs: seq<Shape>)
    requires fs != []
    ensures Tips(fs[0]) <= AllTips(fs)
  {
    if |fs| > 1 {
      FirstTips(Init(fs));
    }
  }

  /** One step of the counter pops exactly the leaves that become popped. */
  lemma PoppedTipsStep(fs: seq<Shape>, gs: seq<Shape>, leaf: Shape)
    requires leaf.Tip? && AllTips(gs) == AllTips(fs) + [leaf.node]
    requires gs != [] && (|gs| > 1 ==> fs != [] && gs[0] == fs[0])
    requires |gs| == 1 && gs[0].Fork? ==> fs != [] && gs[0].left == fs[0]
    ensures forall n :: n in PoppedTips(fs) ==> n in AllTips(fs)
    ensures forall n :: n in AllTips(gs) ==> (n in PoppedTips(gs) <==> n in PoppedTips(fs) || n in PoppedFor(gs))
  {
    if fs != [] {
      FirstTips(fs);
    }
    if |gs| == 1 {
      assert AllTips(gs) == Tips(gs[0]);
      if gs[0].Fork? {
        TipsInPostorder(gs[0].right);
      }
    }
  }

  lemma {:induction false} TipsInPostorder(s: Shape)
    ensures forall n :: n in Tips(s) ==> n in Postorder(s)
  {
    if s.Fork? {
      TipsInPostorder(s.left);
      TipsInPostorder(s.right);
    }
  }

  /** process_queue. */
  method ProcessQueue(q: Queue, ghost fs: seq<Shape>, ghost leaf: Shape, ghost base: set<MHTNode>)
    returns (ghost gs: seq<Shape>, ghost steps: nat)
    requires q.Valid() && Counter(fs)
    requires leaf.Tip? && Built(leaf) && leaf.node !in AllNodes(fs)
    requires q.contents == QueueForm(fs) + [leaf.node]
    requires q.Fifo() && q.entered == AllPostorder(fs) + [leaf.node]
    requires base == AllNodes(fs) + {leaf.node}
    requires DataFlags(fs) && InternalsUnflagged(fs) && !leaf.node.isSupplement
    modifies q, q.repr, base`isSupplement
    ensures q.Valid() && q.header == old(q.header)
    ensures fresh(q.repr - old(q.repr))
    ensures Counter(gs) && q.contents == QueueForm(gs)
    ensures q.Fifo() && q.entered == AllPostorder(gs)
    ensures AllTips(gs) == AllTips(fs) + [leaf.node]
    ensures fresh(AllNodes(gs) - base)
    ensures DataFlags(gs) && InternalsUnflagged(gs)
    ensures steps + old(Potential(LevelsOf(fs))) <= Potential(LevelsOf(gs))
  {
    hide Built, Linked, Value, Separate, Nodes, Postorder, AllNodes, QueueForm, Tips,
      AllTips, AllPostorder, LevelsOf, Potential, PoppedFor, PoppedTips;
    AllTipsAreTips(fs);
    gs, steps := ScanAndPop(q, true, fs, leaf, base);
    AllTipsAreTips(gs);
    PoppedTipsStep(fs, gs, leaf);
    forall n | n in AllNodes(gs) && n in AllTips(gs)
      ensures n.isSupplement == (n in PoppedTips(gs) && n.pageNo >= UNASSIGNED_INDEX)
    {
      assert n in AllTips(fs) || n == leaf.node;
    }
  }

  // ----- Padding -----

  /** makeQNode and enqueue, as every new leaf goes through them (mht.c:63-65 and 217-219). */
  method EnqueueLeaf(q: Queue, node: MHTNode, ghost fs: seq<Shape>, ghost all: set<MHTNode>)
    requires q.Valid() && q.Fifo() && Counter(fs) && all == AllNodes(fs)
    requires Built(Tip(node))
    modifies q, q.repr
    ensures q.Valid() && q.header == old(q.header)
    ensures q.contents == old(q.contents) + [node]
    ensures q.Fifo() && q.entered == old(q.entered) + [node]
    ensures fresh(q.repr - old(q.repr)) && old(q.repr) <= q.repr
    ensures Counter(fs) && Built(Tip(node))
    ensures LevelsOf(fs) == old(LevelsOf(fs))
  {
    hide Built, AllNodes, Counter, LevelsOf;
    assert allocated(AllNodes(fs)) && allocated(Nodes(Tip(node)));
    var cell := new QNODE(node);
    q.Enqueue(cell);
  }

  /** i is the position of the last element at level 0, or negative when there is none. */
  ghost predicate LastAtLevelZero(ns: seq<MHTNode>, i: int)
    reads ns`level
  {
    if i < 0 then forall j :: 0 <= j < |ns| ==> ns[j].level != NODELEVEL_LEAF
    else i < |ns| && ns[i].level == NODELEVEL_LEAF && forall j :: i < j < |ns| ==> ns[j].level != NODELEVEL_LEAF
  }

  /** get_the_last_leaf_node_index: the index of the leaf nearest to the tail. */
  method GetTheLastLeafNodeIndex(q: Queue) returns (r: int)
    requires q.Valid()
    ensures forall i :: LastAtLevelZero(q.contents, i) ==> r == if i < 0 then UNASSIGNED_INDEX else q.contents[i].pageNo
  {
    var c := q.tail;
    ghost var i := |q.contents|;
    while c != q.header
      invariant 0 <= i <= |q.contents| && c == q.cells[i]
      invariant forall j :: i <= j < |q.contents| ==> q.contents[j].level != NODELEVEL_LEAF
      decreases i
    {
      i := i - 1;
      assert c.ptr == q.contents[i];
      if c.ptr.level == NODELEVEL_LEAF {
        return c.ptr.pageNo;
      }
      c := c.prev;
    }
    return UNASSIGNED_INDEX;
  }

  lemma LastAtLevelZeroOfSum(a: seq<MHTNode>, b: seq<MHTNode>, p: nat)
    requires LastAtLevelZero(b, p)
    ensures LastAtLevelZero(a + b, |a| + p) && (a + b)[|a| + p] == b[p]
  {
    assert forall j :: |a| <= j < |a + b| ==> (a + b)[j] == b[j - |a|];
  }

  /** With two trees or more, the last leaf of the forest is still in the queue, and no leaf follows it. */
  lemma LastLeafIsInQueue(fs: seq<Shape>) returns (i: nat)
    requires |fs| > 1 && AllBuilt(fs)
    ensures LastAtLevelZero(QueueForm(fs), i)
    ensures AllTips(fs) != [] && QueueForm(fs)[i] == Last(AllTips(fs))
  {
    var t := Last(fs);
    assert Perfect(Value(t)) && Last(AllTips(fs)) == Last(Tips(t));
    assert QueueForm(fs) == QueueForm(Init(fs)) + Postorder(t);
    hide AllBuilt, AllTips, QueueForm, Perfect, Value, Tips, Postorder;
    LastTipIsLastAtLevelZero(t);
    assert LastAtLevelZero(Postorder(t), LastTipPosition(t));
    LastAtLevelZeroOfSum(QueueForm(Init(fs)), Postorder(t), LastTipPosition(t));
    i := |QueueForm(Init(fs))| + LastTipPosition(t);
  }

  /** From position n on, the leaves are padding leaves with consecutive indices after b. */
  ghost predicate PaddingTips(p: seq<MHTNode>, n: nat, b: int)
    reads p
  {
    forall j :: n <= j < |p| ==> p[j].pageNo == b + 1 + (j - n) && p[j].hash == ZERO_HASH && p[j].isSupplement
  }

  /** A zero leaf enters the queue (mht.c:215-219). */
  method EnqueueZero(q: Queue, index: int, ghost fs: seq<Shape>, ghost all: set<MHTNode>) returns (node: MHTNode)
    requires q.Valid() && q.Fifo() && Counter(fs) && all == AllNodes(fs) && InternalsUnflagged(fs)
    modifies q, q.repr
    ensures q.Valid() && q.header == old(q.header)
    ensures q.contents == old(q.contents) + [node]
    ensures q.Fifo() && q.entered == old(q.entered) + [node]
    ensures fresh(q.repr - old(q.repr)) && old(q.repr) <= q.repr
    ensures fresh(node) && Built(Tip(node))
    ensures node.pageNo == index && node.hash == ZERO_HASH && node.isSupplement && node.level == NODELEVEL_LEAF
    ensures Counter(fs) && InternalsUnflagged(fs) && LevelsOf(fs) == old(LevelsOf(fs))
  {
    hide Built, AllNodes, Counter, LevelsOf, InternalsUnflagged, Queue.Valid;
    assert allocated(AllNodes(fs));
    node := MakeZeroMHTNode(index);
    EnqueueLeaf(q, node, fs, all);
  }

  /** The body of the padding loop (mht.c:215-256). */
  method PadOne(q: Queue, index: int, ghost fs: seq<Shape>, ghost all: set<MHTNode>)
    returns (ghost gs: seq<Shape>, node: MHTNode, ghost steps: nat, ghost now: set<MHTNode>)
    requires q.Valid() && Counter(fs) && q.contents == QueueForm(fs)
    requires q.Fifo() && q.entered == AllPostorder(fs)
    requires all == AllNodes(fs) && InternalsUnflagged(fs)
    modifies q, q.repr, all`isSupplement
    ensures q.Valid() && q.header == old(q.header)
    ensures fresh(q.repr - old(q.repr))
    ensures Counter(gs) && q.contents == QueueForm(gs)
    ensures q.Fifo() && q.entered == AllPostorder(gs)
    ensures now == AllNodes(gs) && fresh(now - all) && InternalsUnflagged(gs)
    ensures forall x :: x in all ==> x.isSupplement == old(x.isSupplement)
    ensures AllTips(gs) == AllTips(fs) + [node] && fresh(node)
    ensures node.pageNo == index && node.hash == ZERO_HASH && node.isSupplement
    ensures gs != [] && (|gs| > 1 ==> fs != [] && gs[0] == fs[0])
    ensures |gs| == 1 && gs[0].Fork? ==> fs != [] && gs[0].left == fs[0]
    ensures steps + old(Potential(LevelsOf(fs))) <= Potential(LevelsOf(gs))
  {
    hide Built, Linked, Value, Separate, Nodes, Postorder, AllNodes, QueueForm, Tips,
      AllTips, AllPostorder, LevelsOf, Potential, PoppedFor, Counter, Queue.Valid;
    assert allocated(AllNodes(fs));
    node := EnqueueZero(q, index, fs, all);
    ghost var leaf := Tip(node);
    gs, steps := ScanAndPop(q, false, fs, leaf, all + {node});
    now := AllNodes(gs);
    assert now - all <= (now - (all + {node})) + {node};
  }

  /** The level of the first tree stays h until a single tree of level h + 1 is left. */
  ghost predicate Growing(fs: seq<Shape>, h: nat)
    reads AllNodes(fs)`level
  {
    fs != [] && (LevelsOf(fs)[0] == h || (|fs| == 1 && LevelsOf(fs)[0] == h + 1))
  }

  lemma FirstLevel(fs: seq<Shape>)
    requires fs != [] && Counter(fs)
    ensures AllBuilt(fs) && Descending(LevelsOf(fs))
    ensures fs[0].node in AllNodes(fs) && LevelsOf(fs)[0] == fs[0].node.level
    ensures Last(fs).node in AllNodes(fs) && Last(LevelsOf(fs)) == Last(fs).node.level
    ensures |AllTips(fs)| == Total(LevelsOf(fs))
    ensures QueueForm(fs) != [] && QueueForm(fs)[0] == fs[0].node && Last(QueueForm(fs)) == Last(fs).node
  {
    LevelsAt(fs, 0);
    AllTipsCount(fs);
    QueueFormEnds(fs);
    QueueFormStarts(fs);
  }

  /** While the tail is not above level h there is room for more leaves; afterwards one full tree is left. */
  lemma PaddingProgress(fs: seq<Shape>, h: nat)
    requires Counter(fs) && Growing(fs, h)
    ensures if Last(LevelsOf(fs)) <= h then LevelsOf(fs)[0] == h && |AllTips(fs)| < 2 * Pow2(h)
      else |fs| == 1 && LevelsOf(fs)[0] == h + 1 && |AllTips(fs)| == 2 * Pow2(h)
  {
    FirstLevel(fs);
    LevelProgress(LevelsOf(fs), h);
  }

  lemma LevelProgress(ls: seq<nat>, h: nat)
    requires ls != [] && Descending(ls)
    requires ls[0] == h || (|ls| == 1 && ls[0] == h + 1)
    ensures if Last(ls) <= h then ls[0] == h && Total(ls) < 2 * Pow2(h)
      else |ls| == 1 && ls[0] == h + 1 && Total(ls) == 2 * Pow2(h)
  {
    TotalBounds(ls);
    assert |ls| == 1 ==> Init(ls) == [];
  }

  lemma {:induction false} FirstTreeBuilt(fs: seq<Shape>)
    requires fs != [] && AllBuilt(fs)
    ensures fs[0].node in AllNodes(fs) && Nodes(fs[0]) <= AllNodes(fs) && Built(fs[0])
  {
    if |fs| > 1 {
      FirstTreeBuilt(Init(fs));
    }
  }

  lemma StillGrowing(fs: seq<Shape>, gs: seq<Shape>, h: nat)
    requires Counter(fs) && Counter(gs) && fs != [] && gs != []
    requires LevelsOf(fs)[0] == h
    requires |AllTips(gs)| == |AllTips(fs)| + 1
    requires |gs| > 1 ==> gs[0] == fs[0]
    requires |gs| == 1 && gs[0].Fork? ==> gs[0].left == fs[0]
    ensures Growing(gs, h)
  {
    hide Built, Value, Linked, Counter, AllBuilt, Separate;
    FirstLevel(fs);
    FirstLevel(gs);
    if |gs| == 1 {
      OnlyTree(gs);
      TotalBounds(LevelsOf(fs));
    }
  }

  lemma RootInNodes(s: Shape)
    ensures s.node in Nodes(s)
  {
  }

  lemma OnlyTree(gs: seq<Shape>)
    requires |gs| == 1 && AllBuilt(gs)
    ensures AllTips(gs) == Tips(gs[0])
    ensures gs[0].Fork? ==> gs[0].left.node in AllNodes(gs) && gs[0].node.level == gs[0].left.node.level + 1
  {
    hide Linked, Indexed, Hashed, BuildHash;
    assert Init(gs) == [] && Last(gs) == gs[0];
    assert Perfect(Value(gs[0]));
    if gs[0].Fork? {
      RootInNodes(gs[0].left);
    }
  }

  lemma NoPadding(p: seq<MHTNode>, b: int)
    ensures PaddingTips(p, |p|, b)
  {
  }

  lemma QueueEnds(q: Queue)
    requires q.Valid() && q.contents != []
    ensures q.tail.ptr == Last(q.contents)
    ensures q.header.next != null && q.header.next.ptr == q.contents[0]
    ensures q.header.qsize == |q.contents|
  {
    assert q.header.next == q.cells[1];
  }

  /** mht.c:207-211. */
  method StartOfPadding(q: Queue, ghost fs: seq<Shape>) returns (last: int)
    requires q.Valid() && Counter(fs) && q.contents == QueueForm(fs) && |fs| > 1
    ensures AllTips(fs) != [] && last == PaddingBase(old(Last(AllTips(fs)).pageNo))
  {
    hide QueueForm, AllTips, Queue.Valid, Counter, AllBuilt, AllNodes, LevelsOf;
    FirstLevel(fs);
    AllTipsInNodes(fs);
    ghost var i := LastLeafIsInQueue(fs);
    assert allocated(AllNodes(fs)) && allocated(q.contents);
    last := GetTheLastLeafNodeIndex(q);
    if last == UNASSIGNED_INDEX {
      last := DEF_UPPER_BOUND_INDEX;
    }
  }

  /** One iteration of the padding loop, with what it keeps: n leaves came from the data, b is the start of padding. */
  method PadStep(q: Queue, index: int, ghost fs: seq<Shape>, ghost h: nat, ghost n: nat, ghost b: int,
                 ghost all: set<MHTNode>)
    returns (ghost gs: seq<Shape>, ghost steps: nat, ghost now: set<MHTNode>)
    requires q.Valid() && Counter(fs) && q.contents == QueueForm(fs)
    requires q.Fifo() && q.entered == AllPostorder(fs)
    requires all == AllNodes(fs) && InternalsUnflagged(fs)
    requires fs != [] && LevelsOf(fs)[0] == h
    requires n <= |AllTips(fs)| && PaddingTips(AllTips(fs), n, b) && index == b + 1 + (|AllTips(fs)| - n)
    modifies q, q.repr, all`isSupplement
    ensures q.Valid() && fresh(q.repr - old(q.repr))
    ensures Counter(gs) && q.contents == QueueForm(gs)
    ensures q.Fifo() && q.entered == AllPostorder(gs) && Growing(gs, h)
    ensures now == AllNodes(gs) && fresh(now - all) && InternalsUnflagged(gs)
    ensures forall x :: x in all ==> x.isSupplement == old(x.isSupplement)
    ensures AllTips(fs) <= AllTips(gs) && |AllTips(gs)| == |AllTips(fs)| + 1
    ensures PaddingTips(AllTips(gs), n, b)
    ensures q.tail.ptr != null && q.tail.ptr.level == Last(LevelsOf(gs))
    ensures steps + old(Potential(LevelsOf(fs))) <= Potential(LevelsOf(gs))
  {
    hide Built, Linked, Value, Separate, Nodes, Postorder, AllNodes, QueueForm, Tips,
      AllTips, AllPostorder, LevelsOf, Potential, PoppedFor, Counter, InternalsUnflagged, Queue.Valid;
    AllTipsInNodes(fs);
    assert allocated(AllNodes(fs));
    ghost var node;
    gs, node, steps, now := PadOne(q, index, fs, all);
    StillGrowing(fs, gs, h);
    FirstLevel(gs);
    QueueEnds(q);
  }

  /** deal_with_remaining_nodes_in_queue: zero leaves are appended until one tree is left. */
  method DealWithRemainingNodes(q: Queue, ghost fs: seq<Shape>, ghost all: set<MHTNode>)
    returns (ghost gs: seq<Shape>, ghost steps: nat, ghost now: set<MHTNode>)
    requires q.Valid() && Counter(fs) && q.contents == QueueForm(fs)
    requires q.Fifo() && q.entered == AllPostorder(fs)
    requires |fs| > 1 && all == AllNodes(fs) && InternalsUnflagged(fs)
    requires AllTips(fs) != [] && |AllTips(fs)| <= 2 * Pow2(LevelsOf(fs)[0])
    // The indices of the padding leaves do not overflow a signed int.
    requires PaddingBase(Last(AllTips(fs)).pageNo) + (2 * Pow2(LevelsOf(fs)[0]) - |AllTips(fs)|) <= MAX_SIGNED_INT
    modifies q, q.repr, all`isSupplement
    ensures q.Valid() && fresh(q.repr - old(q.repr))
    ensures Counter(gs) && |gs| == 1 && q.contents == QueueForm(gs)
    ensures q.Fifo() && q.entered == AllPostorder(gs)
    ensures now == AllNodes(gs) && fresh(now - all) && InternalsUnflagged(gs)
    ensures forall x :: x in all ==> x.isSupplement == old(x.isSupplement)
    ensures AllTips(fs) <= AllTips(gs)
    ensures |AllTips(gs)| == 2 * Pow2(old(LevelsOf(fs)[0]))
    ensures LevelsOf(gs) == [old(LevelsOf(fs)[0]) + 1]
    ensures PaddingTips(AllTips(gs), |AllTips(fs)|, PaddingBase(old(Last(AllTips(fs)).pageNo)))
    ensures steps + old(Potential(LevelsOf(fs))) <= Potential(LevelsOf(gs))
  {
    hide Built, Linked, Value, Separate, Nodes, Postorder, AllNodes, QueueForm, Tips,
      AllTips, AllPostorder, LevelsOf, Potential, PoppedFor, Counter, InternalsUnflagged, PaddingTips, Queue.Valid;
    FirstLevel(fs);
    var last := StartOfPadding(q, fs);
    QueueEnds(q);
    var headLevel := q.header.next.ptr.level;
    ghost var h: nat := LevelsOf(fs)[0];
    ghost var n, b := |AllTips(fs)|, last;
    gs, steps, now := fs, 0, all;
    PaddingProgress(fs, h);
    NoPadding(AllTips(fs), b);
    while q.tail.ptr.level <= headLevel
      invariant q.Valid() && fresh(q.repr - old(q.repr))
      invariant Counter(gs) && q.contents == QueueForm(gs)
      invariant q.Fifo() && q.entered == AllPostorder(gs) && Growing(gs, h)
      invariant q.tail.ptr != null && q.tail.ptr.level == Last(LevelsOf(gs))
      invariant now == AllNodes(gs) && fresh(now - all) && InternalsUnflagged(gs)
      invariant forall x :: x in all ==> x.isSupplement == old(x.isSupplement)
      invariant AllTips(fs) <= AllTips(gs) && last == b + (|AllTips(gs)| - n)
      invariant PaddingTips(AllTips(gs), n, b)
      invariant |AllTips(gs)| <= 2 * Pow2(h)
      invariant steps + old(Potential(LevelsOf(fs))) <= Potential(LevelsOf(gs))
      decreases 2 * Pow2(h) - |AllTips(gs)|
    {
      PaddingProgress(gs, h);
      assert last < MAX_SIGNED_INT;
      last := last + 1;
      ghost var more;
      gs, more, now := PadStep(q, last, gs, h, n, b, now);
      steps := steps + more;
    }
    PaddingProgress(gs, h);
  }

  // ----- The builder -----

  /** The first tips are the data elements, in order. */
  ghost predicate DataTips(p: seq<MHTNode>, ds: DataSet, i: nat)
    requires WellFormed(ds)
    reads p`pageNo, p`hash
  {
    i <= |p| && i <= |ds.elems|
    && forall j :: 0 <= j < i ==> p[j].pageNo == ds.elems[j].index && p[j].hash == LeafHash(ds, j)
  }

  /** The hash of a leaf (mht.c:53-61). */
  method HashElement(ds: DataSet, i: nat) returns (d: Digest)
    requires WellFormed(ds) && i < |ds.elems|
    ensures d == LeafHash(ds, i)
  {
    hide Sha256;
    var buf := new byte[32];
    if !ds.isHashed {
      var ctx := new Sha256Impl.SHA256_CTX();
      ctx.Init();
      ctx.Update(ds.elems[i].data, []);
      assert [] + ds.elems[i].data == ds.elems[i].data;
      ctx.Final(buf, ds.elems[i].data);
    } else {
      forall k | 0 <= k < 32 {
        buf[k] := ds.elems[i].data[k];
      }
      assert buf[..] == ds.elems[i].data[..32];
    }
    assert buf[..32] == buf[..];
    d := buf[..];
  }

  /** The node for a data element (mht.c:53-62). */
  method MakeLeaf(ds: DataSet, i: nat) returns (node: MHTNode)
    requires WellFormed(ds) && i < |ds.elems|
    ensures fresh(node) && Built(Tip(node))
    ensures node.pageNo == ds.elems[i].index && node.hash == LeafHash(ds, i) && !node.isSupplement
  {
    hide LeafHash;
    var d := HashElement(ds, i);
    node := new MHTNode(ds.elems[i].index, NODELEVEL_LEAF, d);
  }

  /** A leaf for a data element enters the queue (mht.c:53-65). */
  method EnqueueElement(q: Queue, ds: DataSet, i: nat, ghost fs: seq<Shape>, ghost all: set<MHTNode>)
    returns (node: MHTNode)
    requires WellFormed(ds) && i < |ds.elems|
    requires q.Valid() && q.Fifo() && Counter(fs) && all == AllNodes(fs) && DataFlags(fs) && InternalsUnflagged(fs)
    modifies q, q.repr
    ensures q.Valid() && q.header == old(q.header)
    ensures q.contents == old(q.contents) + [node]
    ensures q.Fifo() && q.entered == old(q.entered) + [node]
    ensures fresh(q.repr - old(q.repr)) && old(q.repr) <= q.repr
    ensures fresh(node) && Built(Tip(node))
    ensures node.pageNo == ds.elems[i].index && node.hash == LeafHash(ds, i) && !node.isSupplement
    ensures Counter(fs) && DataFlags(fs) && InternalsUnflagged(fs) && LevelsOf(fs) == old(LevelsOf(fs))
  {
    hide Built, AllNodes, Counter, LevelsOf, DataFlags, InternalsUnflagged, LeafHash, Queue.Valid;
    assert allocated(AllNodes(fs));
    node := MakeLeaf(ds, i);
    EnqueueLeaf(q, node, fs, all);
  }

  /** The body of the loop over the dataset (mht.c:53-67). */
  method AddElement(q: Queue, ds: DataSet, i: nat, ghost fs: seq<Shape>, ghost all: set<MHTNode>)
    returns (ghost gs: seq<Shape>, ghost steps: nat, ghost now: set<MHTNode>)
    requires WellFormed(ds) && i < |ds.elems|
    requires q.Valid() && Counter(fs) && q.contents == QueueForm(fs)
    requires q.Fifo() && q.entered == AllPostorder(fs)
    requires all == AllNodes(fs) && DataFlags(fs) && InternalsUnflagged(fs)
    requires |AllTips(fs)| == i && DataTips(AllTips(fs), ds, i)
    modifies q, q.repr, all`isSupplement
    ensures q.Valid() && fresh(q.repr - old(q.repr))
    ensures Counter(gs) && q.contents == QueueForm(gs)
    ensures q.Fifo() && q.entered == AllPostorder(gs)
    ensures now == AllNodes(gs) && fresh(now - all) && DataFlags(gs) && InternalsUnflagged(gs)
    ensures |AllTips(gs)| == i + 1 && DataTips(AllTips(gs), ds, i + 1)
    ensures steps + old(Potential(LevelsOf(fs))) <= Potential(LevelsOf(gs))
  {
    hide Built, Linked, Value, Separate, Nodes, Postorder, AllNodes, QueueForm, Tips,
      AllTips, AllPostorder, LevelsOf, Potential, Counter, LeafHash, Queue.Valid;
    AllTipsInNodes(fs);
    assert allocated(AllNodes(fs));
    var node := EnqueueElement(q, ds, i, fs, all);
    ghost var base := all + {node};
    gs, steps := ProcessQueue(q, fs, Tip(node), base);
    now := AllNodes(gs);
    assert fresh(now - base);
    assert now - all <= (now - base) + {node};
  }

  /** The test m_qsize > 1 after the data phase: one tree is left exactly when n is a power of two. */
  lemma SizeTest(fs: seq<Shape>)
    requires fs != [] && Counter(fs)
    ensures AllTips(fs) != []
    ensures |QueueForm(fs)| > 1 <==> |fs| > 1
    ensures LevelsOf(fs)[0] == Log2(|AllTips(fs)|)
    ensures if |fs| == 1 then |AllTips(fs)| == Pow2(LevelsOf(fs)[0]) && Depth(|AllTips(fs)|) == LevelsOf(fs)[0]
      else Depth(|AllTips(fs)|) == LevelsOf(fs)[0] + 1
    ensures |fs| == 1 <==> |AllTips(fs)| == Pow2(Depth(|AllTips(fs)|))
  {
    hide Counter, AllTips, QueueForm, AllNodes, LevelsOf, AllBuilt;
    FirstLevel(fs);
    QueueFormSize(fs);
    SizeOfLevels(LevelsOf(fs));
  }

  lemma SizeOfLevels(ls: seq<nat>)
    requires ls != [] && Descending(ls)
    ensures Total(ls) > 0
    ensures QueueSize(ls) > 1 <==> |ls| > 1
    ensures ls[0] == Log2(Total(ls))
    ensures if |ls| == 1 then Total(ls) == Pow2(ls[0]) && Depth(Total(ls)) == ls[0]
      else Depth(Total(ls)) == ls[0] + 1 && Total(ls) < 2 * Pow2(ls[0])
  {
    var h, n := ls[0], Total(ls);
    TotalBounds(ls);
    Log2Is(n, h);
    if |ls| == 1 {
      assert Init(ls) == [];
      if h > 0 {
        Pow2Monotone(h - 1, h);
      }
      DepthIs(n, h);
    } else {
      QueueSizeAtLeast(ls);
      DepthIs(n, h + 1);
    }
  }

  lemma {:induction false} QueueSizeAtLeast(ls: seq<nat>)
    requires ls != []
    ensures QueueSize(ls) >= |ls|
  {
    if |ls| > 1 {
      QueueSizeAtLeast(Init(ls));
    }
  }

  lemma ValueLevel(s: Shape)
    ensures Value(s).level == s.node.level
  {
  }

  /** The finished tree: its leaves are the padded records, so it is the halving tree over them. */
  lemma FinishedTree(s: Shape, ds: DataSet)
    requires ds.elems != [] && WellFormed(ds)
    requires Built(s) && s.node.level == Depth(|ds.elems|)
    requires DataTips(Tips(s), ds, |ds.elems|)
    requires PaddingTips(Tips(s), |ds.elems|, PaddingBase(LastElemIndex(ds)))
    ensures Value(s) == Halving(PaddedRecords(ds), Depth(|ds.elems|), BuildHash)
  {
    hide BuildHash, LeafHash, Halving, Linked, Perfect, Indexed, Hashed, Leaves, Tips, Value;
    var t := Value(s);
    TreeIsHalving(t, BuildHash);
    TipsAreLeaves(s);
    ValueLevel(s);
    assert Leaves(t) == PaddedRecords(ds);
  }

  lemma Nothing(ds: DataSet)
    requires WellFormed(ds)
    ensures Counter([]) && QueueForm([]) == [] && AllNodes([]) == {} && AllTips([]) == [] && AllPostorder([]) == []
    ensures DataFlags([]) && InternalsUnflagged([]) && DataTips([], ds, 0)
  {
  }

  /** The loop over the dataset (mht.c:52-68). */
  method AddElements(q: Queue, ds: DataSet) returns (ghost fs: seq<Shape>, ghost all: set<MHTNode>, ghost steps: nat)
    requires WellFormed(ds)
    requires q.Valid() && q.contents == []
    requires q.Fifo() && q.entered == []
    modifies q, q.repr
    ensures q.Valid() && fresh(q.repr - old(q.repr)) && fresh(all)
    ensures Counter(fs) && q.contents == QueueForm(fs)
    ensures q.Fifo() && q.entered == AllPostorder(fs)
    ensures all == AllNodes(fs) && DataFlags(fs) && InternalsUnflagged(fs)
    ensures |AllTips(fs)| == |ds.elems| && DataTips(AllTips(fs), ds, |ds.elems|)
    ensures ds.elems != [] ==> fs != []
    ensures steps <= Potential(LevelsOf(fs))
  {
    hide Built, Linked, Value, Separate, Nodes, Postorder, AllNodes, QueueForm, Tips,
      AllTips, AllPostorder, LevelsOf, Potential, Counter, LeafHash, DataTips, DataFlags, InternalsUnflagged,
      Queue.Valid;
    fs, all, steps := [], {}, 0;
    Nothing(ds);
    var i := 0;
    while i < |ds.elems|
      invariant i <= |ds.elems| && fresh(q.repr - old(q.repr)) && fresh(all)
      invariant q.Valid() && Counter(fs) && q.contents == QueueForm(fs)
      invariant q.Fifo() && q.entered == AllPostorder(fs)
      invariant all == AllNodes(fs) && DataFlags(fs) && InternalsUnflagged(fs)
      invariant |AllTips(fs)| == i && DataTips(AllTips(fs), ds, i)
      invariant steps <= Potential(LevelsOf(fs))
    {
      ghost var more;
      fs, more, all := AddElement(q, ds, i, fs, all);
      steps := steps + more;
      i := i + 1;
    }
    if fs == [] {
      Nothing(ds);
    }
  }

  /** The flags after the data phase, by position. */
  lemma FlagsByPosition(fs: seq<Shape>, ds: DataSet)
    requires ds.elems != [] && WellFormed(ds)
    requires fs != [] && Counter(fs) && DataFlags(fs)
    requires |AllTips(fs)| == |ds.elems| && DataTips(AllTips(fs), ds, |ds.elems|)
    ensures forall j :: 0 <= j < |ds.elems| ==> AllTips(fs)[j].isSupplement == FlaggedData(ds, j)
  {
    hide LeafHash, Counter, AllNodes, AllTips, Tips, LevelsOf;
    SizeTest(fs);
    FirstTips(fs);
    FirstTipsCount(fs);
    AllTipsDistinct(fs);
    AllTipsInNodes(fs);
    PrefixMembers(AllTips(fs), Tips(fs[0]));
  }

  lemma PrefixMembers(p: seq<MHTNode>, a: seq<MHTNode>)
    requires a <= p && NoDuplicates(p)
    ensures forall j :: 0 <= j < |p| ==> (p[j] in a <==> j < |a|)
  {
  }

  lemma FirstTipsCount(fs: seq<Shape>)
    requires fs != [] && Counter(fs)
    ensures |Tips(fs[0])| == Pow2(LevelsOf(fs)[0])
    ensures fs[0].Fork? <==> LevelsOf(fs)[0] > 0
    ensures AllSeparate(fs)
  {
    LevelsAt(fs, 0);
    FirstTreeBuilt(fs);
    TipsAreLeaves(fs[0]);
    PerfectSize(Value(fs[0]));
  }

  /** What the leaves of the finished tree hold. */
  ghost predicate FinishedTips(p: seq<MHTNode>, ds: DataSet)
    requires ds.elems != [] && WellFormed(ds)
    reads p
  {
    && |p| == PaddedSize(ds)
    && DataTips(p, ds, |ds.elems|)
    && PaddingTips(p, |ds.elems|, PaddingBase(LastElemIndex(ds)))
    && forall j :: 0 <= j < |ds.elems| ==> p[j].isSupplement == FlaggedData(ds, j)
  }

  /** The data phase and, when more than one element is left, the padding phase (mht.c:52-72). */
  method FillQueue(q: Queue, ds: DataSet) returns (ghost gs: seq<Shape>, ghost now: set<MHTNode>, ghost steps: nat)
    requires ds.elems != [] && WellFormed(ds) && PaddingFits(ds)
    requires q.Valid() && q.contents == []
    requires q.Fifo() && q.entered == []
    modifies q, q.repr
    ensures q.Valid() && fresh(q.repr - old(q.repr))
    ensures |gs| == 1 && Counter(gs) && q.contents == QueueForm(gs)
    ensures q.Fifo() && q.entered == AllPostorder(gs)
    ensures now == AllNodes(gs) && fresh(now) && InternalsUnflagged(gs)
    ensures LevelsOf(gs) == [Depth(|ds.elems|)] && FinishedTips(AllTips(gs), ds)
    ensures steps <= Potential(LevelsOf(gs))
  {
    hide Built, Linked, Value, Separate, Nodes, Postorder, AllNodes, QueueForm, Tips,
      AllTips, AllPostorder, LevelsOf, Potential, Counter, LeafHash, DataFlags, InternalsUnflagged, PaddingTips,
      FlaggedData, PaddingBase, Depth, Log2, Pow2, Queue.Valid;
    gs, now, steps := AddElements(q, ds);
    SizeTest(gs);
    FlagsByPosition(gs, ds);
    NoPadding(AllTips(gs), PaddingBase(LastElemIndex(ds)));
    QueueFormEnds(gs);
    QueueEnds(q);
    if q.header.qsize > 1 {
      ghost var more;
      PaddingStart(gs, ds);
      AllTipsInNodes(gs);
      gs, more, now := DealWithRemainingNodes(q, gs, now);
      steps := steps + more;
    }
  }

  /** create_mht_from_ordered_ds. */
  method CreateMht(ds: DataSet)
    returns (root: MHTNode, freed: seq<MHTNode>, ghost s: Shape, ghost steps: nat,
             ghost entered: seq<MHTNode>, ghost left: seq<MHTNode>)
    requires ds.elems != [] && WellFormed(ds) && PaddingFits(ds)
    ensures s.node == root && Linked(s) && Separate(s) && fresh(Nodes(s))
    ensures Value(s) == Halving(PaddedRecords(ds), Depth(|ds.elems|), BuildHash)
    // The leaves, one by one: first the elements, then hashes of the character "0".
    ensures |Tips(s)| == PaddedSize(ds)
    ensures forall j :: 0 <= j < |ds.elems| ==>
      && Tips(s)[j].pageNo == ds.elems[j].index && Tips(s)[j].isSupplement == FlaggedData(ds, j)
      && Tips(s)[j].hash == if ds.isHashed then ds.elems[j].data[..32] else Sha256(ds.elems[j].data)
    ensures forall j :: |ds.elems| <= j < PaddedSize(ds) ==>
      && Tips(s)[j].pageNo == PaddingBase(LastElemIndex(ds)) + 1 + (j - |ds.elems|) && Tips(s)[j].isSupplement
      && Tips(s)[j].hash == Sha256([0x30])
    ensures forall n :: n in Nodes(s) && n.level > 0 ==> !n.isSupplement
    ensures freed == []
    // Every node of the tree was enqueued and dequeued exactly once, both in postorder.
    ensures entered == left == Postorder(s) && NoDuplicates(entered) && |entered| == 2 * PaddedSize(ds) - 1
    ensures steps <= PaddedSize(ds) * Depth(|ds.elems|)
  {
    hide Built, Linked, Value, Separate, Nodes, Postorder, AllNodes, QueueForm, Tips,
      AllTips, AllPostorder, LevelsOf, Potential, Counter, LeafHash, BuildHash, Halving, DataTips, PaddingTips,
      FinishedTips, FlaggedData, PaddingBase, Sha256, Depth, Pow2, Log2, PaddedRecords, WellFormed, NoDuplicates;
    var q := new Queue();
    ghost var gs, now;
    gs, now, steps := FillQueue(q, ds);
    s := gs[0];
    SingleTree(gs);
    FinishedParts(Tips(s), ds);
    FinishedTree(s, ds);
    FinishedPostorder(s);
    entered := q.entered;
    assert allocated(Nodes(s)) && allocated(Tips(s));
    var popped := q.Dequeue();
    root := popped.ptr;
    freed := q.Free();
    left := q.left;
    TipsHold(Tips(s), ds);
  }

  lemma FinishedParts(p: seq<MHTNode>, ds: DataSet)
    requires ds.elems != [] && WellFormed(ds) && FinishedTips(p, ds)
    ensures DataTips(p, ds, |ds.elems|) && PaddingTips(p, |ds.elems|, PaddingBase(LastElemIndex(ds)))
  {
  }

  lemma TipsHold(p: seq<MHTNode>, ds: DataSet)
    requires ds.elems != [] && WellFormed(ds) && FinishedTips(p, ds)
    ensures |p| == PaddedSize(ds)
    ensures forall j :: 0 <= j < |ds.elems| ==>
      && p[j].pageNo == ds.elems[j].index && p[j].isSupplement == FlaggedData(ds, j)
      && p[j].hash == if ds.isHashed then ds.elems[j].data[..32] else Sha256(ds.elems[j].data)
    ensures forall j :: |ds.elems| <= j < PaddedSize(ds) ==>
      && p[j].pageNo == PaddingBase(LastElemIndex(ds)) + 1 + (j - |ds.elems|) && p[j].isSupplement
      && p[j].hash == Sha256([0x30])
  {
    hide Sha256, FlaggedData, PaddingBase, Depth;
    AnswerZero.KnownDigest();
    assert forall j :: 0 <= j < |ds.elems| ==>
      LeafHash(ds, j) == if ds.isHashed then ds.elems[j].data[..32] else Sha256(ds.elems[j].data);
  }

  lemma FinishedPostorder(s: Shape)
    requires Built(s) && Separate(s)
    ensures NoDuplicates(Postorder(s)) && |Postorder(s)| == 2 * Pow2(s.node.level) - 1
  {
    PostorderDistinct(s);
    PostorderSize(s);
  }

  lemma SingleTree(gs: seq<Shape>)
    requires |gs| == 1 && Counter(gs)
    ensures AllTips(gs) == Tips(gs[0]) && AllNodes(gs) == Nodes(gs[0]) && AllPostorder(gs) == Postorder(gs[0])
    ensures QueueForm(gs) == [gs[0].node]
    ensures Built(gs[0]) && Separate(gs[0]) && Linked(gs[0])
    ensures LevelsOf(gs) == [gs[0].node.level]
    ensures Potential(LevelsOf(gs)) == Pow2(gs[0].node.level) * gs[0].node.level
  {
    hide Linked, Perfect, Indexed, Hashed, Value, Separate, Nodes, Tips;
    assert Init(gs) == [] && Last(gs) == gs[0];
    FirstLevel(gs);
    PotentialOfOne(LevelsOf(gs));
  }

  lemma PotentialOfOne(ls: seq<nat>)
    requires |ls| == 1
    ensures Potential(ls) == Pow2(ls[0]) * ls[0]
  {
    assert Init(ls) == [];
  }

  /** What PaddingFits says of the forest after the data phase. */
  lemma PaddingStart(fs: seq<Shape>, ds: DataSet)
    requires ds.elems != [] && WellFormed(ds) && PaddingFits(ds)
    requires |fs| > 1 && Counter(fs) && |AllTips(fs)| == |ds.elems| && DataTips(AllTips(fs), ds, |ds.elems|)
    ensures Last(AllTips(fs)).pageNo == LastElemIndex(ds)
    ensures |AllTips(fs)| <= 2 * Pow2(LevelsOf(fs)[0]) == PaddedSize(ds)
    ensures PaddingBase(LastElemIndex(ds)) + (2 * Pow2(LevelsOf(fs)[0]) - |AllTips(fs)|) <= MAX_SIGNED_INT
  {
    hide LeafHash, Counter, AllTips, LevelsOf;
    SizeTest(fs);
  }
}
