/** The part that the two phases of mht.c share: after a leaf has been enqueued, the backward scan
    merges equal levels and the pop loop removes what was consumed. */
module QueueScan {
  import opened MhtDefs
  import opened DbQueue
  import opened MerkleTree
  import opened Powers
  import opened Levels
  import opened Seqs
  import opened Forest

  /** The queue while a tree t is merged into the forest rest from the right.  When the first
      tree has been merged, its descendants are not in the queue: they were popped earlier. */
  ghost function ScanForm(rest: seq<Shape>, t: Shape): seq<MHTNode> {
    if rest != [] then QueueForm(rest) + Postorder(t)
    else if t.Tip? then [t.node]
    else [t.left.node] + Postorder(t.right) + [t.node]
  }

  /** rest and t are well formed, disjoint, and no tree of rest is at a lower level than t. */
  ghost predicate Mergeable(rest: seq<Shape>, t: Shape)
    reads AllNodes(rest)`lchild, AllNodes(rest)`rchild, AllNodes(rest)`pageNo, AllNodes(rest)`level, AllNodes(rest)`hash
    reads Nodes(t)`lchild, Nodes(t)`rchild, Nodes(t)`pageNo, Nodes(t)`level, Nodes(t)`hash
  {
    && Counter(rest) && Built(t) && Separate(t) && AllNodes(rest) !! Nodes(t)
    && (rest != [] ==> Last(LevelsOf(rest)) >= t.node.level)
  }

  lemma QueueFormEnds(fs: seq<Shape>)
    requires fs != []
    ensures |QueueForm(fs)| > 0 && Last(QueueForm(fs)) == Last(fs).node
  {
  }

  lemma ScanFormEnds(rest: seq<Shape>, t: Shape)
    ensures |ScanForm(rest, t)| > 0 && Last(ScanForm(rest, t)) == t.node
    ensures QueueForm(rest) <= ScanForm(rest, t) || rest == []
  {
  }

  lemma MergeForm(rest: seq<Shape>, t: Shape, n: MHTNode)
    requires rest != []
    ensures ScanForm(rest, t) + [n] == ScanForm(Init(rest), Fork(n, Last(rest), t))
  {
    if |rest| > 1 {
      var q, l, p := QueueForm(Init(rest)), Postorder(Last(rest)), Postorder(t);
      assert (q + l) + p + [n] == q + (l + p + [n]);
    }
  }

  lemma MergeIsMergeable(rest: seq<Shape>, t: Shape, up: Shape)
    requires rest != [] && Mergeable(rest, t)
    requires up == Fork(up.node, Last(rest), t) && Built(up) && Separate(up) && up.node !in AllNodes(rest)
    requires up.node.level == t.node.level + 1 && Last(rest).node.level == t.node.level
    ensures Mergeable(Init(rest), up)
  {
    var ls := LevelsOf(rest);
    assert LevelsOf(Init(rest)) == Init(ls);
    assert |rest| > 1 ==> ls[|ls| - 2] > ls[|ls| - 1];
  }

  lemma LastTree(rest: seq<Shape>, t: Shape)
    requires rest != [] && Mergeable(rest, t)
    ensures Built(t) && Separate(t) && Built(Last(rest)) && Separate(Last(rest)) && Nodes(Last(rest)) !! Nodes(t)
    ensures Nodes(Last(rest)) <= AllNodes(rest)
    ensures Last(LevelsOf(rest)) == Last(rest).node.level && Init(LevelsOf(rest)) == LevelsOf(Init(rest))
  {
  }

  /** The distance that the scan walks over a merged tree. */
  lemma MergeDistance(rest: seq<Shape>, t: Shape)
    requires rest != [] && Mergeable(rest, t) && Last(rest).node.level == t.node.level
    ensures if |rest| == 1 then |QueueForm(rest)| == 1 && QueueForm(Init(rest)) == []
      else 0 < |QueueForm(Init(rest))| == |QueueForm(rest)| + 1 - 2 * Pow2(t.node.level) < |QueueForm(rest)|
  {
    PostorderSize(Last(rest));
    if |rest| > 1 {
      QueueFormEnds(Init(rest));
    }
  }

  lemma MergeContents(rest: seq<Shape>, t: Shape, n: MHTNode)
    requires rest != []
    ensures var up := Fork(n, Last(rest), t);
      && AllTips(Init(rest)) + Tips(up) == AllTips(rest) + Tips(t)
      && AllNodes(Init(rest)) + Nodes(up) == AllNodes(rest) + Nodes(t) + {n}
  {
    hide AllTips, Tips, AllNodes, Nodes;
    UnfoldMerge(rest, t, n);
    var a, b, c := AllTips(Init(rest)), Tips(Last(rest)), Tips(t);
    assert a + (b + c) == (a + b) + c;
  }

  lemma UnfoldMerge(rest: seq<Shape>, t: Shape, n: MHTNode)
    requires rest != []
    ensures var up := Fork(n, Last(rest), t);
      Tips(up) == Tips(Last(rest)) + Tips(t) && Nodes(up) == {n} + Nodes(Last(rest)) + Nodes(t)
    ensures AllTips(rest) == AllTips(Init(rest)) + Tips(Last(rest))
    ensures AllNodes(rest) == AllNodes(Init(rest)) + Nodes(Last(rest))
  {
  }

  lemma MergePostorder(rest: seq<Shape>, t: Shape, n: MHTNode)
    requires rest != []
    ensures AllPostorder(Init(rest)) + Postorder(Fork(n, Last(rest), t)) == AllPostorder(rest) + Postorder(t) + [n]
  {
    var a, b, c := AllPostorder(Init(rest)), Postorder(Last(rest)), Postorder(t);
    assert AllPostorder(rest) == a + b;
    hide AllPostorder;
    assert a + (b + c + [n]) == (a + b) + c + [n];
  }

  /** One merge of the backward scan (mht.c:127-134 and 228-234). */
  method Merge(q: Queue, bkwd: QNODE, ghost rest: seq<Shape>, ghost t: Shape)
    returns (cbd: QNODE, ghost up: Shape)
    requires q.Valid() && rest != [] && Mergeable(rest, t)
    requires q.Fifo() && q.contents == ScanForm(rest, t)
    requires bkwd == q.cells[|QueueForm(rest)|]
    requires bkwd.ptr != null && bkwd.ptr.level == t.node.level
    modifies q, q.header`qsize, q.tail`next
    ensures q.Valid() && q.header == old(q.header)
    ensures fresh(cbd) && q.cells == old(q.cells) + [cbd] && q.repr == old(q.repr) + {cbd}
    ensures q.contents == ScanForm(Init(rest), up)
    ensures q.Fifo() && q.entered == old(q.entered) + [up.node]
    ensures up.Fork? && fresh(up.node) && up.left == Last(rest) && up.right == t
    ensures Mergeable(Init(rest), up)
    ensures AllTips(Init(rest)) + Tips(up) == AllTips(rest) + Tips(t)
    ensures AllPostorder(Init(rest)) + Postorder(up) == AllPostorder(rest) + Postorder(t) + [up.node]
    ensures AllNodes(Init(rest)) + Nodes(up) == AllNodes(rest) + Nodes(t) + {up.node}
    ensures Init(rest) == [] ==> |QueueForm(rest)| == 1 && QueueForm(Init(rest)) == []
    ensures Init(rest) != [] ==> |QueueForm(rest)| > |QueueForm(Init(rest))|
    // The potential grows by more than the distance that the scan now has before it.
    ensures |QueueForm(rest)| - |QueueForm(Init(rest))| + old(Potential(LevelsOf(rest)) + PotentialAt(t.node.level))
            <= Potential(LevelsOf(Init(rest))) + PotentialAt(up.node.level)
    ensures up.node.level == t.node.level + 1 && !up.node.isSupplement
    ensures cbd.ptr == up.node
  {
    hide Built, Linked, Value, Separate, Nodes, Postorder, AllNodes, QueueForm, Counter, Mergeable, ScanForm,
      AllTips, AllPostorder, Tips, LevelsOf, Potential, PotentialAt;
    ghost var l := Last(rest);
    QueueFormEnds(rest);
    LastTree(rest, t);
    ScanFormEnds(rest, t);
    MergePays(LevelsOf(rest));
    MergeDistance(rest, t);
    assert bkwd.ptr == l.node;
    assert allocated(AllNodes(rest)) && allocated(AllNodes(Init(rest))) && allocated(Nodes(t));
    var n;
    n, up := CombineNodes(bkwd.ptr, q.tail.ptr, l, t);
    assert allocated(Nodes(up));
    cbd := new QNODE(n);
    q.Enqueue(cbd);
    MergeForm(rest, t, n);
    MergeIsMergeable(rest, t, up);
    MergeContents(rest, t, n);
    MergePostorder(rest, t, n);
  }

  /** A stale node, or the root of the last tree, is what precedes position i of the scan. */
  lemma ScanNeighbour(rest: seq<Shape>, t: Shape, i: nat)
    requires Mergeable(rest, t) && rest != []
    requires |QueueForm(rest)| < i <= |ScanForm(rest, t)|
    ensures i >= 2
    ensures i - 1 > |QueueForm(rest)| ==> ScanForm(rest, t)[i - 2].level < t.node.level
    ensures i - 1 == |QueueForm(rest)| ==> ScanForm(rest, t)[i - 2] == Last(rest).node
    ensures Last(rest).node in AllNodes(rest) && Last(rest).node.level >= t.node.level
  {
    QueueFormEnds(rest);
    LowerBeforeRoot(t);
  }

  lemma ScanStart(fs: seq<Shape>, leaf: Shape)
    requires Counter(fs) && leaf.Tip? && Built(leaf) && leaf.node !in AllNodes(fs)
    ensures Mergeable(fs, leaf)
    ensures ScanForm(fs, leaf) == QueueForm(fs) + [leaf.node]
    ensures fs == [] ==> QueueForm(fs) == []
    ensures Nodes(leaf) == {leaf.node} && Tips(leaf) == Postorder(leaf) == [leaf.node] && leaf.node.level == 0
  {
  }

  /** When the scan stops, the merged tree takes its place at the end of the forest. */
  lemma ScanEnd(rest: seq<Shape>, t: Shape)
    requires Mergeable(rest, t)
    requires rest == [] || Last(rest).node.level != t.node.level
    ensures Counter(rest + [t])
    ensures AllTips(rest + [t]) == AllTips(rest) + Tips(t)
    ensures AllPostorder(rest + [t]) == AllPostorder(rest) + Postorder(t)
    ensures AllNodes(rest + [t]) == AllNodes(rest) + Nodes(t)
    ensures LevelsOf(rest + [t]) == LevelsOf(rest) + [t.node.level]
    ensures Potential(LevelsOf(rest + [t])) == Potential(LevelsOf(rest)) + PotentialAt(t.node.level)
  {
    hide AllTips, AllPostorder, AllNodes, LevelsOf, AllSeparate, AllBuilt, Built, Separate, Tips, Postorder, Nodes,
      Potential, PotentialAt;
    AppendedTree(rest, t);
    AppendedLevel(LevelsOf(rest), t.node.level);
    LevelOfLast(rest);
  }

  lemma AppendedTree(rest: seq<Shape>, t: Shape)
    ensures AllTips(rest + [t]) == AllTips(rest) + Tips(t)
    ensures AllPostorder(rest + [t]) == AllPostorder(rest) + Postorder(t)
    ensures AllNodes(rest + [t]) == AllNodes(rest) + Nodes(t)
    ensures LevelsOf(rest + [t]) == LevelsOf(rest) + [t.node.level]
    ensures AllBuilt(rest) && Built(t) ==> AllBuilt(rest + [t])
    ensures AllSeparate(rest) && Separate(t) && AllNodes(rest) !! Nodes(t) ==> AllSeparate(rest + [t])
  {
    hide Built, Separate, Tips, Postorder, Nodes;
    Snoc(rest, t);
  }

  lemma AppendedLevel(ls: seq<nat>, l: nat)
    ensures Potential(ls + [l]) == Potential(ls) + PotentialAt(l)
    ensures Descending(ls) && (ls != [] ==> Last(ls) > l) ==> Descending(ls + [l])
  {
    assert Init(ls + [l]) == ls && Last(ls + [l]) == l;
    hide PotentialAt;
  }

  lemma LevelOfLast(rest: seq<Shape>)
    ensures rest != [] ==> LevelsOf(rest) != [] && Last(LevelsOf(rest)) == Last(rest).node.level
  {
  }

  /** What the scan keeps while it merges: the queue holds the trees rest and t, which were made of the
      forest fs and the new leaf, with the nodes added as the roots of the merges. */
  ghost predicate Scanning(q: Queue, cbd: QNODE?, fs: seq<Shape>, leaf: Shape, rest: seq<Shape>, t: Shape,
                           added: set<MHTNode>)
    reads q, q.repr, cbd, AllNodes(rest), Nodes(t), added
  {
    && q.Valid() && Mergeable(rest, t) && rest <= fs && q.contents == ScanForm(rest, t)
    && q.Fifo() && q.entered == AllPostorder(rest) + Postorder(t)
    && (if cbd == null then t == leaf && rest == fs else t.Fork? && cbd == q.tail && cbd.ptr == t.node)
    && (rest == [] && t.Fork? ==> fs != [] && t.left == fs[0])
    && AllTips(rest) + Tips(t) == AllTips(fs) + [leaf.node]
    && AllNodes(rest) + Nodes(t) == AllNodes(fs) + {leaf.node} + added
    && forall n :: n in added ==> n.level > 0 && !n.isSupplement
  }

  /** A merge within the scan. */
  method MergeStep(q: Queue, bkwd: QNODE, cbd: QNODE?, ghost fs: seq<Shape>, ghost leaf: Shape,
                   ghost rest: seq<Shape>, ghost t: Shape, ghost added: set<MHTNode>)
    returns (top: QNODE, ghost up: Shape, ghost more: set<MHTNode>)
    requires Scanning(q, cbd, fs, leaf, rest, t, added)
    requires rest != [] && bkwd == q.cells[|QueueForm(rest)|]
    requires bkwd.ptr != null && bkwd.ptr.level == t.node.level
    modifies q, q.header`qsize, q.tail`next
    ensures Scanning(q, top, fs, leaf, Init(rest), up, more)
    ensures q.header == old(q.header) && fresh(more - added)
    ensures fresh(top) && q.cells == old(q.cells) + [top] && q.repr == old(q.repr) + {top}
    ensures Init(rest) == [] ==> |QueueForm(rest)| == 1 && QueueForm(Init(rest)) == []
    ensures Init(rest) != [] ==> |QueueForm(rest)| > |QueueForm(Init(rest))|
    ensures |QueueForm(rest)| - |QueueForm(Init(rest))| + old(Potential(LevelsOf(rest)) + PotentialAt(t.node.level))
            <= Potential(LevelsOf(Init(rest))) + PotentialAt(up.node.level)
  {
    hide Built, Linked, Value, Separate, Nodes, Postorder, AllNodes, QueueForm, Counter, Mergeable, ScanForm, Tips,
      AllTips, AllPostorder, LevelsOf, Potential, PotentialAt, Pow2, Queue.Fifo;
    assert allocated(added);
    top, up := Merge(q, bkwd, rest, t);
    more := added + {up.node};
  }

  /** The backward scan that follows every new leaf (mht.c:122-138 and 221-237). */
  method ScanBackward(q: Queue, ghost fs: seq<Shape>, ghost leaf: Shape)
    returns (cbd: QNODE?, ghost rest: seq<Shape>, ghost t: Shape, ghost steps: nat)
    requires q.Valid() && Counter(fs)
    requires leaf.Tip? && Built(leaf) && leaf.node !in AllNodes(fs)
    requires q.contents == QueueForm(fs) + [leaf.node]
    requires q.Fifo() && q.entered == AllPostorder(fs) + [leaf.node]
    modifies q, q.repr
    ensures q.Valid() && q.header == old(q.header)
    ensures fresh(q.repr - old(q.repr))
    ensures rest <= fs && q.contents == ScanForm(rest, t)
    ensures Counter(rest + [t])
    ensures AllTips(rest + [t]) == AllTips(fs) + [leaf.node]
    ensures q.Fifo() && q.entered == AllPostorder(rest + [t])
    ensures fresh(AllNodes(rest + [t]) - AllNodes(fs) - {leaf.node})
    ensures forall n :: n in AllNodes(rest + [t]) - AllNodes(fs) - {leaf.node} ==> n.level > 0 && !n.isSupplement
    ensures if cbd == null then t == leaf && rest == fs else t.Fork? && cbd == q.tail && cbd.ptr == t.node
    ensures rest == [] && t.Fork? ==> fs != [] && t.left == fs[0]
    ensures steps + old(Potential(LevelsOf(fs))) <= Potential(LevelsOf(rest + [t]))
  {
    hide Built, Linked, Value, Separate, Nodes, Postorder, AllNodes, QueueForm, Counter, Mergeable, ScanForm, Tips,
      AllTips, AllPostorder, LevelsOf, Potential, PotentialAt, Pow2, Queue.Fifo;
    var qnode := q.tail;
    ghost var i := |q.contents|;
    cbd, rest, t, steps := null, fs, leaf, 0;
    ghost var added: set<MHTNode> := {};
    ScanStart(fs, leaf);
    var bkwd := LookBackward(qnode);
    while bkwd != null && bkwd != q.header
      invariant Scanning(q, cbd, fs, leaf, rest, t, added)
      invariant q.header == old(q.header) && fresh(q.repr - old(q.repr)) && fresh(added)
      invariant 0 < i <= |q.contents| && qnode == q.cells[i] && bkwd == q.cells[i - 1]
      invariant if rest == [] then i == 1 && QueueForm(rest) == [] else |QueueForm(rest)| < i
      invariant steps + (i - 1 - |QueueForm(rest)|) + old(Potential(LevelsOf(fs)))
                <= Potential(LevelsOf(rest)) + PotentialAt(t.node.level)
      decreases i
    {
      ScanNeighbour(rest, t, i);
      ScanFormEnds(rest, t);
      if bkwd.ptr.level > q.tail.ptr.level {
        break;
      }
      if bkwd.ptr.level == q.tail.ptr.level {
        cbd, t, added := MergeStep(q, bkwd, cbd, fs, leaf, rest, t, added);
        rest := Init(rest);
      }
      qnode := qnode.prev;
      i := i - 1;
      steps := steps + 1;
      bkwd := LookBackward(qnode);
    }
    if rest != [] {
      QueueFormEnds(rest);
    }
    ScanEnd(rest, t);
  }

  /** The elements before position stop are below level bar, the one at stop is not. */
  ghost predicate FirstNotBelow(ns: seq<MHTNode>, bar: nat, stop: nat)
    reads ns`level
  {
    stop < |ns| && ns[stop].level >= bar && forall i :: 0 <= i < stop ==> ns[i].level < bar
  }

  lemma HeadMerged(t: Shape)
    requires Perfect(Value(t))
    ensures forall i :: 0 <= i < |ScanForm([], t)| - 1 ==> ScanForm([], t)[i].level < t.node.level
  {
    if t.Fork? {
      var p := Postorder(t.right);
      LowerBeforeRoot(t.right);
      assert forall i :: 0 <= i < |p| ==> p[i].level < t.node.level;
      assert ScanForm([], t) == [t.left.node] + p + [t.node];
    }
  }

  /** The number of elements that the pop loop removes. */
  ghost function Consumed(rest: seq<Shape>, t: Shape): nat {
    if rest == [] && t.Fork? then 1 + |Postorder(t.right)| else 0
  }

  /** When the first tree has been merged, all of the queue but the new root is consumed;
      otherwise the first element is not below the new root. */
  lemma ConsumedPrefix(rest: seq<Shape>, t: Shape)
    requires Counter(rest + [t])
    ensures FirstNotBelow(ScanForm(rest, t), t.node.level, Consumed(rest, t))
    ensures ScanForm(rest, t)[Consumed(rest, t)..] == QueueForm(rest + [t])
  {
    Snoc(rest, t);
    if rest == [] {
      HeadMerged(t);
    } else {
      LevelsAt(rest + [t], 0);
      LevelsAt(rest + [t], |rest|);
      QueueFormStarts(rest);
    }
  }

  lemma {:induction false} QueueFormStarts(fs: seq<Shape>)
    requires fs != []
    ensures |QueueForm(fs)| > 0 && QueueForm(fs)[0] == fs[0].node
  {
    if |fs| > 1 {
      QueueFormStarts(Init(fs));
    }
  }

  lemma ScanFormInNodes(rest: seq<Shape>, t: Shape)
    ensures AllIn(ScanForm(rest, t), AllNodes(rest + [t]))
  {
    Snoc(rest, t);
    QueueFormInNodes(rest);
    PostorderInNodes(t);
    if t.Fork? {
      PostorderInNodes(t.right);
      assert t.left.node in Nodes(t.left);
    }
  }

  /** A leaf that the data phase marks as supplementary when it is popped. */
  ghost predicate Markable(n: MHTNode)
    reads n`level, n`pageNo
  {
    n.level == NODELEVEL_LEAF && n.pageNo >= UNASSIGNED_INDEX
  }

  /** The pop loop after a merge (mht.c:141-158 and 238-248): the elements before the first one that
      is not below the new root leave the queue.  Only the loop of the data phase marks leaves. */
  method PopLower(q: Queue, cbd: QNODE, mark: bool, ghost stop: nat, ghost all: set<MHTNode>)
    requires q.Valid() && cbd == q.tail && cbd.ptr != null
    requires FirstNotBelow(q.contents, cbd.ptr.level, stop)
    requires q.Fifo() && AllIn(q.contents, all)
    modifies q, q.repr, all`isSupplement
    ensures q.Valid() && q.header == old(q.header)
    ensures q.repr == old(q.repr)
    ensures q.Fifo() && q.entered == old(q.entered)
    ensures q.contents == old(q.contents)[stop..]
    ensures forall n :: n in all ==>
      n.isSupplement == (old(n.isSupplement) || (mark && n in old(q.contents)[..stop] && Markable(n)))
  {
    ghost var c0 := q.contents;
    ghost var p := 0;
    hide Queue.Valid;
    var peeked := q.Peek();
    while peeked != null && peeked.ptr.level < cbd.ptr.level
      invariant q.Valid() && q.header == old(q.header)
      invariant q.repr == old(q.repr)
      invariant q.Fifo() && q.entered == old(q.entered)
      invariant p <= stop && q.contents == c0[p..] && q.tail == cbd && cbd.ptr == old(cbd.ptr)
      invariant peeked == q.Peek()
      invariant forall n :: n in all ==>
        n.isSupplement == (old(n.isSupplement) || (mark && n in c0[..p] && Markable(n)))
      decreases stop - p
    {
      var popped := q.Dequeue();
      if mark && popped.ptr.level == NODELEVEL_LEAF && popped.ptr.pageNo >= UNASSIGNED_INDEX {
        popped.ptr.isSupplement := true;
      }
      assert c0[..p + 1] == c0[..p] + [c0[p]];
      p := p + 1;
      peeked := q.Peek();
    }
  }

  /** The elements that leave the queue when the forest becomes gs. */
  ghost function PoppedFor(gs: seq<Shape>): seq<MHTNode> {
    if |gs| == 1 && gs[0].Fork? then [gs[0].left.node] + Postorder(gs[0].right) else []
  }

  lemma ConsumedIsPopped(rest: seq<Shape>, t: Shape)
    ensures Consumed(rest, t) <= |ScanForm(rest, t)|
    ensures t.Tip? ==> Consumed(rest, t) == 0
    ensures ScanForm(rest, t)[..Consumed(rest, t)] == PoppedFor(rest + [t])
  {
  }

  /** From one state of the binary counter to the next: a leaf has been enqueued, the scan merges and
      the pop loop removes what was consumed. */
  method ScanAndPop(q: Queue, mark: bool, ghost fs: seq<Shape>, ghost leaf: Shape, ghost base: set<MHTNode>)
    returns (ghost gs: seq<Shape>, ghost steps: nat)
    requires q.Valid() && Counter(fs)
    requires leaf.Tip? && Built(leaf) && leaf.node !in AllNodes(fs)
    requires q.contents == QueueForm(fs) + [leaf.node]
    requires q.Fifo() && q.entered == AllPostorder(fs) + [leaf.node]
    requires base == AllNodes(fs) + {leaf.node}
    modifies q, q.repr, base`isSupplement
    ensures q.Valid() && q.header == old(q.header)
    ensures fresh(q.repr - old(q.repr))
    ensures Counter(gs) && q.contents == QueueForm(gs)
    ensures q.Fifo() && q.entered == AllPostorder(gs)
    ensures AllTips(gs) == AllTips(fs) + [leaf.node]
    ensures fresh(AllNodes(gs) - base)
    ensures gs != [] && (|gs| > 1 ==> fs != [] && gs[0] == fs[0])
    ensures |gs| == 1 && gs[0].Fork? ==> fs != [] && gs[0].left == fs[0]
    ensures steps + old(Potential(LevelsOf(fs))) <= Potential(LevelsOf(gs))
    ensures forall n :: n in base ==>
      n.isSupplement == (old(n.isSupplement) || (mark && n in PoppedFor(gs) && Markable(n)))
    ensures forall n :: n in AllNodes(gs) - base ==> n.level > 0 && !n.isSupplement
  {
    hide Built, Linked, Value, Separate, Nodes, Postorder, AllNodes, QueueForm, Counter, ScanForm, Tips,
      AllTips, AllPostorder, LevelsOf, Potential, Consumed, PoppedFor;
    var cbd;
    ghost var rest, t;
    cbd, rest, t, steps := ScanBackward(q, fs, leaf);
    gs := rest + [t];
    ghost var all := AllNodes(gs);
    ConsumedPrefix(rest, t);
    ConsumedIsPopped(rest, t);
    ScanFormEnds(rest, t);
    ScanFormInNodes(rest, t);
    assert allocated(AllNodes(gs));
    if cbd != null {
      PopLower(q, cbd, mark, Consumed(rest, t), all);
    }
  }
}
