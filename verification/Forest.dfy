/** The forest that the queue holds between two leaves, and how it lies in the queue. */
module Forest {
  import opened MhtDefs
  import opened MerkleTree
  import opened Powers
  import opened Levels
  import opened Seqs

  ghost function AllNodes(fs: seq<Shape>): set<MHTNode> {
    if fs == [] then {} else AllNodes(Init(fs)) + Nodes(Last(fs))
  }

  /** All leaf nodes from left to right. */
  ghost function AllTips(fs: seq<Shape>): seq<MHTNode> {
    if fs == [] then [] else AllTips(Init(fs)) + Tips(Last(fs))
  }

  /** The queue for a forest: the root of the first tree, then every other tree in postorder. */
  ghost function QueueForm(fs: seq<Shape>): seq<MHTNode> {
    if fs == [] then []
    else if |fs| == 1 then [fs[0].node]
    else QueueForm(Init(fs)) + Postorder(Last(fs))
  }

  /** All nodes, tree by tree in postorder. */
  ghost function AllPostorder(fs: seq<Shape>): seq<MHTNode> {
    if fs == [] then [] else AllPostorder(Init(fs)) + Postorder(Last(fs))
  }

  lemma {:induction false} AllTipsInNodes(fs: seq<Shape>)
    ensures AllIn(AllTips(fs), AllNodes(fs))
  {
    if fs != [] {
      AllTipsInNodes(Init(fs));
      TipsInNodes(Last(fs));
    }
  }

  lemma {:induction false} QueueFormInNodes(fs: seq<Shape>)
    ensures AllIn(QueueForm(fs), AllNodes(fs))
  {
    if fs != [] {
      QueueFormInNodes(Init(fs));
      PostorderInNodes(Last(fs));
      assert fs[0].node in Nodes(fs[0]);
    }
  }

  /** No node occurs twice in the forest. */
  ghost predicate AllSeparate(fs: seq<Shape>) {
    fs != [] ==> AllSeparate(Init(fs)) && Separate(Last(fs)) && AllNodes(Init(fs)) !! Nodes(Last(fs))
  }

  ghost predicate AllBuilt(fs: seq<Shape>)
    reads AllNodes(fs)`lchild, AllNodes(fs)`rchild, AllNodes(fs)`pageNo, AllNodes(fs)`level, AllNodes(fs)`hash
  {
    fs != [] ==> AllBuilt(Init(fs)) && Built(Last(fs))
  }

  ghost function LevelsOf(fs: seq<Shape>): (ls: seq<nat>)
    reads AllNodes(fs)`level
    ensures |ls| == |fs|
  {
    if fs == [] then [] else LevelsOf(Init(fs)) + [Last(fs).node.level]
  }

  /** A binary counter of perfect trees. */
  ghost predicate Counter(fs: seq<Shape>)
    reads AllNodes(fs)`lchild, AllNodes(fs)`rchild, AllNodes(fs)`pageNo, AllNodes(fs)`level, AllNodes(fs)`hash
  {
    AllSeparate(fs) && AllBuilt(fs) && Descending(LevelsOf(fs))
  }

  lemma Snoc(fs: seq<Shape>, t: Shape)
    ensures Init(fs + [t]) == fs && Last(fs + [t]) == t
  {
  }

  lemma {:induction false} LevelsAt(fs: seq<Shape>, i: nat)
    requires i < |fs|
    ensures fs[i].node in AllNodes(fs)
    ensures LevelsOf(fs)[i] == fs[i].node.level
  {
    if i < |fs| - 1 {
      LevelsAt(Init(fs), i);
    }
  }

  lemma {:induction false} PostorderSize(s: Shape)
    requires Perfect(Value(s))
    ensures |Postorder(s)| == 2 * Pow2(s.node.level) - 1
  {
    if s.Fork? {
      PostorderSize(s.left);
      PostorderSize(s.right);
    }
  }

  /** In postorder every node before the root is at a lower level than the root. */
  lemma {:induction false} LowerBeforeRoot(s: Shape)
    requires Perfect(Value(s))
    ensures forall i :: 0 <= i < |Postorder(s)| - 1 ==> Postorder(s)[i].level < s.node.level
  {
    if s.Fork? {
      LowerBeforeRoot(s.left);
      LowerBeforeRoot(s.right);
      var p, q := Postorder(s.left), Postorder(s.right);
      assert forall i :: 0 <= i < |p| ==> p[i].level <= s.left.node.level;
      assert forall i :: 0 <= i < |q| ==> q[i].level <= s.right.node.level;
    }
  }

  /** The length of the queue follows from the levels. */
  lemma {:induction false} QueueFormSize(fs: seq<Shape>)
    requires AllBuilt(fs)
    ensures |QueueForm(fs)| == QueueSize(LevelsOf(fs))
  {
    if |fs| > 1 {
      QueueFormSize(Init(fs));
      PostorderSize(Last(fs));
    }
  }

  lemma {:induction false} TipsAreLeaves(s: Shape)
    ensures |Leaves(Value(s))| == |Tips(s)|
    ensures forall j :: 0 <= j < |Tips(s)| ==> Leaves(Value(s))[j] == Record(Tips(s)[j].pageNo, Tips(s)[j].hash)
  {
    if s.Fork? {
      TipsAreLeaves(s.left);
      TipsAreLeaves(s.right);
    }
  }

  /** A forest has as many leaves as its levels say. */
  lemma {:induction false} AllTipsCount(fs: seq<Shape>)
    requires AllBuilt(fs)
    ensures |AllTips(fs)| == Total(LevelsOf(fs))
  {
    if fs != [] {
      assert AllBuilt(Init(fs)) && Perfect(Value(Last(fs)));
      TipsAreLeaves(Last(fs));
      PerfectSize(Value(Last(fs)));
      assert |Tips(Last(fs))| == Pow2(Last(fs).node.level);
      assert Init(LevelsOf(fs)) == LevelsOf(Init(fs));
      AllTipsCount(Init(fs));
    }
  }

  ghost predicate NoDuplicates(p: seq<MHTNode>) {
    forall i, j :: 0 <= i < j < |p| ==> p[i] != p[j]
  }

  lemma {:induction false} TipsDistinct(s: Shape)
    requires Separate(s)
    ensures NoDuplicates(Tips(s))
  {
    if s.Fork? {
      TipsInNodes(s.left);
      TipsInNodes(s.right);
      TipsDistinct(s.left);
      TipsDistinct(s.right);
    }
  }

  lemma DistinctSum(a: seq<MHTNode>, b: seq<MHTNode>, n: MHTNode, x: set<MHTNode>, y: set<MHTNode>)
    requires NoDuplicates(a) && NoDuplicates(b) && AllIn(a, x) && AllIn(b, y)
    requires x !! y && n !in x && n !in y
    ensures NoDuplicates(a + b + [n])
  {
  }

  /** In a tree without repeated nodes the postorder lists every node once. */
  lemma {:induction false} PostorderDistinct(s: Shape)
    requires Separate(s)
    ensures NoDuplicates(Postorder(s))
  {
    if s.Fork? {
      PostorderDistinct(s.left);
      PostorderDistinct(s.right);
      PostorderInNodes(s.left);
      PostorderInNodes(s.right);
      DistinctSum(Postorder(s.left), Postorder(s.right), s.node, Nodes(s.left), Nodes(s.right));
    }
  }

  lemma {:induction false} AllTipsDistinct(fs: seq<Shape>)
    requires AllSeparate(fs)
    ensures NoDuplicates(AllTips(fs))
  {
    if fs != [] {
      AllTipsInNodes(Init(fs));
      TipsInNodes(Last(fs));
      AllTipsDistinct(Init(fs));
      TipsDistinct(Last(fs));
    }
  }

  // ----- The last leaf in the queue -----

  /** The position of the last leaf of a tree in its postorder. */
  ghost function LastTipPosition(s: Shape): nat {
    match s
    case Tip(_) => 0
    case Fork(_, l, r) => |Postorder(l)| + LastTipPosition(r)
  }

  lemma {:induction false} LastTipIsLastAtLevelZero(s: Shape)
    requires Perfect(Value(s))
    ensures LastTipPosition(s) < |Postorder(s)|
    ensures Postorder(s)[LastTipPosition(s)] == Last(Tips(s))
    ensures Last(Tips(s)).level == NODELEVEL_LEAF
    ensures forall i :: LastTipPosition(s) < i < |Postorder(s)| ==> Postorder(s)[i].level > NODELEVEL_LEAF
  {
    if s.Fork? {
      assert Perfect(Value(s.right)) && s.node.level > NODELEVEL_LEAF;
      LastTipIsLastAtLevelZero(s.right);
      var l, r, p := Postorder(s.left), Postorder(s.right), LastTipPosition(s.right);
      assert Postorder(s) == l + r + [s.node] && Last(Tips(s)) == Last(Tips(s.right));
      assert LastTipPosition(s) == |l| + p;
      hide Perfect, Value, Postorder, Tips, LastTipPosition;
      assert (l + r + [s.node])[|l| + p] == r[p];
      assert forall i :: |l| + p < i < |l| + |r| ==> (l + r + [s.node])[i] == r[i - |l|];
    }
  }
}
