/** Which leaves of the built tree the descents of getMHash and updateMTree reach: all of them, or at
    least those of the dataset. */
module Reachability {
  import opened Bytes
  import opened Powers
  import opened MerkleTree
  import opened MerkleIndex
  import opened MapSemantics
  import opened MhtDefs
  import opened Hashing
  import opened Dataset
  import opened Theorems

  // ----- Trees whose leaves are in order up to some position -----

  /** A leaf that is not above the leaf before it is never reached. */
  lemma {:induction false} DropIsMissed(t: Tree, j: nat, ord: Order)
    requires Indexed(t) && 0 < j < |Leaves(t)|
    requires ord(Leaves(t)[j].index) <= ord(Leaves(t)[j - 1].index)
    ensures !Reaches(t, j, ord)
  {
    hide Reaches;
    ReachesInNode(t, j, ord);
    var a, b := Leaves(t.left), Leaves(t.right);
    assert Leaves(t) == a + b;
    if j < |a| {
      DropIsMissed(t.left, j, ord);
    } else if j == |a| {
      LastIndexIsLastLeaf(t.left);
    } else {
      DropIsMissed(t.right, j - |a|, ord);
    }
  }

  /** The descents for the first n leaves reach them. */
  predicate ReachesFirst(t: Tree, n: nat, ord: Order)
    requires n <= |Leaves(t)|
  {
    forall j :: 0 <= j < n ==> Reaches(t, j, ord)
  }

  /** The first c leaves ascend, and those after them, up to the last but one, are below leaf n - 1. */
  predicate DropsAfter(ls: seq<Record>, n: nat, c: nat, ord: Order) {
    && 0 < n <= c <= |ls| && Ascending(ls[..c], ord)
    && forall j :: c <= j < |ls| - 1 ==> ord(ls[j].index) < ord(ls[n - 1].index)
  }

  /** While the leaves of the left subtree ascend, its leaves are reached. */
  lemma LeftIsReached(t: Tree, c: nat, ord: Order)
    requires t.Node? && Indexed(t) && |Leaves(t.left)| <= c <= |Leaves(t)| && Ascending(Leaves(t)[..c], ord)
    ensures ReachesFirst(t, |Leaves(t.left)|, ord)
    ensures forall j :: |Leaves(t.left)| <= j < c ==> ord(t.index) < ord(Leaves(t)[j].index)
  {
    var a, b, ls := Leaves(t.left), Leaves(t.right), Leaves(t);
    var p, m := ls[..c], |a|;
    assert ls == a + b && Indexed(t.left);
    LastIndexIsLastLeaf(t.left);
    assert p[m - 1] == a[m - 1];
    hide Reaches, Leaves, Indexed;
    assert forall j :: 0 <= j < c ==> p[j] == ls[j];
    assert forall j :: 0 <= j < m ==> a[j] == p[j];
    forall j | 0 <= j < m
      ensures Reaches(t, j, ord)
    {
      assert j < m - 1 ==> ord(p[j].index) < ord(p[m - 1].index);
      FindsEveryLeaf(t.left, j, ord);
      ReachingLeaf(t.left, j, ord);
      ReachesInNode(t, j, ord);
    }
  }

  lemma ReachingLeaf(t: Tree, j: nat, ord: Order)
    requires j < |Leaves(t)| && Position(t, ord(Leaves(t)[j].index), ord) == j
    ensures Reaches(t, j, ord)
  {
  }

  /** With a drop in the left subtree the leaf that is above everything after the drop is missed. */
  lemma DropInLeft(t: Tree, n: nat, c: nat, ord: Order)
    requires t.Node? && Indexed(t) && DropsAfter(Leaves(t), n, c, ord) && c < |Leaves(t.left)|
    ensures !Reaches(t, n - 1, ord)
  {
    var a, b, ls := Leaves(t.left), Leaves(t.right), Leaves(t);
    assert ls == a + b;
    assert |b| > 0;
    LastIndexIsLastLeaf(t.left);
    assert t.index == ls[|a| - 1].index;
    hide Leaves, Reaches, Indexed;
    assert ord(ls[|a| - 1].index) < ord(ls[n - 1].index);
    ReachesInNode(t, n - 1, ord);
  }

  lemma RestOfDrop(ls: seq<Record>, m: nat, n: nat, c: nat, ord: Order)
    requires DropsAfter(ls, n, c, ord) && m < n
    ensures DropsAfter(ls[m..], n - m, c - m, ord)
  {
    var b, p := ls[m..], ls[..c];
    assert b[n - m - 1] == ls[n - 1];
    assert b[..c - m] == p[m..];
    hide Ascending;
    RestAscends(p, m, ord);
    forall j | c - m <= j < |b| - 1
      ensures ord(b[j].index) < ord(b[n - m - 1].index)
    {
      assert ord(ls[m + j].index) < ord(ls[n - 1].index);
    }
  }

  lemma RestAscends(p: seq<Record>, m: nat, ord: Order)
    requires m <= |p| && Ascending(p, ord)
    ensures Ascending(p[m..], ord)
  {
    var q := p[m..];
    forall i, j | 0 <= i < j < |q|
      ensures ord(q[i].index) < ord(q[j].index)
    {
      assert ord(p[m + i].index) < ord(p[m + j].index);
    }
  }

  lemma RightLeaves(t: Tree)
    requires t.Node?
    ensures |Leaves(t.left)| < |Leaves(t)| && Leaves(t)[|Leaves(t.left)|..] == Leaves(t.right)
  {
  }

  lemma RightIsReached(t: Tree, j: nat, ord: Order)
    requires t.Node? && |Leaves(t.left)| <= j < |Leaves(t)| && ord(t.index) < ord(Leaves(t)[j].index)
    ensures Reaches(t, j, ord) <==> Reaches(t.right, j - |Leaves(t.left)|, ord)
  {
    ReachesInNode(t, j, ord);
  }

  /** With the drop in the right subtree, the right subtree decides. */
  lemma DropInRight(t: Tree, n: nat, c: nat, ord: Order)
    requires t.Node? && Indexed(t) && |Leaves(t.left)| < n <= c <= |Leaves(t)| && Ascending(Leaves(t)[..c], ord)
    ensures var m := |Leaves(t.left)|;
      && (ReachesFirst(t, n, ord) <==> ReachesFirst(t.right, n - m, ord))
      && (Reaches(t, n - 1, ord) <==> Reaches(t.right, n - m - 1, ord))
  {
    hide Leaves, Reaches, Indexed, Ascending;
    RightLeaves(t);
    var m := |Leaves(t.left)|;
    LeftIsReached(t, c, ord);
    RightIsReached(t, n - 1, ord);
    if ReachesFirst(t.right, n - m, ord) {
      forall i | m <= i < n
        ensures Reaches(t, i, ord)
      {
        RightIsReached(t, i, ord);
      }
    }
    if ReachesFirst(t, n, ord) {
      forall j | 0 <= j < n - m
        ensures Reaches(t.right, j, ord)
      {
        RightIsReached(t, m + j, ord);
      }
    }
  }

  lemma DepthAtMost(m: nat, k: nat)
    requires 0 < m <= Pow2(k)
    ensures Pow2(Depth(m)) <= Pow2(k)
  {
    if Depth(m) <= k {
      Pow2Monotone(Depth(m), k);
    } else {
      Pow2Monotone(k, Depth(m) - 1);
    }
  }

  lemma HalvesOf(t: Tree)
    requires t.Node? && Perfect(t) && Indexed(t)
    ensures t.level > 0 && |Leaves(t.left)| == |Leaves(t.right)| == Pow2(t.level - 1)
    ensures |Leaves(t)| == 2 * Pow2(t.level - 1) == Pow2(t.level)
    ensures Perfect(t.right) && Indexed(t.right)
  {
    PerfectSize(t.left);
    PerfectSize(t.right);
  }

  lemma DropNeedsNode(t: Tree, n: nat, c: nat, ord: Order)
    requires c < |Leaves(t)| && DropsAfter(Leaves(t), n, c, ord)
    ensures t.Node? && 0 < n <= c && Ascending(Leaves(t)[..c], ord)
  {
  }

  /** The drop at c hides one of the first n leaves, and then the last of them, unless the smallest aligned
      block that covers the leaves from c on leaves out the first n. */
  lemma {:induction false} DropHides(t: Tree, n: nat, c: nat, ord: Order)
    requires Perfect(t) && Indexed(t) && c < |Leaves(t)| && DropsAfter(Leaves(t), n, c, ord)
    ensures ReachesFirst(t, n, ord) <==> n + Pow2(Depth(|Leaves(t)| - c)) <= |Leaves(t)|
    ensures ReachesFirst(t, n, ord) <==> Reaches(t, n - 1, ord)
  {
    hide Reaches, Depth, Leaves, Pow2, Ascending, Perfect, Indexed, DropsAfter;
    DropNeedsNode(t, n, c, ord);
    HalvesOf(t);
    var m, h := |Leaves(t)| - c, |Leaves(t.left)|;
    if c < h {
      DepthIs(m, t.level);
      DropInLeft(t, n, c, ord);
    } else if n <= h {
      DepthAtMost(m, t.level - 1);
      LeftIsReached(t, c, ord);
    } else {
      DropInRight(t, n, c, ord);
      RightLeaves(t);
      RestOfDrop(Leaves(t), h, n, c, ord);
      DropHides(t.right, n - h, c - h, ord);
    }
  }

  // ----- The leaves of a dataset -----

  /** Ascending int indices to which padding adds ints. */
  predicate IntData(ds: DataSet) {
    && ds.elems != [] && WellFormed(ds) && AscendingData(ds) && PaddingFits(ds)
    && forall j :: 0 <= j < |ds.elems| ==> IsInt(ds.elems[j].index)
  }

  function PaddingCount(ds: DataSet): nat
    requires ds.elems != []
  {
    PaddedSize(ds) - |ds.elems|
  }

  /** The index of the last leaf of the tree. */
  function LastLeafIndex(ds: DataSet): int
    requires ds.elems != []
  {
    if PaddingCount(ds) == 0 then LastElemIndex(ds) else PaddingBase(LastElemIndex(ds)) + PaddingCount(ds)
  }

  /** The records, element by element and padding leaf by padding leaf. */
  lemma PaddedIndices(ds: DataSet)
    requires IntData(ds)
    ensures var rs, n := PaddedRecords(ds), |ds.elems|;
      && 0 < n <= |rs| == PaddedSize(ds)
      && (forall j :: 0 <= j < n ==> rs[j].index == ds.elems[j].index)
      && (forall j :: n <= j < |rs| ==> rs[j].index == PaddingBase(LastElemIndex(ds)) + 1 + (j - n))
      && rs[|rs| - 1].index == LastLeafIndex(ds)
      && (forall j :: 0 <= j < n ==> rs[0].index <= rs[j].index <= rs[n - 1].index == LastElemIndex(ds))
      && Ints(rs)
  {
    hide LeafHash, Depth;
    assert forall j :: 0 < j < |ds.elems| ==> ds.elems[0].index < ds.elems[j].index;
    assert forall j :: 0 <= j < |ds.elems| - 1 ==> ds.elems[j].index < ds.elems[|ds.elems| - 1].index;
  }

  /** The leaves have one sign exactly when the first element is not negative or the last leaf is negative. */
  lemma SignsOfPadded(ds: DataSet)
    requires IntData(ds)
    ensures Ints(PaddedRecords(ds))
    ensures UniformSign(PaddedRecords(ds)) <==> ds.elems[0].index >= 0 || LastLeafIndex(ds) < 0
  {
    hide PaddedRecords, Depth;
    PaddedIndices(ds);
  }

  /** No index is negative, or no leaf has an index that is not. */
  predicate OneSignOnly(ds: DataSet)
    requires ds.elems != []
  {
    ds.elems[0].index >= 0 || LastLeafIndex(ds) < 0
  }

  lemma NotAscending(rs: seq<Record>, i: nat, j: nat, ord: Order)
    requires i < j < |rs| && ord(rs[i].index) >= ord(rs[j].index)
    ensures !Ascending(rs, ord)
  {
  }

  lemma UnsignedOrder(ds: DataSet)
    requires IntData(ds)
    ensures Ascending(PaddedRecords(ds), Unsigned) <==> !Restarts(ds) && OneSignOnly(ds)
  {
    hide PaddedRecords, AscendingData, UniformSign, Ascending;
    var rs, n := PaddedRecords(ds), |ds.elems|;
    PaddedIndices(ds);
    PaddedIsAscending(ds);
    SignsOfPadded(ds);
    if Restarts(ds) {
      NotAscending(rs, n - 1, n, Unsigned);
    } else if OneSignOnly(ds) {
      UniformAscending(rs);
    } else {
      NotAscending(rs, 0, |rs| - 1, Unsigned);
    }
  }

  /** In the built tree the descents for the first n leaves reach them. */
  predicate ReachesLeaves(ds: DataSet, n: nat, ord: Order)
    requires ds.elems != [] && WellFormed(ds) && n <= PaddedSize(ds)
  {
    forall j :: 0 <= j < n ==> Position(BuiltTree(ds), ord(PaddedRecords(ds)[j].index), ord) == j
  }

  lemma ReachesOnLeaves(ds: DataSet, n: nat, ord: Order)
    requires ds.elems != [] && WellFormed(ds) && n <= PaddedSize(ds)
    ensures var t := BuiltTree(ds);
      && Perfect(t) && Indexed(t) && Leaves(t) == PaddedRecords(ds)
      && (ReachesLeaves(ds, n, ord) <==> ReachesFirst(t, n, ord))
  {
    hide BuiltTree, PaddedRecords, PaddedSize, WellFormed, Hashed, Leaves, Perfect, Indexed, Position;
    BuiltTreeFacts(ds);
    var t := BuiltTree(ds);
    assert forall j :: 0 <= j < n ==>
      (Reaches(t, j, ord) <==> Position(t, ord(PaddedRecords(ds)[j].index), ord) == j);
  }

  /** updateMTree reaches every leaf of the built tree if and only if padding does not restart; getMHash,
      if and only if, besides, the first element is not negative or the last leaf is negative. */
  lemma ReachesAllOfDataset(ds: DataSet)
    requires IntData(ds)
    ensures ReachesLeaves(ds, PaddedSize(ds), Signed) <==> !Restarts(ds)
    ensures ReachesLeaves(ds, PaddedSize(ds), Unsigned) <==> !Restarts(ds) && OneSignOnly(ds)
  {
    hide BuiltTree, PaddedRecords, Reaches, Ascending, Indexed, Perfect, Restarts, OneSignOnly, ReachesLeaves;
    PaddedIsAscending(ds);
    UnsignedOrder(ds);
    ReachesOnLeaves(ds, PaddedSize(ds), Signed);
    ReachesOnLeaves(ds, PaddedSize(ds), Unsigned);
    FindsAllExactly(BuiltTree(ds), Signed);
    FindsAllExactly(BuiltTree(ds), Unsigned);
  }

  /** What getMHash then returns: for every leaf its hash.  Without a restart it does so in no other case. */
  lemma GetFindsAllOfDataset(ds: DataSet)
    requires IntData(ds)
    ensures var t, rs := BuiltTree(ds), PaddedRecords(ds);
      var found := forall j :: 0 <= j < PaddedSize(ds) ==>
        Lookup(t, Unsigned(rs[j].index), Unsigned) == Some(rs[j].hash);
      (!Restarts(ds) && OneSignOnly(ds) ==> found) && (!Restarts(ds) && found ==> OneSignOnly(ds))
  {
    hide BuiltTree, PaddedRecords, Lookup, Ascending, Ints, Indexed, UniformSign, Perfect, Hashed;
    if !Restarts(ds) {
      SignsOfPadded(ds);
      PaddedIsAscending(ds);
      BuiltTreeFacts(ds);
      GetFindsAllLeaves(BuiltTree(ds));
    }
  }

  // ----- The elements of a dataset -----

  predicate IsPowerOfTwo(m: nat) { m > 0 && Pow2(Depth(m)) == m }

  /** When an order agrees with the ints on all leaves, all elements are reached if and only if padding
      does not restart or the number of padding leaves is a power of two. */
  lemma ReachesElements(ds: DataSet, ord: Order)
    requires IntData(ds)
    requires forall i :: 0 <= i < PaddedSize(ds) ==> ord(PaddedRecords(ds)[i].index) == PaddedRecords(ds)[i].index
    ensures ReachesLeaves(ds, |ds.elems|, ord) <==> (Restarts(ds) ==> IsPowerOfTwo(PaddingCount(ds)))
  {
    hide BuiltTree, PaddedRecords, AscendingData, Reaches, Indexed, Perfect, ReachesLeaves, DropsAfter, Ascending,
      Leaves, Halving, WellFormed, Depth, Pow2;
    var t, rs, n := BuiltTree(ds), PaddedRecords(ds), |ds.elems|;
    ReachesOnLeaves(ds, n, ord);
    ReachesOnLeaves(ds, PaddedSize(ds), ord);
    if Restarts(ds) {
      ElementsAscend(ds, ord);
      DropHides(t, n, n, ord);
    } else {
      PaddedIsAscending(ds);
      SameOrder(rs, ord);
      FindsAllExactly(t, ord);
    }
  }

  lemma SameOrder(rs: seq<Record>, ord: Order)
    requires Ascending(rs, Signed) && forall i :: 0 <= i < |rs| ==> ord(rs[i].index) == rs[i].index
    ensures Ascending(rs, ord)
  {
    assert forall i, j :: 0 <= i < j < |rs| ==> Signed(rs[i].index) < Signed(rs[j].index);
  }

  lemma ElementsAscend(ds: DataSet, ord: Order)
    requires IntData(ds) && Restarts(ds)
    requires forall i :: 0 <= i < PaddedSize(ds) ==> ord(PaddedRecords(ds)[i].index) == PaddedRecords(ds)[i].index
    ensures DropsAfter(PaddedRecords(ds), |ds.elems|, |ds.elems|, ord)
  {
    hide PaddedRecords, PaddedSize, WellFormed;
    var rs, n := PaddedRecords(ds), |ds.elems|;
    PaddedIndices(ds);
    var p := rs[..n];
    assert forall j :: 0 <= j < n ==> p[j] == rs[j] && p[j].index == ds.elems[j].index;
    assert forall i, j :: 0 <= i < j < n ==> ds.elems[i].index < ds.elems[j].index;
  }

  /** updateMTree reaches every element if and only if padding does not restart or the number of padding
      leaves is a power of two. */
  lemma UpdateReachesElements(ds: DataSet)
    requires IntData(ds)
    ensures ReachesLeaves(ds, |ds.elems|, Signed) <==> (Restarts(ds) ==> IsPowerOfTwo(PaddingCount(ds)))
  {
    hide BuiltTree, PaddedRecords, ReachesLeaves;
    ReachesElements(ds, Signed);
  }

  lemma NoNegativeLeaf(ds: DataSet)
    requires IntData(ds) && ds.elems[0].index >= 0
    ensures forall i :: 0 <= i < PaddedSize(ds) ==> Unsigned(PaddedRecords(ds)[i].index) == PaddedRecords(ds)[i].index
  {
    hide PaddedRecords;
    PaddedIndices(ds);
  }

  lemma {:induction false} SignChange(rs: seq<Record>, k: nat) returns (c: nat)
    requires 0 < k < |rs| && rs[0].index < 0 <= rs[k].index
    ensures 0 < c <= k && rs[c - 1].index < 0 <= rs[c].index
  {
    if rs[k - 1].index < 0 {
      c := k;
    } else {
      c := SignChange(rs, k - 1);
    }
  }

  /** With elements of both signs getMHash misses one. */
  lemma MixedElements(ds: DataSet)
    requires IntData(ds) && ds.elems[0].index < 0 <= LastElemIndex(ds)
    ensures !ReachesLeaves(ds, |ds.elems|, Unsigned)
  {
    hide BuiltTree, PaddedRecords, Reaches, Indexed, Perfect, ReachesLeaves, Leaves;
    var rs, n := PaddedRecords(ds), |ds.elems|;
    PaddedIndices(ds);
    ReachesOnLeaves(ds, n, Unsigned);
    var c := SignChange(rs, n - 1);
    DropIsMissed(BuiltTree(ds), c, Unsigned);
  }

  lemma NegativeThenNot(ds: DataSet)
    requires IntData(ds) && LastElemIndex(ds) < 0 <= LastLeafIndex(ds)
    ensures DropsAfter(PaddedRecords(ds), |ds.elems|, PaddedSize(ds) - (LastLeafIndex(ds) + 1), Unsigned)
  {
    hide PaddedRecords, Ascending;
    var rs, n := PaddedRecords(ds), |ds.elems|;
    PaddedIndices(ds);
    PaddedIsAscending(ds);
    var c := |rs| - (LastLeafIndex(ds) + 1);
    NegativePrefix(rs, c);
  }

  lemma NegativePrefix(rs: seq<Record>, c: nat)
    requires c <= |rs| && Ascending(rs, Signed) && Ints(rs) && forall j :: 0 <= j < c ==> rs[j].index < 0
    ensures Ascending(rs[..c], Unsigned)
  {
    assert forall i, j :: 0 <= i < j < c ==> Signed(rs[i].index) < Signed(rs[j].index);
  }

  /** getMHash reaches every element in exactly these cases.  Without negative elements: as updateMTree does.
      Otherwise: the elements are all negative, and the leaves that are not, if there are any, fit an aligned
      block of padding leaves. */
  lemma GetReachesElements(ds: DataSet)
    requires IntData(ds)
    ensures ds.elems[0].index >= 0 ==>
      (ReachesLeaves(ds, |ds.elems|, Unsigned) <==> (Restarts(ds) ==> IsPowerOfTwo(PaddingCount(ds))))
    ensures ds.elems[0].index < 0 ==>
      (ReachesLeaves(ds, |ds.elems|, Unsigned) <==>
        LastElemIndex(ds) < 0 && (LastLeafIndex(ds) < 0 || Pow2(Depth(LastLeafIndex(ds) + 1)) <= PaddingCount(ds)))
  {
    hide BuiltTree, PaddedRecords, Reaches, Indexed, Perfect, Leaves, DropsAfter, IsPowerOfTwo, Pow2, Depth, Ascending;
    var n := |ds.elems|;
    if ds.elems[0].index >= 0 {
      NoNegativeLeaf(ds);
      ReachesElements(ds, Unsigned);
    } else if LastElemIndex(ds) >= 0 {
      MixedElements(ds);
    } else if LastLeafIndex(ds) < 0 {
      ReachesAllOfDataset(ds);
    } else {
      ReachesOnLeaves(ds, n, Unsigned);
      NegativeThenNot(ds);
      DropHides(BuiltTree(ds), n, PaddedSize(ds) - (LastLeafIndex(ds) + 1), Unsigned);
    }
  }

  /** With a restart and a number of padding leaves that is no power of two, the last element is out of
      reach: getMHash does not find it and updateMTree changes nothing. */
  lemma LastElementIsHidden(ds: DataSet, x: Digest)
    requires IntData(ds) && Restarts(ds) && !IsPowerOfTwo(PaddingCount(ds)) && LastLeafIndex(ds) != UNASSIGNED_INDEX
    ensures Update(BuiltTree(ds), LastElemIndex(ds), x, Signed, FullHash) == BuiltTree(ds)
    ensures ds.elems[0].index >= 0 ==> Lookup(BuiltTree(ds), Unsigned(LastElemIndex(ds)), Unsigned) == None
  {
    HiddenFrom(ds, Signed);
    if ds.elems[0].index >= 0 {
      NoNegativeLeaf(ds);
      HiddenFrom(ds, Unsigned);
    }
  }

  lemma HiddenFrom(ds: DataSet, ord: Order)
    requires IntData(ds) && Restarts(ds) && !IsPowerOfTwo(PaddingCount(ds)) && LastLeafIndex(ds) != UNASSIGNED_INDEX
    requires forall i :: 0 <= i < PaddedSize(ds) ==> ord(PaddedRecords(ds)[i].index) == PaddedRecords(ds)[i].index
    ensures Lookup(BuiltTree(ds), ord(LastElemIndex(ds)), ord) == None
  {
    hide BuiltTree, PaddedRecords, Indexed, Perfect, Leaves, DropsAfter, Position, Find;
    var t, rs, n := BuiltTree(ds), PaddedRecords(ds), |ds.elems|;
    PaddedIndices(ds);
    ReachesOnLeaves(ds, n, ord);
    ElementsAscend(ds, ord);
    DropHides(t, n, n, ord);
    FindIsLeaf(t, ord(LastElemIndex(ds)), ord);
  }

  // ----- Inputs at which leaves are missed -----

  /** A dataset of three unhashed elements with empty data. */
  function Three(a: int, b: int, c: int): DataSet {
    DataSet([DataElem(a, []), DataElem(b, []), DataElem(c, [])], false)
  }

  lemma ThreeIsPaddedToFour(a: int, b: int, c: int)
    ensures WellFormed(Three(a, b, c)) && PaddedSize(Three(a, b, c)) == 4
    ensures a < b < c ==> AscendingData(Three(a, b, c))
    ensures -TWO31 <= a < b < c < UNASSIGNED_INDEX ==>
      IntData(Three(a, b, c)) && !Restarts(Three(a, b, c)) && LastLeafIndex(Three(a, b, c)) == c + 1
  {
    DepthIs(3, 2);
    assert Pow2(2) == 4;
  }

  /** Indices 0, 1 and 0x7fffffff: padding restarts at 0x70000001, below the last element. */
  lemma PaddingRestarts()
    ensures var ds := Three(0, 1, UNASSIGNED_INDEX);
      && WellFormed(ds) && AscendingData(ds) && PaddingFits(ds)
      && PaddedRecords(ds)[3].index == 0x7000_0001
      && !Ascending(PaddedRecords(ds), Signed)
  {
    hide LeafHash;
    var ds := Three(0, 1, UNASSIGNED_INDEX);
    ThreeIsPaddedToFour(0, 1, UNASSIGNED_INDEX);
    PaddedIsAscending(ds);
  }

  /** Indices 0, 1, 2, 3 and 0x7fffffff. */
  function Five(): DataSet {
    DataSet([DataElem(0, []), DataElem(1, []), DataElem(2, []), DataElem(3, []), DataElem(UNASSIGNED_INDEX, [])], false)
  }

  lemma FiveIsPaddedToEight()
    ensures IntData(Five()) && Restarts(Five()) && PaddingCount(Five()) == 3 && LastLeafIndex(Five()) == 0x7000_0003
    ensures Five().elems[0].index == 0 && LastElemIndex(Five()) == UNASSIGNED_INDEX
  {
    DepthIs(5, 3);
    assert Pow2(3) == 8;
  }

  /** The last of the five elements is found by no lookup and changed by no update. */
  lemma FifthElementIsHidden(x: Digest)
    ensures IntData(Five())
    ensures Lookup(BuiltTree(Five()), Unsigned(UNASSIGNED_INDEX), Unsigned) == None
    ensures Update(BuiltTree(Five()), UNASSIGNED_INDEX, x, Signed, FullHash) == BuiltTree(Five())
  {
    FiveIsPaddedToEight();
    DepthIs(3, 2);
    assert Pow2(2) == 4;
    hide BuiltTree, IntData, Restarts, PaddingCount, LastLeafIndex, Five, Lookup, Update, WellFormed;
    LastElementIsHidden(Five(), x);
  }

  /** Indices -3, -2 and -1: padding adds index 0, the leaves have both signs, and getMHash misses one. */
  lemma NegativeDataIsMissed() returns (j: nat)
    ensures var ds := Three(-3, -2, -1);
      && IntData(ds) && !UniformSign(PaddedRecords(ds))
      && j < 4 && |PaddedRecords(ds)| == 4
      && Lookup(BuiltTree(ds), Unsigned(PaddedRecords(ds)[j].index), Unsigned) == None
  {
    var ds := Three(-3, -2, -1);
    ThreeIsPaddedToFour(-3, -2, -1);
    hide IntData, WellFormed, LastLeafIndex, PaddedSize, AscendingData, LeafHash, BuiltTree, PaddedRecords, Lookup,
      Ascending, Ints, Indexed, UniformSign, Perfect, Hashed, Unsigned;
    SignsOfPadded(ds);
    PaddedIsAscending(ds);
    BuiltTreeFacts(ds);
    j := MixedSignsMiss(BuiltTree(ds));
    MissedLeafFails(BuiltTree(ds), j);
  }
}
