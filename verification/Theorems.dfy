/** The properties of the program as a whole: the built tree, its agreement with
    a rebuild after updates, and its behaviour as a finite map. */
module Theorems {
  import opened Bytes
  import opened Sha256Spec
  import opened Hashing
  import opened CombinedHashes
  import opened Powers
  import opened Levels
  import opened Seqs
  import opened MerkleTree
  import opened MerkleIndex
  import opened MapSemantics
  import opened MhtDefs
  import opened Forest
  import opened Dataset
  import AnswerZero
  import TreeOps

  /** The tree that create_mht_from_ordered_ds returns. */
  function BuiltTree(ds: DataSet): Tree
    requires ds.elems != [] && WellFormed(ds)
  {
    Halving(PaddedRecords(ds), Depth(|ds.elems|), BuildHash)
  }

  // ----- The built tree -----

  /** Shape, levels, separators, hashes and leaves of the built tree. */
  lemma BuiltTreeFacts(ds: DataSet)
    requires ds.elems != [] && WellFormed(ds)
    ensures var t := BuiltTree(ds);
      && Perfect(t) && Indexed(t) && Hashed(t, BuildHash)
      && Leaves(t) == PaddedRecords(ds) && t.level == Depth(|ds.elems|)
  {
    hide BuildHash, Halving, PaddedRecords;
    HalvingProperties(PaddedRecords(ds), Depth(|ds.elems|), BuildHash);
  }

  /** The leaves one by one: an element's index with the digest of its data, or with the digest that the
      data are; then indices that count on from the last one, with the digest of the character "0". */
  lemma LeavesOneByOne(ds: DataSet, j: nat)
    requires ds.elems != [] && WellFormed(ds) && j < PaddedSize(ds)
    ensures j < |ds.elems| && !ds.isHashed ==>
      PaddedRecords(ds)[j] == Record(ds.elems[j].index, Sha256(ds.elems[j].data))
    ensures j < |ds.elems| && ds.isHashed ==>
      PaddedRecords(ds)[j] == Record(ds.elems[j].index, ds.elems[j].data[..32])
    ensures j >= |ds.elems| ==>
      var n, last := |ds.elems|, ds.elems[|ds.elems| - 1].index;
      PaddedRecords(ds)[j] ==
        Record((if last == 0x7fff_ffff then 0x7000_0000 else last) + 1 + (j - n), Sha256([0x30]))
  {
    hide Sha256, Depth;
    AnswerZero.KnownDigest();
    assert Sha256([0x30]) == ZERO_HASH;
    var last := LastElemIndex(ds);
    assert PaddingBase(last) == if last == 0x7fff_ffff then 0x7000_0000 else last;
    assert j >= |ds.elems| ==> PaddedRecords(ds)[j] == Record(PaddingBase(last) + 1 + (j - |ds.elems|), ZERO_HASH);
  }

  predicate AscendingData(ds: DataSet) {
    forall i, j :: 0 <= i < j < |ds.elems| ==> ds.elems[i].index < ds.elems[j].index
  }

  /** There is padding, and because the last index is UNASSIGNED_INDEX it starts again at a lower index. */
  predicate Restarts(ds: DataSet)
    requires ds.elems != []
  {
    |ds.elems| < PaddedSize(ds) && LastElemIndex(ds) == UNASSIGNED_INDEX
  }

  /** The leaves of the built tree are in ascending order exactly when the elements are and padding does
      not restart. */
  lemma PaddedIsAscending(ds: DataSet)
    requires ds.elems != [] && WellFormed(ds)
    ensures Ascending(PaddedRecords(ds), Signed) <==> AscendingData(ds) && !Restarts(ds)
  {
    hide LeafHash;
    if AscendingData(ds) && !Restarts(ds) {
      AscendingIfDataIs(ds);
    }
    var n, rs := |ds.elems|, PaddedRecords(ds);
    if Ascending(rs, Signed) {
      forall i, j | 0 <= i < j < n
        ensures ds.elems[i].index < ds.elems[j].index
      {
        assert Signed(rs[i].index) < Signed(rs[j].index);
      }
      if n < |rs| {
        assert Signed(rs[n - 1].index) < Signed(rs[n].index);
        assert rs[n].index == PaddingBase(LastElemIndex(ds)) + 1;
      }
    }
  }

  lemma AscendingIfDataIs(ds: DataSet)
    requires ds.elems != [] && WellFormed(ds) && AscendingData(ds) && !Restarts(ds)
    ensures Ascending(PaddedRecords(ds), Signed)
  {
    hide LeafHash;
    var n, rs := |ds.elems|, PaddedRecords(ds);
    forall i, j | 0 <= i < j < |rs|
      ensures Signed(rs[i].index) < Signed(rs[j].index)
    {
      if j < n {
        assert ds.elems[i].index < ds.elems[j].index;
      } else if i < n {
        assert PaddingBase(LastElemIndex(ds)) == LastElemIndex(ds);
        assert i < n - 1 ==> ds.elems[i].index < ds.elems[n - 1].index;
      }
    }
  }

  /** For ascending data the supplement flag is on exactly the padding leaves, unless the number of
      elements is a power of two above one and the last index is UNASSIGNED_INDEX or more. */
  lemma FlagsAreExact(ds: DataSet)
    requires ds.elems != [] && AscendingData(ds)
    requires forall j :: 0 <= j < |ds.elems| ==> ds.elems[j].index <= 0x7fff_ffff
    ensures (forall j :: 0 <= j < |ds.elems| ==> !FlaggedData(ds, j)) <==>
      !(|ds.elems| > 1 && |ds.elems| == PaddedSize(ds) && LastElemIndex(ds) == 0x7fff_ffff)
  {
    var n := |ds.elems|;
    var h := Log2(n);
    if n == Pow2(h) {
      if h > 0 {
        Pow2Monotone(h - 1, h);
      }
      DepthIs(n, h);
      if n > 1 && LastElemIndex(ds) == 0x7fff_ffff {
        assert FlaggedData(ds, n - 1);
      }
    } else {
      DepthIs(n, h + 1);
      assert forall j :: 0 <= j < n - 1 ==> ds.elems[j].index < ds.elems[n - 1].index;
    }
  }

  /** Indices 0 and 0x7fffffff: the second data leaf is flagged as supplementary. */
  lemma DataLeafIsFlagged()
    ensures var ds := DataSet([DataElem(0, []), DataElem(0x7fff_ffff, [])], false);
      WellFormed(ds) && AscendingData(ds) && PaddingFits(ds) && FlaggedData(ds, 1)
  {
    DepthIs(2, 1);
    Log2Is(2, 1);
    assert Pow2(1) == 2;
  }

  lemma DepthBelowThirty(n: nat)
    requires n > 0
    ensures Depth(n) < 30 <==> n <= Pow2(29)
  {
    if Depth(n) < 30 {
      Pow2Monotone(Depth(n), 29);
    } else {
      Pow2Monotone(29, Depth(n) - 1);
    }
  }

  /** Every descent of updateMTree from the root of a perfect tree to a leaf pushes root level + 1 nodes,
      so for a built tree the 30 slots of the path stack suffice if and only if there are at most 2^29 elements. */
  lemma StackSuffices(n: nat, path: seq<Shape>, s: Shape, k: int)
    requires n > 0 && Perfect(Value(s)) && s.node.level == Depth(n)
    requires TreeOps.Steps(path, s, k) && Last(path).Tip?
    ensures |path| == Depth(n) + 1
    ensures |path| <= 30 <==> n <= Pow2(29)
  {
    TreeOps.LevelsOnPath(path, s, k, |path| - 1);
    DepthBelowThirty(n);
  }

  // ----- Update and rebuild -----

  /** ds' is ds with the hash of element j changed to x. */
  predicate ChangedAt(ds: DataSet, ds': DataSet, j: nat, x: Digest)
    requires WellFormed(ds) && WellFormed(ds') && j < |ds.elems|
  {
    && |ds'.elems| == |ds.elems|
    && (forall i :: 0 <= i < |ds.elems| ==> ds'.elems[i].index == ds.elems[i].index)
    && LeafHash(ds', j) == x
    && forall i :: 0 <= i < |ds.elems| && i != j ==> LeafHash(ds', i) == LeafHash(ds, i)
  }

  lemma ChangedRecords(ds: DataSet, ds': DataSet, j: nat, x: Digest)
    requires ds.elems != [] && WellFormed(ds) && WellFormed(ds') && j < |ds.elems|
    requires ChangedAt(ds, ds', j, x)
    ensures PaddedRecords(ds') == PaddedRecords(ds)[j := Record(PaddedRecords(ds)[j].index, x)]
  {
    hide LeafHash;
    var rs, rs' := PaddedRecords(ds), PaddedRecords(ds');
    assert LastElemIndex(ds') == LastElemIndex(ds);
    forall i | 0 <= i < |rs|
      ensures rs'[i] == if i == j then Record(rs[j].index, x) else rs[i]
    {
      if i < |ds.elems| {
        assert ds'.elems[i].index == ds.elems[i].index;
      }
    }
  }

  /** Update against rebuild, for an element that the descent reaches, with the condition on the tree before
      the call.  A chain without zero bytes makes the updated tree the rebuilt one; otherwise already the
      root hashes differ, or two different strings with one digest lie on the path. */
  lemma UpdateAgreesWithRebuild(ds: DataSet, ds': DataSet, j: nat, x: Digest)
    requires ds.elems != [] && WellFormed(ds) && WellFormed(ds') && j < |ds.elems|
    requires ChangedAt(ds, ds', j, x)
    requires Position(BuiltTree(ds), ds.elems[j].index, Signed) == j
    ensures var k := ds.elems[j].index;
      var updated, rebuilt := Update(BuiltTree(ds), k, x, Signed, FullHash), BuiltTree(ds');
      && (ZeroFreeChain(BuiltTree(ds), k, x, Signed) ==> updated == rebuilt)
      && (updated.hash == rebuilt.hash ==>
            ZeroFreeChain(BuiltTree(ds), k, x, Signed) || CollisionOnPath(updated, rebuilt, k, Signed))
      && (ZeroFreeOnPath(rebuilt, k, Signed) <==> ZeroFreeChain(BuiltTree(ds), k, x, Signed))
      && (updated == rebuilt <==> AgreeOnPath(rebuilt, k, Signed, BuildHash, FullHash))
  {
    hide BuildHash, FullHash, LeafHash, Halving, Put, AgreeOnPath, ZeroFreeOnPath, ZeroFreeChain, CollisionOnPath;
    var rs, d, k := PaddedRecords(ds), Depth(|ds.elems|), ds.elems[j].index;
    ChangedRecords(ds, ds', j, x);
    UpdateIsRebuild(rs, d, j, x, Signed, BuildHash, FullHash);
    PutIsRebuild(rs, d, j, x, Signed, BuildHash);
    BuiltTreeFacts(ds);
    PutAgainstRebuild(BuiltTree(ds), k, x, Signed);
  }

  /** Unless a collision lies on the path, an update gives the tree, and the root hash, of a rebuild
      if and only if the chain of the update has no zero byte. */
  lemma UpdateAgreesExactly(ds: DataSet, ds': DataSet, j: nat, x: Digest)
    requires ds.elems != [] && WellFormed(ds) && WellFormed(ds') && j < |ds.elems|
    requires ChangedAt(ds, ds', j, x)
    requires Position(BuiltTree(ds), ds.elems[j].index, Signed) == j
    requires !CollisionOnPath(Update(BuiltTree(ds), ds.elems[j].index, x, Signed, FullHash), BuiltTree(ds'),
                              ds.elems[j].index, Signed)
    ensures var k := ds.elems[j].index;
      var updated, rebuilt := Update(BuiltTree(ds), k, x, Signed, FullHash), BuiltTree(ds');
      && (updated == rebuilt <==> ZeroFreeChain(BuiltTree(ds), k, x, Signed))
      && (updated.hash == rebuilt.hash <==> ZeroFreeChain(BuiltTree(ds), k, x, Signed))
  {
    hide BuildHash, FullHash, LeafHash, Halving, Update, AgreeOnPath, ZeroFreeOnPath, ZeroFreeChain, CollisionOnPath;
    UpdateAgreesWithRebuild(ds, ds', j, x);
  }

  /** Two hashed elements, the first with an all-zero digest. */
  function ZeroPair(r: Digest): DataSet {
    DataSet([DataElem(0, ZERO_DIGEST), DataElem(1, r)], true)
  }

  /** Their tree: the padding is empty, and the root is the combination of the two digests. */
  lemma ZeroPairTree(r: Digest)
    ensures WellFormed(ZeroPair(r))
    ensures PaddedRecords(ZeroPair(r)) == [Record(0, ZERO_DIGEST), Record(1, r)]
    ensures BuiltTree(ZeroPair(r)) ==
      Node(0, 1, BuildHash(ZERO_DIGEST, r), Leaf(0, 0, ZERO_DIGEST), Leaf(1, 0, r))
  {
    hide BuildHash;
    var ds := ZeroPair(r);
    assert ds.elems[1].data[..32] == r && ds.elems[0].data[..32] == ZERO_DIGEST;
    DepthIs(2, 1);
    assert PaddedRecords(ds) == [Record(0, ZERO_DIGEST), Record(1, r)];
    var a, b := Record(0, ZERO_DIGEST), Record(1, r);
    HalvingOfTwo([a], [b], 0, BuildHash);
    assert [a] + [b] == [a, b];
  }

  /** Changing the second element from r to x leaves the root of a rebuild as it was, the digest of the
      empty string, while an update makes it the digest of 64 bytes: so an update never gives the root
      of a rebuild here, unless the two strings collide. */
  lemma UpdateMissesRebuild(r: Digest, x: Digest)
    ensures WellFormed(ZeroPair(r)) && WellFormed(ZeroPair(x))
    ensures ChangedAt(ZeroPair(r), ZeroPair(x), 1, x) && Ascending(PaddedRecords(ZeroPair(r)), Signed)
    ensures Position(BuiltTree(ZeroPair(r)), 1, Signed) == 1
    ensures BuiltTree(ZeroPair(r)).hash == BuiltTree(ZeroPair(x)).hash == Sha256([])
    ensures var updated := Update(BuiltTree(ZeroPair(r)), 1, x, Signed, FullHash);
      && updated.hash == Sha256(ZERO_DIGEST + x)
      && (updated.hash == BuiltTree(ZeroPair(x)).hash ==> Collision([], ZERO_DIGEST + x))
    ensures !ZeroFreeChain(BuiltTree(ZeroPair(r)), 1, x, Signed)
  {
    hide Sha256, BuildHash, PaddedRecords, BuiltTree;
    ZeroPairTree(r);
    ZeroPairTree(x);
    ZeroLeftChild(r);
    ZeroLeftChild(x);
    var ds, ds' := ZeroPair(r), ZeroPair(x);
    assert ds'.elems[1].data[..32] == x;
    assert |ZERO_DIGEST + x| == 64;
    var t := BuiltTree(ds);
    assert Find(t, 1, Signed) == t.right && Put(t.right, 1, x, Signed, FullHash).hash == x;
  }

  /** Two datasets of one size with one root: the leaves have the same hashes, or a collision lies at a
      position of both trees, when in one tree no pair has a zero byte among its first 63 bytes. */
  lemma RootFixesData(ds: DataSet, ds': DataSet)
    requires ds.elems != [] && WellFormed(ds) && WellFormed(ds') && |ds'.elems| == |ds.elems|
    requires BuiltTree(ds).hash == BuiltTree(ds').hash && TellingNodes(BuiltTree(ds))
    ensures
      || (forall j :: 0 <= j < |ds.elems| ==> LeafHash(ds, j) == LeafHash(ds', j))
      || NodesCollide(BuiltTree(ds), BuiltTree(ds'), BuildInput)
  {
    hide BuildHash, BuiltTree, Leaves, LeafHash, NodesCollide, TellingNodes, Perfect, Hashed, Depth;
    BuiltTreeFacts(ds);
    BuiltTreeFacts(ds');
    BuiltRootFixesLeaves(BuiltTree(ds), BuiltTree(ds'));
    if SameLeafHashes(BuiltTree(ds), BuiltTree(ds')) {
      forall j | 0 <= j < |ds.elems|
        ensures LeafHash(ds, j) == LeafHash(ds', j)
      {
        assert Leaves(BuiltTree(ds))[j].hash == Leaves(BuiltTree(ds'))[j].hash;
      }
    }
  }

  /** A hashed dataset whose tree is blind among the elements has a twin: one element has another digest,
      and the root is the same. */
  lemma RootMissesData(ds: DataSet) returns (ds': DataSet, j: nat)
    requires ds.elems != [] && WellFormed(ds) && ds.isHashed && Blind(BuiltTree(ds), |ds.elems|)
    ensures WellFormed(ds') && j < |ds.elems| == |ds'.elems| && LeafHash(ds', j) != LeafHash(ds, j)
    ensures ChangedAt(ds, ds', j, LeafHash(ds', j))
    ensures BuiltTree(ds').hash == BuiltTree(ds).hash
  {
    hide BuildHash, Halving, PaddedRecords, Blind, Flip, Perfect, Indexed, Hashed, Leaves, Depth;
    var u;
    BuiltTreeFacts(ds);
    u, j := BlindRootMissesLeaf(BuiltTree(ds), |ds.elems|);
    var x := Flip(LeafHash(ds, j));
    FlipDiffers(LeafHash(ds, j));
    ds' := ds.(elems := ds.elems[j := DataElem(ds.elems[j].index, x)]);
    assert ds'.elems[j].data[..32] == x;
    ElementRecord(ds, j);
    ChangedRecords(ds, ds', j, x);
    TreeIsHalving(u, BuildHash);
  }

  lemma ElementRecord(ds: DataSet, j: nat)
    requires ds.elems != [] && WellFormed(ds) && j < |ds.elems|
    ensures PaddedRecords(ds)[j] == Record(ds.elems[j].index, LeafHash(ds, j))
  {
  }

  // ----- The map -----

  /** On the built tree any run of lookups and updates behaves as on the map of the padded records,
      of which lookups see a part that no run changes: all of it, without indices of both signs. */
  lemma RunOnBuiltTree(ds: DataSet, ops: seq<Op>)
    requires ds.elems != [] && WellFormed(ds)
    requires Ascending(PaddedRecords(ds), Signed) && Ints(PaddedRecords(ds))
    requires forall i :: 0 <= i < |ops| && ops[i].Get? ==> IsUnsigned(ops[i].key)
    ensures var (u, outs) := TreeRun(BuiltTree(ds), ops, FullHash);
      var (m, answers) := MapRun(Dict(PaddedRecords(ds)), Seen(BuiltTree(ds)), ops);
      && outs == answers && Dict(Leaves(u)) == m
      && m.Keys == Dict(PaddedRecords(ds)).Keys
      && Perfect(u) && u.level == Depth(|ds.elems|)
    ensures UniformSign(PaddedRecords(ds)) ==> Seen(BuiltTree(ds)) == Dict(PaddedRecords(ds)).Keys
  {
    hide BuildHash, FullHash, PaddedRecords, Halving, TreeRun, MapRun, Dict, Seen, Ascending, Ints, UniformSign;
    BuiltTreeFacts(ds);
    RunIsMapRun(BuiltTree(ds), ops, FullHash);
    RunKeepsDomain(Dict(PaddedRecords(ds)), Seen(BuiltTree(ds)), ops);
    RunKeepsTree(BuiltTree(ds), ops, FullHash);
    if UniformSign(PaddedRecords(ds)) {
      AllSeen(BuiltTree(ds));
    }
  }

  /** The hashes after any run: an internal node holds the 64-byte combination of its children if the path
      of a written index passes through it, and the combination of the build otherwise. */
  lemma HashesAfterRun(ds: DataSet, ops: seq<Op>)
    requires ds.elems != [] && WellFormed(ds) && Ascending(PaddedRecords(ds), Signed)
    ensures HashedBy(TreeRun(BuiltTree(ds), ops, FullHash).0,
                     Written(Dict(PaddedRecords(ds)).Keys, ops), FullHash, BuildHash)
  {
    hide BuildHash, FullHash, PaddedRecords, Halving, TreeRun, Dict, HashedBy, Written, Ascending;
    BuiltTreeFacts(ds);
    RunKeepsHashedBy(BuiltTree(ds), ops, FullHash, BuildHash);
  }

  /** The domain of the map: the indices of the elements and the padding indices. */
  lemma DomainOfBuiltTree(ds: DataSet, i: int)
    requires ds.elems != [] && WellFormed(ds)
    ensures i in Dict(PaddedRecords(ds)) <==>
      (exists j :: 0 <= j < |ds.elems| && ds.elems[j].index == i)
      || var b := PaddingBase(LastElemIndex(ds)); b < i <= b + (PaddedSize(ds) - |ds.elems|)
  {
    hide LeafHash, Dict, Depth;
    var n, rs, b := |ds.elems|, PaddedRecords(ds), PaddingBase(LastElemIndex(ds));
    DictDomain(rs, i);
    if b < i <= b + (|rs| - n) {
      assert rs[n + (i - b - 1)].index == i;
    }
    assert forall j :: 0 <= j < n ==> rs[j].index == ds.elems[j].index;
  }

  // ----- The binary counter -----

  /** Between leaves the levels of the forest are the set bits of the number of leaves, highest first,
      and the length of the queue follows. */
  lemma QueueIsBinaryCounter(fs: seq<Shape>)
    requires fs != [] && Counter(fs)
    ensures var n := |AllTips(fs)|;
      && n > 0 && LevelsOf(fs) == Bits(n)
      && |QueueForm(fs)| == 1 + 2 * (n - Pow2(Log2(n))) - (|Bits(n)| - 1)
  {
    hide AllTips, QueueForm, AllNodes, AllSeparate;
    var ls := LevelsOf(fs);
    AllTipsCount(fs);
    DescendingIsBits(ls);
    QueueFormSize(fs);
    QueueSizeFormula(ls);
    TotalBounds(ls);
    Log2OfTotal(ls);
  }

  lemma Log2OfTotal(ls: seq<nat>)
    requires ls != [] && Descending(ls)
    ensures Log2(Total(ls)) == ls[0]
  {
    TotalBounds(ls);
    Log2Is(Total(ls), ls[0]);
  }

  /** A finished tree over 2^h leaves has 2^(h+1) - 1 nodes, so 2^h - 1 combinations made it. */
  lemma {:induction false} NodeCount(s: Shape)
    requires Separate(s) && Perfect(Value(s))
    ensures |Nodes(s)| == 2 * Pow2(s.node.level) - 1 && |Tips(s)| == Pow2(s.node.level)
  {
    NodesAndTips(s);
    TipsAreLeaves(s);
    PerfectSize(Value(s));
  }

  lemma {:induction false} NodesAndTips(s: Shape)
    requires Separate(s)
    ensures |Nodes(s)| == 2 * |Tips(s)| - 1
  {
    if s.Fork? {
      NodesAndTips(s.left);
      NodesAndTips(s.right);
      assert Nodes(s) == {s.node} + Nodes(s.left) + Nodes(s.right);
    }
  }
}
