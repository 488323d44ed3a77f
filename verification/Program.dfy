/** The program of test_1.c without its database: build the tree once, then look up and update. */
module Program {
  import Bytes
  import opened Hashing
  import opened Powers
  import opened MerkleTree
  import opened MerkleIndex
  import opened MapSemantics
  import opened MhtDefs
  import opened Dataset
  import opened Theorems
  import Mht
  import TreeOps

  /** Whatever the calls, they run as specified on the built tree.  When its leaves are ascending ints, the
      lookups answer as the map of the padded records does for the indices they see, all indices when there is
      only one sign, and the tree in the heap ends up holding that map. */
  method BuildAndRun(ds: DataSet, ops: seq<Op>) returns (outs: seq<Option<Bytes.Digest>>, root: MHTNode, ghost s: Shape)
    requires ds.elems != [] && WellFormed(ds) && PaddingFits(ds)
    requires |ds.elems| <= Pow2(29)
    requires forall i :: 0 <= i < |ops| && ops[i].Get? ==> IsUnsigned(ops[i].key)
    ensures s.node == root && Linked(s) && Separate(s)
    ensures (Value(s), outs) == TreeRun(BuiltTree(ds), ops, FullHash)
    ensures Ascending(PaddedRecords(ds), Signed) && Ints(PaddedRecords(ds)) ==>
      && outs == MapRun(Dict(PaddedRecords(ds)), Seen(BuiltTree(ds)), ops).1
      && Dict(Leaves(Value(s))) == MapRun(Dict(PaddedRecords(ds)), Seen(BuiltTree(ds)), ops).0
      && (UniformSign(PaddedRecords(ds)) ==> Seen(BuiltTree(ds)) == Dict(PaddedRecords(ds)).Keys)
  {
    hide BuildHash, FullHash, PaddedRecords, Halving, MapRun, TreeRun, Dict, Seen, Linked, Separate, Value, Nodes,
      Ascending, Ints, UniformSign, BuiltTree;
    root, s := Build(ds);
    BuiltTreeFacts(ds);
    DepthBelowThirty(|ds.elems|);
    RootLevel(s);
    assert allocated(Nodes(s));
    outs := TreeOps.Run(root, ops, s);
    if Ascending(PaddedRecords(ds), Signed) && Ints(PaddedRecords(ds)) {
      RunOnBuiltTree(ds, ops);
    }
  }

  /** The build, as far as the calls depend on it. */
  method Build(ds: DataSet) returns (root: MHTNode, ghost s: Shape)
    requires ds.elems != [] && WellFormed(ds) && PaddingFits(ds)
    ensures s.node == root && Linked(s) && Separate(s) && fresh(Nodes(s))
    ensures Value(s) == BuiltTree(ds)
  {
    hide BuildHash, PaddedRecords, Halving, Linked, Separate, Value, Nodes, Tips, Postorder, FlaggedData, PaddingBase,
      Depth;
    ghost var steps, entered, left;
    var freed;
    root, freed, s, steps, entered, left := Mht.CreateMht(ds);
  }

  lemma RootLevel(s: Shape)
    ensures Value(s).level == s.node.level
  {
  }
}
