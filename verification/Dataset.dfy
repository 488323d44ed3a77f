/** The ordered dataset that the builder reads, and the leaves that it must produce. */
module Dataset {
  import opened Bytes
  import opened Sha256Spec
  import opened MerkleTree
  import opened MhtDefs
  import opened Powers

  datatype DataElem = DataElem(index: int, data: seq<byte>)

  datatype DataSet = DataSet(elems: seq<DataElem>, isHashed: bool)

  const MAX_SIGNED_INT: int := 0x7fff_ffff

  /** Lengths are 32-bit unsigned, and a hashed element holds a digest. */
  predicate WellFormed(ds: DataSet) {
    forall i :: 0 <= i < |ds.elems| ==>
      |ds.elems[i].data| < 0x1_0000_0000 && (ds.isHashed ==> |ds.elems[i].data| >= 32)
  }

  function LeafHash(ds: DataSet, i: nat): Digest
    requires WellFormed(ds) && i < |ds.elems|
  {
    if ds.isHashed then ds.elems[i].data[..32] else Sha256(ds.elems[i].data)
  }

  /** The number from which padding indices count (mht.c:207-211). */
  function PaddingBase(last: int): int {
    if last == UNASSIGNED_INDEX then DEF_UPPER_BOUND_INDEX else last
  }

  /** The number of leaves of the tree: the least power of two that is at least the number of elements. */
  function PaddedSize(ds: DataSet): nat
    requires ds.elems != []
  {
    Pow2(Depth(|ds.elems|))
  }

  function LastElemIndex(ds: DataSet): int
    requires ds.elems != []
  {
    ds.elems[|ds.elems| - 1].index
  }

  /** The padding indices fit in a signed int; beyond that the increments of mht.c:215 would overflow. */
  predicate PaddingFits(ds: DataSet)
    requires ds.elems != []
  {
    |ds.elems| < PaddedSize(ds) ==>
      PaddingBase(LastElemIndex(ds)) + (PaddedSize(ds) - |ds.elems|) <= MAX_SIGNED_INT
  }

  /** The leaves of the tree: the elements in order, then zero leaves with consecutive indices. */
  function PaddedRecords(ds: DataSet): (rs: seq<Record>)
    requires ds.elems != [] && WellFormed(ds)
    ensures |rs| == PaddedSize(ds)
  {
    var n := |ds.elems|;
    seq(PaddedSize(ds), j requires 0 <= j < PaddedSize(ds) =>
      if j < n then Record(ds.elems[j].index, LeafHash(ds, j))
      else Record(PaddingBase(LastElemIndex(ds)) + 1 + (j - n), ZERO_HASH))
  }

  /** A data leaf ends up with the supplement flag when it was popped in the data phase with an index
      of UNASSIGNED_INDEX or more (mht.c:148-152); the first 2^t leaves were popped, 2^t <= n, unless n = 1. */
  predicate FlaggedData(ds: DataSet, j: nat)
    requires j < |ds.elems|
  {
    |ds.elems| > 1 && j < Pow2(Log2(|ds.elems|)) && ds.elems[j].index >= UNASSIGNED_INDEX
  }
}
