/** Bytes, digests and C strings. */
module Bytes {

  type byte = bv8

  /** A SHA-256 digest: HASH_LEN == SHA256_BLOCK_SIZE == 32 bytes. */
  type Digest = d: seq<byte> | |d| == 32 witness seq(32, _ => 0)

  /** A C string in a buffer: the bytes before the first zero byte. */
  function CString(bs: seq<byte>): seq<byte> {
    if bs == [] || bs[0] == 0 then [] else [bs[0]] + CString(bs[1..])
  }

  predicate ZeroFree(bs: seq<byte>) { forall i :: 0 <= i < |bs| ==> bs[i] != 0 }

  /** CString is the longest zero-free prefix. */
  lemma {:induction false} CStringIsLongestZeroFreePrefix(bs: seq<byte>)
    ensures CString(bs) <= bs
    ensures ZeroFree(CString(bs))
    ensures |CString(bs)| < |bs| ==> bs[|CString(bs)|] == 0
    ensures CString(bs) == bs <==> ZeroFree(bs)
  {
    if bs != [] && bs[0] != 0 {
      CStringIsLongestZeroFreePrefix(bs[1..]);
      assert ZeroFree(bs) ==> ZeroFree(bs[1..]);
      assert CString(bs[1..]) == bs[1..] ==> CString(bs) == bs;
    }
  }
}
