/** The two ways in which the program combines the hashes of two children. */
module Hashing {
  import opened Bytes
  import opened Sha256Spec

  /** The hash of a pair of children while the tree is built: strlen cuts the 64 bytes short. */
  function BuildHash(l: Digest, r: Digest): Digest { Sha256(CString(l + r)) }

  /** The hash of a pair of children after an update: all 64 bytes are hashed. */
  function FullHash(l: Digest, r: Digest): Digest { Sha256(l + r) }
}
