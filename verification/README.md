# Verification of the in-memory Merkle hash tree

The program builds a Merkle hash tree from an ordered dataset in one pass, with
a doubly linked queue as its working memory, and then uses the tree as an
authenticated index: it looks up the hash of a leaf by index and updates leaves,
rehashing the path to the root. Hashing is a buffered SHA-256.

This project models those three parts and proves them correct in Dafny 4.11.
`dafny verify dfyconfig.toml` checks it.

| file | part |
|---|---|
| `Bytes.dfy`, `Seqs.dfy`, `Powers.dfy`, `Levels.dfy` | bytes and C strings, sequences, powers of two, binary digits |
| `Primes.dfy`, `Sha256Spec.dfy` | the first sixty-four primes; SHA-256 as FIPS 180-4 defines it |
| `Sha256Impl.dfy` | the context of sha256.c, updated in place |
| `KnownAnswers.dfy`, `AnswerAbc.dfy`, `AnswerTwoBlocks.dfy`, `AnswerZero.dfy`, `Sha256Test.dfy` | digests of known messages, round by round in literals |
| `Hashing.dfy`, `MerkleTree.dfy`, `MerkleIndex.dfy`, `MapSemantics.dfy` | trees as values: recursive halving, search, update, finite maps |
| `MhtDefs.dfy`, `DbQueue.dfy` | tree nodes and the linked queue, in the heap |
| `Forest.dfy`, `QueueScan.dfy`, `Dataset.dfy`, `Mht.dfy` | the streaming builder |
| `TreeOps.dfy` | lookups and updates on the tree in the heap |
| `CombinedHashes.dfy` | the two ways of combining hashes: update against rebuild, and what a root says about the leaves |
| `Theorems.dfy`, `Reachability.dfy`, `Program.dfy` | results about the whole program; which leaves lookups and updates reach |

Three ideas carry the builder. A *shape* is a tree whose positions hold the node
objects themselves, so that postorder, disjointness and leaf order are facts
about values, and only the field contents are facts about the heap. The queue
between two leaves is the root of the first tree followed by the other trees in
postorder (`QueueForm`), and the trees are a binary counter (`Counter`). And a
perfect tree whose separators and hashes are consistent is determined by its
leaves (`TreeIsHalving`), which turns the invariant into equality with the tree
built by recursive halving.

What the code does and a reader might not expect. Each item names the exact
condition and a lemma about inputs that show it:

- Building hashes the C string in the 64-byte concatenation (mhtdefs.c:127),
  updating hashes all 64 bytes (test_1.c:292). An update of an element that the
  descent reaches gives the tree of a rebuild when neither the siblings on the path nor the digests carried up past
  them have a zero byte, which can be checked before the call; otherwise even the
  two roots differ, or two different strings with one digest lie on the path
  (`UpdateAgreesWithRebuild`, `UpdateAgreesExactly`). With an all-zero first
  digest of two, a rebuild does not see the second: `UpdateMissesRebuild`,
  `BuiltRootMissesLeaf`.
- For the same reason a built root need not determine its leaves. It does, up to
  a collision, when no pair has a zero byte among its first 63
  (`BuiltRootFixesLeaves`, `RootFixesData`). It does not when a left child has a
  zero byte or a pair of leaves has one among its first 63
  (`BlindRootMissesLeaf`, `RootMissesData`). One case is between the two
  (`ToldOrBlind`): a zero byte in the hash of a right child that is an inner node,
  before its last byte. There another tree would need a subtree whose root hash
  begins with the same bytes, and whether one exists is a question about SHA-256.
- When the last of the elements has index 0x7fffffff and there is padding, the
  padding restarts at 0x70000001 (mht.c:207-211), so the leaves are no longer
  ascending: `PaddedIsAscending`, at indices 0, 1 and 0x7fffffff
  `PaddingRestarts`. Then neither `getMHash` nor `updateMTree` reaches every leaf
  (`ReachesAllOfDataset`). Both still reach every element, of data without
  negative indices, if and only if the number of padding leaves is a power of two
  (`UpdateReachesElements`, `GetReachesElements`); otherwise they miss the last
  element (`LastElementIsHidden`). At indices 0, 1, 2, 3 and 0x7fffffff the last
  element cannot be looked up or updated: `FifthElementIsHidden`.
- `getMHash` compares unsigned, `updateMTree` compares signed. Besides a restart,
  `getMHash` misses leaves exactly when the first element is negative and the
  last leaf is not: `ReachesAllOfDataset`. Wholly negative data can be enough,
  because padding counts on from the last index: -3, -2, -1 are padded with 0
  (`NegativeDataIsMissed`). `GetReachesElements` says when the elements
  themselves are reached.
- A data leaf with index 0x7fffffff is flagged as supplementary when it is
  popped during the data phase (mht.c:148-152): `FlagsAreExact`, at indices 0
  and 0x7fffffff `DataLeafIsFlagged`.
- Removing the tail by position removes the head (dbqueue.c:166-168), so the
  asked element leaves only when it is not the tail or is alone: `DequeueAt`.

## Model

| member | source | states |
|---|---|---|
| Mht.CreateMht | mht.c:30-96 | for every non-empty dataset the queue-based build returns the tree of recursive halving over the elements followed by zero leaves up to the least power of two; leaf j holds the index and the digest of element j, each further leaf a consecutive index and the digest of "0"; no node is shared; every supplement flag is given exactly; nothing is left for freeQueue to release; the nodes were enqueued and dequeued in the postorder of the finished tree, 2N - 1 of them and each once; the backward scans take at most N log N steps in all |
| MerkleTree.TreeIsHalving | mht.c:52-72 | perfect levels, separators and consistent hashes determine a tree from its leaves: it is the halving tree |
| MerkleTree.HalvingProperties | mhtdefs.c:27-55 | the halving tree is perfect with root level k, stores separators and combined hashes, and has the given leaves in order |
| QueueScan.ScanBackward | mht.c:122-138 | the backward scan turns the forest plus a new leaf into the next binary counter, whose queue is the root of the first tree and the others in postorder; its steps are paid for by the growth of the potential |
| QueueScan.ScanNeighbour | mht.c:123-126 | the element before the scan position is either stale and strictly below the tail's level, or the unconsumed root of the last tree |
| QueueScan.Merge | mht.c:127-134 | one combination joins the last tree and the new one, which share no node, under a fresh parent, and appends it |
| QueueScan.MergeIsMergeable | mht.c:127-134 | a merge of two trees of equal level leaves the remaining levels at or above the new one |
| QueueScan.PopLower | mht.c:141-158 | the pop loop removes exactly the elements before the first one that is not below the new root, and marks exactly the popped leaves with index UNASSIGNED_INDEX or more |
| QueueScan.ConsumedPrefix | mht.c:142-158 | what the pop loop removes is the whole consumed prefix: all but the new root when the first tree was merged, nothing otherwise |
| QueueScan.ScanAndPop | mht.c:221-256 | one leaf, scan and pop together: the queue of one forest becomes the queue of the next, for both phases |
| Mht.ProcessQueue | mht.c:104-169 | process_queue keeps the counter invariant and the exact flags of the data phase |
| Mht.PoppedTipsStep | mht.c:142-152 | each step pops exactly the leaves that become descendants of the first tree |
| Mht.DealWithRemainingNodes | mht.c:171-258 | the padding loop terminates, appends zero leaves with consecutive indices until there are 2^(h+1) of them, leaves one tree in the queue, and increments no index past a signed int |
| Mht.PaddingProgress | mht.c:203-214 | the loop test holds exactly while there is room below 2^(h+1) leaves, and fails exactly when a single tree of level h + 1 is left |
| Mht.GetTheLastLeafNodeIndex | mht.c:260-279 | the index of the level-0 element nearest to the tail, or UNASSIGNED_INDEX when there is none |
| Mht.LastLeafIsInQueue | mht.c:207 | when padding starts, the element so found is the last data leaf |
| Mht.FlagsByPosition | mht.c:148-152 | after the data phase leaf j is flagged if and only if n > 1, j is among the first 2^t leaves, 2^t the largest power of two up to n, and its index is UNASSIGNED_INDEX or more |
| Mht.SizeTest | mht.c:70-72 | the test m_qsize > 1 holds exactly when n is not a power of two; the first tree has level floor(log2 n) |
| Mht.FinishedTree | mht.c:74-78 | a built tree with the right leaves is the halving tree over the padded records |
| Theorems.QueueIsBinaryCounter | mht.c:52-72 | between leaves the levels are the set bits of the number n of leaves, highest first, and m_qsize is 1 + 2(n - 2^t) - (popcount(n) - 1) |
| Levels.DescendingIsBits | mht.c:122-138 | a strictly descending sequence of levels is the sequence of set bits of its total |
| Levels.BitsAreSetBits | mht.c:122-138 | that sequence lists exactly the positions whose binary digit is one |
| Levels.MergePays | mht.c:137 | a merge of two trees of level l raises the potential by 2 * 2^l, which covers the scan over one of them |
| Forest.LowerBeforeRoot | mht.c:124-126 | in the postorder of a perfect tree every node before the root is at a lower level |
| Forest.PostorderDistinct | mhtdefs.c:50-52 | when every node has one parent, the postorder lists no node twice |
| Theorems.NodeCount | mhtdefs.c:27-55 | a finished tree over N leaves has 2N - 1 nodes |
| MhtDefs.CombineNodes | mhtdefs.c:27-55 | the new node is one level up, stores the last index of the left subtree and the build hash of its children, and keeps both subtrees |
| MhtDefs.GetTheRightMostChild | mhtdefs.c:133-145 | the walk ends at the last leaf node of the subtree, which holds its last index |
| MhtDefs.GenerateCombinedHash | mhtdefs.c:110-131 | through the SHA-256 implementation: the hash of the C string in the concatenation |
| MhtDefs.StrLen | mhtdefs.c:127 | the scan stays inside the 65-byte buffer and measures the C string |
| Bytes.CStringIsLongestZeroFreePrefix | mhtdefs.c:110-131 | the hashed bytes are the longest zero-free prefix, all of them if and only if there is no zero byte |
| CombinedHashes.CombinedInputs | mhtdefs.c:123-127 | build and update hash the same bytes if and only if neither child hash has a zero byte |
| CombinedHashes.ZeroFreeTreeIsConsistent | mhtdefs.c:123-127 | a built tree without zero bytes below the root is consistent for the hash that updates use |
| CombinedHashes.PutAgainstRebuild | test_1.c:282-297 | for any tree: rehashing a path by both combinations gives one tree when the siblings and the carried digests have no zero byte; equal root hashes imply that condition or a collision on the path |
| CombinedHashes.RootFixesLeaves | test_1.c:288-295 | consistent trees of one level and one root hash have the same leaf hashes, or a collision lies at one of their positions |
| CombinedHashes.BuiltRootFixesLeaves | mhtdefs.c:110-131 | built trees of one level and one root hash have the same leaf hashes, or a collision lies at one of their positions, when in one of them no pair has a zero byte among its first 63 bytes |
| CombinedHashes.BlindRootMissesLeaf | mhtdefs.c:127 | whenever a left child has a zero byte, or a pair of leaves has one among its first 63, another built tree with the same root hash differs in one leaf |
| CombinedHashes.ToldOrBlind | mhtdefs.c:127 | the two conditions exclude each other and leave open only a zero byte in an inner right child, before its last byte |
| CombinedHashes.BuiltRootMissesLeaf | mhtdefs.c:127 | at a pair with an all-zero left leaf the root does not depend on the right leaf |
| Theorems.BuiltTreeFacts | mht.c:30-96 | levels, separators, hashes, leaves and root level ceil(log2 n) of the returned tree |
| Theorems.LeavesOneByOne | mht.c:53-62 | leaf j holds the index of element j with the digest of its data, or with its first 32 bytes when the data are hashed; each further leaf holds the next index after the last one, or after 0x70000000 when the last one is 0x7fffffff, with the digest of "0" |
| Theorems.PaddedIsAscending | mht.c:207-215 | the leaves are ascending if and only if the elements are and padding does not restart below index UNASSIGNED_INDEX |
| Reachability.PaddingRestarts | mht.c:207-211 | at indices 0, 1, 0x7fffffff the padding leaf has index 0x70000001 and the leaves are not ascending |
| Theorems.FlagsAreExact | mht.c:148-152 | for ascending data no data leaf is flagged if and only if n is 1 or no power of two or the last index is below UNASSIGNED_INDEX |
| Theorems.StackSuffices | test_1.c:255-274 | stepping from child to child a descent from a built root to a leaf takes exactly root level + 1 nodes, and they fit the 30 slots if and only if n is at most 2^29 |
| DbQueue.Queue.Enqueue | dbqueue.c:92-102 | append, with the list well formed |
| DbQueue.Queue.Dequeue | dbqueue.c:104-120 | drop the first element and return it, or return null on an empty queue |
| DbQueue.Queue.DequeueSub | dbqueue.c:122-146 | drop the second element, or change nothing when there is none |
| DbQueue.Queue.DequeueAt | dbqueue.c:148-173 | drop the element at an interior position; asked for the tail, drop the head instead, so the asked element leaves if and only if it is not the tail or is alone |
| DbQueue.Queue.SearchByLevel | dbqueue.c:55-79 | the element of a level that is nearest to the tail, null exactly when the level is negative or absent |
| DbQueue.Queue.Peek | dbqueue.c:175-179 | the first element, or null |
| DbQueue.Queue.Free | dbqueue.c:181-200 | every node still in the queue is released, in order, and the queue is empty |
| MerkleIndex.SeparatorBounds | mhtdefs.c:42-48 | over ascending leaves a separator is the maximum of the left subtree and below the right subtree |
| MerkleIndex.FindsEveryLeaf | test_1.c:208-218 | the descent for the index of leaf j ends at leaf j |
| MerkleIndex.FindsAllExactly | test_1.c:208-218 | the descents reach every leaf if and only if the leaves ascend in the order that is compared |
| MerkleIndex.SearchIsLookup | test_1.c:204-225 | a lookup succeeds exactly on the indices of leaves and returns that leaf's hash |
| MerkleIndex.PutLeaves | test_1.c:282-297 | an update changes the hash of one leaf and no other leaf |
| MerkleIndex.PutKeepsSearch | test_1.c:282-297 | an update keeps levels, separators and the target of every descent |
| MerkleIndex.PutKeepsHashed | test_1.c:288-295 | an update keeps a consistent tree consistent |
| MerkleIndex.PutIsDetermined | test_1.c:253-297 | the updated tree is the only one that differs on the path alone, has the new hash at the leaf and is consistent on the path |
| MerkleIndex.UpdateIsRebuild | test_1.c:288-295 | an update by one combination agrees with a rebuild by another if and only if the two agree on the path in the rebuilt tree |
| Theorems.UpdateAgreesWithRebuild | test_1.c:253-297 | for every element that the descent reaches: if no sibling on the path and no digest carried up has a zero byte, an update gives the tree of a rebuild from the changed dataset; equal root hashes imply that condition or a collision on the path; the condition on the tree before the call is the one on the path of the rebuilt tree |
| Theorems.UpdateAgreesExactly | test_1.c:253-297 | unless a collision lies on the path, updated and rebuilt trees are equal, and their root hashes are equal, if and only if no sibling and no carried digest has a zero byte |
| Theorems.UpdateMissesRebuild | mhtdefs.c:127 | with an all-zero first digest of two, an update of the second element gives another root than the rebuild, whose root never changes, unless the empty string collides with the 64 bytes |
| Theorems.RootFixesData | mht.c:30-96 | two datasets of one size and one root have the same leaf hashes, or a collision lies at a position of both trees, when in one tree no pair has a zero byte among its first 63 bytes |
| Theorems.RootMissesData | mhtdefs.c:127 | a hashed dataset whose tree hides an element behind a zero byte has the root of another dataset, with another digest for that element |
| MapSemantics.GetFindsAllLeaves | test_1.c:204-225 | getMHash finds every stored leaf if and only if the stored indices do not have both signs |
| Reachability.SignsOfPadded | mht.c:207-215 | for ascending int data the leaves, padding included, have one sign if and only if the first element is not negative or the last leaf is negative |
| Reachability.ReachesAllOfDataset | mht.c:207-215 | updateMTree reaches every leaf of a built tree if and only if padding does not restart; getMHash, if and only if, besides, the first element is not negative or the last leaf, padding included, is negative |
| Reachability.GetFindsAllOfDataset | test_1.c:204-225 | under that condition getMHash returns the hash of every leaf; without a restart, under no other |
| Reachability.DropHides | test_1.c:208-218 | where the order breaks at leaf c, the first n of the c leaves before are all reached if and only if the smallest block at the end of the tree, a power of two in size, that contains the leaves from c on contains none of them; otherwise leaf n - 1 is missed |
| Reachability.UpdateReachesElements | test_1.c:253-274 | updateMTree reaches every element if and only if padding does not restart or the number of padding leaves is a power of two |
| Reachability.GetReachesElements | test_1.c:204-225 | getMHash reaches every element, without negative ones, as updateMTree does; otherwise if and only if all elements are negative and the smallest such block with the leaves that are not negative, if there are any, holds padding alone |
| Reachability.LastElementIsHidden | mht.c:207-211 | after a restart with a number of padding leaves that is no power of two, the last element is not found by getMHash and not changed by updateMTree |
| Reachability.FifthElementIsHidden | mht.c:207-211 | at indices 0, 1, 2, 3, 0x7fffffff that happens to the last element |
| Reachability.NegativeDataIsMissed | mht.c:207-215 | at indices -3, -2, -1 padding adds index 0 and getMHash misses a leaf |
| MapSemantics.RunHoldsMap | test_1.c:253-301 | over any run on a signed-ascending tree the leaves hold the map that the updates make, and the same leaves stay visible to lookups |
| MapSemantics.RunIsMapRun | test_1.c:204-301 | over any run, indices of both signs included, lookups answer as the map does for the visible indices and with nothing for the others |
| MapSemantics.AllSeen | test_1.c:204-225 | without indices of both signs every index is visible |
| MapSemantics.SeenIsReached | test_1.c:204-225 | an index is visible if and only if the unsigned descent reaches its leaf |
| MapSemantics.RunKeepsDomain | test_1.c:276-279 | no run changes the domain |
| MapSemantics.PutHashedBy | test_1.c:288-295 | an update extends by its path, and by nothing else, the part of the tree that is hashed by the update's combination |
| MapSemantics.RunKeepsHashedBy | test_1.c:204-301 | over any run on a signed-ascending tree the nodes on the paths of the written indices store the update's combination of their children, all others the original one |
| Theorems.RunOnBuiltTree | test_1.c:22-54 | the same on a built tree of ascending ints, whose map holds the elements and the padding |
| Theorems.HashesAfterRun | test_1.c:22-54 | after any run on a built tree with ascending leaves an internal node holds the 64-byte combination of its children if a successful update passed through it, and the combination of the build otherwise |
| Theorems.DomainOfBuiltTree | mht.c:207-215 | for every dataset the domain is the element indices and the padding indices that count on from the last one, or from the restart |
| TreeOps.GetMHash | test_1.c:204-225 | the pointer descent is the lookup by unsigned key; on failure the buffer is untouched |
| TreeOps.UpdateMTree | test_1.c:253-301 | the stack-driven update gives the updated tree, changes only hash fields, and leaves the root hash in hashRet; an absent index changes nothing |
| TreeOps.Descend | test_1.c:254-274 | the pushed nodes are the path to the leaf, one per level, within the stack |
| TreeOps.Ascend | test_1.c:282-297 | popping the path rehashes it from the leaf to the root |
| TreeOps.Run | test_1.c:170-186 | a loop of calls is the run of the specification |
| Program.BuildAndRun | test_1.c:22-54 | for every dataset of at most 2^29 elements: build, then any calls; they run as specified on the built tree, and for ascending int leaves answer as the map of the padded records and leave the final map in the heap |
| Sha256Impl.SHA256_CTX.Transform | sha256.c:45-84 | the in-place compression with rolling variables is the compression of FIPS 180-4, section 6.2.2 |
| Sha256Impl.MessageSchedule | sha256.c:49-52 | the 64-word array is the message schedule |
| Sha256Impl.SHA256_CTX.Init | sha256.c:86-98 | the context has absorbed the empty message |
| Sha256Impl.SHA256_CTX.Update | sha256.c:100-113 | a context that has absorbed a message has absorbed the longer message; whole blocks are compressed and counted, the tail is buffered |
| Sha256Impl.SHA256_CTX.Final | sha256.c:115-159 | the digest of the absorbed message, by padding, last compressions and big-endian output |
| Sha256Impl.HashChunks | sha256_test.c:47-50 | init, updates for any split of a message, final: the digest of the whole message |
| AnswerAbc.KnownDigest | sha256_test.c:23-27 | the digest of "abc" is the array of the first case, byte for byte |
| AnswerTwoBlocks.KnownDigest | sha256_test.c:24-29 | the digest of the 56-byte message, whose padding takes a second block, is the array of the second case |
| Sha256Test.KnownCases | sha256_test.c:37-45 | hashed through init, update and final both messages give those arrays |
| AnswerZero.KnownDigest | defs.c:3-6 | the hash of every padding leaf is the digest of the character "0" |
| Sha256Impl.BytesOfLength | sha256.c:137-144 | the eight shifted bytes are the big-endian length field |
| Sha256Spec.LengthFieldValue | sha256.c:136-144 | the length field read back is the length in bits modulo 2^64 |
| Sha256Spec.PadInjective | sha256.c:115-145 | padding is injective on messages below 2^64 bits |
| Primes.FirstPrimes | sha256.c:33-42 | the entries of the table are the primes up to 311, all of them and in ascending order |
| Sha256Spec.RoundConstants | sha256.c:33-42 | every round constant is the fractional part of the cube root of the prime of its position |
| Sha256Spec.InitialHashValue | sha256.c:90-97 | every initial word is the fractional part of the square root of the prime of its position |

## Left out

- Null pointers, failed allocation and deallocation: pointers that the callers never pass as null have non-null types, and memory is not returned, except that `Free` says which tree nodes freeQueue would release.
- `create_mht_from_ordered_ds` on an empty dataset: the null result of the empty dequeue is dereferenced (mht.c:78), so `CreateMht` asks for an element.
- Signed overflow of padding indices: it is undefined in C, so `CreateMht` asks that they fit (`PaddingFits`).
- `sha256_2`: its source is not part of this model; it is taken as SHA-256 of the given bytes.
- The union of `m_ptr` and `m_qsize` in a queue cell: two fields here; the header's pointer is never read.
- The embedded arrays `m_hash[32]` and the 64-byte message buffers of tree updates: values that are replaced as a whole.
- SHA-256 contexts after `sha256_final`: the source does not reset them and nothing is said about them.
- Inputs of 2^32 bytes or more in one update call: the 32-bit loop counter would not end.
- The file offsets and page numbers of parents and children in a tree node: set once, never used.
- The third case of sha256_test.c, a million bytes: the definitions determine its digest, but tracing 15,626 blocks is out of proportion.
- The database, dataset files, random strings, printing and timing.
- `is_power_of_2`, `cal_the_least_pow2_to_n`, `compare_two_hashes`, `convert_hash_to_string`, `diffPgno`: they would add only easy members.
