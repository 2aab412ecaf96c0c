# Verified core of the node

Dafny models of eight parts of the node, with proofs of what they promise. Each model follows the
program's own functions and state: classes where the program updates objects, loops where it loops,
functions where it computes. Hashes, clocks, random choices, difficulty rules and addresses are
parameters, and nothing is assumed about them beyond what is written in a contract. `Options` and
`Sequences` are shared by all parts.

- **Cluster linearization** (`FeeFrac`, `Diagram`, `DepGraph`, `Linearization`, `Chunking`,
  `AncestorFinder`, `SearchTheory`, `Search`, `CandidateFinder`, `Merge`, `Linearize`,
  `Grouping`, `Trees`, `PostLinearized`, `MovedLeaf`, `PostLinearize`). Graphs are kept transitively
  closed. A linearization is a path of cumulative fees and sizes; its chunks are its unique cut into
  best prefixes, and the feerate diagram is drawn over real sizes. Linearizing, merging and
  post-linearizing return topological permutations that are nowhere below what they were given. The
  branch-and-bound search is exact if it does not use up its steps, ends without a step limit, and
  never outgrows its queue. Post-linearizing, on linked lists in an array, is optimal for trees.
- **Coins** (`CoinsList`, `CoinsViews`, `CoinsCache`, `CoinsRuns`). A tower of write-back caches with
  DIRTY and FRESH flags and a circular doubly linked list shows one plain map and a best block for
  every level, over all runs.
- **Address manager** (`AddrTables`, `AddrMan`, `AddrCheck`, `AddrBook`, `AddrRoundTrip`, `AddrFile`,
  `AddrRuns`). Ids, addresses, the random order, two tables, reference counts and counters agree
  after every operation; the consistency check decides exactly a stated property; saving and loading
  is a round trip up to renumbering.
- **Headers sync** (`HeadersTheory`, `HeadersSync`). The download-twice protocol releases nothing too
  early and nothing else than what was downloaded twice, and lets an honest peer through.
- **Check queue** (`CheckQueue`). A transition system of one master and any number of workers, with
  safety over all runs, freedom from deadlock, and termination.
- **Big integers and the block tree** (`Limbs`, `BigUint`, `BlockProof`, `BlockTree`). Limb arithmetic
  of any width agrees with arithmetic modulo 2^BITS, block work is exact, and skip pointers, lane
  links and the active chain agree with walking parents.
- **Merged mining** (`AuxPow`). One coinbase commits to one block, unless the two branches themselves
  show a hash collision.
- **Base58** (`Radix`, `Base58`). The buffers suffice at every length, and decoding and encoding
  invert each other.

Four findings about the code itself:

- The consistency check of the address manager compares only the counters that exist. It can pass
  although the counter of a network is missing (`AddrCheck.MissedNetwork`); with counters for all
  networks, and no stale or unroutable addresses, it is exact (`AddrCheck.InvConsistent` and
  `AddrCheck.ConsistentInv`). No operation leads to a state that it misses.
- A success at time 0 makes a tried entry look as if it had never succeeded. `AddrCheck.GoodThenCheck`
  says what the check returns after a success at every time: -1 if such an entry is in the tried table
  at time 0, -6 for a known address at a negative time, and 0 in exactly the other cases.
- `AddCoin` takes the memory of the old coin off the count before it throws.
  `CoinsCache.CoinsViewCache.AddCoin` says exactly when the cache is still valid afterwards.
- The branch of `ResolveCollisions_` for a collision whose cell has become free, the branch of
  `FetchCoin` for a spent coin from below, and the error for a misapplied FRESH flag cannot be
  reached in these runs. The contracts of `AddrManager.AddrMan.ResolveOne`,
  `CoinsCache.CoinsViewCache.GetCoin` and `CoinsCache.CoinsViewCache.BatchWrite` show it, and the
  models leave these branches out.

## Model

| member | source | states |
|---|---|---|
| Diagrams.ChunkingUnique | src/cluster_linearize.h:395-412 | a linearization has exactly one chunking: cuts into best prefixes with feerates that do not rise determine each other |
| Diagrams.DominatesNoWorse | src/util/feefrac.h:226-234 | if at every feerate the best point of one path is at least the best point of another, its feerate diagram (over real sizes) is nowhere below the other |
| DepGraphs.DepGraph.constructor | src/cluster_linearize.h:67-68 | an empty graph, whose (empty) ancestor and descendant sets are closed and transposed |
| DepGraphs.DepGraph.Remap | src/cluster_linearize.h:74-111 | remapping through reduced parents keeps exactly the mapped positions and, for an acyclic graph, gives an isomorphic one |
| DepGraphs.DepGraph.AddTransaction | src/cluster_linearize.h:128-146 | the lowest free position is used, is its own only ancestor and descendant, and no other entry changes; sets stay reflexive, transitively closed and transposes of each other |
| DepGraphs.DepGraph.RemoveTransactions | src/cluster_linearize.h:148-171 | exactly the given positions go, everywhere; unused positions at the end are dropped; closure and transposition are kept |
| DepGraphs.DepGraph.AddDependencies | src/cluster_linearize.h:173-198 | x becomes an ancestor of y exactly if it was one, or y descends from the child and x is an ancestor of some parent; closure and transposition are kept |
| DepGraphs.DepGraph.GetReducedParents | src/cluster_linearize.h:200-219 | an antichain of strict ancestors whose ancestors regenerate the full ancestor set (for acyclic graphs) |
| DepGraphs.DepGraph.GetConnectedComponent | src/cluster_linearize.h:253-279 | the component of a transaction: connected within the given set, with nothing outside connected to it |
| DepGraphs.DepGraph.FindConnectedComponent | src/cluster_linearize.h:281-292 | a component of the set, empty only for the empty set |
| DepGraphs.DepGraph.IsConnected | src/cluster_linearize.h:294-301 | true exactly for sets that cannot be cut in two without a dependency between the parts |
| DepGraphs.ConnectedByPaths | src/cluster_linearize.h:253-262 | having no such cut is the same as having, from every transaction to every other, a path inside the set along dependencies in either direction |
| DepGraphs.DepGraph.AppendTopo | src/cluster_linearize.h:309-323 | the selected transactions are appended once each, by number of ancestors |
| DepGraphs.DepGraph.IsAcyclic | src/cluster_linearize.h:325-334 | true exactly if no two different transactions are ancestors of each other |
| Linearizations.ByCountTopo | src/cluster_linearize.h:309-323 | an order by number of ancestors is topological |
| Linearizations.Gather | src/cluster_linearize.h:506-514 | moving a set to the front of a linearization never lowers the diagram, if some start of the set is at least as good as every prefix at every feerate |
| Chunkings.ChunkLinearization | src/cluster_linearize.h:395-412 | returns the feerates of the chunks of the unique chunking |
| Chunkings.LinearizationChunking.constructor | src/cluster_linearize.h:462-471 | the chunk sets of the linearization are those of its unique chunking |
| Chunkings.LinearizationChunking.BuildChunks | src/cluster_linearize.h:433-459 | rebuilds the chunk sets of what is left of the linearization |
| Chunkings.LinearizationChunking.MarkDone | src/cluster_linearize.h:483-503 | removes a set; what is left is the old order without it, and its chunk sets are right, both when a whole first chunk goes and when they are rebuilt |
| Chunkings.LinearizationChunking.IntersectPrefixes | src/cluster_linearize.h:506-539 | a non-empty part of the subset that is its intersection with a prefix, has at least its feerate, and has no start that a chunk prefix beats |
| Chunkings.IntersectionGathers | src/cluster_linearize.h:506-514 | such a part can be moved to the front without lowering the diagram |
| AncestorFinding.AncestorCandidateFinder.constructor | src/cluster_linearize.h:562-590 | the precomputed feerates are those of the ancestor sets, although each is built on top of that of the first ancestor |
| AncestorFinding.AncestorCandidateFinder.MarkDone | src/cluster_linearize.h:592-609 | the feerates of the remaining ancestor sets stay right |
| AncestorFinding.AncestorCandidateFinder.FindCandidateSet | src/cluster_linearize.h:623-641 | a topologically closed non-empty set whose feerate no remaining ancestor set beats |
| SearchTheory.PotentialBound | src/cluster_linearize.h:821-836 | the potential set bounds the feerate of every set that fits an item and beats the best so far |
| SearchTheory.JumpAhead | src/cluster_linearize.h:838-858 | whatever part of the potential set is topologically closed belongs to every optimal set that fits the item |
| SearchTheory.OptimumExists | src/cluster_linearize.h:729-736 | some topologically closed set has the highest feerate |
| Searching.Search.constructor | src/cluster_linearize.h:741-803 | every optimal set lies in the item of one connected component, and the best so far is a candidate |
| Searching.Search.TrimImp | src/cluster_linearize.h:805-811 | the improvable transactions are exactly those with a higher feerate than the best |
| Searching.Search.FindPotential | src/cluster_linearize.h:821-836 | the loop over improvable transactions, which stops early, finds the potential set |
| Searching.Search.JumpInto | src/cluster_linearize.h:838-858 | all that can be included without losing an optimal set is included |
| Searching.Search.AddItem | src/cluster_linearize.h:813-890 | the best never gets worse, sets that beat it are still covered, and at most one item with a smaller undecided set is queued |
| Searching.Search.ChooseSplit | src/cluster_linearize.h:919-953 | the split transaction is the first one (so the one of the highest feerate) of those that leave the fewest undecided, comparing the larger side first |
| Searching.Search.CannotBeat | src/cluster_linearize.h:906-917 | if an item is dropped, no set that fits it beats the best |
| Searching.Search.Branch | src/cluster_linearize.h:955-963 | including or excluding the split transaction covers all sets of the item; the sum of 3^undecided falls |
| Searching.Search.Split | src/cluster_linearize.h:892-967 | an item is dropped or branched; at most one step is counted |
| Searching.Search.Run | src/cluster_linearize.h:969-1003 | the queue never exceeds its capacity and is never popped when empty under any mix of front, back and swaps; the search ends without its step limit; if steps are left, nothing beats the best |
| CandidateFinding.SearchCandidateFinder.constructor | src/cluster_linearize.h:685-715 | the sorted graph is the original one renumbered by falling feerate |
| CandidateFinding.SortByFeerate | src/cluster_linearize.h:697-707 | a permutation of the used positions by falling feerate, ties by rising size and then by rising position |
| CandidateFinding.SearchCandidateFinder.FindCandidateSet | src/cluster_linearize.h:723-1009 | a topologically closed non-empty set, at least as good as the one passed in; if it reports fewer steps than allowed, no closed set of what remains has a higher feerate |
| CandidateFinding.SearchCandidateFinder.MarkDone | src/cluster_linearize.h:1011-1020 | the done transactions leave both numberings |
| Linearizing.ChooseSet | src/cluster_linearize.h:1070-1103 | the chosen set is closed, can be moved to the front of what is left of the old linearization, and cannot be beaten if it is called exact |
| Linearizing.Linearize | src/cluster_linearize.h:1024-1118 | a topological permutation of all transactions, no worse at any size than the old linearization, and no worse than any linearization if it claims to be optimal; never more iterations than allowed |
| Grouping.GroupedAll | src/cluster_linearize.h:1149-1164 | adding transactions one by one, merging and swapping groups, gives a topological order by groups of falling feerate that is at no feerate below the input |
| Grouping.GroupsAreChunks | src/cluster_linearize.h:1149-1164 | the groups are exactly the chunks of the result |
| Grouping.GroupedConnected | src/cluster_linearize.h:1120-1127 | the chunks of the result are connected |
| Trees.AllTrees | src/cluster_linearize.h:1143-1147 | if every transaction has at most one child, groups are made of whole subtrees hanging on their last transaction |
| Trees.TreeBest | src/cluster_linearize.h:1128-1129 | such groups are at no feerate below any other topological order |
| PostLinearized.PassGood | src/cluster_linearize.h:1137-1164 | one forward pass keeps a topological permutation, never lowers the diagram and makes the chunks connected |
| PostLinearized.PostLinearizationGood | src/cluster_linearize.h:1120-1142 | each of the two passes never lowers the diagram, and the result is topological with connected chunks |
| PostLinearized.PostLinearizationTree | src/cluster_linearize.h:1128-1129 | for trees in either direction the result is no worse than any linearization |
| MovedLeaf.MovedLeafNoWorse | src/cluster_linearize.h:1130-1134 | moving a leaf to the back, raising its fee and post-linearizing is never worse than before |
| PostLinearizing.MergeRepresents | src/cluster_linearize.h:1267-1280 | after the pointer changes of a merge the linked lists represent the groups with the two joined |
| PostLinearizing.SwapRepresents | src/cluster_linearize.h:1281-1293 | after the pointer changes of a swap the linked lists represent the groups with the two exchanged |
| PostLinearizing.SettleGroup | src/cluster_linearize.h:1253-1294 | the linked lists represent the settled groups after the inner loop |
| PostLinearizing.AddGroup | src/cluster_linearize.h:1237-1295 | a new last group, settled: the lists represent one more step of the group theory |
| PostLinearizing.WriteBack | src/cluster_linearize.h:1297-1317 | walking the lists writes the groups into the linearization, back to front in one direction |
| PostLinearizing.RunPass | src/cluster_linearize.h:1229-1318 | a linked-list pass computes the forward or the backward pass |
| PostLinearizing.PostLinearize | src/cluster_linearize.h:1120-1319 | in place: a topological permutation, no worse than before, with connected chunks, and optimal for trees in either direction |
| Merging.ChooseMerge | src/cluster_linearize.h:1343-1351 | the chosen set is closed and can be moved to the front of both linearizations without lowering either diagram |
| Merging.MergeLinearizations | src/cluster_linearize.h:1321-1361 | a topological permutation that is no worse at any size than either input |
| Merging.MoveBack | src/cluster_linearize.h:1373-1389 | one transaction is moved right behind the last of its ancestors among those that follow it |
| Merging.FixLinearization | src/cluster_linearize.h:1363-1393 | in place: a topological permutation of the same transactions; a topological input is not changed |
| CoinsViews.BatchOneSound | src/coins.cpp:183-247 | what one batch entry does to the parent is what its coin means for the view, and keeps the parent coherent with its own base |
| CoinsCache.CoinsDB.BatchWrite | src/txdb.cpp:93-155 | the stored coins become what was visible through the child |
| CoinsCache.CoinsViewCache.constructor | src/coins.cpp:37-42 | an empty cache shows what its base shows |
| CoinsCache.CoinsViewCache.AddFlags | src/coins.h:131-144 | flags are added and the entry enters the circular list at its end exactly if it had none |
| CoinsCache.CoinsViewCache.SetClean | src/coins.h:180-187 | flags go and the entry leaves the list, whose other links still agree |
| CoinsCache.CoinsViewCache.FetchCoin | src/coins.cpp:48-64 | an entry is fetched from below without changing any view |
| CoinsCache.CoinsViewCache.GetCoin | src/coins.cpp:66-70 | the visible coin, if there is one |
| CoinsCache.CoinsViewCache.AddCoin | src/coins.cpp:72-111 | when it throws, exactly; else the coin becomes visible (unspendable ones do not) and the base is not touched; the cache is valid afterwards exactly if nothing unspent was overwritten without permission, or it threw and the old coin took no memory |
| CoinsCache.CoinsViewCache.SpendCoin | src/coins.cpp:130-150 | the coin is no longer visible, and is moved out |
| CoinsCache.CoinsViewCache.Uncache | src/coins.cpp:274-287 | an unflagged entry goes and no view changes |
| CoinsCache.CoinsViewCache.BatchEntry | src/coins.cpp:183-247 | one entry of a batch; the error for a misapplied FRESH flag cannot be raised |
| CoinsCache.CoinsViewCache.NextAndMaybeErase | src/coins.h:283-298 | the cursor goes to the next flagged entry while the one behind it is cleaned or erased |
| CoinsCache.CoinsViewCache.BatchWrite | src/coins.cpp:183-248 | the parent then shows what the child showed, and the child has only what the cursor leaves |
| CoinsCache.CoinsViewCache.Flush | src/coins.cpp:250-259 | the base shows what the cache showed, which is empty and shows the same; the best block is handed down |
| CoinsCache.CoinsViewCache.Sync | src/coins.cpp:261-272 | the base shows what the cache showed, and no entry is flagged any more; the best block is handed down |
| CoinsCache.CoinsViewCache.GetBestBlock | src/coins.cpp:173-177 | the best block of the nearest level that has one, which all levels above it then have too; no coin changes |
| CoinsCache.CoinsViewCache.SetBestBlockAt | src/coins.cpp:179-181 | one level of the tower gets a best block; nothing else changes |
| CoinsCache.CoinsViewCache.SanityCheck | src/coins.cpp:315-346 | holds in every valid state: legal flag combinations, the list is the flagged entries in both directions, and usage is the recomputed sum |
| CoinsRuns.Step | src/coins.cpp:48-287 | an operation at the top, or a flush, sync, uncache or new best block at any level, does to the visible coins and the best blocks what it does to a plain map and a list |
| CoinsRuns.Run | src/coins.cpp:48-287 | every allowed run over a tower of caches, with or without best blocks, shows a plain map and a list of best blocks under the same operations, and the sanity check passes after every operation |
| CheckQueue.NextInv | src/checkqueue.h:72-189 | every step of the master, a worker, a producer or a spurious wake-up keeps the invariant |
| CheckQueue.RunSafe | src/checkqueue.h:72-189 | in every run the to-do counter is the queued plus the in-flight checks, and every completed round has the right result |
| CheckQueue.RoundRight | src/checkqueue.h:98-106 | with nothing queued or in flight the result is empty exactly if every check of the round passed, and otherwise is the error of one of them: nothing stale leaks in |
| CheckQueue.NoDeadlock | src/checkqueue.h:72-137 | while the master is inside, some thread can take a step of work |
| CheckQueue.WorkShrinks | src/checkqueue.h:72-137 | every step of work lowers a measure |
| CheckQueue.CompleteReturns | src/checkqueue.h:164-169 | without further additions at most so many steps of work happen until the master has returned |
| HeadersSync.HeadersSyncState.constructor | src/headerssync.cpp:47-72 | starts in the first phase, with nothing received |
| HeadersSync.HeadersSyncState.ValidateAndProcessSingleHeader | src/headerssync.cpp:271-301 | accepts exactly headers that obey the difficulty rules and do not give too many commitments, and keeps work, height and commitments those of the chain so far |
| HeadersSync.HeadersSyncState.ValidateAndStoreHeadersCommitments | src/headerssync.cpp:231-269 | accepts exactly messages that connect and whose headers are accepted; the second phase begins exactly when the work is there |
| HeadersSync.HeadersSyncState.VerifyCommitment | src/headerssync.cpp:329-349 | consumes one stored bit per commitment height and accepts exactly an equal bit |
| HeadersSync.HeadersSyncState.ValidateAndStoreRedownloadedHeader | src/headerssync.cpp:303-364 | accepts exactly headers that connect, obey the rules, match their bit and fit the memory budget |
| HeadersSync.HeadersSyncState.PopHeadersReadyForAcceptance | src/headerssync.cpp:366-381 | releases the headers buried deep enough, or all once the work is there, with their previous hashes rebuilt |
| HeadersSync.HeadersSyncState.ProcessNextHeaders | src/headerssync.cpp:160-229 | in every run nothing is released before the first phase has the required work; what is released is a prefix of the second download; success and the next phase are stated for every message |
| HeadersSync.ReleasedHeader | src/headerssync.cpp:366-381 | a released header is the redownloaded one at its place, linked to the one before, and buried or released after the work was reached |
| HeadersSync.RedownloadedBit | src/headerssync.cpp:329-349 | below the required work, a header at a commitment height carries the bit of the header of the first download at that height |
| HeadersSync.BudgetFits | src/headerssync.cpp:23-34 | the memory budget is enough for the buffer and one more message, if no message is longer than the protocol allows |
| HeadersSync.Replay | src/headerssync.cpp:160-229 | a peer that repeats the chain it served fails no check, and every header up to the message that reaches the work is released |
| BigUint.BaseUint.Add | src/arith_uint256.h:129-139 | addition modulo 2^BITS, for every width |
| BigUint.BaseUint.Not | src/arith_uint256.h:63-69 | the complement: 2^BITS - 1 minus the value |
| BigUint.BaseUint.Increment | src/arith_uint256.h:167-174 | plus one modulo 2^BITS |
| BigUint.BaseUint.Negate | src/arith_uint256.h:71-78 | the negative modulo 2^BITS |
| BigUint.BaseUint.Subtract | src/arith_uint256.h:141-145 | subtraction modulo 2^BITS |
| BigUint.BaseUint.AssignUint64 | src/arith_uint256.h:82-89 | the value of a 64-bit number |
| BigUint.BaseUint.MultiplyUint32 | src/arith_uint256.cpp:47-57 | multiplication by a limb modulo 2^BITS |
| BigUint.BaseUint.Multiply | src/arith_uint256.cpp:59-73 | multiplication modulo 2^BITS, also by itself |
| BigUint.BaseUint.ShiftLeft | src/arith_uint256.cpp:13-28 | multiplication by a power of two modulo 2^BITS, for every shift |
| BigUint.BaseUint.ShiftRight | src/arith_uint256.cpp:30-45 | floor division by a power of two, for every shift |
| BigUint.BaseUint.CompareTo | src/arith_uint256.cpp:101-111 | the sign of the difference of the values |
| BigUint.BaseUint.EqualTo | src/arith_uint256.cpp:113-125 | equality with a 64-bit number |
| BigUint.BaseUint.Bits | src/arith_uint256.cpp:155-168 | the length of the value in bits |
| BigUint.BaseUint.DivideBit | src/arith_uint256.cpp:89-96 | one bit of long division: what is left and the quotient so far still make up the dividend |
| BigUint.BaseUint.Divide | src/arith_uint256.cpp:75-99 | floor division, and an error exactly for a zero divisor |
| BlockProof.OverflowIs | src/arith_uint256.cpp:182-191 | the three tests on size and word hold exactly if the shifted word does not fit in 256 bits |
| BlockProof.SetCompact | src/arith_uint256.cpp:173-193 | the denoted number modulo 2^256; negative and overflow exactly when the denoted number is |
| BlockProof.GetBlockProof | src/chain.cpp:149-162 | exactly floor(2^256 / (target + 1)) for targets that are non-negative, non-zero and in range, and 0 otherwise; no division by zero |
| BlockTree.BlockIndex.WalkIs | src/chain.cpp:88-113 | walking parents reaches the block at that place of the chain |
| BlockTree.BlockIndex.GetAncestor | src/chain.cpp:88-113 | through skip pointers, the same block as walking parents |
| BlockTree.BlockIndex.BuildSkip | src/chain.cpp:120-124 | the skip pointer is the ancestor at the skip height |
| BlockTree.BlockIndex.BuildCadenceLaneLinks | src/chain.cpp:126-139 | the lane links are the nearest strict ancestors of each lane |
| BlockTree.BlockIndex.GetPreviousBlockForLane | src/chain.cpp:141-147 | the block itself or its nearest ancestor of the lane, if that is high enough |
| BlockTree.NearestIsLast | src/chain.cpp:126-139 | the nearest block of a lane is the last one of that lane in the chain |
| BlockTree.AddBlock | src/chain.cpp:120-139 | a block added to a valid tree has all its links right |
| BlockTree.Chain.Contains | src/chain.h:520-523 | true exactly for the ancestors of the tip |
| BlockTree.Chain.Next | src/chain.h:526-532 | the successor in the active chain, if there is one |
| BlockTree.Chain.SetTip | src/chain.cpp:21-29 | afterwards the active chain is the tip and its ancestors |
| BlockTree.Chain.FindFork | src/chain.cpp:55-64 | the highest common ancestor of a block and the tip |
| BlockTree.LastCommonAncestor | src/chain.cpp:194-209 | the highest common ancestor of two blocks |
| AuxPow.CheckMerkleBranch | src/auxpow.cpp:24-34 | the fold of the branch by the bits of the index |
| AuxPow.FoldBinds | src/auxpow.cpp:24-34 | two leaves with branches of one length under one root and index are equal, or at some level the two branches hash different pairs of digests to the same digest |
| AuxPow.Search | src/auxpow_validation.cpp:95-102 | the first occurrence, or none at all |
| AuxPow.CheckCommitment | src/auxpow_validation.cpp:93-142 | succeeds exactly if the script commits to the root: behind the only header, or early enough without one, with the size and slot of the footer |
| AuxPow.Validate | src/auxpow_validation.cpp:34-148 | accepts exactly proofs of the right shape whose chain root is committed to in the coinbase in an allowed byte order |
| AuxPow.HeaderFixes | src/auxpow_validation.cpp:93-142 | a coinbase with the header commits to one root, branch length and slot |
| AuxPow.OneCoinbaseOneBlock | src/auxpow_validation.cpp:34-148 | with the same coinbase holding the header, and a fixed byte order, two accepted proofs have the same branch length and slot, and their block hashes are equal or the two chain branches collide at some level |
| Base58.EncodeFits | src/base58.cpp:98-100 | 138/100 digits plus one are enough for every length |
| Base58.DecodeFits | src/base58.cpp:53-55 | 733/1000 bytes plus one are enough for every length |
| Base58.MultiplyAdd | src/base58.cpp:58-73 | in place: the number in the buffer is multiplied and added to, and the carry is used up |
| Base58.EncodeBase58 | src/base58.cpp:89-127 | leading zeros as ones, then the base-58 digits of the number, without leading zero digits |
| Base58.DecodeBase58 | src/base58.cpp:40-135 | white space around a word of the alphabet; the bytes of its number behind a zero for each leading one; nothing exactly for malformed or too long input |
| Base58.RoundTrip | src/base58.cpp:40-135 | decoding the encoding of any bytes, with any limit that they keep, gives them back |
| Base58.DecodedBack | src/base58.cpp:40-135 | whatever is decoded encodes back to its text without the white space around it: no bytes have two texts |
| AddrManager.AddrMan.constructor | src/addrman.cpp:109-125 | an empty manager is in order |
| AddrManager.AddrMan.Find | src/addrman.cpp:401-414 | the id of an address, if it is known |
| AddrManager.AddrMan.Create | src/addrman.cpp:416-430 | a new entry at the end of the random order, counted as new; nothing else changes |
| AddrManager.SwapIndexed | src/addrman.cpp:432-454 | after two places of the random order have traded entries and positions, ids, addresses and random order still agree |
| AddrManager.AddrMan.Drop | src/addrman.cpp:456-471 | the entry trades places with the last one and goes from all indexes and counters |
| AddrManager.AddrMan.Delete | src/addrman.cpp:456-471 | an entry in no table goes and all indexes and counters still agree |
| AddrManager.AddrMan.ClearNew | src/addrman.cpp:473-489 | one cell is emptied; its entry loses a reference, and goes exactly if that was the last one |
| AddrManager.AddrMan.LeaveNew | src/addrman.cpp:495-509 | going round the buckets from its own takes an entry out of all its cells |
| AddrManager.AddrMan.Evict | src/addrman.cpp:515-542 | the occupant of a tried cell moves to its cell of the new table and is not lost |
| AddrManager.AddrMan.MakeTried | src/addrman.cpp:491-548 | the entry alone takes its tried cell, an occupant goes back to the new table, and everything agrees |
| AddrManager.AddrMan.Place | src/addrman.cpp:599-623 | an entry gets its cell exactly if it is free or its occupant must yield; one that is then in no table goes |
| AddrManager.AddrMan.AddSingle | src/addrman.cpp:550-624 | when a known or unknown address is inserted, into which cell, and what its entry then says; unroutable addresses change nothing |
| AddrManager.AddrMan.Add | src/addrman.cpp:681-691 | for each address in turn, whether it is inserted, into which cell, and what its entry then says; true exactly if some address was inserted; everything agrees and the tried table does not change |
| AddrManager.AddrMan.Good | src/addrman.cpp:626-679 | for every time: moves to the tried table exactly a known new entry that need not wait for a test, otherwise notes a collision if there is room; no tried cell is emptied; indexes, tables and counters always agree, and times are in order afterwards exactly if the address is unknown, or the time is after the epoch, or it is the epoch and the entry waits |
| AddrManager.AddrMan.Attempt | src/addrman.cpp:693-711 | the time of the attempt, and a failure counted once since the last success of any peer; in order exactly if the address is unknown or the time is not negative |
| AddrManager.AddrMan.Connected | src/addrman.cpp:877-894 | the time is moved on if it is more than 20 minutes old |
| AddrManager.AddrMan.SetServices | src/addrman.cpp:896-910 | the services of one entry |
| AddrManager.AddrMan.ResolveOne | src/addrman.cpp:916-966 | a pending collision names an occupied cell; when it is over, exactly, and that the waiting entry then has the cell exactly if the tested one must be replaced |
| AddrManager.AddrMan.ResolveCollisions | src/addrman.cpp:912-973 | the collisions are visited once each by rising id, and one stays exactly if it was not over in the state in which it was visited; no tried cell is emptied |
| AddrManager.AddrMan.SelectTriedCollision | src/addrman.cpp:975-1001 | the tried entry in the cell that the chosen collision waits for: it always exists |
| AddrCheck.CheckEntries | src/addrman.cpp:1077-1108 | no error exactly if every entry is in order by itself; and then its lists and counters are those of the entries |
| AddrCheck.CheckTried | src/addrman.cpp:1115-1130 | no error and nothing left over exactly if the tried table holds exactly the tried entries in their cells |
| AddrCheck.CheckNew | src/addrman.cpp:1132-1145 | no error and nothing left over exactly if the new table holds new entries in their cells, each as often as it is referenced |
| AddrCheck.CheckCounts | src/addrman.cpp:1154-1163 | no error exactly if there are enough counters and all of them are right |
| AddrCheck.CheckAddrman | src/addrman.cpp:1063-1166 | returns 0 exactly for consistent managers, and if entries are out of order by themselves, the error of one of them |
| AddrCheck.EntryCode | src/addrman.cpp:1077-1108 | the error of the first failed test of an entry, 0 exactly if it is in order |
| AddrCheck.GoodThenCheck | src/addrman.cpp:626-679 | the check after a success: 0 exactly if the address is unknown, or the time is after the epoch, or it is the epoch and the entry waits for a test; else -1 at the epoch (a tried entry without a success) and -6 before it |
| AddrCheck.OneBad | src/addrman.cpp:1077-1108 | if only one entry is out of order, by the time of its last success, every error that the loop over the entries can return is -1 at the epoch and -6 before it |
| AddrCheck.Check | src/addrman.cpp:1048-1061 | where ids, tables and counters agree, the periodic check fails exactly if the times of an entry are out of order |
| AddrCheck.InvConsistent | src/addrman.cpp:1063-1166 | a manager in order passes the check |
| AddrCheck.ConsistentInv | src/addrman.cpp:1063-1166 | a manager that passes is in order exactly up to stale addresses, ids, unroutable addresses and missing counters |
| AddrCheck.MissedNetwork | src/addrman.cpp:1154-1163 | a manager that passes although the counter of a network is missing: a counter of an unused network stands in for it |
| AddrRuns.Step | src/addrman.cpp:550-1001 | every operation keeps ids, tables and counters in agreement and empties no tried cell, and keeps times in order if its clock is past the epoch |
| AddrRuns.Run | src/addrman.cpp:416-1166 | from an empty manager, the check returns 0 after every operation of every run, restarts included, until the first operation with a clock that is not past the epoch; the run ends where it fails |
| AddrFile.SaveNew | src/addrman.cpp:191-201 | the new entries once each, numbered as written; the counter assert does not fire |
| AddrFile.SaveBucket | src/addrman.cpp:211-223 | the numbers of the entries in the occupied cells of a bucket, in order |
| AddrFile.SaveTried | src/addrman.cpp:202-210 | the tried entries once each; the counter assert does not fire |
| AddrFile.Serialize | src/addrman.cpp:133-228 | a file of the manager: all entries, and per bucket the numbers of its entries |
| AddrFile.ReadBuckets | src/addrman.cpp:316-331 | the usable entries of the buckets, in order |
| AddrFile.ReadEntries | src/addrman.cpp:282-314 | the entries that the records say, tried ones only if valid and first in their cell; random order and counters right for every file |
| AddrFile.RestoreRefs | src/addrman.cpp:348-376 | each entry back in its bucket, or else in that of its source, at most eight times |
| AddrFile.Prune | src/addrman.cpp:378-388 | what is left is exactly the entries in a table, otherwise unchanged; addresses, random order and counters follow |
| AddrFile.Unserialize | src/addrman.cpp:231-399 | for every file: too long ones fail; otherwise exactly the entries that the records and buckets put into a table are left, random order and counters are right, and it succeeds exactly if the manager is consistent |
| AddrFile.Reload | src/addrman.cpp:133-399 | a saved and loaded manager is in order and has the same entries in the same cells, with the same counters |
| AddrRoundTrip.RoundTrip | src/addrman.cpp:133-399 | loading a file of a manager under unchanged bucketing loses nothing: the same entries, reference counts, cells of both tables and counters, up to renumbering |
| AddrBook.MembersFit | src/addrman.cpp:268-280 | no manager in order has more entries than the loader allows |

## Left out

- 64-bit and 32-bit limits of fees, sizes, heights, counters and times: integers are unbounded, as the callers promise that sums do not overflow. Work in the headers sync and all numbers of `BigUint` do wrap.
- The bound of the bit set type on the number of transactions is a parameter (`setSize`), and the fast bit operations are set operations.
- Random choices (search order, bucket tests, commitment offset, choice of a collision) are parameters or free; the iteration order of hash maps is a parameter or free.
- `GetReducedChildren`, the mirror image of `GetReducedParents`, and the linearization display helpers.
- Coins: failed writes, `EmplaceCoinInternalDANGER`, the database's partial batches and crash replay, and memory overhead of map nodes. The memory of a script is its size.
- CoinsCache.CoinsViewCache.Flush: requires a best block only where it writes into the database, which the program asserts there; `Sync` likewise.
- CoinsRuns.Run: an unspent coin is overwritten only where the caller says so, as the description of `possible_overwrite` demands; `AddCoin` states what happens otherwise.
- Check queue: the stop request at shutdown, after which the result does not matter. `Add` notifies in the same step in which it queues.
- Headers sync: the locator of the next request and the estimate of how many commitments a peer may send, which is a parameter.
- Big integers: `GetCompact`, decimal and hexadecimal text, `getdouble`, `--` and the bitwise operators.
- Block tree: `LocatorEntries`, `FindEarliestAtLeast` and block times.
- AuxPow: the wrapper that also checks the child's own header, and proof-of-work, which is a parameter.
- Base58 with checksum, and the alphabet as text: it is given as ranges of characters.
- Address manager: `Select_`, `GetChance`, `GetAddr_`, `GetEntries_` and sizes, which only read; the format version, key and checksum at the ends of the file, the key being part of the parameters (so that error -16 is not modelled). Tables are maps from occupied cells to ids.
- Wallet, script, mempool policy, networking, RPC and all I/O.
