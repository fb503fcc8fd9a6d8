# Verified models of Cascoin's core algorithms

This project models the self-contained stateful algorithms of the Cascoin node, a Bitcoin- and
Litecoin-derived node with "Hive" mining, and proves what each of them promises over whole runs. Every module
is a Dafny rendering of one component: the branches, limits and error paths are those of the C++ code, objects
whose methods change fields are classes, and the properties are proved about every input, every run or every
interleaving.

`dafny verify dfyconfig.toml` checks all of it.

## What is modelled

- **Coins** (`Coins`, `CoinsViews`, `CoinsRuns`): the write-back cache of unspent outputs with its DIRTY and
  FRESH flags, layered on itself to any depth over a store. Every view of the stack is a plain map at all times.
- **Address manager** (`AddrTables`, `AddrMan`, `AddrManDisk`, `AddrManRead`): the five indexes that the shipped
  consistency check relates, every operation on them, and the save/load pair that rebuilds most of them.
- **Check queue** (`CheckQueue`): master and workers as interleaved steps on a mutex-protected state.
- **Block assembler** (`Mempool`, `BlockAssembly`, `PackageScore`, `BlockTemplate`, `LowFeeStop`): greedy package
  selection over a DAG, best score first, and what it leaves behind when it stops at a low fee.
- **Cuckoo cache** (`CuckooTable`, `CuckooCache`): bounded-depth insertion, lazy collection, epochs.
- **Partial Merkle trees** (`MerkleTree`, `PartialMerkle`, `MerkleBlock`): BIP 37, section "Partial Merkle branch
  format": builder, extractor, byte format.
- **256-bit arithmetic** (`Powers`, `Limbs`, `Arith`, `Compact`, `BlockProof`): limb operators for any width,
  compact targets, and the work of a block with the Hive rules.
- **Block index** (`BlockTree`, `ActiveChain`): skip pointers, the active chain, forks, locators.
- **BCT ledger** (`BctTables`, `BctLedger`): bee creation transactions and rewards under connects and disconnects.
- **Bech32** (`Bech32Code`, `Bech32Field`, `Bech32Errors`, `Bech32`): BIP 173, section "Bech32": checksum algebra, the
  detection of errors, and the string codec.
- **Compact blocks** (`CompactSlots`, `CompactBlock`, `CompactScan`, `CompactRebuild`, `PartialBlock`): BIP 152, sections
  "HeaderAndShortIDs" and "BlockTransactionsRequest".
- **Rolling bloom filter** (`RollingBloom`), **bee bins and their threads** (`BeeBins`, `BeeWorkers`, `BeeMining`),
  **Base58** (`Radix`, `Base58`).

Hash functions, random draws, the clock, routability, CheckBlock, fee rates and Hive difficulty are parameters.
A hash is assumed injective only where a contract says so. The mempool is a finite DAG with correct ancestor
totals, and the two SQL tables are maps with the declared cascade.

## Where code and documentation differ, and what holds instead

- A comment in the cuckoo cache says that the first displaced element sits at the first of the eight places
  (src/cuckoocache.h:419-420). The expression below it picks the second one; `NextPlace` states that.
- The partial Merkle tree answers failures with the null hash, so a block whose Merkle root is the null hash proves
  nothing about what was reported. `Soundness` excludes that root and `NullRootProvesNothing` shows it has to.
- `ExtractMatches` empties the list of matches but only appends to the list of indices; its contract says so.
- `AddCoin` without `possible_overwrite` keeps the stack valid exactly when the view has no such unspent coin, or
  the coin is unspendable. `Good` and `Attempt` keep the consistency check's conditions exactly for a positive
  and a non-negative time (or an unknown address).
- A Hive coinbase id that is used twice replaces a reward row. `RepeatedPrize` states exactly when the books
  still balance.
- The work of a Hive block wraps to zero exactly when its own target and that of the proof-of-work block behind it
  are both 1 (`HiveProofExact`). The work of a proof-of-work block wraps only for targets below the bonus factor
  (`PowProofExact`).
- A comment says that once a candidate pays too little, everything else has a lower fee rate (src/miner.cpp:538-541).
  Everything else has no better score, and no better rate except for transactions whose own rate is below their package's
  (`OpenRates`). The search can leave such a package that pays more than the minimum (`StopsBeforeAPayingPackage`).
- The totals of a modified package lose the modified fee of the first ancestor and the plain fees of the later ones.
  `FeesRight` states exactly when the sum is still right.
- Slot numbers of compact blocks have 16 bits, but messages of up to 100000 transactions are accepted. Past 2^16 short ids
  lead to wrong slots (`MapIsRight`), a known transaction can take the coinbase's place (`CoinbaseOverwritten`), and for
  2^16 prefilled transactions with a short id the search for a free slot never ends (`EndlessMeans`). `RebuildsExactly`
  states when the block is rebuilt all the same.
- Multiplying a number by itself in place clears it before it is read and leaves zero (`Multiply`).
- Requested indexes that are not strictly increasing are written without complaint and refused by the reader
  (`IndexesRoundTrip`).

## Model

| member | source | states |
|---|---|---|
| Coins.MergeMovesView | src/coins.cpp:145-201 | Merging a child's entries in any order keeps the meaning of the flags and makes this view what the child's view was |
| CoinsViews.StoreWrittenIsOverlay | src/coins.h:108-116 | For right flags, writing the dirty entries to a store gives exactly the view the cache showed |
| CoinsViews.CoinsStore.BatchWrite | src/txdb.cpp:109-117 | The store's unspent coins afterwards are those with the dirty entries written over |
| CoinsViews.CoinsViewCache.TopRewritten | src/coins.h:201-215 | Rewriting a cache's own fields changes the top view only, and validity reduces to its own flags and counter |
| CoinsViews.CoinsViewCache.constructor | src/coins.h:201-215 | A new cache over a valid base is valid and shows what the base shows |
| CoinsViews.CoinsViewCache.FetchCoin | src/coins.cpp:40-55 | A lookup that fills caches leaves every view of the stack alone, and its answer is the view's |
| CoinsViews.CoinsViewCache.GetCoin | src/coins.cpp:57-64 | Found exactly when the view has the coin, with the view's coin, never a spent one |
| CoinsViews.CoinsViewCache.HaveCoin | src/coins.cpp:125-128 | True exactly when the view has an unspent coin |
| CoinsViews.CoinsViewCache.AddCoin | src/coins.cpp:66-85 | When it throws; the new view; and that it keeps the stack valid exactly when overwriting was announced, the coin is unspendable or the view had none |
| CoinsViews.AddedMeaning | src/coins.cpp:66-85 | The FRESH mark AddCoin sets is right exactly when overwriting was announced or the view has no such coin, and the view gains the coin |
| CoinsViews.CoinsViewCache.SpendCoin | src/coins.cpp:98-112 | The top view loses the coin, no other view changes, and the coin handed out is the view's; it reports success whenever the cache or the view knew the coin |
| CoinsViews.SpentMeaning | src/coins.cpp:103-110 | Erasing a FRESH entry and blanking any other have the same meaning |
| CoinsViews.CoinsViewCache.Uncache | src/coins.cpp:210-217 | No view changes; only an entry with no flags is dropped |
| CoinsViews.CoinsViewCache.MergeEntry | src/coins.cpp:147-198 | One entry of a batch: throws exactly on a misapplied FRESH flag, else the merged entry, with the usage counter exact |
| CoinsViews.CoinsViewCache.BatchWrite | src/coins.cpp:145-201 | With right flags in the child it never throws and the view becomes the child's view; the counter is exact on every path |
| CoinsViews.FreshNotMisapplied | src/coins.cpp:169-176 | Right flags make the misapplied-FRESH throw unreachable |
| CoinsViews.CoinsViewCache.Flush | src/coins.cpp:203-208 | The base shows what this view showed and has its best block, all other views are unchanged, and the cache is empty with counter zero |
| CoinsRuns.AddCoins | src/coins.cpp:87-96 | The view gains exactly the spendable outputs, for any view with `check`, else for new outputs or a coinbase |
| CoinsRuns.WithOutputsAt | src/coins.cpp:87-96 | What one output point holds after a transaction's outputs were added |
| CoinsRuns.ApplyAt | src/coins.cpp:57-217 | A lookup, Uncache or Flush made anywhere in the stack does to the views what it does to plain maps |
| CoinsRuns.Step | src/coins.cpp:40-217 | One call on the stack equals one step on plain maps, and so does its answer |
| CoinsRuns.Run | src/coins.cpp:40-217 | Any run of any stack: flags and counters right in every cache, no throw, every view and every answer as on plain maps |
| AddrTables.SwappedKeeps | src/addrman.cpp:93-111 | Swapping two random-order places keeps every condition of the consistency check |
| AddrTables.DeletedKeeps | src/addrman.cpp:113-125 | Deleting an unreferenced entry keeps the conditions of the consistency check and touches only random positions of the others |
| AddrTables.UnrefKeeps | src/addrman.cpp:127-138 | Giving up a new-table slot keeps those conditions; an entry without slots is left in neither table |
| AddrTables.RefKeeps | src/addrman.cpp:302-305 | Taking a free new-table slot at the hashed place keeps those conditions |
| AddrTables.TakenKeeps | src/addrman.cpp:163-175 | Taking an entry out of the tried table keeps those conditions, with the entry in neither table |
| AddrTables.PutKeeps | src/addrman.cpp:183-187 | Putting an entry in neither table at its free tried slot keeps those conditions |
| AddrTables.CreatedKeeps | src/addrman.cpp:81-91 | A new entry under the next id keeps those conditions, and that id was unused |
| AddrTables.ClearedKeeps | src/addrman.cpp:127-140 | Clearing any new-table slot, with the deletion it may cause, keeps those conditions |
| AddrTables.ClearedRest | src/addrman.cpp:127-140 | Clearing a slot touches no entry but the holder, which goes only if that was its last slot |
| AddrMan.AddressManager.constructor | src/addrman.h:456-483 | The cleared tables satisfy the check for a nonzero key |
| AddrMan.AddressManager.Find | src/addrman.cpp:68-79 | The id on file for an address, if any |
| AddrMan.AddressManager.SwapRandom | src/addrman.cpp:93-111 | The tables afterwards are the swapped ones |
| AddrMan.AddressManager.Delete | src/addrman.cpp:113-125 | The tables afterwards are those without the entry; its assertions hold |
| AddrMan.AddressManager.ClearNew | src/addrman.cpp:127-140 | The tables afterwards are the cleared ones |
| AddrMan.AddressManager.LeaveNew | src/addrman.cpp:142-156 | The entry gives up all its slots and nothing else changes |
| AddrMan.AddressManager.Evict | src/addrman.cpp:163-181 | The evicted entry is back in the new table at its source's slot; at most that slot's holder is gone |
| AddrMan.AddressManager.MakeTried | src/addrman.cpp:142-188 | The entry is tried at its one slot; an evicted one is new again with one reference; at most one entry is lost |
| AddrMan.AddressManager.FindBucket | src/addrman.cpp:219-234 | From any random start the search finds a bucket that holds the entry |
| AddrMan.AddressManager.Good | src/addrman.cpp:190-240 | The exact service becomes tried at its one slot with its times set, others keep their statistics and at most one is lost; the check holds again exactly for an unknown service or a positive time |
| AddrMan.AddressManager.Refresh | src/addrman.cpp:256-283 | The exact new statistics of a known address, and exactly when it seeks another slot |
| AddrMan.WinsDraw | src/addrman.cpp:278-283 | One draw in two to the power of the slots it has |
| AddrMan.AddressManager.Insert | src/addrman.cpp:291-311 | Exactly when the slot is taken over, and that a slotless loser disappears |
| AddrMan.AddressManager.Add | src/addrman.cpp:242-313 | Added exactly for a routable unknown address; kept exactly when its slot could be had; a known one is refreshed and perhaps inserted once more |
| AddrMan.AddressManager.Attempt | src/addrman.cpp:315-335 | The exact new statistics; the check holds exactly for an unknown service or a non-negative time |
| AddrMan.AddressManager.Connected | src/addrman.cpp:483-501 | The time is renewed exactly when more than 20 minutes old |
| AddrMan.AddressManager.SetServices | src/addrman.cpp:503-519 | Only the services of the exact service change |
| AddrMan.AddressManager.GetAddr | src/addrman.cpp:462-481 | Distinct good entries on file, within both limits, all of them if the limits are not reached; only random positions change |
| AddrMan.EntriesCounted | src/addrman.cpp:390-391 | The random order has as many entries as the two counters say |
| AddrMan.Run | src/addrman.cpp:385-459 | Every run of timely calls ends with all conditions of the check |
| AddrManDisk.OrderEnumerates | src/addrman.h:314-333 | New entries in id order, then tried ones, list every entry once |
| AddrManDisk.RankIsPosition | src/addrman.h:315-325 | The number written for an id is its place in that order |
| AddrManDisk.Serialize | src/addrman.h:301-349 | The stream written for any sound manager |
| AddrManRead.NewEntryRead | src/addrman.h:379-397 | Reading one new entry keeps the correspondence with what was saved |
| AddrManRead.TriedEntryRead | src/addrman.h:400-419 | A tried entry finds its own slot free and keeps the correspondence |
| AddrManRead.SlotRead | src/addrman.h:421-438 | A new-table slot hashes to where it was written from, is free, and the entry has room for it |
| AddrManRead.AllRead | src/addrman.h:351-454 | Having read everything, the check holds and the tables are the saved ones up to renaming |
| AddrManRead.Prune | src/addrman.h:440-454 | Afterwards every entry is in one of the tables and in the random order; on checked tables nothing is pruned |
| AddrManRead.Unserialize | src/addrman.h:351-454 | Whatever is accepted, the random order lists exactly the entries and each is in one of the tables; a faithful stream is accepted and restores entries, both tables, reference counts and counters |
| AddrManRead.RoundTrip | src/addrman.h:300-454 | Saving and loading any sound manager loses nothing and the check holds again |
| CheckQueue.BatchNow | src/checkqueue.h:102-107 | A batch is at least one check, no more than are queued, and no more than the batch size unless one |
| CheckQueue.FromBackSplits | src/checkqueue.h:108-114 | Taking a batch from the back loses and doubles no check |
| CheckQueue.CleanUpKeeps | src/checkqueue.h:75-86 | The clean-up of a finished batch keeps the invariant of the queue |
| CheckQueue.ApplyKeeps | src/checkqueue.h:66-158 | Every step of every thread keeps the invariant: exact counters, no check lost, the verdict right so far |
| CheckQueue.EveryRun | src/checkqueue.h:66-158 | Every reachable state of every interleaving has the invariant |
| CheckQueue.HistoryIsSteps | src/checkqueue.h:140-158 | The checks of the round are those handed to Add since Wait last returned, read off the steps alone |
| CheckQueue.WaitTellsTheTruth | src/checkqueue.h:88-97 | Wait returns true exactly when every check added since the last Wait is good |
| CheckQueue.NoLostWakeUp | src/checkqueue.h:80-82 | A master waiting without a notification means that some worker still holds a batch |
| CheckQueue.NeverStuck | src/checkqueue.h:66-124 | While the master waits some thread can take a step that brings the end nearer |
| CheckQueue.StepsRunOut | src/checkqueue.h:66-124 | Every step that serves the round lowers a measure |
| CheckQueue.WaitEnds | src/checkqueue.h:66-124 | A round takes no more of those steps than the measure says |
| Mempool.AncestorCount | src/miner.cpp:448-457 | An ancestor has a smaller ancestor count |
| Mempool.WeightBySize | src/miner.cpp:357-365 | The weight of a set is at most four times its virtual size |
| BlockAssembly.UpdateForParentInclusion | src/miner.cpp:418-427 | One ancestor's size and sigops come off the descendant's current totals, with its modified fee the first time and its plain fee later, and the entry's history grows by it |
| BlockAssembly.TakenTotals | src/miner.h:119-131 | What taking ancestors off in turn leaves: the totals minus theirs, up to the drift of plain against modified fees |
| BlockAssembly.TrackedCounts | src/miner.cpp:406-431 | Totals with some of the block's ancestors taken off never undercount what is missing |
| BlockAssembly.OpenTotals | src/miner.cpp:406-431 | The totals of an entry not refused are exactly those of what is missing of its package, up to that drift |
| BlockAssembly.FeesRight | src/miner.cpp:420-426 | A modified fee total is right exactly when the plain fees taken off later add up to the modified ones |
| BlockAssembly.UpdateDescendants | src/miner.cpp:411-428 | Exactly the descendants outside the package are updated, each once |
| BlockAssembly.UpdatePackagesForAdded | src/miner.cpp:406-431 | Every modified entry is the pool's totals with ancestors in the block taken off once each, none missed unless the entry was refused, and exactly the dependents are entered |
| BlockTemplate.SortForBlock | src/miner.cpp:448-457 | Exactly the package, each once, by ancestor count and then hash, so that ancestors come first (with `AncestorCount`) |
| PackageScore.ScoreIsSmaller | src/txmempool.h:294-310 | The score is the smaller of a transaction's own rate and its package's |
| PackageScore.BeforeTrans | src/txmempool.h:273-292 | The comparator is transitive, ties by hash included |
| PackageScore.Best | src/miner.cpp:503-503 | The first modified entry comes before all others |
| PackageScore.Choose | src/miner.cpp:499-523 | The candidate looked at next: no modified entry and no later entry of the pool has a better score |
| BlockTemplate.ChosenIsBest | src/miner.cpp:499-541 | The candidate looked at is the best of all that are neither in the block nor refused, with its exact totals |
| BlockTemplate.Assembler.constructor | src/miner.cpp:85-125 | An empty block with the coinbase reserve and the weight limit clamped |
| BlockTemplate.Assembler.TestPackageTransactions | src/miner.cpp:371-385 | True exactly when every transaction is final and allowed, BCTs included |
| BlockTemplate.PackageFits | src/miner.cpp:357-365 | A package that passes the size test really fits, because its counts are never too small |
| BlockTemplate.FirstOfPackage | src/miner.cpp:582-590 | Its first transaction can be added now and the rest remains a package that fits |
| BlockTemplate.Assembler.AddToBlock | src/miner.cpp:387-404 | One more transaction in order with exact totals, inside both limits |
| BlockTemplate.Assembler.AddPackage | src/miner.cpp:582-590 | The whole package is in the block and out of the modified set |
| BlockTemplate.Assembler.TryPackage | src/miner.cpp:562-595 | Either exactly the missing ancestors and the transaction go in, or a forbidden one bars the package and nothing changes |
| BlockTemplate.TooLarge | src/miner.cpp:543-560 | A package refused for its size would have overfilled the block as it was then, counting only what was missing |
| BlockTemplate.Assembler.AddPackageTxs | src/miner.cpp:469-597 | It ends; the block is ancestor-closed, ordered, free of duplicates and within limits; it grows by packages that were each the best open one and paid enough; every refusal has its reason; it stops with nothing open, nearly full, or at the best open candidate when that pays too little |
| LowFeeStop.OpenRates | src/miner.cpp:538-541 | When the search stops, an open package with a rate above the stopping score belongs to a transaction whose own rate is no higher than that score and below its package's; all others have no higher rate than the package that stopped it |
| LowFeeStop.NothingElsePaysMore | src/miner.cpp:538-541 | Where no open transaction's own rate is below its package's, everything else has no higher fee rate |
| LowFeeStop.PayingOpen | src/policy/feerate.cpp:23-38 | An open package that pays the minimum rate belongs to such a transaction; any other that passes the test does so by rounding, is smaller and pays the minimum rounded down |
| LowFeeStop.StopsBeforeAPayingPackage | src/miner.cpp:469-541 | A pool of five on which the search stops with an empty block while such a package, still open, pays more than the minimum |
| CuckooTable.PutKeepsPlaced | src/cuckoocache.h:406-439 | Writing an absent element at one of its places keeps live elements at their own places and apart |
| CuckooTable.LiveOnce | src/cuckoocache.h:392-440 | No element is live twice, the default element included |
| CuckooCache.Cache.constructor | src/cuckoocache.h:340-353 | Everything collected, with the epoch size of 45 percent |
| CuckooCache.Cache.EpochCheck | src/cuckoocache.h:289-321 | Ages only a full epoch, and leaves room for one more insertion under the load bound |
| CuckooCache.Cache.NextPlace | src/cuckoocache.h:430-430 | One of the element's places; the second one when none was looked at before |
| CuckooCache.Cache.Contains | src/cuckoocache.h:467-477 | Found exactly when one of its places holds it; erasing takes it out of the live elements and nothing else |
| CuckooCache.Cache.FoundAgain | src/cuckoocache.h:445-456 | What is inserted, found and erased is found again |
| CuckooCache.Cache.Insert | src/cuckoocache.h:392-440 | After the epoch check at most one live element is dropped, only if no place of the new one could be had; the new one is live unless it is the dropped one |
| CuckooCache.LoadBound | src/cuckoocache.h:289-321 | At most twice the epoch bound of elements is live |
| CuckooCache.Run | src/cuckoocache.h:289-477 | In every run: own places, pairwise different, load bounded |
| MerkleTree.NodesDiffer | src/merkleblock.cpp:101-107 | With distinct ids and an injective hash, nodes of one height have different hashes |
| MerkleTree.TopIsRoot | src/merkleblock.cpp:40-58 | The recursive hash at the top is the Merkle root by its level-by-level definition |
| PartialMerkle.HashCount | src/merkleblock.cpp:60-76 | A subtree stores between one and as many hashes as it has leaves, at most one more than a path for each match |
| PartialMerkle.WholeHashCount | src/merkleblock.h:30-40 | At most one hash for each transaction and at most 1 + matches * height in all |
| PartialMerkle.NodeTruthful | src/merkleblock.cpp:78-114 | A node with the true hash reports only true entries below it |
| PartialMerkle.Soundness | src/merkleblock.cpp:132-163 | If the answer is the list's Merkle root, every reported id is the list's entry at the reported index, whatever was supplied |
| PartialMerkle.NullRootProvesNothing | src/merkleblock.cpp:132-163 | For every list whose root is the null hash, bits and hashes that make it fail |
| PartialMerkle.Replays | src/merkleblock.cpp:60-114 | The extractor consumes exactly what the builder emitted and recovers hash and matches |
| PartialMerkle.RoundTrip | src/merkleblock.cpp:116-163 | Building and extracting, with up to seven padding bits, gives the root and exactly the masked ids in order |
| MerkleBlock.Pack | src/merkleblock.h:99-104 | Bytes whose bits, least significant first, are the given ones and then clear ones |
| MerkleBlock.Unpack | src/merkleblock.h:92-98 | All bits of the bytes, least significant first |
| MerkleBlock.Unpacked | src/merkleblock.h:88-105 | Packing and unpacking gives the bits back with fewer than eight clear ones behind |
| MerkleBlock.PartialMerkleTree.FromMask | src/merkleblock.cpp:116-128 | The object holds the tree for the mask |
| MerkleBlock.PartialMerkleTree.TraverseAndBuild | src/merkleblock.cpp:60-76 | Appends exactly the node's bits and hashes |
| MerkleBlock.PartialMerkleTree.TraverseAndExtract | src/merkleblock.cpp:78-114 | Cursors, matches, indices and the bad flag advance as the value-level walk says |
| MerkleBlock.PartialMerkleTree.ExtractMatches | src/merkleblock.cpp:132-163 | Root or null, matches, appended indices, and the flag that sticks |
| MerkleBlock.ThroughBytes | src/merkleblock.h:87-105 | Built, written, read and extracted: the root and the masked ids with their indices |
| Arith.BaseUint.Add | src/arith_uint256.h:141-151 | The sum modulo the width, also when both operands are one object |
| Arith.BaseUint.Increment | src/arith_uint256.h:179-186 | Plus one modulo the width |
| Arith.BaseUint.Complement | src/arith_uint256.h:75-81 | The largest number minus this one |
| Arith.BaseUint.Negate | src/arith_uint256.h:83-90 | The negative modulo the width |
| Arith.BaseUint.Subtract | src/arith_uint256.h:153-157 | The difference modulo the width, and the plain one when not negative |
| Arith.BaseUint.CompareTo | src/arith_uint256.cpp:111-121 | The sign of the difference |
| Arith.BaseUint.Bits | src/arith_uint256.cpp:173-186 | The least number of bits that is enough |
| Arith.BaseUint.Low64 | src/arith_uint256.h:251-255 | The number modulo 2^64 |
| Arith.BaseUint.ShiftLeft | src/arith_uint256.cpp:23-38 | Times a power of two modulo the width, for any shift |
| Arith.BaseUint.ShiftRight | src/arith_uint256.cpp:40-55 | Divided by a power of two, rounded down, for any shift |
| Arith.BaseUint.MultiplySmall | src/arith_uint256.cpp:57-67 | The product with a 32-bit number modulo the width |
| Arith.BaseUint.Multiply | src/arith_uint256.cpp:69-83 | The product modulo the width; zero when a number is multiplied by itself in place |
| Arith.BaseUint.Divide | src/arith_uint256.cpp:85-109 | The quotient rounded down for every divisor but zero, which is an error and leaves zero |
| Arith.TakeBit | src/arith_uint256.cpp:98-106 | Subtracting the aligned divisor and setting its bit keeps quotient and remainder adding up to the dividend |
| Compact.SetCompact | src/arith_uint256.cpp:206-224 | The value, and both flags exactly: overflow when mantissa * 256^(exponent - 3) needs more than 256 bits |
| Compact.OverflowTest | src/arith_uint256.cpp:219-222 | The overflow test on byte count and mantissa holds exactly when the value needs more than 256 bits |
| Compact.GetCompact | src/arith_uint256.cpp:226-247 | The encoded word, with both assertions of the encoder |
| Compact.EncodedMeaning | src/arith_uint256.cpp:226-247 | Decoding the encoded word gives the number rounded down, and the sign bit is set exactly for a negative nonzero |
| Compact.LargestRepresentable | src/arith_uint256.h:266-285 | The number rounded by the encoder is the largest value any compact word stands for that is not above it |
| Compact.RoundedMonotone | src/arith_uint256.h:266-285 | Rounding is monotone and idempotent |
| Compact.DecodedIsFixed | src/arith_uint256.h:266-285 | A value some word stands for survives the trip |
| Compact.Requantize | src/arith_uint256.cpp:206-247 | Encoding and decoding in place rounds down with neither flag set |
| BlockProof.WorkIs | src/chain.cpp:146-147 | The quotient without 2^256 is 2^256 / (target + 1) rounded down |
| BlockProof.TargetWork | src/chain.cpp:146-147 | The computation on limbs gives 2^256 / (target + 1) rounded down, for every target below the largest number |
| BlockProof.NeverAllOnes | src/chain.cpp:142-147 | No decoded target is the largest number, so the divisor never wraps to zero |
| BlockProof.FindPow | src/chain.cpp:152-156 | The last proof-of-work block before a row of Hive blocks |
| BlockProof.FindScale | src/chain.cpp:172-186 | The factor for the distance to the last Hive block and its difficulty |
| BlockProof.GetBlockProof | src/chain.cpp:129-191 | The proof by the rules, modulo 2^256; zero for the genesis block and invalid targets |
| BlockProof.PowProofExact | src/chain.cpp:170-188 | A proof-of-work block counts between once and maxKPow times its work, and the product exceeds 256 bits exactly when the factor is above target + 1, or equal to it where that divides 2^256 |
| BlockProof.HiveProofExact | src/chain.cpp:151-168 | A Hive block's sum exceeds 256 bits exactly when both targets are 1 |
| BlockTree.LosesLowestBit | src/chain.cpp:73-74 | An odd multiple of a power of two loses exactly that power |
| BlockTree.SkipHeight | src/chain.cpp:76-85 | The height a skip pointer leads to is below every height above zero |
| BlockTree.GetAncestor | src/chain.cpp:87-112 | Through skip pointers the same entry as the plain walk; null exactly for heights outside the chain |
| BlockTree.BuildSkip | src/chain.cpp:119-123 | The skip pointer is the ancestor at the skip height |
| BlockTree.AddBlock | src/chain.cpp:119-123 | A grown tree keeps all skip pointers right |
| BlockTree.Grow | src/chain.cpp:119-123 | Any tree grown block by block has all skip pointers right |
| BlockTree.LastCommonAncestor | src/chain.cpp:237-254 | The highest common ancestor, or null when there is none; its assertion holds |
| ActiveChain.Chain.SetTip | src/chain.cpp:15-25 | Stopping early still leaves exactly the tip's ancestors |
| ActiveChain.Chain.Next | src/chain.h:489-495 | The successor in the chain; null exactly for the tip and for blocks outside |
| ActiveChain.Chain.FindFork | src/chain.cpp:55-64 | The highest ancestor of the block that is in the chain |
| ActiveChain.Chain.GetLocator | src/chain.cpp:27-53 | Strictly descending ancestors from the start to genesis, at most 12 + ceil(log2(height + 1)) of them |
| ActiveChain.CeilLog2Is | src/chain.cpp:39-49 | The logarithm in the length bound is the least exponent that reaches the number |
| BctTables.TotalAdd | src/bctdb.cpp:681-702 | One more reward row adds its amount to its BCT's total |
| BctTables.BalancedPrize | src/bctdb.cpp:2005-2022 | A reward with a new coinbase id keeps totals and profit balanced |
| BctTables.RepeatedPrize | src/bctdb.cpp:656-679 | With a known id the books balance exactly when the replaced row was worth nothing |
| BctTables.BalancedConnected | src/bctdb.cpp:1916-2040 | A connected block keeps rewardsPaid the sum of the rows and profit rewardsPaid minus cost |
| BctTables.BalancedRewound | src/bctdb.cpp:2043-2081 | A rewind keeps rewardsPaid the sum of the remaining rows and profit rewardsPaid minus cost |
| BctTables.BooksConnected | src/bctdb.cpp:1931-2024 | Statuses and counters do not feed back into what is stored |
| BctTables.BooksRewound | src/bctdb.cpp:2050-2055 | A rewind keeps exactly what is not above the fork |
| BctTables.TxsUndone | src/bctdb.cpp:2050-2072 | What a block above the fork added, a rewind takes away |
| BctLedger.RewindReplay | src/bctdb.cpp:2043-2081 | Rewinding a replayed chain to any height leaves the books of the blocks up to it |
| BctLedger.Ledger.ProcessTx | src/bctdb.cpp:1933-2024 | One transaction leaves its BCT record, its reward row and the rewarded record with new totals |
| BctLedger.Ledger.ProcessBlock | src/bctdb.cpp:1916-2040 | The tables after a block, its height, and a cache that is the table |
| BctLedger.Ledger.DeleteAfter | src/bctdb.cpp:1826-1878 | Both deletions, with the rewards of deleted BCTs gone too |
| BctLedger.Ledger.TotalRewards | src/bctdb.cpp:681-702 | The sum of the amounts over the rows of one BCT |
| BctLedger.Ledger.HandleReorg | src/bctdb.cpp:2043-2081 | The tables after a rewind, with every total recounted |
| BctLedger.Run | src/bctdb.cpp:2109-2145 | After any connects and disconnects the ledger shows what replaying the surviving chain shows, and its books balance |
| Bech32Code.PolyMod | src/bech32.cpp:37-94 | The loop computes the remainder that the algebra below is about |
| Bech32Code.StepLinear | src/bech32.cpp:80-91 | One step of the remainder is linear over xor |
| Bech32Code.StepKeepsNonzero | src/bech32.cpp:80-91 | One step never turns a nonzero remainder into zero |
| Bech32Code.FromLinear | src/bech32.cpp:37-94 | The remainder of a whole list is linear in start value and symbols |
| Bech32Code.BurstDetected | src/bech32.cpp:37-94 | Lists of any length that differ only inside six consecutive positions have different remainders |
| Bech32Field.NoSmallPeriod | src/bech32.cpp:46-49 | In the field of the generator's roots no nonzero element returns before 1023 multiplications by the field's generator |
| Bech32Errors.RemainderValue | src/bech32.cpp:37-94 | The remainder has the value of the whole list at every root of the generator |
| Bech32Errors.Root997 | src/bech32.cpp:46-49 | The 997th power is a root; with the next two these are three consecutive ones |
| Bech32Errors.NoneCancel | src/bech32.cpp:46-49 | Three terms less than 1023 apart do not cancel at three consecutive roots |
| Bech32Errors.ThreeDetected | src/bech32.cpp:46-49 | Lists of any length that differ in no more than three places, all within 1023 positions, have different remainders |
| Bech32Code.CreateChecksum | src/bech32.cpp:127-139 | The six groups of five bits of the remainder, xor 1 |
| Bech32Code.ChecksumVerifies | src/bech32.cpp:117-139 | Any list with its created checksum behind it verifies |
| Bech32Code.ChecksumUnique | src/bech32.cpp:117-139 | No other six symbols behind the list verify |
| Bech32.ExpandHRP | src/bech32.cpp:102-115 | High bits, a zero, low bits |
| Bech32.Encode | src/bech32.cpp:146-156 | Prefix, separator and symbols with their checksum |
| Bech32.Decode | src/bech32.cpp:158-189 | Accepts exactly the well-formed strings with a right checksum |
| Bech32.RoundTrip | src/bech32.cpp:146-189 | Decoding an encoding gives the parts back exactly within 90 characters, and is refused beyond |
| Bech32.Canonical | src/bech32.cpp:158-189 | An accepted string is, in lower case, the encoding of what it decodes to |
| Bech32.NeverBothVerify | src/bech32.cpp:117-125 | Two payloads that differ only within six consecutive symbols never both verify |
| Bech32.ThreeErrorsCaught | src/bech32.cpp:46-49 | Two payloads of up to 1023 symbols that differ in no more than three of them never both verify |
| CompactSlots.SlotsPartitioned | src/blockencodings.cpp:58-85 | Prefilled and short-id slots are distinct, in bounds, and together all slots |
| CompactSlots.NextFree | src/blockencodings.cpp:82-85 | Skipping occupied slots leads to the next free one |
| CompactBlock.MakeCompact | src/blockencodings.cpp:18-28 | The coinbase in full and the short ids of the rest |
| CompactBlock.MapsAll | src/blockencodings.cpp:99-102 | The map has as many entries as there are ids exactly when none occurs twice |
| CompactScan.PoolVerdict | src/blockencodings.cpp:104-132 | A pool transaction is taken exactly when it is the only one considered that leads to the slot |
| CompactScan.ExtraVerdict | src/blockencodings.cpp:134-163 | An extra transaction is taken when the pool had none, and a repeated one contests nothing |
| CompactScan.HeldWhenKnown | src/blockencodings.cpp:104-163 | If one transaction leads to a slot, the slot holds it exactly when it is known, early exits included |
| CompactScan.ContestedWhenTwo | src/blockencodings.cpp:104-163 | Two different known transactions that lead to one slot leave it empty |
| CompactScan.OfferShows | src/blockencodings.cpp:111-125 | What an offer does to slots and count is what it does to the slot's standing |
| CompactScan.NextJudged | src/blockencodings.cpp:108-126 | A known transaction moves the slot it leads to and no other |
| CompactBlock.MapIsRight | src/blockencodings.cpp:80-86 | With distinct ids every id leads to its own slot exactly up to 2^16 transactions |
| CompactRebuild.LeadsExactly | src/blockencodings.cpp:80-86 | An id leads to its own slot, or to the one 2^16 before it, and nowhere else |
| CompactRebuild.SlotHolds | src/blockencodings.cpp:48-168 | What each slot holds: its own transaction or the one 2^16 on if only that is known, nothing if both are, what was prefilled if none is |
| CompactRebuild.RebuildsExactly | src/blockencodings.cpp:48-190 | For any message that describes a block, the slots completed with what they lack are the block exactly if no known transaction from beyond 2^16 is misplaced |
| CompactRebuild.RebuildsSmall | src/blockencodings.cpp:176-190 | Up to 2^16 transactions they are the block, whatever collisions the pool has inside |
| CompactRebuild.CoinbaseOverwritten | src/blockencodings.cpp:80-115 | In a larger block a known transaction at slot 2^16 takes the place of the prefilled coinbase |
| CompactBlock.CompactDescribes | src/blockencodings.cpp:18-28 | The message made from a block describes that block: prefilled at their slots, ids of the others in order |
| PartialBlock.PartialBlock.Prefill | src/blockencodings.cpp:58-74 | Refuses exactly null or out-of-bounds prefilled transactions, else places each |
| PartialBlock.PartialBlock.MapIds | src/blockencodings.cpp:76-102 | Ends exactly unless 2^16 prefilled transactions meet a short id; then succeeds exactly when no id occurs twice and no bucket is too crowded, with slot numbers cut to 16 bits |
| PartialBlock.PartialBlock.NextOffset | src/blockencodings.cpp:83-84 | The next free slot, or a search whose 16-bit offset meets an occupied slot after any number of increments |
| PartialBlock.EndlessMeans | src/blockencodings.cpp:83-84 | That search is endless exactly when all slots 16 bits can number are prefilled and a short id is left |
| PartialBlock.EndlessAccepted | src/blockencodings.cpp:48-74 | A message like that which is accepted |
| PartialBlock.PartialBlock.Scan | src/blockencodings.cpp:104-163 | Every slot ends up where the known transactions that lead to it put it, as if scanned alone; it stops early only with a transaction for every id; the count found is exact |
| PartialBlock.PartialBlock.InitData | src/blockencodings.cpp:48-168 | For messages of any size: does not return exactly in the endless case; invalid exactly for unacceptable messages, failed exactly for ids that cannot be mapped, otherwise ready with every slot accounted for |
| PartialBlock.PartialBlock.FillBlock | src/blockencodings.cpp:176-208 | Invalid exactly for the wrong number of missing transactions, else the slots in order with those filled in |
| PartialBlock.Relay | src/blockencodings.cpp:18-208 | From sender to receiver, for blocks of any size: when the message is usable, when what is lacking completes it to the block that was sent, and which slots are asked for, each exactly |
| PartialBlock.WriteIndexes | src/blockencodings.h:62-67 | The differences as 64-bit numbers |
| PartialBlock.ReadIndexes | src/blockencodings.h:42-61 | The running sum, or nothing on a 16-bit overflow |
| PartialBlock.IndexesRoundTrip | src/blockencodings.h:37-68 | Indexes survive exactly when strictly increasing; any other list is refused |
| RollingBloom.WipedCell | src/bloom.cpp:256-264 | The bit-sliced wipe empties exactly the cells of the reused generation |
| RollingBloom.SetCell | src/bloom.cpp:269-274 | Marking writes one cell and no other |
| RollingBloom.Filter.Wipe | src/bloom.cpp:259-264 | The data afterwards are the wiped ones |
| RollingBloom.Filter.NextGeneration | src/bloom.cpp:250-265 | The two younger generations are still remembered |
| RollingBloom.Filter.Insert | src/bloom.cpp:248-276 | The key joins the history and the filter remembers what it should |
| RollingBloom.Filter.Contains | src/bloom.cpp:284-296 | True exactly when no cell of the key is empty, and for each of the last nElements keys |
| RollingBloom.Filter.Reset | src/bloom.cpp:304-312 | An empty history under new hash functions |
| RollingBloom.Run | src/bloom.h:105-118 | For any hash and any history the last nElements keys are contained |
| BeeBins.Binning | src/miner.cpp:876-909 | Every bee of every mature BCT once and in order, in ranges with the right addresses; all bins but the last are full |
| BeeBins.AtMostThreads | src/miner.cpp:872-909 | With the exact ceiling there are no more bins than threads |
| BeeBins.EachBeeOnce | src/miner.cpp:883-909 | The bees listed are exactly those of the mature BCTs, each once |
| BeeBins.ShareOut | src/miner.cpp:849-909 | From the wallet's list: the bins hold the bees of exactly the mature BCTs, and there are no more bins than threads |
| BeeWorkers.ApplyKeeps | src/miner.cpp:686-716 | Every step keeps: no winner passed over, a recorded bee wins |
| BeeWorkers.FoundExactlyWhenThere | src/miner.cpp:951-974 | At join, without an abort, a bee is recorded exactly when one meets the target |
| BeeWorkers.StepsRunOut | src/miner.cpp:686-716 | Every step of a worker uses up some of its remaining steps |
| BeeWorkers.NeverStuck | src/miner.cpp:686-716 | A worker that is not done can take a step |
| BeeWorkers.WorkersFinish | src/miner.cpp:686-716 | In every interleaving the workers take at most two steps for each bee and two for each bin, and until all are done one can be taken |
| BeeMining.MiningFindsABee | src/miner.cpp:872-974 | From the wallet to the result: the recorded bee is a winning bee of a mature BCT, and is recorded exactly when there is one |
| Radix.BytesFit | src/base58.cpp:83-85 | 138 / 100 digits for each byte always suffice |
| Radix.DigitsFit | src/base58.cpp:36-38 | 733 / 1000 bytes for each digit always suffice |
| Radix.MultiplyAdd | src/base58.cpp:87-99 | Times the base plus a digit in the buffer, with no carry left |
| Radix.ReadOff | src/base58.cpp:101-104 | The digits of the number without leading zeros |
| Base58.EncodeBase58 | src/base58.cpp:74-112 | One '1' for each leading zero byte, then the base-58 digits of the number |
| Base58.DecodeBase58 | src/base58.cpp:24-72 | Accepts exactly spaces, digits, spaces, and gives a zero byte for each leading '1' and the bytes of the number |
| Base58.RoundTrip | src/base58.cpp:24-112 | Decoding an encoding gives the bytes back |
| Base58.Canonical | src/base58.cpp:24-112 | What a string decodes to encodes to that string without the spaces around it |

## Left out

- Coins: AccessCoin, value and priority sums, memory accounting of the map itself, and the usage counter after the
  throwing path of AddCoin; the store's batching and crash marker.
- Address manager: Select and GetChance (probabilistic termination and floating point), asmap-style grouping inside
  the bucket hashes (they are parameters), locks and logging. The two bucket arrays are maps from slots to ids, an
  absent key standing for -1.
- AddrManRead.Unserialize: of a stream that no manager wrote, only the random order and the pruning are stated; such a
  stream can repeat addresses, which the check refuses.
- Check queue: exceptions thrown by checks and interruption of threads; each critical section is one step.
- BlockTemplate.Assembler.AddPackageTxs: compares scores by exact products, where the code uses doubles.
- Block assembler: CreateNewBlock around the selection, the coinbase, and block validity checks.
- Cuckoo cache: the depth limit from a floating-point logarithm is a parameter of at least one; the packing of the
  collection flags into bytes; concurrent readers.
- MerkleBlock.PartialMerkleTree.FromMask: does not model 32-bit wrap-around of the transaction count, which no block
  reaches.
- Arithmetic: hexadecimal strings, doubles, the xor/and/or operators.
- BlockProof.GetBlockProof: the Hive difficulty is a real parameter of each block, and whether the bonus rules are
  active is a flag; maxKPow is not negative.
- Block index: timestamps, status flags, median time, FindEarliestAtLeast; heights are not bounded by 32 bits.
- BCT ledger: blocksFound and status after a disconnect, which a rewind does not recompute; wallet scans and
  migration; SQL errors and rollback. Which transactions count as ours is part of the block.
- PartialBlock.PartialBlock.InitData: bucket crowding of the hash map is a parameter; a call that would not return is
  reported as such.
- Compact blocks: reading the 48-bit short ids in chunks, the extra_count statistic, the SipHash key.
- RollingBloom.Filter.constructor: takes the number of words and hash functions as parameters, because they come from
  floating-point formulas; the false-positive rate is not treated.
- Bee mining: the MinotaurX variant of the worker, the watcher thread beyond setting its flag, and everything after a
  solution is found. The bin size in BeeBins.ShareOut is the exact ceiling, where the code rounds a float.
- Bech32: the detection of any four errors within 89 symbols, which the choice of this generator among others adds and
  which rests on an exhaustive search over all error patterns.
- Base58: strings hold no NUL character; the checksum variant and address formats are not modelled.
- RPC, networking, storage engines, wallet, script and key code, difficulty retargeting and block validation.
