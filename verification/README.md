# Verified models of the node's data structures

Dafny models of the data-structure and arithmetic layer of this Bitcoin-derived node, with proofs. Each module
models one component of the C++ sources and states what the component is for, over all inputs, all runs or all reachable
states. `dafny verify dfyconfig.toml` checks everything.

* **Address manager** (`AddrManTables`, `AddrMan`, `AddrManCheck`, `AddrManClear`, `AddrManStream`, `AddrManReload`,
  `AddrManRead`, `AddrManSerialize`). Five redundant structures and two counters. `Linked` says that they agree; entries
  in `loose` are momentarily in no table, which is how `MakeTried` breaks and restores the invariant. `AddrManCheck` models
  the source's own `Check_` loop by loop and proves that it returns 0 after every operation of every run without a Clear at
  which a collision waits; `AddrManClear` proves that such a Clear does harm. Serialization followed by deserialization
  loses nothing, and what any other stream leads to is stated too.
* **Block assembler** (`Mempool`, `AncestorScore`, `Miner`). The stale side table `mapModifiedTx` is given a meaning
  (`Tracks`): which included ancestors have been subtracted from which entry. Block limits follow from it. Candidates are
  taken best first.
* **Coin caches** (`CoinsView`, `CoinsStack`, `Coins`). Stacks of write-back caches of any depth refine one flat map
  and one block hash per layer, over runs that may end with an abort of the database.
* **Check queue** (`CheckQueue`). A state machine of atomic steps of any number of workers and one master: safety and
  termination of `Wait`.
* **Partial Merkle trees** (`MerkleTree`, `MerkleBlock`). Soundness of proofs under an injective pair hash, and the round trip
  through build, pack, unpack and extract (section "Partial Merkle branch format" of BIP 37).
* **Rolling Bloom filter** (`Words`, `RollingBloom`) and **cuckoo cache** (`CuckooTable`, `CuckooCache`). Bit-packed state refines
  a map of generations, and a list of flags.
* **Base58** (`Radix`, `Base58`) and **Bech32** (`Bech32`, `Bech32Field`, `Bech32Errors`, `Bech32Text`). Buffer bounds,
  both round trips, and detection of up to three errors by the checksum (section "Bech32" of BIP 173, with this
  repository's limit of 140 characters).
* **256-bit arithmetic** (`Powers`, `Limbs`, `LimbShifts`, `ArithUint`, `Compact`). Limb loops against numbers, long division,
  the compact target format and block work.
* **Block index** (`Chain`). Skip list, active chain, forks, locators.
* **Compact blocks** (`CompactBlock`, `BlockEncodings`). Rebuilding a block (sections HeaderAndShortIDs and
  PrefilledTransaction of BIP 152).
* `Basics` holds what several of these share.

Modelling decisions. Hash functions, random choices, the clock, signature and block checks and the order in which unordered
containers are visited are parameters or nondeterministic. Where a source function throws, the method returns a flag or a
status. In-out reference parameters become parameters and results. Pointers to transactions and blocks in
`BlockEncodings`, `Miner` and `Coins` are identifiers.

Where the code and its comments disagree, or the code does something a reader may not expect, the code is followed:

* The comment at `src/cuckoocache.h:419-420` says that the first eviction uses location 0; the expression gives location 1.
* `src/addrman.h:471-493` leaves waiting collisions in place on `Clear`; `Run` shows that this is harmless when none
  wait, and `HarmAfterClear` and `HarmfulRun` that it is not otherwise.
* `src/merkleblock.cpp:132-163` returns the zero hash on failure but leaves matches behind; `UnforgeableExactly` states exactly
  when that matters.
* `WITNESS_SCALE_FACTOR` is a variable, 2 by default and 4 in the legacy mode (`src/consensus/consensus.h:23-28`,
  `src/primitives/block.cpp:13`, `src/init.cpp:1082-1085`). The constants made from it have their values before the mode is
  known, from the factor 2; elsewhere the factor is arbitrary.
* `src/blockencodings.cpp:82-87` keeps 16 bits of a position and accepts up to 200000 transactions; `FiledElsewhere` and
  `CoinbaseDisplaced` state what becomes of the others.
* `src/coins.cpp:170-226` overwrites the best block of a parent cache even with a null hash, while a database aborts on one
  (`src/txdb.cpp:104`); `FlushBestBlock` and `FlushNeedsBlock` state exactly when the base then shows the child's.

## Model

| member | source | states |
|---|---|---|
| `AddrMan.AddrMan.constructor` | src/addrman.h:471-498 | A new manager is consistent and has no waiting collisions. |
| `AddrMan.AddrMan.Find` | src/addrman.cpp:68-79 | Returns the id of an address exactly when the address is known; the entry found has that address. |
| `AddrMan.AddrMan.Create` | src/addrman.cpp:81-91 | The new entry is linked in mapInfo, mapAddr and vRandom and is the only entry in no table. |
| `AddrMan.AddrMan.SwapRandom` | src/addrman.cpp:93-111 | Exchanges two positions of vRandom and keeps vRandom and nRandomPos inverse; no other field changes. |
| `AddrMan.AddrMan.Delete` | src/addrman.cpp:113-125 | Removes exactly one unreferenced entry from all structures and lowers nNew; no assert fires. |
| `AddrMan.AddrMan.ClearNew` | src/addrman.cpp:127-140 | Empties one slot; its occupant loses one reference and disappears with its last one; everything else stays linked. |
| `AddrMan.AddrMan.LeaveNew` | src/addrman.cpp:144-154 | First part of MakeTried: an entry is taken out of every new bucket and is then in no table, with reference count 0. |
| `AddrMan.AddrMan.MakeTried` | src/addrman.cpp:142-188 | Although the invariant is broken midway, at the end every structure agrees again, the entry is in its own tried slot, a previous occupant is back in the new table, and nNew and nTried move with the tables. |
| `AddrMan.AddrMan.MakeRoom` | src/addrman.cpp:160-182 | The evicted occupant of a tried slot takes its slot in the new table, clearing whatever was there. |
| `AddrMan.AddrMan.Good` | src/addrman.cpp:190-252 | For every time keeps the structures consistent and collisions real; statistics are refreshed, and the entry is promoted or waits on a collision; unknown services change nothing. What Check_ tests of the times survives if and only if the service is unknown, the time is positive, or it is zero and the entry stays where it is. |
| `AddrMan.AddrMan.Promote` | src/addrman.cpp:219-252 | Moves an entry to tried, or records the collision (at most ten) when eviction must be tested first. |
| `AddrMan.AddrMan.FindNewBucket` | src/addrman.cpp:219-234 | An entry that is not in tried is always found in some new bucket, from any starting point, so the give-up branch is dead. |
| `AddrMan.AddrMan.Add` | src/addrman.cpp:254-325 | Keeps consistency and the times; returns true exactly for routable addresses not known before, which take the next id; states the full effect on known and unknown addresses. |
| `AddrMan.AddrMan.Refresh` | src/addrman.cpp:268-295 | The update of a known entry and the reasons not to add another reference. |
| `AddrMan.AddrMan.Register` | src/addrman.cpp:297-300 | A new entry gets its penalised time, counted as new and in no table yet. |
| `AddrMan.AddrMan.Retry` | src/addrman.cpp:290-295 | With RandomInt given, an entry is tried again exactly when the draw is 0 modulo 2 to the power of its reference count; so always exactly when it has no references. |
| `AddrMan.AddrMan.PlaceNew` | src/addrman.cpp:303-323 | An entry takes its slot if it is free, or its occupant is terrible or has references to spare for a newcomer; a newcomer without a slot is deleted; counters and links stay exact. |
| `AddrMan.AddrMan.TakeNew` | src/addrman.cpp:314-317 | Clearing a slot and giving it to an entry keeps all links and adds exactly one reference. |
| `AddrMan.AddrMan.Attempt` | src/addrman.cpp:327-347 | For every time sets the last try, and counts a failure only once per last good time; nothing else changes. What Check_ tests of the times survives if and only if the service is unknown or the time is not negative. |
| `AddrMan.AddrMan.Connected` | src/addrman.cpp:495-513 | Refreshes the time of a known service only after 20 minutes; nothing else changes. |
| `AddrMan.AddrMan.SetServices` | src/addrman.cpp:515-531 | Sets the service flags of a known service; nothing else changes. |
| `AddrMan.AddrMan.SetStats` | src/addrman.cpp:327-347 | Changing statistics of an entry keeps every link and every counter. |
| `AddrMan.AddrMan.GetAddr` | src/addrman.cpp:474-493 | Shuffles vRandom consistently; the answer has distinct, known, non-terrible addresses, respects both limits, and is complete when neither limit is reached. |
| `AddrMan.AddrMan.ResolveCollisions` | src/addrman.cpp:537-587 | The whole call is a chain of single resolutions, one for each waiting id in increasing order, from the old state to the new; exactly the ids erased on the way stop waiting; consistency and the reality of the rest are kept. |
| `AddrMan.AddrMan.Resolve` | src/addrman.cpp:541-585 | One waiting collision, at any clock: exactly when it is dropped, when the old entry is replaced and when it goes on waiting. |
| `AddrMan.AddrMan.SelectTriedCollision` | src/addrman.cpp:589-613 | Keeps the state consistent if and only if the tried slot of the chosen id is occupied; otherwise it inserts a blank entry under id -1. Never happens while collisions are real ones. |
| `AddrMan.AddrMan.Clear` | src/addrman.h:471-493 | Resets everything but the waiting collisions; they stay real ones if and only if there are none. |
| `AddrManClear.HarmAfterClear` | src/addrman.cpp:589-613 | For every manager and every id that waits at a Clear: giving ids out again up to that one and asking for a collision to test ends with an entry under id -1, and Check_ reports an error. |
| `AddrManClear.HarmfulRun` | src/addrman.h:471-493 | A concrete run from an empty manager that does so: add two addresses of one tried slot, promote one, let the other wait, Clear, add one, SelectTriedCollision. |
| `AddrManClear.AddedUntimed` | src/addrman.cpp:303-323 | Among entries without a time a newcomer always gets its slot, so the id last given out is known. |
| `AddrMan.MadeTriedWaits` | src/addrman.cpp:142-188 | Promotions keep every other waiting collision a real one. |
| `AddrMan.PlacedWaits` | src/addrman.cpp:303-323 | Adding an address keeps every waiting collision a real one. |
| `AddrMan.PickedSound` | src/addrman.cpp:474-493 | The addresses collected in a shuffled prefix are those of its non-terrible entries. |
| `AddrMan.Apply` | src/addrman.cpp:190-614 | Each public operation, Clear without waiting collisions included, keeps consistency and the reality of waiting collisions, and at sensible times what Check_ tests. |
| `AddrMan.Run` | src/addrman.cpp:81-614 | Every run of public operations from an empty manager, at any times, stays consistent, with only real collisions and vRandom as long as nTried + nNew, up to its end or to a Clear at which a collision waits. |
| `AddrMan.MadeTriedTimes` | src/addrman.cpp:142-188 | After a promotion the times are as Check_ wants them if and only if the promoted entry has answered at a positive time. |
| `AddrMan.GoodTimes` | src/addrman.cpp:190-252 | The same for Good_ as a whole. |
| `AddrManCheck.Check` | src/addrman.cpp:397-471 | The loops of Check_ return 0 if and only if the state has the properties listed in Passes, on any tables; every consistent state with sensible times and a key passes. |
| `AddrManCheck.CheckEntries` | src/addrman.cpp:405-434 | Code 0 exactly when every entry is sound by itself. |
| `AddrManCheck.CheckEntry` | src/addrman.cpp:408-428 | Code 0 exactly when the entry has the status, address, position and times Check_ demands. |
| `AddrManCheck.CheckTried` | src/addrman.cpp:436-448 | Finds every tried entry in its own slot and nothing else, or reports. |
| `AddrManCheck.CheckNew` | src/addrman.cpp:450-461 | The countdown of references ends empty exactly when every reference count is the number of slots holding the entry. |
| `AddrManCheck.ConsistentPasses` | src/addrman.cpp:397-471 | The consistency used throughout, with sensible times, implies what Check_ tests. |
| `AddrManCheck.RunChecked` | src/addrman.cpp:81-614 | In every run of public operations at sensible times Check_ returns 0 after each one, up to the end or to a Clear at which a collision waits. |
| `AddrManTables.RandomSize` | src/addrman.cpp:402-403 | When positions and vRandom are inverse, vRandom is as long as mapInfo. |
| `AddrManTables.TakeSlot` | src/addrman.cpp:316-317 | Taking a free slot raises the number of holders, and so the exact reference count, by one. |
| `AddrManTables.FreeSlot` | src/addrman.cpp:130-139 | Clearing a slot lowers its occupant's exact reference count by one and no other. |
| `AddrManTables.LoosenSlot` | src/addrman.cpp:130-139 | Clearing a slot leaves at most its occupant without a place. |
| `AddrManTables.DropLoose` | src/addrman.cpp:113-125 | Dropping the unplaced entry that sits last in vRandom keeps all structures linked. |
| `AddrManTables.LoosenTried` | src/addrman.cpp:163-170 | Emptying a tried slot leaves exactly its occupant without a place. |
| `AddrManTables.TightenTried` | src/addrman.cpp:185-187 | Putting an unplaced entry into its own free tried slot restores full consistency. |
| `AddrManTables.TightenNew` | src/addrman.cpp:178-181 | Putting an unplaced entry into a free new slot of its own restores full consistency. |
| `AddrManTables.Unheld` | src/addrman.cpp:145-154 | An entry held by no new bucket has reference count 0. |
| `AddrManSerialize.Serialize` | src/addrman.h:316-363 | The stream lists referenced new entries and tried entries in id order and, for each bucket, the ranks of its occupants. |
| `AddrManSerialize.WriteNew` | src/addrman.h:329-339 | Entries with references, in id order, and the rank of each id. |
| `AddrManSerialize.WriteTried` | src/addrman.h:340-348 | Tried entries, in id order. |
| `AddrManSerialize.WriteBuckets` | src/addrman.h:349-362 | For each new bucket, the ranks of its occupants. |
| `AddrManSerialize.Unserialize` | src/addrman.h:366-469 | Wrong key sizes and excessive counts are errors. For every stream accepted, the manager is consistent if and only if neither count is negative and no entry that stays shares its address with another entry read, in particular if the stream's addresses are all different; without a negative number of new entries, vRandom, both tables, reference counts and nNew (and nTried, if it was not negative) are right in any case, and mapAddr leads only to entries for their address. Reading what a consistent manager wrote loses no entry, restores addresses, slots and reference counts up to renumbering, and passes Check_ if the writer did. |
| `AddrManSerialize.ReadNew` | src/addrman.h:394-412 | New entries get consecutive ids and are linked in mapAddr and vRandom. |
| `AddrManSerialize.ReadTried` | src/addrman.h:414-433 | Every tried entry whose slot is free gets it and all others are counted as lost; on a faithful read none is. |
| `AddrManSerialize.ReadBuckets` | src/addrman.h:435-451 | All buckets read, from any stream, with exact reference counts. |
| `AddrManSerialize.ReadBucket` | src/addrman.h:436-451 | An index takes its slot if that is free and its entry has room; on a faithful read every index does. |
| `AddrManSerialize.Prune` | src/addrman.h:453-463 | Exactly the entries without references go, with their addresses, and the counters follow. |
| `AddrManRead.PrunedAddrs` | src/addrman.h:453-463 | After pruning mapAddr is right if and only if no entry that stays shares its address with another entry read. |
| `AddrManRead.HalfPlace` | src/addrman.h:440-449 | Giving an entry a free slot keeps tables and reference counts right, whatever the stream. |
| `AddrManRead.HalfTried` | src/addrman.h:414-433 | So does adding a tried entry in its free slot. |
| `AddrManRead.HalfDrop` | src/addrman.cpp:113-125 | So does deleting an entry without references, together with its address. |
| `AddrManRead.ReadConsistent` | src/addrman.h:366-469 | The same for a stream read to its end. |
| `AddrManReload.RoundTrip` | src/addrman.h:316-469 | After all rows are read, every original entry is there under its new id with its references, table and slots, and no two share an id. |
| `AddrManReload.FilledTimes` | src/addrman.h:316-469 | Times read back pass what Check_ tests if those written did. |
| `AddrManReload.WithinLimits` | src/addrman.h:386-392 | What a consistent manager writes never exceeds the limits the reader enforces. |
| `AddrManReload.LoadNew` | src/addrman.h:394-412 | Reading one more new entry keeps the partly read manager linked. |
| `AddrManReload.LoadTried` | src/addrman.h:414-433 | The tried slot of the next entry is free, and filling it keeps the partly read manager linked. |
| `AddrManReload.FillNext` | src/addrman.h:440-449 | The slot of the next index is free, its entry has room, and filling it keeps reference counts exact. |
| `AddrManStream.RankInjective` | src/addrman.h:329-339 | Ranks of entries are distinct. |
| `AddrManStream.RankOnto` | src/addrman.h:329-339 | Every rank below the count belongs to an entry. |
| `AddrManStream.CountReferenced` | src/addrman.h:331-339 | There are exactly nNew entries with references. |
| `AddrManStream.NthOccupant` | src/addrman.h:356-361 | The m-th index of a bucket row belongs to the m-th occupied slot. |
| `Mempool.Pool.TxSize` | src/policy/policy.cpp:398-401 | For every positive scale factor the weight of a transaction is at most the factor times its size. |
| `Mempool.WeightBound` | src/policy/policy.cpp:398-401 | The same for any set of transactions. |
| `Miner.BlockAssembler.constructor` | src/miner.cpp:63-100 | Starts within all limits, with the block weight option clamped as in the source. |
| `Miner.BlockAssembler.TestPackageTransactions` | src/miner.cpp:228-237 | True exactly when every transaction of the package is final and witness-free or witnesses are allowed. |
| `Miner.BlockAssembler.AddToBlock` | src/miner.cpp:239-257 | Appends one transaction whose ancestors are in the block and keeps all running totals exact. |
| `Miner.BlockAssembler.AddPackage` | src/miner.cpp:435-443 | Appends a sorted package: no duplicates, ancestors first, totals exact; no included entry stays in mapModifiedTx. |
| `Miner.BlockAssembler.Fits` | src/miner.cpp:214-222 | For every positive scale factor: if the tested figures are not below the true sums, the block stays strictly below both limits after inclusion. |
| `Miner.BlockAssembler.Include` | src/miner.cpp:415-448 | Includes a package, keeps both limits, whatever the scale factor, and re-establishes the meaning of mapModifiedTx. |
| `Miner.BlockAssembler.AddPackageTxs` | src/miner.cpp:322-450 | In every run, under any scale factor, the block has no duplicates, is closed under ancestors with parents first, has exact totals and never exceeds its weight and sigop limits; every candidate chosen was one that nothing left in mapTx or mapModifiedTx outranked, and the block and the refusals come from those choices alone; when the loop runs to its end, every candidate is in the block or was refused with a block the assembler really had; the loop terminates. |
| `Miner.BlockAssembler.Consider` | src/miner.cpp:380-448 | One candidate, under any scale factor: included with all its missing ancestors, or refused, and then its package really would exceed a limit or holds a transaction that may not go in. |
| `Miner.NextCandidate` | src/miner.cpp:352-376 | The next candidate comes from mapTx in order or from the modified set, whichever ranks higher; nothing left in either outranks it. |
| `AncestorScore.RateIsLower` | src/txmempool.h:307-323 | An entry is ranked by the lower of its own fee rate and that of its package. |
| `AncestorScore.BetterTransitive` | src/txmempool.h:286-305 | Comparing by cross products and then by hash is transitive. |
| `AncestorScore.BetterTotal` | src/txmempool.h:286-305 | Of two different entries exactly one ranks before the other. |
| `AncestorScore.BestModified` | src/miner.cpp:356-360 | The first entry of mapModifiedTx by score: no other outranks it. |
| `Miner.SizedFigures` | src/miner.h:109-122 | If transactions have sizes, so have all figures that are compared. |
| `Miner.UpdatePackagesForAdded` | src/miner.cpp:259-284 | Every included ancestor is subtracted from every affected entry exactly once. |
| `Miner.UpdateDescendants` | src/miner.cpp:264-283 | One included transaction is accounted for in all its descendants, once. |
| `Miner.Account` | src/miner.cpp:269-281 | Subtracting one ancestor keeps the figures equal to the cached sums minus what was subtracted. |
| `Miner.FiguresBound` | src/miner.h:109-122 | Size and sigop figures of a modified entry are never below the sums over its missing ancestors, and are exact for entries that never failed. |
| `Miner.CachedExact` | src/miner.cpp:295-299 | The cached figures of an entry not in mapModifiedTx are exact, so it may be taken from mapTx. |
| `Miner.SortForBlock` | src/miner.cpp:301-310 | A permutation of the package with every ancestor before its descendants. |
| `Miner.AncestorFirst` | src/miner.h:80-89 | Ordering by ancestor count puts every ancestor before its descendants. |
| `Coins.CoinsViewCache.constructor` | src/coins.cpp:35-35 | A new layer shows exactly what is below it. |
| `Coins.CoinsViewCache.FetchCoin` | src/coins.cpp:41-56 | Pulls an entry up through all layers as Fetched says. |
| `Coins.CoinsViewCache.GetCoin` | src/coins.cpp:58-65 | Finds a coin exactly when the view has one, and returns it. |
| `Coins.CoinsViewCache.HaveCoin` | src/coins.cpp:149-152 | True exactly when the view has the coin. |
| `Coins.CoinsViewCache.AccessCoin` | src/coins.cpp:140-147 | The view's coin, or a spent one. |
| `Coins.CoinsViewCache.AddCoin` | src/coins.cpp:67-87 | Throws exactly when an unspent cached coin would be replaced without leave, never when its contract is met; the new state is Added, or after a throw the old one with the entry's memory use already subtracted. |
| `Coins.CoinsViewCache.SpendCoin` | src/coins.cpp:122-136 | Hands out the view's coin and removes it; false exactly when fetching finds no entry at all. |
| `Coins.CoinsViewCache.Uncache` | src/coins.cpp:235-242 | Drops only clean entries. |
| `Coins.CoinsViewCache.WriteEntry` | src/coins.cpp:176-222 | One entry written down: the four cases of the merge, with memory use exact; throws only on a misapplied FRESH flag. |
| `Coins.CoinsViewCache.BatchWrite` | src/coins.cpp:170-226 | The entry by entry loop computes the merge of whole maps; throws exactly if some FRESH flag is misapplied. |
| `Coins.CoinsViewCache.Flush` | src/coins.cpp:228-233 | Fails if and only if the base is a database that refuses the block hash: a null one, or another than the one it is being brought to. Otherwise leaves an empty cache and the committed base; the throw of a parent cache is unreachable. |
| `Coins.CoinsViewCache.GetBestBlock` | src/coins.cpp:159-163 | The best block seen through the layers, cached on the way. |
| `Coins.CoinsViewCache.SetBestBlock` | src/coins.cpp:165-168 | Sets the cache's own best block and nothing else. |
| `Coins.CoinsDb.BatchWrite` | src/txdb.cpp:98-156 | The entry by entry loop applies a batch of dirty entries and sets the best block; aborts if and only if the block hash is null, or the database was interrupted on the way to another block. |
| `CoinsView.FetchInvisible` | src/coins.cpp:41-56 | Reading changes no layer's view and keeps flags and memory use valid. |
| `CoinsView.BestInvisible` | src/coins.cpp:159-163 | Asking for the best block changes no view. |
| `CoinsView.AddIsUpdate` | src/coins.cpp:67-87 | AddCoin is map update (and nothing for unspendable outputs). |
| `CoinsView.AddContractExact` | src/coins.cpp:67-87 | AddCoin neither throws nor breaks the stack if and only if the coin is unspendable, overwriting is allowed, or the view has no coin there. |
| `CoinsView.SpendIsRemoval` | src/coins.cpp:122-136 | SpendCoin is map removal. |
| `CoinsView.UncacheInvisible` | src/coins.cpp:235-242 | Uncache changes no view. |
| `CoinsView.NeverMisapplied` | src/coins.cpp:204-210 | On a valid stack the misapplied-FRESH error cannot occur. |
| `CoinsView.WriteBack` | src/coins.cpp:170-222 | After a write-back the parent shows at every outpoint what the child showed, with valid flags. |
| `CoinsView.FlushIsCommit` | src/coins.cpp:228-233 | Where Flush does not abort, which can happen only on a database, the cache is empty afterwards, its base's coins equal what the cache showed, no other layer changes and the stack is valid. |
| `CoinsView.FlushBestBlock` | src/coins.cpp:170-233 | Flush succeeds and leaves the base with the best block the cache showed if and only if: on a database, the cache's own hash is set and is the one an interrupted database waits for; on a cache, that hash is set, or the base has none of its own or one that agrees with its base. |
| `CoinsView.BestSetShown` | src/coins.cpp:165-168 | SetBestBlock changes no coin and no other layer. |
| `CoinsStack.StepRefines` | src/coins.h:135-143 | Every operation on a stack of any depth, reading and setting the best block included, is one step on a list of flat maps with a block hash each; it aborts if and only if the flat step does, on a Flush into the database without its block hash. |
| `CoinsStack.RunRefines` | src/coins.h:135-143 | Every run on a stack of caches is a run on flat maps: it aborts exactly where that run does, and otherwise every layer shows exactly its map and its best block. |
| `CoinsStack.FlushNeedsBlock` | src/txdb.cpp:104-104 | On every database: a new cache that is flushed as it is aborts; after GetBestBlock it does so exactly if the database has no best block; after SetBestBlock exactly if the block is null or not the one an interrupted database waits for, and otherwise the database gets that block. |
| `CoinsStack.BestIs` | src/coins.cpp:159-163 | The best block of a stack is the first hash that is set, and asking leaves it in every layer asked. |
| `CheckQueue.BatchSize` | src/checkqueue.h:107-107 | A batch has between one element and the whole queue. |
| `CheckQueue.InitInv` | src/checkqueue.h:131-131 | The initial state satisfies the protocol invariant. |
| `CheckQueue.SectionInv` | src/checkqueue.h:74-117 | A critical section of Loop keeps the invariant, for workers and master. |
| `CheckQueue.ExecuteInv` | src/checkqueue.h:118-122 | Running a batch outside the lock keeps the invariant. |
| `CheckQueue.AddingInv` | src/checkqueue.h:146-158 | Add keeps the invariant, whichever sleepers it wakes. |
| `CheckQueue.WaitInv` | src/checkqueue.h:140-143 | Starting to wait keeps the invariant. |
| `CheckQueue.NextInv` | src/checkqueue.h:66-158 | Every atomic step of any thread keeps the invariant. |
| `CheckQueue.RunInv` | src/checkqueue.h:66-158 | Every state of every interleaving satisfies the invariant. |
| `CheckQueue.WaitIsExact` | src/checkqueue.h:66-158 | nTodo is always queued plus in-flight checks, and each Wait returned true exactly when every check of its session was true. |
| `CheckQueue.MasterNotStranded` | src/checkqueue.h:77-114 | Whenever the master sleeps, the queue is empty and some worker holds a batch. |
| `CheckQueue.Progress` | src/checkqueue.h:66-124 | While a Wait is running some proper step is possible. |
| `CheckQueue.StepsDecrease` | src/checkqueue.h:66-124 | Proper steps use up a bounded amount of work. |
| `CheckQueue.SpuriousAdds` | src/checkqueue.h:97-101 | A spurious wake-up adds at most one step. |
| `CheckQueue.WaitReturns` | src/checkqueue.h:140-143 | So every run during a Wait, spurious wake-ups included, has at most the work left plus two steps for each spurious wake-up, and cannot get stuck before Wait returns. |
| `MerkleTree.InTree` | src/merkleblock.h:66-68 | A position exists at a height exactly when its first leaf exists. |
| `MerkleTree.Children` | src/merkleblock.cpp:46-56 | The children of a node split its leaves. |
| `MerkleTree.ExtractSound` | src/merkleblock.cpp:78-114 | A decoded subtree with the hash of the block's own node reports only transactions of that subtree, in order, whatever the bits and hashes. |
| `MerkleTree.ExtractBuilt` | src/merkleblock.cpp:60-114 | Decoding reads back exactly what encoding wrote: hash, consumed bits and hashes, and matches. |
| `MerkleTree.SiblingsDiffer` | src/merkleblock.cpp:100-104 | For distinct transaction ids the duplicate-branch test never fires. |
| `MerkleTree.SizeBounds` | src/merkleblock.cpp:142-146 | An encoding has at most one hash per transaction and at least one bit per hash. |
| `MerkleTree.MatchListSplit` | src/merkleblock.cpp:69-74 | The matches of a node are those of its children, in order. |
| `MerkleBlock.WidthShrinks` | src/merkleblock.cpp:121-124 | The height loop terminates. |
| `MerkleBlock.RootSpan` | src/merkleblock.cpp:121-127 | At the computed height there is one node, over all transactions. |
| `MerkleBlock.PartialMerkleTree.constructor` | src/merkleblock.cpp:116-128 | Building gives the bits and hashes of the encoding. |
| `MerkleBlock.PartialMerkleTree.TreeHeight` | src/merkleblock.cpp:121-124 | The first height with at most one node. |
| `MerkleBlock.PartialMerkleTree.ParentOfMatch` | src/merkleblock.cpp:61-64 | Whether a node covers a match. |
| `MerkleBlock.PartialMerkleTree.TraverseAndBuild` | src/merkleblock.cpp:60-76 | Appends the encoding of a subtree. |
| `MerkleBlock.PartialMerkleTree.TraverseAndExtract` | src/merkleblock.cpp:78-114 | Consumes the encoding of a subtree and appends its matches. |
| `MerkleBlock.PartialMerkleTree.ExtractMatches` | src/merkleblock.cpp:132-163 | Root and matches as specified; the zero hash after any failure, in particular above 4000000 / 120 = 33333 transactions. |
| `MerkleBlock.PartialMerkleTree.PackBits` | src/merkleblock.h:99-104 | Flag bits packed eight to a byte, least significant first, zero padded. |
| `MerkleBlock.PartialMerkleTree.UnpackBits` | src/merkleblock.h:92-98 | All bits of all bytes, in order. |
| `MerkleBlock.UnpackPacked` | src/merkleblock.h:88-105 | Unpacking undoes packing up to padding to whole bytes. |
| `MerkleBlock.OutcomeSound` | src/merkleblock.cpp:132-163 | A claimed proof that yields the block's (nonzero) root reports only real transactions at their real positions. |
| `MerkleBlock.ForgedFails` | src/merkleblock.cpp:132-163 | A concrete rejected proof, of whole bytes as deserialization gives them, that still reports a false transaction, together with the zero hash. |
| `MerkleBlock.UnforgeableExactly` | src/merkleblock.cpp:132-163 | No received proof shows a false transaction for a block if and only if its Merkle root is not the zero hash. |
| `MerkleBlock.RoundTrip` | src/merkleblock.cpp:60-163 | Build, pack, unpack and extract return the root and exactly the matched transactions in order; above 33333 transactions extraction refuses. |
| `MerkleBlock.MatchListExact` | src/merkleblock.cpp:60-76 | The list of matches contains a transaction exactly when it was selected. |
| `MerkleBlock.Relay` | src/merkleblock.cpp:116-163 | The same for the methods, from sender to receiver. |
| `Words.FastMod` | src/bloom.cpp:289-291 | Scales a 32-bit hash into the range below n. |
| `RollingBloom.PutIs` | src/bloom.cpp:319-320 | Replacing one bit of a word changes that bit only. |
| `RollingBloom.MaskIs` | src/bloom.cpp:306-306 | The wipe mask keeps a bit exactly when its generation is another one. |
| `RollingBloom.WipeStep` | src/bloom.cpp:304-309 | Wiping a pair of words clears exactly the positions of that generation. |
| `RollingBloom.StampStep` | src/bloom.cpp:314-320 | Stamping one position sets its generation and no other. |
| `RollingBloom.RollKeeps` | src/bloom.cpp:295-310 | Entering the next generation forgets only keys of the oldest of three. |
| `RollingBloom.StampKeeps` | src/bloom.cpp:311-321 | A new key never makes an older one forgotten. |
| `RollingBloom.RollingBloomFilter.constructor` | src/bloom.cpp:253-278 | Starts empty with nEntriesPerGeneration = (N + 1) / 2. |
| `RollingBloom.RollingBloomFilter.Reset` | src/bloom.cpp:350-358 | Forgets everything. |
| `RollingBloom.RollingBloomFilter.Wipe` | src/bloom.cpp:301-309 | The two bit planes refine clearing one generation in the generation map. |
| `RollingBloom.RollingBloomFilter.Stamp` | src/bloom.cpp:313-321 | The hashing loop sets the generation of the key's positions only. |
| `RollingBloom.RollingBloomFilter.Insert` | src/bloom.cpp:293-322 | The exact new generation map and counters; every key of the current and the two previous generations stays remembered. |
| `RollingBloom.RollingBloomFilter.Contains` | src/bloom.cpp:330-342 | True exactly when all positions of the key are set, and so for each of the last 2 * ((N + 1) / 2) keys and more. |
| `RollingBloom.Track` | src/bloom.h:113-114 | After any sequence of insertions each of the last N keys is contained. |
| `CuckooCache.BitPackedFlags.constructor` | src/cuckoocache.h:61-68 | All flags set. |
| `CuckooCache.BitPackedFlags.BitSet` | src/cuckoocache.h:92-95 | Sets one flag of the list and no other. |
| `CuckooCache.BitPackedFlags.BitUnset` | src/cuckoocache.h:103-106 | Clears one flag of the list and no other. |
| `CuckooTable.Layout.Loc` | src/cuckoocache.h:243-253 | A location is below the size. |
| `CuckooTable.LiveFound` | src/cuckoocache.h:467-477 | A live element is at one of its eight locations. |
| `CuckooTable.StoreSound` | src/cuckoocache.h:400-435 | Storing at an own location keeps placement, and keeps elements unique. |
| `CuckooTable.StoreGains` | src/cuckoocache.h:407-415 | Filling a discardable slot loses no live element. |
| `CuckooTable.SwapTrades` | src/cuckoocache.h:430-435 | Swapping into a live slot trades one live element for another. |
| `CuckooTable.StoreCount` | src/cuckoocache.h:411-435 | How storing changes the size of the current epoch. |
| `CuckooTable.AgedIs` | src/cuckoocache.h:306-311 | Ageing empties the current epoch and keeps alive exactly its elements. |
| `CuckooTable.MarkedIs` | src/cuckoocache.h:471-474 | Allowing erasure takes exactly that element out of the live ones. |
| `CuckooCache.Cache.constructor` | src/cuckoocache.h:340-354 | No live element, counter at a whole epoch; epoch size 45% with 32-bit wrap-around. |
| `CuckooCache.Cache.AllowErase` | src/cuckoocache.h:266-269 | Marks one slot discardable. |
| `CuckooCache.Cache.PleaseKeep` | src/cuckoocache.h:275-278 | Marks one slot kept. |
| `CuckooCache.Cache.CountUnused` | src/cuckoocache.h:297-300 | Counts the live elements of the current epoch. |
| `CuckooCache.Cache.Age` | src/cuckoocache.h:306-310 | Ages all slots. |
| `CuckooCache.Cache.EpochCheck` | src/cuckoocache.h:289-321 | Ages exactly when the counter has run out and the epoch is full; afterwards there is room for one more within epoch_size + max(1, epoch_size / 16). |
| `CuckooCache.Cache.Find` | src/cuckoocache.h:400-401 | First location holding the element. |
| `CuckooCache.Cache.FindDead` | src/cuckoocache.h:408-410 | First discardable location. |
| `CuckooCache.Cache.NextLoc` | src/cuckoocache.h:430-430 | The location after the last one, or the second one. |
| `CuckooCache.Cache.Round` | src/cuckoocache.h:406-440 | One round settles the element or trades it for a live one. |
| `CuckooCache.Cache.Search` | src/cuckoocache.h:406-440 | The rounds together lose at most one element, and none if there was room. |
| `CuckooCache.Cache.Insert` | src/cuckoocache.h:392-440 | Every live element stays in one of its locations; one insert loses at most one live element or the new one, nothing when there is room; live current-epoch entries plus the counter never exceed epoch_size + max(1, epoch_size / 16). |
| `CuckooCache.Cache.Contains` | src/cuckoocache.h:467-477 | Finds every live element; erasing makes exactly that element discardable; the table itself does not change. |
| `Radix.Canonical` | src/base58.cpp:110-113 | A number has one representation without leading zeros. |
| `Radix.Accumulate` | src/base58.cpp:96-109 | The carry loop makes the buffer mul times itself plus the digit, and carry is 0 at the end whenever the result fits. |
| `Radix.NoOverflow` | src/base58.cpp:106-106 | If the result fits the buffer nothing is carried out of it. |
| `Base58.EncodeFits` | src/base58.cpp:92-94 | 256^n <= 58^(138n/100 + 1): the encode buffer suffices for every length. |
| `Base58.DecodeFits` | src/base58.cpp:46-48 | 58^n <= 256^(733n/1000 + 1): the decode buffer suffices for every length. |
| `Base58.CharDigit` | src/base58.cpp:13-14 | Every digit has its own character, none a space or NUL. |
| `Base58.DigitChar` | src/base58.cpp:14-32 | The decoding table is the inverse of the alphabet. |
| `Base58.Convert` | src/base58.cpp:92-113 | Reading digits of one base into a buffer of another gives the digits of the same number, and carry is 0 after every digit. |
| `Base58.EncodeBase58` | src/base58.cpp:83-121 | One '1' per leading zero byte, then the base 58 digits of the number. |
| `Base58.DecodeBase58` | src/base58.cpp:34-82 | Leading and trailing spaces skipped, rejected exactly on a foreign character; otherwise one zero byte per leading '1', then the bytes of the number. |
| `Base58.DecodeText` | src/base58.cpp:39-81 | The part after the leading spaces, converted while it is read: carry is 0 after every character, also of a text that is rejected later. |
| `Base58.ReadChar` | src/base58.cpp:51-64 | One more character of any valid prefix still fits the buffer. |
| `Base58.DecodeEncode` | src/base58.cpp:34-121 | Decoding an encoded byte string gives it back, for every byte string. |
| `Base58.EncodeDecode` | src/base58.cpp:34-121 | Encoding what a text decodes to gives back its part between the spaces; the text itself if it has none. |
| `ArithUint.BaseUint.constructor` | src/arith_uint256.h:55-63 | Holds the given 64-bit number. |
| `ArithUint.BaseUint.Copy` | src/arith_uint256.h:40-46 | A copy, limb by limb. |
| `ArithUint.BaseUint.SetWord` | src/arith_uint256.h:86-93 | Holds the given 64-bit number. |
| `ArithUint.BaseUint.Assign` | src/arith_uint256.h:48-53 | Limbs copied. |
| `ArithUint.BaseUint.AddAssign` | src/arith_uint256.h:133-143 | Addition modulo two to the width. |
| `ArithUint.BaseUint.Complement` | src/arith_uint256.h:67-73 | Two to the width, minus one, minus the number. |
| `ArithUint.BaseUint.Increment` | src/arith_uint256.h:171-178 | Adding one modulo two to the width, although it stops at the first limb that does not wrap. |
| `ArithUint.BaseUint.Negate` | src/arith_uint256.h:75-82 | Negation modulo two to the width. |
| `ArithUint.BaseUint.SubAssign` | src/arith_uint256.h:145-149 | Subtraction modulo two to the width. |
| `ArithUint.BaseUint.CompareTo` | src/arith_uint256.cpp:112-121 | The order of the numbers. |
| `ArithUint.BaseUint.Bits` | src/arith_uint256.cpp:174-186 | The exact number of significant bits. |
| `ArithUint.LimbBits` | src/arith_uint256.cpp:178-182 | The position of the highest set bit of a limb. |
| `ArithUint.BaseUint.ShlAssign` | src/arith_uint256.cpp:24-38 | Multiplication by a power of two modulo two to the width, for every shift. |
| `ArithUint.BaseUint.ShrAssign` | src/arith_uint256.cpp:41-55 | Division by a power of two, for every shift. |
| `LimbShifts.ShlIs` | src/arith_uint256.cpp:24-38 | The limb by limb left shift is multiplication by a power of two modulo two to the width. |
| `LimbShifts.ShrIs` | src/arith_uint256.cpp:41-55 | The limb by limb right shift is division by a power of two. |
| `Limbs.OrDisjoint` | src/arith_uint256.cpp:33-35 | Or is addition on disjoint bit positions. |
| `ArithUint.BaseUint.MulWord` | src/arith_uint256.cpp:58-67 | Multiplication by a word modulo two to the width. |
| `ArithUint.BaseUint.AddProduct` | src/arith_uint256.cpp:74-79 | One row of the schoolbook product is accumulated exactly. |
| `ArithUint.BaseUint.MulAssign` | src/arith_uint256.cpp:70-83 | Multiplication modulo two to the width. |
| `ArithUint.BaseUint.SetQuotientBit` | src/arith_uint256.cpp:102-102 | Setting a quotient bit adds its weight. |
| `ArithUint.BaseUint.DivideBit` | src/arith_uint256.cpp:99-106 | One round of long division keeps dividend = remainder + quotient * divisor and bounds the remainder. |
| `ArithUint.BaseUint.DivAssign` | src/arith_uint256.cpp:86-109 | The exact floor quotient for every nonzero divisor; a zero divisor is an error. |
| `Compact.OverflowExact` | src/arith_uint256.cpp:206-224 | The overflow flag is set exactly when mantissa * 256^(exponent - 3) >= 2^256. |
| `Compact.NormalForm` | src/arith_uint256.cpp:226-243 | The size is the number of whole bytes of bits plus one and the mantissa keeps 16 to 23 bits. |
| `Compact.CompactRoundTrip` | src/arith_uint256.cpp:206-247 | Decoding an encoded number never flags overflow, carries the sign asked for, gives w <= v with (v - w) * 2^15 < v, and encoding w again gives the same code. |
| `Compact.CompactMonotone` | src/arith_uint256.cpp:226-247 | The compact form is monotone. |
| `Compact.FormBound` | src/arith_uint256.cpp:242-243 | Both asserts of GetCompact hold for every 256-bit number. |
| `Compact.SetCompact` | src/arith_uint256.cpp:206-224 | Value and flags as specified. |
| `Compact.GetLow64` | src/arith_uint256.h:243-247 | The number modulo 2^64. |
| `Compact.GetCompact` | src/arith_uint256.cpp:226-247 | The compact form as specified, within 32 bits. |
| `Compact.GetTop` | src/arith_uint256.cpp:228-235 | The top three bytes. |
| `Compact.TargetBelow` | src/chain.cpp:121-134 | A usable target plus one never wraps to zero. |
| `Compact.GetBlockProof` | src/chain.cpp:121-134 | Equals floor(2^256 / (target + 1)) for every usable nBits, 0 otherwise; never divides by zero. |
| `Bech32.StepLinear` | src/bech32.cpp:75-91 | One round of PolyMod is linear over bits. |
| `Bech32.StepKernel` | src/bech32.cpp:75-91 | Multiplying by x loses nothing. |
| `Bech32.RunLinear` | src/bech32.cpp:37-94 | PolyMod is linear over bits. |
| `Bech32.BurstDetected` | src/bech32.cpp:37-94 | Lists of any length that agree outside six consecutive symbols and have equal checksums are equal. |
| `Bech32.ChecksumVerifies` | src/bech32.cpp:118-139 | A created checksum verifies. |
| `Bech32.ChecksumUnique` | src/bech32.cpp:118-139 | No other six symbols verify. |
| `Bech32.CorruptionDetected` | src/bech32.cpp:118-125 | Changing up to six consecutive data symbols, in particular a single one, at any length, makes verification fail. |
| `Bech32Field.FullPeriod` | src/bech32.cpp:44-48 | The 1023rd power of the generator of GF(1024) is one. |
| `Bech32Field.NoFixpoint` | src/bech32.cpp:44-48 | No lower power of it leaves a nonzero element as it is. |
| `Bech32Errors.EvalFold` | src/bech32.cpp:84-91 | The checksum generator is zero at three successive powers of that element. |
| `Bech32Errors.EvalStep` | src/bech32.cpp:75-91 | At each of these roots one round of PolyMod is multiplication by the root plus the symbol. |
| `Bech32Errors.ThreeTerms` | src/bech32.cpp:44-48 | Three terms of different degrees below 1023 that cancel at three successive roots are zero. |
| `Bech32Errors.PairDetected` | src/bech32.cpp:44-48 | Lists of any length that agree but for two symbols less than 1023 apart and have equal checksums are equal. |
| `Bech32Errors.TripleDetected` | src/bech32.cpp:44-48 | The same for three symbols inside a window of 1023. |
| `Bech32Errors.PairCorruption` | src/bech32.cpp:118-125 | Changing one or two data symbols less than 1023 apart makes verification fail. |
| `Bech32Errors.TripleCorruption` | src/bech32.cpp:118-125 | Changing up to three data symbols inside a window of 1023 makes verification fail. |
| `Bech32Text.CharRev` | src/bech32.cpp:12-25 | The reverse table undoes the character set. |
| `Bech32Text.RevChar` | src/bech32.cpp:12-25 | The character set undoes the reverse table, in lower case. |
| `Bech32Text.ComputePolyMod` | src/bech32.cpp:70-94 | The loop computes PolyMod. |
| `Bech32Text.ComputeExpandHRP` | src/bech32.cpp:103-115 | High bits, zero, low bits. |
| `Bech32Text.CheckValues` | src/bech32.cpp:118-125 | Verification by recomputation. |
| `Bech32Text.CreateChecksum` | src/bech32.cpp:128-140 | The six groups of the checksum. |
| `Bech32Text.Encode` | src/bech32.cpp:147-156 | The text as specified. |
| `Bech32Text.ScanCase` | src/bech32.cpp:160-167 | Rejects mixed case and unprintable characters. |
| `Bech32Text.FindLast` | src/bech32.cpp:168-168 | The last separator. |
| `Bech32Text.ReadSymbols` | src/bech32.cpp:174-184 | All symbols, or a foreign character. |
| `Bech32Text.Decode` | src/bech32.cpp:159-193 | Accepts and rejects as specified. |
| `Bech32Text.DecodeEncode` | src/bech32.cpp:147-193 | Decoding an encoding gives it back if and only if the human-readable part has 1 to 83 printable characters without upper case and the whole has at most 140 characters. |
| `Bech32Text.EncodeDecode` | src/bech32.cpp:147-193 | Encoding what a string decodes to gives the string back in lower case. |
| `Bech32Text.CorruptText` | src/bech32.cpp:159-193 | A valid string no longer decodes after changing up to six consecutive data characters, unless one becomes the separator or letters change case only. |
| `Bech32Text.CorruptTriple` | src/bech32.cpp:159-193 | A valid string no longer decodes after changing any one, two or three data characters, however far apart, unless one becomes the separator or letters change case only. |
| `Chain.SkipDown` | src/chain.cpp:70-81 | A skip always goes strictly down. |
| `Chain.GetAncestor` | src/chain.cpp:83-108 | The skip list search equals the plain walk along pprev, for every height; the inner assert holds. |
| `Chain.BuildSkip` | src/chain.cpp:115-119 | Sets the skip pointer to the ancestor at the skip height and keeps that law for all blocks. |
| `Chain.AddBlock` | src/chain.cpp:115-119 | Every tree grown by adding blocks with BuildSkip satisfies the law of skips. |
| `Chain.ChainAncestors` | src/chain.h:509-524 | Entries of the active chain are the ancestors of each of its blocks. |
| `Chain.Met` | src/chain.cpp:16-21 | Stopping at the first block already in place is enough. |
| `Chain.ActiveChain.SetTip` | src/chain.cpp:11-21 | Every entry is the tip's ancestor at that height, from any previous chain. |
| `Chain.ActiveChain.FindFork` | src/chain.cpp:51-60 | The highest block of the branch that is on the chain, or none. |
| `Chain.ActiveChain.AncestorFor` | src/chain.cpp:36-43 | The chain index and the skip list give the same ancestor. |
| `Chain.ActiveChain.GetLocator` | src/chain.cpp:23-49 | Strictly descending ancestors from the start to the root, in the given steps; logarithmically many. |
| `Chain.MovedIs` | src/chain.cpp:36-45 | How far the first n steps go. |
| `Chain.LocatorLength` | src/chain.cpp:23-49 | At most 41 entries, and steps within 31 bits, below height 2^30. |
| `Chain.LastCommonAncestor` | src/chain.cpp:155-170 | The highest common block of two branches, none if their roots differ; the final assert holds. |
| `BlockEncodings.MakeCompact` | src/blockencodings.cpp:18-29 | Coinbase prefilled, short ids of all others in order. |
| `BlockEncodings.PartiallyDownloadedBlock.constructor` | src/blockencodings.h:205-205 | Nothing available yet. |
| `BlockEncodings.PartiallyDownloadedBlock.PlacePrefilled` | src/blockencodings.cpp:60-76 | True exactly when every prefilled transaction is non-null and in place; then exactly those slots are filled. |
| `BlockEncodings.PartiallyDownloadedBlock.IndexShortIds` | src/blockencodings.cpp:82-104 | Succeeds if and only if no bucket gets more than twelve different ids and no two ids are equal; all accesses in range, the offset within 16 bits; then the k-th short id is filed under what 16 bits keep of the position of the k-th slot without a prefilled transaction. |
| `BlockEncodings.PartiallyDownloadedBlock.NextEmpty` | src/blockencodings.cpp:85-86 | The next empty slot exists, and the 16-bit offset to it does not wrap around. |
| `BlockEncodings.PartiallyDownloadedBlock.Offer` | src/blockencodings.cpp:113-127 | One offered transaction fills its slot, or gives it up on a second offer; the count stays exact. |
| `BlockEncodings.PartiallyDownloadedBlock.FromPool` | src/blockencodings.cpp:106-134 | After the pool loop the count of filled slots is exact, and no slot offered one transaction is overlooked despite the early exit, also when several ids share a slot. |
| `BlockEncodings.PartiallyDownloadedBlock.FromExtra` | src/blockencodings.cpp:136-165 | The same after the extra transactions. |
| `BlockEncodings.PartiallyDownloadedBlock.InitData` | src/blockencodings.cpp:49-170 | For messages of every size: Invalid exactly on malformed ones, among them all above 200000 transactions; Failed exactly on well-formed ones whose ids crowd a bucket or repeat; on success mempool_count is the number of slots filled from the pools, a transaction alone on offer to a slot is there, and up to 65536 transactions the k-th short id stands for the k-th slot without a prefilled transaction. |
| `BlockEncodings.PartiallyDownloadedBlock.FillBlock` | src/blockencodings.cpp:178-217 | Missing transactions go into the empty slots in order; every status, and the state left behind. |
| `BlockEncodings.Relay` | src/blockencodings.cpp:18-200 | If no pool transaction shares a short id with a different block transaction: when the short ids after the coinbase differ and crowd no bucket, filling with exactly the missing transactions rebuilds the block, and otherwise the receiver reports Failed. |
| `CompactBlock.PlaceOne` | src/blockencodings.cpp:61-75 | The next prefilled position is in range and free. |
| `CompactBlock.PlacedAll` | src/blockencodings.cpp:60-76 | As many slots stay empty as there are short ids. |
| `CompactBlock.PositionsFit` | src/blockencodings.cpp:61-87 | The 16 bits kept for a position suffice for every empty slot if and only if the block has at most 65536 transactions. |
| `CompactBlock.SearchNeedsSlot` | src/blockencodings.cpp:83-87 | There are at most 65536 prefilled transactions, and only with exactly that many is every slot that the 16-bit search for the first short id can look at filled. |
| `CompactBlock.OffsetFits` | src/blockencodings.cpp:83-87 | The offset of the search is at most the number of prefilled transactions. |
| `CompactBlock.FiledResolves` | src/blockencodings.cpp:82-87 | In a block of at most 65536 transactions the k-th short id stands for the k-th empty slot itself. |
| `CompactBlock.FiledElsewhere` | src/blockencodings.cpp:82-87 | A short id whose position is beyond 65535 is filed under a lower slot: one with a prefilled transaction, or one that another id is filed under too. |
| `CompactBlock.CoinbaseDisplaced` | src/blockencodings.cpp:82-134 | In a block of 65537 to 131072 transactions sent with its coinbase, the transaction at position 65536 is filed under the coinbase and replaces it when it alone is offered there. |
| `CompactBlock.FillingFree` | src/blockencodings.cpp:110-134 | When every id has an empty slot of its own, prefilled slots stay and the count is the number of slots no longer missing. |
| `CompactBlock.DistinctSize` | src/blockencodings.cpp:103-104 | There are as many different ids as ids exactly when no two are equal. |
| `CompactBlock.RoomyEnd` | src/blockencodings.cpp:98-99 | If the bucket test never fires while ids are added, no bucket ends with more than twelve. |
| `CompactBlock.IndexOne` | src/blockencodings.cpp:84-87 | Indexing one more id keeps the k-th to k-th correspondence. |
| `CompactBlock.FreeUnique` | src/blockencodings.cpp:85-87 | The k-th empty slot is unique. |
| `CompactBlock.FillOne` | src/blockencodings.cpp:114-117 | Filling a slot never filled before raises the count by one. |
| `CompactBlock.DropOne` | src/blockencodings.cpp:122-125 | Giving up a slot lowers the count by one, which is then positive. |
| `CompactBlock.FoundAtEnd` | src/blockencodings.cpp:110-165 | Early exits overlook nothing, also when several ids share a slot. |
| `CompactBlock.PoolAgrees` | src/blockencodings.cpp:110-165 | Without clashes every filled slot holds the block's own transaction. |
| `CompactBlock.Rebuilds` | src/blockencodings.cpp:185-193 | Merging in the missing transactions gives the original list. |
| `CompactBlock.MadeDescribes` | src/blockencodings.cpp:18-29 | A compact block made from a list describes that list. |
| `CompactBlock.MadeWellFormed` | src/blockencodings.cpp:18-29 | A compact block made from a list of up to 200000 transactions is never malformed. |

## Left out

- `Select_` and `GetChance` of the address manager, `FindEarliestAtLeast`, `GetBlockProofEquivalentTime`: probabilistic or easy.
- False-positive rates, bucket-load estimates, floating point sizing of the Bloom filter and of the cuckoo cache's depth limit.
- Hash functions (SipHash, Murmur, SHA-256, bucket hashes): uninterpreted, injective only where a contract says so.
- Byte-level framing of streams; the address manager's stream is a record of its fields in order.
- 32-bit overflow of ids, heights, transaction counts and buffer lengths, except where a contract mentions 16, 31 or 32 bits.
- AddrManSerialize.Unserialize: for a stream that ends too early only vRandom and the shapes of the tables are stated; the caller discards the manager.
- AddrMan.AddrMan.GetAddr: the order of the answer is left open, as it is random.
- Miner.FiguresBound: fee figures are exact only without fee prioritisation, because the source subtracts the modified fee first and the base fee later.
- Miner.NextCandidate: scores are compared by exact products where the source rounds them to doubles; that the choice is the best is stated for transactions of positive size and mapTx in its order.
- Miner.BlockAssembler.AddPackageTxs: the coinbase and the header are not modelled.
- CheckQueue.WaitReturns: covers no further calls of Add, which the master makes only outside Wait; thread interruption and destruction of the queue are not modelled at all.
- CuckooCache.Cache.constructor: the depth limit is any number from 1 on, because the source takes it from a logarithm in floating point whose rounding decides between two values.
- RollingBloom.RollingBloomFilter.constructor: only with at least one filter bit; a filter for 0 elements gets none in the source, and then has no position to set.
- RollingBloom.Track: the same.
- CuckooCache.Cache.Search: how many elements could be moved before one is dropped is bounded by the depth limit, not stated to be best possible.
- Relaxed memory ordering of the cuckoo cache's flags, which its comments leave to external synchronisation.
- Compact.GetBlockProof: chain work accumulation is not modelled.
- BlockEncodings.PartiallyDownloadedBlock.InitData: not for messages with short ids and 65536 prefilled transactions, where the search for a slot finds none (`SearchNeedsSlot`) and the loop has no result to state; `extra_count` is statistics and is left out.
- BlockEncodings.PartiallyDownloadedBlock.IndexShortIds: the same.
- BlockEncodings.Relay: for blocks of at most 65536 transactions; beyond, see `CoinbaseDisplaced`.
- Coins.CoinsDb.BatchWrite: one batch; an interruption between partial batches, and the replay after it, are left out. `nBlockHeight` of a cache is not modelled.
- Differential index coding of `BlockTransactionsRequest`, short id serialization, block signatures.
- Bech32 guarantees for four or more scattered errors.
- Bech32Text.CorruptText: a changed character that becomes the separator moves the boundary of the human-readable part, and nothing is promised for that.
- Bech32Text.CorruptTriple: the same.
- `CBloomFilter`, `AddCoins`, `GetValueIn`, `CMerkleBlock`, `operator--`, bitwise operators, hexadecimal conversion: easy members.
- `FetchCoin` and other const methods that mutate caches are methods with a `modifies` clause.
- The address manager's tables are sequences of sequences that methods reassign, not fixed arrays.
