# Verified models of the node's core data structures

A Dafny model of the parts of the node where several pieces of state have to agree with one another, and
proofs that they do. `dafny verify dfyconfig.toml` checks everything.

| area | files |
|---|---|
| Coin selection over the fixed denominations | `CoinChain`, `DenominationFunctions` |
| Address manager: five coupled indexes, the self-check, the peers file | `AddrState`, `AddrMoves`, `AddrOps`, `AddrAdd`, `AddrMan`, `AddrCheck`, `AddrPeers`, `AddrFile`, `AddrLoad` |
| Unspent outputs: the byte format of a record, spending and undoing, layered caches over the database | `VarInt`, `Compressor`, `Coins`, `CCoins`, `CoinsCache`, `CoinsRuns`, `CoinsView` |
| Check queue: one master, any number of workers, one mutex, two condition variables | `CheckQueue`, `CheckQueueRuns`, `CCheckQueue` |
| Entrust ledger by block height | `EntrustBonus`, `Entrustment`, `EntrustRuns`, `EntrustBlock`, `EntrustWindow`, `EntrustObject` |
| Base-58 text | `Radix`, `Base58` |
| Block index and active chain | `Chain` |
| Stake modifier | `StakeModifier` |
| Monthly budget | `Budget` |
| Optional values, powers, facts about products and quotients | `Basics` |

Code that changes state in place is a class or a method with the loops of the source. Its contract equates the
whole new state with a specification function of the old one, and the properties are lemmas about those functions.
Hashes, random draws, clocks and public-key arithmetic are parameters, so every result holds for all of them.

## Where the code does less than its documentation says

Each of these is proved, together with the condition under which the code does what it says.

* `Good_` with a time that is not positive breaks the self-check (`AddrOps.GoodKeeps`); a negative time breaks it
  in `Attempt_` (`AddrOps.AttemptKeeps`).
* `Add_` can return true without storing the address (`AddrAdd.AddStores`).
* `Clear` leaves the two maps (`AddrPeers.ClearIsEnough`), so reading a peers file is modelled on a fresh manager.
* The 64-bit amount code wraps for some amounts below the supply limit (`Compressor.AmountRoundTrip`).
* Negative heights and versions are not read back (`VarInt.SignedRoundTrip`, `Coins.SerializeExact`).
* Undoing the spend of a record's last output loses the coin-stake flag (`Coins.SpendRestore`): the undo data has it
  and `DisconnectBlock` does not use it.
* Flushing a view whose best block was never asked for can make the level below report an older one
  (`CoinsRuns.FlushBestExact`).
* The coin-stake test bounds each reward output and not what a user gets in a block; the two agree iff no user is
  named twice (`EntrustRuns.ListBounds`).
* The coin-stake test looks at rewards only while the base height, 60 below, is recorded: not in the first 60 blocks,
  not with fewer than 60 heights kept, and not after more blocks were disconnected than the heights kept less 60. It
  does not look at a block that was checked while the block before it was not yet the tip either, and such a block is
  connected without another check (src/main.cpp:3220). Paying at most what was dealt is certain iff the test looks
  (`EntrustRuns.TestBounds`, `EntrustWindow.SoundExactly`, `EntrustWindow.WindowExact`).
* With a single height kept the previous one is gone when the bonus is divided, and nothing is dealt
  (`EntrustBlock.BlockStat`).
* A hundred payments are the most a finalized budget may have, and the allocation does not bound their number
  (`Budget.SubmittedPasses`).
* With fewer than ten masternodes enabled no budget transaction is accepted (`Budget.NothingAcceptedBelowTen`).
* `SelectMintsFromList` can return more mints than the spend limit allows: exactly when every selection that covers
  the target has more (`DenominationFunctions.SelectMintsFromList`).

## Model

| member | source | states |
|---|---|---|
| `CoinChain.ExactSubset` | src/libzerocoin/Denominations.h:20-32 | coins worth at least an amount that all of them divide into hold a selection worth exactly that amount, for every divisibility chain |
| `CoinChain.ExchangeTop` | src/denomination_functions.cpp:46-68 | any exact selection can be changed into one that takes the greedy number of the largest coin, with no more coins |
| `CoinChain.GreedyExactAndMinimal` | src/denomination_functions.cpp:46-68 | largest-first selection reaches every target that some selection within the supply reaches, with the fewest coins of all of them |
| `CoinChain.FewestCoins` | src/denomination_functions.cpp:369-380 | largest coins first, up to the one that covers the target, covers it with the fewest coins of all covering selections |
| `CoinChain.GreedyIsLargestFirst` | src/denomination_functions.cpp:46-68 | the greedy selection has more coins than any other of at most the target at the largest denomination at which the two differ |
| `CoinChain.GreedyAtMost` | src/denomination_functions.cpp:46-68 | largest-first selection never takes more than the target |
| `DenominationFunctions.FaceValues` | src/libzerocoin/Denominations.h:20-32 | the eight amounts are those of the coins of 1, 5, 10, 50, 100, 500, 1000 and 5000 |
| `DenominationFunctions.AmountsAreChain` | src/libzerocoin/Denominations.h:20-32 | the eight face values divide into one another |
| `DenominationFunctions.GetNumberOfCoinsUsed` | src/denomination_functions.cpp:18-26 | the number of coins over all denominations |
| `DenominationFunctions.GetMaxDenomHeld` | src/denomination_functions.cpp:31-42 | the largest denomination held, none when nothing is held |
| `DenominationFunctions.GetNextLowerDenomHeld` | src/denomination_functions.cpp:206-217 | the largest denomination held below a given one |
| `DenominationFunctions.GetSpendCoins` | src/denomination_functions.cpp:46-68 | the loops compute the greedy selection within the coins held |
| `DenominationFunctions.GetChange` | src/denomination_functions.cpp:73-93 | the loops compute the greedy selection with unlimited supply |
| `DenominationFunctions.GreedyReaches` | src/denomination_functions.cpp:46-68 | the greedy selection is exact iff any selection is, and then minimal among all exact ones |
| `DenominationFunctions.ChangeIsMinimal` | src/denomination_functions.cpp:73-93 | the change is worth the amount exactly and no other way to give it has fewer coins |
| `DenominationFunctions.GetIdealSpends` | src/denomination_functions.cpp:99-123 | true iff some collection of unused mints is worth exactly the target |
| `DenominationFunctions.SpendDenomination` | src/denomination_functions.cpp:128-148 | the passes for one denomination end and pick that many distinct unused mints of it |
| `DenominationFunctions.GetSpends` | src/denomination_functions.cpp:128-148 | ends, and returns distinct unused mints, exactly as many of each denomination as wanted, with their exact value |
| `DenominationFunctions.FillBelow` | src/denomination_functions.cpp:219-308 | first phase: coins up to a denomination, staying at or below the target, every unused one larger than what is missing; the largest-first selection below the target |
| `DenominationFunctions.BelowIsLargestFirst` | src/denomination_functions.cpp:219-308 | what the first phase takes has more coins than any other selection below the target at the largest denomination at which the two differ |
| `DenominationFunctions.FillAbove` | src/denomination_functions.cpp:219-308 | second phase: the smallest coin above what is missing, if one is held |
| `DenominationFunctions.DropOverlap` | src/denomination_functions.cpp:219-308 | third phase: the coins that would be spent and returned at once are dropped, all of them, and the value reached stays |
| `DenominationFunctions.FindAlternative` | src/denomination_functions.cpp:219-308 | the three phases together give the value of the alternative selection, at least the target when it can be covered |
| `DenominationFunctions.ImprovedIff` | src/denomination_functions.cpp:219-308 | a selection is replaced iff the change of the alternative has fewer coins and some held coins of its value keep to the spend limit; then by the fewest held coins of that value |
| `DenominationFunctions.SecondPhaseFinds` | src/denomination_functions.cpp:219-308 | when the second phase finds no coin the target cannot be covered at all |
| `DenominationFunctions.MinimizeChange` | src/denomination_functions.cpp:219-308 | fewer coins of change than before iff the alternative selection on the held counts gives them within the spend limit, and then that many, with the fewest held coins of its value; otherwise nothing changes |
| `DenominationFunctions.MinimizingHelps` | src/denomination_functions.cpp:316-405 | with minimizing the change never has more coins than that of the plain selection, and fewer iff the alternative improves on it; without it a single coin stays and several give way to no more coins only |
| `DenominationFunctions.MinDenomOverTarget` | src/denomination_functions.cpp:316-405 | a held coin worth more than the target than which no held one above the target is smaller, or none when no held coin exceeds it |
| `DenominationFunctions.CoverFromTop` | src/denomination_functions.cpp:316-405 | largest coins first cover every target the coins held can cover, and keep to the spend limit iff any covering selection does |
| `DenominationFunctions.CalculateChange` | src/denomination_functions.cpp:316-405 | the selection is within the coins held, the count is that of its change, failure only when it must, and the spend limit is exceeded only when every covering selection exceeds it; the selection is the plain one or its improvement, as minimizing asks |
| `DenominationFunctions.OvershootHasChange` | src/denomination_functions.cpp:316-405 | a covering selection for a whole target that cannot be met exactly has change, so a count of zero means failure only |
| `DenominationFunctions.SelectMintsFromList` | src/denomination_functions.cpp:411-443 | what is returned is distinct unused mints worth the claimed value, at least the target, with the claimed change; exact and minimal when exactness is possible within the limit; never empty for a coverable whole target; within the spend limit iff some covering selection is; empty when the mints do not suffice; otherwise mints of exactly the selected denominations, and when minimizing fewer coins come back iff the alternative improves on the plain selection |
| `AddrState.CreateKeeps` | src/addrman.cpp:89-99 | a new entry is indexed consistently once the counter is raised |
| `AddrState.SwapRandomKeeps` | src/addrman.cpp:101-119 | swapping two positions keeps the back-pointers right |
| `AddrState.DeleteKeeps` | src/addrman.cpp:121-133 | deleting an unreferenced new entry keeps every index, and its asserts hold |
| `AddrState.ClearNewKeeps` | src/addrman.cpp:135-148 | clearing a slot keeps the reference counts exact and deletes an entry with its last reference |
| `AddrOps.EvictKeeps` | src/addrman.cpp:150-196 | eviction from the tried table keeps the invariant, keeps the evicted entry as a new one, and costs at most one other new entry |
| `AddrOps.MakeTriedKeeps` | src/addrman.cpp:150-196 | moving an entry to the tried table keeps the invariant, and no assert in it fires |
| `AddrOps.GoodKeeps` | src/addrman.cpp:198-245 | the tables stay consistent at any time; the whole invariant holds iff the service is unknown or the time is positive |
| `AddrOps.MakeTriedTable` | src/addrman.cpp:150-196 | the entry leaves all its slots of the new table, and an evicted entry goes to its slot for its own source |
| `AddrOps.GoodMoves` | src/addrman.cpp:198-245 | a known service ends in the tried table, stamped with the time and without failed attempts; one that was there only gets the stamps |
| `AddrOps.GoodTable` | src/addrman.cpp:198-245 | which slots of the new table change, and how |
| `AddrAdd.TerribleIff` | src/addrman.cpp:34-52 | the conditions for dropping an entry, in seconds and counts |
| `AddrAdd.AttemptsTerrible` | src/addrman.cpp:315-332 | three failed attempts make an entry never reached droppable a minute after the last |
| `AddrAdd.GoodNotTerrible` | src/addrman.cpp:198-245 | an entry just reached is not dropped within a minute, and later only for the age of its announcement, until attempts fail |
| `AddrAdd.ConnectedRefreshes` | src/addrman.cpp:472-490 | the time moves to that of the connection iff it is more than twenty minutes behind; nothing else changes |
| `AddrAdd.RefreshRules` | src/addrman.cpp:256-264 | when and how far an announcement moves the time of a known entry, and that it never moves back |
| `AddrAdd.Refresh` | src/addrman.cpp:256-264 | an announcement of a known address changes its time and services only |
| `AddrAdd.PlaceKeeps` | src/addrman.cpp:291-311 | putting an entry in its slot, over another one or not, keeps the invariant |
| `AddrAdd.AddKeeps` | src/addrman.cpp:247-313 | adding keeps the invariant and the tried table; true iff the address is routable and was unknown |
| `AddrAdd.PlaceTable` | src/addrman.cpp:291-311 | the slot for the announcing source gets the entry iff it is free or may be overwritten; nothing else in the table changes |
| `AddrAdd.AddPlaces` | src/addrman.cpp:247-313 | an unknown address, or a known one that gets a reference, goes into its slot for the announcing source iff that is free or holds an entry that gives way; the entry has one reference more and no other slot changes |
| `AddrAdd.AddStores` | src/addrman.cpp:247-313 | a true result does not mean stored: exactly when the address was |
| `AddrAdd.AddLosesAtMostOne` | src/addrman.cpp:247-313 | adding disturbs at most one other entry, and that one was new |
| `AddrOps.AttemptKeeps` | src/addrman.cpp:315-332 | the invariant holds afterwards iff the service is unknown or the time is not negative |
| `AddrOps.ConnectedKeeps` | src/addrman.cpp:472-490 | keeps the invariant |
| `AddrAdd.SampleIsFair` | src/addrman.cpp:451-470 | the partial shuffle only reorders, and skips nobody but terrible entries |
| `AddrAdd.EveryPick` | src/addrman.cpp:451-470 | every position not yet sampled can be drawn |
| `AddrAdd.GetAddrKeeps` | src/addrman.cpp:451-470 | distinct entries, none terrible, within the two limits, and all of them when fewer than the limit are returned |
| `AddrAdd.EmptyInv` | src/addrman.h:448-451 | a fresh manager satisfies the invariant |
| `AddrAdd.RunKeepsInv` | src/addrman.cpp:89-332 | every state of every run of timely operations from an empty manager satisfies the invariant |
| `AddrCheck.InvPasses` | src/addrman.cpp:374-448 | the self-check finds no error in a state that satisfies the invariant |
| `AddrCheck.CheckIsInvariant` | src/addrman.cpp:374-448 | for states without stale entries, passing the self-check is satisfying the invariant |
| `AddrCheck.Check` | src/addrman.cpp:374-448 | the imperative self-check returns zero iff the state passes, and changes nothing but missing address entries |
| `AddrMan.AddrMan.SwapRandom` | src/addrman.cpp:101-119 | whole new state equal to the specification: the field updates are those of the specification |
| `AddrMan.AddrMan.Create` | src/addrman.cpp:89-99 | whole new state equal to the specification: the new entry and all indexes as specified |
| `AddrMan.AddrMan.Delete` | src/addrman.cpp:121-133 | whole new state equal to the specification: swap to the end, pop and erase as specified |
| `AddrMan.AddrMan.ClearNew` | src/addrman.cpp:135-148 | whole new state equal to the specification: as specified |
| `AddrMan.AddrMan.Evict` | src/addrman.cpp:168-185 | whole new state equal to the specification: the inner part of the move to the tried table as specified |
| `AddrMan.AddrMan.MakeTried` | src/addrman.cpp:150-196 | whole new state equal to the specification: the bucket loops and the placement as specified |
| `AddrMan.AddrMan.FindBucket` | src/addrman.cpp:228-236 | whole new state equal to the specification: the search over all buckets from a random start finds a bucket that holds the entry |
| `AddrMan.AddrMan.Good` | src/addrman.cpp:198-245 | whole new state equal to the specification: as specified, for every random start |
| `AddrMan.AddrMan.Add` | src/addrman.cpp:247-313 | whole new state equal to the specification: as specified, for every random draw |
| `AddrMan.AddrMan.Attempt` | src/addrman.cpp:315-332 | whole new state equal to the specification: as specified |
| `AddrMan.AddrMan.Connected` | src/addrman.cpp:472-490 | whole new state equal to the specification: as specified |
| `AddrMan.AddrMan.GetAddr` | src/addrman.cpp:451-470 | whole new state equal to the specification: the in-place shuffle and filter as specified |
| `AddrPeers.FlipTwice` | src/addrman.h:287-288 | the word for the number of buckets is undone by the same flip |
| `AddrPeers.SaveLoad` | src/addrman.h:276-421 | a saved manager loaded into a fresh one is the same up to ids, order and the times of last tries, and satisfies the invariant |
| `AddrPeers.SameOccupancy` | src/addrman.h:276-421 | both tables are occupied at the same slots by the same entries; nothing is lost to collisions or pruning |
| `AddrPeers.ClearIsEnough` | src/addrman.h:428-446 | clearing gives a valid empty manager iff there were no entries before |
| `AddrFile.ParseWrite` | src/addrman.h:276-403 | the stream of any well-formed content is read back as that content |
| `AddrFile.SaveParses` | src/addrman.h:276-403 | what is written for a valid manager is readable |
| `AddrFile.Serialize` | src/addrman.h:276-323 | the loops write exactly the specified stream, and no assert in them fires |
| `AddrFile.Clear` | src/addrman.h:428-446 | empties the tables and counters and leaves the two maps |
| `AddrFile.LoadNewEntries` | src/addrman.h:353-371 | the loop reads as many entries as announced, item by item, and files each as it comes; fails exactly where the stream breaks off |
| `AddrFile.LoadTriedEntries` | src/addrman.h:373-392 | the same for the tried entries, dropping those whose slot is taken |
| `AddrFile.LoadPositions` | src/addrman.h:394-408 | the nested loops read every bucket's size and indexes and restore the positions that can be used |
| `AddrFile.Unserialize` | src/addrman.h:326-421 | on a fresh manager, the loops accept exactly the streams that hold a content with natural counts, and build the specified state |
| `AddrLoad.LoadSound` | src/addrman.h:326-421 | a file of any version, bucket count and positions, written by anyone, loads into a valid manager when its entries have distinct addresses and valid stamps and its key is not zero |
| `AddrLoad.ParsedSound` | src/addrman.h:326-421 | so does every accepted stream with such entries |
| `AddrLoad.PrunedSound` | src/addrman.h:410-420 | the last loop keeps the invariant and leaves no entry without a reference |
| `VarInt.WriteVarInt` | src/serialize.h:419-434 | the digits, least significant first, written backwards, are the encoding |
| `VarInt.ReadVarInt` | src/serialize.h:436-449 | the loop reads as specified, in a type of any width |
| `VarInt.DecodeEncode` | src/serialize.h:382-404 | every number the type holds is read back, whatever follows |
| `VarInt.EncodeDecode` | src/serialize.h:382-404 | every encoded byte sequence is the encoding of exactly one number: no redundancy |
| `VarInt.SignedRoundTrip` | src/serialize.h:419-449 | a value of a signed type is read back iff it is not negative |
| `Compressor.CompressAmount` | src/compressor.cpp:137-154 | the loop computes the code, reduced to 64 bits |
| `Compressor.DecompressAmount` | src/compressor.cpp:156-180 | the loop computes the amount, reduced to 64 bits |
| `Compressor.DecompressCompress` | src/compressor.cpp:128-180 | decompression undoes compression on every natural number |
| `Compressor.CompressDecompress` | src/compressor.cpp:128-180 | compression undoes decompression: both are bijections |
| `Compressor.NoWrap` | src/compressor.cpp:137-180 | no 64-bit wrap-around while nine times the amount fits |
| `Compressor.AmountRoundTrip` | src/chainparams.cpp:157 | for every amount up to the supply limit: stored and read back unchanged iff it is a multiple of ten or at most 2049638230412172402, which is below the limit |
| `Compressor.DecompressCompressScript` | src/compressor.cpp:12-126 | all four special script forms are restored from their compressed form |
| `Compressor.SpecialForms` | src/compressor.cpp:40-75 | payments to key hashes and script hashes take 21 bytes, payments to public keys in both forms 33 |
| `Compressor.ScriptRoundTrip` | src/compressor.h:69-96 | a script of any kind is read back and exactly its bytes are consumed |
| `Compressor.OutRoundTrip` | src/compressor.h:111-135 | an output is read back but for its mixing rounds |
| `Coins.CleanupKeeps` | src/coins.h:122-128 | trimming keeps which outputs are available; a record is pruned iff it is trimmed to nothing |
| `Coins.CodeDefined` | src/coins.h:204-208 | the assert on the header code holds for every record that is not pruned |
| `Coins.BitOfPack` | src/coins.h:216-219 | bit p of a mask byte tells whether its output is available |
| `Coins.MaskCovers` | src/coins.cpp:17-34 | no output is available past the mask |
| `Coins.ReadMaskWritten` | src/coins.h:245-255 | the mask reader stops after exactly the bytes written, with every availability right |
| `Coins.CodeBits` | src/coins.h:209-244 | the header code fits, carries the flags, and announces the right number of non-zero mask bytes on both sides |
| `Coins.SerializeRoundTrip` | src/coins.h:202-265 | reading consumes exactly the bytes written and returns every available output at its index |
| `Coins.SerializeExact` | src/coins.h:202-265 | the very record comes back iff it is trimmed, in standard form, and has no negative height or version |
| `Coins.SpendRestore` | src/main.cpp:2916-2937 | spending an output and undoing it restores the record iff other outputs remained, or the height is set and the record is no coin stake, or at height zero it was kept or blank |
| `CCoinsRecord.CCoins.Cleanup` | src/coins.h:122-128 | the loop pops exactly the trailing spent outputs |
| `CCoinsRecord.CCoins.IsPruned` | src/coins.h:281-287 | true iff every output is null |
| `CCoinsRecord.CCoins.CalcMaskSize` | src/coins.cpp:17-34 | the mask size and the number of its non-zero bytes |
| `CCoinsRecord.CCoins.Spend` | src/coins.cpp:36-52 | the new record and the undo data, or no change and failure |
| `CCoinsRecord.CCoins.Serialize` | src/coins.h:202-229 | the loops write the specified bytes |
| `CCoinsRecord.CCoins.Unserialize` | src/coins.h:232-265 | the loops read as specified and fail exactly on what cannot be read |
| `CoinsCache.FetchKeepsRaw` | src/coins.cpp:108-124 | filling the caches changes no record at any level and touches no other key |
| `CoinsCache.ReadKeeps` | src/coins.cpp:108-134 | reads at any level, through any stack of caches, keep the invariant and every level's map |
| `CoinsCache.OpenedShowsVisible` | src/coins.cpp:136-153 | a modifier sees the visible record, or a pruned one when there is none |
| `CoinsCache.ModifyKeeps` | src/coins.cpp:136-153 | a modifier changes the top level at its key only and no lower level |
| `CoinsCache.EndModifyShows` | src/coins.cpp:295-303 | what the destructor leaves at the key: the trimmed record, or nothing when it is fresh and pruned |
| `CoinsCache.FlushAssertHolds` | src/coins.cpp:187-222 | the assert on fresh entries never fires |
| `CoinsCache.MergeShows` | src/coins.cpp:187-222 | for every combination of flags the receiving cache then shows what the flushed one showed, with right flags |
| `CoinsCache.FlushKeeps` | src/coins.cpp:224-229 | after a flush the level below shows the flushed level's map, lower levels are unchanged, and the invariant holds |
| `CoinsCache.FlushToDatabase` | src/txdb.cpp:61-80 | the same for a flush into the database |
| `CoinsRuns.HaveCoinsExact` | src/coins.cpp:165-173 | testing for an empty output list is testing for a visible record |
| `CoinsRuns.StepAgrees` | src/coins.cpp:108-229 | each operation does to the stack of caches what it does to a stack of plain maps |
| `CoinsRuns.RunAgrees` | src/coins.cpp:108-303 | through any run of reads, writes, new views, discards and flushes every level shows its plain map |
| `CoinsRuns.AskKeepsBest` | src/coins.cpp:175-180 | remembering the best block in every cache changes no level's answer |
| `CoinsRuns.FlushBestExact` | src/coins.cpp:187-229 | the level below reports the flushed view's best block iff it is the database, that block was set, or the two levels below agreed |
| `CoinsRuns.UnsetBestIsLost` | src/coins.cpp:220-226 | a concrete stack where an unset best block is handed down and an older one is reported |
| `CoinsView.CoinsViewDB.BatchWrite` | src/txdb.cpp:61-80 | the loop over the entries, in any order, writes the specified database |
| `CoinsView.CoinsViewCache.FetchCoins` | src/coins.cpp:108-124 | the recursion through the linked views fills the caches as specified |
| `CoinsView.CoinsViewCache.HaveCoins` | src/coins.cpp:165-173 | as specified |
| `CoinsView.CoinsViewCache.ModifyCoins` | src/coins.cpp:136-153 | the entry is opened as specified |
| `CoinsView.CoinsViewCache.EndModify` | src/coins.cpp:295-303 | the destructor as specified |
| `CoinsView.CoinsViewCache.Update` | src/coins.cpp:136-153 | a whole modification as specified |
| `CoinsView.CoinsViewCache.GetBestBlock` | src/coins.cpp:175-180 | the recursion through the linked views as specified |
| `CoinsView.CoinsViewCache.BatchWrite` | src/coins.cpp:187-222 | the loop over the entries, in any order, merges as specified |
| `CoinsView.CoinsViewCache.Flush` | src/coins.cpp:224-229 | the flush through the link as specified; the assert on fresh entries holds |
| `CheckQueue.BatchSize` | src/checkqueue.h:105-110 | at least one job, no more than queued, and within the limit unless that is zero |
| `CheckQueue.BatchIsLargest` | src/checkqueue.h:105-110 | the largest batch within the limit and an even share among the threads, or one job |
| `CheckQueue.BatchVerdict` | src/checkqueue.h:118-125 | a batch ends well iff it started well and all its jobs pass; then all were executed, otherwise a failing one was |
| `CheckQueueRuns.StartInv` | src/checkqueue.h:131 | the fresh queue satisfies the invariant |
| `CheckQueueRuns.EnteredKeeps` | src/checkqueue.h:90-120 | a thread in the wait loop, whether it returns, blocks or takes a batch, keeps the invariant |
| `CheckQueueRuns.SettledHistory` | src/checkqueue.h:79-85 | settling a batch keeps every job accounted for and the verdict true |
| `CheckQueueRuns.AddKeeps` | src/checkqueue.h:146-158 | adding jobs keeps the invariant: whichever worker is notified, no wake-up is lost |
| `CheckQueueRuns.StepKeeps` | src/checkqueue.h:69-158 | every atomic step of every thread keeps the invariant |
| `CheckQueueRuns.RunKeeps` | src/checkqueue.h:69-158 | every state of every run satisfies it: exact counters, every job added queued, in one batch or finished, no lost wake-up |
| `CheckQueueRuns.WaitVerdict` | src/checkqueue.h:91-100 | Wait returns true iff every job added since the last Wait passes, all of them executed; false only when an executed one failed; afterwards the queue is idle, the master has left and nothing has been added |
| `CheckQueueRuns.IdleWhenUnused` | src/checkqueue.h:164-168 | IsIdle is true in every state in which the master is away and has added nothing since the last Wait, whatever the workers do |
| `CheckQueueRuns.IdleUntilUsed` | src/checkqueue.h:183-190 | from the return of a Wait until the master uses the queue again, through any steps of the workers, the assert of the next controller holds |
| `CheckQueueRuns.NeverStuck` | src/checkqueue.h:77-121 | while the master waits some thread can go on without a spurious wake-up |
| `CheckQueueRuns.QueueIsServed` | src/checkqueue.h:91-104 | while jobs are queued and a worker has started, some worker is running or was notified |
| `CheckQueueRuns.PromptDecreases` | src/checkqueue.h:77-126 | every step without spurious wake-up, new thread or new job lowers a measure |
| `CheckQueueRuns.WaitEnds` | src/checkqueue.h:139-143 | under every schedule only so many steps are left, and when none is the master has left Wait |
| `CCheckQueueObject.CCheckQueue.AfterBatch` | src/checkqueue.h:78-104 | the clean-up and wait loop after a batch as specified, and when the master is notified |
| `CCheckQueueObject.CCheckQueue.FirstEntry` | src/checkqueue.h:86-104 | as specified |
| `CCheckQueueObject.CCheckQueue.AfterWait` | src/checkqueue.h:101-104 | as specified |
| `CCheckQueueObject.CCheckQueue.TakeLast` | src/checkqueue.h:110-117 | the swap loop takes the last jobs, last first |
| `CCheckQueueObject.CCheckQueue.Execute` | src/checkqueue.h:122-125 | the loop runs the jobs up to the first that fails |
| `CCheckQueueObject.CCheckQueue.Add` | src/checkqueue.h:146-158 | the jobs queued in order, and whom to notify |
| `EntrustBonus.SharesBound` | src/crp/CoinReleasePlan.cpp:325-357 | rounded-down shares add up to at most the exact part and fall short by less than one unit for each user |
| `EntrustBonus.BonusExact` | src/entrustment.cpp:1046-1082 | the bonus map of a balanced agent never throws and hands out exactly the block bonus, to the users who entrusted something, each its rounded-down share and the remainder to the first |
| `EntrustObject.GetBonusMap` | src/entrustment.cpp:1046-1082 | the loop over the users computes the specified map, or throws exactly where specified |
| `EntrustRuns.DealtInFull` | src/entrustment.cpp:431-436 | adding a bonus map to an agent adds exactly the bonus to what its users have been dealt |
| `EntrustBlock.PartsAddUp` | src/entrustment.cpp:1046-1082 | the parts of a bonus add up to it |
| `EntrustBlock.PartBounds` | src/entrustment.cpp:1046-1082 | each part is the exact proportion but for less than one unit, the first user's but for the number of users; who holds nothing gets nothing |
| `EntrustBlock.BlockDone` | src/entrustment.cpp:399-430 | a block is taken in iff its height is new and its staking agent was there before; it never throws |
| `EntrustBlock.MoveAllStat` | src/entrustment.cpp:967-988 | what a list of transfers does to one user: the net amount, and joining now iff an amount is entrusted to an empty holding |
| `EntrustBlock.BlockStat` | src/entrustment.cpp:399-511 | every agent and user after a block: there iff not resigned and not inactive, with the holding, the dealt and the paid amount and the joining height told from the previous height and the block |
| `EntrustBlock.BlockDeals` | src/entrustment.cpp:431-436 | a block raises what each user of the staking agent was dealt by the user's part of its bonus, in all by the bonus, and nobody else's |
| `EntrustBlock.BlockKeepsRest` | src/entrustment.cpp:883-901 | no other height changes, but for those too old to keep |
| `EntrustBlock.AcceptedMatured` | src/entrustment.cpp:353-391 | a reward passes iff the user was there 60 heights before and at the previous height, joined no later than that, has the least reward coming, and is then paid no more than had been dealt 60 heights before |
| `EntrustBlock.PaidIsMatured` | src/entrustment.cpp:1138-1176 | after a block that is looked at and pays nobody twice, whom it paid has been paid no more than had been dealt 60 heights before |
| `EntrustRuns.BalancedSet` | src/entrustment.cpp:169-182 | changing one user's holding and the total together keeps the total the sum of the holdings |
| `EntrustRuns.MoveBalanced` | src/entrustment.cpp:967-988 | entrusting and covered withdrawals keep every total the sum of its users' holdings |
| `EntrustRuns.ClearAgentBalanced` | src/entrustment.cpp:488-511 | erasing inactive users does too |
| `EntrustRuns.MoveFollow` | src/entrustment.cpp:967-988 | every entry is carried on, joined now, or left blank by an empty withdrawal |
| `EntrustRuns.ClearFollow` | src/entrustment.cpp:488-511 | after erasing the inactive every entry is carried on with at least as much dealt, or joined now |
| `EntrustRuns.ReceivedOnce` | src/entrustment.cpp:438-442 | paid once, a user receives the amount of that reward |
| `EntrustRuns.TestBounds` | src/entrustment.cpp:1098-1102 | for every list of rewards the test lets through, users paid once stay within what is expected of the block, iff the test looks at the rewards: rewards are checked, the block was checked on the tip, proof of stake has begun, and the base height is not below every recorded one |
| `EntrustRuns.ListBounds` | src/entrustment.cpp:1138-1176 | for users with expected rewards, every list of amounts that passes the loop stays within them iff no user is named twice |
| `EntrustRuns.AcceptedOnce` | src/entrustment.cpp:1138-1176 | amounts that pass the loop, nobody paid twice, bound what every user receives by the expected reward |
| `EntrustRuns.PaidTwice` | src/entrustment.cpp:1138-1176 | the same full reward paid twice passes the coin-stake test and exceeds the expected reward |
| `EntrustRuns.RewardCovered` | src/entrustment.cpp:353-391 | an expected reward is covered by what had been dealt at the previous height, thanks to the joining height |
| `EntrustRuns.RewardedFollow` | src/entrustment.cpp:421-443 | dealing the bonus and recording the rewards never throws and pays nobody more than was dealt |
| `EntrustRuns.AddKeeps` | src/entrustment.cpp:399-486 | every block let through whose rewards are looked at keeps the invariant over all heights |
| `EntrustWindow.SoundExactly` | src/entrustment.cpp:1098-1102 | all blocks an agent with a user who holds something may stake keep the invariant iff blocks at that height are looked at |
| `EntrustWindow.UnwatchedOverpays` | src/entrustment.cpp:1098-1102 | otherwise some block that is let through, with one reward, records more paid than was dealt |
| `EntrustWindow.MovedRecords` | src/entrustment.cpp:885-901 | the recorded heights after connecting a following block or disconnecting some |
| `EntrustWindow.WindowExact` | src/entrustment.cpp:1098-1102 | a block is looked at iff 60 heights below it is still recorded, and the other three conditions hold |
| `EntrustWindow.ShortWindow` | src/entrustment.cpp:897-901 | with fewer than 60 heights kept no block that follows another is looked at |
| `EntrustWindow.ReorganizedWindow` | src/entrustment.cpp:1335-1346 | after d blocks of a full window were disconnected the next block is looked at iff d is at most the number of heights kept less 60 |
| `EntrustRuns.RevertKeeps` | src/entrustment.cpp:1335-1346 | disconnecting blocks keeps the invariant |
| `EntrustRuns.RunNeverOverpays` | src/entrustment.cpp:353-511 | through any run of blocks connected and disconnected whose rewards are looked at, at every height, for every agent and user: paid at most what was dealt, and exact totals |
| `EntrustWindow.GuardedNeverOverpays` | src/entrustment.cpp:353-511 | the same under a condition on the operations alone: blocks follow one another, and those that pay rewards are in the window of recorded heights |
| `EntrustWindow.StraightNeverOverpays` | src/entrustment.cpp:353-511 | without disconnecting, 60 kept heights and 60 blocks before the first reward are enough |
| `EntrustRuns.ConnectAgain` | src/entrustment.cpp:1335-1346 | disconnecting a block just connected restores the ledger but for pruned heights, and connecting it again gives the same ledger |
| `EntrustRuns.ConnectAgainNeedsTwo` | src/entrustment.cpp:897-901 | with a single height kept the previous one is gone |
| `EntrustObject.Ledgers.GetExpectDivideRewardMap` | src/entrustment.cpp:353-391 | the loop computes the expected reward of exactly the users who have one |
| `EntrustObject.Ledgers.InitHeightAmount` | src/entrustment.cpp:883-913 | the copied height and the pruned ledger as specified |
| `EntrustObject.Ledgers.ClearInactiveEntrustUser` | src/entrustment.cpp:488-506 | the loops erase exactly the inactive users |
| `EntrustObject.Ledgers.LowestHeight` | src/entrustment.cpp:915-924 | the lowest recorded height, none on an empty ledger |
| `EntrustObject.Ledgers.CheckCoinStake` | src/entrustment.cpp:1084-1176 | the early returns and the loop over the rewards accept exactly what the rule accepts |
| `EntrustObject.Ledgers.AddDealDivideRewards` | src/entrustment.cpp:431-436 | the loop adds the bonus of every user |
| `EntrustObject.Ledgers.AddDividendRewards` | src/entrustment.cpp:438-442 | the loop records every reward |
| `EntrustObject.Ledgers.ApplyLists` | src/entrustment.cpp:447-459 | creations, resignations and transfers in order as specified |
| `EntrustObject.Ledgers.AddMetaBlock` | src/entrustment.cpp:399-486 | the new ledger and the outcome as specified, also where the block is refused half way |
| `EntrustObject.Ledgers.RevertToHeight` | src/entrustment.cpp:1335-1346 | the loop erases the heights above, up to the first missing one |
| `Radix.DecodeRoom` | src/base58.cpp:33-34 | the bytes allocated hold any number of that many base-58 digits, for every length |
| `Radix.EncodeRoom` | src/base58.cpp:91-92 | the digits allocated hold any number of that many bytes, for every length |
| `Radix.MultiplyAdd` | src/base58.cpp:41-48 | the in-place carry loop multiplies and adds, and no carry is left |
| `Base58.SpaceChars` | src/base58.cpp:24-27 | the characters skipped as space |
| `Base58.Alphabet` | src/base58.cpp:20 | the characters in the order of their values |
| `Base58.EncodeBase58` | src/base58.cpp:83-116 | the loops compute the encoding; the assert on the carry holds for every input |
| `Base58.DecodeBase58` | src/base58.cpp:22-66 | the loops compute the decoding, with the spaces around and the refusals; the assert on the carry holds |
| `Base58.DecodeEncode` | src/base58.cpp:22-116 | decoding an encoding gives the bytes back, leading zeros included |
| `Base58.EncodeDecode` | src/base58.cpp:22-116 | encoding what was decoded gives the text without the spaces around it, so the very text iff it has none |
| `Base58.CheckRoundTrip` | src/base58.cpp:128-152 | the checksum variant takes off what it put on, for any hash |
| `Base58.CheckExact` | src/base58.cpp:128-152 | text is accepted with a result iff it decodes and is that result's encoding but for spaces |
| `Base58.EncodeBase58Check` | src/base58.cpp:128-135 | as specified |
| `Base58.DecodeBase58Check` | src/base58.cpp:137-152 | as specified |
| `Chain.LowestOneCleared` | src/main.cpp:5186 | the lowest one bit is taken off: of an odd multiple of a power of two that power |
| `Chain.SkipHeight` | src/main.cpp:5185-5198 | the skip height is below the height |
| `Chain.BlockIndex.constructor` | src/main.cpp:5228-5232 | a block on a valid one has a valid path and the skip pointer the search relies on |
| `Chain.BlockIndex.GetAncestor` | src/main.cpp:5200-5221 | the skip search ends and returns the ancestor at the height |
| `Chain.LastCommonAncestor` | src/main.cpp:462-480 | the highest common ancestor; its assert cannot fail |
| `Chain.ActiveChain.SetTip` | src/chain.cpp:13-24 | the early-stopping loop leaves the full path of the new tip |
| `Chain.ActiveChain.FindFork` | src/chain.cpp:55-62 | the highest block of both paths, none when they share none |
| `Chain.ActiveChain.GetLocator` | src/chain.cpp:26-53 | the ancestors at exactly these heights: the first twelve one apart, then at doubling steps, down to the genesis block; at most twelve and the binary logarithm of the height |
| `StakeModifier.SelectBlock` | src/kernel.cpp:80-138 | the least selection hash among open candidates not later than the stop, the first of equals, or the first open one; fails only when nothing is open or a candidate is not indexed |
| `StakeModifier.ChoiceByMix` | src/kernel.cpp:108-134 | the choice in terms of the hash of each block and the previous modifier alone: proof of stake divided by 2^32, proof of work whole, the least wins and the first of equals; before the upgrade height proof of stake mixes in nothing of the block |
| `StakeModifier.SectionsGrow` | src/kernel.cpp:60-65 | the section lengths: the quotient rounded down, growing from 20 to 60 |
| `StakeModifier.BitsAt` | src/kernel.cpp:206-207 | bit r of the new modifier is the entropy bit of pick r |
| `StakeModifier.ChoiceUnique` | src/kernel.cpp:92-134 | that choice is unique |
| `StakeModifier.SelectRounds` | src/kernel.cpp:196-216 | one pick in each of min(64, n) rounds, never failing when all are indexed, and the modifier made of their bits |
| `StakeModifier.PicksDistinct` | src/kernel.cpp:200-212 | no block is picked twice |
| `StakeModifier.SelectionUnique` | src/kernel.cpp:200-216 | every node picks the same blocks in the same order |
| `Budget.GetBudget` | src/masternode-budget.cpp:717-767 | the loop allots as specified and records the amounts |
| `Budget.ReturnedInFull` | src/masternode-budget.cpp:746-754 | a returned proposal is allotted its whole amount |
| `Budget.SubmittedWithinBudget` | src/masternode-budget.cpp:153-163 | the payments submitted never exceed the total budget, so they pass the payout check |
| `Budget.SubmittedPasses` | src/masternode-budget.cpp:1944-1970 | the submitted budget passes the checks on its payout and on the number of payments iff at most a hundred proposals were allotted their amount |
| `Budget.TooManySubmitted` | src/masternode-budget.cpp:700-767 | more than a hundred eligible proposals that fit the budget together are all submitted, and fail the check on their number |
| `Budget.LeftOutDidNotFit` | src/masternode-budget.cpp:746-754 | an eligible proposal is left out only when it did not fit beside those with more votes |
| `Budget.AllottedDeserve` | src/masternode-budget.cpp:739-745 | what is allotted is valid, established, lasts over the period, and has a surplus of more than a tenth of the enabled masternodes |
| `Budget.EligibleIff` | src/masternode-budget.cpp:739-745 | those are all the conditions |
| `Budget.RecordedAmounts` | src/masternode-budget.cpp:746-757 | an eligible proposal that is left out is recorded with zero, one that is not eligible keeps its amount |
| `Budget.WinnerIsFirst` | src/masternode-budget.cpp:502-520 | of the budgets with the most votes the first in the list wins |
| `Budget.GetPayeeAndAmount` | src/masternode-budget.h:349-359 | the payment at the height's place in the list, none outside the span |
| `Budget.PaysThisBudget` | src/masternode-budget.cpp:1998-2030 | true iff the transaction makes the payment that stands at the height |
| `Budget.PaidInOrder` | src/masternode-budget.cpp:490-551 | at each height of its span a winning budget pays the payment at that place of its list, so each once and in order |
| `Budget.AcceptedPays` | src/masternode-budget.cpp:618-666 | an accepted transaction makes the payment due at the height of some budget with enough votes |
| `Budget.FillBlockPayee` | src/masternode-budget.cpp:490-551 | the payment of the budget with the most votes is added, in both block types |
| `Budget.CheckTransaction` | src/masternode-budget.cpp:618-666 | accepts exactly the transactions the rule accepts |
| `Budget.FilledIsAccepted` | src/masternode-budget.cpp:618-666 | a filled transaction is accepted on the same budgets iff at least ten masternodes are enabled and the votes reach five percent |
| `Budget.NothingAcceptedBelowTen` | src/masternode-budget.cpp:649-666 | with fewer than ten masternodes enabled nothing is accepted |

## Left out

- DenominationFunctions.SelectMintsFromList: the held map must count the unused mints of the list, as its callers build it; amounts are unbounded integers.
- AddrFile.Unserialize: a stream with a negative count is refused, where the source reads nothing for it and goes on with a negative counter, and what a manager holds after a stream that breaks off is not described; `AddrFile` works on the items of the stream, not their bytes.
- AddrAdd.RunKeepsInv: the times passed in are those a clock gives, positive for `Good_` and not negative for `Attempt_`; the two lemmas above say what happens otherwise.
- AddrMan.AddrMan.GetAddr: random draws are a parameter, and the distribution of the sample is not a subject.
- Compressor.AmountRoundTrip: amounts above the supply limit, which consensus rules out, only have the one-way `NoWrap`.
- Coins.SerializeRoundTrip: outputs hold amounts between zero and the supply limit whose code fits, scripts are shorter than 2^32 - 6 bytes, and the header code fits 32 bits; public-key decompression is assumed to undo compression on valid keys.
- CCoinsRecord.CCoins.Unserialize: the object left behind by a stream that breaks off is not described.
- CoinsRuns.RunAgrees: views are used from the top, as the node does: writes, flushes and discards only on the topmost view; reads on any.
- CoinsView.CoinsViewCache.Flush: the write to disk always succeeds; `SetBackend` and the statistics are not modelled.
- CheckQueueRuns.WaitVerdict: jobs are pure tests; `fQuit`, which nothing sets, is constantly false; the unsigned width of `nTodo` is not modelled.
- EntrustRuns.RunNeverOverpays: blocks come in rising height, rewards pass the coin-stake test with no user twice in a block and are looked at by it, and withdrawals are bounded by holdings; the rules for erasing inactive users and for the joining height are in force from the start; amounts are unbounded.
- EntrustObject.Ledgers.CheckCoinStake: of the outputs only the entrust rewards are modelled, each with the user it pays; the receiver of the staker's own reward and the season rewards are not.
- AddrLoad.LoadSound: one way; entries that are dropped while loading may break the condition and leave the manager valid.
- EntrustObject.Ledgers.AddMetaBlock: names, block counts, monthly and season figures, the blacklist and backup files are not modelled.
- Base58.DecodeBase58: characters are those of the C locale, and the alphabet is given by ranges instead of one literal.
- Chain.BlockIndex.constructor: the skip pointer is built together with the block.
- StakeModifier.SelectRounds: the candidates are given sorted by time and hash; gathering them by walking back, and the early exits of `ComputeNextStakeModifier`, are not modelled.
- Budget.GetBudget: the proposals are given sorted by votes; vote bookkeeping and collateral are not modelled.
- `CAddrMan::Select_`, whose ending is a matter of chance, and the floating-point chances it uses.
- `CCoins::GetSerializeSize`, which computes the header code with another factor than `Serialize` and so is no exact length.
- `ClearUnspendable`, priorities, transaction input sums and the zerocoin database.
- Networking, RPC, wallet, start-up and storage code.
