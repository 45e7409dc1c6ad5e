# Artax node core, modelled and proved in Dafny

This project models the data structures and protocols at the core of the Artax node, a
descendant of Bitcoin and Qtum, and proves what they promise. Each Dafny module follows
one component.

| module | component |
|---|---|
| CoinsView, CoinsCache | the stack of coin caches over the coin database |
| AddrManState, AddrManOps, AddrManRuns, AddrManEffects, AddrManCheck, AddrMan | the address manager, its runs, what it lets in and throws out, and its consistency check |
| AddrManFile, AddrManDisk | the address manager's file |
| CheckQueue | the queue that spreads script checks over worker threads |
| MerkleTree, MerkleShape, MerkleBlock | partial Merkle trees (BIP 37, "Partial Merkle branch format") |
| Miner, MinerRuns | block assembly from ancestor packages, the order of candidates and whole runs |
| Cuckoo, Bits | the cuckoo cache with its bit-packed flags |
| RollingBloom | the rolling Bloom filter |
| SkipHeights, ChainIndex | skip heights and walks, block index with skip links, active chain, forks, locators |
| Bech32 | Bech32 text and checksum (BIP 173, section "Bech32") |
| Base58, Powers | Base58 text, with and without check bytes |
| Arith256 | 256-bit limb arithmetic, compact targets, block proof |
| CompactBlock | compact block reconstruction (BIP 152, "New data structures") |
| Sets | finite sets and enumerations used by several modules |

Code that changes state in the source is a class or a method with loops here, proved equal to
a function on values; what the source promises is then proved about those functions. The check
queue is a state machine over its critical sections, with arbitrary interleaving and spurious
wake-ups.

Hashes, the clock, random choices, contract execution, fees, the outcome of block validation and
the sizes that come out of floating-point formulas are parameters or nondeterministic choices.
Signed and unsigned 32-bit and 64-bit quantities are unbounded integers except where the width
matters: the 32-bit product in the cuckoo cache set-up, limbs and compact targets, bit-packed words,
16-bit block indexes and 32-bit hashes scaled into a table.

## What the proofs found

- **AddCoin without overwrite** keeps the DIRTY/FRESH meaning exactly when the cache already holds
  the outpoint or the base has no unspent coin there (`AddKeepsFlagsIff`). Otherwise spending the
  new coin brings the old one back (`MisappliedFreshResurrects`).
- **AddCoin's exception** leaves the usage counter short by the old coin's size
  (`CoinsCache.CoinsCache.AddCoin`). The exception of a misapplied FRESH flag leaves a flush half
  done, with a usage counter that still counts the entries already handed down
  (`CoinsCache.CoinsCache.FlushTop`).
- **Flush** writes a null best block into a cache below when the top cache never learned its own,
  so the best block of the stack survives exactly under the condition of `FlushKeepsBestIff`.
- **CAddrMan::Clear** keeps the pending collisions and restarts the ids. Given enough different
  routable addresses, no later run makes `SelectTriedCollision_` look up id -1 if and only if
  nothing was pending (`ClearSafeIff`). A pending id n is reached by the (n+1)-th insertion of a new
  address (`ClearThenAddsLookUpMinusOne`). The lookup inserts a default entry under id -1. It is the
  only step that makes a consistent manager inconsistent (`StepSoundIff`), and `Check_` then fails
  (`BreakFailsCheck`).
- **CAddrMan::Check_** does not see the id counter, nor addresses indexed without an entry; apart
  from these it accepts exactly the consistent managers (`ChecksIff`, `ChecksMissesIndex`). Its
  lookups can add addresses to the index (`AddrMan.AddrMan.Check`). `Good_`, `Attempt_` and
  `ResolveCollisions_` keep what it demands of the statistics exactly under the condition on their
  time that `StatsStepIff` gives.
- **A peers file** with negative counts passes both limit tests. A file loads into a consistent
  manager if and only if its counts are not negative and no record that stays shares its address
  with another one that becomes an entry; both follow from the records and the bucket lists
  (`LoadValidIff`).
- **The bound of 2N-1 flag bits** stated at src/merkleblock.h:47 holds exactly when no match lies
  under the last node of a level of odd width (`BitBoundIff`, `BitBoundFails`). The size guarantee
  at src/merkleblock.h:31-34 rests on it and fails too, by one byte for 1012 matched transactions;
  `SizeBoundIff` gives the exact condition.
- **A partial Merkle tree** is accepted with a real root in more forms than the builder gives it: nodes
  may be opened without a match below, and the last byte may hold any padding. These are the only
  liberties (`MerkleShape.AcceptedIff`, `NonMalleable`).
- **A package can be left out of a block although it fits**, because its figures are stale. With
  exact figures a final plain package goes in if and only if it fits (`Miner.AcceptedIff`). Figures go
  stale in two ways: an entry that was dropped from the modified set re-enters with the pool's
  figures and without its earlier credits (`ReenteredExactIff`, `DroppedThoughItFits`), and a
  package that stops at a failing contract is never credited (`UncreditedExactIff`,
  `UncreditedThoughItFits`). Both are shown on whole runs in which every pick follows the fee order.
- **The first cuckoo eviction** is at the second location, not at `locs[0]` as the comment at
  src/cuckoocache.h:419-420 says (`FirstVictim`).
- **The cuckoo cache's flags** are not allocated for the seven largest 32-bit sizes, where the number
  of bytes wraps (`Cuckoo.BitFlags.constructor`).
- **The skip link formula** is described as found in simulations. A walk between any two heights
  below 2^L takes at most L(L+11)/2 + 1 steps (`WalkIsShort`).
- **extra_count** of a compact block drops below zero exactly when the extra transactions never
  complete the block and contradict more matches than they bring (`ExtraNegativeIff`,
  `ExtraCountDropsBelowZero`); it is used only in a log line.

## Model

| member | source | states |
|---|---|---|
| CoinsView.ReadIsFlat | src/coins.cpp:57-64 | a lookup through any stack of caches agrees with one flat map of unspent coins |
| CoinsView.FetchKeeps | src/coins.cpp:40-55 | filling caches on a miss changes no layer's meaning and keeps every flag truthful |
| CoinsView.AddKeeps | src/coins.cpp:66-85 | with overwrite, or with no unspent coin in the view, adding never throws, keeps the flags truthful and updates the top map at one outpoint |
| CoinsView.AddKeepsFlagsIff | src/coins.cpp:66-85 | without overwrite the flags stay truthful if and only if the cache holds the outpoint or the base has no unspent coin there |
| CoinsView.MisappliedFreshResurrects | src/coins.cpp:66-85 | outside that condition a later spend uncovers the old coin, and a flush into a cache that holds it throws |
| CoinsView.SpendKeeps | src/coins.cpp:99-113 | spending removes the outpoint from the top map and from no other layer, whether a FRESH entry vanishes or a marker stays |
| CoinsView.UncacheKeeps | src/coins.cpp:211-218 | uncaching changes no layer's meaning and keeps every flag truthful |
| CoinsView.UncacheLeaves | src/coins.cpp:211-218 | after uncaching, an entry is in the cache if and only if it was there DIRTY or FRESH, and then unchanged; no other entry changes |
| CoinsView.UncacheUndoesFetch | src/coins.cpp:211-218 | uncaching gives back the entries from before a lookup if and only if the lookup found no spent coin |
| CoinsView.FetchLeaves | src/coins.cpp:40-55 | a lookup that misses leaves the coin found below in every cache it passes, clean and FRESH only if spent; a second lookup changes nothing |
| CoinsView.AddLeaves | src/coins.cpp:66-85 | the added entry is DIRTY, and FRESH exactly if the old one was or nothing is overwritten and no change is pending |
| CoinsView.SpendLeaves | src/coins.cpp:99-113 | an entry stays behind if and only if the fetched one is not FRESH, and then as a DIRTY marker |
| CoinsView.MergeLeaves | src/coins.cpp:146-202 | what a merge leaves at each outpoint: when an entry goes, and that FRESH is inherited from the parent's entry or else from the child's |
| CoinsView.StoreLeaves | src/txdb.cpp:88-147 | what a batch leaves in the database at each outpoint |
| CoinsView.ShortLivedLeavesNothing | src/coins.cpp:66-209 | a coin added and spent between two flushes leaves no entry, and one flushed in between leaves none below after the next flush |
| CoinsView.BatchWriteCache | src/coins.cpp:146-202 | merging truthful child entries never hits the "FRESH flag misapplied" exception, and the parent then means what child over parent meant |
| CoinsView.BatchWriteDatabase | src/txdb.cpp:88-147 | writing only DIRTY entries makes the database mean what the child over it meant |
| CoinsView.FlushKeeps | src/coins.cpp:204-209 | a flush never throws, leaves the top view unchanged and makes the layer below equal to it |
| CoinsView.FlushKeepsBestIff | src/coins.cpp:136-209 | a flush keeps the best block if and only if the top knew its own or the two layers below agree |
| CoinsView.StepRefines | src/coins.cpp:40-218 | every operation on a stack of any height, including opening and discarding a cache, is the plain operation on a stack of maps |
| CoinsView.RunRefines | src/coins.cpp:40-218 | the same for every legal run of operations |
| CoinsCache.TotalUpdate | src/coins.cpp:36-38 | the summed memory of a cache after one entry is replaced |
| CoinsCache.CoinsDb.BatchWrite | src/txdb.cpp:88-147 | the loop over the child entries computes the database write of the value model |
| CoinsCache.CoinsCache.FetchCoin | src/coins.cpp:40-55 | computes the fetch of the value model through all layers, with exact usage |
| CoinsCache.CoinsCache.GetCoin | src/coins.cpp:57-64 | returns the lookup of the value model |
| CoinsCache.CoinsCache.AddCoin | src/coins.cpp:66-85 | throws exactly on overwriting an unspent entry; usage is exact unless it throws, and then short by the old coin |
| CoinsCache.CoinsCache.SpendCoin | src/coins.cpp:99-113 | moves out the fetched coin, spent or not, and computes the spend of the value model |
| CoinsCache.CoinsCache.UncacheCoin | src/coins.cpp:211-218 | the entry stays if and only if it is DIRTY or FRESH, and usage falls by exactly the removed coin's |
| CoinsCache.CoinsCache.MergeAll | src/coins.cpp:146-202 | the merge loop in any order throws exactly when some entry is misapplied, and otherwise computes the merge; after a throw, what is merged and what is left in the child |
| CoinsCache.CoinsCache.BatchWrite | src/coins.cpp:146-202 | a merge with exact usage that also takes over the best block |
| CoinsCache.CoinsCache.FlushTop | src/coins.cpp:204-209 | on truthful flags never throws; computes the flush of the value model; after a throw this cache keeps what was not merged, with its usage counter unchanged |
| CoinsCache.CoinsCache.GetBestBlock | src/coins.cpp:136-140 | the hash found below is cached at every layer, and no layer's coins change |
| CoinsCache.AddCoins | src/coins.cpp:87-97 | all outputs of a transaction enter the top map, none of the layers below changes |
| AddrManState.SwapRandomOk | src/addrman.cpp:93-111 | exchanging two positions keeps the random vector and the positions stored in the entries mutually inverse |
| AddrManState.DeleteInv | src/addrman.cpp:113-125 | deleting an unreferenced new entry keeps maps, vector, tables and counters consistent |
| AddrManState.ClearNewInv | src/addrman.cpp:127-140 | clearing a slot keeps the whole invariant, deleting the entry when its last reference goes |
| AddrManOps.CreateInv | src/addrman.cpp:81-91 | a created entry is consistent except that it has no slot yet |
| AddrManOps.MakeTriedInv | src/addrman.cpp:142-188 | promotion keeps the full invariant; new and tried tables change exactly as specified per address, an evicted entry goes to its new slot |
| AddrManOps.GoodInv | src/addrman.cpp:190-252 | marking an address good keeps the invariant and never empties a tried slot; the id becomes pending if and only if the service is found, untried, tested before eviction, its tried slot occupied and fewer than ten are pending |
| AddrManOps.GoodRecords | src/addrman.cpp:190-252 | last success, last try and last good are the given time, no failed attempts are left, the entry is tried unless deferred, and no other entry's statistics change |
| AddrManOps.HasSlot | src/addrman.cpp:219-234 | every entry that is not tried sits in some new slot, so the bucket search finds one |
| AddrManOps.PlaceInv | src/addrman.cpp:303-324 | entering a new slot, evicting a terrible or over-referenced holder, restores the invariant |
| AddrManOps.AddInv | src/addrman.cpp:254-325 | adding an advertised address keeps the invariant; exactly one new slot changes, or none |
| AddrManOps.ResolveStep | src/addrman.cpp:537-587 | resolving one pending collision keeps the invariant and, if it held, the promise about pending collisions |
| AddrManEffects.ResolveOutcome | src/addrman.cpp:537-587 | a pending id takes the tried slot if and only if there is no occupant, or one without a success in four hours that was tried in them and more than a minute ago; it stays pending if and only if that test is outstanding; else it is dropped |
| AddrManEffects.AddNewOutcome | src/addrman.cpp:254-325 | an unknown routable address is known afterwards if and only if its slot is free or its holder terrible or referenced elsewhere; it starts with the advertised time less the penalty and one reference |
| AddrManEffects.AddKnownOutcome | src/addrman.cpp:254-325 | for a known address: when its time moves, that services accumulate, and exactly when it gains a reference |
| AddrManEffects.TerribleIff | src/addrman.cpp:33-51 | the five reasons, in seconds and counts, none of which applies within a minute of a try |
| AddrManEffects.AttemptCountsOnce | src/addrman.cpp:327-347 | a failure is counted at most once for every success anywhere |
| AddrManEffects.ConnectedForward | src/addrman.cpp:495-513 | a connection moves the time forward, by more than twenty minutes or not at all |
| AddrManRuns.StepInv | src/addrman.cpp:81-614 | every operation but a select that looks up id -1 keeps tables, indexes, vector, reference counts and counters consistent and every tried slot filled; if it held, also that each pending id still known has an occupant in its tried slot and at most 10 are pending |
| AddrManRuns.StepSoundIff | src/addrman.cpp:81-614 | a step keeps the manager consistent if and only if it is not a select that draws a pending id with an empty tried slot |
| AddrManRuns.StatsStepIff | src/addrman.cpp:190-614 | every operation keeps last try and last success non-negative and tried entries successful, if and only if its time argument allows it |
| AddrManRuns.RunSafe | src/addrman.cpp:81-614 | from a consistent manager whose pending collisions have occupants, every run ends in such a manager and none looks up id -1 |
| AddrManRuns.ClearSafeIff | src/addrman.h:471-493 | a cleared manager is consistent, and no later run looks up id -1 if and only if no collision was pending, given enough routable addresses |
| AddrManRuns.ClearThenAddsLookUpMinusOne | src/addrman.h:471-493 | for every pending id n, clearing and n + 1 insertions of different routable addresses lead to a state in which drawing n looks up id -1, the earlier entries being stale |
| AddrManCheck.ChecksIff | src/addrman.cpp:397-471 | the conditions of Check_, together with the id counter and the address index it does not look at, are exactly the invariant with sensible statistics and a key |
| AddrManCheck.ChecksMissesIndex | src/addrman.cpp:397-471 | an index with an address of no entry passes Check_ and is not consistent |
| AddrManCheck.RunChecks | src/addrman.cpp:397-471 | after every run with positive times that never looks up id -1, from a consistent manager with sensible statistics and a key, Check_ passes |
| AddrManCheck.BreakFailsCheck | src/addrman.cpp:589-614 | looking up id -1 leaves one more entry, under that id, and Check_ fails |
| AddrManCheck.CheckEntries | src/addrman.cpp:405-430 | zero exactly when every entry meets the demands on one entry; a lookup inserts 0 for a missing address |
| AddrManCheck.CheckTried | src/addrman.cpp:436-448 | passes with nothing left over exactly when every tried id is in its own slot and nothing else is in the table |
| AddrManCheck.CheckNew | src/addrman.cpp:450-461 | passes with all counts used up exactly when every slot is the right one and reference counts are occurrences |
| AddrMan.AddrMan.SwapRandomPositions | src/addrman.cpp:93-111 | the in-place exchange is the exchange of the value model |
| AddrMan.AddrMan.DeleteEntry | src/addrman.cpp:113-125 | the in-place deletion is the one of the value model |
| AddrMan.AddrMan.ClearNewSlot | src/addrman.cpp:127-140 | the asserted reference count is positive, and the invariant is kept |
| AddrMan.AddrMan.MakeTriedEntry | src/addrman.cpp:142-188 | the loop over all buckets removes every reference; both asserts of the source hold |
| AddrMan.AddrMan.GoodService | src/addrman.cpp:190-252 | with any random start bucket, computes the good operation and keeps the invariant; GoodInv and GoodRecords say what that is |
| AddrMan.AddrMan.FindBucket | src/addrman.cpp:219-234 | the cyclic search from a random start finds a bucket if and only if there is one |
| AddrMan.AddrMan.AddAddress | src/addrman.cpp:254-325 | computes the add operation; reports a new address exactly when it is routable and was unknown |
| AddrMan.AddrMan.ResolveCollisions | src/addrman.cpp:537-587 | resolves every pending id once, in ascending order, keeping the invariant |
| AddrMan.AddrMan.SelectTriedCollision | src/addrman.cpp:589-614 | returns the tried occupant the pending entry collides with, or nothing, dropping unknown ids; without an occupant a default entry that stays behind under id -1, and then only is the manager not consistent any more |
| AddrMan.AddrMan.GetAddr | src/addrman.cpp:474-493 | returns distinct entries as stored, none terrible, and exactly as many as the least of 23 percent, 2500 and the entries that are not terrible; tables unchanged |
| AddrMan.AddrMan.ClearAll | src/addrman.h:471-493 | resets everything but the pending collisions |
| AddrMan.AddrMan.Check | src/addrman.cpp:397-471 | returns zero exactly for the states that meet the conditions of Check_; changes at most the address index, and nothing of a consistent manager |
| AddrManFile.LoadReads | src/addrman.h:366-451 | any file with non-negative counts loads into tables, reference counts, vector and counters that agree, whatever its records and indexes |
| AddrManFile.LoadMirrors | src/addrman.h:394-451 | new ids are positions of new records, the new table is what the bucket lists or home slots give, and each tried slot holds the first record that wants it |
| AddrManFile.UnsharedIff | src/addrman.h:394-463 | no entry that stays shares its address if and only if no such record does |
| AddrManFile.LoadValidIff | src/addrman.h:366-469 | the loaded and pruned manager is consistent if and only if the counts are not negative and no record that stays shares its address with another that becomes an entry; different addresses suffice |
| AddrManFile.DistinctUnshared | src/addrman.h:394-433 | records with different addresses meet that condition |
| AddrManDisk.NotRejected | src/addrman.h:386-392 | a consistent manager never exceeds the size limits that reading enforces |
| AddrManDisk.NoCollision | src/addrman.h:414-433 | no tried entry is lost to a slot collision when read back |
| AddrManDisk.RoundTrip | src/addrman.h:316-469 | reading a dump restores the same addresses, slots, counters and reference counts up to renumbering, with nothing to prune |
| AddrManDisk.WriteNew | src/addrman.h:329-339 | writes each new entry once and numbers it, as many as the header says, so the assert on the count holds |
| AddrManDisk.WriteTried | src/addrman.h:340-348 | writes each tried entry once, as many as the header says |
| AddrManDisk.WriteBucket | src/addrman.h:349-362 | writes the numbers of exactly the occupants of one bucket |
| AddrManDisk.Serialize | src/addrman.h:316-363 | the three passes produce a dump of the state |
| AddrManDisk.ReadNew | src/addrman.h:394-412 | the loop over new records computes the load of the value model |
| AddrManDisk.ReadTried | src/addrman.h:414-433 | tried records that collide are dropped and the counter corrected |
| AddrManDisk.ReadBucket | src/addrman.h:435-451 | only indexes in range with a free slot and a reference to spare take effect |
| AddrManDisk.Prune | src/addrman.h:453-463 | deletes exactly the entries that ended up in no table |
| AddrManDisk.Unserialize | src/addrman.h:366-469 | rejects exactly on the key size or the two limits, negative counts included; otherwise load and prune, consistent exactly under the condition on counts and addresses |
| AddrManDisk.SaveAndLoad | src/addrman.h:316-469 | writing one manager and reading it into another gives a consistent manager with the same tables and counters, each address with its lasting fields and reference count; without pending collisions it is ready for any run |
| CheckQueue.GrabInv | src/checkqueue.h:102-117 | taking a batch conserves all checks: queued, in flight and done add up to what was added |
| CheckQueue.GrabTakes | src/checkqueue.h:102-117 | the batch is the end of the queue, last first, of the largest size within the limit and an even share, but at least one |
| CheckQueue.AccountResult | src/checkqueue.h:76-86 | after accounting, the shared flag is true exactly when all finished checks evaluated to true |
| CheckQueue.SectionInv | src/checkqueue.h:74-118 | every pass through the critical section keeps the invariant; when the master returns the flag is the conjunction of all checks |
| CheckQueue.StepInv | src/checkqueue.h:66-158 | every step of every thread keeps nTodo equal to queued plus in-flight checks and all counters exact; AddWakes says whom a step wakes |
| CheckQueue.RunInv | src/checkqueue.h:66-158 | the same in every state of every run |
| CheckQueue.WaitIsRight | src/checkqueue.h:87-97 | Wait returns true exactly when every check added since the last Wait evaluates to true, and leaves the queue reset |
| CheckQueue.NeverStuck | src/checkqueue.h:66-158 | a master asleep without a notification implies a worker with a batch, so while the master waits some thread can move |
| CheckQueue.AddWakes | src/checkqueue.h:146-158 | in every run, adding two or more checks leaves no worker asleep, and adding one wakes exactly one sleeping worker if there is any |
| CheckQueue.NeverAllAsleep | src/checkqueue.h:66-158 | in every run, while checks are queued some worker is awake or notified, if there are any workers |
| CheckQueue.WaitProgresses | src/checkqueue.h:66-158 | while the master waits, every step that is not a spurious wake-up lowers a well-founded rank |
| MerkleTree.WidthBound | src/merkleblock.h:66-68 | a position exists at a height exactly when its first leaf does |
| MerkleTree.SoundBelow | src/merkleblock.cpp:78-114 | below any node, an accepted walk with the right hash lists only true leaves, or a hash collision is exhibited |
| MerkleTree.Soundness | src/merkleblock.cpp:78-163 | an accepted object with the root of a real list returns only true leaves with their indexes, or two colliding pairs are exhibited |
| MerkleShape.AcceptedIff | src/merkleblock.cpp:78-163 | an object is accepted, with this root and these matches, if and only if its bits spell a shape of the tree up to padding in the last byte, its hashes label the tips one to one, and no two siblings are equal |
| MerkleShape.WalkFollows | src/merkleblock.cpp:78-114 | the traversal of a spelled shape uses exactly its bits and one hash for every tip, and computes its root and matches |
| MerkleShape.WalkReads | src/merkleblock.cpp:78-114 | a traversal that does not fail has read a shape of the tree |
| MerkleShape.ShapeUnique | src/merkleblock.cpp:78-114 | bits spell at most one shape |
| MerkleShape.NonMalleable | src/merkleblock.cpp:78-163 | with the root of a real list the hashes are the real ones of the tips, so the shape determines the object up to padding; it equals what the builder makes of the reported matches if and only if no node is opened without a match below; or a collision is exhibited |
| MerkleTree.TwinsCollide | src/merkleblock.cpp:98-107 | two equal nodes of one level over distinct txids exhibit a collision, so the duplicate test never rejects an honest tree otherwise |
| MerkleTree.RoundTrip | src/merkleblock.cpp:60-163 | extracting a built tree, with or without padding bits, gives the root and exactly the matched txids in order, or a collision |
| MerkleTree.LonelyIs | src/merkleblock.h:38-47 | extra bits are one for each odd level with a match under the parent of its last node |
| MerkleTree.BitBoundIff | src/merkleblock.h:38-47 | at most n and at most 1 + matched * height hashes, at most 2N-1+height bits; 2N-1 bits if and only if no match lies under an odd last node |
| MerkleTree.BitBoundFails | src/merkleblock.h:47 | three txids with the last matched exceed 2N-1 bits |
| MerkleTree.SizeBoundIff | src/merkleblock.h:31-48 | the encoded size is at most 10 + ceil(32.25 N) if and only if the extra bits, counted by levels, fit what the length bytes and the last byte leave |
| MerkleTree.SizeBoundFails | src/merkleblock.h:31-34 | 1012 matched txids take 32648 bytes where 32647 are guaranteed |
| MerkleBlock.PartialMerkleTree.constructor | src/merkleblock.cpp:116-128 | builds the bits and hashes of the value model from the top |
| MerkleBlock.PartialMerkleTree.TraverseAndBuild | src/merkleblock.cpp:60-76 | appends exactly the bits and hashes of one subtree |
| MerkleBlock.PartialMerkleTree.TraverseAndExtract | src/merkleblock.cpp:78-114 | cursors, matches, hash and bad flag are those of the value model, on any input |
| MerkleBlock.PartialMerkleTree.Matches | src/merkleblock.cpp:132-163 | accepts exactly what the value model accepts, which AcceptedIff describes, and appends to the index list it is given |
| MerkleBlock.Pack | src/merkleblock.h:99-104 | byte p/8 bit p%8 is flag bit p, padding is zero |
| MerkleBlock.Unpack | src/merkleblock.h:92-98 | eight flags per byte, least significant first |
| MerkleBlock.SendAndExtract | src/merkleblock.cpp:116-163 | build, pack, unpack and extract return the root and the matches, or a collision |
| Miner.AncestorsCountLess | src/miner.h:162-172 | an ancestor always has the smaller ancestor count |
| Miner.SortedIsPackage | src/miner.cpp:626-635 | sorting by ancestor count puts every ancestor in the block or earlier in the list, and the candidate last |
| Miner.BlockAssembler.OnlyUnconfirmed | src/miner.cpp:392-403 | keeps exactly what is not in the block |
| Miner.BlockAssembler.SortForBlock | src/miner.cpp:626-635 | a list of exactly the package with non-decreasing ancestor counts |
| Miner.BlockAssembler.AddToBlock | src/miner.cpp:565-582 | appends one transaction whose ancestors are in, keeping every transaction once and after its ancestors |
| Miner.BlockAssembler.AttemptToAddContractToBlock | src/miner.cpp:430-562 | a contract goes in exactly when it executes and four times the sigops and the weight stay within the consensus limits, and adds exactly its costs; otherwise block and counters are untouched |
| Miner.BlockAssembler.UpdatePackagesForAdded | src/miner.cpp:584-609 | exactly the descendants of added transactions enter the modified set, each credited with the sum of its added ancestors |
| Miner.UpdatedOk | src/miner.cpp:584-609 | after crediting, no modified entry is in the block and none understates what it still adds |
| Miner.ReenteredExactIff | src/miner.cpp:592-606 | a figure is exact after crediting if and only if it was exact before, or it starts from the pool with no earlier ancestor in the block |
| Miner.UncreditedExactIff | src/miner.cpp:796-799 | exact figures that are not credited stay exact if and only if none of the newly added transactions counts in them |
| Miner.AcceptedIff | src/miner.cpp:405-413 | a final plain package goes in if and only if by its figures weight and sigops stay below the limits; exact figures make that the same as fitting, covering figures only imply it |
| MinerRuns.FeeBeforeIs | src/txmempool.h:274-316 | the comparison by fees orders by the lower of own and package fee rate, then by hash |
| MinerRuns.ModifiedIsOrder | src/miner.h:106-154 | CompareModifiedEntry is a strict order, total where hashes differ |
| MinerRuns.PoolIsOrder | src/txmempool.h:318-368 | so is the order of the pool by ancestor fee or gas price |
| MinerRuns.DroppedThoughItFits | src/miner.cpp:647-806 | a whole run, every pick by the order and above the minimum fee, after which a package that fits has been judged too large and dropped, having re-entered without its credit |
| MinerRuns.UncreditedThoughItFits | src/miner.cpp:647-806 | a whole run, every pick by the order, in which the best package stops at a failing contract, nothing is credited, and another package that fits is never taken |
| Miner.BlockAssembler.AddPackage | src/miner.cpp:768-794 | adds the package up to the first time-out or failed contract, removes every member from the modified set, and never uses a dead iterator |
| Miner.BlockAssembler.Consider | src/miner.cpp:711-804 | one candidate: dropped by its figures or finality, or added as far as it goes and credited only when whole; plain pools stay within the limits |
| Miner.HaltBound | src/miner.cpp:405-413 | plain transactions load a block by no more than the package figures |
| MinerRuns.AddPackageTxs | src/miner.cpp:647-806 | for every pool, contract outcome and clock the loop ends; its rounds are exactly those of the order, the fee cut-off and Outcome; it stops early only for time, fee or after 1000 failures on a block close to full; else nothing is overlooked; each transaction is added once and after its ancestors, and without contracts weight and sigops stay below the limits |
| MinerRuns.NothingOverlooked | src/miner.cpp:647-806 | at the end of a run every transaction of the pool is in the block, or was in some round a candidate too large by its figures or not final, or in a package from where that stopped at a contract or a time-out |
| MinerRuns.NotTwice | src/miner.cpp:611-624 | an entry is taken from the pool order at most once, and never after failing as a modified entry, unless for want of time |
| MinerRuns.FirstOf | src/miner.cpp:683-685 | the first entry of the ordered index: it precedes every other modified entry |
| MinerRuns.MinFeeIff | src/policy/feerate.cpp:23-37 | the cut-off is the rate per thousand bytes rounded down, and at least one for a positive rate |
| Cuckoo.LocBelow | src/cuckoocache.h:243-253 | the scaled hash is always a slot of the table |
| Cuckoo.LocIs | src/cuckoocache.h:243-253 | the location is the integer part of the hash's share of the size |
| Cuckoo.LiveOnce | src/cuckoocache.h:392-477 | a live element lies in one of its own eight slots, in one live slot only |
| Cuckoo.FirstVictim | src/cuckoocache.h:416-430 | the first eviction is at the second location |
| Cuckoo.CarryPlace | src/cuckoocache.h:407-415 | the first free location takes the element in hand and nothing is lost |
| Cuckoo.CarrySwap | src/cuckoocache.h:416-438 | a displacement conserves the live elements and the epoch counts, counting the element in hand |
| Cuckoo.BitFlags.constructor | src/cuckoocache.h:61-68 | all flags set; the 32-bit number of bytes wraps for the seven largest sizes and nothing is allocated |
| Cuckoo.BitFlags.BitSet | src/cuckoocache.h:92-95 | sets one flag of the packed bytes and no other |
| Cuckoo.BitFlags.BitUnset | src/cuckoocache.h:103-106 | clears one flag and no other |
| Cuckoo.BitFlags.BitIsSet | src/cuckoocache.h:113-116 | reads the flag that was set |
| Cuckoo.Cache.constructor | src/cuckoocache.h:340-353 | usable exactly up to size 0xFFFFFFF8, and then nothing live and a full epoch to go; the 45 percent product wraps at 32 bits |
| Cuckoo.Cache.EpochCheck | src/cuckoocache.h:289-321 | ages the epochs exactly when the current one is full, sets the counter of insertions to the next count, and leaves room for one more entry under the bound |
| Cuckoo.CheckedLive | src/cuckoocache.h:289-321 | entries become discardable only when the counter has run out and the current epoch is full, and then exactly those of the old epoch |
| Cuckoo.Cache.Insert | src/cuckoocache.h:392-440 | the live set becomes the old one plus the element minus at most one; current-epoch entries plus the counter, and old-epoch entries, stay within epoch_size + max(1, epoch_size/16); at most one discardable entry is overwritten |
| Cuckoo.InsertedReuses | src/cuckoocache.h:392-456 | an insertion overwrites at most one discardable entry; every other one still shows at the same location |
| Cuckoo.KickLosesNothingIff | src/cuckoocache.h:407-440 | displacing loses nothing if and only if one of the first depth_limit elements in hand has a location that was discardable from the start; otherwise it loses the next |
| Cuckoo.InsertLosesNothingIff | src/cuckoocache.h:392-440 | an insertion loses nothing if and only if the element still shows at a location, or there is such room |
| Cuckoo.Cache.Contains | src/cuckoocache.h:467-477 | never misses a live element; erasing takes exactly that element out of the live set |
| Cuckoo.Cache.LookUpErased | src/cuckoocache.h:442-477 | erasing, inserting others and looking up again finds the element while its slot still shows it; how rarely a slot is overwritten is what InsertedReuses states |
| RollingBloom.SetBitAt | src/bloom.cpp:282-283 | writing a bit of a word changes that bit alone |
| RollingBloom.KeepMaskAt | src/bloom.cpp:264-271 | the wipe mask clears a bit exactly where the two-bit cell holds the given generation |
| RollingBloom.WipeRemembers | src/bloom.cpp:258-273 | a wipe spares the cells of the two generations before the new one |
| RollingBloom.WriteRemembers | src/bloom.cpp:274-285 | an insertion keeps what the cells say of all remembered keys |
| RollingBloom.PositionIs | src/bloom.cpp:252-254 | the position is the integer part of the hash's share of the size |
| RollingBloom.WipeExplained | src/bloom.cpp:258-273 | after a wipe every set cell is one of a key of the two generations before |
| RollingBloom.WriteExplained | src/bloom.cpp:274-285 | after an insertion every set cell is one of a key of its generation |
| RollingBloom.MarkedIff | src/bloom.cpp:293-305 | all cells of a key are set if and only if remembered keys cover them |
| RollingBloom.WindowIsLast | src/bloom.cpp:222-223 | the remembered generations are the latest 2 * nEntriesPerGeneration + nEntriesThisGeneration insertions |
| RollingBloom.RollingBloomFilter.constructor | src/bloom.cpp:216-241 | empty, and two generations cover nElements |
| RollingBloom.RollingBloomFilter.Wipe | src/bloom.cpp:264-272 | clears exactly the cells of one generation |
| RollingBloom.RollingBloomFilter.Insert | src/bloom.cpp:256-285 | sets exactly the key's cells, after a wipe when a generation starts |
| RollingBloom.RollingBloomFilter.Contains | src/bloom.cpp:293-305 | true if and only if each cell of the key is also one of the latest 2 * nEntriesPerGeneration + nEntriesThisGeneration insertions, hence for every one of those |
| RollingBloom.RollingBloomFilter.Reset | src/bloom.cpp:313-321 | all cells empty, nothing remembered |
| SkipHeights.InvertLowestOneIs | src/chain.cpp:69-70 | clearing the lowest one bit lowers the number and keeps everything above that bit |
| SkipHeights.GetSkipHeight | src/chain.cpp:72-81 | the skip height is strictly lower |
| SkipHeights.Phase | src/chain.cpp:83-108 | once a skip overshoots, a distance below 2^l is walked in at most l(l+5)/2 steps |
| SkipHeights.WalkIsShort | src/chain.cpp:72-108 | a walk between any two heights below 2^l takes at most l(l+11)/2 + 1 steps |
| ChainIndex.BlockIndex.GetAncestor | src/chain.cpp:83-108 | the walk ends at the entry of the line at that height; with all skip links set it takes the steps of the walk on heights, so quadratic in the digits of the height |
| ChainIndex.BlockIndex.BuildSkip | src/chain.cpp:115-119 | gives the new entry the skip link that keeps all links on its line right, and a line with all links set stays so |
| ChainIndex.Chain.SetTip | src/chain.cpp:11-21 | rewriting only down to the join gives exactly the tip's line |
| ChainIndex.Chain.FindFork | src/chain.cpp:51-60 | the highest block common to the chain and the line, with everything below shared, or none |
| ChainIndex.LastCommonAncestor | src/chain.cpp:155-170 | the highest common block of two lines, or none; the final assert holds |
| ChainIndex.Chain.GetLocator | src/chain.cpp:23-49 | the blocks at the given heights of the line, whichever way each step is taken: twelve in a row, then doubling gaps, the first block last, at most 12 + log2(height) of them |
| ChainIndex.LocatorIs | src/chain.cpp:30-46 | entry k lies k below the start up to 11 and 9 + 2^(k-10) below it after that, until height zero |
| ChainIndex.LocatorLength | src/chain.cpp:30-46 | heights fall strictly, the last is zero, and the length is logarithmic |
| Bech32.MixIsProduct | src/bech32.cpp:87-91 | the five constants are the multiples of k(x) over the field of 32 elements |
| Bech32.StepIsRemainder | src/bech32.cpp:62-91 | one step is c(x) * x + v modulo the generator, coefficient by coefficient |
| Bech32.StepInjective | src/bech32.cpp:79-91 | a step loses no information |
| Bech32.RunLinear | src/bech32.cpp:60-94 | the remainder of a difference is the difference of the remainders |
| Bech32.BurstDetected | src/bech32.cpp:37-94 | any change within six consecutive symbols changes the remainder, at any length |
| Bech32.ChecksumIff | src/bech32.cpp:117-139 | exactly one choice of six symbols passes, the created one |
| Bech32.ChangeNoticed | src/bech32.cpp:117-125 | a valid list changed within six neighbouring symbols is never valid |
| Bech32.PolyMod | src/bech32.cpp:37-94 | the loop computes the remainder |
| Bech32.ExpandHRP | src/bech32.cpp:102-115 | high bits, a zero, low bits |
| Bech32.CreateChecksum | src/bech32.cpp:128-139 | computes the unique passing symbols |
| Bech32.Encode | src/bech32.cpp:147-156 | the text of the human-readable part, the values and their checksum |
| Bech32.ExpandedBack | src/bech32.cpp:103-114 | the two halves of the expanded prefix give every character back |
| Bech32.KnownString | src/test/bech32_tests.cpp:29 | the shortest valid string of BIP 173 is the encoding of the prefix a with no data |
| Bech32.Decode | src/bech32.cpp:159-190 | accepts exactly the printable one-case strings of at most 90 characters whose lower-case form is an encoding, and returns what was encoded |
| Bech32.EncodeDecode | src/bech32.cpp:147-190 | decoding an encoding gives it back if and only if the human-readable part is non-empty, printable and without capitals and the text has at most 90 characters |
| Bech32.DecodeEncode | src/bech32.cpp:147-190 | encoding what was decoded gives the string in lower case |
| Base58.EncodeBufferSuffices | src/base58.cpp:92-93 | 256^n is at most 58^(138n/100 + 1) for every n |
| Base58.DecodeBufferSuffices | src/base58.cpp:46-47 | 58^n is at most 256^(733n/1000 + 1) for every n |
| Base58.MulAdd | src/base58.cpp:96-109 | multiply and add in place with the early stop is exact, and the carry is zero at the end |
| Base58.ConvertBack | src/base58.cpp:34-121 | converting between bases and back is the identity, leading zeros included |
| Base58.EncodeBase58 | src/base58.cpp:83-121 | the digits of the bytes as a number, with a '1' for every leading zero |
| Base58.DecodeBase58 | src/base58.cpp:34-81 | accepts exactly encodings between spaces and returns the bytes |
| Base58.RoundTrip | src/base58.cpp:34-121 | decoding an encoding returns every byte string |
| Base58.EncodeBase58Check | src/base58.cpp:133-140 | the encoding of the bytes with four hash bytes |
| Base58.DecodeBase58Check | src/base58.cpp:142-157 | accepts exactly encodings with the right hash bytes |
| Arith256.UInt256.ShiftLeft | src/arith_uint256.cpp:24-38 | multiplication by a power of two modulo 2^256, for any shift |
| Arith256.UInt256.ShiftRight | src/arith_uint256.cpp:41-55 | division by a power of two, for any shift |
| Arith256.UInt256.AddAssign | src/arith_uint256.h:133-143 | addition modulo 2^256 |
| Arith256.UInt256.Complement | src/arith_uint256.h:67-73 | 2^256 - 1 - x |
| Arith256.UInt256.Increment | src/arith_uint256.h:171-178 | x + 1 modulo 2^256 through the carry run |
| Arith256.UInt256.Negate | src/arith_uint256.h:75-82 | 2^256 - x |
| Arith256.UInt256.SubAssign | src/arith_uint256.h:145-149 | x - b modulo 2^256, hence x - b when b is not larger |
| Arith256.UInt256.MulSmall | src/arith_uint256.cpp:57-67 | x times a 32-bit number modulo 2^256, without overflow of the 64-bit accumulator |
| Arith256.UInt256.AddRow | src/arith_uint256.cpp:73-79 | one row of the product, up to a multiple of 2^256 |
| Arith256.UInt256.MulAssign | src/arith_uint256.cpp:69-83 | x times b modulo 2^256 |
| Arith256.UInt256.CompareTo | src/arith_uint256.cpp:112-121 | the order of the values |
| Arith256.UInt256.Bits | src/arith_uint256.cpp:194-206 | the least n with x < 2^n |
| Arith256.UInt256.DivideAssign | src/arith_uint256.cpp:86-109 | the floor of the quotient; a zero divisor is an error |
| Arith256.OverflowIff | src/arith_uint256.cpp:243-245 | the three tests of the overflow flag are the comparison of mantissa * 256^(size-3) with 2^256 |
| Arith256.UInt256.SetCompact | src/arith_uint256.cpp:229-247 | the value modulo 2^256; overflow exactly when it is at least 2^256; negative exactly when it is not zero and the sign bit is set |
| Arith256.UInt256.GetCompact | src/arith_uint256.cpp:249-270 | decoding the result drops whole low bytes only and keeps at least 15 bits; both asserts hold |
| Arith256.GetBlockProof | src/chain.cpp:121-134 | floor(2^256 / (target + 1)) through limb operations, and 0 for a zero, negative or overflowing target |
| CompactBlock.SlotUnique | src/blockencodings.cpp:82-85 | no two short ids share a slot |
| CompactBlock.StepKeeps | src/blockencodings.cpp:108-131 | one pool entry keeps prefilled transactions, the source of every match and the exact counter |
| CompactBlock.FoldSettles | src/blockencodings.cpp:134-156 | whether a slot holds a transaction after the extra entries depends only on the entries with its short id and whether they agree |
| CompactBlock.PoolSettles | src/blockencodings.cpp:108-131 | pool entries leave a transaction in a free slot if and only if exactly one has its short id, and then that one's |
| CompactBlock.ExtraSettles | src/blockencodings.cpp:134-156 | extra entries empty a slot or leave the pool's transaction, or where the pool had none that of the first with its short id |
| CompactBlock.ScanStops | src/blockencodings.cpp:129-161 | a scan goes through the whole list, or up to the first entry that fills every slot |
| CompactBlock.ExtraNegativeIff | src/blockencodings.cpp:134-163 | the counter of extra transactions ends below zero if and only if no beginning of the list completes the block and the list takes more matches away than it brings; not when none is contradicted |
| CompactBlock.ExtraCountDropsBelowZero | src/blockencodings.cpp:134-163 | a concrete scan after which the counter of extra transactions is -1 |
| CompactBlock.PartiallyDownloadedBlock.PlacePrefilled | src/blockencodings.cpp:56-74 | accepts exactly the messages whose prefilled positions the short ids can fill, and stays inside the block |
| CompactBlock.PartiallyDownloadedBlock.AssignSlots | src/blockencodings.cpp:80-102 | the search for free slots never runs off the end and gives the i-th short id the i-th free slot; succeeds if and only if no bucket is over-full and no two short ids are equal |
| CompactBlock.PartiallyDownloadedBlock.ScanEntries | src/blockencodings.cpp:104-163 | slots, marks and both counters after a scan that stops once every slot is filled |
| CompactBlock.PartiallyDownloadedBlock.InitData | src/blockencodings.cpp:48-168 | invalid exactly for malformed messages, failed exactly for collisions or over-full buckets; on success everything available is prefilled or has its slot's short id, the counter of filled slots is exact and the sign of the other one is known |
| CompactBlock.PartiallyDownloadedBlock.FillBlock | src/blockencodings.cpp:176-208 | fills the gaps in order when the count fits; what is left behind otherwise |
| CompactBlock.AvailableIsOwn | src/blockencodings.cpp:48-168 | if matching entries are the block's own, everything available is in its place |
| CompactBlock.Reconstruct | src/blockencodings.cpp:18-208 | compact form, matching and the missing transactions in order rebuild the exact list if and only if no short ids collide and no bucket is over-full |
| CompactBlock.WriteIndexes | src/blockencodings.h:62-67 | the gaps modulo 2^64; they are gaps a reader restores if and only if the indexes increase |
| CompactBlock.ReadIndexes | src/blockencodings.h:42-61 | accepts exactly the gaps of increasing 16-bit indexes and restores them |

## Left out

- Memory accounting of scripts: a coin's usage counts its script length, not the allocator's capacity (src/coins.h, src/memusage.h).
- The partial batches, head-block markers and crash simulation of the coin database (src/txdb.cpp:88-147); its assertion that the block hash is not null is a precondition of the database write.
- AccessCoin, HaveCoin, HaveCoinInCache, GetValueIn and HaveInputs, which only read through the operations modelled here.
- Select_ and GetChance of the address manager: probabilities in floating point.
- AddrManRuns.RunSafe: a run is followed up to the first select that looks up id -1; what later operations do with the entry it leaves is not modelled.
- AddrManRuns.StepInv: Attempt_, Connected_ and SetServices_ are steps of the value model only, without a method of the class.
- AddrMan.AddrMan.GetAddr: the sample is any sequence of exchanges, without a claim that it is uniform.
- The log messages of the address manager, and the calls of Check_ before and after each operation in a debug build.
- AddrMan.AddrMan.Check: which of several failures is reported first is as in the source, but only zero against non-zero is in the contract.
- Interruption points and the destructor of CCheckQueueControl; one controller at a time is assumed, as its mutex enforces.
- MinerRuns.AddPackageTxs: no weight or sigop bound when contracts are present, because packages mix them with plain transactions that are tested only by their figures; the pool's order, positive sizes and distinct hashes, which the pool guarantees, are preconditions.
- The refund transaction of block assembly. The order of candidates is modelled with exact products where the source uses floating point.
- Cuckoo.Cache.Insert: elements are numbers and one thread writes; the relaxed atomics of concurrent erases are not modelled.
- CBloomFilter, and the floating-point sizing of both Bloom filters: hash count and size are parameters, and the filter has at least one word pair.
- ChainIndex.BlockIndex.constructor: predecessor and height are fixed when an entry is made; the source sets them in separate steps before BuildSkip.
- FindEarliestAtLeast and GetBlockProofEquivalentTime.
- Bech32.ChangeNoticed: detection of up to four scattered errors within 89 characters, a property of the code found by search, is not claimed.
- Base58.DecodeBase58: strings contain no NUL character, where the C string would end.
- Hexadecimal conversion and bitwise operators of 256-bit numbers, which compact targets and block proof do not use.
- CompactBlock.PartiallyDownloadedBlock.InitData: requires a message that passed the 16-bit checks of deserialization (src/blockencodings.h:115-116, 189-190); header hashing and short id keys are opaque.
- CheckBlock after FillBlock: its verdict is a parameter.
- Start-up, networking, RPC, wallet, script, EVM execution and consensus parameters.
