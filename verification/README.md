# Persistent memory library: protocols, allocators and logs

A Dafny model of the parts of the repository on which the rest depends: the block translation table that makes
block writes atomic across power failure, the jemalloc structures behind the volatile allocators, the persistent
allocator with its recovery, its container and the append log, and the memory and number primitives under them.
Every file is one component; `dafny verify dfyconfig.toml` checks them all.

- **Block translation table.** `BttMedia` is the on-media state (map, flog pairs, data blocks), which copy of a
  flog pair is current, the partition of blocks among map entries and flog pairs, and recovery. `BttWrites` says
  what each single durable write does to what a reopening would show. `BttProtocol` is the concurrent protocol:
  lanes that read, write and set flags step by step, tearing of data blocks, power failure, reopening.
  `BttSafety` is its invariant, `BttAtomicity` the theorems over whole runs, `BttReads` what reads return in terms
  of the writes, `BttProgress` which lanes can go on. `BttArena` is the same code run by one lane at a time as
  methods on arrays, with the consistency check. `BttLayout` is the layout arithmetic, writing and reading a
  layout, and the LBA arithmetic; `BttInfo` the info blocks as words, and `Fletcher` their checksum.
- **jemalloc.** `ArenaMap`, `ArenaTally` and `ArenaRuns` are the page map of a chunk with its runs, counts and
  index of idle runs. `ChunkExtents` is the pool of free address ranges in two indexes. `Ckh` is the cuckoo hash
  table, `Tcache` the flushing of a thread cache bin, `Quarantine` the delayed freeing of pointers.
- **Persistent objects and log.** `HeapZone` is the chunk header walks and the chunk split, `HeapRecovery` the
  protocol of allocation, freeing and reopening in single persists, `HeapSafety` its invariant, `HeapRuns` the
  theorems over runs and `HeapContainer` where the free chunks are. `Bst` is the container with its linked nodes.
  `PmemLog` is the append log with what a power failure may leave at every moment.
- **Primitives.** `PmemMove` is the overlapping wide-store move, `NumText` printing and parsing of numbers; `Common`
  is what several files share.

Protocols are state machines whose steps are single durable writes; code that runs under a lock or alone is
methods that change arrays and fields and are proved against functions of the old state. Where the code does less
than its comments say, the model follows the code and a lemma says exactly when the promise holds:
`BttLayout.FlogsFoundIffAligned`, `BttLayout.BlocksApartIffOffsetsFit`, `BttLayout.MapsZeroedIffOneArena`,
`HeapZone.RequestSplitsWell`, `HeapRuns.StepSafeIff`, `HeapRuns.FreeSettlesIff`, `PmemLog.WalkIsContentsIff`,
`PmemLog.SpaceTestRightIff`, `NumText.ParseIsValueIff`, `NumText.ParseReports`, `HeapRuns.NoUnitsFirst`,
`BttProgress.AllStoppedIff`. Beside each stands an input or a reachable state for which it fails.

The protocol of the block translation table keeps data blocks as separate objects: its theorems are about arenas
that meet the condition of `BttLayout.BlocksApartIffOffsetsFit`. A heap step is called clean in `HeapSafety.Clean`:
it does not take a fitting chunk whose free is in progress, is not a free the container refuses, and does not
split after no units.

Inputs from outside the modelled code are parameters or left arbitrary: whether memory or a node could be
allocated (`memory`, by size, `nomem`, `nodes`), whether purging zeroed a range, the offsets the cuckoo table draws
at random, the answer of a walk callback (any function of what it has been handed), the bytes a torn block holds.

## Model

| member | source | states |
|---|---|---|
| `BttMedia.WordsAreEntries` | src/libpmemblk/btt.c:344-378 | a 32-bit map word and a decoded map entry (flags, block number) determine each other; the top bit is set in zeroed and normal entries, the next one in error and normal entries |
| `BttMedia.SelectPicksLater` | src/libpmemblk/btt.c:437-466 | equal sequence numbers are rejected; otherwise the current copy is the one whose number follows the other's in the cycle, and writing the next number into the other copy makes that one current |
| `BttMedia.SelectByNumbers` | src/libpmemblk/btt.c:437-466 | in numerals: the second copy is current exactly for the numbers 1 2, 2 3 and 3 1 or when only it is in use, the first exactly for 2 1, 3 2 and 1 3 or when only it is in use; over a current 1, 2 or 3 the next number is 2, 3 or 1 |
| `BttMedia.EveryBlockIsOwned` | src/libpmemblk/btt.c:1587-1622 | map entries plus one block per flog pair leave no internal block without an owner |
| `BttMedia.RecoverOneConsistent` | src/libpmemblk/btt.c:496-530 | rolling one committed flog entry forward keeps the block partition and settles just that pair |
| `BttMedia.RecoverSettles` | src/libpmemblk/btt.c:682-714 | after reading all flogs the partition holds and no flog entry is pending |
| `BttMedia.RecoverFromEntry` | src/libpmemblk/btt.c:496-530 | recovery changes a map entry exactly when a committed entry is pending for it, and to that entry; a stale committed entry changes nothing |
| `BttMedia.RecoverAbsorbsOne` | src/libpmemblk/btt.c:496-530 | repairing one pair ahead of time does not change where recovery ends |
| `BttMedia.InterruptedRecovery` | src/libpmemblk/btt.c:682-714 | recovery cut short after any pairs and started over ends in the same media |
| `BttMedia.RecoverIdempotent` | src/libpmemblk/btt.c:682-714 | recovering twice equals recovering once |
| `BttMedia.DurableAt` | src/libpmemblk/btt.c:496-530 | after a crash an LBA shows its pending new block if a committed entry is pending for it, else what it shows now |
| `BttWrites.DataIsInvisible` | src/libpmemblk/btt.c:1587-1606 | writing a lane's free block changes no LBA, neither now nor after a crash |
| `BttWrites.Half1KeepsConsistent` | src/libpmemblk/btt.c:556-570 | the first flog half leaves which copy is current, what is pending and who owns which block as they were |
| `BttWrites.Half1IsInvisible` | src/libpmemblk/btt.c:556-570 | the first flog half changes nothing a reopening would show |
| `BttWrites.Half2Commits` | src/libpmemblk/btt.c:549-595 | the second flog half makes exactly the new entry current and pending; no other pair changes |
| `BttWrites.Half2IsCommit` | src/libpmemblk/btt.c:549-595 | the second flog half is the commit point: from it on a reopening shows the whole new block at that LBA, and every other LBA is as before |
| `BttWrites.FlagKeepsConsistent` | src/libpmemblk/btt.c:1641-1717 | setting a zero or error flag keeps the entry's block and so the partition |
| `BttWrites.FlagIsCommit` | src/libpmemblk/btt.c:1641-1717 | setting a flag changes how exactly one LBA reads, now and after a crash |
| `BttWrites.WriteToFlogCommits` | src/libpmemblk/btt.c:1537-1616 | up to its flog update an undisturbed write has committed its block and left one map write pending |
| `BttWrites.WriteWholeReplaces` | src/libpmemblk/btt.c:1537-1634 | an undisturbed write replaces one LBA's contents, keeps all others and leaves nothing pending |
| `BttWrites.ContentsAreDurable` | src/libpmemblk/btt.c:682-714 | with nothing pending, what is visible is what a crash would leave |
| `BttSafety.FreshLayoutInv` | src/libpmemblk/btt.c:985-1025 | a freshly laid out arena satisfies the invariant of the protocol and reads as zeros |
| `BttSafety.PutMapIsRecovery` | src/libpmemblk/btt.c:1622-1623 | the writer's map update is the very write recovery would make |
| `BttSafety.LockedLbaNotPending` | src/libpmemblk/btt.c:1435-1480 | a lane that holds the map lock of an LBA knows that no other lane's update of it is pending |
| `BttProtocol.LocksByLine` | src/libpmemblk/btt.c:1452-1453 | LBAs whose map entries share a 64-byte line share a map lock, and the lines take the locks in turn |
| `BttSafety.ScanKeepsInv` | src/libpmemblk/btt.c:1587-1596 | although a writer looks at the read tracking table one slot at a time, a slot it has passed never names its free block |
| `BttSafety.RecheckKeepsInv` | src/libpmemblk/btt.c:1391-1415 | a reader that passes the second look at the map has published a block that no writer has free to overwrite |
| `BttSafety.ReopenKeepsInv` | src/libpmemblk/btt.c:385-533 | every step of reopening keeps the invariant |
| `BttSafety.StepKeepsInv` | src/libpmemblk/btt.c:1372-1717 | every step of every lane in any interleaving, a power failure between any two, and every recovery step keep the invariant: partition, distinct sequence numbers, locks, tracked readers |
| `BttAtomicity.StepIsAtomic` | src/libpmemblk/btt.c:1537-1634 | one step changes what a crash would leave by exactly the update it commits, and most steps commit nothing |
| `BttAtomicity.RunIsAtomic` | src/libpmemblk/btt.c:1537-1717 | over every interleaving and every placement of power failures, a reopening shows the initial contents with the committed updates applied whole and in commit order |
| `BttAtomicity.OpenedShowsDurable` | src/libpmemblk/btt.c:682-714 | a reopened arena reads exactly as its durable contents |
| `BttAtomicity.ReopeningNeverStuck` | src/libpmemblk/btt.c:385-480 | in every reachable state each flog pair has a current copy and LBAs in range, so reopening never rejects one |
| `BttAtomicity.UpdateCommitsOnce` | src/libpmemblk/btt.c:1537-1634 | an update in flight has committed nothing before its commit point and exactly itself after it |
| `BttAtomicity.CompletedOperationCommitted` | src/libpmemblk/btt.c:1537-1634 | an operation that returned has committed its update whole and exactly once |
| `BttAtomicity.SeenWasVisible` | src/libpmemblk/btt.c:1372-1427 | the map entry a reader uses was in the map at a moment of that read, and the block it names kept its bytes since |
| `BttAtomicity.ReadsAreLinearizable` | src/libpmemblk/btt.c:1334-1427 | a read returns the whole contents its LBA had at one moment of the read, never a torn or recycled block |
| `BttReads.VisibleIsReplay` | src/libpmemblk/btt.c:1334-1427 | in every reachable running state an LBA with no committed update waiting to be put in the map reads as all updates committed so far, replayed |
| `BttReads.PendingKeepsVisible` | src/libpmemblk/btt.c:1607-1623 | while an update of an LBA is committed and not yet in the map, no step of any lane changes how the LBA reads |
| `BttReads.VisibleAtPoint` | src/libpmemblk/btt.c:1334-1427 | in every reachable running state an LBA reads as the updates committed up to its point, which is now or just before the commit of its pending update |
| `BttReads.PointMonotone` | src/libpmemblk/btt.c:1334-1427 | that point never moves back |
| `BttReads.CompletesAtPoint` | src/libpmemblk/btt.c:1622-1634 | when an update completes, the point has reached it |
| `BttReads.ReadSeesCommits` | src/libpmemblk/btt.c:1334-1427 | a read returns its LBA after a prefix of the committed updates that holds every update completed before the read began; with PointMonotone, later reads never see less |
| `BttAtomicity.BlockBeingReadIsStable` | src/libpmemblk/btt.c:1372-1427 | while a lane reads a block no step of any lane changes a byte of it |
| `BttProgress.MovesUnlessWaits` | src/libpmemblk/btt.c:1334-1717 | power may fail at any time, reopening goes on, and a lane can make its next access exactly when it waits neither for a map lock nor for a slot of the read tracking table |
| `BttProgress.HolderMoves` | src/libpmemblk/btt.c:1435-1480 | whoever holds a map lock another lane waits for is another lane, and that one can go on, so map locks alone stop nobody |
| `BttProgress.SlotOwner` | src/libpmemblk/btt.c:1587-1596 | a slot a writer waits for belongs to a reader that can go on, or has been left set by a lane that is not reading |
| `BttProgress.LeftStep` | src/libpmemblk/btt.c:1372-1427 | a slot is left set exactly by a read that ends early, on a zeroed or failed entry, after it had published another |
| `BttProgress.WaitedForMoves` | src/libpmemblk/btt.c:1587-1596 | with no slot left set, whoever a waiting lane waits for is another lane, and that one can go on |
| `BttProgress.AllStoppedIff` | src/libpmemblk/btt.c:1537-1634 | all lanes are stopped exactly when every one waits for a slot |
| `BttProgress.StuckStays` | src/libpmemblk/btt.c:1587-1596 | writers that wait for slots of each other, or for their own, never go on, whatever the other lanes do |
| `BttProgress.StuckForEver` | src/libpmemblk/btt.c:1587-1596 | and so over every run without a power failure |
| `BttProgress.StuckNeedsLeft` | src/libpmemblk/btt.c:1587-1596 | that takes slots left set |
| `BttProgress.OwnSlotIsReached` | src/libpmemblk/btt.c:1372-1415 | on every arena of at least two lanes a lane's next write can come to wait for ever for its own slot: its read of an LBA it had written was overtaken by a zeroing, and it has written the LBA once more |
| `BttProgress.RunReached` | src/libpmemblk/btt.c:1334-1717 | the state invariants behind all this hold in every state of every run from a fresh layout |
| `BttArena.Arena.ReadFlogPair` | src/libpmemblk/btt.c:385-533 | loads one pair: the second copy for sequence numbers 1 2, 2 3 and 3 1, the first for 2 1, 3 2 and 1 3; on well-shaped media it does exactly the abstract recovery step, and it reports LBAs out of range and equal sequence numbers |
| `BttArena.Arena.ReadFlogs` | src/libpmemblk/btt.c:682-714 | fails exactly when some pair names an LBA out of range, and otherwise marks the arena in error exactly when some pair has equal sequence numbers; loading all pairs of consistent media is recovery and leaves an idle arena that shows the durable contents |
| `BttArena.Arena.FlogUpdate` | src/libpmemblk/btt.c:549-595 | writes the two halves over the stale copy, numbered 2 after 1, 3 after 2 and 1 after 3, and flips the run-time flog |
| `BttArena.Arena.Write` | src/libpmemblk/btt.c:1537-1634 | the imperative write: contents change at one LBA to the buffer, or not at all on an error |
| `BttArena.Arena.SetFlagOf` | src/libpmemblk/btt.c:1641-1717 | the imperative set-zero and set-error: one LBA reads as zeros or as an error, its entry keeps its block, and the map is not written where a zeroed entry is zeroed again |
| `BttArena.Arena.Read` | src/libpmemblk/btt.c:1334-1430 | returns the contents shown at the LBA |
| `BttArena.Arena.CheckArena` | src/libpmemblk/btt.c:1749-1852 | answers 1 exactly when map and flog name every block once, and -1 exactly when the map names one outside the arena, given flog blocks in range |
| `BttArena.Arena.IdlePassesCheck` | src/libpmemblk/btt.c:1749-1852 | the check accepts every open, idle arena |
| `BttArena.CheckedIsPartition` | src/libpmemblk/btt.c:1749-1852 | an accepted arena with nothing pending has its blocks partitioned |
| `BttLayout.BlockNumbersFit` | src/libpmemblk/btt.c:889-942 | block numbers of every accepted arena stay below 2^30, so the two flag bits are free |
| `BttLayout.RegionsInOrder` | src/libpmemblk/btt.c:925-983 | info, data, map, flog and backup info lie in order without overlap, and the data area has room for every block |
| `BttLayout.NoMoreBlocks` | src/libpmemblk/btt.c:925-942 | with one block more the arena would be too small: the number of blocks is the largest that fits beside the map, the flogs, both info blocks and a page to align with |
| `BttLayout.LoopStep` | src/libpmemblk/btt.c:884-923 | the loop over the remaining size takes one turn per arena counted beforehand and visits the arenas where the next info block says they are |
| `BttLayout.PairsAgree` | src/libpmemblk/btt.c:683-714 | writer and reader agree on the pair positions exactly when there is one pair or the flog starts at a multiple of 64 |
| `BttLayout.FlogsFoundIffAligned` | src/libpmemblk/btt.c:992-1025 | for an accepted geometry every written pair is found where the reader looks exactly when the flog offsets are 64-aligned |
| `BttLayout.UnalignedIsAccepted` | src/libpmemblk/btt.c:992-1025 | a size 32 bytes past the minimum is accepted, and its flog pairs are not found again |
| `BttLayout.FreshFlogsReadBack` | src/libpmemblk/btt.c:992-1025 | reading the laid out flog area back gives each arena its fresh pairs |
| `BttLayout.LaidOutArenaIsFresh` | src/libpmemblk/btt.c:870-1073 | an arena opened on a layout is in the protocol's initial state |
| `BttLayout.Table.WriteFlogs` | src/libpmemblk/btt.c:992-1025 | the loop writes exactly these pairs and nothing else |
| `BttLayout.Table.WriteLayout` | src/libpmemblk/btt.c:870-1073 | succeeds exactly on accepted geometries, reports the total LBA count, and writes exactly the layout |
| `BttLayout.Table.ReadLayout` | src/libpmemblk/btt.c:1094-1185 | whatever info blocks there are, it follows them by offset and ends loaded with the number of arenas, the sum of their LBAs and the least free block count, or rejects the first block that does not fit; where a block is missing it computes the counts a first write will lay out, exactly when every arena fits, and writes nothing |
| `BttLayout.LaidOutIsPresent` | src/libpmemblk/btt.c:1094-1185 | what the writer leaves is what the reader asks for |
| `BttLayout.PresentIsFollowed` | src/libpmemblk/btt.c:1094-1185 | on a written layout the reader passes every arena once and recovers the LBA count, arena count and free block count |
| `BttInfo.LaidOutFitsWords` | src/libpmemblk/btt.c:1027-1057 | every field of an info block that is laid out fits the width it has on media |
| `BttInfo.WrittenReadsBack` | src/libpmemblk/btt.c:297-338 | the words of a written info block read back as its fields, and as no block to a container with another UUID; its flags and its unused words are zero |
| `BttInfo.DamagedIsAbsent` | src/libpmemblk/btt.c:297-338 | damage to any one word of a readable info block, checksum included, makes it unreadable |
| `BttInfo.LayoutIsSeen` | src/libpmemblk/btt.c:1027-1057 | from the words a layout writes the reader sees exactly its info blocks |
| `BttInfo.DamageHidesBlock` | src/libpmemblk/btt.c:1116-1135 | a damaged word takes exactly its block out of what the reader sees, and so leads to the branch for a missing layout |
| `BttLayout.LbaToArenaLba` | src/libpmemblk/btt.c:1213-1234 | finds the arena and pre-map LBA whose sum with the arenas before it is the external LBA |
| `BttLayout.ArenaLbasAreUnique` | src/libpmemblk/btt.c:1213-1234 | external LBAs and (arena, pre-map LBA) pairs correspond one to one |
| `BttLayout.SameOffset` | src/libpmemblk/btt.c:1421-1422 | the unmasked product of the read path and the masked one of the write path give the same 32-bit offset |
| `BttLayout.BlocksApartIffOffsetsFit` | src/libpmemblk/btt.c:1599-1600 | the 32-bit offsets keep distinct blocks disjoint exactly when the last block's offset fits 32 bits |
| `BttLayout.FullArenaOverlaps` | src/libpmemblk/btt.c:1599-1600 | a full arena of 512-byte blocks is an accepted geometry whose offsets do not fit |
| `BttLayout.MapsZeroedIffOneArena` | src/libpmemblk/btt.c:985-990 | on a namespace that did not come zeroed, all maps are zeroed exactly when there is one arena |
| `BttLayout.TwoArenasAreAccepted` | src/libpmemblk/btt.c:985-990 | two full arenas of 4096-byte blocks are accepted, and the second map is not zeroed |
| `Fletcher.Checksum` | src/common/util.c:283-313 | with insert it stores the checksum, without it it compares and changes nothing |
| `Fletcher.InsertThenVerify` | src/common/util.c:283-313 | an inserted checksum verifies and no other word changed |
| `Fletcher.SumOfSumsIsWeighted` | src/common/util.c:283-313 | the high half weighs each word by its distance from the end |
| `Fletcher.FieldLeftOut` | src/common/util.c:283-313 | both halves are sums over the words outside the checksum field, plain and weighted, modulo 2^32 |
| `Fletcher.OneBadWordIsNoticed` | src/common/util.c:283-313 | damage to any one word outside the field is always noticed |
| `Fletcher.SwappedNeighboursAreNoticed` | src/common/util.c:283-313 | exchanging unequal neighbouring words is always noticed |
| `ArenaMap.FewerAdjac` | src/jemalloc/src/arena.c:245-277 | idle runs always outnumber the places where idle runs touch, as the in-code assertions demand |
| `ArenaMap.ConcatAdjac` | src/jemalloc/src/arena.c:188-225 | touching places of a list of runs split at any point add up, with one more if idle runs meet there |
| `ArenaMap.LaidFrame` | src/jemalloc/src/arena.c:424-475 | what the page map says about runs depends only on the entries of their own pages |
| `ArenaTally.IdleCounts` | src/jemalloc/src/arena.c:227-292 | what one idle run adds to run count, touching places, dirty pages and index |
| `ArenaTally.BusyDisjoint` | src/jemalloc/src/arena.c:383-422 | two runs in use never overlap |
| `ArenaRuns.Chunk.constructor` | src/jemalloc/src/arena.c:618-676 | a new chunk is one idle run marked at both ends |
| `ArenaRuns.Chunk.AvailInsert` | src/jemalloc/src/arena.c:227-258 | keeps counts and index in step when a run becomes idle; touching neighbours differ in dirtiness |
| `ArenaRuns.Chunk.AvailRemove` | src/jemalloc/src/arena.c:260-292 | the same when a run stops being idle |
| `ArenaRuns.Chunk.Neighbours` | src/jemalloc/src/arena.c:188-225 | the neighbouring entries tell exactly whether idle runs touch, and that they then differ in dirtiness |
| `ArenaRuns.Chunk.SplitRemove` | src/jemalloc/src/arena.c:383-422 | gives out the front of an idle run and keeps the rest idle, equally dirty and indexed |
| `ArenaRuns.Chunk.RunSplitLarge` | src/jemalloc/src/arena.c:424-482 | one large run more is in use, the rest of the tiling is the same, all counts match |
| `ArenaRuns.Chunk.RunSplitSmall` | src/jemalloc/src/arena.c:491-535 | the same for a small run, each page of which then tells how far it is from the run's start |
| `ArenaRuns.Chunk.CoalesceForward` | src/jemalloc/src/arena.c:1189-1215 | joins the run behind exactly when it is idle and equally dirty |
| `ArenaRuns.Chunk.CoalesceBackward` | src/jemalloc/src/arena.c:1217-1243 | joins the run before exactly when it is idle and equally dirty |
| `ArenaRuns.Chunk.RunDalloc` | src/jemalloc/src/arena.c:1250-1324 | takes exactly one run out of use, joined with equally dirty idle neighbours; the chunk becomes the spare exactly when one idle run is left |
| `ArenaRuns.FreedTotals` | src/jemalloc/src/arena.c:1182-1324 | joining loses no page, and dirty idle pages grow by the freed ones exactly when they are dirty |
| `ArenaRuns.Chunk.ChunkDalloc` | src/jemalloc/src/arena.c:729-755 | the spare's run leaves the index and counts |
| `ArenaRuns.Chunk.ChunkAlloc` | src/jemalloc/src/arena.c:678-696 | a spare or new chunk's run is indexed again |
| `ArenaRuns.Chunk.RunTrimHead` | src/jemalloc/src/arena.c:1326-1356 | the exact runs afterwards: the front is idle, as dirty as the run was, joined with an equally dirty idle run before it, and the rest stays in use; idle dirty pages grow by the front only if the run was dirty |
| `ArenaRuns.Chunk.RunTrimTail` | src/jemalloc/src/arena.c:1358-1389 | the exact runs afterwards: the back is idle, dirty if the run was or the caller says so, joined with an equally dirty idle run behind it, and the front stays in use |
| `ArenaRuns.Chunk.RunAllocLarge` | src/jemalloc/src/arena.c:757-809 | takes the front of the smallest, lowest idle run that fits, or of the spare, leaving the rest idle and as dirty; fails exactly when none fits and there is no spare |
| `ArenaRuns.Chunk.Palloc` | src/jemalloc/src/arena.c:1788-1841 | an aligned run is gained, disjoint from all others, cut from the best fitting idle run; the exact runs afterwards, with everything trimmed idle again and as dirty as the run it was cut from, so idle dirty pages drop by the size if that run was dirty and stay otherwise |
| `ArenaRuns.Chunk.StashDirty` | src/jemalloc/src/arena.c:920-976 | exactly the dirty idle runs are stashed, with `all` every one, otherwise those with an idle neighbour; afterwards no idle runs touch, and the runs in use are those before plus the stashed |
| `ArenaRuns.PassedStep` | src/jemalloc/src/arena.c:920-976 | the sweep decides each run by what touched it at the start: a neighbour stashed on the way was dirty, so the run behind it is not |
| `ArenaRuns.SweptStep` | src/jemalloc/src/arena.c:920-976 | the sweep leaves no touching idle runs behind it |
| `ArenaRuns.Chunk.UnstashPurged` | src/jemalloc/src/arena.c:1026-1044 | gives back exactly the stashed runs, and none of them dirty |
| `ArenaRuns.Chunk.PurgeChunk` | src/jemalloc/src/arena.c:1046-1091 | purging leaves the same runs in use, no dirty idle page if all were asked for or nothing was fragmented, and otherwise exactly the dirty idle pages that were not stashed |
| `Ckh.Table.Search` | src/jemalloc/src/ckh.c:509-526 | agrees with the map the table stands for |
| `Ckh.Table.TryBucketInsert` | src/jemalloc/src/ckh.c:91-115 | adds the item to its bucket, or the bucket is full and nothing changed; it says full exactly when all four cells are |
| `Ckh.Table.Evict` | src/jemalloc/src/ckh.c:135-166 | table plus item in hand hold the same items as before |
| `Ckh.Table.EvictRelocInsert` | src/jemalloc/src/ckh.c:123-191 | ends with the item placed, or with one item in hand and nothing lost; then the keys evicted in turn lead through full buckets, each to its other home, back to the first bucket, or used up all the turns |
| `Ckh.Table.TryInsert` | src/jemalloc/src/ckh.c:193-216 | the same for both buckets and then eviction; it fails only when both buckets of the key were full and such a chain of evictions exists |
| `Ckh.Table.Rebuild` | src/jemalloc/src/ckh.c:222-243 | moves every item, or backs out with the count restored and the old table untouched; it backs out only if some of the items can fill a table of the new size so that another one fails |
| `Ckh.Table.Grow` | src/jemalloc/src/ckh.c:245-298 | same map in a larger table, having passed only sizes that can fail, or the old table and size once a size is refused, all those tried before it being able to fail |
| `Ckh.Table.Shrink` | src/jemalloc/src/ckh.c:300-345 | same map in half the table, or the old one when the allocation was refused or half the table can fail |
| `Ckh.Table.Insert` | src/jemalloc/src/ckh.c:454-476 | on success adds exactly the new entry; on lack of memory exactly one entry is missing, both buckets of the key were full with no way to evict, and every larger size up to a refused one can fail |
| `Ckh.Table.Remove` | src/jemalloc/src/ckh.c:478-507 | returns and removes exactly the key's entry, and halves the table exactly when it is then less than a quarter full, above its least size, and half of it can be had and does |
| `Ckh.CountUpdate` | src/jemalloc/src/ckh.c:91-115 | changing one cell changes the number of full cells by exactly that cell's part |
| `Ckh.FillCell` | src/jemalloc/src/ckh.c:91-115 | filling an empty cell adds one entry to the map the table stands for |
| `Ckh.ClearCell` | src/jemalloc/src/ckh.c:478-507 | clearing a cell removes one entry |
| `Ckh.SwapCell` | src/jemalloc/src/ckh.c:135-166 | swapping an item into a full cell exchanges two entries |
| `PmemMove.MovedAt` | src/libpmem/pmem.c:623-824 | byte by byte what a move means: inside the destination the old source, outside it the old memory |
| `PmemMove.ForwardUnit` | src/libpmem/pmem.c:641-729 | copying one more unit upwards is right as long as the destination does not reach into the unread source |
| `PmemMove.BackwardUnit` | src/libpmem/pmem.c:730-822 | the same downwards when the destination lies above the source |
| `PmemMove.BytesToLine` | src/libpmem/pmem.c:649-668 | after the leading bytes the destination is on the first cache line boundary or nothing is left |
| `PmemMove.BytesPastLine` | src/libpmem/pmem.c:739-758 | the same downwards |
| `PmemMove.LineAligned` | src/libpmem/pmem.c:670-695 | whole chunks from a cache line boundary keep sixteen-byte alignment |
| `PmemMove.Memory.ChunkForward` | src/libpmem/pmem.c:673-695 | eight loads before eight stores move 128 bytes upwards |
| `PmemMove.Memory.ChunkBackward` | src/libpmem/pmem.c:763-784 | and downwards |
| `PmemMove.Memory.MoveForward` | src/libpmem/pmem.c:641-729 | the upward path leaves memory as a move through a buffer would, with all stream stores aligned |
| `PmemMove.Memory.MoveBackward` | src/libpmem/pmem.c:730-822 | the same for the downward path |
| `PmemMove.Memory.MemmoveMovnt` | src/libpmem/pmem.c:623-824 | for every source, destination and length the destination holds the original source bytes, nothing else changed, and every sixteen-byte stream store is aligned |
| `ChunkExtents.ChunkCeiling` | src/jemalloc/src/chunk.c:60-62 | rounding a chunk address up gains at most the alignment less one chunk |
| `ChunkExtents.AddedKept` | src/jemalloc/src/chunk.c:291-321 | joining a freed range to the extent behind it, or adding it, keeps extents disjoint and none falsely marked zeroed |
| `ChunkExtents.AddedFree` | src/jemalloc/src/chunk.c:291-321 | and adds exactly the range to the free addresses |
| `ChunkExtents.AddedMarks` | src/jemalloc/src/chunk.c:291-342 | joined with all it touches, the range is marked zeroed exactly if it and all of those are; every other mark stays |
| `ChunkExtents.JoinedKept` | src/jemalloc/src/chunk.c:323-342 | joining with the extent before leaves no two extents touching |
| `ChunkExtents.JoinedFree` | src/jemalloc/src/chunk.c:323-342 | and changes no free address |
| `ChunkExtents.PlaceKept` | src/jemalloc/src/chunk.c:293-302 | growing an extent downwards over the freed range keeps its place in the order of addresses, as the in-code comment says |
| `ChunkExtents.CarvedKept` | src/jemalloc/src/chunk.c:68-103 | what is left around a range taken out is still disjoint, untouching and truthfully marked |
| `ChunkExtents.CarvedFree` | src/jemalloc/src/chunk.c:68-103 | and exactly the range stopped being free |
| `ChunkExtents.CarvedMarks` | src/jemalloc/src/chunk.c:68-103 | and the pieces left are marked as the extent was |
| `ChunkExtents.Pool.SzadNsearch` | src/jemalloc/src/chunk.c:52-59 | finds the smallest, lowest extent of at least the size |
| `ChunkExtents.Pool.Record` | src/jemalloc/src/chunk.c:259-354 | both indexes agree; free addresses gain exactly the range if a node could be had or an extent lies right behind, else the range is leaked; what it is joined to is marked zeroed exactly if all of it was and the range is, other marks stay |
| `ChunkExtents.Pool.JoinBack` | src/jemalloc/src/chunk.c:323-342 | afterwards no two extents touch, nothing else became free, and the joined extent is marked zeroed exactly if both were |
| `ChunkExtents.Pool.Carve` | src/jemalloc/src/chunk.c:68-103 | cuts the range out of one extent, the pieces marked as it was; without a second node, when it needs one, only the leading space stays |
| `ChunkExtents.Pool.TakeFrom` | src/jemalloc/src/chunk.c:62-120 | tells zeroed memory exactly when it was asked for or the extent was marked zeroed; takes the range, or without the node it needs gives it back and loses what lay behind |
| `ChunkExtents.Pool.Recycle` | src/jemalloc/src/chunk.c:28-120 | takes the first aligned range of the best fitting extent and removes exactly it from the free addresses; reports zeroed memory exactly when it was asked for or the extent was marked zeroed; finds nothing exactly when no extent is large enough, and says what stays free when a node is missing |
| `HeapZone.CheckZone` | src/libpmemobj/backend_persistent.c:645-692 | accepts exactly a zone that was never used or whose headers follow one another to its end |
| `HeapZone.FillBucket` | src/libpmemobj/backend_persistent.c:919-946 | the walk that collects free chunks when the heap is opened: where it ends, what it writes at a header without the magic number, and exactly which chunks it collects; it does not end exactly when it lands on a chunk of size zero |
| `HeapZone.WriteChunkHeader` | src/libpmemobj/backend_persistent.c:860-878 | makes two states durable, the header without its magic number and then with it |
| `HeapZone.FillInterrupted` | src/libpmemobj/backend_persistent.c:919-946 | on any zone, filling cut short at a persist and started over ends the same, and filling what it has filled changes nothing |
| `HeapZone.NewZone` | src/libpmemobj/backend_persistent.c:919-946 | a zone never used becomes one free chunk |
| `HeapZone.SplitStatesTiled` | src/libpmemobj/backend_persistent.c:983-993 | after each persist of a split the zone still walks, with the rest added once it is complete |
| `HeapZone.SplitOkIffUnits` | src/libpmemobj/backend_persistent.c:968-999 | every state of a split passes the consistency check exactly when at least one unit was asked for |
| `HeapZone.RequestSplitsWell` | src/libpmemobj/bucket.c:166-170 | in bytes: a split keeps the zone consistent exactly for requests above one chunk's size |
| `HeapZone.CalcUnits` | src/libpmemobj/bucket.c:166-170 | the number of units is the size less one byte in whole chunks: that many chunks are less than the size, and one more is enough |
| `HeapZone.OneByteSpoilsZone` | src/libpmemobj/bucket.c:166-170 | a request for one byte, on a zone that is one free chunk, ends with a zone the check rejects |
| `HeapZone.SplitChunk` | src/libpmemobj/backend_persistent.c:968-999 | the imperative split makes exactly these three states durable, in order |
| `HeapZone.OffsetRoundTrip` | src/libpmemobj/backend_persistent.c:245-270 | a chunk's data offset, and every other offset into its data, leads back to the chunk |
| `HeapSafety.RecoverStepOk` | src/libpmemobj/backend_persistent.c:297-366 | one persist of slot recovery keeps the durable invariant and what will survive |
| `HeapSafety.FlagOk` | src/libpmemobj/backend_persistent.c:210-239 | a guarded pointer's chunk may be marked or unmarked without spoiling recovery |
| `HeapSafety.NullOk` | src/libpmemobj/pmalloc.c:234-234 | nulling a guarded pointer to an unused chunk gives up exactly that pointer |
| `HeapSafety.ClearOk` | src/libpmemobj/backend_persistent.c:1186-1193 | clearing a slot whose pointer is null or names a used chunk settles exactly that pointer |
| `HeapSafety.GuardOk` | src/libpmemobj/backend_persistent.c:1162-1181 | setting a guard changes nothing a recovery would leave |
| `HeapSafety.SetPtrOk` | src/libpmemobj/backend_persistent.c:849-858 | writing a guarded pointer changes nothing a recovery would leave |
| `HeapSafety.SplitKeepsInv` | src/libpmemobj/backend_persistent.c:983-993 | the persists of a split disturb no other arena; that they lose no chunk is `HeapContainer.SplitAccounts` |
| `HeapSafety.SetPtrKeepsInv` | src/libpmemobj/pmalloc.c:139-144 | the step that writes the pointer keeps the invariant |
| `HeapSafety.MarksKeepInv` | src/libpmemobj/pmalloc.c:158-241 | marking a chunk, and unmarking one that the container takes in, keep the invariant and commit nothing |
| `HeapSafety.NullPtrKeepsInv` | src/libpmemobj/pmalloc.c:228-234 | a free takes effect when its pointer is nulled |
| `HeapSafety.ClearSlotKeepsInv` | src/libpmemobj/pmalloc.c:190-194 | an allocation takes effect when its slot is cleared |
| `HeapRuns.StepKeepsInv` | src/libpmemobj/pmalloc.c:158-241 | every clean persist of every arena, power failure, and persist of reopening, from the first header of a heap never used on, keeps the invariant and commits at most one operation; the three kinds of step that are not clean are those StepSafeIff is about |
| `HeapRuns.RecoverySettles` | src/libpmemobj/backend_persistent.c:379-395 | recovery turns every durable state of a run into one where exactly the chunks pointed to are used, one pointer each, and where unfinished allocations are gone |
| `HeapRuns.InterruptedRecovery` | src/libpmemobj/backend_persistent.c:379-395 | recovery cut short after any number of persists and rerun ends the same, and so does reopening as a whole |
| `HeapRuns.InterruptedFilling` | src/libpmemobj/backend_persistent.c:919-946 | filling cut short and reopened ends the same |
| `HeapRuns.ReopeningRuns` | src/libpmemobj/backend_persistent.c:473-494 | the single steps of reopening get to what reopening as a whole is said to leave; where it leaves nothing they stop at a state from which only a power failure leads on |
| `HeapRuns.ReopenSettles` | src/libpmemobj/backend_persistent.c:473-494 | reopening any durable state of a run ends, settled, with exactly the pointers that survive |
| `HeapRuns.RunRecovers` | src/libpmemobj/pmalloc.c:158-241 | wherever a run of clean steps is cut, reopening ends settled with exactly what the run has committed |
| `HeapRuns.IdleIsSettled` | src/libpmemobj/pmalloc.c:158-241 | with no operation in progress after clean steps pointers and used chunks already correspond |
| `HeapRuns.ArenaGoesOn` | src/libpmemobj/pmalloc.c:127-156 | power may fail at any time and an arena inside an operation can always go on; a chunk taken out is put back exactly if it is too small and split exactly if it is larger than asked for |
| `HeapRuns.FreshInv` | src/libpmemobj/backend_persistent.c:919-946 | a heap never opened, or one whose chunks are all free, satisfies the invariant |
| `HeapRuns.StepSafeIff` | src/libpmemobj/pmalloc.c:158-241 | exactly which steps are safe: those after which no run of clean steps can be cut at a state that reopening does not settle; a pick of a chunk too small for the request is safe |
| `HeapRuns.UncleanPickBreaks` | src/libpmemobj/pmalloc.c:228-234 | the chunk goes into the container before its pointer is nulled: if another allocation takes it in between, whether it fits exactly or is split first, it can complete and leave two pointers to one chunk after recovery |
| `HeapRuns.FreeSettlesIff` | src/libpmemobj/pool.c:222-238 | a free leaves a state reopening settles exactly when the container had the memory to take the chunk in; otherwise the used flag is cleared and the pointer kept |
| `HeapRuns.RefusedFreeStays` | src/libpmemobj/pmalloc.c:228-241 | with nothing else in progress such a state is left by reopening as it is: a pointer to an unused chunk |
| `HeapRuns.NoUnitsFirst` | src/libpmemobj/backend_persistent.c:935-945 | the first persist of a split after no units takes the magic number from the chunk's header; reopening writes a chunk as large as the zone there, and that does no harm exactly when the chunk starts the zone and nothing in the zone stays in use |
| `HeapRuns.NoUnitsSecond` | src/libpmemobj/backend_persistent.c:864-878 | the second persist puts the header back, and all is well |
| `HeapRuns.NoUnitsThird` | src/libpmemobj/backend_persistent.c:884-892 | the third leaves a chunk of size zero: the consistency check rejects the zone, and reopening never ends |
| `HeapRuns.NoUnitsBreaks` | src/libpmemobj/backend_persistent.c:983-993 | so a split after no units, run to its third persist, breaks the zone |
| `HeapRuns.NoUnitsCutShort` | src/libpmemobj/backend_persistent.c:935-945 | in a run, cut short after its first persist it breaks the zone exactly if the chunk is not the first or some pointer survives |
| `HeapRuns.UncleanPickIsReached` | src/libpmemobj/pmalloc.c:158-241 | a clean run of a fresh heap with one chunk reaches a pick of the chunk being freed |
| `HeapRuns.RefusedFreeIsReached` | src/libpmemobj/pool.c:222-238 | and one reaches a free that the container may refuse |
| `HeapRuns.NoUnitsIsReached` | src/libpmemobj/bucket.c:166-170 | and for every request of at most one chunk's size, on a heap never used before, one reaches a split after no units, whose first persist is harmless and whose third breaks the zone |
| `HeapRuns.OverLiveIsReached` | src/libpmemobj/bucket.c:166-170 | and with a second chunk in use one reaches a split of the first whose first persist makes reopening offer the whole zone, that chunk included |
| `HeapContainer.SplitAccounts` | src/libpmemobj/backend_persistent.c:968-999 | a split keeps the arena's chunk and puts the rest in the container, or out of its reach if the container refuses it |
| `HeapContainer.PutBackAccounts` | src/libpmemobj/bucket.c:175-200 | putting back a chunk that does not fit returns it to the container, or leaves it out of reach if refused |
| `HeapContainer.StepAccounts` | src/libpmemobj/pmalloc.c:158-241 | every clean step keeps each unused chunk of the walk in exactly one place: in the container, with the arena that took it, or out of reach because it was refused or left out on opening |
| `HeapContainer.RunAccounts` | src/libpmemobj/pmalloc.c:158-241 | and so does every clean run |
| `HeapContainer.IdleContainerIsFull` | src/libpmemobj/pmalloc.c:158-241 | after any clean run from the first opening, with every arena idle, the container holds exactly the unused chunks but those refused or left out |
| `Bst.SearchStep` | src/libpmemobj/container_bst.c:79-93 | each step down rules out exactly the nodes that cannot be the answer |
| `Bst.SlotStep` | src/libpmemobj/container_bst.c:64-77 | each step down keeps the one empty place where the key belongs |
| `Bst.AttachedShape` | src/libpmemobj/container_bst.c:64-77 | hanging a node into that place keeps order and parent links |
| `Bst.AttachedItems` | src/libpmemobj/container_bst.c:64-77 | and adds exactly its item |
| `Bst.SplicedShape` | src/libpmemobj/container_bst.c:117-122 | cutting a node with at most one child out keeps order and parent links |
| `Bst.SplicedItems` | src/libpmemobj/container_bst.c:117-122 | and removes exactly its item |
| `Bst.NextTowards` | src/libpmemobj/container_bst.c:107-113 | going left from the right child leads to the node that comes right after |
| `Bst.ReplacedShape` | src/libpmemobj/container_bst.c:113-116 | copying the successor's item over a node keeps the order |
| `Bst.SoughtItem` | src/libpmemobj/container_bst.c:79-93 | the node found has the least key not below the request; none is found exactly when there is no such key |
| `Bst.Tree.FindNode` | src/libpmemobj/container_bst.c:79-93 | finds a node with the key, or on request with the least larger one |
| `Bst.Tree.Add` | src/libpmemobj/container_bst.c:64-77 | the multiset gains exactly this item unless there is no memory |
| `Bst.Tree.Remove` | src/libpmemobj/container_bst.c:96-123 | the multiset loses exactly this node's item, also when the successor is copied and removed instead |
| `Bst.Tree.GetRm` | src/libpmemobj/container_bst.c:125-174 | returns and removes a value of the least key not below the request (of exactly the key for the equal form), and finds nothing exactly when there is none |
| `PmemLog.CertainShows` | src/libpmemlog/log.c:305-337 | durable bytes and a write offset at either of two ends make a failure leave one of two contents |
| `PmemLog.GatheredIsEach` | src/libpmemlog/log.c:407-485 | gathering first and appending once equals appending one by one whenever all fits |
| `PmemLog.TwoAppends` | src/libpmemlog/log.c:342-402 | when two appends in a row leave what one append of both leaves: an if and only if |
| `PmemLog.PiecesCover` | src/libpmemlog/log.c:576-587 | without offset overflow the pieces are the contents in order, all full but the last |
| `PmemLog.WalkIsContentsIff` | src/libpmemlog/log.c:576-587 | a walk in pieces yields exactly the contents if and only if the log is empty or the first step does not overflow 64 bits |
| `PmemLog.LargestSizeWalksAgain` | src/libpmemlog/log.c:576-587 | on every log that holds something the largest piece size hands out the contents and then starts over one byte too early |
| `PmemLog.SpaceTestRightIff` | src/libpmemlog/log.c:439-449 | the test for free space is right exactly when the total, added up in 64 bits, does not fit by wrapping |
| `PmemLog.BelowIsRight` | src/libpmemlog/log.c:439-449 | it is right for every total below 2^64 |
| `PmemLog.NamedTooOften` | src/libpmemlog/log.c:439-449 | a buffer of 2^40 bytes named 2^24 times passes the test on every log |
| `PmemLog.Log.Persist` | src/libpmemlog/log.c:305-337 | data before offset: at every moment a failure leaves the old or the new contents |
| `PmemLog.Log.Append` | src/libpmemlog/log.c:342-402 | appends all of the buffer or, on a full log even for an empty buffer, nothing; at every moment in between a failure leaves the contents before or after |
| `PmemLog.Log.AppendV` | src/libpmemlog/log.c:407-485 | equals one append of the concatenation, with the same crash guarantee, whenever the test for free space is right |
| `PmemLog.Log.Rewind` | src/libpmemlog/log.c:512-542 | empties the log; a failure leaves it as before or empty |
| `PmemLog.Log.Walk` | src/libpmemlog/log.c:550-591 | hands out a prefix of the pieces, and all of them unless the callback stopped it |
| `PmemLog.Log.Tell` | src/libpmemlog/log.c:490-507 | the length of the contents |
| `PmemLog.Log.constructor` | src/libpmemlog/log.c:92-135 | whatever image passes the offset checks opens as a valid log with those contents |
| `PmemLog.Session` | src/libpmemlog/log.c:342-542 | opening a log, performing any appends, gathered appends and rewinds on it, and cutting it off at any moment leaves a log that opens again and holds the contents after some prefix of the calls, each whole; the prefix includes every call that had returned |
| `PmemLog.BelowIsPerformable` | src/libpmemlog/log.c:439-449 | all such calls may be performed if the totals of the gathered appends are below 2^64 |
| `Tcache.FlushIsExact` | src/jemalloc/src/tcache.c:81-160 | each arena gets exactly its own pointers, once each and oldest first |
| `Tcache.FlushIsPermutation` | src/jemalloc/src/tcache.c:81-160 | nothing is lost or returned twice |
| `Tcache.LocksOnce` | src/jemalloc/src/tcache.c:92-136 | exactly the arenas that own a flushed pointer are locked, each once, so the statistics are merged at most once |
| `Tcache.Shrinks` | src/jemalloc/src/tcache.c:92-136 | each pass returns at least the first pointer, so the deferred set shrinks |
| `Tcache.Bin.Pass` | src/jemalloc/src/tcache.c:92-136 | one pass over the stack in place: returns one arena's pointers and moves the others to the front in order |
| `Tcache.Bin.FlushOldest` | src/jemalloc/src/tcache.c:92-136 | the passes return the oldest pointers and leave the newest where they are |
| `Tcache.Bin.Flush` | src/jemalloc/src/tcache.c:81-239 | keeps the newest pointers in order, returns the others arena by arena, merges the requests once and lowers the low water mark |
| `Tcache.Bin.Pop` | src/jemalloc/include/jemalloc/internal/tcache.h:275-288 | takes the newest pointer and keeps the low water mark |
| `Tcache.Bin.Push` | src/jemalloc/include/jemalloc/internal/tcache.h:384-405 | a full bin first returns its older half |
| `Tcache.Bin.Fill` | src/jemalloc/src/arena.c:1551-1589 | refills an empty bin with what the arena gave |
| `Tcache.Bin.Collect` | src/jemalloc/src/tcache.c:27-65 | returns three quarters, rounded up, of what lay below the low water mark; the fill divisor stays in range |
| `Tcache.ShrDivides` | src/jemalloc/src/tcache.c:47-60 | a right shift divides by a power of two, rounding down |
| `Quarantine.DrainedIsLongestTail` | src/jemalloc/src/quarantine.c:91-97 | draining keeps exactly the longest tail within the bound |
| `Quarantine.EnteredFits` | src/jemalloc/src/quarantine.c:121-158 | after a pointer enters, the held sizes are within the limit and a tail of the queue is kept; an oversized pointer leaves it empty |
| `Quarantine.EnteredKeepsMost` | src/jemalloc/src/quarantine.c:121-128 | without memory pressure no pointer leaves that the limit would have let stay |
| `Quarantine.RingUnrolled` | src/jemalloc/src/quarantine.c:56-73 | a ring that wraps around is copied in two pieces into the same queue |
| `Quarantine.RingPush` | src/jemalloc/src/quarantine.c:136-142 | storing at the masked index appends to the queue |
| `Quarantine.Queue.DrainOne` | src/jemalloc/src/quarantine.c:79-89 | frees exactly the oldest |
| `Quarantine.Queue.Drain` | src/jemalloc/src/quarantine.c:91-97 | frees oldest first until within the bound |
| `Quarantine.Queue.Grow` | src/jemalloc/src/quarantine.c:45-77 | same queue in a larger ring, or one freed when there is no memory; either way there is room |
| `Quarantine.Queue.Enter` | src/jemalloc/src/quarantine.c:99-159 | freed and held pointers together are always all pointers in the order they came; sums stay within the limit and the in-code assertions hold |
| `Quarantine.Queue.Cleanup` | src/jemalloc/src/quarantine.c:161-187 | thread shutdown frees all that is held, in order |
| `NumText.DigitsValue` | src/jemalloc/src/util.c:214-255 | printed digits stand for the number and have no leading zero |
| `NumText.DigitTable` | src/jemalloc/src/util.c:214-255 | digits print as 0 to 9 and then capital letters for upper case and small letters otherwise, and exactly the characters of the base, in either case, are read as digits |
| `NumText.Room` | src/jemalloc/src/util.c:22-30 | every 64-bit number fits the buffer in every base, and from base 4 on half of it stays free for signs and prefixes |
| `NumText.U2S` | src/jemalloc/src/util.c:214-255 | fills the buffer backwards with exactly the digits and a terminator |
| `NumText.D2S` | src/jemalloc/src/util.c:257-281 | signed text with its mark |
| `NumText.O2S` | src/jemalloc/src/util.c:283-294 | octal text, prefixed unless it starts with a zero |
| `NumText.X2S` | src/jemalloc/src/util.c:296-307 | hexadecimal text, prefixed on request |
| `NumText.Strtoumax` | src/jemalloc/src/util.c:99-212 | does exactly what the parsing function says: value, where it stops, error |
| `NumText.BlanksPass` | src/jemalloc/src/util.c:116-131 | any number of the six blanks before a text changes nothing but where parsing ends |
| `NumText.ConvertExact` | src/jemalloc/src/util.c:168-190 | converting digits of a 64-bit value is exact, with no false overflow |
| `NumText.ParseIsValueIff` | src/jemalloc/src/util.c:99-212 | a digit string for a 64-bit value parses to it in full exactly unless a leading zero is followed by something that is neither octal nor an x |
| `NumText.EightIsHidden` | src/jemalloc/src/util.c:140-166 | 08 in decimal is such a number: it parses to 0 |
| `NumText.ConvertDrops` | src/jemalloc/src/util.c:168-190 | conversion of a run of digits stops with an overflow at the first digit that makes the number, modulo 2^64, smaller, and otherwise returns it modulo 2^64 and the end of the run |
| `NumText.ParseReports` | src/jemalloc/src/util.c:99-212 | for every text and every base, given or left to the prefix, with blanks, sign and anything behind the digits: overflow is reported exactly when some digit makes the number, modulo 2^64, smaller than it was; unreported, the result is the number with its sign modulo 2^64, and no digits at all are invalid |
| `NumText.ParseReportsIff` | src/jemalloc/src/util.c:99-212 | for text that is digits only: reported or the number modulo 2^64, whatever its length |
| `NumText.MissedOverflow` | src/jemalloc/src/util.c:176-184 | a number that goes unreported: twenty digits, past 64 bits, parse without error |
| `NumText.ParsePrinted` | src/jemalloc/src/util.c:214-255 | parsing undoes printing for every 64-bit value and every base from 2 to 36 |
| `NumText.ParseOctal` | src/jemalloc/src/util.c:283-294 | and for octal text with the automatic base |
| `NumText.ParseHex` | src/jemalloc/src/util.c:296-307 | and for hexadecimal text with the automatic base |
| `NumText.ParseSigned` | src/jemalloc/src/util.c:257-281 | signed text of any number whose magnitude fits 64 bits comes back modulo 2^64 |

## Left out

- I/O errors of the namespace callbacks and the arena's error state that follows them; the callbacks succeed.
- Checking several arenas in one call: the loop over arenas never moves to the next one; a single arena is checked.
- That a lane that can go on does so some time: `BttProgress` says which lanes can, not how they are scheduled.
- BttLayout.Table.ReadLayout: it follows info blocks by offset; which of the blocks on media those are, by signature, UUID, checksum and version, is `BttInfo.Seen`.
- Signatures, UUIDs and versions of pool headers, and big-endian hosts.
- The order in which arenas of one namespace are opened, lanes shared between arenas, and reopening with another number of lanes than before.
- Ckh.Table.EvictRelocInsert: the eviction loop is cut off after `turns` evictions with the outcome "still running", because nothing bounds it; every result for calls that return is stated for all numbers of turns.
- Ckh.Table.Insert: which item is lost when memory runs out is left open, as in the code.
- Key comparison in the cuckoo table other than equality of keys, and iteration over the table.
- arena_ralloc, huge allocations, bin runs and region bitmaps, statistics, profiling, junk filling.
- ArenaRuns.Chunk.RunDalloc: the purge that freeing dirty pages may trigger is modelled on its own (`PurgeChunk`), not from within a free.
- ArenaRuns.Chunk.ChunkDalloc: one chunk; an earlier spare chunk that is handed back to the system then is not modelled.
- ArenaRuns.Chunk.PurgeChunk: the arena lock is dropped between stashing and unstashing; other threads are excluded from the chunk for that time.
- ArenaRuns.Chunk.RunAllocLarge: one chunk; the choice among the runs of several chunks and the second search after another thread has run are not modelled.
- Which idle pages are known to be zero: the flag is kept as the code keeps it, but nothing is claimed about it.
- ArenaRuns.Chunk.Palloc: alignments divide the chunk size and chunks start at multiples of it, so page numbers stand for addresses; one chunk.
- The chunk size option: chunks have the default size, 4 MiB.
- ChunkExtents.Pool.Recycle: the mutex is dropped while a node is allocated; what other threads may do to the indexes in that window is not modelled.
- The tree balancing behind the extent and run indexes: an index is an ordered set.
- prealloc and its slot recovery: the code's failure test and the old chunk's flag after recovery support no clean claim.
- Concurrent use of one libpmemobj arena and of one container: the guard is cleared after the lock is released, and adding takes no lock.
- HeapRuns.RunRecovers: runs of clean steps; `HeapRuns.StepSafeIff` says that from any other step on recovery can fail.
- HeapZone.RequestSplitsWell: requests are at least one byte and their unit counts below 2^32; the code takes one from the size and keeps the quotient in 32 bits, so a request of no bytes asks for 2^32 - 1 units.
- The assertions of debug builds that only a zone's first header may lack its magic number and that a chunk's new size is not zero; the model goes on where they would stop the program.
- Which chunk a container returns for a size: the model lets any chunk be picked, as unit counts and key order do not give best fit.
- Header flags other than used, chunk types beyond what the walk looks at, and several zones at once.
- Deleting a whole container, the other container, and the pool-wide open and close paths.
- PmemLog.Log.AppendV: a total that passes the space test only by wrapping is excluded, as it is copied past the end of the pool; `PmemLog.SpaceTestRightIff` says when that is.
- PmemLog.Log.Walk: pools up to 2^63 bytes, the largest a file can be.
- Flush coverage of the move: the head flush passes the advanced pointer; contents and alignment are stated, flushing is not.
- The streaming memset, and the choice between streaming and ordinary moves.
- The quarantine's filling of held memory, and its validation of red zones.
- Formatting of strings, padding and widths around the printed numbers.
- NumText.D2S: the most negative value is excluded, as C leaves its negation undefined.
