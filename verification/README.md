# Verified model of a real-time search storage engine

This project models the storage engine of the flexse search server and the message queue that feeds
it, and proves what they promise. `dafny verify dfyconfig.toml` checks everything.

The parts, from the outside in:

- **Tiered inverted index** (`Tiers`, `TierRuns`, `TierOrder`, `TierDurability`, `TierHazards`,
  `TierRestart`, `TierReader`, `IndexGroup`, `SlotReader`, `Merger`). Five slots, newest to oldest: MEM0, MEM1, DAY, DAY2, HIS.
  `Tiers` is a state machine whose steps are the critical sections and the externally visible
  effects between them; a run is any interleaving of the update thread and the two mergers, and a
  crash may follow any step. `IndexGroup` is the class with the slots, flags and files overwritten in
  place; each of its methods performs steps of the machine in the order of the code. `Merger` is the
  merge loop down to the rows of the disk index.
- **In-memory posting lists** (`PostingList`, `PostingStore`, `PostingHeap`, `Chains`, `HeadTable`,
  `MemBlocks`).
  Bytes in blocks, blocks in linked chains, chains behind heads, heads behind hash buckets, and a
  pool allocator under them. The class keeps a map from terms to newest-first cells.
- **Disk index** (`DiskIndexer`, `DiskLookup`, `DiskV`, `FileBlock`, `CreatSign`). A sorted array of
  entries over several files, a sampled second index, a block cache, a binary search with a
  subtracting comparator, and an append-only value log with packed positions.
- **Documents** (`Documents`, `Bitmap`, `StructMask`). Versioned inner ids, the mod and del bitmaps,
  the query filter, and the packed term descriptions.
- **Queue and delivery** (`Queue`, `BlockFormat`, `QueueRepair`, `Delivery`). The block format of the
  message log, writing, seeking, reading and crash repair, and the sender and receiver loops.

Where the code does less than its documentation or its comments say, the code was followed and the
exact condition was proved:

- `README:61-63` promises the newest postings that fit a short buffer. A disk tier that does not fit
  is refused, and older tiers are still appended (`SlotReader.NewestPrefixIff`).
- A dump that starts on a signal captures the queue position after later messages may have been
  accepted, so its check point can outlive their postings (`TierDurability.SignalledCaptureIsSafeIff`).
- The timed wake-up of the day merger can hit the assertion in the swap; a timed dump never signals a
  waiting update thread, and the signal of another dump is lost if it comes between the thread's check
  and its wait (`TierHazards`).
- `README:63` promises descending postings. A crash between `set_finish` and the publication of a dump to
  day/2, or after the history's `cur` file was written, can make the restarted index list postings twice
  (`TierRestart.RestartOrderIff`), and push covered ones beyond what readers get
  (`TierReader.CheckpointedMessagesAreRead`).
- The writer of the queue accepts a message whose block has exactly the maximal size; the reader
  kills its process on it (`Queue.FileLinkBlock.ReadMessage`, `Queue.MaximalBlockIsNeverRead`).
- Repair announces truncation of the torn block in a comment but does not truncate
  (`QueueRepair.WholeAgainIff`).
- A value of exactly 2^27 bytes passes the size check of the value log and is lost by the 27-bit
  length field (`DiskV.FaithfulIff`); the next merge aborts on the empty row (`Merger.DiskReadIsWhole`).
- The disk index does not check that the second key is above the first
  (`DiskIndexer.DiskIndexer.SetPostingList`), and a second-index file that does not end at the last entry
  leaves it closed and empty (`DiskIndexer.DiskIndexer.constructor`).
- A roll-back reply that is reported as sent and lost can make the receiver skip messages
  (`Delivery.HazardsIff`).
- The increment of a field as wide as a word wraps instead of saturating (`StructMask.SaturatesIff`).
- Descriptions of 1025 to 2048 words are accepted although their offsets have ten bits
  (`StructMask.BuiltLayoutIff`).

Conventions: source constants keep their values; terms are identified by their signatures; file
contents are sequences and maps of bytes or cells; exceptions and process aborts are result values.
Methods whose contracts use `old` are the ones that change state in place.

## Model

| member | source | states |
|---|---|---|
| `TierRuns.NewestPostingsSurvive` | utils/indexer/index_group/index_group.cpp:127-457 | after every interleaving of inserts, swaps, dumps and history merges the five slots give the newest MAX_POSTINGLIST_SIZE postings ever inserted, although every merge truncates on its own; during a day/2 dump no such posting is missing |
| `TierRuns.RunInv` | utils/indexer/index_group/index_group.cpp:111-457 | the invariant behind it is kept by every legal run |
| `TierRuns.StepOwnership` | utils/indexer/index_group/index_group.cpp:205-374 | every atomic step of the three threads keeps the ownership invariant of the directories, flags and merge progress |
| `TierRuns.Day2HasOneOwner` | utils/indexer/index_group/index_group.cpp:277-371 | m_can_dump_day2 implies day/2 is empty, it is never true together with m_his_merge_ready, and the two mergers never use day/2 at once |
| `TierRuns.MergesPublishWhatTheyReplace` | utils/indexer/index_group/index_group.cpp:291-372 | at publication the merged index is exactly the merge of the slots it replaces: no source changed while the merge ran unlocked |
| `TierOrder.PostingsStayDescending` | utils/indexer/index_group/index_group.cpp:386-403 | over all runs, what was inserted for a term since the start stays strictly descending in inner id, in front of all older postings; README:63 promises this for everything, which holds if the disks were in order at the start |
| `TierOrder.OrderedRunsIff` | utils/indexer/index_group/index_group.cpp:386-403 | the start decides: all runs keep the published lists descending if and only if the disks were |
| `TierOrder.WindowShowsDuplicatesIff` | utils/indexer/index_group/index_group.cpp:297-332 | between set_finish and publication of a day/2 dump a reader sees the right postings without repetition if the dump holds none of the term, or newer tiers already fill the limit; and only then, when the disks were in order at the start, or the dump starts with a posting inserted since, or the term stays below the limit |
| `TierOrder.RepeatIsHarmlessIff` | utils/indexer/index_group/index_group.cpp:386-403 | the sequence fact behind it: repeating part of a newer list in front of an older one is invisible when the newer one fills the limit, and only then if the first repeated posting is new or everything fits the limit |
| `TierOrder.MergesNeverStarve` | utils/indexer/index_group/index_group.cpp:144-147 | both sources of every merge hold only non-empty lists and the older one fits the merge buffer, so on the level of tiers the assertion num1 > 0 && num2 > 0 never fails; Merger.DiskReadIsWhole names the row that fails it on disk |
| `TierDurability.CheckpointedMessagesSurviveACrash` | utils/indexer/index_group/index_group.cpp:268-307 | whichever step of a dump or history merge the process dies after, the directories named by the cur files and day/2 hold every posting up to the written check point, up to the limit of the history; a signalled dump is included when its capture is safe. What a reader gets of them, TierReader states |
| `TierDurability.SignalledCaptureIsSafeIff` | utils/indexer/index_group/index_group.cpp:242-270 | a signalled dump is crash safe exactly when, at the capture of the queue position, MEM0 holds only postings of the message being inserted |
| `TierDurability.StrandedPosting` | utils/indexer/index_group/index_group.cpp:268-307 | a posting of a covered message that is still in MEM0 at the check point is lost by a crash |
| `TierRestart.RestartIsClean` | utils/indexer/index_group/index_group.cpp:37-82 | a crash after any step leaves disks from which the constructor starts an initial state of the machine, holding exactly what was recovered and no id above the last one given out |
| `TierRestart.RestartOrderIff` | utils/indexer/index_group/index_group.cpp:37-82 | on disks that were in order, a restart after any run finds the postings of a term in order if and only if it finds none twice: the dump in the day/2 window must not meet the DAY it contains, nor a merged history the day/2 it contains |
| `TierRestart.CrashInWindowRepeats` | utils/indexer/index_group/index_group.cpp:297-332 | the failing run from an empty index: two messages, the second on its way to day/2 when the process dies; the restarted list is 1, 2, 1 |
| `TierRestart.OrderThroughLives` | utils/indexer/index_group/index_group.cpp:37-82 | through any number of runs and crashes a term stays in order if no crash repeats its postings |
| `TierReader.RestartedReaderSeesIff` | utils/indexer/index_group/index_group.cpp:381-406 | which postings a reader of the restarted index gets among the newest MAX: those some directory holds that stand below the limit there, and on disks that were in order no others |
| `TierReader.CheckpointedMessagesAreRead` | utils/indexer/index_group/index_group.cpp:268-307 | crash durability as a reader sees it: everything the check point covers is among the newest MAX of the restarted list if no posting is repeated; on disks that were in order, exactly if repeated postings push none of it beyond the limit |
| `TierReader.CoveredMessageIsHidden` | utils/indexer/index_group/index_group.cpp:297-332 | the failing run: with a DAY that is full for the term, a crash in the day/2 window hides a covered message from every reader although it is on disk |
| `TierHazards.SignalledDumpCanLose` | utils/indexer/index_group/index_group.cpp:242-307 | a concrete run in which a signalled dump loses an accepted, check-pointed message |
| `TierHazards.TimedWakeCanAbort` | utils/indexer/index_group/index_group.cpp:111-125 | a concrete run reaching the timed wake-up on which the assertion MEM1 == NULL kills the process |
| `TierHazards.TimedDumpCanStrandUpdater` | utils/indexer/index_group/index_group.cpp:326-331 | a concrete run after which the update thread waits for a signal that a timed dump never sends |
| `TierHazards.SignalledDumpCanStrandUpdater` | utils/indexer/index_group/index_group.cpp:97-99 | a concrete run after which it waits for the signal of a dump that was published between its check of MEM1 and its wait |
| `TierHazards.StuckForever` | utils/indexer/index_group/index_group.cpp:93-109 | once stranded, no run without a spurious wake-up accepts another message |
| `TierHazards.RescueRun` | utils/indexer/index_group/index_group.cpp:309-332 | otherwise finishing the dump in progress wakes the update thread |
| `TierHazards.WakeableIffNotStuck` | utils/indexer/index_group/index_group.cpp:93-109 | in every reachable state a waiting update thread can be woken exactly when a dump that signals is still to be published |
| `IndexGroup.IndexGroup.constructor` | utils/indexer/index_group/index_group.cpp:22-83 | starts from the directories the cur files name and day/2, in an initial state of the machine |
| `IndexGroup.IndexGroup.SetPostingList` | utils/indexer/index_group/index_group.cpp:408-457 | a message is inserted by a legal run of insert and swap steps; it blocks exactly if a full term or a nearly full index asks for a swap while MEM1 is taken, or a second full term comes; what MEM0 and MEM1 then hold is stated term by term: a full term goes into the new MEM0, a nearly full index leaves MEM0 empty, otherwise MEM1 stays |
| `IndexGroup.IndexGroup.Resume` | utils/indexer/index_group/index_group.cpp:93-105 | a woken thread goes on exactly if MEM1 is free and no further term is full: MEM0 becomes MEM1 as it was, and the new MEM0 holds exactly the pending postings; otherwise it waits again |
| `IndexGroup.IndexGroup.InsertTerms` | utils/indexer/index_group/index_group.cpp:424-445 | the loop over the terms stops at a full term with MEM1 taken; terms before the swap are in front of the old MEM0, terms from the full one on in the new MEM0 |
| `IndexGroup.IndexGroup.DumpMem1` | utils/indexer/index_group/index_group.cpp:272-332 | cur file before check point before publication: the six steps of a dump in this order |
| `IndexGroup.IndexGroup.UpdateDayIndexer` | utils/indexer/index_group/index_group.cpp:230-334 | a round of the day merger aborts exactly on the swap assertion, does nothing on an empty timed wake-up, and is otherwise the run of its steps |
| `IndexGroup.IndexGroup.UpdateHisIndexer` | utils/indexer/index_group/index_group.cpp:336-374 | a round of the history merger is its four steps exactly when day/2 is announced and not empty |
| `IndexGroup.IndexGroup.GetPostingList` | utils/indexer/index_group/index_group.cpp:381-406 | the memory tiers fill the whole cells of the buffer, then DAY, day/2 and HIS follow, each whole if it still fits and otherwise not at all; a buffer large enough for all slots receives exactly their concatenation |
| `IndexGroup.ReaderGetsNewestIff` | utils/indexer/index_group/index_group.cpp:381-406 | a buffer of any size receives the newest postings that fit if and only if no disk tier is refused while room is left |
| `SlotReader.NewestPrefixIff` | utils/indexer/index_group/index_group.cpp:386-403 | the same on the slots themselves: past a refused disk tier, older tiers are still appended |
| `SlotReader.ShortBufferSkipsNewerTier` | README:61-63 | a concrete buffer for which the documented promise of the newest postings does not hold |
| `SlotReader.ReadSlots` | utils/indexer/index_group/index_group.cpp:381-406 | the loop in bytes computes the collection in cells |
| `SlotReader.BigBufferCollectsAll` | utils/indexer/index_group/index_group.cpp:386-403 | with room for all postings nothing is skipped |
| `Merger.Merger` | utils/indexer/index_group/index_group.cpp:127-203 | two ascending sources become rows with ids 0, 1, 2, ... that are exactly the merged rows; an exception exactly when a merged row exceeds the value limit |
| `Merger.MergeIsTake` | utils/indexer/index_group/index_group.cpp:140-176 | the merged list of every term is the newest MAX_POSTINGLIST_SIZE of newer then older postings |
| `Merger.MergeIsSource` | utils/indexer/index_group/index_group.cpp:140-201 | merged rows have strictly ascending keys, no empty list and no list above the limit |
| `Merger.MergeRowsIsTierMerge` | utils/indexer/index_group/index_group.cpp:127-203 | the rows the loops write stand for the map the state machine calls a merge: keys are the union, lists the truncated concatenation |
| `Merger.CutBoth` | utils/indexer/index_group/index_group.cpp:168-171 | copying the second list behind the first with its left_num gives the truncated concatenation |
| `Merger.MemoryReadIsTake` | utils/postinglist/postinglist.cpp:331-335 | a memory source read into the merge buffer delivers the newest cells up to the limit, whole |
| `Merger.DiskReadIsWhole` | utils/indexer/disk_indexer/disk_indexer.cpp:300-307 | a disk row written by a merge is read whole exactly if it is shorter than 2^27 bytes; a row of that length reads as empty, on which the next merge aborts |
| `PostingList.PostingList.Set` | utils/postinglist/postinglist.cpp:150-287 | exactly one cell is put in front of the list of its term through any cascade of merges, other terms are untouched; the result is FULL, NEARLY_FULL or OK by the fill of the head table; an exception means that an allocation was refused and leaves all lists as they were, so there is none for a known term whose first block has room, nor for a new one while the pool has a smallest block |
| `PostingList.PostingList.Get` | utils/postinglist/postinglist.cpp:106-148 | a buffer of any length receives the first bytes of the list that fit, and in them the newest min(n, length / cell) cells whole |
| `PostingList.PostingList.FindHead` | utils/postinglist/postinglist.cpp:110-144 | the bucket walk ends and finds the head of a term exactly when the term has one |
| `PostingList.PostingList.CopyChain` | utils/postinglist/postinglist.cpp:119-137 | the copy over the chain delivers the newest bytes that fit and counts whole cells |
| `PostingList.PostingList.Append` | utils/postinglist/postinglist.cpp:164-249 | the branch for a known term: into the room, else merge until there is room, else a new block; the merge loop terminates because the chain shortens; it fails exactly when an allocation is refused, so never while there is room |
| `PostingList.PostingList.MergeOnce` | utils/postinglist/postinglist.cpp:189-221 | one merge keeps every list, frees exactly the two merged blocks and shortens the chain by one |
| `PostingList.PostingList.Grow` | utils/postinglist/postinglist.cpp:230-243 | a new smallest block in front of a chain that cannot be merged |
| `PostingList.PostingList.AddHead` | utils/postinglist/postinglist.cpp:252-284 | a new term gets one head, reachable from its bucket, and a list of one cell |
| `PostingList.PostingList.Combine` | utils/postinglist/postinglist.cpp:192-219 | the memory work of one merge: two blocks are copied into one of twice the size and released; the 32-bit doubling is right or 0 |
| `PostingList.PostingList.Begin` | utils/postinglist/postinglist.cpp:315-330 | iteration visits every stored term exactly once in strictly ascending order, and freezes the structure |
| `PostingStore.SortedListing` | utils/postinglist/postinglist.cpp:299-330 | the sorted copy of the heads names exactly the stored terms |
| `PostingList.PostingList.ItGet` | utils/postinglist/postinglist.cpp:331-335 | an iteration step reads the list of its term |
| `PostingList.PostingList.Clear` | utils/postinglist/postinglist.cpp:362-387 | clear returns every block: nothing is outstanding, every category has its initial count, no list is left |
| `PostingList.PostingList.FreeChain` | utils/postinglist/postinglist.cpp:371-380 | following next pointers while freeing releases exactly the blocks of the chain |
| `PostingList.PostingList.BlocksAccounted` | utils/postinglist/postinglist.cpp:96-104 | the blocks on all chains are pairwise distinct and are exactly the outstanding pool and malloc blocks |
| `PostingList.PostingList.constructor` | utils/postinglist/postinglist.cpp:6-59 | the smallest block is the smallest power of two with room for header and four cells, the pool has blocks of it and of its doublings, the tables have the configured or default sizes; the structure starts empty |
| `PostingStore.DoubledSize` | utils/postinglist/postinglist.cpp:192-192 | the 32-bit size of a merged block is the doubled size or 0, never a wrong size |
| `PostingStore.LoopExit` | utils/postinglist/postinglist.cpp:233-234 | the assertion after the merge loop never fails |
| `PostingStore.PrefixCells` | utils/postinglist/postinglist.cpp:130-133 | a byte prefix of the stored list holds exactly the newest cells that fit |
| `Chains.MergeKeepsContent` | utils/postinglist/postinglist.cpp:189-221 | a merged block stores both blocks in order |
| `Chains.MergeKeepsCounter` | utils/postinglist/postinglist.cpp:189-221 | a merge keeps the binary counter: sizes base * 2^k, ascending, strictly after the second block |
| `Chains.GrowKeepsCounter` | utils/postinglist/postinglist.cpp:230-243 | so does a new smallest block when no merge applies |
| `Chains.PutKeepsCounter` | utils/postinglist/postinglist.cpp:85-94 | a cell in front keeps the counter and prepends to the content; woffset never becomes negative |
| `Chains.ChainIsLogarithmic` | utils/postinglist/postinglist.cpp:164-249 | block i of a chain has at least base * 2^(i-1) bytes, so chains are logarithmically short |
| `PostingHeap.MergeHeap` | utils/postinglist/postinglist.cpp:189-221 | a merge in the heap keeps all chains disjoint, linked and counted, and every list as it was |
| `PostingHeap.GrowHeap` | utils/postinglist/postinglist.cpp:230-243 | a new head block in the heap keeps the other lists and prepends to its own |
| `PostingHeap.PutHeap` | utils/postinglist/postinglist.cpp:173-176 | a cell written in place changes only its own list |
| `HeadTable.AppendHead` | utils/postinglist/postinglist.cpp:264-284 | linking a new head in front of its bucket keeps every head reachable, next indexes smaller than their own and keys distinct |
| `HeadTable.SortVisitsEachOnce` | utils/postinglist/postinglist.cpp:299-330 | sorting heads with distinct keys gives each once, ascending |
| `MemBlocks.MemBlocks.constructor` | utils/memblocks/memblocks.cpp:11-76 | categories are carved one behind the other with full free lists |
| `MemBlocks.MemBlocks.AllocMem` | utils/memblocks/memblocks.cpp:78-133 | a request gets a block of exactly its size that was not handed out, from the pool while a matching category has one, else from malloc; it is refused only for size 0, or when no category of its size has a free block and malloc fails |
| `MemBlocks.MemBlocks.FreeMem` | utils/memblocks/memblocks.cpp:135-173 | a block goes back to the category whose range holds it, or to malloc |
| `MemBlocks.MemBlocks.Conservation` | utils/memblocks/memblocks.cpp:94-111 | in every category free blocks and blocks handed out are all of it |
| `MemBlocks.MemBlocks.AllReturned` | utils/memblocks/memblocks.cpp:135-173 | with nothing outstanding the pool is back at its initial counts |
| `MemBlocks.OneOwner` | utils/memblocks/memblocks.cpp:149-155 | a block lies in the address range of exactly one category |
| `MemBlocks.Carve` | utils/memblocks/memblocks.cpp:55-62 | the free list of a fresh category holds each of its blocks once |
| `FileBlock.FileBlock.GetRange` | utils/fileblock/fileblock.cpp:122-177 | a range read across any number of files delivers the existing cells, zeroes the rest, touches nothing else of the buffer and ends |
| `FileBlock.FileBlock.Set` | utils/fileblock/fileblock.cpp:63-91 | a dense write changes one cell of the flat array or appends one; any write puts its cell into its file and nothing else, and one behind the next file is not counted; refused past the file limit |
| `FileBlock.FileBlock.Get` | utils/fileblock/fileblock.cpp:93-120 | a cell read returns the cell, or nothing past the end, or an error past the last file |
| `FileBlock.FileBlock.GetCellCount` | utils/fileblock/fileblock.cpp:179-182 | the count from the file bookkeeping is the length of the flat array |
| `FileBlock.FileBlock.IsEnd` | utils/fileblock/fileblock.cpp:220-223 | the end test agrees with that length, a full last file included |
| `FileBlock.FileBlock.SetAndNext` | utils/fileblock/fileblock.cpp:210-214 | writing through the iterator is a write at its position, dense while it is inside the array |
| `FileBlock.FileBlock.ItGet` | utils/fileblock/fileblock.cpp:215-218 | the iterator reads a cell exactly while it is inside the array |
| `FileBlock.FileBlock.Clear` | utils/fileblock/fileblock.cpp:184-201 | clear leaves no file and an empty array |
| `FileBlock.FileBlock.Open` | utils/fileblock/fileblock.cpp:20-48 | reopening a directory recovers the flat array from file numbers and the last size |
| `FileBlock.Crossing` | utils/fileblock/fileblock.cpp:136-160 | a range that leaves its file is two ranges, the second from the start of the next file |
| `FileBlock.LayoutSet` | utils/fileblock/fileblock.cpp:63-91 | a dense write keeps every file equal to its stretch of the flat array |
| `FileBlock.WriteLands` | utils/fileblock/fileblock.cpp:63-87 | a dense write lands inside, at the end of the last file or at the start of the next |
| `DiskV.DiskV.Set` | utils/diskv/diskv.cpp:124-141 | everything stored before stays; the new position names the value exactly when it is shorter than 2^27 bytes and its file is among the first 32, or the file its number is cut to has the same bytes there |
| `DiskV.FullLengthIsLost` | utils/diskv/diskv.cpp:124-138 | the failing value: 2^27 bytes are accepted and kept as 0 bytes |
| `DiskV.DiskV.Get` | utils/diskv/diskv.cpp:143-167 | a stored value is returned whole, or refused when the buffer is shorter |
| `DiskV.DiskV.CheckNewFile` | utils/diskv/diskv.cpp:104-123 | a value never straddles two files |
| `DiskV.FaithfulIff` | utils/diskv/diskv.cpp:136-138 | packing into 5, 27 and 31 bits keeps a position exactly for the first 32 files and lengths below 2^27 |
| `DiskV.HoldsKept` | utils/diskv/diskv.cpp:124-141 | appending never changes a stored value |
| `DiskV.DiskV.Clear` | utils/diskv/diskv.cpp:169-183 | clear removes every file |
| `CreatSign.ComparesRightIff` | utils/indexer/disk_indexer/disk_indexer.cpp:82-97 | the subtracting comparator orders two keys correctly exactly when they are less than 2^63 apart, which signatures always are |
| `CreatSign.Sign64` | utils/creat_sign/creat_sign.c:37-42 | a signature is below 2^63 because both halves are masked to 31 bits |
| `CreatSign.BkdrIsDigits` | utils/creat_sign/creat_sign.c:3-15 | the first hash is the bytes read as a number to the base 131313, modulo 2^32 |
| `CreatSign.SignHalves` | utils/creat_sign/creat_sign.c:37-42 | the low word of a signature is that number modulo 2^31, the high word the masked second hash |
| `CreatSign.LastByteTells` | utils/creat_sign/creat_sign.c:3-15 | strings that differ in their last byte only never share a signature |
| `CreatSign.KnownSignature` | utils/creat_sign/creat_sign.c:3-42 | both hashes and the signature of the bytes 1, 2, 3 |
| `CreatSign.BKDRHash` | utils/creat_sign/creat_sign.c:3-15 | the loop computes the masked first hash |
| `CreatSign.APHash` | utils/creat_sign/creat_sign.c:17-35 | the loop computes the masked second hash |
| `DiskIndexer.DiskIndexer.GetPostingList` | utils/indexer/disk_indexer/disk_indexer.cpp:99-211 | the lookup returns exactly what is kept of the list if the term is present in the first 32 files, which is all of it below 2^27 bytes and nothing at 2^27; -1 if the term is absent, the buffer short or the index closed; the cache never changes the answer |
| `DiskIndexer.DiskIndexer.Search` | utils/indexer/disk_indexer/disk_indexer.cpp:116-207 | the window search finds the entry of a key exactly when the index has it |
| `DiskIndexer.DiskIndexer.SetPostingList` | utils/indexer/disk_indexer/disk_indexer.cpp:213-239 | a frozen index refuses; an id or key that does not ascend throws from the third row on, and so does an overlong value; an accepted row with the next id and an ascending key appends one row, while a second key that does not ascend is accepted and leaves the entries out of order |
| `DiskIndexer.DiskIndexer.SetFinish` | utils/indexer/disk_indexer/disk_indexer.cpp:241-264 | a non-empty index becomes readable with a complete sample; an empty one stays closed |
| `DiskIndexer.DiskIndexer.ReadBlock` | utils/indexer/disk_indexer/disk_indexer.cpp:151-196 | cache hit or file read, the block is the same window of entries |
| `DiskIndexer.DiskIndexer.ItGet` | utils/indexer/disk_indexer/disk_indexer.cpp:300-307 | iteration returns the rows in the order they were written |
| `DiskIndexer.DiskIndexer.IsEnd` | utils/indexer/disk_indexer/disk_indexer.cpp:314-317 | and ends after the last one |
| `DiskIndexer.DiskIndexer.Clear` | utils/indexer/disk_indexer/disk_indexer.cpp:266-283 | clear leaves an empty, writable index |
| `DiskIndexer.DiskIndexer.constructor` | utils/indexer/disk_indexer/disk_indexer.cpp:13-73 | files of a finished index with its second-index file are kept and readable again, row by row; without a second-index file the data is dropped; a second-index file that does not end at the last entry closes the index with nothing in it |
| `DiskIndexer.FinishAndReopen` | utils/indexer/disk_indexer/disk_indexer.cpp:13-73 | round trip over a restart: an index that was finished is found again by a process that opens the files it left, with the same rows in the same order |
| `DiskV.DiskV.Open` | utils/diskv/diskv.cpp:18-39 | reopening a directory recovers the value files from their numbers and the size of the last one |
| `DiskIndexer.WindowDecides` | utils/indexer/disk_indexer/disk_indexer.cpp:133-207 | the outcome of the search in the window decides for the whole index |
| `DiskLookup.WindowContains` | utils/indexer/disk_indexer/disk_indexer.cpp:136-150 | the window of 1000 entries contains the key whenever the index does, also when the last sample is irregular |
| `DiskLookup.SamplingPush` | utils/indexer/disk_indexer/disk_indexer.cpp:233-237 | every 1000th row is sampled |
| `DiskLookup.SamplingFinish` | utils/indexer/disk_indexer/disk_indexer.cpp:243-248 | finishing completes the sample with the last row, once |
| `DiskLookup.LowerBound` | utils/indexer/disk_indexer/disk_indexer.cpp:134-135 | the first sample not below the key is found |
| `DiskLookup.BSearch` | utils/indexer/disk_indexer/disk_indexer.cpp:199-201 | the binary search finds the key exactly when it is in the block |
| `Documents.VisibleIffLive` | flexse/update_thread.cpp:183-299 | the postings of a term that survive the two bitmaps are exactly those of documents whose latest version has the term and is not deleted since, strictly descending |
| `Documents.UnmodifiedIsImage` | flexse/update_thread.cpp:219-228 | allocated ids with mod bit 0 are exactly the image of the outer-to-inner map |
| `Documents.OneIdPerDocument` | utils/idmap/idmap.cpp:62-102 | two documents never share a current inner id |
| `Documents.TruncatedQuery` | plugin/flexse/flexse_plugin.cpp:578-591 | what survives of the newest MAX_POSTINGLIST_SIZE postings is the newest part of what is visible, and all of it exactly when every posting past the limit is hidden |
| `Documents.Documents.Add` | flexse/update_thread.cpp:183-245 | a message with terms makes the new version or fails for lack of ids; without terms no version changes |
| `Documents.Documents.Mark` | flexse/update_thread.cpp:249-299 | del and undel act on the current versions of the known documents, in list order |
| `Documents.Documents.Filter` | plugin/flexse/flexse_plugin.cpp:578-591 | the in-place filter keeps exactly the unmodified, undeleted results in order |
| `Documents.Documents.Handle` | flexse/update_thread.cpp:119-154 | a message changes the documents as its operation says, or not at all |
| `Documents.ReplayIsHarmless` | flexse/update_thread.cpp:50-55 | messages behind the check point that were handled before a crash leave the documents as they are when they are replayed, however many of them had been handled |
| `Documents.Documents.GetInnerId` | utils/idmap/idmap.cpp:62-65 | 0 exactly for documents that never had terms |
| `Documents.AddKeeps` | flexse/update_thread.cpp:213-242 | a new version keeps the refinement |
| `Documents.MarkKeeps` | flexse/update_thread.cpp:258-296 | setting or clearing a del bit keeps the refinement |
| `Bitmap.Bitmap.Set1` | utils/bitmap/bitmap.h:14-15 | setting a bit adds one offset and nothing else |
| `Bitmap.Bitmap.Set0` | utils/bitmap/bitmap.h:16-17 | clearing a bit removes one offset and nothing else |
| `Bitmap.Bitmap.Get` | utils/bitmap/bitmap.h:12-13 | a bit reads as membership |
| `Bitmap.SetInWord` | utils/bitmap/bitmap.h:14-15 | or-ing a shifted 1 sets one bit of a word and keeps the others |
| `Bitmap.ClearInWord` | utils/bitmap/bitmap.h:16-17 | masking with its complement clears one bit and keeps the others |
| `Queue.RoundTrip` | utils/filelinkblock/filelinkblock.cpp:257-449 | after any messages were written a reader gets what it had not read before and then these, in order and unchanged, across file changes, also on a queue that crash repair opened, as long as no torn bytes are left in front of a later file |
| `Queue.WriteAll` | utils/filelinkblock/filelinkblock.cpp:257-305 | torn bytes are left in front of a later file exactly when the messages written before it did not cover them |
| `Queue.ReadOn` | utils/filelinkblock/filelinkblock.cpp:395-449 | with no torn bytes in front of a later file, any number of unread messages is read back |
| `Queue.FileLinkBlock.WriteMessage` | utils/filelinkblock/filelinkblock.cpp:257-305 | a message that fits a block becomes the next of the queue, in a new file exactly when the current one would exceed its limit; ids restart at 1 per file |
| `Queue.FileLinkBlock.ReadMessage` | utils/filelinkblock/filelinkblock.cpp:395-449 | with arbitrary bytes behind the blocks, a read returns the next message of the queue with its file and block number, waits at the end, or kills the process on a block the writer accepts and the reader does not, whenever no stale bytes stand between the reader and the next block; on the bytes of a torn block it hangs or kills the process |
| `Queue.MaximalBlockIsNeverRead` | utils/filelinkblock/filelinkblock.cpp:257-266 | the failing block: exactly the maximal size is written and never read |
| `Queue.FileLinkBlock.ReadBlock` | utils/filelinkblock/filelinkblock.cpp:427-446 | one block: the checks, then the step over it; no message from the bytes of a torn block |
| `Queue.FileLinkBlock.SeekMessage` | utils/filelinkblock/filelinkblock.cpp:332-376 | with arbitrary bytes behind the blocks, seek reaches a block that exists exactly when every block up to it is below the reader limit; a block that does not exist is only found on torn bytes, and then the reader stands behind the end of the file |
| `Queue.BehindBlock` | utils/filelinkblock/filelinkblock.cpp:332-376 | standing behind a block, the next read is its successor in the whole queue |
| `Queue.PutAppends` | utils/filelinkblock/filelinkblock.cpp:257-305 | wherever a message is put it is the last of the queue |
| `Queue.Recover` | utils/filelinkblock/filelinkblock.cpp:85-209 | start-up repairs the last file and resumes behind its last whole block |
| `Queue.FileLinkBlock.constructor` | utils/filelinkblock/filelinkblock.cpp:20-54 | the queue opens on what a crash left, with the torn bytes still behind the last block and no other stale bytes |
| `BlockFormat.ReadBack` | utils/filelinkblock/filelinkblock.cpp:276-297 | every header field and the data of a block read back from its bytes |
| `BlockFormat.BlockStands` | utils/filelinkblock/filelinkblock.cpp:276-301 | every block of a file stands where the lengths of its predecessors put it, with consecutive ids |
| `QueueRepair.RepairTorn` | utils/filelinkblock/filelinkblock.cpp:126-203 | for whole blocks and a strict prefix of one more without a false image, the backward scan appends right behind the last whole block with the next id and never gives up |
| `QueueRepair.CheckAndRepair` | utils/filelinkblock/filelinkblock.cpp:117-203 | the scan appends behind the last aligned position of its window that has the magic word, a length that fits and both checksums of the data behind it; it starts the file over or gives up exactly when there is none; the write offset is within the file |
| `QueueRepair.AcceptsIff` | utils/filelinkblock/filelinkblock.cpp:143-187 | the test of a position, spelled out |
| `QueueRepair.RepairDamaged` | utils/filelinkblock/filelinkblock.cpp:117-203 | for whole blocks of which the last has other data than was written, so that a checksum differs, repair appends behind the block before it |
| `QueueRepair.LastByteChangesSum` | utils/filelinkblock/filelinkblock.cpp:180-187 | a changed last byte of the data always shows in the first checksum |
| `QueueRepair.TornRejected` | utils/filelinkblock/filelinkblock.cpp:143-165 | a block that is not all there is never accepted, also when only padding is missing |
| `QueueRepair.LastBlockInWindow` | utils/filelinkblock/filelinkblock.cpp:112-130 | the last whole block starts inside the two-block window |
| `QueueRepair.AppendsWithinFile` | utils/filelinkblock/filelinkblock.cpp:171-175 | the assertion woffset <= file size never fails |
| `QueueRepair.WholeAgainIff` | utils/filelinkblock/filelinkblock.cpp:171-178 | repair does not cut the torn bytes off: the file is whole after the next block exactly when that block covers them |
| `QueueRepair.ShortBlockLeavesStaleByte` | utils/filelinkblock/filelinkblock.cpp:171-178 | the failing case: a block of 40 bytes over 41 torn ones leaves one |
| `Delivery.DeliveredWithoutGap` | flexse/update_thread.cpp:56-177 | despite lost requests and lost OK replies, and roll backs that vanish or senders that restart while the sender does not stand beyond the next message, the applied messages are a contiguous run from the check point |
| `Delivery.ReliableIffGapFreeForever` | flexse/update_thread.cpp:73-99 | the guard is exact: whatever happens in a safe state, all continuations stay gap-free if and only if the event was within it |
| `Delivery.GapFreeForeverIffSafe` | flexse/update_thread.cpp:73-99 | a state delivers without a gap in all continuations exactly when a roll back is due or the sender is not ahead |
| `Delivery.HazardsIff` | ciqueue/sender/send_message.cpp:129-201 | after a roll back that vanishes although it was sent, or a sender restart, all continuations stay gap-free exactly when the sender does not stand beyond the next message |
| `Delivery.VanishedRollBackLoses` | flexse/update_thread.cpp:73-88 | the concrete loss |
| `Delivery.WithinThreeExchanges` | flexse/update_thread.cpp:71-168 | on a reliable channel the next message is applied within three exchanges; two do not always suffice |
| `Delivery.RunKeeps` | flexse/update_thread.cpp:56-177 | every reliable run keeps the protocol invariant |
| `Delivery.Receiver.Receive` | flexse/update_thread.cpp:71-168 | one turn of the receive loop in all its cases |
| `Delivery.Sender.OnReply` | ciqueue/sender/send_message.cpp:168-198 | exactly the messages up to the acknowledged one, or up to the position a roll back names, lie before the message the sender holds next; without a reply it keeps its message |
| `Delivery.RequestReply` | flexse/update_thread.cpp:71-168 | one exchange of the two programs is one step of the state machine |
| `Delivery.RankOfMessage` | flexse/update_thread.cpp:94-99 | positions and message numbers agree |
| `StructMask.SetThenGet` | utils/structmask/structmask.h:33-36 | set then get is the identity for values that fit, and the rest of the word is untouched |
| `StructMask.SetKeepsRestIff` | utils/structmask/structmask.h:33-36 | the rest of every word is untouched exactly when the bits that survive the shift fit the field |
| `StructMask.IncSaturates` | utils/structmask/structmask.h:7-15 | the increment is min(maximum, old + inc) as long as the 32-bit sum does not wrap |
| `StructMask.SaturatesIff` | utils/structmask/structmask.h:7-15 | for increments that fit, exactly then; only a 32-bit field can wrap |
| `StructMask.FullFieldWraps` | utils/structmask/structmask.h:7-15 | the failing increment: 1 and 0xFFFFFFFF in a field of 32 bits give 0 |
| `StructMask.OtherFieldKept` | utils/structmask/structmask.h:26-36 | fields on other bits keep their values |
| `StructMask.MergeTerm` | plugin/flexse/flexse_plugin.cpp:437-448 | the in-place merge adds every field, saturating below 32 bits and modulo 2^32 at 32, and mixes none |
| `StructMask.MergeTerms` | plugin/flexse/flexse_plugin.cpp:432-454 | merging any number of descriptions through it leaves in every field min(maximum, sum over all descriptions), in a field of 32 bits the sum modulo 2^32 |
| `StructMask.TotalSaturatesIff` | plugin/flexse/flexse_plugin.cpp:432-454 | a field ends as the saturated sum exactly when it is narrower than 32 bits, or the sum stays in a word, or wraps to the maximum by chance |
| `StructMask.MergeOrderIsIrrelevant` | plugin/flexse/flexse_plugin.cpp:432-454 | the sum of a field is the same for every order of the descriptions, so neither the order nor the choice of the first one matters |
| `StructMask.Build` | utils/structmask/structmask.h:52-78 | the constructor: exactly good configurations of at most 2048 words are accepted, and each field is kept where the fields before it end, with offset and word count cut to ten bits |
| `StructMask.ConfigurableIff` | utils/structmask/structmask.h:52-78 | the good configurations are exactly those put together from 1 to 2048 words of 32 bits, with fields of at least one bit and distinct names of 1 to 100 characters |
| `StructMask.BuiltLayoutIff` | utils/structmask/structmask.h:52-58 | accepted fields as they are kept lie inside their words and apart from each other, and where they were computed, if and only if there are at most 1024 words |
| `StructMask.ListAccessIff` | utils/structmask/structmask.h:17-31 | in lists of descriptions every field is looked for where it belongs if and only if there are fewer than 1024 words |
| `StructMask.LastOfManyOverwritesFirst` | utils/structmask/structmask.h:52-58 | the failing configuration: of 1025 fields of 32 bits, setting the last sets the first |

## Left out

- Sockets, epoll, logging, configuration files, the clients, monitors and the vendored libraries under `opensrc`.
- `weight_merge`, `or_merge`, `filter`, `field_partial_sort`, `group_count` and the word segmenter: their bodies are not part of this model.
- Data races between `get` and the block releases inside `set` of the posting list, which the code itself notes: every call is atomic here. An exception inside the merge loop leaves the write lock held in the code; the model ends with the exception.
- Clock decisions (dump hours, merge duration, dump interval) are free choices of the caller or of the run; so are the addresses and failures of malloc.
- IndexGroup.IndexGroup.SetPostingList: which terms meet a full memory index, and whether it is nearly full, are parameters, so the fill level of MEM0 is not tied to the posting list class; terms come in any order. The code asserts that a new MEM0 is never full for the term that caused the swap.
- IndexGroup.IndexGroup.DumpMem1: tiers are maps from terms to postings in this class; the rows, files and caches of the disk index are in the disk modules, connected by Merger.MergeRowsIsTierMerge.
- IndexGroup.IndexGroup.UpdateDayIndexer: a method of the class runs alone; interleavings, also between the check of MEM1 and the wait, are runs of the machine.
- TierDurability.CheckpointedMessagesSurviveACrash: needs the safe-capture condition on signalled dumps that SignalledCaptureIsSafeIff shows to be exact. File writes are atomic and durable once made; there is no model of missing fsync or of a second-index file written in part.
- MemBlocks.MemBlocks.AllocMem: sizes and addresses are unbounded numbers; the counter that limits log lines and the total of extra blocks are not kept.
- PostingList.PostingList.Set: keys are numbers and cells byte sequences of the configured size; the statistics of the constructor are not kept.
- FileBlock.FileBlock.Set: the file number MAX_FILE_NO, which the guard admits although the descriptor table ends before it, is excluded; after a write behind the end of the array the flat array is not followed further. Offsets do not wrap at 32 bits, and positions inside a file are counted in cells instead of bytes.
- FileBlock.FileBlock.GetRange: the read buffer is an array of cells; the null check of the buffer is not modelled.
- DiskIndexer.DiskIndexer.GetPostingList: nothing is said of a row in the 33rd diskv file or later; DiskV.Set says when its position still names it.
- DiskIndexer.DiskIndexer.SetPostingList: after ids with gaps, or a second key that does not ascend, the index is not followed further.
- DiskIndexer.DiskIndexer.constructor: files whose second index ends at the last entry but is not their sample are kept by the code; what is read from them is not stated. An index closed with nothing in it is not followed further.
- Merger.Merger: a source is its rows and a position; the memory and disk iterators behind it are connected by MemoryReadIsTake and DiskReadIsWhole.
- Document attributes: slot 0 of the attribute list serves as scratch for new documents, and attribute bits are not part of the model.
- Documents.Documents.Add: the index is the log of accepted messages, and a failed hand-over to it is not modelled; each message is atomic with respect to queries.
- Documents.Documents.Filter: ids come from the index, so they are below the id limit; the reading of bits beyond a bitmap is excluded.
- Queue.FileLinkBlock.ReadMessage: what a read returns from the rest of a torn block that was partly overwritten depends on the message bytes left there and is not stated. A reader that hangs on missing bytes does not go on when they are written. The three polls before a file change and the sleeps are one step; writer and reader never overlap.
- QueueRepair.RepairTorn: assumes that no position other than a block start passes magic word, length and checksums, which the format cannot exclude. Header words past the end of the scanned buffer, which the code reads, are rejected by the length test whatever they hold.
- The saved reader offset and `seek_message()` without arguments.
- Delivery.DeliveredWithoutGap: no stale requests on old connections; messages that do not parse or are not subscribed do not count; a handler that fails has no effect.
- StructMask.SetThenGet: words are numbers and the mask operations their arithmetic; the list variants of the macros differ only in the index of the word.
