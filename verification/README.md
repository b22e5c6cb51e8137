# TomCatDB in Dafny

TomCatDB is a small LSM-tree store. Writes go to a memory table (a skip list of encoded entries); a
full table is swapped for a new one and written out as an SST file of level 0; compactions merge files
of one level into the next. This project models the in-memory algorithms and the file formats of the
store and proves what they promise.

An entry is a key, an id, an operation and a value. A file is a sequence of bytes, or, above the
coding layer, the list of its data blocks. The modules, bottom up:

- `Arithmetic`, `Bytes`, `Lists`, `Sorted`: facts the others share.
- `VarintGroups`, `Varint`, `InternalEntry`, `Order`: the coding of entries and the comparators, on bytes.
- `SkipList`, `MemTable`: the skip list with its nodes in the heap, and the table as a last-write-wins map.
- `RWLock`, `TableSwap`: the writer-priority lock, and concurrent `Insert` calls that swap a full
  table, as steps of any number of threads.
- `DualList`, `LRUCache`: the doubly linked list with dummy ends, and the cache as a recency list.
- `Allocator`, `MergeOutput`, `MergeRuns`, `Merge`: the reference-counted pool, what a merge writes as a
  fold and in terms of bytes, and the k-way merge over lazily loaded blocks that refines it.
- `Writer`, `Bloom`, `SST`, `Lookup`, `LevelSearch`: writing, indexing, filtering and searching SST files,
  down to their bytes.
- `Tools`, `ManifestFormat`: in-place removal, splitting, and the manifest text.
- `Levels`, `Compaction`, `CompactionLaws`, `LevelExamples`: one compaction step and what it keeps.
- `Runs`, `Database`, `LostEntry`: all runs of tables written and compactions, the cascade of background
  compactions, and a run that loses an entry.

`dafny verify dfyconfig.toml` checks everything.

## What the code does differently from what it says

The model follows the code. Where that breaks a promise, a lemma shows the input or the exact condition.

- Eight-byte varints do not read back unless the next byte is 0: `DecodeVarint64` reads a ninth byte
  without testing the eighth (`Varint.VarintRoundTrip`). Entries are therefore coded correctly for key and
  value sizes below 2^49 (`InternalEntry.Encodable`).
- The order on keys compares signed bytes, so bytes from 0x80 on come first; a key size of zero, that is an
  empty key, counts as infinite (`Order`).
- The last link of the skip list's head is never initialised; `SkipList.Insert` asks that the list does
  not grow to it.
- `MemAllocator::Allocate` counts a small request on the last block although the memory may be in an
  older one (`Allocator.MiscountedBlock`). With the merge allocator's block size of 0 it does not
  happen, which is what `Merge` relies on.
- A merge with an entry of the file limit or more flushes an empty buffer, and then reads the first entry
  of an empty set; this is the one `Error` of `Merge.IterMerge`.
- A compaction whose range falls between two files of the next level, overlapping none, pushes the new
  files to the back, behind larger ones (`CompactionLaws.CompactionKeepsOrder`, `LevelExamples.MiddleGap`).
- At level 0 the range is not widened by the other files that are taken along, so level 1 may end up out of
  order (`CompactionLaws.LevelZeroKeepsOrder`, `LevelExamples.LevelZeroRange`). Once a level is out of
  order, a later compaction may drop files it has not merged, and a search may stop before the file with
  the key. `CompactionLaws.NewestSurvives` and `LevelSearch.SearchLevel` say exactly when,
  `LevelExamples.KeyNotFound` shows an input, and `LostEntry.EntryIsLost` a run from the empty database
  in which an entry is lost.
- `TCDB::Insert` returns from inside the write lock when the last compaction failed. From then on, and
  only then, the other calls can no longer return (`TableSwap.CallsReturnUnlessFailed`).
- Level 0 is searched from its oldest file on, so a key in two of its files is read with an older value
  (`LevelSearch.OldestFileAnswers`, `LevelSearch.StaleRead`).
- A table whose compaction fails is never written (`Database.MVCCWriteLevel0`).

## Model

| member | source | states |
|---|---|---|
| `Varint.UnrolledIsBase128` | src/coding/varint.cc:112-183 | for every 64-bit value the ten hand-written branches write exactly the Base 128 Varint |
| `Varint.EncodeVarint64` | src/coding/varint.cc:112-183 | writes the varint at the given place, leaves all other memory alone and returns the end |
| `Varint.SizeOfValue` | include/coding/varint.h:38-46 | the size computed from a value is the number of bytes written for it |
| `Varint.VarintLength` | include/coding/varint.h:32-36 | the position of the first byte without the continuation bit; all bytes before it have it |
| `Varint.SizeOfBytes` | include/coding/varint.h:32-36 | the size found by scanning memory is the position of the first byte without the continuation bit |
| `Varint.Base128Terminates` | include/coding/varint.h:32-46 | in memory that starts with a varint, the scan finds its length whatever follows: both size functions agree |
| `Varint.ReadVarint64` | src/coding/varint.cc:36-81 | the decoder, writing the memory of its result byte by byte, returns the decoded value |
| `Varint.DecodeAfterEncode` | src/coding/varint.cc:36-81 | what DecodeVarint64 returns for the encoding of any 64-bit value, with any bytes behind it: the value, except that for eight-byte encodings the top byte of the result is the byte that follows |
| `Varint.EightBytes` | src/coding/varint.cc:71-78 | an encoding has eight bytes exactly for values from 2^49 to 2^56 |
| `Varint.VarintRoundTrip` | src/coding/varint.cc:36-81 | decoding returns the value if and only if it is below 2^49, or at least 2^56, or the next byte in memory is 0 |
| `InternalEntry.EncodeInternal` | src/coding/internal_entry.cc:3-27 | writes exactly the encoding of the entry, and nothing behind it |
| `InternalEntry.EntryRoundTrip` | src/coding/internal_entry.cc:29-73 | for sizes below 2^49 and 64-bit ids: op type, key, id and, for insertions, value read back from the encoding, and EntryData is exactly the encoding, whatever follows it in memory |
| `InternalEntry.Samples` | src/coding/internal_entry.cc:3-27 | the bytes of every insertion with one byte of key and of value and an id below 128, and of every such deletion |
| `InternalEntry.LongKeysAreLost` | src/coding/internal_entry.cc:29-45 | the limit of 2^49 on sizes is sharp: the size of a key of 2^49 bytes or more, below 2^56, does not read back unless the key starts with a zero byte |
| `InternalEntry.ParseBlock` | src/io/io.cc:430-434 | on any concatenation of encoded entries, repeated EntryData finds exactly those entries and stops |
| `InternalEntry.EncodedAllInjective` | src/coding/internal_entry.cc:60-73 | two lists of entries with the same bytes are the same list: parsing is unique |
| `Order.LessIsStrictOrder` | src/util/comparator.cc:79-151 | the order on (key, id) is irreflexive, asymmetric, transitive and total |
| `Order.LessEqMeaning` | src/util/comparator.cc:79-141 | "less or equal" is "less, or the same key and id" |
| `Order.CharOrder` | src/util/comparator.cc:105 | the values compared are the bytes as signed chars: with the sign bit flipped they compare as unsigned numbers |
| `Order.KeyLessIsBefore` | src/util/comparator.cc:90-108 | a key is smaller exactly when at the first difference it has the smaller signed char, or ends there: in terms of bits |
| `Order.LessIsBefore` | src/util/comparator.cc:79-141 | and entries are ordered by that, then by id |
| `Order.KeyTrichotomy` | src/util/comparator.cc:175-229 | the lexicographic key order on signed bytes is total |
| `Order.KeyTransitive` | src/util/comparator.cc:175-229 | and transitive |
| `Order.KeyOrderAt` | src/util/comparator.cc:90-108 | where two keys first differ the signed chars there, compared as bits, decide their order; if they do not, their lengths do |
| `Order.GreaterOrEquals` | src/util/comparator.cc:79-109 | on bytes of two entries with non-empty keys: true exactly if the first does not come before the second, by the signed chars at the first difference, then by id; an empty key counts as infinite |
| `Order.LessOrEquals` | src/util/comparator.cc:111-141 | the same for "less or equal" |
| `Order.Greater` | src/util/comparator.cc:143-146 | the exact strict part, on non-empty keys |
| `Order.Smaller` | src/util/comparator.cc:148-151 | InternalEntryComparator::Less: the other strict part |
| `Order.Equal` | src/util/comparator.cc:153-173 | true exactly for equal keys, whatever the ids |
| `Order.QueryGreaterOrEquals` | src/util/comparator.cc:175-200 | the key-only projection of the order |
| `Order.QueryLessOrEquals` | src/util/comparator.cc:202-229 | the key-only projection of the order |
| `Order.QueryGreater` | src/util/comparator.cc:143-146 | the inherited Greater with the overridden LessOrEquals: the strict key order |
| `Sorted.RankSplits` | include/table/skiplist.h:178-188 | in a sorted list, exactly the entries before the rank of a key are smaller than it |
| `Sorted.InsertKeepsSorted` | include/table/skiplist.h:190-217 | inserting at the rank keeps the list sorted and adds exactly the entry |
| `Sorted.InsertAllSorts` | include/table/skiplist.h:190-230 | after any sequence of insertions the list is sorted and holds exactly the inserted entries |
| `SkipList.LevelIsSublist` | include/table/skiplist.h:208-213 | level i + 1 is the sublist of level i of the taller nodes |
| `SkipList.LevelSplits` | include/table/skiplist.h:178-188 | the search splits every level into the nodes smaller than the key and the others |
| `SkipList.NewLevel` | include/table/skiplist.h:208-213 | every level of the list with a new node, in terms of the two parts the search found |
| `SkipList.LinkLevels` | include/table/skiplist.h:210-213 | the linking loop: every level up to that of the new node is chained through it, the others as before |
| `SkipList.SkipList.constructor` | include/table/skiplist.h:111-125 | an empty list whose levels all run from head to tail |
| `SkipList.SkipList.Step` | include/table/skiplist.h:181-184 | one step right on a level: it goes on exactly while the next node is smaller than the key |
| `SkipList.SkipList.Search` | include/table/skiplist.h:178-188 | last_node_ holds, for every level in use, the last node smaller than the key |
| `SkipList.SkipList.ChooseLevel` | include/table/skiplist.h:202-206 | the random level, or, if it is above all levels in use, one level more than these, which is opened with head as its last node |
| `SkipList.SkipList.Insert` | include/table/skiplist.h:190-217 | for every level choice below the last link of head: all levels stay chained, the new node has the chosen number of levels, and the entries are the old ones with the new one inserted in order |
| `SkipList.SkipList.Get` | include/table/skiplist.h:147-175 | the node just before the rank of the query, if it has the same key, otherwise null |
| `SkipList.SkipList.EntrySet` | include/table/skiplist.h:220-230 | exactly the sorted inserted entries |
| `MemTable.LatestDecides` | src/table/db_table.cc:21-49 | the newest entry of a key decides what a last-write-wins map with tombstones holds for it |
| `MemTable.PredecessorIsLatest` | include/table/skiplist.h:158-174 | the predecessor of (key, MAX id) is the newest entry of the key if there is one, and otherwise has another key |
| `MemTable.QueryIsLast` | src/table/db_table.cc:44-58 | the query, with the greatest 64-bit id, sorts behind every entry of its key |
| `MemTable.TCTable.constructor` | src/table/db_table.cc:3-14 | an empty table that starts at the given id |
| `MemTable.TCTable.Insert` | src/table/db_table.cc:67-87 | appends an insertion with the next id to the log the table stands for |
| `MemTable.TCTable.Delete` | src/table/db_table.cc:107-125 | appends a tombstone with the next id |
| `MemTable.TCTable.Get` | src/table/db_table.cc:21-65 | returns exactly what the last-write-wins map of all writes so far holds for the key |
| `MemTable.TCTable.ContainsKey` | src/table/db_table.cc:127-153 | true exactly when that map holds the key |
| `RWLock.StepKeepsInv` | src/util/lock_util.cc:3-54 | every step of every thread keeps the invariant of the lock |
| `RWLock.RunKeepsInv` | src/util/lock_util.cc:3-54 | hence every run does |
| `RWLock.MutualExclusion` | src/util/lock_util.cc:3-54 | in every reachable state, for any number of threads, a writer that holds or has been granted the lock excludes all other writers and all readers |
| `RWLock.NoDeadlock` | src/util/lock_util.cc:3-54 | in every reachable state in which a thread is blocked, some thread is inside or has been granted the lock |
| `RWLock.WriterIsServed` | src/util/lock_util.cc:11-28 | in every reachable state with writers counted and no reader inside, some writer holds or has been granted the lock: no notification is lost |
| `RWLock.ReaderEnters` | src/util/lock_util.cc:3-9 | a thread that asks for the read lock, or is woken and asks again, gets it if and only if no thread waits for the write lock, has been granted it or holds it |
| `RWLock.WriterEnters` | src/util/lock_util.cc:19-28 | a thread that asks for the write lock gets it at once if and only if no other thread wants it and no reader is inside |
| `RWLock.ReaderLeaves` | src/util/lock_util.cc:11-17 | a reader that leaves wakes one waiting writer if it was the last reader, and nobody else |
| `RWLock.WriterLeaves` | src/util/lock_util.cc:46-54 | a writer that leaves wakes one waiting writer, or, if there is none, all waiting readers |
| `RWLock.NoReaderPasses` | src/util/lock_util.cc:3-28 | writer priority: while a writer waits, has been granted the lock or holds it, no step turns a thread into a reader |
| `RWLock.ReadersOnlyLeave` | src/util/lock_util.cc:3-54 | along every run from a reachable state with a writer there throughout, every reader at the end was one at the start |
| `RWLock.ReadWriteLock.ReadLock` | src/util/lock_util.cc:3-9 | one critical section: the step of the state machine, on the counters |
| `RWLock.ReadWriteLock.ReadUnlock` | src/util/lock_util.cc:11-17 | the same, waking at most one writer |
| `RWLock.ReadWriteLock.WriteLock` | src/util/lock_util.cc:19-28 | the same for the default mode, which waits once |
| `RWLock.ReadWriteLock.WriteUnlock` | src/util/lock_util.cc:46-54 | the same, waking all readers or one writer |
| `TableSwap.StepKeepsInv` | src/table/db.cc:97-152 | every step of concurrent Insert calls (checks, lock steps, swap, failed compaction, allocation, id, linking) keeps the invariant |
| `TableSwap.RunKeepsInv` | src/table/db.cc:97-152 | hence every run from a fresh database does |
| `TableSwap.OlderIdsAreSmaller` | src/table/db.cc:121-137 | in every reachable state, every id linked into an older table is smaller than every id linked into a newer one |
| `TableSwap.SwappedTableIsComplete` | src/table/db.cc:110-149 | in every reachable state, a table that has been swapped out already holds every id it handed out |
| `TableSwap.SwappedTableIsFrozen` | src/table/db.cc:110-149 | along every run from such a state, no step changes a swapped-out table |
| `TableSwap.SmallestEntry` | src/table/db_table.cc:69-71 | every insertion takes 11 bytes or more, and one takes no more |
| `TableSwap.OnlyFullTablesAreSwapped` | src/table/db.cc:110-139 | in every reachable state: every table but the current one uses the limit or more; a thread that has made the second check leaves a current table below the limit; one that has failed has a full one before it, and an older table |
| `TableSwap.LinkKeepsInv` | src/table/db_table.cc:78-84 | an entry is only ever linked into the current table |
| `TableSwap.CallsReturnUnlessFailed` | src/table/db.cc:97-152 | in every reachable state, the calls under way can all still return in some continuation of the run if and only if no thread has returned the error of a failed compaction from inside the write lock, or no call is under way |
| `TableSwap.SomeThreadMoves` | src/table/db.cc:97-152 | without such a failure, while a call is under way some thread can take a step that brings its call nearer to its end and no other further from it |
| `TableSwap.FailureIsReachable` | src/table/db.cc:97-152 | a run of one thread from a fresh database to that failure: 512 insertions of 4000 bytes fill a table, it is swapped, 512 more fill the next |
| `TableSwap.StuckForGood` | src/table/db.cc:117-120 | after it every other call, under way already or made later, stays at the same point of Insert along every run: the write lock is never released |
| `TableSwap.FailureStopsInserts` | src/table/db.cc:117-120 | after it no table changes any more, along any run |
| `Allocator.MemAllocator.constructor` | include/util/mem_allocator.h:68-72 | one block of the default size with no reference |
| `Allocator.MemAllocator.Allocate` | src/util/mem_allocator.cc:10-41 | hands out memory disjoint from all other memory handed out and inside its block; which counter is raised in each case; the counter of the returned memory's block is the one raised if and only if the request is not served from a block that is no longer the last |
| `Allocator.MemAllocator.AllocateFullBlock` | src/util/mem_allocator.cc:36-41 | a new block with one reference |
| `Allocator.MemAllocator.AllocateNewBlock` | src/util/mem_allocator.cc:29-34 | a new block of the default size that becomes the current one; what was left of the old one is wasted |
| `Allocator.UsageGrows` | include/util/mem_allocator.h:47-50 | a new pool uses nothing; a small request raises MemUsage by its size and what it wastes of the current block, a large one by one block |
| `Allocator.MemAllocator.Unref` | src/util/mem_allocator.cc:53-58 | lowers one counter, or none for an unknown block |
| `Allocator.MemAllocator.RefLast` | include/util/mem_allocator.h:42 | raises the counter of the last block |
| `Allocator.MemAllocator.ReleaseIdleSpace` | src/util/mem_allocator.cc:60-67 | frees exactly the blocks whose counter is zero |
| `Allocator.MiscountedBlock` | src/util/mem_allocator.cc:19-25 | an input on which the miscount frees memory in use: 3000 bytes, then 10 |
| `MergeOutput.FoldCorrect` | src/table/db.cc:606-639 | on strictly increasing entries below the file limit: closed files and buffer are well-formed, stay under the limit, hold only input entries, and every input entry or a newer one of its key is in them |
| `MergeOutput.FinishIsMerge` | src/table/db.cc:606-689 | the files a merge writes: each non-empty, with increasing keys and under the limit; together strictly increasing in (key, id), made of input entries, losing no key's newest entry |
| `MergeOutput.NewestIsKept` | src/table/db.cc:610-622 | the greatest-id entry of every key is in the output |
| `MergeRuns.SizeIsBytes` | src/table/db.cc:606-610 | the sizes that are added up are the lengths of the bytes of the entries |
| `MergeRuns.FilesAreRuns` | src/table/db.cc:606-689 | which entries go into which file: the input is cut into runs of less than 2 MB, each as long as the next entry allows; a file has the last entry of every key of its run, and so less than 2 MB of bytes |
| `MergeOutput.OutputStarts` | src/table/db.cc:606-639 | the output starts with the last entry of the first key up to which the sizes of its entries, replaced ones included, stay below the file limit |
| `Merge.TopIsMinimal` | src/table/db.cc:600-605 | the top of the queue is at most every queued entry |
| `Merge.PopStep` | src/table/db.cc:606-655 | a pop keeps counters, conservation and order of the merge |
| `Merge.LoadStep` | src/table/db.cc:655-673 | reading the next block of a file whose last queued entry was popped restores the lazy-load invariant |
| `Merge.LoadBlock` | src/io/io.cc:421-445 | one pool block per data block, as large as its bytes, with one reference for each of its entries |
| `Merge.WriteMergeFile` | src/io/io.cc:118-136 | writes the buffered entries while their blocks are live, and only then frees the blocks without references |
| `Merge.Emit` | src/table/db.cc:625-640 | the output buffer after an entry, with the references of what it replaces dropped |
| `Merge.Advance` | src/table/db.cc:640-673 | pops, and loads the next block when, and only when, the file has no entry queued; every queued or buffered entry still has its block referenced and live |
| `Merge.IterMerge` | src/table/db.cc:591-689 | with lazily loaded blocks: terminates, succeeds if and only if every entry has less than 2 MB, writes the runs of the sorted input, each file with less than 2 MB, and frees every pool block |
| `Merge.MultiwayMerge` | src/table/db.cc:522-588 | the same from the first blocks on, for any sorted files |
| `Merge.UniqueInputIsMerged` | src/table/db.cc:522-689 | with distinct (key, id) pairs the order is strict, so the output is a merge of the input |
| `DualList.Cut` | include/util/dual_list.h:42-44 | unlinks a node: the others stay linked both ways and keep their data |
| `DualList.LinkFirst` | include/util/dual_list.h:46-50 | links a node behind the dummy head |
| `DualList.DualList.MoveFront` | include/util/dual_list.h:39-51 | the list stays linked both ways; the node and its record are first, the others keep their order |
| `DualList.DualList.PushFront` | include/util/dual_list.h:53-66 | a new node with the record is first, the others follow unchanged |
| `DualList.DualList.PopBack` | include/util/dual_list.h:68-76 | the last record is gone, the others are unchanged |
| `LRUCache.RecentIsByLastUse` | include/table/cache.h:74-104 | the recency list of a history: exactly the latest use of every key, ordered by when that was, no key twice |
| `LRUCache.TakeUse` | include/table/cache.h:90-104 | a bounded cache that is used next holds what the unbounded one would hold first: eviction forgets nothing it still needs |
| `LRUCache.LRUCache.constructor` | include/table/cache.h:66-72 | an empty cache |
| `LRUCache.LRUCache.Bounded` | include/table/cache.h:90-104 | in every state: the cache holds the first records of the recency list, as many as the capacity or all of them; no key twice, and the index finds exactly the keys in the list |
| `LRUCache.LRUCache.Get` | include/table/cache.h:74-85 | hits exactly the keys held, returns the value of the latest use of the key and counts as a use; index and list stay in bijection and the contents are the most recently used records |
| `LRUCache.LRUCache.Insert` | include/table/cache.h:87-104 | is a use of the record; the contents are the most recently used records of the whole history, as many as the capacity allows |
| `Writer.SequentialWriter.AppendToBuffer` | src/io/writer.cc:11-22 | buffers as much as fits and says how much |
| `Writer.SequentialWriter.WriteAppendFile` | src/io/writer.cc:59-86 | appends the buffer to the file in any number of partial writes, and empties it |
| `Writer.SequentialWriter.WriteBatch` | src/io/writer.cc:104-127 | terminates having appended what was buffered and then exactly the entries, in order, however large; nothing stays buffered |
| `Writer.SequentialWriter.WriteFragment` | src/io/writer.cc:137-151 | appends exactly the fragment; what was buffered before is dropped |
| `SST.WriteSSTData` | src/io/io.cc:652-696 | writes all entries in order; the offsets are where the blocks of a partition start: consecutive non-empty blocks, each closed by the entry that takes it over 4096 bytes; the data size is the sum of the entry sizes (as 32-bit numbers) |
| `SST.BlocksAreCut` | src/io/io.cc:661-677 | every block but the last has more than 4096 bytes, and no block has without its last entry |
| `SST.U32IsRemainder` | src/io/io.cc:652-696 | 32-bit numbers wrap around modulo 2^32 |
| `SST.WordsRoundTrip` | src/io/io.cc:698-715 | every 32-bit word of an index or footer reads back |
| `SST.FooterRoundTrip` | src/io/io.cc:255-292 | the six words of the footer, in their order, read back |
| `SST.WriteSSTIndex` | src/io/io.cc:698-715 | the block count, then the offsets |
| `SST.WriteSSTFile` | src/io/io.cc:603-650 | the file is data, index, filter and footer for any amount of data; the footer fields wrap around at 32 bits, and in a file below 4 GB they say where everything is |
| `SST.ReadSSTFooter` | src/io/io.cc:255-292 | returns the footer that was written, and the first and the last entry |
| `SST.ReadSSTFlexible` | src/io/io.cc:341-362 | returns the filter that was written |
| `SST.ReadSSTIndex` | src/io/io.cc:364-394 | returns the offsets that were written |
| `SST.BlockAt` | src/io/io.cc:375-387 | block i of the partition is what is between offsets i and i + 1, with the data size pushed behind them |
| `SST.DataRoundTrip` | src/io/io.cc:375-434 | the blocks read back one after the other are non-empty, whole and together the original list of entries |
| `SST.ReadSSTDataBlock` | src/io/io.cc:396-434 | parses a block into exactly its entries |
| `Bloom.SetBit` | src/coding/filter.cc:41-43 | setting a bit sets that bit and no other |
| `Bloom.MaskValues` | src/coding/filter.cc:41-43 | bit k of a byte is the k-th from the top |
| `Bloom.BitNumber` | src/coding/filter.cc:41-43 | a hash value selects the bit with its number, counted around the filter, the bits of each byte from the top |
| `Bloom.CreateFilter` | src/coding/filter.cc:23-47 | for any hash function, seeds and positive length: exactly the bits whose number is the hash value of some key and seed, modulo the number of bits, are set |
| `Bloom.SelectedByNumber` | src/coding/filter.cc:41-43 | a bit is selected if and only if the hash value of some key and seed is its number, modulo the number of bits |
| `Bloom.ContainsKey` | src/coding/filter.cc:49-64 | true exactly when all bits of the key are set |
| `Bloom.NoFalseNegatives` | src/coding/filter.cc:23-64 | a key passes exactly when each of its bits was selected by some key; so every key of the file passes |
| `Lookup.AnswerIsScan` | src/table/db.cc:751-810 | with unique keys, the correct answer is that of a linear scan |
| `Lookup.ScanBlock` | src/table/db.cc:777-786 | in a block the first entry of the key is returned |
| `Lookup.Narrow` | src/table/db.cc:796-803 | when the middle block does not hold the key, no block on the abandoned side does |
| `Lookup.GetFromSST` | src/table/db.cc:751-810 | on the bytes of any sorted file: returns the encoding of an entry with the key if and only if the file holds one, the first of the key in its block, after at most as many block reads as their number can be halved |
| `Lookup.GetFromSSTv2` | src/table/db.cc:812-869 | the same for the search over all entries |
| `LevelSearch.AbsentLater` | src/table/db.cc:733-747 | in a sorted level, a key that a file covers but does not hold is in no later file |
| `LevelSearch.SortedFirstDecides` | src/table/db.cc:733-747 | in a sorted level the first file that covers the key holds it, or no file does |
| `LevelSearch.SearchLevel` | src/table/db.cc:691-749 | in any level: what it returns is an entry of the key from the first file that holds it, and its answer is right exactly for level 0, or when the first file that covers the key holds it or no file of the level does |
| `LevelSearch.OldestFileAnswers` | src/table/db.cc:706-728 | the entry found in level 0 is the newest of its key there if and only if it is the newest in its file and no later file holds the key |
| `LevelSearch.StaleRead` | src/table/db.cc:706-728 | an input: a key written to two files of level 0 is read with its older value |
| `Tools.Remove` | include/util/tools.h:26-50 | keeps exactly the elements whose subscripts are not listed, in order, shifting them in place |
| `Tools.RearrangeFiles` | src/util/tools.cc:18-58 | replaces the range by the new files; refuses exactly an empty range inside the list |
| `Tools.Split` | src/util/tools.cc:5-16 | the parts between separators; an empty last part is dropped |
| `Tools.PiecesOfEnded` | src/util/tools.cc:5-16 | splitting parts that were each ended by the separator gives them back |
| `Tools.PiecesOfJoined` | src/util/tools.cc:5-16 | so does splitting without the last separator, if the last part is not empty |
| `Tools.PiecesOfOpenEnded` | src/util/tools.cc:5-16 | an empty last part is lost |
| `ManifestFormat.Encode` | src/coding/format.cc:19-35 | the text of the manifest |
| `ManifestFormat.Decode` | src/coding/format.cc:3-17 | the manifest of a text of at least two lines |
| `ManifestFormat.DecodeAfterEncode` | src/coding/format.cc:3-35 | without separators in its strings, a manifest comes back but for an empty last name in a level |
| `ManifestFormat.ManifestRoundTrip` | src/coding/format.cc:3-35 | decoding gives the manifest back if and only if no path has a newline, no file name a newline or a semicolon, and no level ends with an empty name |
| `ManifestFormat.EncodedInjective` | src/coding/format.cc:19-35 | no two such manifests have the same text |
| `ManifestFormat.Sample` | src/coding/format.cc:19-35 | the text of a small manifest |
| `Levels.GroupBoundary` | src/table/db.cc:408-427 | the smallest first and the greatest last entry of a group of files |
| `Levels.LevelZeroOverlaps` | src/table/db.cc:434-465 | the positions of the other level 0 files that overlap the group, in order |
| `Levels.OverlapsMeaning` | src/table/db.cc:453-456 | a sorted file does not overlap a range exactly if all its entries come before it or all come behind it |
| `Levels.SelectedMember` | src/table/db.cc:434-465 | they are exactly the positions behind the group whose files overlap its range |
| `Levels.ScanNext` | src/table/db.cc:467-506 | the files of the next level the scan selects, and where it says the new files go |
| `Levels.RangeHoldsSelected` | src/io/io.cc:160-180 | in any level, the replaced range starts at the first selected file and ends behind the last |
| `Levels.SkippedMember` | src/io/io.cc:160-180 | the files in that range that are not selected are exactly those below the range of the group |
| `Levels.RangeIsCut` | src/table/db.cc:480-505 | in a sorted level the scan selects exactly the interval of files that overlap the range; without any, the new files go to the front, or to the back although larger files may be there |
| `Levels.NewLevelSorted` | src/table/db.cc:467-506 | new files in the range of the group keep the next level sorted if and only if the range does not fall between two of its files |
| `Levels.WideRangeSorted` | src/table/db.cc:429-464 | new files that reach to the end of a range keep the level sorted if and only if the files around them are clear of the range from their first entry to that end |
| `LevelExamples.MiddleGap` | src/table/db.cc:490-494 | an input on which the new file is pushed behind a larger one |
| `LevelExamples.LevelZeroRange` | src/table/db.cc:434-464 | an input on which a level 0 file that is taken along reaches past the group and past a file of level 1 |
| `LevelExamples.LevelZeroUnsorted` | src/table/db.cc:434-520 | the merge of that input is put before that file, and level 1 is out of order |
| `LevelExamples.DroppedFile` | src/table/db.cc:480-505 | how a file gets between two selected ones: it is pushed to the back, another behind it, and a range selects its neighbours |
| `LostEntry.EntryIsLost` | src/table/db.cc:209-520 | a run from the empty database, with tables written when level 0 has room and its first file compacted when it has not, that ends without the newest entry of a key it has written |
| `LevelExamples.KeyNotFound` | src/table/db.cc:733-747 | in the level left by the level 0 merge, the search for a key of the file behind stops at the first file |
| `Compaction.MergeFiles` | src/table/db.cc:508-516 | succeeds if and only if all entries have less than 2 MB; writes the merge of the files under fresh names, each with less than 2 MB of entries, and changes no other file |
| `Compaction.UpdateManifest` | src/io/io.cc:138-192 | never fails; the manifest without the removed files and with the new files in place of the selected range, a level added if needed |
| `CompactionLaws.MergedIsPart` | src/table/db.cc:382-506 | what a compaction merges are distinct entries of the database |
| `CompactionLaws.NewFiles` | src/table/db.cc:508-520 | the new files are a merge of what was merged, hold no other entry, and follow each other in order |
| `CompactionLaws.CompactedIsPart` | src/io/io.cc:138-192 | a compaction adds no entry to the database, whatever the order of its files |
| `CompactionLaws.CompactedIsValid` | src/io/io.cc:138-192 | and leaves it valid: all files sorted and on disk, no (key, id) stored twice |
| `CompactionLaws.NewestSurvives` | src/table/db.cc:382-520 | for any levels: the greatest-id entry of a key of the whole database survives a compaction if and only if it is not in a file of the replaced range that was skipped by the scan |
| `CompactionLaws.SortedDropsNothing` | src/io/io.cc:160-180 | with the next level sorted there is no such file |
| `CompactionLaws.WhatIsReplaced` | src/io/io.cc:138-192 | between sorted levels exactly the merged files leave the manifest, and the new ones take the place of the overlapping ones |
| `CompactionLaws.CompactionKeepsOrder` | src/table/db.cc:382-520 | from a source level of at least 1, both levels sorted: the source level stays sorted, and the next level does if and only if the group does not fall between two of its files |
| `CompactionLaws.LevelZeroKeepsOrder` | src/table/db.cc:429-520 | from level 0: level 1 stays sorted if and only if the files that stay in it are clear of the range from the first entry a merge of these entries writes to the last entry of the level 0 files taken |
| `CompactionLaws.LevelZeroIsClear` | src/table/db.cc:429-465 | a compaction from level 0 leaves no file there that overlaps the range of its group |
| `Database.Database.CompactSST` | src/table/db.cc:382-520 | performs such a compaction; fails, changing nothing, exactly when an entry to merge has 2 MB or more |
| `Database.Database.BackgroundCompact` | src/table/db.cc:240-273 | a cascade of compactions that terminates for every content; without error every level has fewer files than its limit; with all entries small the only other outcome is a cascade past the table of twelve limits |
| `Database.TurnOfCascade` | src/table/db.cc:246-267 | the compactions of a cascade: first one file of level 0; then always as many files of a level as leave it one below its limit, while all levels before it are below theirs |
| `Database.Limits` | include/table/db.h:23-33 | the limits: 4, 10, and then ten times as many from level to level, for twelve levels |
| `Database.Database.WriteLevel0File` | src/io/io.cc:35-59 | the entries of a memory table become the last file of level 0, which is created if needed |
| `Database.Database.MVCCWriteLevel0` | src/table/db.cc:209-238 | a cascade if and only if level 0 has four files, and then, if it did not fail, the table as a new file of level 0; its entries join what has been written exactly in that case |
| `Runs.FlushIsValid` | src/io/io.cc:35-59 | writing a table of new ids keeps the database valid and adds exactly its entries |
| `Runs.RunKeepsNewest` | src/table/db.cc:209-273 | over any run of flushes and compactions: the greatest-id entry ever written for a key is still there if and only if no compaction has dropped a file with it |
| `Runs.MoveKeepsOrder` | src/table/db.cc:382-520 | between sorted levels: a flush, and a compaction that finds its place in the next level, keep all levels below level 0 sorted; any other compaction leaves one out of order |
| `Runs.RunKeepsOrder` | src/table/db.cc:209-273 | over any run of flushes and compactions from sorted levels: the levels below level 0 are sorted in every state if and only if every compaction finds its place |
| `Runs.FittingRunLosesNothing` | src/table/db.cc:209-273 | then no key ever loses its newest entry |
| `CompactionLaws.OtherLevels` | src/io/io.cc:138-192 | the levels a compaction does not touch keep their contents |
| `Database.CompactedLowers` | src/table/db.cc:252-267 | a compaction of a prefix takes at least that many files out of the level and leaves all earlier levels alone |

## Left out

- System calls, descriptors, retries and directory setup: reads and writes succeed; `write` may be partial.
- MergeFiles: the files a failed merge has already written stay on disk under no manifest; the model forgets them.
- IterMerge: the running size is a number without the width of `int`; it stays below the file limit of 2^21 in the loop.
- IterMerge: the heap is a list whose top is a smallest element; which of two entries with the same key and id comes first is not modelled, and ids are distinct.
- IterMerge: `index_block_ptr` and the offset lists are read positions into the list of blocks; that the offsets find these blocks is `SST.DataRoundTrip`.
- ReadSSTFooter, ReadSSTIndex, ReadSSTFlexible, GetFromSST: read files below 4 GB, whose 32-bit offsets and footer fields are true.
- Insert: the skip list's random level is any number the head has an initialised link for; following the last, uninitialised link is undefined.
- ChooseLevel: the same bound on the random level.
- TCTable.Insert, Delete, Get, ContainsKey: keys are not empty, which include/util/comparator.h:73-74 asks of callers.
- EncodeVarint64: the bytes of the ten branches are a function of the value, written at a moving position; the walk of the data pointer over the value is not a loop of its own.
- SearchLevel: which block of a level 0 file answers, if several of its blocks hold the key, is not claimed.
- UsageGrows: `MemUsage` is a number without the width of `uint32_t`, which a table of 2 MB does not reach.
- WriteLevel0File: the entries of a table are any sorted list with new ids; how much memory the table used is part of `TableSwap` only.
- EntryIsLost: the tables of the run are short; that the store writes a table once it uses 2 MB is not part of the state on disk.
- Allocate: addresses are pairs of block and offset; exhaustion of memory is not modelled.
- LRUCache: the counter `size_` of the base class, which also grows on updates; the specialisation for `Sequence`, whose key comparison looks at the first byte only.
- ReadWriteLock: wake-ups without a notification, and the mode that waits with a predicate.
- DecodeVarint32, EncodeVarint32: not used on the modelled paths.
- The hash function and the floating-point size of the Bloom filter are parameters: any function, any positive length.
- Thread pools, version control of manifests, logging, configuration, the CSV reader, the deprecated writers and the non-filter SST path would add only easy members.
