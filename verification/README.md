# A verified model of ninedb

ninedb is a log-structured database of packed B-trees (PBT). Entries are buffered, flushed to immutable files and
merged level by level; every file is a B-ary tree packed bottom-up into one byte image. This project models the
storage format, the writer and reader, the merges, the level manager, the database over them, the spatial database,
its Hilbert curve, the skip list and the sampled cache, and proves that the offset arithmetic, the loops and the
bit tricks meet simple specifications. `dafny verify dfyconfig.toml` checks everything.

How the layers fit together:

- `Bytes`, `Structures`, `Packing`, `PackedShape`, `StoredFile`: the byte layout of nodes and footer, the image of an
  entry sequence, and what can be read back from it (`PbtImage` is the specification of a file, `IsFile` says that an
  image is one).
- `Writer` builds that image step by step in a storage; `Reader`, `PbtIterator` and `Traversal` answer from offsets in
  it. Their specification is the plain entry sequence; `TreeSearch` says where the descent ends on entries in any order.
- `FileSize` bounds the length of that image in closed form.
- `Merging` specifies both selection loops (writer merge and database iterator); `DbIterator` holds the objects.
- `Levels` and `Database` are the state machine over files; `Runs`, `RunBounds`, `RunSorted`, `EmptyKeyRun`, `RunOrder`,
  `RunFirst` and `NewerFirst` state what holds after whole runs. `LevelManager` and `KvDb` (with `ReaderMap`, `KvLinks`,
  `KvSteps`, `KvQueries`, `KvOpening`) are the objects that refine it: the directory is a map from file names to images,
  and every operation leaves readers and directory holding exactly the files of the level manager. `KvRun` performs any
  run on the object; `KvCrash` says what opening finds when the process ended inside a merge or while writing a file.
- `Words`, `Scan`, `HilbertCurve`, `Hilbert`: the transform on 32-bit words, the scan of any width it is an instance
  of, and the digit-by-digit automaton it computes; `WordNumber` states it on numbers. `HrDb` uses it for keys; the
  search relies on box unions only. `BoxSearch` says what a search finds in terms of points and sides, and which
  subtrees it looks at; `SpatialRun` performs any run of boxes on the object and searches.
- `SkipList` and `RlruCache` stand alone.

What the code does that its comments do not say:

- An empty key counts as "no minimum yet" in the writer merge, so the merge of sorted files is sorted only under the
  condition of `Merging.WrittenSortedIff`; `Merging.EmptyKeyExample` is the smallest failure. Over runs
  (`DbSorted.RunSortedIff`) this decides whether files stay sorted; when they do not, a lookup can miss a flushed key
  (`DbEmptyKey.FlushedKeyMissed`).
- A lookup does not always return the first value added: a cascade over two or more levels lists the newest files
  first (`DbOrder.CascadeKeepsFirst`, `DbNewerFirst.NewerValueFirst`). `DbFirst.FirstFlushedWinsIff` is the exact
  condition over runs.
- Seeking the database by position starts at the entry `at` that position only under the condition of
  `KvQueries.SeekIndexDelivers`; `KvQueries.SeekIndexExample` fails it.
- The database iterator reads the first of its file iterators even when there is none; `Begin`, `Seek` and `SeekIndex`
  therefore require a file.
- Without a reduction, a traversal looks into a file of more than one leaf only if the predicate accepts the empty
  string (`Traversal.UnreducedCollects`).
- A buffer whose entries are all without a byte is never flushed (`Database.BufferEmptied`).
- A process that ends inside a merge loses nothing, but leaves entries twice (`KvCrashes.CrashedMergeLoads`); one that
  ends while a file is being written leaves a directory that opening refuses (`KvCrashes.UnfinishedRefused`).
- A cache with one or two slots can evict the entry used last (`Caches.RecentEvicted`).

Preconditions and their sources: fan-out between 2 and 65535 (`WriterConfig.Allowed`; with 1 the count loop of the
writer never ends, and the child counter has 16 bits); sizes and positions inside 64 bits (`Packing.Fits`,
`KvLinks.Room`, which `KvRuns.RoomBySize` derives from the number and size of the entries); file names inside their
fields (`KvLinks.NamesLeft`, which `KvRuns.NamesOverRun` derives for runs); a level limit of at least 1, and 2 for the
level bound. `KvRuns.RunFits` and `SpatialRuns.EventsFit` collect what a caller checks before a whole run. No
operation requires sorted entries: what the searches promise on sorted ones is stated beside what they do on any.

## Model

| member | source | states |
|---|---|---|
| `Bytes.DecodeEncode` | src/ninedb/pbt/detail/format.hpp:32-70 | A stored little-endian integer is below its width and reads back as itself exactly when it fits the width. |
| `Structures.LeafReads` | src/ninedb/pbt/detail/structures.hpp:160-235 | Wherever a leaf image lies in a file, the offset-based readers return its entry count, its size and the key and value of every entry. |
| `Structures.InternalReads` | src/ninedb/pbt/detail/structures.hpp:310-440 | Wherever an intermediate node image lies in a file, the readers return for every child its right key, reduced value, entry start, offset and size, and the left key of the first. |
| `Structures.InternalReadsSize` | src/ninedb/pbt/detail/structures.hpp:336-352 | The size computed from the last record of a stored intermediate node is the length of its image. |
| `Structures.FooterRoundTrip` | src/ninedb/pbt/detail/structures.hpp:50-80 | A footer whose fields fit their widths reads back unchanged from the end of any file. |
| `Structures.NodeLeafBuilder.CountIs` | src/ninedb/pbt/detail/structures.hpp:120-129 | The 16-bit child counter equals the number of entries as long as there are fewer than 65536. |
| `Structures.NodeLeafBuilder.AddKeyValue` | src/ninedb/pbt/detail/structures.hpp:120-129 | Appends one entry to the node being built; the running sizes keep describing exactly the entries so far. |
| `Structures.NodeLeafBuilder.Write` | src/ninedb/pbt/detail/structures.hpp:160-174 | The loops over keys and values write exactly the leaf image of the collected entries. |
| `Structures.NodeInternalBuilder.AddFirstChild` | src/ninedb/pbt/detail/structures.hpp:253-261 | Starts a node with its left key and first child. |
| `Structures.NodeInternalBuilder.AddChild` | src/ninedb/pbt/detail/structures.hpp:263-275 | Appends a child; the builder keeps describing exactly the children so far. |
| `Structures.NodeInternalBuilder.Write` | src/ninedb/pbt/detail/structures.hpp:310-333 | The loops write exactly the intermediate node image of the collected children. |
| `Packing.ImageStoresTree` | src/ninedb/pbt/writer.hpp:151-236 | The image of any entry sequence and fan-out stores every node of the packed tree at the offset its handle names, level by level. |
| `PackedShape.LevelCount` | src/ninedb/pbt/writer.hpp:157-167 | Level l has ceil(n / B^(l+1)) nodes: the repeated rounded-up division by B is one division by the power. |
| `PackedShape.NodeSpan` | src/ninedb/pbt/writer.hpp:184-230 | Node j of level l covers exactly the entries from j*B^(l+1) up to the next multiple or the end; its start and its left and right keys are those of that range. |
| `PackedShape.ChildSpans` | src/ninedb/pbt/writer.hpp:193-223 | The children of a node cover its range without gap or overlap, each starting where the one before ends. |
| `PackedShape.Height` | src/ninedb/pbt/writer.hpp:157-172 | The height is the least h >= 1 with n <= B^h, and 0 exactly for an empty file; the last level is a single node. |
| `PackedShape.FullNodes` | src/ninedb/pbt/writer.hpp:189-191 | Every node except the last of its level has exactly B children. |
| `StoredFile.RootHandle` | src/ninedb/pbt/writer.hpp:232-233 | The root offset and size in the footer are those of the single node of the top level. |
| `StoredFile.HeightBound` | src/ninedb/pbt/writer.hpp:169-170 | A file with fewer than 2^64 entries has height at most 64, so the 16-bit height field is enough. |
| `StoredFile.FooterReads` | src/ninedb/pbt/reader.hpp:474-482 | Reading the footer of a finished file gives the footer it was finished with, and it validates. |
| `StoredFile.NodeReads` | src/ninedb/pbt/reader.hpp:405-453 | Reading child k of a stored node gives the handle of the right node one level down. |
| `StoredFile.StoresUnreduced` | src/ninedb/pbt/writer.hpp:193-215 | Without a callback every reduced value in the intermediate nodes of a finished file is the empty string. |
| `StoredFile.FileEnds` | src/ninedb/pbt/detail/structures.hpp:50-80 | Every finished file ends with the bytes 00 00 01 00 11 11 AF 1E: version 0.1 and the magic number, least significant byte first. |
| `PbtIteration.LeafChain` | src/ninedb/pbt/iterator.hpp:48-63 | The size of a leaf is the distance to the next leaf, so walking by sizes visits the leaves in order. |
| `PbtIteration.Locate` | src/ninedb/pbt/iterator.hpp:48-63 | Position p lies in leaf p / B at index p mod B. |
| `PbtIteration.PbtIterator.Next` | src/ninedb/pbt/iterator.hpp:48-63 | One step drops exactly the head of the entries still to come. |
| `PbtIteration.PbtIterator.GetKey` | src/ninedb/pbt/iterator.hpp:28-33 | The current key is the key of the first entry still to come. |
| `PbtIteration.PbtIterator.GetValue` | src/ninedb/pbt/iterator.hpp:38-43 | The current value is the value of the first entry still to come. |
| `Reading.OpenFinished` | src/ninedb/pbt/reader.hpp:34-38 | Whatever image the writer finishes is accepted by the reader and read as the same entries. |
| `Reading.OpensIff` | src/ninedb/pbt/detail/structures.hpp:89-103 | A file is accepted exactly when it has room for a footer and ends with these eight bytes. |
| `TreeSearch.PickNeighbours` | src/ninedb/pbt/reader.hpp:423-436 | For right keys in any order, the child the binary search ends at has a left neighbour below the key, and is itself not below it or the last child. |
| `TreeSearch.SearchSound` | src/ninedb/pbt/reader.hpp:399-472 | On entries in any order, the search never ends at an entry that does not match. |
| `TreeSearch.SearchSorted` | src/ninedb/pbt/reader.hpp:399-472 | On sorted entries, of any number and fan-out, the search ends at the lower bound; exact search reports absence exactly when no entry has the key, the other mode exactly when all keys are below. |
| `TreeSearch.LookupSorted` | src/ninedb/pbt/reader.hpp:53-72 | On sorted entries a lookup gives the value of the first entry with the key; the early exits on left and right keys lose nothing. |
| `TreeSearch.EmptyKeyFound` | src/ninedb/pbt/reader.hpp:413-441 | On entries in any order, the empty key is found exactly when it occurs and it is the first key or the file is a single leaf. |
| `Reading.Reader.SearchChildren` | src/ninedb/pbt/reader.hpp:423-436 | The loop over the stored right keys computes that child. |
| `Reading.Reader.Find` | src/ninedb/pbt/reader.hpp:399-472 | On entries in any order, the descent over offsets ends at the entry the search function of the tree ends at: its leaf, its index in the leaf and its position; or reports that the search ends nowhere. |
| `Reading.Reader.Get` | src/ninedb/pbt/reader.hpp:53-72 | The value of the entry the exact search ends at, on entries in any order; by `TreeSearch.LookupSorted` that of the first entry with the key on sorted ones. |
| `Reading.Reader.FindIndex` | src/ninedb/pbt/reader.hpp:350-397 | Finds leaf and index of entry i for every i below the count and nothing beyond it. |
| `Reading.Reader.EntryAtIndex` | src/ninedb/pbt/reader.hpp:94-114 | Entry i for every i below the count, none beyond. |
| `Reading.Reader.Begin` | src/ninedb/pbt/reader.hpp:243-248 | Iterates exactly the entries the file was built from, in order. |
| `Reading.Reader.End` | src/ninedb/pbt/reader.hpp:254-259 | An iterator with nothing to come. |
| `Reading.Reader.Seek` | src/ninedb/pbt/reader.hpp:219-237 | Iterates exactly the entries from position i on; nothing beyond the end. |
| `Reading.Reader.SeekFirst` | src/ninedb/pbt/reader.hpp:139-158 | Stands where the search ends, with exactly the remaining entries; on sorted entries that is the lower bound. |
| `Reading.Reader.WalkEqual` | src/ninedb/pbt/reader.hpp:173-182 | The two-iterator loop stops in front of the first entry behind the start that is above the key. |
| `Reading.SeekPlacesSorted` | src/ninedb/pbt/reader.hpp:166-202 | On sorted entries the place of seek_last is the last equal entry, or else the first greater one; that of seek_next is the upper bound. |
| `Reading.Reader.SeekLast` | src/ninedb/pbt/reader.hpp:166-183 | Stands where the walk from the search place ends; on sorted entries at the last equal entry, or else at the first greater one. |
| `Reading.Reader.SeekNext` | src/ninedb/pbt/reader.hpp:190-202 | Stands one further if the walk ended on the key; on sorted entries at the upper bound. |
| `Traversal.PrunedIsSelect` | src/ninedb/pbt/reader.hpp:316-348 | If the predicate holds on every reduced value it holds below, the pruned recursion collects exactly the satisfying values of a node, for trees of every height. |
| `Traversal.ReducedCovers` | src/ninedb/pbt/writer.hpp:193-215 | A satisfying value anywhere below a node makes the predicate hold on every reduced value on the way up. |
| `Traversal.ReducedSpares` | src/ninedb/pbt/writer.hpp:193-215 | If the predicate fails on the reduction of any values it fails on, it fails on the reduced value of every node below which it fails on all values. |
| `Traversal.UnreducedCollects` | src/ninedb/pbt/reader.hpp:316-348 | Without a callback a traversal collects all satisfying values if the empty string satisfies the predicate or there are at most fan-out entries, and nothing otherwise. |
| `Traversal.Visit` | src/ninedb/pbt/reader.hpp:316-348 | The recursion appends exactly the pruned selection of the node, for any predicate. |
| `Traversal.Traverse` | src/ninedb/pbt/reader.hpp:266-276 | Appends the satisfying values in entry order when the predicate respects the reduction; without a callback, all of them if the empty string satisfies the predicate or there are at most fan-out entries, none otherwise; in general the pruned selection. |
| `Writing.Writer.Add` | src/ninedb/pbt/writer.hpp:72-83 | The entry is appended; full leaves are in storage, the others buffered. |
| `Writing.Writer.Flush` | src/ninedb/pbt/writer.hpp:250-261 | The storage holds all leaves of the entries so far and the leaf buffer is empty. |
| `Writing.EntryCounts` | src/ninedb/pbt/writer.hpp:157-167 | The loop yields the entry count followed by the node counts of all levels that need parents. |
| `Writing.TowerHeight` | src/ninedb/pbt/writer.hpp:169-170 | The number of counts is the number of levels of the tree. |
| `Writing.ReadNodeMetadata` | src/ninedb/pbt/writer.hpp:290-341 | Reading a written node back yields its first and last key, the values that feed the reduction and its size. |
| `Writing.Writer.BuildGroup` | src/ninedb/pbt/writer.hpp:191-226 | One group of children becomes one intermediate node, appended; the read offset moves behind the last child. |
| `Writing.Writer.BuildLevel` | src/ninedb/pbt/writer.hpp:186-227 | One pass writes exactly the parents of the level below. |
| `Writing.Writer.BuildLevels` | src/ninedb/pbt/writer.hpp:184-233 | After the loop over the levels the storage holds all nodes and the read offset is the root. |
| `Writing.Writer.Finish` | src/ninedb/pbt/writer.hpp:151-236 | The storage is byte for byte the image of the added entries, cut to size; it ends with version and magic number, and without a callback every reduced value in it is the empty string. |
| `Writing.Writer.Merge` | src/ninedb/pbt/writer.hpp:89-144 | Appends exactly the merge of the runs of the readers, in the order the scan selects. |
| `Merging.WrittenPermutation` | src/ninedb/pbt/writer.hpp:117-143 | Merging keeps every entry, whatever the keys and order of the sources. |
| `Merging.WrittenStable` | src/ninedb/pbt/writer.hpp:117-143 | With sorted sources and non-empty keys the merge is sorted and keeps equal keys by source, then by order within the source. |
| `Merging.WrittenSortedIff` | src/ninedb/pbt/writer.hpp:121-134 | The merge is sorted exactly when every source is and no source with an empty key is followed by a source with a non-empty key. |
| `Merging.EmptyKeyExample` | src/ninedb/pbt/writer.hpp:129-133 | Two sorted sources for which the merge of the writer is not sorted, that of the iterator is, and the two differ. |
| `Merging.IteratedSorted` | src/ninedb/iterator.hpp:67-82 | The iterator delivers the sorted permutation of all sorted sources, empty keys included. |
| `Merging.IteratedStable` | src/ninedb/iterator.hpp:67-82 | Equal keys come by source, then by order within the source. |
| `Merging.MergesAgree` | src/ninedb/iterator.hpp:38-82 | The database iterator and the writer merge deliver the same sequence, of sources in any order, when only the last live source holds empty keys. |
| `Merging.MergesAgreeIff` | src/ninedb/iterator.hpp:38-82 | For sorted sources with pairwise different head entries that is also necessary: the two agree exactly then. |
| `Merging.StableMergeUnique` | src/ninedb/pbt/writer.hpp:117-143 | Sortedness and order within each key determine a merge completely. |
| `DbIteration.GetMinIndex` | src/ninedb/iterator.hpp:67-82 | The loop selects the first live source with the least head key. |
| `DbIteration.SelectMin` | src/ninedb/pbt/writer.hpp:121-134 | The loop of the writer selects the source of its scan. |
| `DbIteration.DbIterator.constructor` | src/ninedb/iterator.hpp:48-61 | Starts with the whole merge of the given iterators to come. |
| `DbIteration.DbIterator.Next` | src/ninedb/iterator.hpp:38-46 | One step drops exactly the head of the merge. |
| `DbIteration.DbIterator.CurrentEntry` | src/ninedb/iterator.hpp:13-36 | End, key and value are those of the head of the merge. |
| `DbIteration.SeekIsSuffix` | src/ninedb/kvdb.hpp:169-179 | Cutting every file at its lower bound and merging is cutting the merge at its lower bound. |
| `Buffering.Buffer.Insert` | src/ninedb/detail/buffer.hpp:17-23 | The entry is placed behind all entries with its key; the byte count follows. |
| `Buffering.InsertStable` | src/ninedb/detail/buffer.hpp:17-23 | A sorted buffer stays sorted and the new entry is the last of its key. |
| `Buffering.BufferIsStableSort` | src/ninedb/detail/buffer.hpp:15-23 | The buffer is the stable sort of what was inserted. |
| `Buffering.SizeZero` | src/ninedb/kvdb.hpp:287-290 | The size guard means an empty buffer exactly when no entry consists of empty strings only; with non-empty keys it is the emptiness test. |
| `FileNames.NameForm` | src/ninedb/detail/level_manager/level_manager.hpp:164-175 | A name has 33 characters: the index in 20 decimal digits, a dash, the level in 8, and the extension. |
| `FileNames.ParsesIff` | src/ninedb/detail/level_manager/level_manager.hpp:177-186 | A name is accepted exactly when it has 33 characters, a dash behind the first 20, and both fields hold a number below 2^64: white space, at most one sign, digits, then anything. |
| `FileNames.NumeralReads` | src/ninedb/detail/level_manager/level_manager.hpp:177-186 | Such a field reads as its decimal number, negated within 64 bits after a minus sign, and as nothing when the number needs more. |
| `FileNames.NameRoundTrip` | src/ninedb/detail/level_manager/level_manager.hpp:164-186 | Parsing a file name gives back index and level, for all 64-bit indices and levels that have a name. |
| `FileNames.NameOrder` | src/ninedb/detail/level_manager/level_manager.hpp:164-175 | Names sort as index, then level; so they are distinct. |
| `FileNames.FileNameExists` | src/ninedb/detail/level_manager/level_manager.hpp:164-175 | A name exists exactly for indices below 10^20 and levels below 10^8. |
| `Levels.CascadeFacts` | src/ninedb/detail/level_manager/level_manager.hpp:107-130 | A cascade takes exactly the files below its target level, a tail of the oldest-first order; its target is no existing file and keeps the order increasing. |
| `Levels.CascadeCounts` | src/ninedb/detail/level_manager/level_manager.hpp:107-130 | On numbers of files: a cascade is due exactly when level 0 has reached the limit; the levels passed have at least the limit less one, the target has room for one more file or does not exist, and the sources are exactly the files below it. |
| `Levels.CascadeKeeps` | src/ninedb/detail/level_manager/level_manager.hpp:188-204 | Applying a cascade leaves the files above the target level followed by the target, consistent. |
| `Levels.FullMergeFacts` | src/ninedb/detail/level_manager/level_manager.hpp:132-162 | A full merge takes all files, oldest first, into a file that does not exist. |
| `Levels.FullMergeKeeps` | src/ninedb/detail/level_manager/level_manager.hpp:188-204 | Applying a full merge leaves exactly the target, consistent. |
| `Levels.AdvanceKeeps` | src/ninedb/detail/level_manager/level_manager.hpp:40-44 | A new level-0 file is the newest of a consistent state. |
| `Levels.LevelsOrdered` | src/ninedb/detail/level_manager/level_manager.hpp:40-44 | Indices increase within a level, and every index of a lower level exceeds every index of a higher one. |
| `Levels.FlushKeepsBound` | src/ninedb/detail/level_manager/level_manager.hpp:107-130 | If every level holds fewer files than a bound, it still does after a flush and its cascade by any limit up to that bound. |
| `Levels.CompactKeepsBound` | src/ninedb/detail/level_manager/level_manager.hpp:132-162 | If every level holds fewer files than the limit, it still does after a full merge. |
| `LevelManagement.LoadInverts` | src/ninedb/detail/level_manager/level_manager.hpp:56-92 | Loading the files of a consistent state in any order gives that state back. |
| `LevelManagement.LevelManager.LoadState` | src/ninedb/detail/level_manager/level_manager.hpp:56-92 | Succeeds exactly when all names parse and the newest footer is readable, and then holds the loaded state. |
| `LevelManagement.LevelManager.ScanNames` | src/ninedb/detail/level_manager/level_manager.hpp:59-80 | The directory loop collects the levels, the next index and the newest name. |
| `LevelManagement.LevelManager.SortAll` | src/ninedb/detail/level_manager/level_manager.hpp:86-89 | Every level is sorted. |
| `LevelManagement.LevelManager.GetUnmergedFiles` | src/ninedb/detail/level_manager/level_manager.hpp:94-105 | The names of all files, level by level. |
| `LevelManagement.LevelManager.GetCascadedMergeOperation` | src/ninedb/detail/level_manager/level_manager.hpp:107-130 | The do-while loop computes the cascade, which is due, climbs and takes what `Levels.CascadeCounts` says on numbers of files; it ends because it climbs the levels. |
| `LevelManagement.LevelManager.CanMergeAll` | src/ninedb/detail/level_manager/level_manager.hpp:228-240 | True exactly when there are at least two files. |
| `LevelManagement.LevelManager.GetFullMerge` | src/ninedb/detail/level_manager/level_manager.hpp:132-162 | The loop from the top level down computes the full merge and its target index. |
| `LevelManagement.LevelManager.ApplyMergeOperation` | src/ninedb/detail/level_manager/level_manager.hpp:188-204 | The state after the merge: levels grown, sources removed, target appended, next index set. |
| `LevelManagement.LevelManager.AdvanceLevel0` | src/ninedb/detail/level_manager/level_manager.hpp:40-44 | The state with a new level-0 file and the global start left alone, which `Levels.AdvanceKeeps` shows consistent. |
| `Database.FlushBufferKeeps` | src/ninedb/kvdb.hpp:283-306 | The buffered entries become the newest file, in contiguous global range; nothing else moves and the invariant holds. |
| `Database.BufferEmptied` | src/ninedb/kvdb.hpp:287-290 | A flush empties the buffer exactly when it was empty or one of its entries has a byte. |
| `Database.ByteLessEntryStays` | src/ninedb/kvdb.hpp:287-290 | The failing input: a buffer of one entry with empty key and value is left as it is. |
| `Database.TailStarts` | src/ninedb/kvdb.hpp:311-318 | The least global start among the sources is where the kept files end. |
| `Database.MergeKeeps` | src/ninedb/kvdb.hpp:308-335 | A merge keeps the invariant and the flushed entries as a multiset; the new file covers the ranges of its sources. |
| `Database.CascadeTakesTail` | src/ninedb/kvdb.hpp:232-242 | A cascade merges a tail of the oldest-first order into a new file. |
| `Database.FlushStays` | src/ninedb/kvdb.hpp:232-242 | A flush that leaves level 0 below the limit changes no file; it only adds the one of the buffer. |
| `Database.FlushMerges` | src/ninedb/kvdb.hpp:232-242 | Any other flush replaces the files below one level by one file of that level: the first above level 0 in which one more file stays below the limit. All files from there on stay. |
| `Database.FullMergeTakesAll` | src/ninedb/kvdb.hpp:217-226 | A full merge takes every file. |
| `DbRuns.RunKeeps` | src/ninedb/kvdb.hpp:64-72 | After any run of add, flush, compact and reopen (each reopening with limits of its own), with any keys: files hold exactly the flushed entries, the buffer is the stable sort of the pending ones, indices and global ranges are consistent; with non-empty keys every file is sorted. |
| `DbRuns.NothingLost` | src/ninedb/kvdb.hpp:283-306 | Without reopening, flushed followed by pending is the sequence of all additions. |
| `DbRuns.ReopenIsIdentity` | src/ninedb/detail/level_manager/level_manager.hpp:56-92 | Reopening in any directory order changes nothing but the buffer. |
| `DbSorted.RunSortedIff` | src/ninedb/kvdb.hpp:308-335 | After any run, with any keys, the files are sorted exactly when every merge of the run read no file with an empty key in front of one with a non-empty key. |
| `DbSorted.GetAfterRun` | src/ninedb/kvdb.hpp:82-94 | After any run, whatever fan-out each file has, the search of the files returns only values flushed under the key; when every merge kept order it finds a key exactly when a flushed entry has it. |
| `DbSorted.NonEmptyKeysKeepOrder` | src/ninedb/kvdb.hpp:308-335 | With non-empty keys every merge keeps order. |
| `DbEmptyKey.FlushedKeyMissed` | src/ninedb/pbt/reader.hpp:413-418 | A concrete run (level limit 2, fan-out 2: an empty key flushed, then two other keys) after which the search of the files misses a flushed key. |
| `DbEmptyKey.EmptyKeyFoundIff` | src/ninedb/kvdb.hpp:82-94 | Over any files, sorted or not, a lookup finds the empty key exactly when some file has it and has it first or is a single leaf. |
| `DbBounds.RunBounded` | src/ninedb/detail/level_manager/level_manager.hpp:214-226 | After any run, however often reopened with other level limits, every level holds fewer files than the largest limit used (or 2). |
| `DbBounds.RunWeighty` | src/ninedb/detail/level_manager/level_manager.hpp:107-130 | If all limits used are at least 2, a file on level l holds at least 2^l entries after any run, and indices stay below twice the entries. |
| `DbBounds.NamesExist` | src/ninedb/detail/level_manager/level_manager.hpp:164-175 | Below 2^63 flushed entries every live file has a name that parses back, on a level below 64. |
| `DbOrder.RunInOrder` | src/ninedb/kvdb.hpp:237-241 | If no cascade spans more than one source level, files hold the entries of every key in order of addition. |
| `DbOrder.FirstAddedWins` | src/ninedb/kvdb.hpp:82-94 | In such runs a lookup returns the earliest flushed value of the key, also when values repeat. |
| `DbOrder.CascadeKeepsFirst` | src/ninedb/detail/level_manager/level_manager.hpp:115-124 | A cascade keeps the oldest value first when an older file outside it has the key, or at most one of the merged levels has it; and only then, if the entries of the key are distinct. |
| `DbFirst.FirstFlushedWinsIff` | src/ninedb/kvdb.hpp:82-94 | Over all runs with non-empty keys: a lookup returns the value flushed first when every cascade of the run met that condition, also for repeated values; and only then, if no value was flushed twice under the key: a first place once lost never returns. |
| `DbFirst.ShortRunStays` | src/ninedb/detail/level_manager/level_manager.hpp:115-124 | Cascades that take level 0 only always meet it. |
| `DbNewerFirst.NewerValueFirst` | src/ninedb/detail/level_manager/level_manager.hpp:115-124 | A concrete run (level limit 2, four values under one key, each flushed) after which a lookup returns the third value. |
| `ReaderMaps.PutLast` | src/ninedb/kvdb.hpp:305-305 | The reader of a new file sorts behind all others, because names sort as indices. |
| `ReaderMaps.MergeReaders` | src/ninedb/kvdb.hpp:328-334 | Inserting the target and erasing the sources leaves the kept readers followed by the target. |
| `ReaderMaps.SortedMapUnique` | src/ninedb/kvdb.hpp:248-248 | A map sorted by name is determined by its entries. |
| `KvDatabase.KvDb.constructor` | src/ninedb/kvdb.hpp:250-260 | An empty directory gives the empty database. |
| `KvDatabase.KvDb.Load` | src/ninedb/kvdb.hpp:248-260 | Loading succeeds exactly when all names parse and the footers looked at are valid, for any directory; then the state and the readers are those of its files. What a database left behind, listed in any order, comes back as it was; only the buffer is gone. |
| `KvDatabase.KvDb.Open` | src/ninedb/kvdb.hpp:27-57 | Something at the path is refused if it must not exist, else dropped if it is to be deleted, else loaded exactly when it can be loaded; nothing at the path becomes an empty database exactly when it may be created. |
| `KvDatabase.KvDb.WriteBuffer` | src/ninedb/kvdb.hpp:294-299 | The image written for the buffer is the file of its entries at the current global start. |
| `KvDatabase.KvDb.FlushBuffer` | src/ninedb/kvdb.hpp:283-306 | Buffer, counters, reader map and directory follow the state machine step; readers and directory hold exactly the files of the level manager. |
| `KvDatabase.KvDb.CollectSources` | src/ninedb/kvdb.hpp:310-318 | The source readers in the order of the operation, and the least global start. |
| `KvDatabase.KvDb.PerformMergeOperation` | src/ninedb/kvdb.hpp:308-335 | Readers, directory and counters follow the merge step. |
| `KvDatabase.KvDb.Flush` | src/ninedb/kvdb.hpp:232-242 | Refines the flush of the state machine; when it leaves level 0 below the limit, every file in the directory stays byte for byte. |
| `KvDatabase.KvDb.Compact` | src/ninedb/kvdb.hpp:217-226 | Refines the compaction of the state machine. |
| `KvDatabase.KvDb.Add` | src/ninedb/kvdb.hpp:64-73 | Refines the addition, with its flush once the buffered bytes exceed the limit. |
| `KvDatabase.KvDb.Get` | src/ninedb/kvdb.hpp:82-94 | The value of the first file, oldest first, whose own search finds the key, on files in any order; always that of an entry in the files, and on sorted files the first match of a scan of everything flushed. |
| `KvDatabase.KvDb.At` | src/ninedb/kvdb.hpp:116-131 | Entry i of all files joined, none beyond. |
| `KvDatabase.KvDb.Begin` | src/ninedb/kvdb.hpp:152-162 | Iterates the merge of all files. |
| `KvDatabase.KvDb.Seek` | src/ninedb/kvdb.hpp:169-179 | Iterates the merge of what every file has left from where its search ends; on sorted files that is the merge of everything from the lower bound of the key on. |
| `KvDatabase.KvDb.SeekIndex` | src/ninedb/kvdb.hpp:185-196 | Merges what is left of each file after skipping the entries in front of the position. |
| `KvQueries.SeekIndexDelivers` | src/ninedb/kvdb.hpp:185-196 | It delivers the entries from the position on, stably sorted; it starts with the entry at the position exactly when no later entry has a smaller key. |
| `KvQueries.SeekIndexExample` | src/ninedb/kvdb.hpp:185-196 | The failing input: of two one-entry files, the first with the larger key, position 0 starts at the second. |
| `KvDatabase.KvDb.Traverse` | src/ninedb/kvdb.hpp:203-211 | Collects, for any predicate, the pruned selections of all files in order; when the predicate respects the reduction these are the satisfying values. When no file has a callback: those of all files if the empty string satisfies the predicate, of the files with at most fan-out entries otherwise. |
| `KvOpening.DirectoryLists` | src/ninedb/detail/level_manager/level_manager.hpp:59-91 | The names of the directory parse to a listing of the files, and the newest footer ends where the next flush starts. |
| `KvCrashes.CrashedMergeLoads` | src/ninedb/kvdb.hpp:308-335 | If the process ends inside a merge once the target is finished, after any number of sources were removed: the directory loads, with the readers of exactly the files there and the counters of the finished merge; they hold everything flushed plus the left sources a second time, so nothing is lost, and nothing is doubled exactly when all sources are gone. |
| `KvCrashes.UnfinishedRefused` | src/ninedb/pbt/reader.hpp:474-482 | If it ends while a file is being written, so that the last four bytes are not the magic number, opening is refused. |
| `KvDatabase.KvDb.MergeMayEnd` | src/ninedb/kvdb.hpp:308-335 | Every state in which the object merges is one that theorem speaks of. |
| `FileSizes.ImageSize` | src/ninedb/pbt/writer.hpp:151-236 | A file of n entries with d bytes of keys and values, its reductions at most r bytes long, has at most 42 + n(224 + 3r) + 129d bytes, for every fan-out. |
| `KvRuns.RoomBySize` | src/ninedb/pbt/writer.hpp:151-236 | If that bound of all entries is below 2^64, every file that could be formed from part of them fits its 64-bit fields. |
| `KvRuns.NamesOverRun` | src/ninedb/detail/level_manager/level_manager.hpp:164-175 | After any run of fewer than 2^63 additions file names are left: always if all level limits used are at least 2, within 10^8 operations otherwise. |
| `KvRuns.RunReady` | src/ninedb/kvdb.hpp:64-73 | At every point of a run whose additions stay within the bound, the next operation finds room and names. |
| `KvRuns.Perform` | src/ninedb/kvdb.hpp:27-57 | One operation on the object, reopening with another configuration included, is the step of the state machine. |
| `KvRuns.Drive` | src/ninedb/kvdb.hpp:27-73 | Any such run can be performed on the object, from an empty directory through any reopenings with other limits, fan-outs and reductions, and leaves it in the state of the run. |
| `SpatialDb.PaddedReads` | src/ninedb/hrdb.hpp:120-133 | A padded value gives back its box and its value; the corners are stored in front of it as x0, y0, x1, y1. |
| `SpatialDb.Reduce` | src/ninedb/hrdb.hpp:149-171 | The loop stores the least box around the boxes of the values: outside all of them, each side that of one of them, inverted boxes included; for no value the box of maximal lower and zero upper corners. |
| `SpatialDb.UnionLeast` | src/ninedb/hrdb.hpp:149-171 | The union is outside every box on every side, each of its sides is the side of one of the boxes, it lies inside every other such box, and that of one box is the box. |
| `SpatialDb.HitsIff` | src/ninedb/hrdb.hpp:142-147 | For corners in any order, the condition leaves out a box exactly when it is beyond the query on one of the four sides. |
| `BoxSearches.HitsMeansCommonPoint` | src/ninedb/hrdb.hpp:142-147 | For upright boxes the condition holds exactly when some point lies in both. |
| `SpatialDb.HitsCover` | src/ninedb/hrdb.hpp:149-171 | A box that meets the query makes the union meet it, so pruning is safe for every query. |
| `SpatialDb.Average` | src/ninedb/hrdb.hpp:135-140 | The overflow-free sum of halves is the rounded-down mean. |
| `SpatialDb.KeyOrder` | src/ninedb/hrdb.hpp:44-47 | Keys of four bytes sort as the numbers they stand for, most significant byte first. |
| `SpatialDb.KeyIsPosition` | src/ninedb/hrdb.hpp:54-64 | A box is filed under four bytes that stand, most significant first, for the position of its centre along the curve, for centres below 2^16. |
| `SpatialDb.PositionIsKey` | src/ninedb/hrdb.hpp:40-48 | For every 32-bit index, the point at that position of the curve is filed under the four bytes of the index. |
| `SpatialDb.PointsOnCurve` | src/ninedb/hrdb.hpp:40-48 | Points are filed in the order of the curve. |
| `SpatialDb.PointsApart` | src/ninedb/hrdb.hpp:40-48 | Different points below 2^16 are filed under different keys. |
| `SpatialDb.FoundIsBruteForce` | src/ninedb/hrdb.hpp:70-91 | Searching the entries of boxes finds exactly the values, without the prefix, of the boxes that are not beyond the query on any side. |
| `SpatialDb.SearchAfterRun` | src/ninedb/hrdb.hpp:70-91 | After any run of additions, flushes and compactions that ends in a flush or compaction, the search finds, as a multiset, exactly the values of all added boxes that are not beyond the query on any side; no assumption on coordinates or corner order. |
| `SpatialDb.SearchFlushed` | src/ninedb/hrdb.hpp:70-91 | After any run, reopening included, the search finds, as a multiset, exactly the values of all flushed boxes that are not beyond the query on any side. |
| `BoxSearches.SearchPoints` | src/ninedb/hrdb.hpp:70-91 | After any run of points, reopening included, the search finds, as a multiset, exactly the values of the flushed points with x0 <= x <= x1 and y0 <= y <= y1. |
| `BoxSearches.SearchAllPoints` | src/ninedb/hrdb.hpp:70-91 | After any run of points that ends in a flush or compaction, exactly those of all added points in these bounds. |
| `BoxSearches.VisitedIff` | src/ninedb/hrdb.hpp:66-91 | In a file of a spatial database the search looks below a node exactly when for no side of the query all boxes below the node are beyond it. |
| `BoxSearches.ChildSkipped` | src/ninedb/pbt/reader.hpp:316-348 | A child all of whose boxes are beyond the query on the same side contributes nothing to the traversal. |
| `SpatialDb.HrDb.Open` | src/ninedb/hrdb.hpp:22-34 | Refuses a reduction of the caller, installs its own, and treats an existing or missing directory as the flags say: refused, emptied, or loaded exactly when it can be loaded. |
| `SpatialDb.HrDb.AddBox` | src/ninedb/hrdb.hpp:54-64 | Adds an entry of which the value gives back the box and the value, and the key is the position of the centre along the curve. |
| `SpatialDb.HrDb.AddPoint` | src/ninedb/hrdb.hpp:40-48 | Adds the entry of the box whose corners are the point, filed under the position of the point along the curve. |
| `SpatialDb.HrDb.Search` | src/ninedb/hrdb.hpp:70-91 | Returns, in file order, the values of the flushed entries whose boxes are not beyond the query on any side. |
| `SpatialRuns.DriveBoxes` | src/ninedb/hrdb.hpp:22-64 | Any run of boxes, flushes, compactions and reopenings within the bound can be performed on the object and leaves it in the state of the run. |
| `SpatialRuns.SearchRun` | src/ninedb/hrdb.hpp:70-91 | Performing such a run and searching returns, as a multiset, exactly the values of the flushed boxes that are not beyond the query on any side; after a run of points, of the points with x0 <= x <= x1 and y0 <= y <= y1. |
| `PrefixScans.SweepSplit` | src/ninedb/detail/hilbert.hpp:66-68 | A sequential sweep splits into an upper part carried through a lower part. |
| `PrefixScans.ActsJoin` | src/ninedb/detail/hilbert.hpp:84-92 | Matrices of the form [[A,B],[B,A^B]] multiply as the round computes. |
| `PrefixScans.FirstSpans` | src/ninedb/detail/hilbert.hpp:69-81 | The first round joins every bit with the one above it. |
| `PrefixScans.RoundSpans` | src/ninedb/detail/hilbert.hpp:83-118 | A round doubles the number of bits every position accounts for. |
| `PrefixScans.ScanIsSweep` | src/ninedb/detail/hilbert.hpp:66-118 | The parallel scan is the sequential fold at every bit, for words of any width. |
| `Hilbert.RoundsFold` | src/ninedb/detail/hilbert.hpp:66-118 | The four rounds with shifts 1, 2, 4, 8 on 32-bit words leave the sequential state at every one of 16 bits. |
| `Hilbert.WeaveInverse` | src/ninedb/detail/hilbert.hpp:9-26 | Deinterleaving undoes interleaving. |
| `Hilbert.UnweaveInverse` | src/ninedb/detail/hilbert.hpp:9-26 | Interleaving the even and odd bits of a word gives the word. |
| `Hilbert.ScanInverse` | src/ninedb/detail/hilbert.hpp:28-40 | Descanning undoes the prefix scan. |
| `Hilbert.DescanInverse` | src/ninedb/detail/hilbert.hpp:28-40 | The prefix scan undoes descanning. |
| `HilbertCurves.DecodeEncode` | src/ninedb/detail/hilbert.hpp:42-128 | The digit automaton is undone by its inverse. |
| `HilbertCurves.EncodeDecode` | src/ninedb/detail/hilbert.hpp:42-128 | And the other way round. |
| `HilbertCurves.Neighbours` | src/ninedb/detail/hilbert.hpp:42-59 | Consecutive digit strings, of any length, are points that differ by one in one coordinate. |
| `Hilbert.IndexDigits` | src/ninedb/detail/hilbert.hpp:62-128 | The transform of a point yields the digits of the automaton, for orders 1 to 16. |
| `Hilbert.PointDigits` | src/ninedb/detail/hilbert.hpp:42-59 | The inverse transform yields the bits of the inverse automaton. |
| `Hilbert.IndexOfPoint` | src/ninedb/detail/hilbert.hpp:42-128 | Point to index and back is the identity, for orders 1 to 16. |
| `Hilbert.PointOfIndex` | src/ninedb/detail/hilbert.hpp:42-128 | Index to point and back is the identity, for orders 1 to 16. |
| `Hilbert.UnitStep` | src/ninedb/detail/hilbert.hpp:42-59 | Points of consecutive indices are at Manhattan distance one. |
| `Hilbert.StartOfCurve` | src/ninedb/detail/hilbert.hpp:42-59 | Where the curve starts and which way it turns: (0,0), (1,0), (1,1), (0,1). |
| `WordNumbers.PointOfPosition` | src/ninedb/detail/hilbert.hpp:42-128 | On numbers: every point below 2^16 is the point at its position. |
| `WordNumbers.PositionOfPoint` | src/ninedb/detail/hilbert.hpp:42-128 | And every position below 2^32 is that of its point. |
| `SkipLists.SearchLevel` | src/ninedb/skip_list/skip_list.hpp:216-237 | The inner loop stops at the bound of the level. |
| `SkipLists.SkipList.Search` | src/ninedb/skip_list/skip_list.hpp:192-242 | At every level the result is the lower (or upper) bound of the key, whatever levels were drawn. |
| `SkipLists.SubListInserted` | src/ninedb/skip_list/skip_list.hpp:49-54 | Inserting an element and the element above that points to it keeps the upper list an ordered sub-list. |
| `SkipLists.SkipList.Insert` | src/ninedb/skip_list/skip_list.hpp:40-57 | Every level stays sorted and an ordered sub-list of the one below; level 0 gains the entry at the bound. |
| `SkipLists.SkipList.AddAfter` | src/ninedb/skip_list/skip_list.hpp:40-57 | The entry comes behind all entries with its key. |
| `SkipLists.SkipList.AddBefore` | src/ninedb/skip_list/skip_list.hpp:63-80 | The entry comes in front of all entries with its key. |
| `SkipLists.SkipList.GetFirst` | src/ninedb/skip_list/skip_list.hpp:87-104 | The value of the first entry with the key, or none. |
| `SkipLists.SkipList.GetLast` | src/ninedb/skip_list/skip_list.hpp:111-128 | The value of the last entry with the key, or none. |
| `SkipLists.SkipList.SeekFirst` | src/ninedb/skip_list/skip_list.hpp:142-156 | The first entry with the key, or the end. |
| `SkipLists.SkipList.GetSize` | src/ninedb/skip_list/skip_list.hpp:181-184 | The bytes of all keys and values. |
| `SkipLists.AddedIsMultimap` | src/ninedb/skip_list/skip_list.hpp:40-80 | After any run of additions at either end the list is a sorted multimap. |
| `Caches.RlruCache.Put` | src/ninedb/detail/rlru_cache.hpp:26-50 | The map stays a bijection onto the used slots; a new key takes a free slot or that of the victim; with three slots or more the latest key is never the victim, with 16 or more none of the latest seven, and with 3, 5 or 7 it is the key used longest ago. |
| `Caches.RlruCache.TryGet` | src/ninedb/detail/rlru_cache.hpp:52-67 | Hits exactly the present keys, returns the last value put, and makes the key the latest. |
| `Caches.RlruCache.Evict` | src/ninedb/detail/rlru_cache.hpp:86-101 | The victim is the sample touched longest ago; of the slots touched last it is none as long as these are fewer than the slots sampled (8 from 16 slots on, and for odd numbers from 9; all slots for 3, 5 or 7); with one or two slots it is slot offset mod size. |
| `Caches.SamplesDiffer` | src/ninedb/detail/rlru_cache.hpp:90-99 | With three slots or more the first two samples are different slots. |
| `Caches.SamplesApart` | src/ninedb/detail/rlru_cache.hpp:86-101 | As many samples as that are pairwise different slots, for every offset. |
| `Caches.RecentEvicted` | src/ninedb/detail/rlru_cache.hpp:86-101 | With two slots, a key that was just read can be evicted. |

## Left out

- Memory mapping and file growth: storage is a byte sequence; growing it to the doubled size is modelled, remapping is not.
- Raw addresses: a read outside an image gives a default here; every theorem about reading shows the reads lie inside.
- File-system calls and exceptions: the directory is a finite map, a refused opening returns nothing; foreign file names make loading fail, sub-directories are not modelled.
- KvCrashes.CrashedMergeLoads: says what opening finds after a merge was cut short; operations on such a database, whose files overlap, are not modelled.
- Standard containers: the buffer's multimap, the reader map and sorting appear as functions with their documented behaviour.
- `reverse` of the two merge plans: always passed as false in the repository.
- The level number stored in a level: it is the position of the level.
- 64-bit wrap-around of the cache clock and of the sample offset, and of counters beyond the stated preconditions.
- `seek_prev`: throws in the repository.
- SpatialDb.KeyIsPosition: speaks of centres below 2^16, where the curve lies; for others the key is some number of 32 bits, on which the search does not depend.
- User reductions beyond a pure function of the list of values.
- The random draw of skip-list levels is a parameter; its iterator class is a position at level 0.
- The 3D curve tables, the language bindings, the native loader, the HTML inspector and profiling.
- KvRuns.Drive: with a level limit of 1 at some opening a run may have at most 10^8 operations, because every flush adds a level and file names end at level 10^8.
- KvRuns.RoomBySize: needs a bound on the length of reduced values; an unbounded callback leaves `KvLinks.Room` as the precondition.
