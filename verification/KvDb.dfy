// The database object: write buffer, level manager, open readers and the directory, refining the state machine.
module KvDatabase {
  import opened Bytes
  import opened Entries
  import opened Structures
  import opened Packing
  import opened PbtIteration
  import opened StoredFile
  import opened TreeSearch
  import opened Reading
  import opened Traversal
  import opened Merging
  import opened DbIteration
  import opened Writing
  import opened Buffering
  import opened FileNames
  import opened Levels
  import opened LevelManagement
  import opened Database
  import opened ReaderMaps
  import opened KvLinks
  import opened KvSteps
  import opened KvQueries
  import opened KvOpening
  import opened KvCrashes

  class KvDb {
    const config: KvConfig
    const buffer: Buffer
    const levelManager: LevelManager
    var readers: ReaderMap
    var disk: map<string, Bytes>
    ghost var db: Db
    ghost var cfgs: Configs

    ghost predicate Valid()
      reads this, buffer, levelManager
    {
      && buffer.Valid() && levelManager.maxLevelCount == config.maxLevelCount
      && Linked(config, buffer.entries, levelManager.State(), readers, disk, db, cfgs)
    }

    /** The readers match the files of the abstract state, oldest first. */
    lemma ReadersMatch()
      requires Valid()
      ensures MapMatches(readers, db.files, cfgs, Order(db.lm.levels, 0)) && |readers| == |Order(db.lm.levels, 0)|
    {
      hide DiskMatches, Inv, Order, ReaderMatches;
    }

    ghost function Config(): Database.Config {
      Database.Config(config.maxBufferSize, config.maxLevelCount)
    }

    constructor (config: KvConfig)
      requires config.writer.Allowed() && config.maxLevelCount > 0
      ensures Valid() && db == EMPTY && cfgs == map[] && this.config == config && disk == map[]
      ensures fresh(buffer) && fresh(levelManager)
    {
      this.config := config;
      buffer := new Buffer();
      levelManager := new LevelManager(config.maxLevelCount);
      readers, disk, db, cfgs := [], map[], EMPTY, map[];
      hide Linked, Inv;
      new;
      levelManager.AddNewLevel();
      assert levelManager.State() == INITIAL;
      LinkedEmpty(config);
    }

    /** A database before its directory is loaded. */
    constructor Unloaded(config: KvConfig)
      ensures this.config == config && buffer.Valid() && buffer.entries == [] && readers == []
      ensures levelManager.State() == Levels.State([], 0, 0) && levelManager.maxLevelCount == config.maxLevelCount
      ensures fresh(buffer) && fresh(levelManager)
    {
      this.config := config;
      buffer := new Buffer();
      levelManager := new LevelManager(config.maxLevelCount);
      readers, disk, db, cfgs := [], map[], EMPTY, map[];
    }

    // Opens a reader on every file of the loaded levels; fails where one is missing or has no valid footer.
    method FillReaders(files: map<string, Bytes>) returns (ok: bool)
      requires readers == []
      modifies this`readers
      ensures var names := NamesOf(Listed(levelManager.levels, |levelManager.levels|));
              && (ok <==> forall n :: n in names ==> Readable(files, n))
              && (ok ==> ReadersOf(readers, files, names))
    {
      hide NameOf, Listed, OpenReader, Put, ReadersOf;
      var names := levelManager.GetUnmergedFiles();
      ReadersNone(files, names);
      for i := 0 to |names|
        invariant ReadersOf(readers, files, names[..i]) && forall k :: 0 <= k < i ==> Readable(files, names[k])
      {
        if names[i] !in files || OpenReader(files[names[i]]).None? {
          assert names[i] in names;
          return false;
        }
        ReadersStep(readers, files, names, i);
        readers := Put(readers, names[i], OpenReader(files[names[i]]).value);
      }
      assert names[..|names|] == names;
      ok := true;
    }

    /** Loads a directory, its entries listed in any order; exactly what a database left behind comes back as it was. */
    static method Load(config: KvConfig, dir: Directory, ghost before: Db, ghost full: ReaderMap, ghost cfgs: Configs)
      returns (r: Option<KvDb>)
      requires config.writer.Allowed() && config.maxLevelCount > 0
      ensures r.Some? <==> Loadable(dir)
      ensures r.Some? ==>
                fresh(r.value) && fresh(r.value.buffer) && fresh(r.value.levelManager) && r.value.config == config
      ensures r.Some? ==>
                && r.value.disk == dir.files && r.value.levelManager.State() == LoadedState(dir)
                && ReadersOf(r.value.readers, dir.files, NamesOf(IdsOf(dir.names)))
      ensures LeftBehind(dir, before, full, cfgs) ==>
                && r.Some? && r.value.Valid() && r.value.readers == full && r.value.cfgs == cfgs
                && r.value.db == before.(buffer := []) == Reopen(before, IdsOf(dir.names))
    {
      hide NameOf, Listed, OpenReader, ReadersOf, LeftBehind, Readable, Loaded, NewestName, AllParse, FooterReadable;
      hide FooterIn, SortLevels, Linked;
      ghost var left := LeftBehind(dir, before, full, cfgs);
      if left {
        LeftBehindLoads(dir, before, full, cfgs);
      }
      var kv := new KvDb.Unloaded(config);
      var ok := kv.levelManager.LoadState(dir.names, dir.files);
      if !ok {
        return None;
      }
      LoadedIs(dir, kv.levelManager.State());
      UnmergedNames(dir, kv.levelManager.State());
      ok := kv.FillReaders(dir.files);
      if !ok {
        return None;
      }
      ReadersSame(kv.readers, dir.files, NamesOf(Listed(kv.levelManager.levels, |kv.levelManager.levels|)),
          NamesOf(IdsOf(dir.names)));
      kv.disk := dir.files;
      if left {
        LoadLinks(config, dir, before, full, cfgs, kv.levelManager.State(), kv.readers);
        kv.db, kv.cfgs := before.(buffer := []), cfgs;
      }
      r := Some(kv);
    }

    /** Opens the path. Something there is refused, dropped or loaded, in this order of the flags; nothing there is
        refused or becomes an empty database. */
    static method Open(config: KvConfig, flags: OpenFlags, found: Option<Directory>, ghost before: Db,
            ghost full: ReaderMap, ghost cfgs: Configs)
      returns (r: Option<KvDb>)
      requires config.writer.Allowed() && config.maxLevelCount > 0
      ensures found.None? ==> (r.Some? <==> flags.createIfMissing)
      ensures found.Some? && flags.errorIfExists ==> r.None?
      ensures found.Some? && !flags.errorIfExists && flags.deleteIfExists ==> r.Some?
      ensures found.Some? && !flags.errorIfExists && !flags.deleteIfExists ==> (r.Some? <==> Loadable(found.value))
      ensures r.Some? ==>
                fresh(r.value) && fresh(r.value.buffer) && fresh(r.value.levelManager) && r.value.config == config
      ensures r.Some? && (found.None? || flags.deleteIfExists) ==>
                r.value.Valid() && r.value.db == EMPTY && r.value.disk == map[] && r.value.cfgs == map[]
      ensures r.Some? && found.Some? && !flags.deleteIfExists ==>
                && r.value.disk == found.value.files && r.value.levelManager.State() == LoadedState(found.value)
                && ReadersOf(r.value.readers, found.value.files, NamesOf(IdsOf(found.value.names)))
      ensures r.Some? && found.Some? && !flags.deleteIfExists && LeftBehind(found.value, before, full, cfgs) ==>
                r.value.Valid() && r.value.db == before.(buffer := []) && r.value.cfgs == cfgs
                    && r.value.readers == full
    {
      hide KvDb.Valid, LeftBehind, Loadable, LoadedState, ReadersOf;
      if found.Some? {
        if flags.errorIfExists {
          return None;
        }
        if !flags.deleteIfExists {
          r := Load(config, found.value, before, full, cfgs);
          return;
        }
      } else if !flags.createIfMissing {
        return None;
      }
      var created := new KvDb(config);
      r := Some(created);
    }

    // Runs the writer over the buffer.
    method WriteBuffer() returns (image: Bytes)
      requires Valid() && Fits(db.buffer, config.writer, db.lm.globalStart)
      ensures IsFile(image, db.buffer, config.writer, db.lm.globalStart)
    {
      hide Inv, MapMatches, DiskMatches, FlushedLeaves, PbtImage, Fits, NodeLeafBuilder.Valid;
      hide NodeInternalBuilder.Valid;
      var writer := new Writer(levelManager.globalStart, [], config.writer);
      var entries := buffer.entries;
      for i := 0 to |entries|
        invariant writer.Valid() && writer.added == entries[..i] && fresh(writer) && fresh(writer.bufferLeaf)
                  && fresh(writer.bufferInternal)
        invariant writer.config == config.writer && writer.globalStart == db.lm.globalStart
      {
        writer.Add(entries[i].key, entries[i].value);
        assert entries[..i + 1] == entries[..i] + [Entry(entries[i].key, entries[i].value)];
      }
      assert entries[..|entries|] == entries;
      writer.Finish();
      image := writer.storage;
    }

    /** The buffer becomes the newest level-0 file. */
    method FlushBuffer()
      requires config.writer.Allowed() && Valid() && Room(Held(db), config.writer) && NamesLeft(db.lm)
      modifies this`readers, this`disk, this`db, this`cfgs, buffer, levelManager
      ensures Valid() && db == Database.FlushBuffer(old(db)) && WrittenWith(old(cfgs), cfgs, config.writer)
      ensures forall name :: name in old(disk) ==> name in disk && disk[name] == old(disk)[name]
    {
      hide Linked, Room, IsFile, Fits, FileName, NameLess, Put, NamesLeft, OpenReader, Database.FlushBuffer;
      hide Reader.Holds, Levels.Advance, DataSize;
      FlushLinked(config, buffer.entries, levelManager.State(), readers, disk, db, cfgs);
      NewName(config, buffer.entries, levelManager.State(), readers, disk, db, cfgs);
      if buffer.GetSize() <= 0 {
        return;
      }
      ghost var id := FileId(0, db.lm.nextIndex);
      var numEntries := buffer.GetCount();
      var name := levelManager.GetNextLevel0FilePath().value;
      var image := WriteBuffer();
      OpenFinished(image, db.buffer, config.writer, db.lm.globalStart);
      var reader := OpenReader(image).value;
      assert reader.Holds(db.buffer, config.writer, db.lm.globalStart);
      buffer.Clear();
      AdvanceManager(numEntries);
      disk := disk[name := image];
      readers := Put(readers, name, reader);
      db := Database.FlushBuffer(db);
      cfgs := cfgs[id := config.writer];
    }

    // The two level-manager calls at the end of a flush.
    method AdvanceManager(numEntries: nat)
      requires levelManager.levels != []
      modifies levelManager
      ensures levelManager.State() == Levels.Advance(old(levelManager.State()), numEntries)
    {
      levelManager.AdvanceLevel0();
      levelManager.SetGlobalStart(levelManager.globalStart + numEntries);
    }

    /** Readers of the sources in the order of the operation, and the smallest global start among them. */
    method CollectSources(sources: seq<FileId>, ghost ids: seq<FileId>)
            returns (sourceReaders: seq<Reader>, globalStart: nat)
      requires MapMatches(readers, db.files, cfgs, ids) && (forall a, b :: 0 <= a < b < |ids| ==> ids[a] != ids[b])
      requires forall id :: id in sources ==> id in ids
      ensures OpenOn(sourceReaders, ModelsOf(db.files, cfgs, sources)) && globalStart == MinStart(db.files, sources)
    {
      hide MapMatches, Reader.Holds, NameOf, IsFile;
      sourceReaders, globalStart := [], U64_LIMIT - 1;
      for i := 0 to |sources|
        invariant |sourceReaders| == i && globalStart == MinStart(db.files, sources[..i])
        invariant forall k :: 0 <= k < i ==>
                  sourceReaders[k].Holds(EntriesAt(db.files, sources[k]), CfgAt(cfgs, sources[k]),
                  StartAt(db.files, sources[k]))
      {
        assert sources[i] in ids;
        SourceReader(readers, db.files, cfgs, ids, sources[i]);
        var reader := Find(readers, NameOf(sources[i])).value;
        sourceReaders := sourceReaders + [reader];
        assert sources[..i + 1][..i] == sources[..i];
        if reader.GetGlobalStart() < globalStart {
          globalStart := reader.GetGlobalStart();
        }
      }
      assert sources[..|sources|] == sources;
    }

    // Runs the writer over the sources.
    method WriteMerge(sourceReaders: seq<Reader>, globalStart: nat, ghost files: seq<FileModel>) returns (image: Bytes)
      requires config.writer.Allowed() && OpenOn(sourceReaders, files)
      requires Fits(MergeWritten(RunsOf(files)), config.writer, globalStart)
      ensures IsFile(image, MergeWritten(RunsOf(files)), config.writer, globalStart)
    {
      hide FlushedLeaves, PbtImage, Fits, NodeLeafBuilder.Valid, NodeInternalBuilder.Valid, OpenOn, MergeWritten;
      var writer := new Writer(globalStart, [], config.writer);
      writer.Merge(sourceReaders, files);
      assert [] + MergeWritten(RunsOf(files)) == MergeWritten(RunsOf(files));
      writer.Finish();
      image := writer.storage;
    }

    // The loop that drops the source readers and files.
    method EraseSources(sources: seq<FileId>)
      modifies this`readers, this`disk
      ensures readers == EraseAll(old(readers), NamesOf(sources))
      ensures disk == old(disk) - NameSet(NamesOf(sources))
    {
      hide NameOf, Erase, EraseAll, FileName;
      ghost var names := NamesOf(sources);
      EraseAllNothing(old(readers), names);
      assert disk == old(disk) - {};
      for i := 0 to |sources|
        invariant readers == EraseAll(old(readers), names[..i])
        invariant disk == old(disk) - NameSet(names[..i])
      {
        var name := NameOf(sources[i]);
        EraseStep(old(readers), old(disk), names, i);
        readers := Erase(readers, name);
        disk := disk - {name};
      }
      assert names[..|sources|] == names;
    }

    /** Merges the sources into the target file and drops them. */
    method PerformMergeOperation(op: MergeOperation, ghost keep: seq<FileId>, ghost tail: seq<FileId>)
      requires config.writer.Allowed() && Valid() && Room(Held(db), config.writer)
      requires TakesTail(db, op, keep, tail) && SortsLast(keep + tail, op.dst) && Named(op.dst)
      modifies this`readers, this`disk, this`db, this`cfgs, levelManager
      ensures Valid() && db == Database.PerformMerge(old(db), op) && WrittenWith(old(cfgs), cfgs, config.writer)
    {
      hide Linked, Room, IsFile, Fits, NameOf, Named, NameLess, Put, OpenReader, Database.PerformMerge, Reader.Holds;
      hide Apply, TakesTail, MapMatches;
      hide MergeWritten, MinStart, EraseAll, SortsLast, OpenOn, NamesOf;
      MergeLinked(config, buffer.entries, levelManager.State(), readers, disk, db, cfgs, op, keep, tail);
      ghost var files := ModelsOf(db.files, cfgs, op.sources);
      var sourceReaders, globalStart := CollectSources(op.sources, keep + tail);
      var targetName := NameOf(op.dst);
      var image := WriteMerge(sourceReaders, globalStart, files);
      OpenFinished(image, MergeWritten(RunsOf(files)), config.writer, globalStart);
      var reader := OpenReader(image).value;
      assert reader.Holds(MergeWritten(RunsAt(db.files, op.sources)), config.writer, MinStart(db.files, op.sources));
      levelManager.ApplyMergeOperation(op);
      disk := disk[targetName := image];
      readers := Put(readers, targetName, reader);
      EraseSources(op.sources);
      db := Database.PerformMerge(db, op);
      cfgs := cfgs[op.dst := config.writer];
    }

    /** Wherever between finishing the target and removing the last source a merge ends, `CrashedMergeLoads` says what
        opening finds. */
    lemma MergeMayEnd(op: MergeOperation, keep: seq<FileId>, tail: seq<FileId>, target: Reader, done: nat)
      requires Valid() && TakesTail(db, op, keep, tail) && SortsLast(keep + tail, op.dst) && Named(op.dst)
      requires config.writer.Allowed() && Room(Held(db), config.writer) && done <= |op.sources|
      requires target.Holds(MergeWritten(RunsAt(db.files, op.sources)), config.writer, MinStart(db.files, op.sources))
      ensures Crash(db, cfgs, readers, disk, op, keep, tail, config.writer, target, done).Valid()
    {
      hide Inv, MapMatches, DiskMatches, Room, SortsLast, Named, MergeWritten, MinStart, Apply, Reader.Holds, Order;
      hide Contents;
      RoomCounts(Held(db), config.writer);
      HeldCount(db);
    }

    /** Flushes the buffer and performs the cascaded merge that becomes due; below the limit every file in the directory
        stays byte for byte. */
    method Flush()
      requires config.writer.Allowed() && Valid() && Room(Held(db), config.writer) && NamesLeft(db.lm)
      modifies this`readers, this`disk, this`db, this`cfgs, buffer, levelManager
      ensures Valid() && config.maxLevelCount > 0 && db == Database.Flush(old(db), Config())
      ensures WrittenWith(old(cfgs), cfgs, config.writer)
      ensures NewestCount(old(db)) < config.maxLevelCount ==>
                forall name :: name in old(disk) ==> name in disk && disk[name] == old(disk)[name]
    {
      hide Inv, MapMatches, DiskMatches, Room, NamesLeft, Database.FlushBuffer, Database.PerformMerge, Cascade;
      hide TakesTail, SortsLast, Named, Order, Lower, NewestCount;
      AfterFlush(db, config.writer);
      FlushedLevels(db);
      FlushBuffer();
      var op := levelManager.GetCascadedMergeOperation();
      if op.Some? {
        CascadeReady(db, Config());
        PerformMergeOperation(op.value, Order(db.lm.levels, op.value.dst.level),
            Lower(db.lm.levels, op.value.dst.level));
      }
    }

    /** Flushes the buffer and merges all files into one. */
    method Compact()
      requires config.writer.Allowed() && Valid() && Room(Held(db), config.writer) && NamesLeft(db.lm)
      modifies this`readers, this`disk, this`db, this`cfgs, buffer, levelManager
      ensures Valid() && db == Database.Compact(old(db))
      ensures WrittenWith(old(cfgs), cfgs, config.writer)
    {
      hide Inv, MapMatches, DiskMatches, Room, NamesLeft, Database.FlushBuffer, Database.PerformMerge, FullMerge;
      hide TakesTail, SortsLast, Named, Order;
      AfterFlush(db, config.writer);
      FlushBuffer();
      var op := levelManager.GetFullMerge();
      if op.Some? {
        FullMergeReady(db);
        PerformMergeOperation(op.value, [], Order(db.lm.levels, 0));
      }
    }

    /** Buffers an entry; flushes once the buffered bytes exceed the configured size. */
    method Add(key: Bytes, value: Bytes)
      requires config.writer.Allowed() && Valid() && NamesLeft(db.lm)
      requires Room(Held(db) + multiset{Entry(key, value)}, config.writer)
      modifies this`readers, this`disk, this`db, this`cfgs, buffer, levelManager
      ensures Valid() && config.maxLevelCount > 0 && db == Database.Add(old(db), Config(), Entry(key, value))
      ensures WrittenWith(old(cfgs), cfgs, config.writer)
    {
      hide Inv, MapMatches, DiskMatches, Room, NamesLeft, InsertLast, Database.Flush, DataSize;
      ghost var e := Entry(key, value);
      buffer.Insert(key, value);
      Inserted(db, e);
      db := db.(buffer := InsertLast(db.buffer, e));
      if buffer.GetSize() > config.maxBufferSize {
        Flush();
      }
    }

    /** The value of the first match of the file searches, the files visited in the order of their names. */
    method Get(key: Bytes) returns (value: Option<Bytes>)
      requires Valid()
      ensures value == StoredGet(db.files, cfgs, Order(db.lm.levels, 0), key)
      ensures value.Some? ==> Entry(key, value.value) in Contents(db)
      ensures FilesSorted(db) ==> value == Database.Get(db, key)
    {
      hide Valid, MapMatches, NameOf, Named, Reader.Holds, Order, StoredGet, Contents, FilesSorted, GetFrom, Lookup;
      ReadersMatch();
      ghost var order := Order(db.lm.levels, 0);
      StoredGetIs(readers, db, cfgs, key);
      StoredGetEnds(db.files, cfgs, order, key);
      for i := 0 to |readers|
        invariant |readers| == |order| && StoredGet(db.files, cfgs, order, key) ==
                  StoredGet(db.files, cfgs, order[i..], key)
      {
        FileOf(readers, db.files, cfgs, order, i);
        StoredGetStep(db.files, cfgs, order, i, key);
        value := readers[i].1.Get(key, EntriesAt(db.files, order[i]), cfgs[order[i]], StartAt(db.files, order[i]));
        if value.Some? {
          return;
        }
      }
      return None;
    }

    /** The entry at a position, counting through the files oldest first. */
    method At(index: nat) returns (e: Option<Entry>)
      requires Valid()
      ensures e == if index < |Contents(db)| then Some(Contents(db)[index]) else None
    {
      hide Valid, MapMatches, NameOf, Named, Reader.Holds, Order, IsFile, Joined, EntriesAt, StartAt, Contents;
      ReadersMatch();
      ContentsAre(db);
      ghost var order := Order(db.lm.levels, 0);
      var left: nat := index;
      assert order[..0] == [];
      JoinedNone(db.files);
      for i := 0 to |readers|
        invariant |readers| == |order| && |Joined(db.files, order[..i])| + left == index
      {
        ghost var id := order[i];
        FileOf(readers, db.files, cfgs, order, i);
        JoinedAt(db.files, order, i);
        var reader := readers[i].1;
        reader.HeightZero(EntriesAt(db.files, id), cfgs[id], StartAt(db.files, id));
        if left < reader.Count() {
          e := reader.EntryAtIndex(left, EntriesAt(db.files, id), cfgs[id], StartAt(db.files, id));
          return;
        }
        left := left - reader.Count();
      }
      assert order[..|order|] == order;
      return None;
    }

    /** An iterator over everything flushed; the source needs at least one file. */
    method Begin() returns (it: DbIterator)
      requires Valid() && readers != []
      ensures fresh(it) && it.Valid() && it.Rest() == MergeIterated(RunsAt(db.files, Order(db.lm.levels, 0)))
      ensures forall file :: file in it.itrs ==> fresh(file)
    {
      hide Valid, MapMatches, NameOf, Named, Reader.Holds, Order, PbtIterator.Valid;
      ReadersMatch();
      ghost var order := Order(db.lm.levels, 0);
      ghost var runs: Runs := RunsAt(db.files, order);
      var itrs: seq<PbtIterator> := [];
      for i := 0 to |readers|
        invariant |readers| == |order| && |itrs| == i && Opened(itrs, runs)
        invariant forall file :: file in itrs ==> fresh(file)
      {
        FileOf(readers, db.files, cfgs, order, i);
        var file := readers[i].1.Begin(EntriesAt(db.files, order[i]), cfgs[order[i]], StartAt(db.files, order[i]));
        OpenedPush(itrs, file, runs);
        itrs := itrs + [file];
      }
      it := new DbIterator(itrs, runs);
    }

    /** An iterator over the merge of what each file has left from where its search ends; on sorted files that is the
        merge of all files from the lower bound of the key on. */
    method Seek(key: Bytes) returns (it: DbIterator)
      requires Valid() && readers != []
      ensures fresh(it) && it.Valid() && it.Rest() == MergeIterated(CutsAt(db.files, cfgs, Order(db.lm.levels, 0), key))
      ensures var all := MergeIterated(RunsAt(db.files, Order(db.lm.levels, 0)));
              FilesSorted(db) ==> forall at: nat :: at <= |all| && IsLowerBound(all, key, at) ==> it.Rest() == all[at..]
    {
      hide Valid, MapMatches, NameOf, Named, Reader.Holds, Order, PbtIterator.Valid, MergeIterated, IsLowerBound;
      hide CutRun, SeekPlace, FilesSorted, CutIn;
      ReadersMatch();
      ghost var order := Order(db.lm.levels, 0);
      ghost var runs: Runs := RunsAt(db.files, order);
      ghost var cut: Runs := CutsAt(db.files, cfgs, order, key);
      var itrs: seq<PbtIterator> := [];
      for i := 0 to |readers|
        invariant |readers| == |order| && |itrs| == i && Opened(itrs, cut)
        invariant forall file :: file in itrs ==> fresh(file)
      {
        FileOf(readers, db.files, cfgs, order, i);
        ghost var at: nat;
        var file: PbtIterator;
        file, at := readers[i].1.SeekFirst(key, EntriesAt(db.files, order[i]), cfgs[order[i]],
            StartAt(db.files, order[i]));
        StandsCut(file, db.files, cfgs, order[i], key, at);
        OpenedPush(itrs, file, cut);
        itrs := itrs + [file];
      }
      it := new DbIterator(itrs, cut);
      if FilesSorted(db) {
        FilesAllSorted(db, order);
        CutsSorted(readers, db, cfgs, key);
        forall at: nat | at <= |MergeIterated(runs)| && IsLowerBound(MergeIterated(runs), key, at)
            ensures it.Rest() == MergeIterated(runs)[at..] {
          SeekIsSuffix(runs, key, cut, at);
        }
      }
    }

    // The seek in one file, and how many entries are left to skip behind it.
    method SeekFile(i: nat, left: nat, ghost ids: seq<FileId>) returns (file: PbtIterator, after: nat)
      requires i < |readers| == |ids| && MapMatches(readers, db.files, cfgs, ids)
      ensures fresh(file) && file.Valid()
      ensures var run := EntriesAt(db.files, ids[i]);
              var here := if left < |run| then left else |run|;
              file.Rest() == run[here..] && after == left - here
    {
      hide MapMatches, NameOf, Named, Reader.Holds, PbtIterator.Valid, IsFile;
      ghost var id := ids[i];
      FileOf(readers, db.files, cfgs, ids, i);
      var reader := readers[i].1;
      reader.HeightZero(EntriesAt(db.files, id), cfgs[id], StartAt(db.files, id));
      file := reader.Seek(left, EntriesAt(db.files, id), cfgs[id], StartAt(db.files, id));
      after := left - if left < reader.Count() then left else reader.Count();
    }

    /** An iterator that skips `index` entries, counted through the files oldest first, and merges what is left of each
        file. */
    method SeekIndex(index: nat) returns (it: DbIterator)
      requires Valid() && readers != []
      ensures fresh(it) && it.Valid() && it.Rest() ==
              MergeIterated(Skipped(RunsAt(db.files, Order(db.lm.levels, 0)), index))
    {
      hide MapMatches, Order, PbtIterator.Valid, MergeIterated, Skipped, Opened, Valid, DbIterator.Valid, Flatten;
      hide EntriesAt;
      ReadersMatch();
      ghost var order := Order(db.lm.levels, 0);
      ghost var runs: Runs := RunsAt(db.files, order);
      ghost var cut: Runs := [];
      var itrs: seq<PbtIterator> := [];
      var left: nat := index;
      SkippedParts(runs, index, 0);
      OpenedNone();
      for i := 0 to |readers|
        invariant |itrs| == |cut| == i && Opened(itrs, cut) && forall file :: file in itrs ==> fresh(file)
        invariant Skipped(runs, index) == cut + Skipped(runs[i..], left)
      {
        SkippedPush(runs, index, cut, i, left);
        var file: PbtIterator;
        file, left := SeekFile(i, left, order);
        OpenedMore(itrs, file, cut);
        itrs, cut := itrs + [file], cut + [file.Rest()];
      }
      SkippedParts(runs, left, |runs|);
      assert cut + [] == cut;
      it := new DbIterator(itrs, cut);
    }

    /** The traversals of all files, one after the other. Without callbacks that is all satisfying values of the files
        visited: all files if the empty string satisfies the predicate, those of a single leaf otherwise. */
    method Traverse(p: Bytes -> bool, acc: seq<Bytes>) returns (out: seq<Bytes>)
      requires Valid()
      ensures out == acc + PrunedAll(db.files, cfgs, Order(db.lm.levels, 0), p)
      ensures AllCover(db.files, cfgs, p) ==> out == acc + Select(Values(Contents(db)), p)
      ensures NoCallbacks(db.files, cfgs) ==>
                out == acc + Select(Values(Joined(db.files, Visited(db.files, cfgs, Order(db.lm.levels, 0), p))), p)
    {
      hide Valid, MapMatches, NameOf, Named, Reader.Holds, Order, Covers, Select, AllCover, Pruned, Packing.Levels;
      hide Joined, Values, Linked;
      hide PrunedAll, EntriesAt, StartAt, Visited, NoCallbacks;
      ghost var order := Order(db.lm.levels, 0);
      ghost var covers, bare := AllCover(db.files, cfgs, p), NoCallbacks(db.files, cfgs);
      ReadersMatch();
      out := acc;
      NothingVisited(db.files, cfgs, order, acc, p);
      NothingSelected(db.files, order, acc, p);
      NothingPruned(db.files, cfgs, order, acc, p);
      for i := 0 to |readers|
        invariant |readers| == |order| && out == acc + PrunedAll(db.files, cfgs, order[..i], p)
        invariant covers ==> out == acc + Select(Values(Joined(db.files, order[..i])), p)
        invariant bare ==>
                    out == acc + Select(Values(Joined(db.files, Visited(db.files, cfgs, order[..i], p))), p)
      {
        ghost var id := order[i];
        FileOf(readers, db.files, cfgs, order, i);
        SelectJoined(db.files, order, i, acc, p);
        PrunedStep(db.files, cfgs, order, i, acc, p);
        OneCovers(db.files, cfgs, id, p);
        OneCallback(db.files, cfgs, id);
        VisitedStep(db.files, cfgs, order, i, acc, p);
        out := Traversal.Traverse(readers[i].1, p, out, EntriesAt(db.files, id), cfgs[id], StartAt(db.files, id));
      }
      assert order[..|order|] == order;
    }
  }
}
