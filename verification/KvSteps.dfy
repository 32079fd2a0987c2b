// What each operation of the database relies on and what it leaves, stated on values.
// The methods of the object call these lemmas before they change anything, and afterwards only put the new values in
// place.
module KvSteps {
  import opened Bytes
  import opened Entries
  import opened Packing
  import opened StoredFile
  import opened Reading
  import opened Merging
  import opened Buffering
  import opened FileNames
  import opened Levels
  import opened LevelManagement
  import opened Database
  import opened DbRuns
  import opened ReaderMaps
  import opened KvLinks

  lemma Inserted(db: Db, e: Entry)
    requires Inv(db)
    ensures var after := db.(buffer := InsertLast(db.buffer, e));
            Inv(after) && Held(after) == Held(db) + multiset{e}
  {
    hide Consistent, Order, Joined, InsertLast;
    InsertStable(db.buffer, e);
    InsertPermutes(db.buffer, e);
  }

  /** A flush of the buffer moves entries and uses up at most one index. */
  lemma AfterFlush(db: Db, cfg: WriterConfig)
    requires Inv(db) && cfg.Allowed() && Room(Held(db), cfg) && NamesLeft(db.lm)
    ensures var mid := Database.FlushBuffer(db);
            && Inv(mid) && Room(Held(mid), cfg) && |Contents(mid)| < U64_LIMIT
            && mid.lm.nextIndex < U64_LIMIT && |mid.lm.levels| < 99_999_999
  {
    hide Inv, Room, Contents;
    FlushBufferKeeps(db);
    var mid := Database.FlushBuffer(db);
    assert Held(mid) == Held(db);
    RoomCounts(Held(db), cfg);
    HeldCount(mid);
  }

  lemma CascadeReady(db: Db, cfg: Database.Config)
    requires Inv(db) && cfg.maxLevelCount > 0 && Cascade(db.lm.levels, cfg.maxLevelCount).Some?
    requires db.lm.nextIndex < U64_LIMIT && |db.lm.levels| < 99_999_999
    ensures var op := Cascade(db.lm.levels, cfg.maxLevelCount).value;
            && op.dst.level <= |db.lm.levels|
            && var keep, tail := Order(db.lm.levels, op.dst.level), Lower(db.lm.levels, op.dst.level);
               TakesTail(db, op, keep, tail) && SortsLast(keep + tail, op.dst) && Named(op.dst)
  {
    hide Inv, Cascade, TakesTail, SortsLast, Named, Lower, Listed, Order;
    InvSorted(db);
    CascadeTakesTail(db, cfg);
    CascadeFacts(db.lm, cfg.maxLevelCount);
    CascadeSortsLast(db.lm, cfg.maxLevelCount);
    NamedIfSmall(Cascade(db.lm.levels, cfg.maxLevelCount).value.dst);
  }

  lemma FullMergeReady(db: Db)
    requires Inv(db) && FullMerge(db.lm.levels).Some?
    requires db.lm.nextIndex < U64_LIMIT && |db.lm.levels| < 99_999_999
    ensures var op, all := FullMerge(db.lm.levels).value, Order(db.lm.levels, 0);
            TakesTail(db, op, [], all) && SortsLast([] + all, op.dst) && Named(op.dst)
  {
    hide Inv, FullMerge, TakesTail, SortsLast, Named, Order;
    InvSorted(db);
    FullMergeTakesAll(db);
    FullMergeFacts(db.lm);
    FullMergeSortsLast(db.lm);
    assert [] + Order(db.lm.levels, 0) == Order(db.lm.levels, 0);
    NamedIfSmall(FullMerge(db.lm.levels).value.dst);
  }

  function NameSet(names: seq<string>): set<string> {
    set n | n in names
  }

  lemma EraseAllNothing(m: ReaderMap, names: seq<string>)
    ensures EraseAll(m, names[..0]) == m && NameSet(names[..0]) == {}
  {
    assert names[..0] == [];
  }

  lemma EraseStep(m: ReaderMap, disk: map<string, Bytes>, names: seq<string>, i: nat)
    requires i < |names|
    ensures EraseAll(m, names[..i + 1]) == Erase(EraseAll(m, names[..i]), names[i])
    ensures disk - NameSet(names[..i + 1]) == disk - NameSet(names[..i]) - {names[i]}
  {
    hide Erase;
    assert names[..i + 1] == names[..i] + [names[i]];
    assert names[..i + 1][..i] == names[..i];
    assert NameSet(names[..i + 1]) == NameSet(names[..i]) + {names[i]};
  }

  function CfgAt(cfgs: Configs, id: FileId): WriterConfig {
    if id in cfgs then cfgs[id] else WriterConfig(0, None)
  }

  ghost function ModelsOf(files: Files, cfgs: Configs, ids: seq<FileId>): (models: seq<FileModel>)
    ensures |models| == |ids|
    ensures forall i :: 0 <= i < |ids| ==>
              models[i] == FileModel(EntriesAt(files, ids[i]), CfgAt(cfgs, ids[i]), StartAt(files, ids[i]))
    ensures RunsOf(models) == RunsAt(files, ids)
  {
    var models := seq(|ids|, i requires 0 <= i < |ids| => FileModel(EntriesAt(files, ids[i]), CfgAt(cfgs, ids[i]),
        StartAt(files, ids[i])));
    assert RunsOf(models) == RunsAt(files, ids);
    models
  }

  lemma SourceReader(m: ReaderMap, files: Files, cfgs: Configs, ids: seq<FileId>, id: FileId)
    requires MapMatches(m, files, cfgs, ids) && id in ids && forall a, b :: 0 <= a < b < |ids| ==> ids[a] != ids[b]
    ensures Find(m, NameOf(id)).Some?
    ensures var r := Find(m, NameOf(id)).value;
            r.Holds(EntriesAt(files, id), CfgAt(cfgs, id), StartAt(files, id))
                && r.GetGlobalStart() == StartAt(files, id)
  {
    hide NameOf, Named, IsFile, FooterOf;
    var i :| 0 <= i < |ids| && ids[i] == id;
    FindIs(m, files, cfgs, ids, i);
    assert ReaderMatches(m[i], files, cfgs, ids[i]);
    m[i].1.HeightZero(files[id].entries, cfgs[id], files[id].start);
  }

  /** What a merge relies on and what it leaves, for whatever image it wrote. */
  lemma MergeLinked(config: KvConfig, buffered: seq<Entry>, s: State, m: ReaderMap, disk: map<string, Bytes>, db: Db,
          cfgs: Configs,
                                       op: MergeOperation, keep: seq<FileId>, tail: seq<FileId>)
    requires Linked(config, buffered, s, m, disk, db, cfgs) && config.writer.Allowed() && Room(Held(db), config.writer)
    requires TakesTail(db, op, keep, tail) && SortsLast(keep + tail, op.dst) && Named(op.dst)
    ensures MapMatches(m, db.files, cfgs, keep + tail)
            && (forall a, b :: 0 <= a < b < |keep + tail| ==> (keep + tail)[a] != (keep + tail)[b])
    ensures forall id :: id in op.sources ==> id in keep + tail
    ensures Fits(MergeWritten(RunsAt(db.files, op.sources)), config.writer, MinStart(db.files, op.sources))
    ensures s == db.lm
    ensures forall r: Reader :: r.Holds(MergeWritten(RunsAt(db.files, op.sources)), config.writer,
            MinStart(db.files, op.sources)) ==>
              Linked(config, buffered, Apply(s, op), EraseAll(Put(m, NameOf(op.dst), r), NamesOf(op.sources)),
                     disk[NameOf(op.dst) := r.storage] - NameSet(NamesOf(op.sources)), Database.PerformMerge(db, op),
                         cfgs[op.dst := config.writer])
  {
    hide Inv, MapMatches, DiskMatches, Fits, SortsLast, NameLess, Put, Reader.Holds, FileName, NameOf, Named;
    hide MergeWritten, MinStart, Apply, EraseAll;
    hide Room, Database.PerformMerge, TakesTail;
    RoomCounts(Held(db), config.writer);
    HeldCount(db);
    TailFacts(db, op, keep, tail);
    MergeKeeps(db, op, keep, tail);
    MergeFits(db, config.writer, op, keep, tail);
    MergeBuffer(db, op);
    MergeState(db, op);
    forall r: Reader | r.Holds(MergeWritten(RunsAt(db.files, op.sources)), config.writer,
        MinStart(db.files, op.sources))
      ensures Linked(config, buffered, Apply(s, op), EraseAll(Put(m, NameOf(op.dst), r), NamesOf(op.sources)),
                     disk[NameOf(op.dst) := r.storage] - NameSet(NamesOf(op.sources)), Database.PerformMerge(db, op),
                         cfgs[op.dst := config.writer])
    {
      MergeMatches(db, cfgs, config.writer, m, disk, op, keep, tail, r);
    }
  }

  lemma MergeState(db: Db, op: MergeOperation)
    ensures Database.PerformMerge(db, op).lm == Apply(db.lm, op)
  {
  }

  lemma HeldCount(db: Db)
    ensures |Held(db)| == |Contents(db)| + |db.buffer| && multiset(Contents(db)) <= Held(db)
  {
  }

  lemma TailFacts(db: Db, op: MergeOperation, keep: seq<FileId>, tail: seq<FileId>)
    requires Inv(db) && TakesTail(db, op, keep, tail)
    ensures Order(db.lm.levels, 0) == keep + tail && (forall id :: id in op.sources ==> id in keep + tail)
    ensures forall a, b :: 0 <= a < b < |keep + tail| ==> (keep + tail)[a] != (keep + tail)[b]
    ensures Order(Apply(db.lm, op).levels, 0) == keep + [op.dst] && op.dst !in keep + tail
  {
    hide Contiguous, Joined;
    forall id | id in op.sources ensures id in keep + tail {
      assert id in multiset(tail);
    }
    forall a, b | 0 <= a < b < |keep + tail| ensures (keep + tail)[a] != (keep + tail)[b] {
      assert (keep + tail)[a].index < (keep + tail)[b].index;
    }
  }

  lemma MergeFits(db: Db, cfg: WriterConfig, op: MergeOperation, keep: seq<FileId>, tail: seq<FileId>)
    requires Inv(db) && cfg.Allowed() && Room(Held(db), cfg) && TakesTail(db, op, keep, tail)
             && |Contents(db)| < U64_LIMIT
    ensures Fits(MergeWritten(RunsAt(db.files, op.sources)), cfg, MinStart(db.files, op.sources))
  {
    hide Fits, MergeWritten, MinStart, Joined, Contiguous, Apply, RunsAt, Contents;
    var es := MergeWritten(RunsAt(db.files, op.sources));
    MergeKeeps(db, op, keep, tail);
    TailStarts(db.files, keep, tail, op.sources);
    HeldCount(db);
    SameSizeSame(Contents(PerformMerge(db, op)), Contents(db));
    assert multiset(es) <= multiset(Joined(db.files, keep) + es);
    assert multiset(es) <= Held(db);
  }

  lemma MergeMatches(db: Db, cfgs: Configs, cfg: WriterConfig, m: ReaderMap, disk: map<string, Bytes>,
                                        op: MergeOperation, keep: seq<FileId>, tail: seq<FileId>, r: Reader)
    requires Inv(db) && TakesTail(db, op, keep, tail) && MapMatches(m, db.files, cfgs, keep + tail)
             && DiskMatches(disk, m)
    requires SortsLast(keep + tail, op.dst) && Named(op.dst)
    requires r.Holds(MergeWritten(RunsAt(db.files, op.sources)), cfg, MinStart(db.files, op.sources))
    ensures var after := Database.PerformMerge(db, op);
            var left := EraseAll(Put(m, NameOf(op.dst), r), NamesOf(op.sources));
            && MapMatches(left, after.files, cfgs[op.dst := cfg], keep + [op.dst])
            && DiskMatches(disk[NameOf(op.dst) := r.storage] - NameSet(NamesOf(op.sources)), left)
  {
    hide MapMatches, DiskMatches, NameOf, Named, Put, Reader.Holds, Contiguous, Contents, SortsLast, EraseAll;
    hide MergeWritten, MinStart, Apply, Inv;
    hide TakesTail, Database.PerformMerge;
    TailFacts(db, op, keep, tail);
    SourcesAreTail(db, op, keep, tail);
    MergedEntries(db, op, keep, tail);
    InvSorted(db);
    OrderDistinct(db.lm, keep, tail);
    MergeReaders(m, db.files, cfgs, keep, tail, op.sources, op.dst, r);
    MatchedIds(m, db.files, cfgs, keep + tail);
    PrefixMatches(m, db.files, cfgs, keep, tail);
    KeptFiles(db, op, keep, tail);
    AppendMatches(m[..|keep|], db.files, Database.PerformMerge(db, op).files, cfgs, cfgs[op.dst := cfg], keep, op.dst,
        r);
    SourceNames(m, db.files, cfgs, keep, tail, op.sources);
    DiskMerge(disk, m, |keep|, NameSet(NamesOf(op.sources)));
    NamesDistinct(m, db.files, cfgs, keep + tail, op.dst);
    TargetUnnamed(m, db.files, cfgs, keep + tail, op.sources, op.dst);
    var names := NameSet(NamesOf(op.sources));
    DiskAppend(disk - names, m[..|keep|], NameOf(op.dst), r);
    assert disk[NameOf(op.dst) := r.storage] - names == (disk - names)[NameOf(op.dst) := r.storage];
  }

  lemma SourcesAreTail(db: Db, op: MergeOperation, keep: seq<FileId>, tail: seq<FileId>)
    requires TakesTail(db, op, keep, tail)
    ensures multiset(op.sources) == multiset(tail)
  {
  }

  lemma KeptFiles(db: Db, op: MergeOperation, keep: seq<FileId>, tail: seq<FileId>)
    requires Inv(db) && TakesTail(db, op, keep, tail)
    ensures var after := Database.PerformMerge(db, op);
            && op.dst in after.files
            && after.files[op.dst] == FileData(MinStart(db.files, op.sources),
                 MergeWritten(RunsAt(db.files, op.sources)))
            && forall k :: k in keep ==> k in db.files && k in after.files && db.files[k] == after.files[k]
  {
    hide Contiguous, Joined, MergeWritten, MinStart, Apply, Consistent;
    var after := Database.PerformMerge(db, op);
    MergedEntries(db, op, keep, tail);
    assert op.dst in keep + [op.dst];
    forall k | k in keep ensures k in db.files && k in after.files && db.files[k] == after.files[k] {
      assert k in keep + tail && k in keep + [op.dst];
      assert EntriesAt(after.files, k) == EntriesAt(db.files, k) && StartAt(after.files, k) == StartAt(db.files, k);
    }
  }

  /** What the flush relies on and what it leaves, for whatever image it wrote. */
  lemma FlushLinked(config: KvConfig, buffered: seq<Entry>, s: State, m: ReaderMap, disk: map<string, Bytes>, db: Db,
          cfgs: Configs)
    requires Linked(config, buffered, s, m, disk, db, cfgs)
    requires config.writer.Allowed() ==> Room(Held(db), config.writer) && NamesLeft(db.lm)
    ensures config.writer.Allowed() && buffered == db.buffer
    ensures Fits(db.buffer, config.writer, db.lm.globalStart)
    ensures DataSize(db.buffer) <= 0 ==> Database.FlushBuffer(db) == db
    ensures s == db.lm && s.levels != [] && FileName(s.nextIndex, 0).Some?
    ensures DataSize(db.buffer) > 0 ==>
              forall r: Reader :: r.Holds(db.buffer, config.writer, db.lm.globalStart) ==>
                var id, name := FileId(0, s.nextIndex), FileName(s.nextIndex, 0).value;
                Linked(config, [], Levels.Advance(s, |db.buffer|), Put(m, name, r), disk[name := r.storage],
                    Database.FlushBuffer(db), cfgs[id := config.writer])
  {
    hide Inv, MapMatches, DiskMatches, Room, Fits, Order, SortsLast, NameLess, Put, Reader.Holds, FileName;
    FlushFits(db, config.writer);
    InvSorted(db);
    LevelsExist(db.lm);
    NamedIfSmall(FileId(0, db.lm.nextIndex));
    FlushBufferKeeps(db);
    if DataSize(db.buffer) > 0 {
      forall r: Reader | r.Holds(db.buffer, config.writer, db.lm.globalStart)
        ensures var id, name := FileId(0, s.nextIndex), FileName(s.nextIndex, 0).value;
                Linked(config, [], Levels.Advance(s, |db.buffer|), Put(m, name, r), disk[name := r.storage],
                    Database.FlushBuffer(db), cfgs[id := config.writer])
      {
        FlushMatches(db, cfgs, config.writer, m, disk, r);
      }
    }
  }

  lemma NewName(config: KvConfig, buffered: seq<Entry>, s: State, m: ReaderMap, disk: map<string, Bytes>, db: Db,
          cfgs: Configs)
    requires Linked(config, buffered, s, m, disk, db, cfgs) && NamesLeft(db.lm)
    ensures FileName(s.nextIndex, 0).Some? && FileName(s.nextIndex, 0).value !in disk
  {
    hide Order, MapMatches, NameOf, FileName, NameLess;
    var id := FileId(0, db.lm.nextIndex);
    NamedIfSmall(id);
    LevelsExist(db.lm);
    AdvanceKeeps(db.lm, 0);
    NamesDistinct(m, db.files, cfgs, Order(db.lm.levels, 0), id);
    NameIs(id);
  }

  lemma NameIs(id: FileId)
    requires Named(id)
    ensures FileName(id.index, id.level).Some? && NameOf(id) == FileName(id.index, id.level).value
  {
    hide FileName;
  }

  lemma FlushFits(db: Db, cfg: WriterConfig)
    requires cfg.Allowed() && Inv(db) && Room(Held(db), cfg)
    ensures Fits(db.buffer, cfg, db.lm.globalStart)
  {
    hide Consistent, Contiguous, Joined, Fits, Order;
    assert multiset(db.buffer) <= Held(db);
    assert |Held(db)| == |Contents(db)| + |db.buffer|;
  }

  lemma FlushMatches(db: Db, cfgs: Configs, cfg: WriterConfig, m: ReaderMap, disk: map<string, Bytes>, r: Reader)
    requires Inv(db) && MapMatches(m, db.files, cfgs, Order(db.lm.levels, 0)) && DiskMatches(disk, m)
             && DataSize(db.buffer) > 0
    requires r.Holds(db.buffer, cfg, db.lm.globalStart) && Named(FileId(0, db.lm.nextIndex))
    ensures var id, after := FileId(0, db.lm.nextIndex), Database.FlushBuffer(db);
            var more := Put(m, NameOf(id), r);
            && MapMatches(more, after.files, cfgs[id := cfg], Order(after.lm.levels, 0))
            && DiskMatches(disk[NameOf(id) := r.storage], more)
  {
    hide MapMatches, DiskMatches, NameOf, Named, Put, Reader.Holds, Contiguous, Contents, SortsLast, Increasing;
    var id, order, after := FileId(0, db.lm.nextIndex), Order(db.lm.levels, 0), Database.FlushBuffer(db);
    FlushSortsLast(db.lm);
    AdvanceKeeps(db.lm, |db.buffer|);
    PutLast(m, db.files, cfgs, order, id, r);
    MatchedIds(m, db.files, cfgs, order);
    AppendMatches(m, db.files, after.files, cfgs, cfgs[id := cfg], order, id, r);
    NamesDistinct(m, db.files, cfgs, order, id);
    DiskAppend(disk, m, NameOf(id), r);
  }
}
