// When the files of a database are sorted by key, over all runs, and what a lookup finds then.
module DbSorted {
  import opened Bytes
  import opened Entries
  import opened Merging
  import opened Buffering
  import opened Levels
  import opened Database
  import opened DbRuns
  import opened ReaderMaps
  import opened KvQueries

  /** What the merge of a flush reads, in the order it reads it; nothing when no merge is due. */
  function CascadeRuns(db: Db, cfg: Config): Runs
    requires cfg.maxLevelCount > 0
  {
    match Cascade(FlushBuffer(db).lm.levels, cfg.maxLevelCount)
    case None => []
    case Some(op) => RunsAt(FlushBuffer(db).files, op.sources)
  }

  function CompactRuns(db: Db): Runs {
    match FullMerge(FlushBuffer(db).lm.levels)
    case None => []
    case Some(op) => RunsAt(FlushBuffer(db).files, op.sources)
  }

  /** What the merge of one operation reads. */
  function MergedBy(db: Db, cfg: Config, op: Operation): Runs
    requires cfg.maxLevelCount > 0
  {
    match op
    case AddOp(k, v) =>
      var added := db.(buffer := InsertLast(db.buffer, Entry(k, v)));
      if DataSize(added.buffer) > cfg.maxBufferSize then CascadeRuns(added, cfg) else []
    case FlushOp => CascadeRuns(db, cfg)
    case CompactOp => CompactRuns(db)
    case ReopenOp(_, _) => []
  }

  ghost predicate KeepsOrderAt(cfg: Config, ops: seq<Operation>, n: nat)
    requires cfg.maxLevelCount > 0 && n < |ops|
  {
    EmptyKeysAfterwards(MergedBy(Run(cfg, ops[..n]).db, ConfigAfter(cfg, ops[..n]), ops[n]))
  }

  /** In every merge of the run, a file with an empty key is followed by files of empty keys only. */
  ghost predicate MergesKeepOrder(cfg: Config, ops: seq<Operation>)
    requires cfg.maxLevelCount > 0
  {
    forall n :: 0 <= n < |ops| ==> KeepsOrderAt(cfg, ops, n)
  }

  lemma FlushBufferSorted(db: Db)
    requires Inv(db)
    ensures FilesSorted(FlushBuffer(db)) <==> FilesSorted(db)
  {
    hide Joined, Contiguous, Sorted, Increasing;
    if DataSize(db.buffer) > 0 {
      LevelsExist(db.lm);
      AdvanceKeeps(db.lm, |db.buffer|);
      var id, after := FileId(0, db.lm.nextIndex), FlushBuffer(db);
      assert id !in db.files && after.files == db.files[id := FileData(db.lm.globalStart, db.buffer)];
      forall k | k in db.files ensures k in after.files && after.files[k] == db.files[k] {
      }
    }
  }

  lemma MergeSorted(db: Db, op: MergeOperation, keep: seq<FileId>, tail: seq<FileId>)
    requires Inv(db) && TakesTail(db, op, keep, tail)
    ensures FilesSorted(PerformMerge(db, op)) <==> FilesSorted(db) && EmptyKeysAfterwards(RunsAt(db.files, op.sources))
  {
    hide MergeWritten, MinStart, Joined, Contiguous, Sorted, Apply, Increasing, EmptyKeysAfterwards;
    var runs, after := RunsAt(db.files, op.sources), PerformMerge(db, op);
    MergedEntries(db, op, keep, tail);
    WrittenSortedIff(runs);
    if FilesSorted(after) {
      assert op.dst in keep + [op.dst];
      assert Sorted(MergeWritten(runs));
      forall id | id in db.files ensures Sorted(db.files[id].entries) {
        assert id in keep + tail;
        if id in keep {
          assert id in keep + [op.dst];
          assert EntriesAt(after.files, id) == EntriesAt(db.files, id);
        } else {
          assert id in multiset(tail);
          var i :| 0 <= i < |op.sources| && op.sources[i] == id;
          assert Sorted(runs[i]);
        }
      }
    }
    if FilesSorted(db) && EmptyKeysAfterwards(runs) {
      FilesAllSorted(db, op.sources);
      forall id | id in after.files ensures Sorted(after.files[id].entries) {
        assert id in keep + [op.dst];
        if id in keep {
          assert id in keep + tail;
          assert EntriesAt(after.files, id) == EntriesAt(db.files, id);
        }
      }
    }
  }

  lemma NoRuns()
    ensures EmptyKeysAfterwards([])
  {
  }

  lemma FlushSorted(db: Db, cfg: Config)
    requires Inv(db) && cfg.maxLevelCount > 0
    ensures FilesSorted(Flush(db, cfg)) <==> FilesSorted(db) && EmptyKeysAfterwards(CascadeRuns(db, cfg))
  {
    hide Inv, FilesSorted, TakesTail, PerformMerge, FlushBuffer, Cascade, EmptyKeysAfterwards;
    var mid := FlushBuffer(db);
    FlushBufferKeeps(db);
    FlushBufferSorted(db);
    NoRuns();
    if Cascade(mid.lm.levels, cfg.maxLevelCount).Some? {
      var op := Cascade(mid.lm.levels, cfg.maxLevelCount).value;
      CascadeTakesTail(mid, cfg);
      MergeSorted(mid, op, Order(mid.lm.levels, op.dst.level), Lower(mid.lm.levels, op.dst.level));
    }
  }

  lemma CompactSorted(db: Db)
    requires Inv(db)
    ensures FilesSorted(Compact(db)) <==> FilesSorted(db) && EmptyKeysAfterwards(CompactRuns(db))
  {
    hide Inv, FilesSorted, TakesTail, PerformMerge, FlushBuffer, FullMerge, EmptyKeysAfterwards;
    var mid := FlushBuffer(db);
    FlushBufferKeeps(db);
    FlushBufferSorted(db);
    NoRuns();
    if FullMerge(mid.lm.levels).Some? {
      FullMergeTakesAll(mid);
      MergeSorted(mid, FullMerge(mid.lm.levels).value, [], Order(mid.lm.levels, 0));
    }
  }

  lemma SameFilesSorted(a: Db, b: Db)
    requires a.files == b.files
    ensures FilesSorted(a) <==> FilesSorted(b)
  {
  }

  lemma StepSorted(t: Tracked, cfg: Config, op: Operation)
    requires cfg.maxLevelCount > 0 && Kept(t) && (op.ReopenOp? ==> IsListing(t.db, op.listing))
    ensures FilesSorted(Step(t, cfg, op).db) <==> FilesSorted(t.db) && EmptyKeysAfterwards(MergedBy(t.db, cfg, op))
  {
    hide Kept, Inv, FilesSorted, Flush, Compact, Reopen, CascadeRuns, CompactRuns, EmptyKeysAfterwards, InsertLast;
    hide IsListing;
    KeptInv(t);
    NoRuns();
    match op {
      case AddOp(k, v) =>
        var e := Entry(k, v);
        var added := Tracked(t.db.(buffer := InsertLast(t.db.buffer, e)), t.flushed, t.pending + [e]);
        InsertKept(t, e);
        KeptInv(added);
        SameFilesSorted(added.db, t.db);
        FlushSorted(added.db, cfg);
      case FlushOp => FlushSorted(t.db, cfg);
      case CompactOp => CompactSorted(t.db);
      case ReopenOp(listing, _) =>
        ReopenIsIdentity(t.db, listing);
        SameFilesSorted(Reopen(t.db, listing), t.db);
    }
  }

  lemma OrderedPrefix(cfg: Config, ops: seq<Operation>)
    requires cfg.maxLevelCount > 0 && ops != []
    ensures var front := ops[..|ops| - 1];
            MergesKeepOrder(cfg, ops) <==>
              && MergesKeepOrder(cfg, front)
              && EmptyKeysAfterwards(MergedBy(Run(cfg, front).db, ConfigAfter(cfg, front), ops[|ops| - 1]))
  {
    hide KeepsOrderAt, MergedBy, EmptyKeysAfterwards;
    var front := ops[..|ops| - 1];
    forall n | 0 <= n < |front| ensures KeepsOrderAt(cfg, front, n) <==> KeepsOrderAt(cfg, ops, n) {
      OrderedInFront(cfg, ops, n);
    }
    LastOrdered(cfg, ops);
  }

  lemma OrderedInFront(cfg: Config, ops: seq<Operation>, n: nat)
    requires cfg.maxLevelCount > 0 && n + 1 < |ops|
    ensures KeepsOrderAt(cfg, ops[..|ops| - 1], n) <==> KeepsOrderAt(cfg, ops, n)
  {
    hide MergedBy, EmptyKeysAfterwards, Run, ConfigAfter;
    assert ops[..|ops| - 1][..n] == ops[..n];
  }

  lemma LastOrdered(cfg: Config, ops: seq<Operation>)
    requires cfg.maxLevelCount > 0 && ops != []
    ensures var front := ops[..|ops| - 1];
            KeepsOrderAt(cfg, ops, |front|)
            <==> EmptyKeysAfterwards(MergedBy(Run(cfg, front).db, ConfigAfter(cfg, front), ops[|ops| - 1]))
  {
    hide MergedBy, EmptyKeysAfterwards, Run, ConfigAfter;
  }

  /** After any run the files are sorted exactly when every merge of the run met the condition for a sorted result. */
  lemma {:induction false} RunSortedIff(cfg: Config, ops: seq<Operation>)
    requires cfg.maxLevelCount > 0 && Listings(cfg, ops) && Countable(ops)
    ensures FilesSorted(Run(cfg, ops).db) <==> MergesKeepOrder(cfg, ops)
  {
    if ops == [] {
    } else {
      hide Kept, FilesSorted, Step, IsListing, Listings, Adds, MergesKeepOrder, MergedBy, SortedFiles;
      hide EmptyKeysAfterwards;
      var front := ops[..|ops| - 1];
      RunPrefix(cfg, ops);
      RunSortedIff(cfg, front);
      RunKeeps(cfg, front);
      OrderedPrefix(cfg, ops);
      StepSorted(Run(cfg, front), ConfigAfter(cfg, front), ops[|ops| - 1]);
    }
  }

  /** With non-empty keys every merge does. */
  lemma NonEmptyKeysKeepOrder(cfg: Config, ops: seq<Operation>)
    requires cfg.maxLevelCount > 0 && Listings(cfg, ops) && Countable(ops) && NonEmptyKeys(Adds(ops))
    ensures MergesKeepOrder(cfg, ops) && FilesSorted(Run(cfg, ops).db)
  {
    hide Run, MergesKeepOrder, Kept, Sorted, Listings, Adds;
    RunKeeps(cfg, ops);
    RunSortedIff(cfg, ops);
  }

  ghost predicate Configured(db: Db, cfgs: Configs) {
    forall id :: id in db.files ==> id in cfgs && cfgs[id].Allowed()
  }

  /**
   * After any run, whatever fan-out each file was written with: the search of the files returns only values flushed
   * under the key, and when every merge kept order it finds the key exactly when a flushed entry has it.
   */
  lemma GetAfterRun(cfg: Config, ops: seq<Operation>, cfgs: Configs, key: Bytes)
    requires cfg.maxLevelCount > 0 && Listings(cfg, ops) && Countable(ops) && Configured(Run(cfg, ops).db, cfgs)
    ensures var t := Run(cfg, ops);
            var r := StoredGet(t.db.files, cfgs, Order(t.db.lm.levels, 0), key);
            && (r.Some? ==> Entry(key, r.value) in t.flushed)
            && (MergesKeepOrder(cfg, ops) ==>
                 r == Get(t.db, key) && (r.Some? <==> exists e :: e in t.flushed && e.key == key))
  {
    hide Run, MergesKeepOrder, Kept, Sorted, Listings, StoredGet, GetFrom, Order, Joined, FilesSorted, Inv;
    var t := Run(cfg, ops);
    RunKeeps(cfg, ops);
    KeptInv(t);
    ScanAfterRun(cfg, ops, key);
    FlushedMembers(t);
    ConfiguredOrder(t.db, cfgs);
    StoredGetSound(t.db.files, cfgs, Order(t.db.lm.levels, 0), key);
    RunSortedIff(cfg, ops);
    if MergesKeepOrder(cfg, ops) {
      FilesSortedAt(t.db, Order(t.db.lm.levels, 0));
      StoredGetSorted(t.db.files, cfgs, Order(t.db.lm.levels, 0), key);
    }
  }

  lemma FlushedMembers(t: Tracked)
    requires Kept(t)
    ensures forall e :: e in Contents(t.db) <==> e in t.flushed
  {
    hide Inv, Contents;
    forall e ensures e in Contents(t.db) <==> e in t.flushed {
      assert e in Contents(t.db) <==> e in multiset(Contents(t.db));
      assert e in t.flushed <==> e in multiset(t.flushed);
    }
  }

  lemma ConfiguredOrder(db: Db, cfgs: Configs)
    requires Inv(db) && Configured(db, cfgs)
    ensures forall id :: id in Order(db.lm.levels, 0) ==> id in cfgs && cfgs[id].Allowed()
  {
    hide Consistent, Contiguous, Order, Joined;
  }
}
