// Over all runs with at least two files per level: level sizes, level numbers and file indices stay bounded.
module DbBounds {
  import opened Bytes
  import opened Entries
  import opened Merging
  import opened Buffering
  import opened FileNames
  import opened Levels
  import opened Database
  import opened DbRuns

  function Pow2(n: nat): nat {
    if n == 0 then 1 else 2 * Pow2(n - 1)
  }

  /** A file on level l holds at least 2^l entries; every flush and full merge pays for the index it takes. */
  ghost predicate Weighty(db: Db) {
    && (forall id :: id in db.files ==> Pow2(id.level) <= |db.files[id].entries|)
    && db.lm.nextIndex + |Order(db.lm.levels, 0)| <= 2 * db.lm.globalStart
  }

  lemma JoinedAtLeast(files: Files, ids: seq<FileId>, i: nat)
    requires i < |ids|
    ensures |Joined(files, ids)| >= |EntriesAt(files, ids[i])|
  {
    assert ids == ids[..i] + ([ids[i]] + ids[i + 1..]);
    JoinedConcat(files, ids[..i], [ids[i]] + ids[i + 1..]);
    JoinedConcat(files, [ids[i]], ids[i + 1..]);
    JoinedOne(files, ids[i]);
  }

  lemma LevelZeroWeight(files: Files, ids: seq<FileId>)
    requires |ids| >= 2 && EntriesAt(files, ids[0]) != [] && EntriesAt(files, ids[1]) != []
    ensures |Joined(files, ids)| >= 2
  {
    assert ids == [ids[0]] + ids[1..];
    JoinedConcat(files, [ids[0]], ids[1..]);
    JoinedOne(files, ids[0]);
    JoinedAtLeast(files, ids[1..], 0);
  }

  /** The levels a cascade takes hold, together, at least 2^d entries. */
  lemma {:induction false} ListedWeight(db: Db, d: nat, maxCount: nat)
    requires Inv(db) && Weighty(db) && maxCount >= 2 && 1 <= d <= |db.lm.levels|
    requires ShouldMerge(db.lm.levels, maxCount, 0, false)
    requires forall l :: 1 <= l < d ==> ShouldMerge(db.lm.levels, maxCount, l, true)
    ensures |Joined(db.files, Listed(db.lm.levels, d))| >= Pow2(d)
  {
    hide Joined, Contiguous, Increasing, Contents;
    var levels := db.lm.levels;
    var ids := Ids(levels, d - 1);
    JoinedConcat(db.files, Listed(levels, d - 1), ids);
    LevelFiles(db, d - 1, 0);
    if d == 1 {
      LevelFiles(db, 0, 1);
      LevelZeroWeight(db.files, ids);
      assert Pow2(1) == 2 * Pow2(0);
    } else {
      ListedWeight(db, d - 1, maxCount);
      assert ShouldMerge(levels, maxCount, d - 1, true);
      JoinedAtLeast(db.files, ids, 0);
    }
  }

  lemma LevelFiles(db: Db, l: nat, i: nat)
    requires Inv(db) && l < |db.lm.levels|
    ensures i < |db.lm.levels[l]| ==> FileId(l, db.lm.levels[l][i]) in db.files && EntriesAt(db.files,
            FileId(l, db.lm.levels[l][i])) != []
  {
    if i < |db.lm.levels[l]| {
      OrderMembers(db.lm.levels, 0, FileId(l, db.lm.levels[l][i]));
    }
  }

  lemma FlushBufferWeighty(db: Db)
    requires Inv(db) && Weighty(db)
    ensures Weighty(FlushBuffer(db))
  {
    if DataSize(db.buffer) > 0 {
      hide Joined, Contiguous, Increasing;
      AdvanceKeeps(db.lm, |db.buffer|);
    }
  }

  lemma MergeWeighty(db: Db, op: MergeOperation, keep: seq<FileId>, tail: seq<FileId>)
    requires Inv(db) && Weighty(db) && TakesTail(db, op, keep, tail) && |Contents(db)| < U64_LIMIT
    requires Pow2(op.dst.level) <= |Joined(db.files, op.sources)|
    requires op.dst.index + 1 + |keep| + 1 <= db.lm.nextIndex + |keep| + |tail|
    ensures Weighty(PerformMerge(db, op))
  {
    hide Joined, Contiguous, Increasing, MergeWritten, Contents, Inv, Apply;
    MergedEntries(db, op, keep, tail);
    WrittenPermutation(RunsAt(db.files, op.sources));
    JoinedFlatten(db.files, op.sources);
    SameSizeSame(MergeWritten(RunsAt(db.files, op.sources)), Flatten(RunsAt(db.files, op.sources)));
    ApplyCounters(db.lm, op);
    var after := PerformMerge(db, op);
    forall id | id in after.files ensures Pow2(id.level) <= |after.files[id].entries| {
      assert id in keep + [op.dst];
      if id == op.dst {
        assert EntriesAt(after.files, id) == MergeWritten(RunsAt(db.files, op.sources));
      } else {
        assert id in keep;
        assert EntriesAt(after.files, id) == EntriesAt(db.files, id);
        InOrderInFiles(db, keep, tail, id);
      }
    }
  }

  lemma InOrderInFiles(db: Db, keep: seq<FileId>, tail: seq<FileId>, id: FileId)
    requires Inv(db) && Order(db.lm.levels, 0) == keep + tail && id in keep
    ensures id in db.files
  {
    assert id in keep + tail;
  }

  lemma FlushWeighty(db: Db, cfg: Config)
    requires Inv(db) && Weighty(db) && cfg.maxLevelCount >= 2 && |Contents(db)| + |db.buffer| < U64_LIMIT
    ensures Weighty(Flush(db, cfg))
  {
    hide Joined, Contiguous, Increasing, MergeWritten, Contents, Inv, Apply, PerformMerge, Weighty, TakesTail;
    hide FlushBuffer;
    var mid := FlushBuffer(db);
    FlushBufferKeeps(db);
    FlushBufferWeighty(db);
    if Cascade(mid.lm.levels, cfg.maxLevelCount).Some? {
      InvSorted(mid);
      var op := Cascade(mid.lm.levels, cfg.maxLevelCount).value;
      CascadeTakesTail(mid, cfg);
      CascadeFacts(mid.lm, cfg.maxLevelCount);
      ListedWeight(mid, op.dst.level, cfg.maxLevelCount);
      MergeWeighty(mid, op, Order(mid.lm.levels, op.dst.level), Lower(mid.lm.levels, op.dst.level));
    }
  }

  lemma CompactWeighty(db: Db)
    requires Inv(db) && Weighty(db) && |Contents(db)| + |db.buffer| < U64_LIMIT
    ensures Weighty(Compact(db))
  {
    hide Joined, Contiguous, Increasing, MergeWritten, Contents, Inv, Apply, PerformMerge, TakesTail, FlushBuffer;
    hide FullMerge;
    var mid := FlushBuffer(db);
    FlushBufferKeeps(db);
    FlushBufferWeighty(db);
    if FullMerge(mid.lm.levels).Some? {
      InvSorted(mid);
      var op := FullMerge(mid.lm.levels).value;
      FullMergeTakesAll(mid);
      FullMergeFacts(mid.lm);
      TopFile(mid, op.sources);
      MergeWeighty(mid, op, [], Order(mid.lm.levels, 0));
    }
  }

  /** The top level always has a file, so a full merge has at least the weight of the level it goes to. */
  lemma TopFile(db: Db, order: seq<FileId>)
    requires Inv(db) && Weighty(db) && order == Order(db.lm.levels, 0) && order != []
    ensures |Joined(db.files, order)| >= Pow2(|db.lm.levels| - 1)
  {
    hide Joined, Contiguous, Increasing;
    var top := |db.lm.levels| - 1;
    var id := FileId(top, db.lm.levels[top][0]);
    OrderMembers(db.lm.levels, 0, id);
    var i :| 0 <= i < |order| && order[i] == id;
    JoinedAtLeast(db.files, order, i);
  }

  lemma StepWeighty(t: Tracked, cfg: Config, op: Operation)
    requires Kept(t) && Weighty(t.db) && cfg.maxLevelCount >= 2 && |t.flushed| + |t.pending| + 1 < U64_LIMIT
    requires op.ReopenOp? ==> IsListing(t.db, op.listing)
    ensures Weighty(Step(t, cfg, op).db)
  {
    hide Inv, Contents, Flush, Compact, Reopen, InsertLast, IsListing;
    BufferCounts(t);
    match op {
      case AddOp(k, v) =>
        var e := Entry(k, v);
        var added := Tracked(t.db.(buffer := InsertLast(t.db.buffer, e)), t.flushed, t.pending + [e]);
        InsertKept(t, e);
        BufferCounts(added);
        if DataSize(added.db.buffer) > cfg.maxBufferSize {
          FlushWeighty(added.db, cfg);
        }
      case FlushOp => FlushWeighty(t.db, cfg);
      case CompactOp => CompactWeighty(t.db);
      case ReopenOp(listing, _) => ReopenIsIdentity(t.db, listing);
    }
  }

  lemma FlushBounded(db: Db, cfg: Config, bound: nat)
    requires Inv(db) && 1 <= cfg.maxLevelCount <= bound && bound >= 2 && Bounded(db.lm.levels, bound)
    ensures Bounded(Flush(db, cfg).lm.levels, bound)
  {
    hide Inv, Cascade, Apply, Consistent;
    InvSorted(db);
    if DataSize(db.buffer) > 0 {
      LevelsExist(db.lm);
      FlushKeepsBound(db.lm, |db.buffer|, cfg.maxLevelCount, bound);
    } else {
      CascadeKeepsBound(db.lm, cfg.maxLevelCount, bound);
    }
  }

  lemma CompactBounded(db: Db, bound: nat)
    requires Inv(db) && bound >= 2
    ensures Bounded(Compact(db).lm.levels, bound)
  {
    hide Inv, FullMerge, Apply, FlushBuffer, Bounded;
    FlushBufferKeeps(db);
    InvSorted(FlushBuffer(db));
    CompactKeepsBound(FlushBuffer(db).lm, bound);
  }

  lemma StepBounded(t: Tracked, cfg: Config, op: Operation, bound: nat)
    requires Kept(t) && Bounded(t.db.lm.levels, bound) && 1 <= cfg.maxLevelCount <= bound && bound >= 2
    requires op.ReopenOp? ==> IsListing(t.db, op.listing)
    ensures Bounded(Step(t, cfg, op).db.lm.levels, bound)
  {
    hide Inv, InsertLast, IsListing, Flush, Compact, Reopen, Bounded;
    match op {
      case AddOp(k, v) =>
        InsertedInv(t.db, Entry(k, v));
        FlushBounded(t.db.(buffer := InsertLast(t.db.buffer, Entry(k, v))), cfg, bound);
      case FlushOp => FlushBounded(t.db, cfg, bound);
      case CompactOp => CompactBounded(t.db, bound);
      case ReopenOp(listing, _) => ReopenIsIdentity(t.db, listing);
    }
  }

  /** Every configuration the run opens with has at least, or at most, this level limit. */
  ghost predicate LimitsAtLeast(cfg: Config, ops: seq<Operation>, low: nat) {
    low <= cfg.maxLevelCount && forall n :: 0 <= n < |ops| && ops[n].ReopenOp? ==> low <= ops[n].config.maxLevelCount
  }

  ghost predicate LimitsAtMost(cfg: Config, ops: seq<Operation>, high: nat) {
    cfg.maxLevelCount <= high && forall n :: 0 <= n < |ops| && ops[n].ReopenOp? ==> ops[n].config.maxLevelCount <= high
  }

  lemma {:induction false} LimitsAfter(cfg: Config, ops: seq<Operation>, limit: nat)
    requires cfg.maxLevelCount > 0
    ensures LimitsAtLeast(cfg, ops, limit) ==> limit <= ConfigAfter(cfg, ops).maxLevelCount
    ensures LimitsAtMost(cfg, ops, limit) ==> ConfigAfter(cfg, ops).maxLevelCount <= limit
    ensures ops != [] ==>
              && (LimitsAtLeast(cfg, ops, limit) ==> LimitsAtLeast(cfg, ops[..|ops| - 1], limit))
              && (LimitsAtMost(cfg, ops, limit) ==> LimitsAtMost(cfg, ops[..|ops| - 1], limit))
  {
    if ops != [] {
      var front := ops[..|ops| - 1];
      assert forall n :: 0 <= n < |front| ==> front[n] == ops[n];
      LimitsAfter(cfg, front, limit);
    }
  }

  lemma EmptyBounded(bound: nat)
    requires bound >= 2
    ensures Bounded(EMPTY.lm.levels, bound) && Weighty(EMPTY)
  {
    assert Order([[]], 1) == [];
    assert Order([[]], 0) == Order([[]], 1) + Ids([[]], 0) == [];
  }

  /** After any run, however often it is reopened with other limits, every level holds fewer files than the largest
      limit used. */
  lemma {:induction false} RunBounded(cfg: Config, ops: seq<Operation>, bound: nat)
    requires cfg.maxLevelCount > 0 && Listings(cfg, ops) && Countable(ops)
    requires bound >= 2 && LimitsAtMost(cfg, ops, bound)
    ensures Bounded(Run(cfg, ops).db.lm.levels, bound)
  {
    hide Kept, Weighty, Bounded, Step, Listings, Adds, SortedFiles, IsListing, LimitsAtLeast, LimitsAtMost, ConfigAfter;
    if ops == [] {
      EmptyBounded(bound);
    } else {
      var front := ops[..|ops| - 1];
      RunPrefix(cfg, ops);
      LimitsAfter(cfg, ops, bound);
      LimitsAfter(cfg, front, bound);
      RunBounded(cfg, front, bound);
      RunKeeps(cfg, front);
      StepBounded(Run(cfg, front), ConfigAfter(cfg, front), ops[|ops| - 1], bound);
    }
  }

  /** With limits of at least 2 a file on level l holds at least 2^l entries, and file indices stay below twice the
      entries. */
  lemma {:induction false} RunWeighty(cfg: Config, ops: seq<Operation>)
    requires cfg.maxLevelCount > 0 && Listings(cfg, ops) && |Adds(ops)| + 1 < U64_LIMIT && LimitsAtLeast(cfg, ops, 2)
    ensures Weighty(Run(cfg, ops).db)
  {
    hide Kept, Weighty, Bounded, Step, Listings, Adds, SortedFiles, IsListing, LimitsAtLeast, LimitsAtMost, ConfigAfter;
    if ops == [] {
      EmptyBounded(2);
    } else {
      var front := ops[..|ops| - 1];
      RunPrefix(cfg, ops);
      LimitsAfter(cfg, ops, 2);
      LimitsAfter(cfg, front, 2);
      RunWeighty(cfg, front);
      RunKeeps(cfg, front);
      HistoryCount(cfg, front);
      StepWeighty(Run(cfg, front), ConfigAfter(cfg, front), ops[|ops| - 1]);
    }
  }

  lemma {:induction false} Pow2Grows(a: nat, b: nat)
    requires a <= b
    ensures Pow2(a) <= Pow2(b)
  {
    if a < b {
      Pow2Grows(a, b - 1);
    }
  }

  lemma {:induction false} Pow2Bytes(width: nat)
    ensures Pow2(8 * width) == Limit(width)
  {
    if width > 0 {
      var n := 8 * width - 8;
      Pow2Bytes(width - 1);
      assert Pow2(n + 2) == 2 * Pow2(n + 1) == 4 * Pow2(n);
      assert Pow2(n + 4) == 2 * Pow2(n + 3) == 4 * Pow2(n + 2);
      assert Pow2(n + 6) == 2 * Pow2(n + 5) == 4 * Pow2(n + 4);
      assert Pow2(n + 8) == 2 * Pow2(n + 7) == 4 * Pow2(n + 6);
    }
  }

  lemma FileWithin(db: Db, id: FileId)
    requires Inv(db) && id in db.files
    ensures id.index < db.lm.nextIndex && |db.files[id].entries| <= |Contents(db)|
  {
    hide Joined, Contiguous, Order;
    var order := Order(db.lm.levels, 0);
    var i :| 0 <= i < |order| && order[i] == id;
    assert order[i].index <= order[|order| - 1].index;
    JoinedAtLeast(db.files, order, i);
  }

  lemma GlobalStartIs(db: Db)
    requires Inv(db)
    ensures db.lm.globalStart == |Contents(db)|
  {
  }

  /** Every file of a reachable database has a name, and the name parses back to it. */
  lemma NamesExist(db: Db, id: FileId)
    requires Inv(db) && Weighty(db) && 2 * |Contents(db)| < U64_LIMIT && id in db.files
    ensures id.level < 64 && id.index < db.lm.nextIndex <= 2 * |Contents(db)|
    ensures FileName(id.index, id.level).Some?
    ensures ParseFileName(FileName(id.index, id.level).value) == Some((id.index, id.level))
  {
    hide Inv, Contents, FileName, ParseFileName, Order, Ten;
    FileWithin(db, id);
    GlobalStartIs(db);
    Pow2Bytes(8);
    Limits();
    if id.level >= 64 {
      Pow2Grows(64, id.level);
    }
    TenEight();
    FileNameExists(id.index, id.level);
    NameRoundTrip(id.index, id.level);
  }
}
