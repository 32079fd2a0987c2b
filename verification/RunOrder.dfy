// Which value a lookup returns when a key was added more than once.
module DbOrder {
  import opened Bytes
  import opened Entries
  import opened Merging
  import opened Buffering
  import opened Levels
  import opened Database
  import opened DbRuns

  /** For every key the files, oldest first, hold its entries in the order they were added. */
  ghost predicate InOrder(t: Tracked) {
    forall k :: OfKey(Contents(t.db), k) == OfKey(t.flushed, k)
  }

  /** A flush of this database does not cascade past level 1. */
  ghost predicate ShortCascade(db: Db, cfg: Config)
    requires cfg.maxLevelCount > 0
  {
    match Cascade(FlushBuffer(db).lm.levels, cfg.maxLevelCount)
    case None => true
    case Some(op) => op.dst.level == 1
  }

  ghost predicate ShortStep(t: Tracked, cfg: Config, op: Operation)
    requires cfg.maxLevelCount > 0
  {
    match op
    case AddOp(k, v) =>
      var added := t.db.(buffer := InsertLast(t.db.buffer, Entry(k, v)));
      DataSize(added.buffer) > cfg.maxBufferSize ==> ShortCascade(added, cfg)
    case FlushOp => ShortCascade(t.db, cfg)
    case _ => true
  }

  ghost predicate ShortRun(cfg: Config, ops: seq<Operation>)
    requires cfg.maxLevelCount > 0
  {
    forall n :: 0 <= n < |ops| ==> ShortStep(Run(cfg, ops[..n]), ConfigAfter(cfg, ops[..n]), ops[n])
  }

  lemma FlushBufferInOrder(t: Tracked)
    requires Kept(t) && InOrder(t)
    ensures InOrder(TrackFlush(t, FlushBuffer(t.db)))
  {
    hide Inv, Contents;
    var after := TrackFlush(t, FlushBuffer(t.db));
    FlushBufferKeeps(t.db);
    BufferIsStableSort(t.pending);
    forall k ensures OfKey(Contents(after.db), k) == OfKey(after.flushed, k) {
      OfKeyConcat(Contents(t.db), t.db.buffer, k);
      OfKeyConcat(t.flushed, t.pending, k);
      assert OfKey(InsertAll(t.pending), k) == OfKey(t.pending, k);
      assert OfKey(Contents(t.db), k) == OfKey(t.flushed, k);
      assert Contents(t.db) + [] == Contents(t.db);
    }
  }

  /** A merge that lists its sources oldest first keeps the order of the entries of every key. */
  lemma OldestFirstMerge(db: Db, op: MergeOperation, keep: seq<FileId>, tail: seq<FileId>, k: Bytes)
    requires Inv(db) && SortedFiles(db) && TakesTail(db, op, keep, tail) && |Contents(db)| < U64_LIMIT
    requires op.sources == tail
    ensures OfKey(Contents(PerformMerge(db, op)), k) == OfKey(Contents(db), k)
  {
    hide Inv, SortedFiles, TakesTail, Contents, MergeWritten, PerformMerge, Joined;
    var runs := RunsAt(db.files, op.sources);
    MergeKeeps(db, op, keep, tail);
    MergeSortedFiles(db, op, keep, tail);
    WrittenStable(runs);
    assert OfKey(MergeWritten(runs), k) == OfKey(Flatten(runs), k);
    JoinedFlatten(db.files, tail);
    OfKeyConcat(Joined(db.files, keep), MergeWritten(runs), k);
    OfKeyConcat(Joined(db.files, keep), Joined(db.files, tail), k);
  }

  lemma OneLevelListed(levels: seq<seq<nat>>)
    requires levels != []
    ensures Listed(levels, 1) == Ids(levels, 0) == Lower(levels, 1)
  {
    assert Listed(levels, 1) == Listed(levels, 0) + Ids(levels, 0);
    assert Lower(levels, 1) == Ids(levels, 0) + Lower(levels, 0);
  }

  lemma FlushInOrder(t: Tracked, cfg: Config)
    requires Kept(t) && InOrder(t) && SortedFiles(t.db) && cfg.maxLevelCount > 0
             && |t.flushed| + |t.pending| < U64_LIMIT
    requires ShortCascade(t.db, cfg)
    ensures InOrder(TrackFlush(t, Flush(t.db, cfg)))
  {
    hide Inv, SortedFiles, TakesTail, Contents, PerformMerge, FlushBuffer, Cascade;
    var mid := TrackFlush(t, FlushBuffer(t.db));
    FlushBufferInOrder(t);
    FlushBufferKept(t);
    BufferCounts(mid);
    if Cascade(mid.db.lm.levels, cfg.maxLevelCount).Some? {
      var op := Cascade(mid.db.lm.levels, cfg.maxLevelCount).value;
      CascadeTakesTail(mid.db, cfg);
      InvSorted(mid.db);
      CascadeFacts(mid.db.lm, cfg.maxLevelCount);
      OneLevelListed(mid.db.lm.levels);
      forall k ensures OfKey(Contents(PerformMerge(mid.db, op)), k) == OfKey(Contents(mid.db), k) {
        OldestFirstMerge(mid.db, op, Order(mid.db.lm.levels, 1), Lower(mid.db.lm.levels, 1), k);
      }
    }
  }

  lemma CompactInOrder(t: Tracked)
    requires Kept(t) && InOrder(t) && SortedFiles(t.db) && |t.flushed| + |t.pending| < U64_LIMIT
    ensures InOrder(TrackFlush(t, Compact(t.db)))
  {
    hide Inv, SortedFiles, TakesTail, Contents, PerformMerge, FlushBuffer, FullMerge;
    var mid := TrackFlush(t, FlushBuffer(t.db));
    FlushBufferInOrder(t);
    FlushBufferKept(t);
    BufferCounts(mid);
    if FullMerge(mid.db.lm.levels).Some? {
      var op := FullMerge(mid.db.lm.levels).value;
      FullMergeTakesAll(mid.db);
      forall k ensures OfKey(Contents(PerformMerge(mid.db, op)), k) == OfKey(Contents(mid.db), k) {
        OldestFirstMerge(mid.db, op, [], Order(mid.db.lm.levels, 0), k);
      }
    }
  }

  lemma StepInOrder(t: Tracked, cfg: Config, op: Operation)
    requires Kept(t) && InOrder(t) && SortedFiles(t.db) && cfg.maxLevelCount > 0
             && |t.flushed| + |t.pending| + 1 < U64_LIMIT
    requires ShortStep(t, cfg, op) && (op.ReopenOp? ==> IsListing(t.db, op.listing)) && (op.AddOp? ==> op.key != [])
    ensures InOrder(Step(t, cfg, op))
  {
    hide Inv, SortedFiles, Flush, Compact, Reopen, IsListing, Joined, InsertLast;
    match op {
      case AddOp(k, v) =>
        var e := Entry(k, v);
        var added := Tracked(t.db.(buffer := InsertLast(t.db.buffer, e)), t.flushed, t.pending + [e]);
        InsertKept(t, e);
        forall k ensures OfKey(Contents(added.db), k) == OfKey(added.flushed, k) {
          assert OfKey(Contents(t.db), k) == OfKey(t.flushed, k);
        }
        if DataSize(added.db.buffer) > cfg.maxBufferSize {
          FlushInOrder(added, cfg);
        }
      case FlushOp => FlushInOrder(t, cfg);
      case CompactOp => CompactInOrder(t);
      case ReopenOp(listing, _) =>
        ReopenIsIdentity(t.db, listing);
        var after := Step(t, cfg, op);
        forall k ensures OfKey(Contents(after.db), k) == OfKey(after.flushed, k) {
          assert OfKey(Contents(t.db), k) == OfKey(t.flushed, k);
        }
    }
  }

  lemma {:induction false} RunInOrder(cfg: Config, ops: seq<Operation>)
    requires cfg.maxLevelCount > 0 && Listings(cfg, ops) && |Adds(ops)| + 1 < U64_LIMIT && NonEmptyKeys(Adds(ops))
             && ShortRun(cfg, ops)
    ensures InOrder(Run(cfg, ops))
  {
    if ops == [] {
      assert Order([[]], 0) == Order([[]], 1) + Ids([[]], 0) == [];
      assert RunsAt(map[], []) == [];
    } else {
      hide Kept, InOrder, Step, ShortStep, SortedFiles;
      var front := ops[..|ops| - 1];
      RunPrefix(cfg, ops);
      ShortPrefix(cfg, ops);
      RunInOrder(cfg, front);
      RunKeeps(cfg, front);
      HistoryCount(cfg, front);
      StepInOrder(Run(cfg, front), ConfigAfter(cfg, front), ops[|ops| - 1]);
    }
  }

  lemma ShortPrefix(cfg: Config, ops: seq<Operation>)
    requires cfg.maxLevelCount > 0 && ShortRun(cfg, ops) && ops != []
    ensures ShortRun(cfg, ops[..|ops| - 1])
            && ShortStep(Run(cfg, ops[..|ops| - 1]), ConfigAfter(cfg, ops[..|ops| - 1]), ops[|ops| - 1])
  {
    hide Run, ShortStep, ConfigAfter;
    var front := ops[..|ops| - 1];
    forall n | 0 <= n < |front| ensures ShortStep(Run(cfg, front[..n]), ConfigAfter(cfg, front[..n]), front[n]) {
      assert front[..n] == ops[..n] && front[n] == ops[n];
    }
  }

  /** If no cascade of the run goes past level 1, a lookup returns the earliest added of the flushed values. */
  lemma FirstAddedWins(cfg: Config, ops: seq<Operation>, key: Bytes)
    requires cfg.maxLevelCount > 0 && Listings(cfg, ops) && |Adds(ops)| + 1 < U64_LIMIT && NonEmptyKeys(Adds(ops))
             && ShortRun(cfg, ops)
    ensures var t := Run(cfg, ops);
            var added := OfKey(t.flushed, key);
            Get(t.db, key) == if added == [] then None else Some(added[0].value)
  {
    hide Run, GetFrom;
    var t := Run(cfg, ops);
    RunInOrder(cfg, ops);
    GetFromIs(t.db.files, Order(t.db.lm.levels, 0), key);
    assert OfKey(Contents(t.db), key) == OfKey(t.flushed, key);
  }

  // ---- Longer cascades: exactly when the first value stays first.

  /** The entries of a key on one level. */
  function OnLevel(db: Db, l: nat, key: Bytes): seq<Entry>
    requires l < |db.lm.levels|
  {
    OfKey(Joined(db.files, Ids(db.lm.levels, l)), key)
  }

  ghost predicate Holds(db: Db, l: nat, key: Bytes)
    requires l < |db.lm.levels|
  {
    OnLevel(db, l, key) != []
  }

  lemma OfKeyParts(db: Db, d: nat, key: Bytes)
    requires 0 < d <= |db.lm.levels|
    ensures OfKey(Joined(db.files, Listed(db.lm.levels, d)), key)
         == OfKey(Joined(db.files, Listed(db.lm.levels, d - 1)), key) + OnLevel(db, d - 1, key)
    ensures OfKey(Joined(db.files, Lower(db.lm.levels, d)), key)
         == OnLevel(db, d - 1, key) + OfKey(Joined(db.files, Lower(db.lm.levels, d - 1)), key)
  {
    hide Joined;
    var levels := db.lm.levels;
    JoinedConcat(db.files, Listed(levels, d - 1), Ids(levels, d - 1));
    JoinedConcat(db.files, Ids(levels, d - 1), Lower(levels, d - 1));
    OfKeyConcat(Joined(db.files, Listed(levels, d - 1)), Joined(db.files, Ids(levels, d - 1)), key);
    OfKeyConcat(Joined(db.files, Ids(levels, d - 1)), Joined(db.files, Lower(levels, d - 1)), key);
  }

  lemma NothingBelow(db: Db, key: Bytes)
    ensures OfKey(Joined(db.files, Listed(db.lm.levels, 0)), key) == []
            && OfKey(Joined(db.files, Lower(db.lm.levels, 0)), key) == []
  {
    assert RunsAt(db.files, Listed(db.lm.levels, 0)) == [];
    assert RunsAt(db.files, Lower(db.lm.levels, 0)) == [];
  }

  /** The newest-first listing begins with the lowest level that holds the key. */
  lemma {:induction false} ListedFirst(db: Db, d: nat, key: Bytes)
    requires d <= |db.lm.levels|
    ensures var listed := OfKey(Joined(db.files, Listed(db.lm.levels, d)), key);
            if listed == [] then forall l :: 0 <= l < d ==> !Holds(db, l, key)
            else exists l :: 0 <= l < d && Holds(db, l, key) && listed[0] == OnLevel(db, l, key)[0] && forall m ::
                0 <= m < l ==> !Holds(db, m, key)
  {
    hide Joined, OnLevel;
    NothingBelow(db, key);
    if d > 0 {
      OfKeyParts(db, d, key);
      ListedFirst(db, d - 1, key);
      var front := OfKey(Joined(db.files, Listed(db.lm.levels, d - 1)), key);
      if front != [] {
        var l :| 0 <= l < d - 1 && Holds(db, l, key) && front[0] == OnLevel(db, l, key)[0]
            && forall m :: 0 <= m < l ==> !Holds(db, m, key);
      } else if OnLevel(db, d - 1, key) != [] {
        assert Holds(db, d - 1, key);
      }
    }
  }

  /** The oldest-first order begins with the highest level that holds the key. */
  lemma {:induction false} LowerFirst(db: Db, d: nat, key: Bytes)
    requires d <= |db.lm.levels|
    ensures var lower := OfKey(Joined(db.files, Lower(db.lm.levels, d)), key);
            if lower == [] then forall l :: 0 <= l < d ==> !Holds(db, l, key)
            else exists l :: 0 <= l < d && Holds(db, l, key) && lower[0] == OnLevel(db, l, key)[0] && forall m ::
                l < m < d ==> !Holds(db, m, key)
  {
    hide Joined, OnLevel;
    NothingBelow(db, key);
    if d > 0 {
      OfKeyParts(db, d, key);
      LowerFirst(db, d - 1, key);
      var lower := OfKey(Joined(db.files, Lower(db.lm.levels, d - 1)), key);
      if OnLevel(db, d - 1, key) != [] {
        assert Holds(db, d - 1, key);
      } else if lower != [] {
        var l :| 0 <= l < d - 1 && Holds(db, l, key) && lower[0] == OnLevel(db, l, key)[0]
            && forall m :: l < m < d - 1 ==> !Holds(db, m, key);
        assert !Holds(db, d - 1, key);
      }
    }
  }

  /** Entries of two levels sit at different places of the order. */
  lemma {:induction false} LevelsApart(db: Db, d: nat, l: nat, m: nat, key: Bytes)
    requires l < m < d <= |db.lm.levels| && Holds(db, l, key) && Holds(db, m, key)
    ensures var lower := OfKey(Joined(db.files, Lower(db.lm.levels, d)), key);
            exists i, j :: 0 <= i < j < |lower| && lower[i] == OnLevel(db, m, key)[0] && lower[j] ==
                OnLevel(db, l, key)[0]
  {
    hide Joined, OnLevel;
    var top := OnLevel(db, d - 1, key);
    OfKeyParts(db, d, key);
    var rest := OfKey(Joined(db.files, Lower(db.lm.levels, d - 1)), key);
    var lower := OfKey(Joined(db.files, Lower(db.lm.levels, d)), key);
    if m == d - 1 {
      var j := LevelInside(db, d - 1, l, key);
      assert lower[0] == OnLevel(db, m, key)[0] && lower[|top| + j] == OnLevel(db, l, key)[0];
    } else {
      LevelsApart(db, d - 1, l, m, key);
      var i, j :| 0 <= i < j < |rest| && rest[i] == OnLevel(db, m, key)[0] && rest[j] == OnLevel(db, l, key)[0];
      assert lower[|top| + i] == rest[i] && lower[|top| + j] == rest[j];
    }
  }

  lemma {:induction false} LevelInside(db: Db, d: nat, l: nat, key: Bytes) returns (j: nat)
    requires l < d <= |db.lm.levels| && Holds(db, l, key)
    ensures var lower := OfKey(Joined(db.files, Lower(db.lm.levels, d)), key);
            j < |lower| && lower[j] == OnLevel(db, l, key)[0]
  {
    hide Joined, OnLevel;
    OfKeyParts(db, d, key);
    if l == d - 1 {
      j := 0;
    } else {
      j := LevelInside(db, d - 1, l, key);
      j := |OnLevel(db, d - 1, key)| + j;
    }
  }

  /** At most one level below d has the key. */
  ghost predicate OneLevelHolds(db: Db, d: nat, key: Bytes)
    requires d <= |db.lm.levels|
  {
    forall l, m :: 0 <= l < m < d ==> !(Holds(db, l, key) && Holds(db, m, key))
  }

  /** An older file outside the levels below d has the key, or at most one of those levels has it. */
  ghost predicate OldestStays(db: Db, d: nat, key: Bytes)
    requires d <= |db.lm.levels|
  {
    OfKey(Joined(db.files, Order(db.lm.levels, d)), key) != [] || OneLevelHolds(db, d, key)
  }

  ghost predicate Distinct(es: seq<Entry>) {
    forall i, j :: 0 <= i < j < |es| ==> es[i] != es[j]
  }

  /**
   * A cascade into level d keeps the oldest value of a key first when an older file outside the cascade has the key, or
   * at most one of the merged levels has it; and only then, if the entries of the key are told apart by being distinct.
   */
  lemma CascadeKeepsFirst(db: Db, cfg: Config, key: Bytes)
    requires Inv(db) && SortedFiles(db) && cfg.maxLevelCount > 0 && Cascade(db.lm.levels, cfg.maxLevelCount).Some?
    requires |Contents(db)| < U64_LIMIT && OfKey(Contents(db), key) != []
    ensures var op := Cascade(db.lm.levels, cfg.maxLevelCount).value;
            var d := op.dst.level;
            var before, after := OfKey(Contents(db), key), OfKey(Contents(PerformMerge(db, op)), key);
            && d <= |db.lm.levels| && after != []
            && (OldestStays(db, d, key) ==> after[0] == before[0])
            && (Distinct(before) && after[0] == before[0] ==> OldestStays(db, d, key))
  {
    hide Inv, SortedFiles, TakesTail, Contents, MergeWritten, PerformMerge, Joined, Cascade, OnLevel, Holds;
    var op := Cascade(db.lm.levels, cfg.maxLevelCount).value;
    var d, levels := op.dst.level, db.lm.levels;
    InvSorted(db);
    CascadeFacts(db.lm, cfg.maxLevelCount);
    CascadeTakesTail(db, cfg);
    var keep, tail := Order(levels, d), Lower(levels, d);
    var runs := RunsAt(db.files, op.sources);
    MergeKeeps(db, op, keep, tail);
    MergeSortedFiles(db, op, keep, tail);
    WrittenStable(runs);
    assert OfKey(MergeWritten(runs), key) == OfKey(Flatten(runs), key);
    JoinedFlatten(db.files, op.sources);
    OfKeyConcat(Joined(db.files, keep), MergeWritten(runs), key);
    OfKeyConcat(Joined(db.files, keep), Joined(db.files, tail), key);
    if OfKey(Joined(db.files, keep), key) == [] {
      assert OfKey(Contents(db), key) == OfKey(Joined(db.files, tail), key);
      FirstOfListed(db, d, key);
    }
  }

  lemma FirstOfListed(db: Db, d: nat, key: Bytes)
    requires d <= |db.lm.levels|
    requires OfKey(Joined(db.files, Lower(db.lm.levels, d)), key) != []
    ensures var listed := OfKey(Joined(db.files, Listed(db.lm.levels, d)), key);
            var lower := OfKey(Joined(db.files, Lower(db.lm.levels, d)), key);
            && listed != []
            && (OneLevelHolds(db, d, key) ==> listed[0] == lower[0])
            && (Distinct(lower) && listed[0] == lower[0] ==> OneLevelHolds(db, d, key))
  {
    hide Joined, OnLevel;
    var listed, lower := OfKey(Joined(db.files, Listed(db.lm.levels, d)), key),
        OfKey(Joined(db.files, Lower(db.lm.levels, d)), key);
    ListedFirst(db, d, key);
    LowerFirst(db, d, key);
    var h :| 0 <= h < d && Holds(db, h, key) && lower[0] == OnLevel(db, h, key)[0] && forall m :: h < m < d ==>
        !Holds(db, m, key);
    assert listed != [];
    var l :| 0 <= l < d && Holds(db, l, key) && listed[0] == OnLevel(db, l, key)[0] && forall m :: 0 <= m < l ==>
        !Holds(db, m, key);
    if l < h {
      assert !OneLevelHolds(db, d, key);
      LevelsApart(db, d, l, h, key);
      var i, j :| 0 <= i < j < |lower| && lower[i] == OnLevel(db, h, key)[0] && lower[j] == OnLevel(db, l, key)[0];
      assert lower[0] == lower[i];
    }
  }
}
