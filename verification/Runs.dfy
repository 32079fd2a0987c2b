// Runs of the database: what holds after any sequence of operations.
module DbRuns {
  import opened Bytes
  import opened Entries
  import opened Merging
  import opened Buffering
  import opened Levels
  import opened LevelManagement
  import opened Database

  /** A configuration a database can be opened with. */
  type OpenConfig = c: Config | c.maxLevelCount > 0 witness Config(0, 1)

  /** `ReopenOp` carries the order in which the directory happens to be listed, and the configuration opened with. */
  datatype Operation = AddOp(key: Bytes, value: Bytes) | FlushOp | CompactOp | ReopenOp(listing: seq<FileId>,
      config: OpenConfig)

  /** A database with its history: the entries whose flush has happened, and those added since, in order of addition. */
  datatype Tracked = Tracked(db: Db, flushed: seq<Entry>, pending: seq<Entry>)

  function TrackFlush(t: Tracked, db: Db): Tracked {
    if DataSize(t.db.buffer) > 0 then Tracked(db, t.flushed + t.pending, []) else Tracked(db, t.flushed, t.pending)
  }

  function Step(t: Tracked, cfg: Config, op: Operation): Tracked
    requires cfg.maxLevelCount > 0
  {
    match op
    case AddOp(k, v) =>
      var e := Entry(k, v);
      var added := Tracked(t.db.(buffer := InsertLast(t.db.buffer, e)), t.flushed, t.pending + [e]);
      if DataSize(added.db.buffer) > cfg.maxBufferSize then TrackFlush(added, Add(t.db, cfg, e))
          else added.(db := Add(t.db, cfg, e))
    case FlushOp => TrackFlush(t, Flush(t.db, cfg))
    case CompactOp => TrackFlush(t, Compact(t.db))
    case ReopenOp(listing, _) => Tracked(Reopen(t.db, listing), t.flushed, [])
  }

  /** The configuration in force after a run that was opened with `cfg`. */
  function ConfigAfter(cfg: Config, ops: seq<Operation>): (c: Config)
    requires cfg.maxLevelCount > 0
    ensures c.maxLevelCount > 0
  {
    if ops == [] then cfg
    else if ops[|ops| - 1].ReopenOp? then ops[|ops| - 1].config
    else ConfigAfter(cfg, ops[..|ops| - 1])
  }

  function Run(cfg: Config, ops: seq<Operation>): Tracked
    requires cfg.maxLevelCount > 0
  {
    if ops == [] then Tracked(EMPTY, [], []) else
      var front := ops[..|ops| - 1];
      Step(Run(cfg, front), ConfigAfter(cfg, front), ops[|ops| - 1])
  }

  /** A listing names every file once, in any order. */
  ghost predicate IsListing(db: Db, listing: seq<FileId>) {
    && (forall id :: id in listing <==> id in db.files)
    && forall i, j :: 0 <= i < j < |listing| ==> listing[i] != listing[j]
  }

  ghost predicate Listings(cfg: Config, ops: seq<Operation>)
    requires cfg.maxLevelCount > 0
  {
    forall n :: 0 <= n < |ops| && ops[n].ReopenOp? ==> IsListing(Run(cfg, ops[..n]).db, ops[n].listing)
  }

  function Adds(ops: seq<Operation>): seq<Entry> {
    if ops == [] then [] else
      var front := Adds(ops[..|ops| - 1]);
      match ops[|ops| - 1]
      case AddOp(k, v) => front + [Entry(k, v)]
      case _ => front
  }

  /** The number of entries ever added stays below the 64-bit range of the global counters. */
  ghost predicate Countable(ops: seq<Operation>) {
    |Adds(ops)| < U64_LIMIT
  }

  // ---- The invariant of a tracked database.

  ghost predicate Kept(t: Tracked) {
    && Inv(t.db)
    && t.db.buffer == InsertAll(t.pending)
    && multiset(Contents(t.db)) == multiset(t.flushed)
  }

  lemma EmptyInv()
    ensures Kept(Tracked(EMPTY, [], [])) && SortedFiles(EMPTY)
  {
    assert Order([[]], 0) == Order([[]], 1) + Ids([[]], 0);
    assert Order([[]], 1) == [];
    assert Flatten<Entry>([]) == [];
  }

  lemma BufferCounts(t: Tracked)
    requires Kept(t)
    ensures multiset(t.db.buffer) == multiset(t.pending) && Sorted(t.db.buffer)
    ensures |t.db.buffer| == |t.pending| && |Contents(t.db)| == |t.flushed|
  {
    BufferIsStableSort(t.pending);
    SameSizeSame(t.db.buffer, t.pending);
    SameSizeSame(Contents(t.db), t.flushed);
  }

  lemma FlushBufferKept(t: Tracked)
    requires Kept(t)
    ensures Kept(TrackFlush(t, FlushBuffer(t.db)))
    ensures SortedFiles(t.db) ==> SortedFiles(FlushBuffer(t.db))
  {
    hide Inv, Contents, FlushBuffer, InsertLast, SortedFiles;
    InvSorted(t.db);
    FlushBufferKeeps(t.db);
    BufferCounts(t);
    if DataSize(t.db.buffer) > 0 {
      assert multiset(Contents(t.db) + t.db.buffer) == multiset(t.flushed + t.pending);
      assert InsertAll([]) == [];
    } else {
      assert Contents(t.db) + [] == Contents(t.db);
    }
  }

  lemma InvSorted(db: Db)
    requires Inv(db)
    ensures Sorted(db.buffer) && Consistent(db.lm)
  {
  }

  /** A merge of sorted files with non-empty keys is a sorted file with non-empty keys. */
  lemma MergeSortedFiles(db: Db, op: MergeOperation, keep: seq<FileId>, tail: seq<FileId>)
    requires Inv(db) && SortedFiles(db) && TakesTail(db, op, keep, tail)
    ensures SortedFiles(PerformMerge(db, op))
    ensures AllSorted(RunsAt(db.files, op.sources)) && AllNonEmptyKeys(RunsAt(db.files, op.sources))
  {
    hide MergeWritten, MinStart, Joined, Contiguous, TakesTail, Order, Inv;
    var runs, after := RunsAt(db.files, op.sources), PerformMerge(db, op);
    RunsSorted(db, op.sources);
    WrittenStable(runs);
    WrittenNonEmpty(runs);
    forall id | id in after.files ensures Sorted(after.files[id].entries) && NonEmptyKeys(after.files[id].entries) {
    }
  }

  lemma RunsSorted(db: Db, ids: seq<FileId>)
    requires SortedFiles(db)
    ensures AllSorted(RunsAt(db.files, ids)) && AllNonEmptyKeys(RunsAt(db.files, ids))
  {
  }

  lemma WrittenNonEmpty(runs: Runs)
    requires AllNonEmptyKeys(runs)
    ensures NonEmptyKeys(MergeWritten(runs))
  {
    var merged := MergeWritten(runs);
    WrittenPermutation(runs);
    forall i | 0 <= i < |merged| ensures merged[i].key != [] {
      assert merged[i] in multiset(merged);
      assert merged[i] in multiset(Flatten(runs));
      FlattenMembers(runs, merged[i]);
      var j :| 0 <= j < |runs| && merged[i] in runs[j];
      assert NonEmptyKeys(runs[j]);
    }
  }

  lemma MergeKept(t: Tracked, op: MergeOperation, keep: seq<FileId>, tail: seq<FileId>)
    requires Kept(t) && TakesTail(t.db, op, keep, tail) && |t.flushed| < U64_LIMIT
    ensures Kept(t.(db := PerformMerge(t.db, op)))
    ensures SortedFiles(t.db) ==> SortedFiles(PerformMerge(t.db, op))
  {
    hide Inv, Contents, SortedFiles, TakesTail;
    BufferCounts(t);
    MergeKeeps(t.db, op, keep, tail);
    if SortedFiles(t.db) {
      MergeSortedFiles(t.db, op, keep, tail);
    }
    MergeBuffer(t.db, op);
  }

  lemma MergeBuffer(db: Db, op: MergeOperation)
    ensures PerformMerge(db, op).buffer == db.buffer
  {
  }

  lemma FlushKept(t: Tracked, cfg: Config)
    requires Kept(t) && cfg.maxLevelCount > 0 && |t.flushed| + |t.pending| < U64_LIMIT
    ensures Kept(TrackFlush(t, Flush(t.db, cfg)))
    ensures SortedFiles(t.db) ==> SortedFiles(Flush(t.db, cfg))
  {
    hide Kept, FlushBuffer, PerformMerge, Cascade, TakesTail, Inv, SortedFiles;
    var mid := TrackFlush(t, FlushBuffer(t.db));
    FlushBufferKept(t);
    KeptInv(mid);
    if Cascade(mid.db.lm.levels, cfg.maxLevelCount).Some? {
      CascadeTakesTail(mid.db, cfg);
      var op := Cascade(mid.db.lm.levels, cfg.maxLevelCount).value;
      MergeKept(mid, op, Order(mid.db.lm.levels, op.dst.level), Lower(mid.db.lm.levels, op.dst.level));
    }
  }

  lemma KeptInv(t: Tracked)
    requires Kept(t)
    ensures Inv(t.db)
  {
  }

  lemma CompactKept(t: Tracked)
    requires Kept(t) && |t.flushed| + |t.pending| < U64_LIMIT
    ensures Kept(TrackFlush(t, Compact(t.db)))
    ensures SortedFiles(t.db) ==> SortedFiles(Compact(t.db))
  {
    hide Kept, FlushBuffer, PerformMerge, FullMerge, TakesTail, Inv, SortedFiles;
    var mid := TrackFlush(t, FlushBuffer(t.db));
    FlushBufferKept(t);
    KeptInv(mid);
    if FullMerge(mid.db.lm.levels).Some? {
      FullMergeTakesAll(mid.db);
      MergeKept(mid, FullMerge(mid.db.lm.levels).value, [], Order(mid.db.lm.levels, 0));
    }
  }

  lemma InsertedInv(db: Db, e: Entry)
    requires Inv(db)
    ensures Inv(db.(buffer := InsertLast(db.buffer, e)))
  {
    hide Consistent, Contiguous, Order, Joined, InsertLast, OfKey;
    InsertStable(db.buffer, e);
  }

  lemma InsertedNonEmpty(es: seq<Entry>, e: Entry)
    requires NonEmptyKeys(es) && e.key != []
    ensures NonEmptyKeys(InsertLast(es, e))
  {
    hide InsertLast, DataSize;
    InsertPermutes(es, e);
    var after := InsertLast(es, e);
    forall i | 0 <= i < |after| ensures after[i].key != [] {
      assert after[i] in multiset(after);
      assert after[i] == e || after[i] in es;
    }
  }

  lemma InsertKept(t: Tracked, e: Entry)
    requires Kept(t)
    ensures Kept(Tracked(t.db.(buffer := InsertLast(t.db.buffer, e)), t.flushed, t.pending + [e]))
    ensures SortedFiles(t.db) && e.key != [] ==> SortedFiles(t.db.(buffer := InsertLast(t.db.buffer, e)))
  {
    hide Inv, Order, Joined, InsertLast, NonEmptyKeys, Sorted;
    InsertedInv(t.db, e);
    assert (t.pending + [e])[..|t.pending|] == t.pending;
    if NonEmptyKeys(t.db.buffer) && e.key != [] {
      InsertedNonEmpty(t.db.buffer, e);
    }
  }

  /** Opening any listing of the files of a consistent database rebuilds the level manager state exactly. */
  lemma ReopenIsIdentity(db: Db, listing: seq<FileId>)
    requires Inv(db) && IsListing(db, listing)
    ensures Reopen(db, listing) == db.(buffer := [])
  {
    hide Loaded, Joined, Order, NewestFile, Consistent, Contiguous;
    var order := Order(db.lm.levels, 0);
    ListingIsOrder(db, listing);
    InvSorted(db);
    assert |listing| == |multiset(listing)| == |multiset(order)| == |order|;
    LastEnds(db);
    LoadInverts(db.lm, listing, if listing == [] then 0 else db.lm.globalStart);
  }

  /** The newest file ends where the next flush starts. */
  lemma LastEnds(db: Db)
    requires Inv(db)
    ensures var order := Order(db.lm.levels, 0);
            if order == [] then db.lm.globalStart == 0
            else db.lm.globalStart == StartAt(db.files, order[|order| - 1]) + |EntriesAt(db.files, order[|order| - 1])|
  {
    hide Consistent, Order;
    var order := Order(db.lm.levels, 0);
    if order == [] {
      assert RunsAt(db.files, order) == [];
    } else {
      var last := order[|order| - 1];
      assert order == order[..|order| - 1] + [last];
      JoinedConcat(db.files, order[..|order| - 1], [last]);
      JoinedOne(db.files, last);
    }
  }

  lemma ListingIsOrder(db: Db, listing: seq<FileId>)
    requires Inv(db) && IsListing(db, listing)
    ensures multiset(listing) == multiset(Order(db.lm.levels, 0))
  {
    var order := Order(db.lm.levels, 0);
    forall i, j | 0 <= i < j < |order| ensures order[i] != order[j] {
      assert order[i].index < order[j].index;
    }
    forall id: FileId ensures multiset(listing)[id] == multiset(order)[id] {
      DistinctCount(listing, id);
      DistinctCount(order, id);
    }
  }

  lemma {:induction false} DistinctCount(ids: seq<FileId>, id: FileId)
    requires forall i, j :: 0 <= i < j < |ids| ==> ids[i] != ids[j]
    ensures multiset(ids)[id] == if id in ids then 1 else 0
  {
    if ids != [] {
      assert ids == [ids[0]] + ids[1..];
      forall i, j | 0 <= i < j < |ids[1..]| ensures ids[1..][i] != ids[1..][j] {
        assert ids[i + 1] != ids[j + 1];
      }
      DistinctCount(ids[1..], id);
      forall j | 0 <= j < |ids[1..]| ensures ids[1..][j] != ids[0] {
        assert ids[0] != ids[j + 1];
      }
    }
  }

  lemma ReopenKept(t: Tracked, listing: seq<FileId>)
    requires Kept(t) && IsListing(t.db, listing)
    ensures Kept(Tracked(Reopen(t.db, listing), t.flushed, []))
    ensures SortedFiles(t.db) ==> SortedFiles(Reopen(t.db, listing))
  {
    hide Reopen, IsListing, Consistent, Order;
    ReopenIsIdentity(t.db, listing);
    assert InsertAll([]) == [];
  }

  // ---- Over all runs.

  lemma {:induction false} HistoryCount(cfg: Config, ops: seq<Operation>)
    requires cfg.maxLevelCount > 0
    ensures |Run(cfg, ops).flushed| + |Run(cfg, ops).pending| <= |Adds(ops)|
  {
    hide Add, Flush, Compact, Reopen;
    if ops != [] {
      HistoryCount(cfg, ops[..|ops| - 1]);
    }
  }

  /** Conservation: after any run, with any keys, the files hold exactly the flushed entries and the buffer the pending
      ones. */
  lemma {:induction false} RunKeeps(cfg: Config, ops: seq<Operation>)
    requires cfg.maxLevelCount > 0 && Listings(cfg, ops) && Countable(ops)
    ensures Kept(Run(cfg, ops))
    ensures NonEmptyKeys(Adds(ops)) ==> SortedFiles(Run(cfg, ops).db)
  {
    if ops == [] {
      EmptyInv();
    } else {
      var front, op := ops[..|ops| - 1], ops[|ops| - 1];
      RunPrefix(cfg, ops);
      RunKeeps(cfg, front);
      HistoryCount(cfg, front);
      HistoryCount(cfg, ops);
      StepKept(Run(cfg, front), ConfigAfter(cfg, front), op);
    }
  }

  lemma RunPrefix(cfg: Config, ops: seq<Operation>)
    requires cfg.maxLevelCount > 0 && Listings(cfg, ops) && ops != []
    ensures var front := ops[..|ops| - 1];
            && Listings(cfg, front) && |Adds(front)| <= |Adds(ops)|
            && (NonEmptyKeys(Adds(ops)) ==>
                 NonEmptyKeys(Adds(front)) && (ops[|ops| - 1].AddOp? ==> ops[|ops| - 1].key != []))
            && (ops[|ops| - 1].ReopenOp? ==> IsListing(Run(cfg, front).db, ops[|ops| - 1].listing))
  {
    hide Run;
    var front := ops[..|ops| - 1];
    forall n | 0 <= n < |front| && front[n].ReopenOp? ensures IsListing(Run(cfg, front[..n]).db, front[n].listing) {
      assert front[..n] == ops[..n] && front[n] == ops[n];
    }
    var adds := Adds(ops);
    assert adds == Adds(front) || (ops[|ops| - 1].AddOp?
        && adds == Adds(front) + [Entry(ops[|ops| - 1].key, ops[|ops| - 1].value)]);
    if NonEmptyKeys(adds) {
      forall i | 0 <= i < |Adds(front)| ensures Adds(front)[i].key != [] { assert adds[i] == Adds(front)[i]; }
      if ops[|ops| - 1].AddOp? { assert adds[|adds| - 1].key == ops[|ops| - 1].key; }
    }
  }

  lemma StepKept(t: Tracked, cfg: Config, op: Operation)
    requires cfg.maxLevelCount > 0 && Kept(t) && |t.flushed| + |t.pending| + (if op.AddOp? then 1 else 0) < U64_LIMIT
    requires op.ReopenOp? ==> IsListing(t.db, op.listing)
    ensures Kept(Step(t, cfg, op))
    ensures SortedFiles(t.db) && (op.AddOp? ==> op.key != []) ==> SortedFiles(Step(t, cfg, op).db)
  {
    hide Kept, SortedFiles, Flush, Compact, Reopen, InsertLast, IsListing;
    match op {
      case AddOp(k, v) =>
        var e := Entry(k, v);
        var added := Tracked(t.db.(buffer := InsertLast(t.db.buffer, e)), t.flushed, t.pending + [e]);
        InsertKept(t, e);
        if DataSize(added.db.buffer) > cfg.maxBufferSize {
          FlushKept(added, cfg);
        }
      case FlushOp => FlushKept(t, cfg);
      case CompactOp => CompactKept(t);
      case ReopenOp(listing, _) => ReopenKept(t, listing);
    }
  }

  /** Without reopening, nothing added is ever lost: flushed and pending entries together are the added ones, in
      order. */
  lemma {:induction false} NothingLost(cfg: Config, ops: seq<Operation>)
    requires cfg.maxLevelCount > 0 && forall n :: 0 <= n < |ops| ==> !ops[n].ReopenOp?
    ensures Run(cfg, ops).flushed + Run(cfg, ops).pending == Adds(ops)
  {
    hide Add, Flush, Compact, Reopen, DataSize;
    if ops != [] {
      var front := ops[..|ops| - 1];
      NothingLost(cfg, front);
      assert !ops[|ops| - 1].ReopenOp?;
    }
  }

  // ---- Lookup.

  /** Visiting the files in order and taking the first match is taking the first match of everything flushed. */
  lemma {:induction false} GetFromIs(files: Files, ids: seq<FileId>, key: Bytes)
    ensures GetFrom(files, ids, key) == var found := OfKey(Joined(files, ids), key); if found == [] then None
            else Some(found[0].value)
  {
    if ids == [] {
      assert RunsAt(files, ids) == [];
    } else {
      GetFromIs(files, ids[1..], key);
      assert ids == [ids[0]] + ids[1..];
      JoinedConcat(files, [ids[0]], ids[1..]);
      JoinedOne(files, ids[0]);
      OfKeyConcat(EntriesAt(files, ids[0]), Joined(files, ids[1..]), key);
    }
  }

  /** After any run, scanning all files finds a key exactly when a flushed entry has it, with a value of that key. */
  lemma ScanAfterRun(cfg: Config, ops: seq<Operation>, key: Bytes)
    requires cfg.maxLevelCount > 0 && Listings(cfg, ops) && Countable(ops)
    ensures var t := Run(cfg, ops);
            && (Get(t.db, key).Some? <==> exists e :: e in t.flushed && e.key == key)
            && (Get(t.db, key).Some? ==> Entry(key, Get(t.db, key).value) in t.flushed)
  {
    hide Run, GetFrom, OfKey, Inv, Joined;
    var t := Run(cfg, ops);
    RunKeeps(cfg, ops);
    GetFromIs(t.db.files, Order(t.db.lm.levels, 0), key);
    var found := OfKey(Contents(t.db), key);
    OfKeyMembers(Contents(t.db), key);
    forall e ensures e in Contents(t.db) <==> e in t.flushed {
      assert e in Contents(t.db) <==> e in multiset(Contents(t.db));
      assert e in t.flushed <==> e in multiset(t.flushed);
    }
    if found != [] {
      assert found[0] in found;
      assert found[0] == Entry(key, found[0].value);
    }
  }
}
