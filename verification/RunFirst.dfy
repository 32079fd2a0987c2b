// Over all runs: exactly when a lookup returns the value that was flushed first.
module DbFirst {
  import opened Bytes
  import opened Entries
  import opened Merging
  import opened Buffering
  import opened Levels
  import opened Database
  import opened DbRuns
  import opened DbOrder

  /** What is first among the flushed entries of the key is first in the files, oldest first. */
  ghost predicate First(t: Tracked, key: Bytes) {
    var flushed, stored := OfKey(t.flushed, key), OfKey(Contents(t.db), key);
    flushed != [] ==> stored != [] && stored[0] == flushed[0]
  }

  /** Inside one file, another entry of the key has come before the one flushed first. */
  ghost predicate Overtaken(t: Tracked, key: Bytes) {
    && OfKey(t.flushed, key) != []
    && exists id, i :: id in t.db.files && OvertakenIn(t.db.files[id].entries, OfKey(t.flushed, key)[0], i)
  }

  ghost predicate OvertakenIn(es: seq<Entry>, first: Entry, i: nat) {
    0 < i < |OfKey(es, first.key)| && OfKey(es, first.key)[i] == first
  }

  /** The cascade that follows a flush of the buffer, if any, leaves the oldest entry of the key first. */
  ghost predicate CascadeStays(db: Db, cfg: Config, key: Bytes)
    requires cfg.maxLevelCount > 0
  {
    match Cascade(FlushBuffer(db).lm.levels, cfg.maxLevelCount)
    case None => true
    case Some(op) => op.dst.level <= |FlushBuffer(db).lm.levels| && OldestStays(FlushBuffer(db), op.dst.level, key)
  }

  ghost predicate StepStays(db: Db, cfg: Config, op: Operation, key: Bytes)
    requires cfg.maxLevelCount > 0
  {
    match op
    case AddOp(k, v) =>
      var added := db.(buffer := InsertLast(db.buffer, Entry(k, v)));
      DataSize(added.buffer) > cfg.maxBufferSize ==> CascadeStays(added, cfg, key)
    case FlushOp => CascadeStays(db, cfg, key)
    case _ => true
  }

  ghost predicate StaysAt(cfg: Config, ops: seq<Operation>, n: nat, key: Bytes)
    requires cfg.maxLevelCount > 0 && n < |ops|
  {
    StepStays(Run(cfg, ops[..n]).db, ConfigAfter(cfg, ops[..n]), ops[n], key)
  }

  /** Every cascade of the run does. */
  ghost predicate RunStays(cfg: Config, ops: seq<Operation>, key: Bytes)
    requires cfg.maxLevelCount > 0
  {
    forall n :: 0 <= n < |ops| ==> StaysAt(cfg, ops, n, key)
  }

  // ---- Permutations of the entries of one key.

  lemma OfKeyPermutes(xs: seq<Entry>, ys: seq<Entry>, key: Bytes)
    requires multiset(xs) == multiset(ys)
    ensures multiset(OfKey(xs, key)) == multiset(OfKey(ys, key))
  {
    forall e: Entry ensures multiset(OfKey(xs, key))[e] == multiset(OfKey(ys, key))[e] {
      if e.key == key {
        OfKeyCount(xs, e);
        OfKeyCount(ys, e);
      } else {
        OfKeyMembers(xs, key);
        OfKeyMembers(ys, key);
        assert e !in OfKey(xs, key) && e !in OfKey(ys, key);
      }
    }
  }

  lemma {:induction false} DistinctMultiplicity(es: seq<Entry>, e: Entry)
    requires Distinct(es)
    ensures multiset(es)[e] <= 1
  {
    if es != [] {
      assert es == [es[0]] + es[1..];
      forall i, j | 0 <= i < j < |es[1..]| ensures es[1..][i] != es[1..][j] {
        assert es[i + 1] != es[j + 1];
      }
      DistinctMultiplicity(es[1..], e);
      forall j | 0 <= j < |es[1..]| ensures es[1..][j] != es[0] {
        assert es[0] != es[j + 1];
      }
      assert es[0] !in es[1..];
    }
  }

  lemma DistinctPermutes(xs: seq<Entry>, ys: seq<Entry>)
    requires Distinct(xs) && multiset(xs) == multiset(ys)
    ensures Distinct(ys)
  {
    forall i, j | 0 <= i < j < |ys| ensures ys[i] != ys[j] {
      if ys[i] == ys[j] {
        var e := ys[i];
        assert ys == ys[..j] + ys[j..] && ys[j..] == [ys[j]] + ys[j + 1..];
        assert e in ys[..j] by { assert ys[..j][i] == e; }
        assert multiset(ys)[e] >= 2;
        DistinctMultiplicity(xs, e);
        assert false;
      }
    }
  }

  /** The entries of the key in the files, as a list, permute the flushed ones. */
  lemma StoredPermutes(t: Tracked, key: Bytes)
    requires Kept(t)
    ensures multiset(OfKey(Contents(t.db), key)) == multiset(OfKey(t.flushed, key))
    ensures OfKey(Contents(t.db), key) == [] <==> OfKey(t.flushed, key) == []
    ensures Distinct(OfKey(t.flushed, key)) ==> Distinct(OfKey(Contents(t.db), key))
  {
    hide Inv, Contents, OfKey, Distinct;
    var stored, flushed := OfKey(Contents(t.db), key), OfKey(t.flushed, key);
    OfKeyPermutes(Contents(t.db), t.flushed, key);
    SameSizeSame(stored, flushed);
    if Distinct(flushed) {
      DistinctPermutes(flushed, stored);
    }
  }

  // ---- A flush of the buffer.

  lemma FlushBufferFirst(t: Tracked, key: Bytes)
    requires Kept(t)
    ensures var mid := TrackFlush(t, FlushBuffer(t.db));
            (First(t, key) ==> First(mid, key)) && (Overtaken(t, key) ==> Overtaken(mid, key))
  {
    hide Inv, Contents, OvertakenIn, FlushBuffer, Kept;
    var mid := TrackFlush(t, FlushBuffer(t.db));
    StoredPermutes(t, key);
    FlushBufferLists(t, key);
    FlushBufferFiles(t);
    if Overtaken(t, key) {
      var id, i :| id in t.db.files && OvertakenIn(t.db.files[id].entries, OfKey(t.flushed, key)[0], i);
      assert OvertakenIn(mid.db.files[id].entries, OfKey(mid.flushed, key)[0], i);
    }
  }

  /** Both lists of the key grow by the same entries. */
  lemma FlushBufferLists(t: Tracked, key: Bytes)
    requires Kept(t)
    ensures var mid := TrackFlush(t, FlushBuffer(t.db));
            exists more :: OfKey(Contents(mid.db), key) ==
                OfKey(Contents(t.db), key) + more && OfKey(mid.flushed, key) == OfKey(t.flushed, key) + more
  {
    hide Inv, Contents, FlushBuffer;
    var mid := TrackFlush(t, FlushBuffer(t.db));
    FlushBufferKeeps(t.db);
    BufferIsStableSort(t.pending);
    var more := if DataSize(t.db.buffer) > 0 then OfKey(t.pending, key) else [];
    OfKeyConcat(Contents(t.db), t.db.buffer, key);
    OfKeyConcat(t.flushed, t.pending, key);
    assert OfKey(InsertAll(t.pending), key) == OfKey(t.pending, key);
    assert Contents(t.db) + [] == Contents(t.db);
    assert OfKey(t.flushed, key) + [] == OfKey(t.flushed, key)
        && OfKey(Contents(t.db), key) + [] == OfKey(Contents(t.db), key);
    assert OfKey(mid.flushed, key) == OfKey(t.flushed, key) + more;
  }

  /** The files that were there stay as they are. */
  lemma FlushBufferFiles(t: Tracked)
    requires Kept(t)
    ensures forall id :: id in t.db.files ==>
            id in FlushBuffer(t.db).files && FlushBuffer(t.db).files[id] == t.db.files[id]
  {
    hide Joined, Contiguous, Sorted, Increasing, Order;
    AdvanceKeeps(t.db.lm, |t.db.buffer|);
  }

  // ---- Merges.

  /** Inside a merged file the entries of a key keep the order they had in their source. */
  lemma MergeOvertaken(t: Tracked, op: MergeOperation, keep: seq<FileId>, tail: seq<FileId>, key: Bytes)
    requires Kept(t) && SortedFiles(t.db) && TakesTail(t.db, op, keep, tail) && Overtaken(t, key)
    ensures Overtaken(t.(db := PerformMerge(t.db, op)), key)
  {
    hide MergeWritten, MinStart, Joined, Contiguous, Sorted, Apply, Increasing, OfKey, SortedFiles, Consistent;
    var first, runs, after := OfKey(t.flushed, key)[0], RunsAt(t.db.files, op.sources), PerformMerge(t.db, op);
    var id, i :| id in t.db.files && OvertakenIn(t.db.files[id].entries, first, i);
    MergedEntries(t.db, op, keep, tail);
    assert id in keep + tail;
    if id in keep {
      assert id in keep + [op.dst];
      assert EntriesAt(after.files, id) == EntriesAt(t.db.files, id);
      assert OvertakenIn(after.files[id].entries, first, i);
    } else {
      assert id in multiset(tail);
      var s :| 0 <= s < |op.sources| && op.sources[s] == id;
      MergeSortedFiles(t.db, op, keep, tail);
      assert op.dst in keep + [op.dst];
      var j := MergedPlace(runs, s, first, i);
      assert OvertakenIn(after.files[op.dst].entries, first, j);
    }
  }

  lemma MergedPlace(runs: Runs, s: nat, first: Entry, i: nat) returns (j: nat)
    requires AllSorted(runs) && AllNonEmptyKeys(runs) && s < |runs| && OvertakenIn(runs[s], first, i)
    ensures OvertakenIn(MergeWritten(runs), first, j)
  {
    hide MergeWritten, Flatten, AllSorted, AllNonEmptyKeys;
    WrittenStable(runs);
    FlattenAt(runs, s);
    var front, back := Flatten(runs[..s]), Flatten(runs[s + 1..]);
    OfKeyConcat(front, runs[s] + back, first.key);
    OfKeyConcat(runs[s], back, first.key);
    assert OfKey(MergeWritten(runs), first.key) == OfKey(Flatten(runs), first.key);
    j := |OfKey(front, first.key)| + i;
  }

  lemma CascadeFirst(t: Tracked, cfg: Config, key: Bytes)
    requires Kept(t) && SortedFiles(t.db) && cfg.maxLevelCount > 0 && Cascade(t.db.lm.levels, cfg.maxLevelCount).Some?
    requires |t.flushed| < U64_LIMIT && First(t, key)
    ensures var op := Cascade(t.db.lm.levels, cfg.maxLevelCount).value;
            var after := t.(db := PerformMerge(t.db, op));
            && op.dst.level <= |t.db.lm.levels|
            && (OldestStays(t.db, op.dst.level, key) ==> First(after, key))
            && (!OldestStays(t.db, op.dst.level, key) && Distinct(OfKey(t.flushed, key)) ==> Overtaken(after, key))
  {
    hide Inv, SortedFiles, TakesTail, Contents, PerformMerge, Cascade, OldestStays, OvertakenIn, Distinct;
    var op := Cascade(t.db.lm.levels, cfg.maxLevelCount).value;
    var after := t.(db := PerformMerge(t.db, op));
    KeptInv(t);
    BufferCounts(t);
    CascadeTakesTail(t.db, cfg);
    StoredPermutes(t, key);
    if OfKey(t.flushed, key) != [] {
      CascadeKeepsFirst(t.db, cfg, key);
      if !OldestStays(t.db, op.dst.level, key) && Distinct(OfKey(t.flushed, key)) {
        CascadeOvertakes(t, cfg, key);
      }
    } else {
      NoLevelHolds(t.db, op.dst.level, key);
    }
  }

  lemma DistinctMeans(es: seq<Entry>)
    requires Distinct(es)
    ensures forall i, j :: 0 <= i < j < |es| ==> es[i] != es[j]
  {
  }

  /** A key that occurs nowhere occurs on no level. */
  lemma NoLevelHolds(db: Db, d: nat, key: Bytes)
    requires Inv(db) && d <= |db.lm.levels| && OfKey(Contents(db), key) == []
    ensures OldestStays(db, d, key)
  {
    hide Inv, Joined, OnLevel;
    OrderSplit(db.lm.levels, d);
    JoinedConcat(db.files, Order(db.lm.levels, d), Lower(db.lm.levels, d));
    OfKeyConcat(Joined(db.files, Order(db.lm.levels, d)), Joined(db.files, Lower(db.lm.levels, d)), key);
    LowerFirst(db, d, key);
  }

  /** When the oldest entry does not stay first, it is behind another one inside the new file. */
  lemma CascadeOvertakes(t: Tracked, cfg: Config, key: Bytes)
    requires Kept(t) && SortedFiles(t.db) && cfg.maxLevelCount > 0 && Cascade(t.db.lm.levels, cfg.maxLevelCount).Some?
    requires |t.flushed| < U64_LIMIT && First(t, key) && OfKey(t.flushed, key) != []
    requires var op := Cascade(t.db.lm.levels, cfg.maxLevelCount).value;
             var after := OfKey(Contents(PerformMerge(t.db, op)), key);
             && op.dst.level <= |t.db.lm.levels| && !OldestStays(t.db, op.dst.level, key)
             && after != [] && after[0] != OfKey(Contents(t.db), key)[0]
    ensures Overtaken(t.(db := PerformMerge(t.db, Cascade(t.db.lm.levels, cfg.maxLevelCount).value)), key)
  {
    hide Inv, SortedFiles, TakesTail, Contents, Cascade, MergeWritten, Joined, MinStart, Apply, Kept, PerformMerge;
    var op := Cascade(t.db.lm.levels, cfg.maxLevelCount).value;
    var after := PerformMerge(t.db, op);
    var keep, tail, first := Order(t.db.lm.levels, op.dst.level), Lower(t.db.lm.levels, op.dst.level),
        OfKey(t.flushed, key)[0];
    KeptInv(t);
    BufferCounts(t);
    CascadeTakesTail(t.db, cfg);
    MergeKeeps(t.db, op, keep, tail);
    MergedEntries(t.db, op, keep, tail);
    var merged := MergeWritten(RunsAt(t.db.files, op.sources));
    OfKeyConcat(Joined(t.db.files, keep), merged, key);
    assert OfKey(Contents(after), key) == OfKey(merged, key);
    OfKeyMembers(Contents(after), key);
    OfKeyMembers(Contents(t.db), key);
    assert first in OfKey(Contents(t.db), key) && first in multiset(Contents(t.db));
    assert first in multiset(Contents(after));
    var i :| 0 <= i < |OfKey(merged, key)| && OfKey(merged, key)[i] == first;
    assert op.dst in keep + [op.dst];
    assert OvertakenIn(after.files[op.dst].entries, first, i);
  }

  // ---- Steps.

  /** First place is kept or, if the entries of the key can be told apart, lost for good. */
  ghost predicate Decided(t: Tracked, stays: bool, key: Bytes) {
    if stays then First(t, key) else Distinct(OfKey(t.flushed, key)) ==> Overtaken(t, key)
  }

  /** What was flushed before is a prefix of what is flushed later, so its entries of a key are distinct if the later
      ones are. */
  lemma PrefixDistinct(xs: seq<Entry>, ys: seq<Entry>, key: Bytes)
    requires xs <= ys && Distinct(OfKey(ys, key))
    ensures Distinct(OfKey(xs, key))
  {
    OfKeyConcat(xs, ys[|xs|..], key);
    assert ys == xs + ys[|xs|..];
    var a, b := OfKey(xs, key), OfKey(ys, key);
    forall i, j | 0 <= i < j < |a| ensures a[i] != a[j] {
      assert b[i] == a[i] && b[j] == a[j];
    }
  }

  lemma FlushBufferDecided(t: Tracked, stays: bool, key: Bytes)
    requires Kept(t) && Decided(t, stays, key)
    ensures Decided(TrackFlush(t, FlushBuffer(t.db)), stays, key)
  {
    hide Kept, FlushBuffer, First, Overtaken, Distinct, OfKey;
    var mid := TrackFlush(t, FlushBuffer(t.db));
    FlushBufferFirst(t, key);
    assert t.flushed <= mid.flushed;
    if Distinct(OfKey(mid.flushed, key)) {
      PrefixDistinct(t.flushed, mid.flushed, key);
    }
  }

  lemma FlushDecided(t: Tracked, cfg: Config, stays: bool, key: Bytes)
    requires Kept(t) && SortedFiles(t.db) && cfg.maxLevelCount > 0 && |t.flushed| + |t.pending| < U64_LIMIT
    requires Decided(t, stays, key)
    ensures Decided(TrackFlush(t, Flush(t.db, cfg)), stays && CascadeStays(t.db, cfg, key), key)
  {
    hide Inv, SortedFiles, TakesTail, Contents, PerformMerge, FlushBuffer, Cascade, Kept, First, Overtaken, OldestStays;
    hide Distinct;
    var mid := TrackFlush(t, FlushBuffer(t.db));
    FlushBufferDecided(t, stays, key);
    FlushBufferKept(t);
    KeptInv(mid);
    if Cascade(mid.db.lm.levels, cfg.maxLevelCount).Some? {
      var op := Cascade(mid.db.lm.levels, cfg.maxLevelCount).value;
      CascadeTakesTail(mid.db, cfg);
      if stays {
        CascadeFirst(mid, cfg, key);
      } else if Distinct(OfKey(mid.flushed, key)) {
        MergeOvertaken(mid, op, Order(mid.db.lm.levels, op.dst.level), Lower(mid.db.lm.levels, op.dst.level), key);
      }
    }
  }

  lemma CompactDecided(t: Tracked, stays: bool, key: Bytes)
    requires Kept(t) && SortedFiles(t.db) && |t.flushed| + |t.pending| < U64_LIMIT && Decided(t, stays, key)
    ensures Decided(TrackFlush(t, Compact(t.db)), stays, key)
  {
    hide Inv, SortedFiles, TakesTail, Contents, PerformMerge, FlushBuffer, FullMerge, Kept, Overtaken;
    var mid := TrackFlush(t, FlushBuffer(t.db));
    FlushBufferDecided(t, stays, key);
    FlushBufferKept(t);
    KeptInv(mid);
    BufferCounts(mid);
    if FullMerge(mid.db.lm.levels).Some? {
      var op := FullMerge(mid.db.lm.levels).value;
      FullMergeTakesAll(mid.db);
      if stays {
        OldestFirstMerge(mid.db, op, [], Order(mid.db.lm.levels, 0), key);
      } else if Distinct(OfKey(mid.flushed, key)) {
        MergeOvertaken(mid, op, [], Order(mid.db.lm.levels, 0), key);
      }
    }
  }

  lemma SameFilesDecided(a: Tracked, b: Tracked, stays: bool, key: Bytes)
    requires a.flushed == b.flushed && a.db.files == b.db.files && a.db.lm == b.db.lm && Decided(a, stays, key)
    ensures Decided(b, stays, key)
  {
    hide Order, Joined, OfKey, OvertakenIn;
  }

  lemma StepDecided(t: Tracked, cfg: Config, op: Operation, stays: bool, key: Bytes)
    requires cfg.maxLevelCount > 0 && Kept(t) && SortedFiles(t.db) && |t.flushed| + |t.pending| + 1 < U64_LIMIT
    requires (op.ReopenOp? ==> IsListing(t.db, op.listing)) && (op.AddOp? ==> op.key != [])
    requires Decided(t, stays, key)
    ensures Decided(Step(t, cfg, op), stays && StepStays(t.db, cfg, op, key), key)
  {
    hide Inv, SortedFiles, Flush, Compact, Reopen, IsListing, InsertLast, Kept, CascadeStays, Decided, Distinct;
    match op {
      case AddOp(k, v) =>
        var e := Entry(k, v);
        var added := Tracked(t.db.(buffer := InsertLast(t.db.buffer, e)), t.flushed, t.pending + [e]);
        InsertKept(t, e);
        SameFilesDecided(t, added, stays, key);
        if DataSize(added.db.buffer) > cfg.maxBufferSize {
          FlushDecided(added, cfg, stays, key);
        }
      case FlushOp => FlushDecided(t, cfg, stays, key);
      case CompactOp => CompactDecided(t, stays, key);
      case ReopenOp(listing, _) =>
        KeptInv(t);
        ReopenIsIdentity(t.db, listing);
        SameFilesDecided(t, Step(t, cfg, op), stays, key);
    }
  }

  lemma StaysPrefix(cfg: Config, ops: seq<Operation>, key: Bytes)
    requires cfg.maxLevelCount > 0 && ops != []
    ensures var front := ops[..|ops| - 1];
            RunStays(cfg, ops, key) <==>
              RunStays(cfg, front, key) && StepStays(Run(cfg, front).db, ConfigAfter(cfg, front), ops[|ops| - 1], key)
  {
    hide StaysAt, StepStays;
    var front := ops[..|ops| - 1];
    forall n | 0 <= n < |front| ensures StaysAt(cfg, front, n, key) <==> StaysAt(cfg, ops, n, key) {
      StaysInFront(cfg, ops, n, key);
    }
    LastStays(cfg, ops, key);
  }

  lemma StaysInFront(cfg: Config, ops: seq<Operation>, n: nat, key: Bytes)
    requires cfg.maxLevelCount > 0 && n + 1 < |ops|
    ensures StaysAt(cfg, ops[..|ops| - 1], n, key) <==> StaysAt(cfg, ops, n, key)
  {
    hide StepStays, Run, ConfigAfter;
    assert ops[..|ops| - 1][..n] == ops[..n];
  }

  lemma LastStays(cfg: Config, ops: seq<Operation>, key: Bytes)
    requires cfg.maxLevelCount > 0 && ops != []
    ensures var front := ops[..|ops| - 1];
            StaysAt(cfg, ops, |front|, key) <==>
                StepStays(Run(cfg, front).db, ConfigAfter(cfg, front), ops[|ops| - 1], key)
  {
    hide StepStays, Run, ConfigAfter;
  }

  lemma {:induction false} RunDecided(cfg: Config, ops: seq<Operation>, key: Bytes)
    requires cfg.maxLevelCount > 0 && Listings(cfg, ops) && |Adds(ops)| + 1 < U64_LIMIT && NonEmptyKeys(Adds(ops))
    ensures Decided(Run(cfg, ops), RunStays(cfg, ops, key), key)
  {
    if ops == [] {
    } else {
      hide Kept, Decided, Step, StepStays, SortedFiles, RunStays, Distinct, IsListing, Listings, Adds;
      var front, op := ops[..|ops| - 1], ops[|ops| - 1];
      RunPrefix(cfg, ops);
      RunDecided(cfg, front, key);
      CountablePrefix(cfg, front);
      RunKeeps(cfg, front);
      HistoryCount(cfg, front);
      StaysPrefix(cfg, ops, key);
      StepDecided(Run(cfg, front), ConfigAfter(cfg, front), op, RunStays(cfg, front, key), key);
    }
  }

  lemma CountablePrefix(cfg: Config, ops: seq<Operation>)
    requires |Adds(ops)| + 1 < U64_LIMIT
    ensures Countable(ops)
  {
  }

  /** An overtaken entry is not the first of its key in the files. */
  lemma OvertakenNotFirst(t: Tracked, key: Bytes)
    requires Kept(t) && Overtaken(t, key) && Distinct(OfKey(t.flushed, key))
    ensures var stored := OfKey(Contents(t.db), key); stored != [] && stored[0] != OfKey(t.flushed, key)[0]
  {
    hide Joined, Contiguous, Sorted, Consistent, OfKey, Distinct;
    var first, order := OfKey(t.flushed, key)[0], Order(t.db.lm.levels, 0);
    var id, i :| id in t.db.files && OvertakenIn(t.db.files[id].entries, first, i);
    StoredPermutes(t, key);
    OfKeyMembers(t.flushed, key);
    var p :| 0 <= p < |order| && order[p] == id;
    assert order == order[..p] + ([id] + order[p + 1..]);
    JoinedConcat(t.db.files, order[..p], [id] + order[p + 1..]);
    JoinedConcat(t.db.files, [id], order[p + 1..]);
    JoinedOne(t.db.files, id);
    var front, here, back := Joined(t.db.files, order[..p]), t.db.files[id].entries, Joined(t.db.files, order[p + 1..]);
    OfKeyConcat(front, here + back, key);
    OfKeyConcat(here, back, key);
    var stored := OfKey(Contents(t.db), key);
    assert stored[|OfKey(front, key)| + i] == first;
    DistinctMeans(stored);
  }

  /**
   * With non-empty keys: a lookup returns the value flushed first when every cascade of the run found an older file
   * with the key outside the merged levels, or at most one of them with it; and, unless the same value was flushed
   * twice under the key, only then.
   */
  lemma FirstFlushedWinsIff(cfg: Config, ops: seq<Operation>, key: Bytes)
    requires cfg.maxLevelCount > 0 && Listings(cfg, ops) && |Adds(ops)| + 1 < U64_LIMIT && NonEmptyKeys(Adds(ops))
    requires OfKey(Run(cfg, ops).flushed, key) != []
    ensures var t := Run(cfg, ops);
            var flushed := OfKey(t.flushed, key);
            && (RunStays(cfg, ops, key) ==> Get(t.db, key) == Some(flushed[0].value))
            && (Distinct(flushed) && Get(t.db, key) == Some(flushed[0].value) ==> RunStays(cfg, ops, key))
  {
    hide Run, GetFrom, Kept, Overtaken, RunStays, Distinct, Listings, Adds, Joined, Order, SortedFiles;
    var t := Run(cfg, ops);
    CountablePrefix(cfg, ops);
    RunKeeps(cfg, ops);
    RunDecided(cfg, ops, key);
    GetFromIs(t.db.files, Order(t.db.lm.levels, 0), key);
    OfKeyMembers(Contents(t.db), key);
    OfKeyMembers(t.flushed, key);
    if !RunStays(cfg, ops, key) && Distinct(OfKey(t.flushed, key)) {
      OvertakenNotFirst(t, key);
    }
  }

  lemma ShortCascadeStays(db: Db, cfg: Config, key: Bytes)
    requires cfg.maxLevelCount > 0 && ShortCascade(db, cfg)
    ensures CascadeStays(db, cfg, key)
  {
    hide FlushBuffer, Listed, Joined, Holds;
  }

  /** Cascades that take level 0 only keep the oldest entry of every key first, so FirstAddedWins is a special case. */
  lemma ShortRunStays(cfg: Config, ops: seq<Operation>, key: Bytes)
    requires cfg.maxLevelCount > 0 && ShortRun(cfg, ops)
    ensures RunStays(cfg, ops, key)
  {
    hide Run, InsertLast, DataSize, CascadeStays, ShortCascade, ConfigAfter;
    forall n | 0 <= n < |ops| ensures StaysAt(cfg, ops, n, key) {
      var now := ConfigAfter(cfg, ops[..n]);
      assert ShortStep(Run(cfg, ops[..n]), now, ops[n]);
      var db := Run(cfg, ops[..n]).db;
      match ops[n] {
        case AddOp(k, v) =>
          var added := db.(buffer := InsertLast(db.buffer, Entry(k, v)));
          if DataSize(added.buffer) > now.maxBufferSize {
            ShortCascadeStays(added, now, key);
          }
        case FlushOp => ShortCascadeStays(db, now, key);
        case _ =>
      }
    }
  }
}
