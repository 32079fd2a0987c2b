// The database as a state machine: buffer, level manager, files. What every operation keeps, over all runs.
module Database {
  import opened Bytes
  import opened Entries
  import opened Merging
  import opened Buffering
  import opened Levels
  import opened LevelManagement

  datatype FileData = FileData(start: nat, entries: seq<Entry>)

  type Files = map<FileId, FileData>

  datatype Db = Db(buffer: seq<Entry>, lm: State, files: Files)

  datatype Config = Config(maxBufferSize: nat, maxLevelCount: nat)

  const EMPTY := Db([], INITIAL, map[])

  function EntriesAt(files: Files, id: FileId): seq<Entry> {
    if id in files then files[id].entries else []
  }

  function StartAt(files: Files, id: FileId): nat {
    if id in files then files[id].start else 0
  }

  /** The runs of the named files, in the order given. */
  function RunsAt(files: Files, ids: seq<FileId>): (runs: Runs)
    ensures |runs| == |ids| && forall i :: 0 <= i < |ids| ==> runs[i] == EntriesAt(files, ids[i])
  {
    seq(|ids|, i requires 0 <= i < |ids| => EntriesAt(files, ids[i]))
  }

  function Joined(files: Files, ids: seq<FileId>): seq<Entry> {
    Flatten(RunsAt(files, ids))
  }

  /** Everything flushed, oldest file first. */
  function Contents(db: Db): seq<Entry> {
    Joined(db.files, Order(db.lm.levels, 0))
  }

  /** The smallest global start of the sources; the source begins with the largest 64-bit value. */
  function MinStart(files: Files, ids: seq<FileId>): nat {
    if ids == [] then U64_LIMIT - 1 else
      var rest := MinStart(files, ids[..|ids| - 1]);
      if StartAt(files, ids[|ids| - 1]) < rest then StartAt(files, ids[|ids| - 1]) else rest
  }

  // ---- Operations.

  /** A buffer without a single byte is left where it is. */
  function FlushBuffer(db: Db): Db {
    if DataSize(db.buffer) <= 0 || db.lm.levels == [] then db else
      Db([], Advance(db.lm, |db.buffer|),
         db.files[FileId(0, db.lm.nextIndex) := FileData(db.lm.globalStart, db.buffer)])
  }

  function PerformMerge(db: Db, op: MergeOperation): Db {
    var target := FileData(MinStart(db.files, op.sources), MergeWritten(RunsAt(db.files, op.sources)));
    Db(db.buffer, Apply(db.lm, op), db.files[op.dst := target] - (set id | id in op.sources))
  }

  function Flush(db: Db, cfg: Config): Db
    requires cfg.maxLevelCount > 0
  {
    var flushed := FlushBuffer(db);
    match Cascade(flushed.lm.levels, cfg.maxLevelCount)
    case None => flushed
    case Some(op) => PerformMerge(flushed, op)
  }

  function Compact(db: Db): Db {
    var flushed := FlushBuffer(db);
    match FullMerge(flushed.lm.levels)
    case None => flushed
    case Some(op) => PerformMerge(flushed, op)
  }

  function Add(db: Db, cfg: Config, e: Entry): Db
    requires cfg.maxLevelCount > 0
  {
    var added := db.(buffer := InsertLast(db.buffer, e));
    if DataSize(added.buffer) > cfg.maxBufferSize then Flush(added, cfg) else added
  }

  /** Closing drops the buffer; opening lists the directory in some order and reads one footer. */
  function Reopen(db: Db, listing: seq<FileId>): Db {
    var end := if listing == [] then 0 else
                 StartAt(db.files, NewestFile(listing)) + |EntriesAt(db.files, NewestFile(listing))|;
    Db([], Loaded(listing, end), db.files)
  }

  /** First match in the files, oldest first. */
  function GetFrom(files: Files, ids: seq<FileId>, key: Bytes): Option<Bytes> {
    if ids == [] then None else
      var found := OfKey(EntriesAt(files, ids[0]), key);
      if found != [] then Some(found[0].value) else GetFrom(files, ids[1..], key)
  }

  function Get(db: Db, key: Bytes): Option<Bytes> {
    GetFrom(db.files, Order(db.lm.levels, 0), key)
  }

  // ---- Invariant.

  /** Each file starts where the files before it end. */
  ghost predicate Contiguous(files: Files, ids: seq<FileId>) {
    forall i :: 0 <= i < |ids| ==> StartAt(files, ids[i]) == |Joined(files, ids[..i])|
  }

  ghost predicate Inv(db: Db) {
    && Consistent(db.lm)
    && (forall id :: id in db.files <==> id in Order(db.lm.levels, 0))
    && Contiguous(db.files, Order(db.lm.levels, 0))
    && db.lm.globalStart == |Contents(db)|
    && Sorted(db.buffer)
    && (forall id :: id in db.files ==> db.files[id].entries != [])
  }

  /** With non-empty keys: every file is sorted by key. */
  ghost predicate SortedFiles(db: Db) {
    && NonEmptyKeys(db.buffer)
    && forall id :: id in db.files ==> Sorted(db.files[id].entries) && NonEmptyKeys(db.files[id].entries)
  }

  /** Every file is sorted by key. */
  ghost predicate FilesSorted(db: Db) {
    forall id :: id in db.files ==> Sorted(db.files[id].entries)
  }

  // ---- Lists of files.

  lemma JoinedFlatten(files: Files, ids: seq<FileId>)
    ensures Joined(files, ids) == Flatten(RunsAt(files, ids))
  {
  }

  lemma JoinedConcat(files: Files, a: seq<FileId>, b: seq<FileId>)
    ensures Joined(files, a + b) == Joined(files, a) + Joined(files, b)
  {
    assert RunsAt(files, a + b) == RunsAt(files, a) + RunsAt(files, b);
    FlattenConcat(RunsAt(files, a), RunsAt(files, b));
  }

  lemma JoinedOne(files: Files, id: FileId)
    ensures Joined(files, [id]) == EntriesAt(files, id)
  {
    assert RunsAt(files, [id]) == [EntriesAt(files, id)];
    assert Flatten([EntriesAt(files, id)]) == EntriesAt(files, id) + Flatten<Entry>([]);
  }

  lemma JoinedSame(a: Files, b: Files, ids: seq<FileId>)
    requires forall id :: id in ids ==> EntriesAt(a, id) == EntriesAt(b, id)
    ensures Joined(a, ids) == Joined(b, ids)
  {
    assert RunsAt(a, ids) == RunsAt(b, ids);
  }

  /** The entries of a list of files do not depend on its order, up to permutation. */
  lemma {:induction false} JoinedPermutation(files: Files, a: seq<FileId>, b: seq<FileId>)
    requires multiset(a) == multiset(b)
    ensures multiset(Joined(files, a)) == multiset(Joined(files, b))
    decreases |a|
  {
    hide Joined;
    assert |a| == |multiset(a)| == |multiset(b)| == |b|;
    if a != [] {
      assert a[0] in multiset(b);
      var p :| 0 <= p < |b| && b[p] == a[0];
      WithoutOne(a, 0);
      WithoutOne(b, p);
      assert a[..0] + a[1..] == a[1..];
      JoinedPermutation(files, a[1..], b[..p] + b[p + 1..]);
      JoinedWithout(files, a, 0);
      JoinedWithout(files, b, p);
    } else {
      assert a == b;
    }
  }

  lemma WithoutOne(ids: seq<FileId>, p: nat)
    requires p < |ids|
    ensures ids == ids[..p] + [ids[p]] + ids[p + 1..]
    ensures multiset(ids[..p] + ids[p + 1..]) == multiset(ids) - multiset{ids[p]}
  {
    assert ids == ids[..p] + [ids[p]] + ids[p + 1..];
    assert multiset(ids) == multiset(ids[..p]) + multiset{ids[p]} + multiset(ids[p + 1..]);
  }

  lemma JoinedWithout(files: Files, ids: seq<FileId>, p: nat)
    requires p < |ids|
    ensures multiset(Joined(files, ids)) ==
            multiset(EntriesAt(files, ids[p])) + multiset(Joined(files, ids[..p] + ids[p + 1..]))
  {
    hide Joined;
    WithoutOne(ids, p);
    JoinedConcat(files, ids[..p] + [ids[p]], ids[p + 1..]);
    JoinedConcat(files, ids[..p], [ids[p]]);
    JoinedConcat(files, ids[..p], ids[p + 1..]);
    JoinedOne(files, ids[p]);
  }

  lemma StartsGrow(files: Files, ids: seq<FileId>, i: nat, j: nat)
    requires Contiguous(files, ids) && i <= j < |ids|
    ensures StartAt(files, ids[i]) <= StartAt(files, ids[j])
  {
    assert ids[..j] == ids[..i] + ids[i..j];
    JoinedConcat(files, ids[..i], ids[i..j]);
  }

  lemma MinStartIs(files: Files, ids: seq<FileId>, least: nat)
    requires forall id :: id in ids ==> least <= StartAt(files, id)
    requires (exists id :: id in ids && StartAt(files, id) == least) && least < U64_LIMIT
    ensures MinStart(files, ids) == least
  {
    MinStartBounds(files, ids);
  }

  lemma {:induction false} MinStartBounds(files: Files, ids: seq<FileId>)
    ensures forall id :: id in ids ==> MinStart(files, ids) <= StartAt(files, id)
    ensures MinStart(files, ids) == U64_LIMIT - 1
            || exists id :: id in ids && MinStart(files, ids) == StartAt(files, id)
    ensures MinStart(files, ids) <= U64_LIMIT - 1
  {
    if ids != [] {
      var front, last := ids[..|ids| - 1], ids[|ids| - 1];
      MinStartBounds(files, front);
      assert ids == front + [last];
      if StartAt(files, last) < MinStart(files, front) {
        assert last in ids;
      } else if MinStart(files, front) != U64_LIMIT - 1 {
        var id :| id in front && MinStart(files, front) == StartAt(files, id);
        assert id in ids;
      }
    }
  }

  // ---- One flush of the buffer.

  /** The buffered entries become the newest file; nothing else moves. */
  lemma FlushBufferKeeps(db: Db)
    requires Inv(db)
    ensures Inv(FlushBuffer(db)) && (SortedFiles(db) ==> SortedFiles(FlushBuffer(db)))
    ensures Contents(FlushBuffer(db)) == Contents(db) + (if DataSize(db.buffer) > 0 then db.buffer else [])
    ensures FlushBuffer(db).buffer == if DataSize(db.buffer) > 0 then [] else db.buffer
  {
    hide Inv, Contents, SortedFiles;
    if DataSize(db.buffer) > 0 {
      FlushKeeps(db);
    } else {
      assert FlushBuffer(db) == db;
      assert Contents(db) + [] == Contents(db);
    }
  }

  /** A flush empties the buffer exactly when it was empty or one of its entries has a byte. */
  lemma BufferEmptied(db: Db)
    requires Inv(db)
    ensures FlushBuffer(db).buffer == [] <==>
              db.buffer == [] || exists i ::
                  0 <= i < |db.buffer| && (db.buffer[i].key != [] || db.buffer[i].value != [])
  {
    hide Contiguous, Order, Joined;
    SizeZero(db.buffer);
    LevelsExist(db.lm);
  }

  /** An entry without a single byte is not flushed: the buffer stays as it is. */
  lemma ByteLessEntryStays(db: Db)
    requires db.buffer == [Entry([], [])]
    ensures FlushBuffer(db) == db && db.buffer != []
  {
    SizeZero(db.buffer);
  }

  lemma FlushKeeps(db: Db)
    requires Inv(db) && DataSize(db.buffer) > 0
    ensures Inv(FlushBuffer(db)) && (SortedFiles(db) ==> SortedFiles(FlushBuffer(db)))
    ensures Contents(FlushBuffer(db)) == Contents(db) + db.buffer && FlushBuffer(db).buffer == []
  {
    hide Flatten, RunsAt, Joined, Contiguous, Consistent;
    var after, id := FlushBuffer(db), FileId(0, db.lm.nextIndex);
    var order := Order(db.lm.levels, 0);
    LevelsExist(db.lm);
    AdvanceKeeps(db.lm, |db.buffer|);
    JoinedSame(db.files, after.files, order);
    JoinedConcat(after.files, order, [id]);
    JoinedOne(after.files, id);
    AppendedContiguous(db.files, after.files, order, id);
  }

  lemma AppendedContiguous(before: Files, after: Files, order: seq<FileId>, id: FileId)
    requires Contiguous(before, order)
    requires forall k :: k in order ==>
               EntriesAt(after, k) == EntriesAt(before, k) && StartAt(after, k) == StartAt(before, k)
    requires StartAt(after, id) == |Joined(before, order)|
    ensures Contiguous(after, order + [id])
  {
    hide Joined;
    forall i | 0 <= i < |order| + 1 ensures StartAt(after, (order + [id])[i]) == |Joined(after, (order + [id])[..i])| {
      assert (order + [id])[..i] == order[..i];
      JoinedSame(before, after, order[..i]);
      if i == |order| {
        assert order[..i] == order;
      }
    }
  }

  // ---- One merge.

  /** What a merge is allowed to assume: it takes a tail of the file list and its target is new. */
  ghost predicate TakesTail(db: Db, op: MergeOperation, keep: seq<FileId>, tail: seq<FileId>) {
    && Order(db.lm.levels, 0) == keep + tail && tail != []
    && multiset(op.sources) == multiset(tail)
    && op.dst !in keep + tail
    && Consistent(Apply(db.lm, op)) && Order(Apply(db.lm, op).levels, 0) == keep + [op.dst]
  }

  lemma TailStarts(files: Files, keep: seq<FileId>, tail: seq<FileId>, sources: seq<FileId>)
    requires Contiguous(files, keep + tail) && tail != [] && multiset(sources) == multiset(tail)
    requires |Joined(files, keep)| < U64_LIMIT
    ensures MinStart(files, sources) == |Joined(files, keep)|
  {
    hide Joined;
    var order, k := keep + tail, |keep|;
    assert order[..k] == keep && order[k] == tail[0];
    forall id | id in sources ensures StartAt(files, order[k]) <= StartAt(files, id) {
      assert id in multiset(tail);
      var j :| 0 <= j < |tail| && tail[j] == id;
      assert order[k + j] == id;
      StartsGrow(files, order, k, k + j);
    }
    assert tail[0] in multiset(sources);
    MinStartIs(files, sources, |Joined(files, keep)|);
  }

  lemma MergedEntries(db: Db, op: MergeOperation, keep: seq<FileId>, tail: seq<FileId>)
    requires Inv(db) && TakesTail(db, op, keep, tail)
    ensures var after := PerformMerge(db, op);
            && (forall id :: id in after.files <==> id in keep + [op.dst])
            && (forall id :: id in keep ==>
                 EntriesAt(after.files, id) == EntriesAt(db.files, id)
                 && StartAt(after.files, id) == StartAt(db.files, id))
            && EntriesAt(after.files, op.dst) == MergeWritten(RunsAt(db.files, op.sources))
            && StartAt(after.files, op.dst) == MinStart(db.files, op.sources)
  {
    hide MergeWritten, MinStart, RunsAt, Contiguous, Joined, Apply;
    var order := keep + tail;
    assert forall id :: id in op.sources <==> id in tail by {
      forall id ensures id in op.sources <==> id in tail {
        assert id in op.sources <==> id in multiset(op.sources);
        assert id in tail <==> id in multiset(tail);
      }
    }
    OrderDistinct(db.lm, keep, tail);
  }

  lemma OrderDistinct(s: State, keep: seq<FileId>, tail: seq<FileId>)
    requires Consistent(s) && Order(s.levels, 0) == keep + tail
    ensures forall id :: id in keep ==> id !in tail
  {
    IncreasingParts(keep, tail);
    forall id | id in keep ensures id !in tail {
      var i :| 0 <= i < |keep| && keep[i] == id;
      assert forall j :: 0 <= j < |tail| ==> keep[i].index < tail[j].index;
    }
  }

  /** A merge of a tail keeps the invariant, and the flushed entries up to permutation. */
  lemma MergeKeeps(db: Db, op: MergeOperation, keep: seq<FileId>, tail: seq<FileId>)
    requires Inv(db) && TakesTail(db, op, keep, tail) && |Contents(db)| < U64_LIMIT
    ensures Inv(PerformMerge(db, op))
    ensures Contents(PerformMerge(db, op)) == Joined(db.files, keep) + MergeWritten(RunsAt(db.files, op.sources))
    ensures Contents(db) == Joined(db.files, keep) + Joined(db.files, tail)
    ensures multiset(Contents(PerformMerge(db, op))) == multiset(Contents(db))
  {
    hide MergeWritten, MinStart, RunsAt, Apply, Flatten, Increasing, Contiguous;
    var after := PerformMerge(db, op);
    var sources := op.sources;
    MergedEntries(db, op, keep, tail);
    JoinedConcat(db.files, keep, tail);
    TailStarts(db.files, keep, tail, sources);
    WrittenPermutation(RunsAt(db.files, sources));
    JoinedPermutation(db.files, sources, tail);
    JoinedSame(db.files, after.files, keep);
    JoinedConcat(after.files, keep, [op.dst]);
    JoinedOne(after.files, op.dst);
    SameSizeSame(Contents(after), Contents(db));
    PrefixContiguous(db.files, keep, tail);
    AppendedContiguous(db.files, after.files, keep, op.dst);
    MergedNonEmpty(db, op, keep, tail);
    ApplyCounters(db.lm, op);
  }

  lemma PrefixContiguous(files: Files, keep: seq<FileId>, tail: seq<FileId>)
    requires Contiguous(files, keep + tail)
    ensures Contiguous(files, keep)
  {
    hide Joined;
    forall i | 0 <= i < |keep| ensures StartAt(files, keep[i]) == |Joined(files, keep[..i])| {
      assert (keep + tail)[i] == keep[i] && (keep + tail)[..i] == keep[..i];
    }
  }

  lemma SameSizeSame(a: seq<Entry>, b: seq<Entry>)
    ensures multiset(a) == multiset(b) ==> |a| == |b|
  {
    assert |multiset(a)| == |a| && |multiset(b)| == |b|;
  }

  lemma MergedNonEmpty(db: Db, op: MergeOperation, keep: seq<FileId>, tail: seq<FileId>)
    requires Inv(db) && TakesTail(db, op, keep, tail)
    ensures forall id :: id in PerformMerge(db, op).files ==> PerformMerge(db, op).files[id].entries != []
  {
    hide MergeWritten, MinStart, Apply, Joined, Contiguous;
    var runs := RunsAt(db.files, op.sources);
    MergedEntries(db, op, keep, tail);
    WrittenPermutation(runs);
    assert op.sources != [] by { assert tail[0] in multiset(op.sources); }
    assert op.sources[0] in multiset(tail);
    assert op.sources[0] in keep + tail;
    assert runs[0] != [];
    LiveFlatten(runs);
    SameSizeSame(MergeWritten(runs), Flatten(runs));
    forall id | id in PerformMerge(db, op).files ensures PerformMerge(db, op).files[id].entries != [] {
      assert id in keep + [op.dst];
      if id in keep {
        assert id in keep + tail;
        assert EntriesAt(PerformMerge(db, op).files, id) == EntriesAt(db.files, id);
      } else {
        assert EntriesAt(PerformMerge(db, op).files, op.dst) == MergeWritten(runs);
      }
    }
  }

  lemma CascadeTakesTail(db: Db, cfg: Config)
    requires Inv(db) && cfg.maxLevelCount > 0 && Cascade(db.lm.levels, cfg.maxLevelCount).Some?
    ensures var op := Cascade(db.lm.levels, cfg.maxLevelCount).value;
            && op.dst.level <= |db.lm.levels|
            && TakesTail(db, op, Order(db.lm.levels, op.dst.level), Lower(db.lm.levels, op.dst.level))
  {
    hide Cascade, Apply, Order, Lower, Listed, Increasing, Contiguous, Joined;
    CascadeFacts(db.lm, cfg.maxLevelCount);
    CascadeKeeps(db.lm, cfg.maxLevelCount);
    LowerListed(db.lm.levels, Cascade(db.lm.levels, cfg.maxLevelCount).value.dst.level);
  }

  lemma FullMergeTakesAll(db: Db)
    requires Inv(db) && FullMerge(db.lm.levels).Some?
    ensures var op := FullMerge(db.lm.levels).value;
            TakesTail(db, op, [], Order(db.lm.levels, 0)) && op.sources == Order(db.lm.levels, 0)
  {
    hide FullMerge, Apply, Order, Increasing, Contiguous, Joined;
    FullMergeFacts(db.lm);
    FullMergeKeeps(db.lm);
    var op := FullMerge(db.lm.levels).value;
    assert [] + [op.dst] == [op.dst] && [] + op.sources == op.sources;
  }

  // ---- A flush by the number of files per level.

  /** Files on level 0 once the buffer is written. */
  function NewestCount(db: Db): nat {
    (if db.lm.levels == [] then 0 else |db.lm.levels[0]|) + (if DataSize(db.buffer) > 0 then 1 else 0)
  }

  lemma FlushedLevels(db: Db)
    requires Inv(db)
    ensures var levels := FlushBuffer(db).lm.levels;
            && levels != [] && |levels| == |db.lm.levels| && |levels[0]| == NewestCount(db)
            && forall l :: 1 <= l < |levels| ==> levels[l] == db.lm.levels[l]
    ensures FlushBuffer(db).files == db.files + (if DataSize(db.buffer) > 0
                then map[FileId(0, db.lm.nextIndex) := FileData(db.lm.globalStart, db.buffer)] else map[])
    ensures FileId(0, db.lm.nextIndex) !in db.files
  {
    hide Contiguous, Joined, DataSize, Order;
    LevelsExist(db.lm);
    AdvanceKeeps(db.lm, |db.buffer|);
  }

  /** A flush that leaves level 0 below the limit changes no file; it only adds the one of the buffer. */
  lemma FlushStays(db: Db, cfg: Config)
    requires Inv(db) && cfg.maxLevelCount > 0 && NewestCount(db) < cfg.maxLevelCount
    ensures Flush(db, cfg).files == db.files + (if DataSize(db.buffer) > 0
                then map[FileId(0, db.lm.nextIndex) := FileData(db.lm.globalStart, db.buffer)] else map[])
    ensures forall id :: id in db.files ==> id in Flush(db, cfg).files && Flush(db, cfg).files[id] == db.files[id]
  {
    hide Inv, FlushBuffer, Cascade, NewestCount, DataSize;
    FlushedLevels(db);
    CascadeCounts(FlushBuffer(db).lm.levels, cfg.maxLevelCount);
  }

  /** Any other flush replaces the files below level `d` by one file of that level, where `d` is the first level above 0
      that has room; the files from there on stay as they are. */
  lemma FlushMerges(db: Db, cfg: Config) returns (d: nat, target: FileId)
    requires Inv(db) && NewestCount(db) >= cfg.maxLevelCount > 0 && |Contents(FlushBuffer(db))| < U64_LIMIT
    ensures 1 <= d <= |db.lm.levels| && target.level == d && target !in db.files
    ensures forall l :: 1 <= l < d ==> |db.lm.levels[l]| + 1 >= cfg.maxLevelCount
    ensures d < |db.lm.levels| ==> |db.lm.levels[d]| + 1 < cfg.maxLevelCount
    ensures forall id :: id in Flush(db, cfg).files <==> id == target || (id in db.files && id.level >= d)
    ensures forall id :: id in db.files && id.level >= d ==> Flush(db, cfg).files[id] == db.files[id]
  {
    hide Inv, FlushBuffer, Cascade, NewestCount, DataSize, TakesTail, Lower, Order, PerformMerge, Contents;
    var mid := FlushBuffer(db);
    FlushedLevels(db);
    FlushBufferKeeps(db);
    CascadeCounts(mid.lm.levels, cfg.maxLevelCount);
    var op := Cascade(mid.lm.levels, cfg.maxLevelCount).value;
    d, target := op.dst.level, op.dst;
    CascadeTakesTail(mid, cfg);
    MergeTakes(mid, op, d);
  }

  lemma MergeTakes(db: Db, op: MergeOperation, d: nat)
    requires Inv(db) && d <= |db.lm.levels| && TakesTail(db, op, Order(db.lm.levels, d), Lower(db.lm.levels, d))
    ensures op.dst !in db.files
    ensures forall id :: id in PerformMerge(db, op).files <==> id == op.dst || (id in db.files && id.level >= d)
    ensures forall id :: id in db.files && id.level >= d ==> PerformMerge(db, op).files[id] == db.files[id]
  {
    hide Apply, MergeWritten, MinStart, Joined, Contiguous, Lower, Order;
    var keep, tail := Order(db.lm.levels, d), Lower(db.lm.levels, d);
    MergedEntries(db, op, keep, tail);
    forall id ensures id in keep <==> id in db.files && id.level >= d {
      OrderMembers(db.lm.levels, d, id);
      OrderMembers(db.lm.levels, 0, id);
    }
    forall id | id in op.sources ensures id in tail {
      assert id in multiset(op.sources);
    }
    OrderDistinct(db.lm, keep, tail);
  }
}
