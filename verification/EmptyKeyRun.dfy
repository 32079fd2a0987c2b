// A run after which a lookup misses a flushed entry, because a merge moved the empty key behind other keys.
// One entry with an empty key is flushed, then two entries with other keys; the second flush merges the two files.
module DbEmptyKey {
  import opened Entries
  import opened TreeSearch
  import opened Merging
  import opened Buffering
  import opened Levels
  import opened Database
  import opened DbRuns
  import opened DbNewerFirst
  import opened ReaderMaps
  import opened KvQueries

  const FIRST := Entry([], [9])

  const SECOND := Entry([1], [1])

  const THIRD := Entry([2], [2])

  const MISSING: seq<Operation> := [AddOp([], [9]), FlushOp, AddOp([1], [1]), AddOp([2], [2]), FlushOp]

  lemma RunOne(ops: seq<Operation>, op: Operation)
    ensures Run(CONFIG, ops + [op]) == Step(Run(CONFIG, ops), ConfigAfter(CONFIG, ops), op)
    ensures !op.ReopenOp? ==> ConfigAfter(CONFIG, ops + [op]) == ConfigAfter(CONFIG, ops)
  {
    hide Step;
    assert (ops + [op])[..|ops|] == ops;
  }

  lemma MergeStep(runs: Runs, m: nat)
    requires m < |runs| && runs[m] != [] && WriterScan(runs, |runs|).1 == m
    ensures MergeWritten(runs) == [runs[m][0]] + MergeWritten(Drop(runs, m))
  {
    FlattenAt(runs, m);
  }

  lemma Scan2(a: seq<Entry>, b: seq<Entry>)
    requires a == [] || a[0].key == []
    ensures WriterScan([a, b], 2).1 == if b == [] then 0 else 1
  {
    assert WriterScan([a, b], 1).0 == [];
  }

  /** The merge puts the empty key last. */
  lemma MergedLast()
    ensures MergeWritten([[FIRST], [SECOND, THIRD]]) == [SECOND, THIRD, FIRST]
  {
    hide MergeWritten, WriterScan;
    assert [SECOND, THIRD][1..] == [THIRD] && [THIRD][1..] == [] && [FIRST][1..] == [];
    Scan2([FIRST], [SECOND, THIRD]);
    MergeStep([[FIRST], [SECOND, THIRD]], 1);
    assert Drop([[FIRST], [SECOND, THIRD]], 1) == [[FIRST], [THIRD]];
    Scan2([FIRST], [THIRD]);
    MergeStep([[FIRST], [THIRD]], 1);
    assert Drop([[FIRST], [THIRD]], 1) == [[FIRST], []];
    Scan2([FIRST], []);
    MergeStep([[FIRST], []], 0);
    assert Drop([[FIRST], []], 0) == [[], []];
    WrittenPermutation([[], []]);
    Flatten2([], []);
    assert |multiset(MergeWritten([[], []]))| == 0;
  }

  // The state after the second flush.
  const MERGED := Db([], State([[], [1]], 2, 3), map[FileId(1, 1) := FileData(0, [SECOND, THIRD, FIRST])])

  lemma Buffered()
    ensures InsertLast([], FIRST) == [FIRST] && InsertLast([], SECOND) == [SECOND]
            && InsertLast([SECOND], THIRD) == [SECOND, THIRD]
    ensures DataSize([FIRST]) == 1 && DataSize([SECOND]) == 2 && DataSize([SECOND, THIRD]) == 4
  {
    assert [FIRST][1..] == [] && [SECOND, THIRD][1..] == [THIRD] && [THIRD][1..] == [];
    assert DataSize([THIRD]) == 2;
    assert InsertLast([SECOND], THIRD) == [SECOND] + InsertLast([], THIRD);
  }

  lemma FirstFlush()
    ensures Run(CONFIG, MISSING[..2]) == Tracked(After1(FIRST), [FIRST], [])
            && ConfigAfter(CONFIG, MISSING[..2]) == CONFIG
  {
    hide Cascade, PerformMerge, Advance, Run, InsertLast, DataSize;
    Buffered();
    RunNone();
    RunOne([], AddOp([], [9]));
    RunOne([AddOp([], [9])], FlushOp);
    assert [] + [AddOp([], [9])] == [AddOp([], [9])] && [AddOp([], [9])] + [FlushOp] == MISSING[..2];
    Round1(FIRST);
    assert [] + [FIRST] == [FIRST];
  }

  lemma RunNone()
    ensures Run(CONFIG, []) == Tracked(EMPTY, [], []) && ConfigAfter(CONFIG, []) == CONFIG
  {
  }

  lemma SecondMerge()
    ensures Cascaded(Db([], State([[0, 1]], 2, 3),
            map[FileId(0, 0) := FileData(0, [FIRST]), FileId(0, 1) := FileData(1, [SECOND, THIRD])])) == MERGED
  {
    hide Removed, RemovedAll, Grown, MergeWritten, Cascade, MinStart, Flatten;
    var f, g := FileId(0, 0), FileId(0, 1);
    var db := Db([], State([[0, 1]], 2, 3), map[f := FileData(0, [FIRST]), g := FileData(1, [SECOND, THIRD])]);
    Cascade2(db.lm.levels);
    var op := MergeOperation([f, g], FileId(1, 1));
    RemovedTwo(db.lm.levels);
    var kept: seq<seq<nat>> := [[], []];
    assert kept[1] + [1] == [1] && kept[1 := [1]] == [[], [1]];
    MergedState(db, op, kept, [[], [1]]);
    RunsAreTwo(db, f, g);
    MergedLast();
    MinStartLast(db.files, [], f);
    MinStartLast(db.files, [f], g);
    assert [] + [f] == [f] && [f] + [g] == [f, g];
    MinStartNone(db.files);
  }

  lemma FlushedPair()
    ensures Flush(After1(FIRST).(buffer := [SECOND, THIRD]), CONFIG) == MERGED
  {
    hide Cascade, PerformMerge, DataSize;
    Buffered();
    var db := After1(FIRST).(buffer := [SECOND, THIRD]);
    var level0: seq<nat> := [0];
    assert level0 + [1] == [0, 1] && [level0][0 := [0, 1]] == [[0, 1]];
    assert Advance(db.lm, 2) == State([[0, 1]], 2, 3);
    SecondMerge();
  }

  lemma SecondFlush()
    ensures Run(CONFIG, MISSING) == Tracked(MERGED, [FIRST, SECOND, THIRD], [])
  {
    hide Run, InsertLast, DataSize, Flush;
    Buffered();
    FirstFlush();
    FlushedPair();
    var ops := MISSING[..2];
    var db := After1(FIRST);
    assert [] + [SECOND] == [SECOND] && [SECOND] + [THIRD] == [SECOND, THIRD]
        && [FIRST] + [SECOND, THIRD] == [FIRST, SECOND, THIRD];
    RunOne(ops, AddOp([1], [1]));
    assert Run(CONFIG, ops + [AddOp([1], [1])]) == Tracked(db.(buffer := [SECOND]), [FIRST], [SECOND]);
    RunOne(ops + [AddOp([1], [1])], AddOp([2], [2]));
    assert Run(CONFIG, ops + [AddOp([1], [1])] + [AddOp([2], [2])]) ==
        Tracked(db.(buffer := [SECOND, THIRD]), [FIRST], [SECOND, THIRD]);
    RunOne(ops + [AddOp([1], [1])] + [AddOp([2], [2])], FlushOp);
    assert ops + [AddOp([1], [1])] + [AddOp([2], [2])] + [FlushOp] == MISSING;
  }

  /** A flushed entry with the empty key, in a file written with a fan-out of two, is not found; scanning the files
      finds it. */
  lemma {:induction false} FlushedKeyMissed(cfgs: Configs)
    requires FileId(1, 1) in cfgs && cfgs[FileId(1, 1)].maxNodeChildren == 2
    ensures var t := Run(CONFIG, MISSING);
            && Entry([], [9]) in t.flushed && t.pending == []
            && StoredGet(t.db.files, cfgs, Order(t.db.lm.levels, 0), []) == None
            && Get(t.db, []) == Some([9])
            && !FilesSorted(t.db)
  {
    hide Run, Lookup, Less;
    SecondFlush();
    var levels := MERGED.lm.levels;
    IdsOfOne(levels, 0);
    IdsOfOne(levels, 1);
    assert Order(levels, 2) == [];
    assert Order(levels, 1) == Order(levels, 2) + Ids(levels, 1);
    assert Order(levels, 0) == Order(levels, 1) + Ids(levels, 0);
    assert Order(levels, 0) == [FileId(1, 1)];
    EmptyKeyFound([SECOND, THIRD, FIRST], cfgs[FileId(1, 1)]);
    var es := MERGED.files[FileId(1, 1)].entries;
    assert es[1..] == [THIRD, FIRST] && es[1..][1..] == [FIRST] && [FIRST][1..] == [];
    assert OfKey(es, []) == OfKey([FIRST], []);
    OutOfOrderPair();
  }

  lemma OutOfOrderPair()
    ensures !Sorted([SECOND, THIRD, FIRST])
  {
    var es := [SECOND, THIRD, FIRST];
    assert es[0] == SECOND && es[2] == FIRST && Less(FIRST.key, SECOND.key);
  }

  /** The condition under which the search of one file finds the empty key. */
  ghost predicate EmptyKeyIn(files: Files, cfgs: Configs, id: FileId) {
    var es := EntriesAt(files, id);
    && id in cfgs && cfgs[id].Allowed()
    && (exists i :: 0 <= i < |es| && es[i].key == []) && (|es| <= cfgs[id].maxNodeChildren || es[0].key == [])
  }

  /** Over any files, sorted or not: a lookup finds the empty key exactly when it leads, or a single leaf holds it, in
      some file. */
  lemma {:induction false} EmptyKeyFoundIff(files: Files, cfgs: Configs, ids: seq<FileId>)
    ensures StoredGet(files, cfgs, ids, []).Some? <==> exists i :: 0 <= i < |ids| && EmptyKeyIn(files, cfgs, ids[i])
  {
    hide Lookup, EmptyKeyIn;
    if ids != [] {
      EmptyKeyFoundIff(files, cfgs, ids[1..]);
      EmptyKeyInFile(files, cfgs, ids[0]);
      assert forall i :: 0 <= i < |ids[1..]| ==> ids[1..][i] == ids[i + 1];
      if i :| 0 <= i < |ids| && EmptyKeyIn(files, cfgs, ids[i]) {
        assert i > 0 ==> EmptyKeyIn(files, cfgs, ids[1..][i - 1]);
      }
    }
  }

  lemma EmptyKeyInFile(files: Files, cfgs: Configs, id: FileId)
    ensures LookupIn(files, cfgs, id, []).Some? <==> EmptyKeyIn(files, cfgs, id)
  {
    hide Lookup;
    if id in cfgs && cfgs[id].Allowed() {
      EmptyKeyFound(EntriesAt(files, id), cfgs[id]);
    }
  }
}
