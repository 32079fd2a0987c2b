// A run in which a lookup does not return the value that was added first.
// Four values are added under one key and each is flushed; the fourth flush cascades over two levels, newest files
// first.
module DbNewerFirst {
  import opened Bytes
  import opened Entries
  import opened Merging
  import opened Buffering
  import opened Levels
  import opened Database
  import opened DbRuns

  const CONFIG := Database.Config(1000, 2)

  const KEY: Bytes := [1]

  function Value(v: byte): Entry {
    Entry(KEY, [v])
  }

  function AddFlush(v: byte): seq<Operation> {
    [AddOp(KEY, [v]), FlushOp]
  }

  ghost predicate OneKey(es: seq<Entry>) {
    forall i :: 0 <= i < |es| ==> es[i].key == KEY
  }

  lemma {:induction false} OneKeyAll(es: seq<Entry>)
    requires OneKey(es)
    ensures OfKey(es, KEY) == es
  {
    if es != [] {
      OneKeyAll(es[1..]);
      assert es == [es[0]] + es[1..];
    }
  }

  /** Merging files that hold a single key puts them one after the other. */
  lemma MergeOneKey(runs: Runs)
    requires forall i :: 0 <= i < |runs| ==> OneKey(runs[i])
    ensures MergeWritten(runs) == Flatten(runs)
  {
    hide MergeWritten, Flatten;
    LessIrreflexive(KEY);
    forall i | 0 <= i < |runs| ensures Sorted(runs[i]) && NonEmptyKeys(runs[i]) {
    }
    WrittenStable(runs);
    WrittenPermutation(runs);
    FlattenOneKey(runs);
    SameKeys(MergeWritten(runs), Flatten(runs));
    OneKeyAll(MergeWritten(runs));
    OneKeyAll(Flatten(runs));
  }

  lemma {:induction false} FlattenOneKey(runs: Runs)
    requires forall i :: 0 <= i < |runs| ==> OneKey(runs[i])
    ensures OneKey(Flatten(runs))
  {
    if runs != [] {
      FlattenOneKey(runs[1..]);
    }
  }

  lemma SameKeys(a: seq<Entry>, b: seq<Entry>)
    requires multiset(a) == multiset(b) && OneKey(b)
    ensures OneKey(a)
  {
    forall i | 0 <= i < |a| ensures a[i].key == KEY {
      assert a[i] in multiset(b);
    }
  }

  /** Adding one entry and flushing it, from an empty buffer. */
  lemma Round(ops: seq<Operation>, v: byte)
    ensures var db := Run(CONFIG, ops).db;
            db.buffer == [] && db.lm.levels != [] && ConfigAfter(CONFIG, ops) == CONFIG ==>
              && Run(CONFIG, ops + AddFlush(v)).db == Cascaded(Flushed(db, Value(v)))
              && ConfigAfter(CONFIG, ops + AddFlush(v)) == CONFIG
  {
    hide Cascade, PerformMerge, Advance;
    var more, e := ops + AddFlush(v), Value(v);
    var db := Run(CONFIG, ops).db;
    assert more[..|more| - 1] == ops + [AddOp(KEY, [v])];
    assert (ops + [AddOp(KEY, [v])])[..|ops|] == ops;
    if db.buffer == [] && db.lm.levels != [] && ConfigAfter(CONFIG, ops) == CONFIG {
      assert InsertLast([], e) == [e];
      assert DataSize([e]) == 2 + DataSize([]);
      assert Run(CONFIG, ops + [AddOp(KEY, [v])]).db == db.(buffer := [e]);
    }
  }

  function Flushed(db: Db, e: Entry): Db
    requires db.lm.levels != []
  {
    Db([], Advance(db.lm, 1), db.files[FileId(0, db.lm.nextIndex) := FileData(db.lm.globalStart, [e])])
  }

  function Cascaded(db: Db): Db {
    match Cascade(db.lm.levels, 2)
    case None => db
    case Some(op) => PerformMerge(db, op)
  }

  // The states after one to four rounds.
  function After1(a: Entry): Db {
    Db([], State([[0]], 1, 1), map[FileId(0, 0) := FileData(0, [a])])
  }

  function After2(a: Entry, b: Entry): Db {
    Db([], State([[], [1]], 2, 2), map[FileId(1, 1) := FileData(0, [a, b])])
  }

  function After3(a: Entry, b: Entry, c: Entry): Db {
    Db([], State([[2], [1]], 3, 3), map[FileId(1, 1) := FileData(0, [a, b]), FileId(0, 2) := FileData(2, [c])])
  }

  function After4(a: Entry, b: Entry, c: Entry, d: Entry): Db {
    Db([], State([[], [], [3]], 4, 4), map[FileId(2, 3) := FileData(0, [c, d, a, b])])
  }

  lemma IdsOfOne(levels: seq<seq<nat>>, l: nat)
    requires l < |levels|
    ensures levels[l] == [] ==> Ids(levels, l) == []
    ensures |levels[l]| == 1 ==> Ids(levels, l) == [FileId(l, levels[l][0])]
    ensures |levels[l]| == 2 ==> Ids(levels, l) == [FileId(l, levels[l][0]), FileId(l, levels[l][1])]
  {
  }

  lemma FlushedTo(db: Db, e: Entry, level0: seq<nat>)
    requires db.lm.levels != [] && level0 == db.lm.levels[0] + [db.lm.nextIndex]
    ensures Flushed(db, e).lm == State(db.lm.levels[0 := level0], db.lm.nextIndex + 1, db.lm.globalStart + 1)
  {
  }

  lemma RemoveOne(levels: seq<seq<nat>>, sources: seq<FileId>, rest: seq<seq<nat>>)
    requires sources != [] && sources[0].level < |levels|
    requires rest == levels[sources[0].level := Removed(levels[sources[0].level], sources[0].index)]
    ensures RemovedAll(levels, sources) == RemovedAll(rest, sources[1..])
  {
  }

  lemma RemovedHead(x: nat, xs: seq<nat>)
    requires x !in xs
    ensures Removed([x] + xs, x) == xs
  {
    assert ([x] + xs)[1..] == xs;
    RemovedNone(xs, x);
  }

  lemma {:induction false} RemovedNone(xs: seq<nat>, x: nat)
    requires x !in xs
    ensures Removed(xs, x) == xs
  {
    if xs != [] {
      RemovedNone(xs[1..], x);
    }
  }

  lemma Round1(a: Entry)
    ensures Cascaded(Flushed(EMPTY, a)) == After1(a)
  {
    FlushedTo(EMPTY, a, [0]);
    assert [[]][0 := [0]] == [[0]];
  }

  lemma Flatten2(x: seq<Entry>, y: seq<Entry>)
    ensures Flatten([x, y]) == x + y
  {
    assert [x, y][1..] == [y] && [y][1..] == [];
    assert Flatten([y]) == y + Flatten<Entry>([]);
  }

  lemma Flatten3(x: seq<Entry>, y: seq<Entry>, z: seq<Entry>)
    ensures Flatten([x, y, z]) == x + (y + z)
  {
    assert [x, y, z][1..] == [y, z];
    Flatten2(y, z);
  }

  lemma MinStartLast(files: Files, ids: seq<FileId>, id: FileId)
    ensures MinStart(files, ids + [id]) == if StartAt(files, id) < MinStart(files, ids) then StartAt(files, id)
            else MinStart(files, ids)
  {
    assert (ids + [id])[..|ids|] == ids;
  }

  lemma MinStartNone(files: Files)
    ensures MinStart(files, []) == U64_LIMIT - 1
  {
  }

  lemma Cascade2(levels: seq<seq<nat>>)
    requires levels == [[0, 1]]
    ensures Cascade(levels, 2) == Some(MergeOperation([FileId(0, 0), FileId(0, 1)], FileId(1, 1)))
  {
    assert CascadeDepth(levels, 2, 1) == 1;
    assert Listed(levels, 1) == Listed(levels, 0) + Ids(levels, 0);
    IdsOfOne(levels, 0);
    assert [] + Ids(levels, 0) == Ids(levels, 0);
  }

  lemma Round2(a: Entry, b: Entry)
    requires a.key == b.key == KEY
    ensures Cascaded(Flushed(After1(a), b)) == After2(a, b)
  {
    hide Removed, RemovedAll, Grown, MergeWritten, Cascade, MinStart, Flatten;
    var db, f, g := Flushed(After1(a), b), FileId(0, 0), FileId(0, 1);
    FlushedTo(After1(a), b, [0, 1]);
    assert db.lm.levels == [[0, 1]];
    Cascade2(db.lm.levels);
    var op := MergeOperation([f, g], FileId(1, 1));
    RemovedTwo(db.lm.levels);
    var kept: seq<seq<nat>> := [[], []];
    assert kept[1] + [1] == [1] && kept[1 := [1]] == [[], [1]];
    MergedState(db, op, kept, [[], [1]]);
    RunsAreTwo(db, f, g);
    MergeOneKey([[a], [b]]);
    Flatten2([a], [b]);
    MinStartLast(db.files, [], f);
    MinStartLast(db.files, [f], g);
    assert [] + [f] == [f] && [f] + [g] == [f, g] && [a] + [b] == [a, b];
    MinStartNone(db.files);
  }

  lemma RemovedTwo(levels: seq<seq<nat>>)
    requires levels == [[0, 1]]
    ensures RemovedAll(Grown(levels, 1), [FileId(0, 0), FileId(0, 1)]) == [[], []]
  {
    var g: seq<seq<nat>> := [[0, 1], []];
    assert Grown(levels, 1) == g;
    RemovedHead(0, [1]);
    RemovedHead(1, []);
    assert [0] + [1] == [0, 1] && [1] + [] == [1];
    RemoveOne(g, [FileId(0, 0), FileId(0, 1)], [[1], []]);
    RemoveOne([[1], []], [FileId(0, 1)], [[], []]);
  }

  lemma MergedState(db: Db, op: MergeOperation, kept: seq<seq<nat>>, after: seq<seq<nat>>)
    requires RemovedAll(Grown(db.lm.levels, op.dst.level), op.sources) == kept
    requires after == kept[op.dst.level := kept[op.dst.level] + [op.dst.index]]
    ensures Apply(db.lm, op) == State(after, op.dst.index + 1, db.lm.globalStart)
  {
  }

  lemma RunsAreTwo(db: Db, f: FileId, g: FileId)
    ensures RunsAt(db.files, [f, g]) == [EntriesAt(db.files, f), EntriesAt(db.files, g)]
  {
  }

  lemma Round3(a: Entry, b: Entry, c: Entry)
    ensures Cascaded(Flushed(After2(a, b), c)) == After3(a, b, c)
  {
    FlushedTo(After2(a, b), c, [2]);
    assert [] + [2] == [2];
    assert After2(a, b).lm.levels[0 := [2]] == [[2], [1]];
  }

  lemma Cascade4(levels: seq<seq<nat>>)
    requires levels == [[2, 3], [1]]
    ensures Cascade(levels, 2) == Some(MergeOperation([FileId(0, 2), FileId(0, 3), FileId(1, 1)], FileId(2, 3)))
  {
    assert CascadeDepth(levels, 2, 2) == 2;
    assert CascadeDepth(levels, 2, 1) == 2;
    assert Listed(levels, 1) == Listed(levels, 0) + Ids(levels, 0);
    assert Listed(levels, 2) == Listed(levels, 1) + Ids(levels, 1);
    IdsOfOne(levels, 0);
    IdsOfOne(levels, 1);
    assert [] + Ids(levels, 0) == Ids(levels, 0);
    assert [FileId(0, 2), FileId(0, 3)] + [FileId(1, 1)] == [FileId(0, 2), FileId(0, 3), FileId(1, 1)];
  }

  lemma RemovedThree(levels: seq<seq<nat>>)
    requires levels == [[2, 3], [1]]
    ensures RemovedAll(Grown(levels, 2), [FileId(0, 2), FileId(0, 3), FileId(1, 1)]) == [[], [], []]
  {
    hide Removed, RemovedAll, Grown;
    var g: seq<seq<nat>> := [[2, 3], [1], []];
    GrownOnce(levels, g);
    RemovedHead(2, [3]);
    RemovedHead(3, []);
    RemovedHead(1, []);
    assert [2] + [3] == [2, 3] && [3] + [] == [3] && [1] + [] == [1];
    var g1: seq<seq<nat>> := [[3], [1], []];
    var g2: seq<seq<nat>> := [[], [1], []];
    var g3: seq<seq<nat>> := [[], [], []];
    assert g1 == g[0 := [3]] && g2 == g1[0 := []] && g3 == g2[1 := []];
    var f1, f2, f3 := FileId(0, 2), FileId(0, 3), FileId(1, 1);
    assert [f1, f2, f3][1..] == [f2, f3] && [f2, f3][1..] == [f3] && [f3][1..] == [];
    RemoveOne(g, [f1, f2, f3], g1);
    RemoveOne(g1, [f2, f3], g2);
    RemoveOne(g2, [f3], g3);
    RemovedNothing(g3);
  }

  lemma GrownOnce(levels: seq<seq<nat>>, g: seq<seq<nat>>)
    requires g == levels + [[]]
    ensures Grown(levels, |levels|) == g
  {
  }

  lemma RemovedNothing(levels: seq<seq<nat>>)
    ensures RemovedAll(levels, []) == levels
  {
  }

  lemma RunsAreThree(db: Db, f: FileId, g: FileId, h: FileId)
    ensures RunsAt(db.files, [f, g, h]) == [EntriesAt(db.files, f), EntriesAt(db.files, g), EntriesAt(db.files, h)]
  {
  }

  /** The fourth flush cascades over two levels and lists level 0 first. */
  lemma Round4(a: Entry, b: Entry, c: Entry, d: Entry)
    requires a.key == b.key == c.key == d.key == KEY
    ensures Cascaded(Flushed(After3(a, b, c), d)) == After4(a, b, c, d)
  {
    hide Removed, RemovedAll, Grown, MergeWritten, Cascade, MinStart, Flatten;
    var db, f, g, h := Flushed(After3(a, b, c), d), FileId(0, 2), FileId(0, 3), FileId(1, 1);
    FlushedTo(After3(a, b, c), d, [2, 3]);
    assert After3(a, b, c).lm.levels[0 := [2, 3]] == [[2, 3], [1]];
    Cascade4(db.lm.levels);
    var op := MergeOperation([f, g, h], FileId(2, 3));
    RemovedThree(db.lm.levels);
    var kept: seq<seq<nat>> := [[], [], []];
    assert kept[2] + [3] == [3] && kept[2 := [3]] == [[], [], [3]];
    MergedState(db, op, kept, [[], [], [3]]);
    RunsAreThree(db, f, g, h);
    MergeOneKey([[c], [d], [a, b]]);
    Flatten3([c], [d], [a, b]);
    assert [c] + ([d] + [a, b]) == [c, d, a, b];
    MinStartNone(db.files);
    MinStartLast(db.files, [], f);
    MinStartLast(db.files, [f], g);
    MinStartLast(db.files, [f, g], h);
    assert [] + [f] == [f] && [f] + [g] == [f, g] && [f, g] + [h] == [f, g, h];
  }

  const RUN := AddFlush(10) + AddFlush(20) + AddFlush(30) + AddFlush(40)

  /** Four values added under one key, each flushed: the lookup returns the third, not the first. */
  lemma NewerValueFirst()
    ensures Adds(RUN) == [Value(10), Value(20), Value(30), Value(40)]
    ensures Get(Run(CONFIG, RUN).db, KEY) == Some([30])
  {
    hide Cascaded, Flushed, Get, Run, Adds, AddFlush, ConfigAfter;
    RunStart();
    var ops1, a, b, c, d := AddFlush(10), Value(10), Value(20), Value(30), Value(40);
    var ops2 := ops1 + AddFlush(20);
    var ops3 := ops2 + AddFlush(30);
    Round([], 10);
    assert [] + AddFlush(10) == ops1;
    Round1(a);
    Round(ops1, 20);
    Round2(a, b);
    Round(ops2, 30);
    Round3(a, b, c);
    Round(ops3, 40);
    Round4(a, b, c, d);
    FourthLookup(a, b, c, d);
    RoundAdds([], 10);
    RoundAdds(ops1, 20);
    RoundAdds(ops2, 30);
    RoundAdds(ops3, 40);
  }

  lemma RunStart()
    ensures Run(CONFIG, []).db == EMPTY && Adds([]) == [] && ConfigAfter(CONFIG, []) == CONFIG
  {
  }

  lemma RoundAdds(ops: seq<Operation>, v: byte)
    ensures Adds(ops + AddFlush(v)) == Adds(ops) + [Value(v)]
  {
    var more := ops + AddFlush(v);
    assert more[..|more| - 1] == ops + [AddOp(KEY, [v])];
    assert (ops + [AddOp(KEY, [v])])[..|ops|] == ops;
  }

  lemma FourthLookup(a: Entry, b: Entry, c: Entry, d: Entry)
    requires a.key == b.key == c.key == d.key == KEY
    ensures Get(After4(a, b, c, d), KEY) == Some(c.value)
  {
    var db := After4(a, b, c, d);
    var levels := db.lm.levels;
    IdsOfOne(levels, 0);
    IdsOfOne(levels, 1);
    IdsOfOne(levels, 2);
    assert Order(levels, 3) == [];
    assert Order(levels, 2) == Order(levels, 3) + Ids(levels, 2);
    assert Order(levels, 1) == Order(levels, 2) + Ids(levels, 1);
    assert Order(levels, 0) == Order(levels, 1) + Ids(levels, 0);
    assert Order(levels, 0) == [FileId(2, 3)];
    OneKeyAll([c, d, a, b]);
  }
}
