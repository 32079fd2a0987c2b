// A process that ends in the middle of a merge or of writing a file: what opening the directory finds.
module KvCrashes {
  import opened Bytes
  import opened Entries
  import opened Structures
  import opened Packing
  import opened Reading
  import opened Merging
  import opened FileNames
  import opened Levels
  import opened LevelManagement
  import opened Database
  import opened DbRuns
  import opened ReaderMaps
  import opened KvLinks
  import opened KvSteps
  import opened KvOpening

  // ---- The directory with some of its files removed.

  ghost predicate Apart<T(!new)>(xs: seq<T>) {
    forall i, j :: 0 <= i < j < |xs| ==> xs[i] != xs[j]
  }

  function Without<T>(xs: seq<T>, p: nat): seq<T>
    requires p < |xs|
  {
    xs[..p] + xs[p + 1..]
  }

  lemma WithoutAt<T>(xs: seq<T>, p: nat, i: nat)
    requires p < |xs| && i < |xs| - 1
    ensures |Without(xs, p)| == |xs| - 1 && Without(xs, p)[i] == xs[if i < p then i else i + 1]
  {
  }

  lemma WithoutMembers<T(!new)>(xs: seq<T>, p: nat)
    requires p < |xs| && Apart(xs)
    ensures Apart(Without(xs, p)) && forall x :: x in Without(xs, p) <==> x in xs && x != xs[p]
  {
    var rest := Without(xs, p);
    forall i | 0 <= i < |rest| ensures rest[i] in xs && rest[i] != xs[p] {
      WithoutAt(xs, p, i);
    }
    forall i, j | 0 <= i < j < |rest| ensures rest[i] != rest[j] {
      WithoutAt(xs, p, i);
      WithoutAt(xs, p, j);
    }
    forall x | x in xs && x != xs[p] ensures x in rest {
      var i :| 0 <= i < |xs| && xs[i] == x;
      WithoutAt(xs, p, if i < p then i else i - 1);
    }
  }

  /** One file, with its reader and directory entry, taken out. */
  lemma OneRemoved(m: ReaderMap, disk: map<string, Bytes>, files: Files, cfgs: Configs, ids: seq<FileId>, p: nat)
    requires MapMatches(m, files, cfgs, ids) && DiskMatches(disk, m) && ReaderMaps.SortedMap(m) && Apart(ids)
             && p < |ids|
    ensures |m| == |ids|
    ensures MapMatches(Without(m, p), files - {ids[p]}, cfgs, Without(ids, p)) && ReaderMaps.SortedMap(Without(m, p))
    ensures DiskMatches(disk - {NameOf(ids[p])}, Without(m, p))
    ensures multiset(Joined(files, ids)) ==
            multiset(EntriesAt(files, ids[p])) + multiset(Joined(files - {ids[p]}, Without(ids, p)))
  {
    hide NameOf, Named, Reader.Holds, Without, Joined, NameLess, EntriesAt;
    RemovedReaders(m, files, cfgs, ids, p);
    RemovedSorted(m, p);
    assert ReaderMatches(m[p], files, cfgs, ids[p]);
    RemovedDisk(disk, m, p);
    RemovedEntries(files, ids, p);
  }

  lemma RemovedReaders(m: ReaderMap, files: Files, cfgs: Configs, ids: seq<FileId>, p: nat)
    requires MapMatches(m, files, cfgs, ids) && Apart(ids) && p < |ids|
    ensures MapMatches(Without(m, p), files - {ids[p]}, cfgs, Without(ids, p))
  {
    hide NameOf, Named, Reader.Holds;
    forall i | 0 <= i < |m| - 1 ensures ReaderMatches(Without(m, p)[i], files - {ids[p]}, cfgs, Without(ids, p)[i]) {
      var k := if i < p then i else i + 1;
      assert ReaderMatches(m[k], files, cfgs, ids[k]);
      assert ids[k] != ids[p];
    }
  }

  lemma RemovedSorted(m: ReaderMap, p: nat)
    requires ReaderMaps.SortedMap(m) && p < |m|
    ensures ReaderMaps.SortedMap(Without(m, p))
  {
    hide NameLess;
  }

  lemma RemovedDisk(disk: map<string, Bytes>, m: ReaderMap, p: nat)
    requires DiskMatches(disk, m) && ReaderMaps.SortedMap(m) && p < |m|
    ensures DiskMatches(disk - {m[p].0}, Without(m, p))
  {
    hide NameLess;
    var rest := Without(m, p);
    NameLessTotal(m[p].0, m[p].0);
    forall i | 0 <= i < |rest| ensures rest[i].0 in disk - {m[p].0}
        && (disk - {m[p].0})[rest[i].0] == rest[i].1.storage {
      var k := if i < p then i else i + 1;
      assert rest[i] == m[k];
    }
    forall name | name in disk - {m[p].0} ensures exists i :: 0 <= i < |rest| && rest[i].0 == name {
      var k :| 0 <= k < |m| && m[k].0 == name;
      assert rest[if k < p then k else k - 1] == m[k];
    }
  }

  lemma RemovedEntries(files: Files, ids: seq<FileId>, p: nat)
    requires Apart(ids) && p < |ids|
    ensures multiset(Joined(files, ids)) ==
            multiset(EntriesAt(files, ids[p])) + multiset(Joined(files - {ids[p]}, Without(ids, p)))
  {
    hide Joined;
    JoinedWithout(files, ids, p);
    WithoutMembers(ids, p);
    JoinedSame(files, files - {ids[p]}, Without(ids, p));
  }

  function IdSet(ids: seq<FileId>): set<FileId> {
    set id | id in ids
  }

  /** The first `j` of some files, taken out one after the other. */
  lemma {:induction false} SomeRemoved(m: ReaderMap, disk: map<string, Bytes>, files: Files, cfgs: Configs,
          ids: seq<FileId>, gone: seq<FileId>)
    returns (left: ReaderMap, rest: seq<FileId>)
    requires MapMatches(m, files, cfgs, ids) && DiskMatches(disk, m) && ReaderMaps.SortedMap(m) && Apart(ids)
    requires Apart(gone) && forall id :: id in gone ==> id in ids
    ensures MapMatches(left, files - IdSet(gone), cfgs, rest) && ReaderMaps.SortedMap(left) && Apart(rest)
    ensures DiskMatches(disk - NameSet(NamesOf(gone)), left)
    ensures forall id :: id in rest <==> id in ids && id !in gone
    ensures multiset(Joined(files, ids)) == multiset(Joined(files, gone)) + multiset(Joined(files - IdSet(gone), rest))
  {
    hide MapMatches, DiskMatches, ReaderMaps.SortedMap, NameOf, Joined, Without;
    if gone == [] {
      NothingGone(files, disk);
      left, rest := m, ids;
    } else {
      var front, last := gone[..|gone| - 1], gone[|gone| - 1];
      assert gone == front + [last];
      left, rest := SomeRemoved(m, disk, files, cfgs, ids, front);
      assert last !in front;
      assert last in rest;
      var p :| 0 <= p < |rest| && rest[p] == last;
      OneRemoved(left, disk - NameSet(NamesOf(front)), files - IdSet(front), cfgs, rest, p);
      WithoutMembers(rest, p);
      GoneStep(files, disk, front, last);
      left, rest := Without(left, p), Without(rest, p);
    }
  }

  lemma NothingGone(files: Files, disk: map<string, Bytes>)
    ensures files - IdSet([]) == files && disk - NameSet(NamesOf([])) == disk && Joined(files, []) == []
  {
    assert IdSet([]) == {} && NameSet(NamesOf([])) == {};
  }

  lemma GoneStep(files: Files, disk: map<string, Bytes>, front: seq<FileId>, last: FileId)
    requires last !in front
    ensures files - IdSet(front) - {last} == files - IdSet(front + [last])
    ensures disk - NameSet(NamesOf(front)) - {NameOf(last)} == disk - NameSet(NamesOf(front + [last]))
    ensures EntriesAt(files - IdSet(front), last) == EntriesAt(files, last)
    ensures Joined(files, front + [last]) == Joined(files, front) + EntriesAt(files, last)
  {
    hide NameOf, Joined;
    JoinedConcat(files, front, [last]);
    JoinedOne(files, last);
    assert NamesOf(front + [last]) == NamesOf(front) + [NameOf(last)];
    assert NameSet(NamesOf(front + [last])) == NameSet(NamesOf(front)) + {NameOf(last)};
    assert IdSet(front + [last]) == IdSet(front) + {last};
  }

  // ---- A crash in a merge: the target is finished, the first `j` sources are removed.

  /** The files at that point: the target and the sources that are left are both there. */
  function WithTarget(db: Db, op: MergeOperation): Files {
    db.files[op.dst := FileData(MinStart(db.files, op.sources), MergeWritten(RunsAt(db.files, op.sources)))]
  }

  lemma TargetWritten(db: Db, cfgs: Configs, cfg: WriterConfig, m: ReaderMap, disk: map<string, Bytes>,
                      op: MergeOperation, keep: seq<FileId>, tail: seq<FileId>, r: Reader)
    requires Inv(db) && TakesTail(db, op, keep, tail) && MapMatches(m, db.files, cfgs, keep + tail)
             && DiskMatches(disk, m)
    requires SortsLast(keep + tail, op.dst) && Named(op.dst)
    requires r.Holds(MergeWritten(RunsAt(db.files, op.sources)), cfg, MinStart(db.files, op.sources))
    ensures var more, ids := m + [(NameOf(op.dst), r)], keep + tail + [op.dst];
            && MapMatches(more, WithTarget(db, op), cfgs[op.dst := cfg], ids) && ReaderMaps.SortedMap(more)
                 && Apart(ids)
            && DiskMatches(disk[NameOf(op.dst) := r.storage], more)
            && Joined(WithTarget(db, op), ids) == Contents(db) + MergeWritten(RunsAt(db.files, op.sources))
  {
    hide MapMatches, DiskMatches, NameOf, Named, Put, Reader.Holds, Contiguous, Joined, MergeWritten, MinStart, Apply;
    hide NameLess, ReaderMaps.SortedMap;
    hide Consistent, Order;
    var ids, files := keep + tail, WithTarget(db, op);
    OrderApart(db, ids);
    MatchedIds(m, db.files, cfgs, ids);
    PutLast(m, db.files, cfgs, ids, op.dst, r);
    MatchingMapSorted(m, db.files, cfgs, ids);
    PutMembers(m, NameOf(op.dst), r);
    AppendMatches(m, db.files, files, cfgs, cfgs[op.dst := cfg], ids, op.dst, r);
    NamesDistinct(m, db.files, cfgs, ids, op.dst);
    DiskAppend(disk, m, NameOf(op.dst), r);
    JoinedSame(db.files, files, ids);
    JoinedConcat(files, ids, [op.dst]);
    JoinedOne(files, op.dst);
  }

  lemma OrderApart(db: Db, ids: seq<FileId>)
    requires Inv(db) && Order(db.lm.levels, 0) == ids
    ensures Increasing(ids) && Apart(ids)
  {
    hide Contiguous, Joined, Order;
    forall i, j | 0 <= i < j < |ids| ensures ids[i] != ids[j] {
      assert ids[i].index < ids[j].index;
    }
  }

  lemma SourcesApart(db: Db, op: MergeOperation, keep: seq<FileId>, tail: seq<FileId>)
    requires Inv(db) && TakesTail(db, op, keep, tail)
    ensures Apart(op.sources) && forall id :: id in op.sources ==> id in keep + tail
  {
    hide Contiguous, Joined, Order, Apply, Consistent;
    OrderApart(db, keep + tail);
    forall i, j | 0 <= i < j < |tail| ensures tail[i] != tail[j] {
      assert (keep + tail)[|keep| + i] == tail[i] && (keep + tail)[|keep| + j] == tail[j];
    }
    ApartPermutes(tail, op.sources);
    forall id | id in op.sources ensures id in keep + tail {
      assert id in multiset(op.sources);
      assert id in multiset(tail);
    }
  }

  lemma ApartPermutes(xs: seq<FileId>, ys: seq<FileId>)
    requires Apart(xs) && multiset(xs) == multiset(ys)
    ensures Apart(ys)
  {
    forall i, j | 0 <= i < j < |ys| ensures ys[i] != ys[j] {
      if ys[i] == ys[j] {
        assert ys == ys[..j] + ([ys[j]] + ys[j + 1..]);
        assert ys[i] in ys[..j] by { assert ys[..j][i] == ys[i]; }
        assert multiset(ys)[ys[i]] >= 2;
        DistinctCount(xs, ys[i]);
        assert false;
      }
    }
  }

  /** The entries then: everything flushed, and once more those of the sources that are left. */
  lemma CrashEntries(db: Db, op: MergeOperation, keep: seq<FileId>, tail: seq<FileId>, j: nat, rest: seq<FileId>)
    requires Inv(db) && TakesTail(db, op, keep, tail) && j <= |op.sources|
    requires var gone := op.sources[..j];
             multiset(Contents(db) + MergeWritten(RunsAt(db.files, op.sources)))
             == multiset(Joined(WithTarget(db, op), gone)) + multiset(Joined(WithTarget(db, op) - IdSet(gone), rest))
    ensures var found := multiset(Joined(WithTarget(db, op) - IdSet(op.sources[..j]), rest));
            && found == multiset(Contents(db)) + multiset(Joined(db.files, op.sources[j..]))
            && (found == multiset(Contents(db)) <==> j == |op.sources|)
  {
    hide Contiguous, Joined, Order, Apply, Consistent, MergeWritten, Contents;
    var gone, left := op.sources[..j], op.sources[j..];
    SourcesApart(db, op, keep, tail);
    WrittenPermutation(RunsAt(db.files, op.sources));
    JoinedFlatten(db.files, op.sources);
    assert op.sources == gone + left;
    JoinedConcat(db.files, gone, left);
    forall id | id in gone ensures EntriesAt(WithTarget(db, op), id) == EntriesAt(db.files, id) {
      assert id in op.sources;
    }
    JoinedSame(db.files, WithTarget(db, op), gone);
    var merged := MergeWritten(RunsAt(db.files, op.sources));
    assert multiset(merged) == multiset(Joined(db.files, gone)) + multiset(Joined(db.files, left));
    assert multiset(Contents(db) + merged) == multiset(Contents(db)) + multiset(merged);
    Cancel(multiset(Contents(db)), multiset(Joined(db.files, gone)), multiset(Joined(db.files, left)),
           multiset(Joined(WithTarget(db, op) - IdSet(gone), rest)));
    if left != [] {
      FileNotEmpty(db, left);
      assert multiset(Joined(db.files, left))[Joined(db.files, left)[0]] > 0;
    } else {
      NothingGone(db.files, map[]);
    }
  }

  lemma Cancel(c: multiset<Entry>, g: multiset<Entry>, l: multiset<Entry>, f: multiset<Entry>)
    requires c + (g + l) == g + f
    ensures f == c + l
  {
    forall e: Entry ensures f[e] == (c + l)[e] {
      assert (c + (g + l))[e] == (g + f)[e];
    }
  }

  lemma FileNotEmpty(db: Db, ids: seq<FileId>)
    requires Inv(db) && ids != [] && ids[0] in Order(db.lm.levels, 0)
    ensures Joined(db.files, ids) != []
  {
    hide Contiguous, Joined, Order, Consistent;
    assert ids == [ids[0]] + ids[1..];
    JoinedConcat(db.files, [ids[0]], ids[1..]);
    JoinedOne(db.files, ids[0]);
  }

  /**
   * A merge whose process ends after the target was finished and `done` of the sources were removed: the state it
   * started from, with its readers and directory, the operation with the files it keeps and takes, and the target.
   */
  datatype Crash = Crash(db: Db, cfgs: Configs, readers: ReaderMap, disk: map<string, Bytes>, op: MergeOperation,
                         keep: seq<FileId>, tail: seq<FileId>, cfg: WriterConfig, target: Reader, done: nat)
  {
    ghost predicate Valid() {
      && Inv(db) && TakesTail(db, op, keep, tail) && SortsLast(keep + tail, op.dst) && Named(op.dst)
      && MapMatches(readers, db.files, cfgs, keep + tail) && DiskMatches(disk, readers)
      && target.Holds(MergeWritten(RunsAt(db.files, op.sources)), cfg, MinStart(db.files, op.sources))
      && done <= |op.sources| && |Contents(db)| < U64_LIMIT
    }

    function Gone(): seq<FileId> {
      if done <= |op.sources| then op.sources[..done] else []
    }

    /** What the directory holds then. */
    function Disk(): map<string, Bytes> {
      disk[NameOf(op.dst) := target.storage] - NameSet(NamesOf(Gone()))
    }

    function Found(): Files {
      WithTarget(db, op) - IdSet(Gone())
    }

    function Configured(): Configs {
      cfgs[op.dst := cfg]
    }
  }

  lemma CrashFiles(c: Crash) returns (left: ReaderMap, rest: seq<FileId>)
    requires c.Valid()
    ensures MapMatches(left, c.Found(), c.Configured(), rest) && ReaderMaps.SortedMap(left)
            && DiskMatches(c.Disk(), left)
    ensures forall id :: id in rest <==> id in c.keep + c.tail + [c.op.dst] && id !in c.Gone()
    ensures var found := multiset(Joined(c.Found(), rest));
            && found == multiset(Contents(c.db)) + multiset(Joined(c.db.files, c.op.sources[c.done..]))
            && (found == multiset(Contents(c.db)) <==> c.done == |c.op.sources|)
  {
    hide MapMatches, DiskMatches, NameOf, Named, Reader.Holds, Contents, Joined, MergeWritten, MinStart;
    hide ReaderMaps.SortedMap, Inv, TakesTail, SortsLast;
    hide WithTarget;
    var more, ids := c.readers + [(NameOf(c.op.dst), c.target)], c.keep + c.tail + [c.op.dst];
    TargetWritten(c.db, c.cfgs, c.cfg, c.readers, c.disk, c.op, c.keep, c.tail, c.target);
    SourcesApart(c.db, c.op, c.keep, c.tail);
    left, rest := SomeRemoved(more, c.disk[NameOf(c.op.dst) := c.target.storage], WithTarget(c.db, c.op),
        c.Configured(), ids, c.Gone());
    CrashEntries(c.db, c.op, c.keep, c.tail, c.done, rest);
  }

  /** The newest file ends where everything flushed ends, be it the target or the last source. */
  lemma NewestEnds(c: Crash, newest: FileId)
    requires c.Valid() && newest in c.Found() && newest.index >= c.op.dst.index
    requires newest in c.keep + c.tail + [c.op.dst]
    ensures newest.index == c.op.dst.index
    ensures StartAt(c.Found(), newest) + |EntriesAt(c.Found(), newest)| == c.db.lm.globalStart
  {
    hide MapMatches, DiskMatches, NameOf, Named, Reader.Holds, MergeWritten, MinStart, Consistent, Order, Apply;
    hide Contiguous, Joined;
    var db, op, order := c.db, c.op, c.keep + c.tail;
    if newest == op.dst {
      JoinedConcat(db.files, c.keep, c.tail);
      assert Contents(db) == Joined(db.files, c.keep) + Joined(db.files, c.tail);
      TailStarts(db.files, c.keep, c.tail, op.sources);
      WrittenPermutation(RunsAt(db.files, op.sources));
      JoinedFlatten(db.files, op.sources);
      JoinedPermutation(db.files, op.sources, c.tail);
      SameSizeSame(MergeWritten(RunsAt(db.files, op.sources)), Joined(db.files, c.tail));
    } else {
      var i :| 0 <= i < |order| && order[i] == newest;
      OrderApart(db, order);
      assert order[i].index <= order[|order| - 1].index <= op.dst.index;
      assert i == |order| - 1;
      LastEnds(db);
    }
  }

  /**
   * However far the removal of the sources has come: the directory, listed in any order, loads; the readers are those
   * of exactly the files that are there; they hold everything flushed, plus a second time the entries of the sources
   * that are left, so nothing is lost, and nothing is there twice exactly when all sources are gone; and the counters
   * are those the merge would have left, so that the next flush goes on behind everything flushed.
   */
  lemma CrashedMergeLoads(c: Crash, names: seq<string>) returns (left: ReaderMap, rest: seq<FileId>)
    requires c.Valid() && IsDirectoryOf(names, c.Disk())
    ensures var dir := Directory(names, c.Disk());
            && Loadable(dir)
            && (forall loaded: ReaderMap :: ReadersOf(loaded, dir.files, NamesOf(IdsOf(names))) ==> loaded == left)
            && LoadedState(dir).globalStart == c.db.lm.globalStart && LoadedState(dir).nextIndex == c.op.dst.index + 1
    ensures MapMatches(left, c.Found(), c.Configured(), rest)
    ensures forall id :: id in rest <==> id in c.keep + c.tail + [c.op.dst] && id !in c.Gone()
    ensures var found := multiset(Joined(c.Found(), rest));
            && found == multiset(Contents(c.db)) + multiset(Joined(c.db.files, c.op.sources[c.done..]))
            && (found == multiset(Contents(c.db)) <==> c.done == |c.op.sources|)
  {
    hide MapMatches, DiskMatches, NameOf, Crash.Valid, Crash.Disk, Crash.Found, Crash.Configured, Crash.Gone, Contents;
    hide Joined, ReaderMaps.SortedMap;
    hide IsDirectoryOf, NewestName, NewestFile, FooterIn, AllParse, Readable, LoadedNext, LoadedLevels, SortLevels;
    hide ParsedId, ReadersOf;
    var dir, ids := Directory(names, c.Disk()), IdsOf(names);
    left, rest := CrashFiles(c);
    MatchedLoads(dir, left, c.Found(), c.Configured(), rest);
    MatchedParses(names, dir.files, left, c.Found(), c.Configured(), rest);
    forall loaded: ReaderMap | ReadersOf(loaded, dir.files, NamesOf(IdsOf(names))) ensures loaded == left {
      MatchedReaders(dir, left, c.Found(), c.Configured(), rest, loaded);
    }
    TargetThere(c);
    assert c.op.dst in ids;
    MatchedNewest(names, dir.files, left, c.Found(), c.Configured(), rest);
    LoadedNextBounds(ids);
    MatchedIds(left, c.Found(), c.Configured(), rest);
    NewestEnds(c, NewestFile(ids));
  }

  lemma TargetThere(c: Crash)
    requires c.Valid()
    ensures c.op.dst in c.keep + c.tail + [c.op.dst] && c.op.dst !in c.Gone()
  {
    hide Inv, TakesTail, MapMatches, DiskMatches, Contents, MergeWritten, MinStart, Reader.Holds, SortsLast, Named;
    TailFacts(c.db, c.op, c.keep, c.tail);
    assert (c.keep + c.tail + [c.op.dst])[|c.keep + c.tail|] == c.op.dst;
  }

  // ---- A crash while a file is being written.

  /** Without the magic number in its last four bytes a file is not opened. */
  lemma UnfinishedRefused(dir: Directory, name: string)
    requires name in dir.names && name in dir.files && NameOf(ParsedId(name)) == name
    requires var image := dir.files[name]; |image| < FOOTER_SIZE || Decode(image[|image| - 4..]) != MAGIC
    ensures !Loadable(dir)
  {
    hide AllParse, NameOf, ParseFileName, NewestName, FooterReadable;
    var image := dir.files[name];
    var i :| 0 <= i < |dir.names| && dir.names[i] == name;
    assert IdsOf(dir.names)[i] == ParsedId(name);
    if |image| >= FOOTER_SIZE {
      assert Slice(image, |image| - FOOTER_SIZE + 38, 4) == image[|image| - 4..];
    }
    assert !Readable(dir.files, name);
  }
}
