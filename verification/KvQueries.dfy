// What the queries of the database rely on: one file at a time, then all of them.
// Joining, merging, skipping and selecting over a list of files is related here to the same thing done on all their
// entries.
module KvQueries {
  import opened Bytes
  import opened Entries
  import opened Packing
  import opened PbtIteration
  import opened TreeSearch
  import opened Reading
  import opened Traversal
  import opened Merging
  import opened DbIteration
  import opened Levels
  import opened LevelManagement
  import opened Database
  import opened ReaderMaps

  lemma FilesAllSorted(db: Db, ids: seq<FileId>)
    requires FilesSorted(db)
    ensures AllSorted(RunsAt(db.files, ids))
  {
    assert Sorted([]);
  }

  lemma FileOf(m: ReaderMap, files: Files, cfgs: Configs, ids: seq<FileId>, i: nat)
    requires MapMatches(m, files, cfgs, ids) && i < |m|
    ensures |m| == |ids| && ids[i] in files && ids[i] in cfgs
    ensures EntriesAt(files, ids[i]) == files[ids[i]].entries && StartAt(files, ids[i]) == files[ids[i]].start
    ensures m[i].1.Holds(files[ids[i]].entries, cfgs[ids[i]], files[ids[i]].start)
  {
    hide Reader.Holds, NameOf, Named;
    assert ReaderMatches(m[i], files, cfgs, ids[i]);
  }

  lemma JoinedAt(files: Files, ids: seq<FileId>, i: nat)
    requires i < |ids|
    ensures Joined(files, ids[..i + 1]) == Joined(files, ids[..i]) + EntriesAt(files, ids[i])
    ensures Joined(files, ids[..i + 1]) <= Joined(files, ids)
  {
    hide Joined;
    assert ids[..i + 1] == ids[..i] + [ids[i]] && ids == ids[..i + 1] + ids[i + 1..];
    JoinedConcat(files, ids[..i], [ids[i]]);
    JoinedConcat(files, ids[..i + 1], ids[i + 1..]);
    JoinedOne(files, ids[i]);
  }

  /** What the search of one file finds; a file that is not there holds nothing. */
  ghost function LookupIn(files: Files, cfgs: Configs, id: FileId, key: Bytes): Option<Bytes> {
    if id in cfgs && cfgs[id].Allowed() then Lookup(EntriesAt(files, id), cfgs[id], key) else None
  }

  /** The value of the first file, in the order given, whose own search finds the key. */
  ghost function StoredGet(files: Files, cfgs: Configs, ids: seq<FileId>, key: Bytes): Option<Bytes> {
    if ids == [] then None
    else if LookupIn(files, cfgs, ids[0], key).Some? then LookupIn(files, cfgs, ids[0], key)
    else StoredGet(files, cfgs, ids[1..], key)
  }

  lemma StoredGetStep(files: Files, cfgs: Configs, ids: seq<FileId>, i: nat, key: Bytes)
    requires i < |ids|
    ensures var found := LookupIn(files, cfgs, ids[i], key);
            StoredGet(files, cfgs, ids[i..], key) == if found.Some? then found
                else StoredGet(files, cfgs, ids[i + 1..], key)
  {
    hide LookupIn;
    assert ids[i..][0] == ids[i] && ids[i..][1..] == ids[i + 1..];
  }

  lemma StoredGetEnds(files: Files, cfgs: Configs, ids: seq<FileId>, key: Bytes)
    ensures StoredGet(files, cfgs, ids[0..], key) == StoredGet(files, cfgs, ids, key)
    ensures StoredGet(files, cfgs, ids[|ids|..], key) == None
  {
    assert ids[0..] == ids && ids[|ids|..] == [];
  }

  /** Whatever the order inside the files, what is found is an entry of a file. */
  lemma {:induction false} StoredGetSound(files: Files, cfgs: Configs, ids: seq<FileId>, key: Bytes)
    ensures var r := StoredGet(files, cfgs, ids, key); r.Some? ==> Entry(key, r.value) in Joined(files, ids)
  {
    hide Lookup, Joined;
    if ids != [] {
      StoredGetSound(files, cfgs, ids[1..], key);
      assert ids == [ids[0]] + ids[1..];
      JoinedConcat(files, [ids[0]], ids[1..]);
      JoinedOne(files, ids[0]);
      if ids[0] in cfgs && cfgs[ids[0]].Allowed() {
        LookupSound(EntriesAt(files, ids[0]), cfgs[ids[0]], key);
      }
    }
  }

  /** On sorted files the searches find what a scan of everything finds. */
  lemma {:induction false} StoredGetSorted(files: Files, cfgs: Configs, ids: seq<FileId>, key: Bytes)
    requires forall id :: id in ids ==> id in cfgs && cfgs[id].Allowed()
    requires forall id :: id in ids ==> Sorted(EntriesAt(files, id))
    ensures StoredGet(files, cfgs, ids, key) == GetFrom(files, ids, key)
  {
    hide Lookup, Sorted;
    if ids != [] {
      LookupSorted(EntriesAt(files, ids[0]), cfgs[ids[0]], key);
      StoredGetSorted(files, cfgs, ids[1..], key);
    }
  }

  lemma MatchedAllowed(m: ReaderMap, files: Files, cfgs: Configs, ids: seq<FileId>)
    requires MapMatches(m, files, cfgs, ids)
    ensures forall id :: id in ids ==> id in cfgs && cfgs[id].Allowed() && id in files
  {
    hide NameOf, Named, PbtImage, FooterOf, Fits;
    forall id | id in ids ensures id in cfgs && cfgs[id].Allowed() && id in files {
      var i :| 0 <= i < |ids| && ids[i] == id;
      assert ReaderMatches(m[i], files, cfgs, ids[i]);
    }
  }

  lemma FilesSortedAt(db: Db, ids: seq<FileId>)
    requires FilesSorted(db)
    ensures forall id :: id in ids ==> Sorted(EntriesAt(db.files, id))
  {
  }

  /** A lookup over all files: always sound, and the first flushed value in file order when the files are sorted. */
  lemma StoredGetIs(m: ReaderMap, db: Db, cfgs: Configs, key: Bytes)
    requires MapMatches(m, db.files, cfgs, Order(db.lm.levels, 0))
    ensures var r := StoredGet(db.files, cfgs, Order(db.lm.levels, 0), key);
            && (r.Some? ==> Entry(key, r.value) in Contents(db))
            && (FilesSorted(db) ==> r == Database.Get(db, key))
  {
    hide MapMatches, StoredGet, Joined, Order, GetFrom, FilesSorted, Sorted;
    MatchedAllowed(m, db.files, cfgs, Order(db.lm.levels, 0));
    StoredGetSound(db.files, cfgs, Order(db.lm.levels, 0), key);
    if FilesSorted(db) {
      FilesSortedAt(db, Order(db.lm.levels, 0));
      StoredGetSorted(db.files, cfgs, Order(db.lm.levels, 0), key);
    }
  }

  /** What is left of one file from where the search for the key ends. */
  ghost function CutIn(files: Files, cfgs: Configs, id: FileId, key: Bytes): seq<Entry> {
    var es := EntriesAt(files, id);
    if id in cfgs && cfgs[id].Allowed() && SeekPlace(es, cfgs[id], key) <= |es| then es[SeekPlace(es, cfgs[id], key)..]
        else []
  }

  ghost function CutsAt(files: Files, cfgs: Configs, ids: seq<FileId>, key: Bytes): (cut: Runs)
    ensures |cut| == |ids| && forall i :: 0 <= i < |ids| ==> cut[i] == CutIn(files, cfgs, ids[i], key)
  {
    seq(|ids|, i requires 0 <= i < |ids| => CutIn(files, cfgs, ids[i], key))
  }

  lemma StandsCut(it: PbtIterator, files: Files, cfgs: Configs, id: FileId, key: Bytes, at: nat)
    requires id in cfgs && cfgs[id].Allowed()
    requires it.Stands(EntriesAt(files, id), at) && at == SeekPlace(EntriesAt(files, id), cfgs[id], key)
    ensures it.Valid() && it.Rest() == CutIn(files, cfgs, id, key)
  {
    hide PbtIterator.Valid, SeekPlace;
    SeekPlaceFacts(EntriesAt(files, id), cfgs[id], key);
  }

  /** On sorted files every cut is at the lower bound. */
  lemma CutsSorted(m: ReaderMap, db: Db, cfgs: Configs, key: Bytes)
    requires MapMatches(m, db.files, cfgs, Order(db.lm.levels, 0)) && FilesSorted(db)
    ensures CutAt(RunsAt(db.files, Order(db.lm.levels, 0)), key, CutsAt(db.files, cfgs, Order(db.lm.levels, 0), key))
  {
    hide MapMatches, SeekPlace, Order, FilesSorted, Sorted, IsLowerBound;
    var order := Order(db.lm.levels, 0);
    MatchedAllowed(m, db.files, cfgs, order);
    FilesSortedAt(db, order);
    forall i | 0 <= i < |order| ensures CutRun(EntriesAt(db.files, order[i]), key,
        CutIn(db.files, cfgs, order[i], key)) {
      SeekPlaceFacts(EntriesAt(db.files, order[i]), cfgs[order[i]], key);
    }
  }

  lemma JoinedNone(files: Files)
    ensures Joined(files, []) == []
  {
  }

  lemma ContentsAre(db: Db)
    ensures Contents(db) == Joined(db.files, Order(db.lm.levels, 0))
  {
  }

  lemma OpenedNone()
    ensures Opened([], [])
  {
  }

  lemma OpenedMore(itrs: seq<PbtIterator>, it: PbtIterator, runs: Runs)
    requires Opened(itrs, runs) && |itrs| == |runs| && it !in itrs && it.Valid()
    ensures Opened(itrs + [it], runs + [it.Rest()])
  {
    hide PbtIterator.Valid;
    forall i | 0 <= i < |itrs| + 1 ensures (itrs + [it])[i].Valid()
        && (itrs + [it])[i].Rest() == (runs + [it.Rest()])[i] {
    }
  }

  /** The runs without their first `index` entries, counted through the runs in order. */
  function Skipped(runs: Runs, index: nat): Runs {
    if runs == [] then [] else
      var here := if index < |runs[0]| then index else |runs[0]|;
      [runs[0][here..]] + Skipped(runs[1..], index - here)
  }

  lemma SkippedParts(runs: Runs, index: nat, i: nat)
    requires i <= |runs|
    ensures i == 0 ==> Skipped(runs, index) == [] + Skipped(runs[i..], index)
    ensures i == |runs| ==> Skipped(runs[i..], index) == []
  {
    assert runs[0..] == runs;
  }

  lemma SkippedStep(runs: Runs, i: nat, index: nat)
    requires i < |runs|
    ensures var here := if index < |runs[i]| then index else |runs[i]|;
            && Skipped(runs[i..], index) == [runs[i][here..]] + Skipped(runs[i + 1..], index - here)
            && runs[i][here..] == if index < |runs[i]| then runs[i][index..] else []
  {
    assert runs[i..][0] == runs[i] && runs[i..][1..] == runs[i + 1..];
  }

  /** One more file cut: what is still to come moves on by one run. */
  lemma SkippedPush(runs: Runs, index: nat, cut: Runs, i: nat, left: nat)
    requires i < |runs| && Skipped(runs, index) == cut + Skipped(runs[i..], left)
    ensures var here := if left < |runs[i]| then left else |runs[i]|;
            Skipped(runs, index) == cut + [runs[i][here..]] + Skipped(runs[i + 1..], left - here)
  {
    hide Skipped;
    SkippedStep(runs, i, left);
    var here := if left < |runs[i]| then left else |runs[i]|;
    assert cut + ([runs[i][here..]] + Skipped(runs[i + 1..], left - here)) ==
        cut + [runs[i][here..]] + Skipped(runs[i + 1..], left - here);
  }

  lemma FlattenCons<T>(x: seq<T>, rest: seq<seq<T>>)
    ensures Flatten([x] + rest) == x + Flatten(rest)
  {
    assert ([x] + rest)[1..] == rest;
  }

  /** What is left behind the first `index` elements. */
  function CutFrom<T>(s: seq<T>, index: nat): seq<T> {
    if index < |s| then s[index..] else []
  }

  lemma CutJoin<T>(a: seq<T>, b: seq<T>, index: nat)
    ensures var here := if index < |a| then index else |a|;
            CutFrom(a + b, index) == a[here..] + CutFrom(b, index - here)
  {
  }

  /** Skipping in every file is skipping in the files taken together. */
  lemma {:induction false} SkippedFlatten(runs: Runs, index: nat)
    ensures Flatten(Skipped(runs, index)) == CutFrom(Flatten(runs), index)
  {
    hide Flatten, CutFrom;
    if runs == [] {
      FlattenNone(index);
    } else {
      var here := if index < |runs[0]| then index else |runs[0]|;
      SkippedFlatten(runs[1..], index - here);
      FlattenCons(runs[0][here..], Skipped(runs[1..], index - here));
      FlattenCons(runs[0], runs[1..]);
      assert [runs[0]] + runs[1..] == runs;
      CutJoin(runs[0], Flatten(runs[1..]), index);
    }
  }

  lemma FlattenNone(index: nat)
    ensures Flatten<Entry>([]) == [] && CutFrom<Entry>([], index) == []
  {
  }

  /** What seeking by position delivers: the entries from that position on, stably sorted; so it begins with the entry
      at the
      position exactly when no later entry has a smaller key. */
  lemma SeekIndexDelivers(runs: Runs, index: nat)
    requires AllSorted(runs) && index < |Flatten(runs)|
    ensures var all, got := Flatten(runs), MergeIterated(Skipped(runs, index));
            && Sorted(got) && multiset(got) == multiset(all[index..])
            && (forall k :: OfKey(got, k) == OfKey(all[index..], k))
            && got != []
            && (got[0] == all[index] <==> forall j :: index <= j < |all| ==> AtMost(all[index].key, all[j].key))
  {
    hide MergeIterated, Skipped, Less;
    var all, cut := Flatten(runs), Skipped(runs, index);
    var rest, got := all[index..], MergeIterated(cut);
    SkippedFlatten(runs, index);
    SkippedSorted(runs, index);
    IteratedSorted(cut);
    forall k ensures OfKey(got, k) == OfKey(rest, k) {
      IteratedStable(cut, k);
    }
    SameSizeSame(got, rest);
    assert rest[0] in multiset(rest);
    var at :| 0 <= at < |got| && got[at] == rest[0];
    if got[0] == all[index] {
      forall j | index <= j < |all| ensures AtMost(all[index].key, all[j].key) {
        assert rest[j - index] in multiset(rest);
        var g :| 0 <= g < |got| && got[g] == rest[j - index];
        LessIrreflexive(got[0].key);
      }
    }
    if forall j :: index <= j < |all| ==> AtMost(all[index].key, all[j].key) {
      assert got[0] in multiset(got);
      assert got[0] in multiset(rest);
      var j :| 0 <= j < |rest| && rest[j] == got[0];
      assert AtMost(all[index].key, all[index + j].key);
      LessTotal(got[0].key, rest[0].key);
      HeadOfKey(got);
      HeadOfKey(rest);
    }
  }

  /** Two one-entry files, the first with the larger key: seeking position 0 starts at the second file's entry. */
  lemma SeekIndexExample(v: Bytes, w: Bytes)
    ensures var runs := [[Entry([2], v)], [Entry([1], w)]];
            && AllSorted(runs) && Flatten(runs)[0] == Entry([2], v)
            && MergeIterated(Skipped(runs, 0))[0] == Entry([1], w)
  {
    hide MergeIterated, Skipped;
    var runs: Runs := [[Entry([2], v)], [Entry([1], w)]];
    var all := Flatten(runs);
    assert runs[1..] == [[Entry([1], w)]] && Flatten(runs[1..]) == [Entry([1], w)] + Flatten<Entry>([]);
    assert all == [Entry([2], v), Entry([1], w)];
    SeekIndexDelivers(runs, 0);
    assert all[0..] == all;
    assert MergeIterated(Skipped(runs, 0))[0] in multiset(all);
  }

  lemma HeadOfKey(es: seq<Entry>)
    requires es != []
    ensures OfKey(es, es[0].key) != [] && OfKey(es, es[0].key)[0] == es[0]
  {
  }

  lemma {:induction false} SkippedSorted(runs: Runs, index: nat)
    requires AllSorted(runs)
    ensures AllSorted(Skipped(runs, index)) && |Skipped(runs, index)| == |runs|
  {
    hide Less;
    if runs != [] {
      var here := if index < |runs[0]| then index else |runs[0]|;
      forall i | 0 <= i < |runs[1..]| ensures Sorted(runs[1..][i]) { assert Sorted(runs[i + 1]); }
      SkippedSorted(runs[1..], index - here);
      SuffixSorted(runs[0], here);
    }
  }

  lemma NothingSelected(files: Files, ids: seq<FileId>, acc: seq<Bytes>, p: Bytes -> bool)
    ensures acc == acc + Select(Values(Joined(files, ids[..0])), p)
  {
    assert RunsAt(files, ids[..0]) == [];
  }

  /** What the pruned recursion collects in one file, for any predicate. */
  ghost function PrunedIn(files: Files, cfgs: Configs, id: FileId, p: Bytes -> bool): seq<Bytes> {
    var es := EntriesAt(files, id);
    if es == [] || id !in cfgs || !cfgs[id].Allowed() then [] else
      var levels := Packing.Levels(es, cfgs[id]);
      Pruned(es, cfgs[id], levels, |levels| - 1, 0, p)
  }

  /** ... and in all files, one after the other. */
  ghost function PrunedAll(files: Files, cfgs: Configs, ids: seq<FileId>, p: Bytes -> bool): seq<Bytes> {
    if ids == [] then [] else PrunedAll(files, cfgs, ids[..|ids| - 1], p) + PrunedIn(files, cfgs, ids[|ids| - 1], p)
  }

  lemma NothingPruned(files: Files, cfgs: Configs, ids: seq<FileId>, acc: seq<Bytes>, p: Bytes -> bool)
    ensures acc == acc + PrunedAll(files, cfgs, ids[..0], p)
  {
  }

  lemma PrunedStep(files: Files, cfgs: Configs, ids: seq<FileId>, i: nat, acc: seq<Bytes>, p: Bytes -> bool)
    requires i < |ids|
    ensures acc + PrunedAll(files, cfgs, ids[..i + 1], p) ==
            acc + PrunedAll(files, cfgs, ids[..i], p) + PrunedIn(files, cfgs, ids[i], p)
  {
    hide PrunedIn;
    assert ids[..i + 1][..i] == ids[..i];
  }

  /** The predicate respects the reduction of every file. */
  ghost predicate AllCover(files: Files, cfgs: Configs, p: Bytes -> bool) {
    forall id :: id in files && id in cfgs ==> Covers(cfgs[id], p)
  }

  lemma OneCovers(files: Files, cfgs: Configs, id: FileId, p: Bytes -> bool)
    requires id in files && id in cfgs
    ensures AllCover(files, cfgs, p) ==> Covers(cfgs[id], p)
  {
  }

  lemma SelectJoined(files: Files, ids: seq<FileId>, i: nat, acc: seq<Bytes>, p: Bytes -> bool)
    requires i < |ids|
    ensures acc + Select(Values(Joined(files, ids[..i + 1])), p)
         == acc + Select(Values(Joined(files, ids[..i])), p) + Select(Values(EntriesAt(files, ids[i])), p)
  {
    hide Joined, Select;
    JoinedAt(files, ids, i);
    var a, b := Joined(files, ids[..i]), EntriesAt(files, ids[i]);
    assert Values(a + b) == Values(a) + Values(b);
    SelectConcat(Values(a), Values(b), p);
  }

  // ---- Traversal without callbacks.

  ghost predicate NoCallbacks(files: Files, cfgs: Configs) {
    forall id :: id in files && id in cfgs ==> cfgs[id].reduce.None?
  }

  /** The files that are a single leaf. */
  function SingleLeaves(files: Files, cfgs: Configs, ids: seq<FileId>): seq<FileId> {
    if ids == [] then [] else
      var last := ids[|ids| - 1];
      SingleLeaves(files, cfgs, ids[..|ids| - 1])
      + (if last in cfgs && |EntriesAt(files, last)| <= cfgs[last].maxNodeChildren then [last] else [])
  }

  /** The files whose values a traversal looks at when no file has reduced values. */
  function Visited(files: Files, cfgs: Configs, ids: seq<FileId>, p: Bytes -> bool): seq<FileId> {
    if p([]) then ids else SingleLeaves(files, cfgs, ids)
  }

  lemma VisitedStep(files: Files, cfgs: Configs, ids: seq<FileId>, i: nat, acc: seq<Bytes>, p: Bytes -> bool)
    requires i < |ids| && ids[i] in cfgs
    ensures acc + Select(Values(Joined(files, Visited(files, cfgs, ids[..i + 1], p))), p)
         == acc + Select(Values(Joined(files, Visited(files, cfgs, ids[..i], p))), p)
            + (if p([]) || |EntriesAt(files, ids[i])| <= cfgs[ids[i]].maxNodeChildren
                then Select(Values(EntriesAt(files, ids[i])), p) else [])
  {
    hide Joined, Select, EntriesAt;
    var before, id := Visited(files, cfgs, ids[..i], p), ids[i];
    assert ids[..i + 1] == ids[..i] + [id] && ids[..i + 1][..i] == ids[..i];
    if p([]) || |EntriesAt(files, id)| <= cfgs[id].maxNodeChildren {
      assert Visited(files, cfgs, ids[..i + 1], p) == before + [id];
      JoinedConcat(files, before, [id]);
      JoinedOne(files, id);
      var a, b := Joined(files, before), EntriesAt(files, id);
      assert Values(a + b) == Values(a) + Values(b);
      SelectConcat(Values(a), Values(b), p);
    } else {
      assert Visited(files, cfgs, ids[..i + 1], p) == before + [] == before;
    }
  }

  lemma NothingVisited(files: Files, cfgs: Configs, ids: seq<FileId>, acc: seq<Bytes>, p: Bytes -> bool)
    ensures acc == acc + Select(Values(Joined(files, Visited(files, cfgs, ids[..0], p))), p)
  {
    assert ids[..0] == [];
    assert RunsAt(files, []) == [];
  }

  lemma OneCallback(files: Files, cfgs: Configs, id: FileId)
    requires id in files && id in cfgs
    ensures NoCallbacks(files, cfgs) ==> cfgs[id].reduce.None?
  {
  }
}
