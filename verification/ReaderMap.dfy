// The map from file names to open readers, kept sorted by name, and what it has to do with the file list.
// Flush and merge targets sort behind all other names, so the map keeps the files in the order in which they were
// written.
module ReaderMaps {
  import opened Bytes
  import opened Entries
  import opened Packing
  import opened Reading
  import opened FileNames
  import opened Levels
  import opened LevelManagement
  import opened Database

  type ReaderMap = seq<(string, Reader)>

  /** Assignment to a key of the map: replaces the reader, or inserts it where the name belongs. */
  function Put(m: ReaderMap, name: string, r: Reader): ReaderMap {
    if m == [] || NameLess(name, m[0].0) then [(name, r)] + m
    else if m[0].0 == name then [(name, r)] + m[1..]
    else [m[0]] + Put(m[1..], name, r)
  }

  function Erase(m: ReaderMap, name: string): ReaderMap {
    if m == [] then [] else (if m[0].0 == name then [] else [m[0]]) + Erase(m[1..], name)
  }

  function Find(m: ReaderMap, name: string): Option<Reader> {
    if m == [] then None else if m[0].0 == name then Some(m[0].1) else Find(m[1..], name)
  }

  function EraseAll(m: ReaderMap, names: seq<string>): ReaderMap {
    if names == [] then m else Erase(EraseAll(m, names[..|names| - 1]), names[|names| - 1])
  }

  type Configs = map<FileId, WriterConfig>

  ghost predicate ReaderMatches(p: (string, Reader), files: Files, cfgs: Configs, id: FileId) {
    && id in files && id in cfgs && Named(id) && p.0 == NameOf(id)
    && p.1.Holds(files[id].entries, cfgs[id], files[id].start)
  }

  /** The map lists exactly these files, in this order, each reader open on its file. */
  ghost predicate MapMatches(m: ReaderMap, files: Files, cfgs: Configs, ids: seq<FileId>) {
    |m| == |ids| && forall i :: 0 <= i < |m| ==> ReaderMatches(m[i], files, cfgs, ids[i])
  }

  /** The directory holds exactly the images of the open readers, under their names. */
  ghost predicate DiskMatches(disk: map<string, Bytes>, m: ReaderMap) {
    && (forall i :: 0 <= i < |m| ==> m[i].0 in disk && disk[m[i].0] == m[i].1.storage)
    && (forall name :: name in disk ==> exists i :: 0 <= i < |m| && m[i].0 == name)
  }

  lemma NamesInjective(a: FileId, b: FileId)
    requires Named(a) && Named(b)
    ensures NameOf(a) == NameOf(b) <==> a == b
    ensures NameLess(NameOf(a), NameOf(b)) <==> a.index < b.index || (a.index == b.index && a.level < b.level)
  {
    hide FileName, NameLess;
    NameOrder(a.index, a.level, b.index, b.level);
  }

  /** `id` sorts behind every listed file. */
  ghost predicate SortsLast(ids: seq<FileId>, id: FileId) {
    forall i :: 0 <= i < |ids| ==> ids[i].index < id.index || (ids[i].index == id.index && ids[i].level < id.level)
  }

  lemma {:induction false} PutLast(m: ReaderMap, files: Files, cfgs: Configs, ids: seq<FileId>, id: FileId, r: Reader)
    requires MapMatches(m, files, cfgs, ids) && SortsLast(ids, id) && Named(id)
    ensures Put(m, NameOf(id), r) == m + [(NameOf(id), r)]
  {
    hide NameLess, NameOf, Named, Reader.Holds;
    if m != [] {
      assert ReaderMatches(m[0], files, cfgs, ids[0]);
      NamesInjective(ids[0], id);
      NamesInjective(id, ids[0]);
      forall i | 0 <= i < |m[1..]| ensures ReaderMatches(m[1..][i], files, cfgs, ids[1..][i]) {
        assert ReaderMatches(m[i + 1], files, cfgs, ids[i + 1]);
      }
      PutLast(m[1..], files, cfgs, ids[1..], id, r);
      assert m == [m[0]] + m[1..];
    }
  }

  lemma {:induction false} FindIs(m: ReaderMap, files: Files, cfgs: Configs, ids: seq<FileId>, i: nat)
    requires MapMatches(m, files, cfgs, ids) && i < |ids|
    requires forall a, b :: 0 <= a < b < |ids| ==> ids[a] != ids[b]
    ensures Find(m, NameOf(ids[i])) == Some(m[i].1)
  {
    hide NameOf, Named, Reader.Holds;
    assert ReaderMatches(m[0], files, cfgs, ids[0]) && ReaderMatches(m[i], files, cfgs, ids[i]);
    NamesInjective(ids[0], ids[i]);
    if i > 0 {
      forall k | 0 <= k < |m[1..]| ensures ReaderMatches(m[1..][k], files, cfgs, ids[1..][k]) {
        assert ReaderMatches(m[k + 1], files, cfgs, ids[k + 1]);
      }
      FindIs(m[1..], files, cfgs, ids[1..], i - 1);
    }
  }

  lemma {:induction false} EraseConcat(a: ReaderMap, b: ReaderMap, name: string)
    ensures Erase(a + b, name) == Erase(a, name) + Erase(b, name)
  {
    if a == [] {
      assert a + b == b;
    } else {
      assert (a + b)[1..] == a[1..] + b;
      EraseConcat(a[1..], b, name);
    }
  }

  lemma {:induction false} EraseAllConcat(a: ReaderMap, b: ReaderMap, names: seq<string>)
    ensures EraseAll(a + b, names) == EraseAll(a, names) + EraseAll(b, names)
  {
    if names != [] {
      EraseAllConcat(a, b, names[..|names| - 1]);
      EraseConcat(EraseAll(a, names[..|names| - 1]), EraseAll(b, names[..|names| - 1]), names[|names| - 1]);
    }
  }

  lemma {:induction false} EraseNone(m: ReaderMap, name: string)
    requires forall i :: 0 <= i < |m| ==> m[i].0 != name
    ensures Erase(m, name) == m
  {
    if m != [] {
      EraseNone(m[1..], name);
    }
  }

  lemma {:induction false} EraseAllNone(m: ReaderMap, names: seq<string>)
    requires forall i :: 0 <= i < |m| ==> m[i].0 !in names
    ensures EraseAll(m, names) == m
  {
    if names != [] {
      EraseAllNone(m, names[..|names| - 1]);
      assert names[|names| - 1] in names;
      EraseNone(m, names[|names| - 1]);
    }
  }

  lemma {:induction false} EraseMembers(m: ReaderMap, name: string)
    ensures forall p :: p in Erase(m, name) <==> p in m && p.0 != name
  {
    if m != [] {
      EraseMembers(m[1..], name);
      assert m == [m[0]] + m[1..];
    }
  }

  lemma {:induction false} EraseAllMembers(m: ReaderMap, names: seq<string>)
    ensures forall p :: p in EraseAll(m, names) <==> p in m && p.0 !in names
  {
    if names != [] {
      var front, last := names[..|names| - 1], names[|names| - 1];
      EraseAllMembers(m, front);
      EraseMembers(EraseAll(m, front), last);
      assert names == front + [last];
    }
  }

  lemma EraseAllEvery(m: ReaderMap, names: seq<string>)
    requires forall i :: 0 <= i < |m| ==> m[i].0 in names
    ensures EraseAll(m, names) == []
  {
    EraseAllMembers(m, names);
    assert EraseAll(m, names) == [] || EraseAll(m, names)[0] in EraseAll(m, names);
  }

  /** Inserting the target of a merge and erasing its sources leaves the kept files followed by the target. */
  lemma MergeReaders(m: ReaderMap, files: Files, cfgs: Configs, keep: seq<FileId>, tail: seq<FileId>,
                                        sources: seq<FileId>, dst: FileId, r: Reader)
    requires MapMatches(m, files, cfgs, keep + tail) && multiset(sources) == multiset(tail)
    requires SortsLast(keep + tail, dst) && Named(dst) && (forall id :: id in keep ==> id !in tail)
    ensures EraseAll(Put(m, NameOf(dst), r), NamesOf(sources)) == m[..|keep|] + [(NameOf(dst), r)]
  {
    hide NameOf, Named, Reader.Holds, Put, EraseAll, NameLess;
    var names, target := NamesOf(sources), [(NameOf(dst), r)];
    var head, rest := m[..|keep|], m[|keep|..];
    PutLast(m, files, cfgs, keep + tail, dst, r);
    assert m + target == head + (rest + target);
    EraseAllConcat(head, rest + target, names);
    EraseAllConcat(rest, target, names);
    forall i | 0 <= i < |rest| ensures rest[i].0 in names {
      assert ReaderMatches(m[|keep| + i], files, cfgs, (keep + tail)[|keep| + i]);
      assert tail[i] in multiset(sources);
      var k :| 0 <= k < |sources| && sources[k] == tail[i];
      assert names[k] == NameOf(tail[i]);
    }
    EraseAllEvery(rest, names);
    forall i | 0 <= i < |head| ensures head[i].0 !in names {
      KeepUnnamed(m, files, cfgs, keep, tail, sources, i);
    }
    EraseAllNone(head, names);
    forall id | id in sources ensures id in keep + tail {
      assert id in multiset(tail);
    }
    TargetUnnamed(m, files, cfgs, keep + tail, sources, dst);
    EraseAllNone(target, names);
    assert head + ([] + target) == head + target;
  }

  lemma SourceNamed(m: ReaderMap, files: Files, cfgs: Configs, all: seq<FileId>, sources: seq<FileId>, k: nat)
    requires MapMatches(m, files, cfgs, all) && k < |sources| && sources[k] in all
    ensures Named(sources[k])
  {
    hide NameOf, Named, Reader.Holds;
    var j :| 0 <= j < |all| && all[j] == sources[k];
    assert ReaderMatches(m[j], files, cfgs, all[j]);
  }

  lemma KeepUnnamed(m: ReaderMap, files: Files, cfgs: Configs, keep: seq<FileId>, tail: seq<FileId>,
                                       sources: seq<FileId>, i: nat)
    requires MapMatches(m, files, cfgs, keep + tail) && multiset(sources) == multiset(tail) && i < |keep|
    requires forall id :: id in keep ==> id !in tail
    ensures m[i].0 !in NamesOf(sources)
  {
    hide NameOf, Named, Reader.Holds;
    assert ReaderMatches(m[i], files, cfgs, (keep + tail)[i]);
    forall k | 0 <= k < |sources| ensures NamesOf(sources)[k] != m[i].0 {
      assert sources[k] in multiset(tail);
      assert sources[k] in keep + tail;
      SourceNamed(m, files, cfgs, keep + tail, sources, k);
      assert keep[i] in keep;
      NamesInjective(keep[i], sources[k]);
    }
  }

  lemma TargetUnnamed(m: ReaderMap, files: Files, cfgs: Configs, all: seq<FileId>, sources: seq<FileId>, dst: FileId)
    requires MapMatches(m, files, cfgs, all) && SortsLast(all, dst) && Named(dst)
    requires forall id :: id in sources ==> id in all
    ensures NameOf(dst) !in NamesOf(sources)
  {
    hide NameOf, Named, Reader.Holds;
    forall k | 0 <= k < |sources| ensures NamesOf(sources)[k] != NameOf(dst) {
      assert sources[k] in all;
      SourceNamed(m, files, cfgs, all, sources, k);
      NamesInjective(sources[k], dst);
    }
  }

  // ---- The targets of flushes and merges sort last.

  lemma FlushSortsLast(s: State)
    requires Consistent(s)
    ensures SortsLast(Order(s.levels, 0), FileId(0, s.nextIndex))
  {
    var order := Order(s.levels, 0);
    forall i | 0 <= i < |order| ensures order[i].index < s.nextIndex {
      assert i == |order| - 1 || order[i].index < order[|order| - 1].index;
    }
  }

  lemma CascadeSortsLast(s: State, maxCount: nat)
    requires Consistent(s) && maxCount > 0 && Cascade(s.levels, maxCount).Some?
    ensures SortsLast(Order(s.levels, 0), Cascade(s.levels, maxCount).value.dst)
  {
    hide Cascade, Lower, Listed;
    var op, order := Cascade(s.levels, maxCount).value, Order(s.levels, 0);
    CascadeFacts(s, maxCount);
    var d, tail := op.dst.level, Lower(s.levels, op.dst.level);
    forall i | 0 <= i < |order| ensures order[i].index < op.dst.index
        || (order[i].index == op.dst.index && order[i].level < op.dst.level) {
      assert i == |order| - 1 || order[i].index < order[|order| - 1].index;
      var last := tail[|tail| - 1];
      assert last == order[|order| - 1];
      LowerMembers(s.levels, d, last);
      assert last in tail;
    }
  }

  lemma FullMergeSortsLast(s: State)
    requires Consistent(s) && FullMerge(s.levels).Some?
    ensures SortsLast(Order(s.levels, 0), FullMerge(s.levels).value.dst)
  {
    hide FullMerge;
    var op, order := FullMerge(s.levels).value, Order(s.levels, 0);
    FullMergeFacts(s);
    var last := order[|order| - 1];
    OrderMembers(s.levels, 0, last);
    forall i | 0 <= i < |order| ensures order[i].index < op.dst.index
        || (order[i].index == op.dst.index && order[i].level < op.dst.level) {
      assert i == |order| - 1 || order[i].index < last.index;
      assert last in order;
      assert last.level < |s.levels|;
      assert op.dst.index == last.index ==> op.dst != last;
    }
  }

  // ---- Filling the map in any order.

  ghost predicate SortedMap(m: ReaderMap) {
    forall i, j :: 0 <= i < j < |m| ==> NameLess(m[i].0, m[j].0)
  }

  lemma NameLessTransitive(a: string, b: string, c: string)
    requires NameLess(a, b) && NameLess(b, c)
    ensures NameLess(a, c)
  {
    LessTransitive(Codes(a), Codes(b), Codes(c));
  }

  lemma NameLessTotal(a: string, b: string)
    ensures NameLess(a, b) || NameLess(b, a) || a == b
    ensures !NameLess(a, a) && !(NameLess(a, b) && NameLess(b, a))
  {
    LessTotal(Codes(a), Codes(b));
    LessIrreflexive(Codes(a));
    CodesSame(a, b);
  }

  lemma {:induction false} PutMembers(m: ReaderMap, name: string, r: Reader)
    requires SortedMap(m)
    ensures forall p :: p in Put(m, name, r) <==> (p in m && p.0 != name) || p == (name, r)
    ensures SortedMap(Put(m, name, r))
  {
    hide NameLess;
    if m != [] {
      assert m == [m[0]] + m[1..];
      NameLessTotal(name, m[0].0);
      TailAbove(m);
      if NameLess(name, m[0].0) {
        PutFront(m, name, r);
      } else if m[0].0 == name {
      } else {
        PutMembers(m[1..], name, r);
        PutBehind(m, name, r, Put(m[1..], name, r));
      }
    }
  }

  lemma TailAbove(m: ReaderMap)
    requires SortedMap(m) && m != []
    ensures SortedMap(m[1..]) && forall p :: p in m[1..] ==> NameLess(m[0].0, p.0) && p.0 != m[0].0
  {
    hide NameLess;
    NameLessTotal(m[0].0, m[0].0);
    forall p | p in m[1..] ensures NameLess(m[0].0, p.0) {
      var j :| 0 <= j < |m[1..]| && m[1..][j] == p;
      assert m[j + 1] == p;
    }
    forall i, j | 0 <= i < j < |m[1..]| ensures NameLess(m[1..][i].0, m[1..][j].0) {
      assert m[1..][i] == m[i + 1] && m[1..][j] == m[j + 1];
    }
  }

  lemma PutBehind(m: ReaderMap, name: string, r: Reader, rest: ReaderMap)
    requires SortedMap(m) && m != [] && SortedMap(rest) && NameLess(m[0].0, name)
    requires forall p :: p in rest <==> (p in m[1..] && p.0 != name) || p == (name, r)
    ensures SortedMap([m[0]] + rest)
  {
    hide NameLess;
    TailAbove(m);
    forall i | 0 <= i < |rest| ensures NameLess(m[0].0, rest[i].0) {
      assert rest[i] in rest;
    }
    SortedMapCons(m[0], rest);
  }

  lemma SortedMapCons(p: (string, Reader), m: ReaderMap)
    requires SortedMap(m) && forall i :: 0 <= i < |m| ==> NameLess(p.0, m[i].0)
    ensures SortedMap([p] + m)
  {
  }

  lemma PutFront(m: ReaderMap, name: string, r: Reader)
    requires SortedMap(m) && m != [] && NameLess(name, m[0].0)
    ensures SortedMap([(name, r)] + m)
    ensures forall p :: p in m ==> p.0 != name
  {
    hide NameLess;
    forall i | 0 <= i < |m| ensures NameLess(name, m[i].0) {
      if i > 0 { NameLessTransitive(name, m[0].0, m[i].0); }
    }
    NameLessTotal(name, name);
    SortedMapCons((name, r), m);
  }

  /** A strictly sorted map is determined by its elements. */
  lemma {:induction false} SortedMapUnique(a: ReaderMap, b: ReaderMap)
    requires SortedMap(a) && SortedMap(b) && forall p :: p in a <==> p in b
    ensures a == b
  {
    hide NameLess;
    SomeMember(b);
    if a != [] {
      assert a[0] in b;
      SortedHeads(a, b);
      SortedHeads(b, a);
      NameLessTotal(a[0].0, b[0].0);
      TailMembers(a);
      TailMembers(b);
      HeadsSame(a, b);
      SortedMapUnique(a[1..], b[1..]);
      assert a == [a[0]] + a[1..] && b == [b[0]] + b[1..];
    }
  }

  lemma SomeMember(m: ReaderMap)
    ensures m == [] || exists p :: p in m
  {
    if m != [] {
      assert m[0] in m;
    }
  }

  lemma SortedHeads(a: ReaderMap, b: ReaderMap)
    requires SortedMap(a) && a != [] && forall p :: p in a <==> p in b
    ensures b != [] && (b[0].0 == a[0].0 || NameLess(a[0].0, b[0].0))
  {
    assert a[0] in b;
    assert b[0] in a;
    var i :| 0 <= i < |a| && a[i] == b[0];
  }

  lemma HeadsSame(a: ReaderMap, b: ReaderMap)
    requires SortedMap(b) && a != [] && b != [] && a[0] in b && a[0].0 == b[0].0
    ensures a[0] == b[0]
  {
    var i :| 0 <= i < |b| && b[i] == a[0];
    forall k | 0 < k < |b| ensures b[k].0 != b[0].0 {
      NameLessTotal(b[0].0, b[k].0);
    }
  }

  lemma TailMembers(m: ReaderMap)
    requires SortedMap(m) && m != []
    ensures forall p :: p in m[1..] <==> p in m && p != m[0]
    ensures SortedMap(m[1..])
  {
    NameLessTotal(m[0].0, m[0].0);
    assert m == [m[0]] + m[1..];
    forall i | 0 <= i < |m[1..]| ensures m[1..][i] != m[0] {
      assert NameLess(m[0].0, m[i + 1].0);
    }
  }

  /** A map that lists files in index order is sorted by name: names sort as indices do. */
  lemma MatchingMapSorted(m: ReaderMap, files: Files, cfgs: Configs, ids: seq<FileId>)
    requires MapMatches(m, files, cfgs, ids) && Increasing(ids)
    ensures SortedMap(m)
  {
    hide NameLess, NameOf, Named, Reader.Holds;
    forall i, j | 0 <= i < j < |m| ensures NameLess(m[i].0, m[j].0) {
      assert ReaderMatches(m[i], files, cfgs, ids[i]) && ReaderMatches(m[j], files, cfgs, ids[j]);
      assert ids[i].index < ids[j].index;
      NamesInjective(ids[i], ids[j]);
    }
  }
}
