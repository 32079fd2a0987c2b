// The level manager object, and what it rebuilds from a directory listing.
module LevelManagement {
  import opened Bytes
  import opened Entries
  import opened Structures
  import opened FileNames
  import opened Levels

  // ---- Loading.

  /** The levels as the loop over the directory leaves them, before sorting. */
  function LoadedLevels(ids: seq<FileId>): seq<seq<nat>> {
    if ids == [] then [] else
      var front, id := LoadedLevels(ids[..|ids| - 1]), ids[|ids| - 1];
      var grown := Grown(front, id.level);
      grown[id.level := grown[id.level] + [id.index]]
  }

  /** One past the largest index seen. */
  function LoadedNext(ids: seq<FileId>): nat {
    if ids == [] then 0 else
      var next := LoadedNext(ids[..|ids| - 1]);
      if ids[|ids| - 1].index >= next then ids[|ids| - 1].index + 1 else next
  }

  /** The file whose index set `LoadedNext` last. */
  function NewestFile(ids: seq<FileId>): (id: FileId)
    requires ids != []
    ensures id in ids && id.index + 1 == LoadedNext(ids)
  {
    var front := ids[..|ids| - 1];
    if ids[|ids| - 1].index >= LoadedNext(front) then ids[|ids| - 1] else NewestFile(front)
  }

  function InsertNat(xs: seq<nat>, v: nat): seq<nat> {
    if xs == [] || v <= xs[0] then [v] + xs else [xs[0]] + InsertNat(xs[1..], v)
  }

  function SortNats(xs: seq<nat>): seq<nat> {
    if xs == [] then [] else InsertNat(SortNats(xs[1..]), xs[0])
  }

  function SortLevels(levels: seq<seq<nat>>): (r: seq<seq<nat>>)
    ensures |r| == |levels| && forall l :: 0 <= l < |levels| ==> r[l] == SortNats(levels[l])
  {
    seq(|levels|, l requires 0 <= l < |levels| => SortNats(levels[l]))
  }

  /** The state after opening a directory with these files, the newest of which ends at `globalEnd`. */
  function Loaded(ids: seq<FileId>, globalEnd: nat): State {
    if ids == [] then INITIAL else State(SortLevels(LoadedLevels(ids)), LoadedNext(ids), globalEnd)
  }

  ghost predicate Ascending(xs: seq<nat>) {
    forall i, j :: 0 <= i < j < |xs| ==> xs[i] <= xs[j]
  }

  lemma {:induction false} InsertNatCounts(xs: seq<nat>, v: nat)
    ensures multiset(InsertNat(xs, v)) == multiset(xs) + multiset{v}
  {
    if xs != [] {
      assert xs == [xs[0]] + xs[1..];
      InsertNatCounts(xs[1..], v);
    }
  }

  lemma {:induction false} InsertNatSorted(xs: seq<nat>, v: nat, least: nat)
    requires Ascending(xs) && least <= v && forall i :: 0 <= i < |xs| ==> least <= xs[i]
    ensures Ascending(InsertNat(xs, v)) && forall i :: 0 <= i < |InsertNat(xs, v)| ==> least <= InsertNat(xs, v)[i]
  {
    if xs != [] && v > xs[0] {
      InsertNatSorted(xs[1..], v, xs[0]);
    }
  }

  lemma {:induction false} SortNatsSorts(xs: seq<nat>)
    ensures Ascending(SortNats(xs)) && multiset(SortNats(xs)) == multiset(xs)
  {
    if xs != [] {
      SortNatsSorts(xs[1..]);
      InsertNatCounts(SortNats(xs[1..]), xs[0]);
      InsertNatSorted(SortNats(xs[1..]), xs[0], 0);
      assert xs == [xs[0]] + xs[1..];
    }
  }

  /** Ascending lists with the same elements are equal, so any listing order sorts back to the same level. */
  lemma {:induction false} AscendingUnique(xs: seq<nat>, ys: seq<nat>)
    requires Ascending(xs) && Ascending(ys) && multiset(xs) == multiset(ys)
    ensures xs == ys
  {
    assert |xs| == |multiset(xs)| == |multiset(ys)| == |ys|;
    if xs != [] {
      LeastHead(xs, ys);
      LeastHead(ys, xs);
      TailCount(xs);
      TailCount(ys);
      AscendingUnique(xs[1..], ys[1..]);
    }
  }

  lemma LeastHead(xs: seq<nat>, ys: seq<nat>)
    requires Ascending(xs) && xs != [] && ys != [] && multiset(xs) == multiset(ys)
    ensures xs[0] <= ys[0]
  {
    assert ys[0] in multiset(xs);
    var i :| 0 <= i < |xs| && xs[i] == ys[0];
  }

  lemma TailCount(xs: seq<nat>)
    requires xs != []
    ensures multiset(xs[1..]) == multiset(xs) - multiset{xs[0]} && xs == [xs[0]] + xs[1..]
  {
    assert xs == [xs[0]] + xs[1..];
  }

  lemma {:induction false} LoadedCount(ids: seq<FileId>, l: nat, x: nat)
    ensures l < |LoadedLevels(ids)| ==> multiset(LoadedLevels(ids)[l])[x] == multiset(ids)[FileId(l, x)]
    ensures l >= |LoadedLevels(ids)| ==> multiset(ids)[FileId(l, x)] == 0
  {
    if ids != [] {
      var front, id := ids[..|ids| - 1], ids[|ids| - 1];
      LoadedCount(front, l, x);
      assert ids == front + [id];
    }
  }

  lemma {:induction false} LoadedSize(ids: seq<FileId>)
    ensures forall id :: id in ids ==> id.level < |LoadedLevels(ids)|
    ensures |LoadedLevels(ids)| > 0 ==> exists id :: id in ids && id.level + 1 == |LoadedLevels(ids)|
    ensures ids != [] ==> |LoadedLevels(ids)| > 0
  {
    if ids != [] {
      var front, id := ids[..|ids| - 1], ids[|ids| - 1];
      LoadedSize(front);
      assert ids == front + [id];
      if id.level + 1 == |LoadedLevels(ids)| {
        assert id in ids;
      } else {
        var top :| top in front && top.level + 1 == |LoadedLevels(front)|;
        assert top in ids;
      }
    }
  }

  lemma {:induction false} LoadedNextBounds(ids: seq<FileId>)
    ensures forall id :: id in ids ==> id.index < LoadedNext(ids)
    ensures LoadedNext(ids) > 0 ==> exists id :: id in ids && id.index + 1 == LoadedNext(ids)
  {
    if ids != [] {
      var front, id := ids[..|ids| - 1], ids[|ids| - 1];
      LoadedNextBounds(front);
      assert ids == front + [id];
      if id.index >= LoadedNext(front) {
        assert id in ids;
      } else {
        var top :| top in front && top.index + 1 == LoadedNext(front);
        assert top in ids;
      }
    }
  }

  function LevelIds(l: nat, xs: seq<nat>): seq<FileId> {
    if xs == [] then [] else [FileId(l, xs[0])] + LevelIds(l, xs[1..])
  }

  lemma {:induction false} LevelIdsAre(levels: seq<seq<nat>>, l: nat, k: nat)
    requires l < |levels| && k <= |levels[l]|
    ensures LevelIds(l, levels[l][k..]) == Ids(levels, l)[k..]
    decreases |levels[l]| - k
  {
    if k < |levels[l]| {
      LevelIdsAre(levels, l, k + 1);
      assert levels[l][k..][1..] == levels[l][k + 1..];
      assert Ids(levels, l)[k..] == [Ids(levels, l)[k]] + Ids(levels, l)[k + 1..];
    }
  }

  lemma {:induction false} LevelIdsCount(l: nat, xs: seq<nat>, m: nat, x: nat)
    ensures multiset(LevelIds(l, xs))[FileId(m, x)] == if l == m then multiset(xs)[x] else 0
  {
    if xs != [] {
      LevelIdsCount(l, xs[1..], m, x);
      assert xs == [xs[0]] + xs[1..];
    }
  }

  lemma OrderStep(levels: seq<seq<nat>>, d: nat)
    requires d < |levels|
    ensures Order(levels, d) == Order(levels, d + 1) + LevelIds(d, levels[d])
  {
    hide LevelIds;
    LevelIdsAre(levels, d, 0);
    assert levels[d][0..] == levels[d] && Ids(levels, d)[0..] == Ids(levels, d);
  }

  /** How often a file occurs in the order is how often its index occurs in its level. */
  lemma {:induction false} OrderCount(levels: seq<seq<nat>>, d: nat, l: nat, x: nat)
    requires d <= |levels|
    ensures multiset(Order(levels, d))[FileId(l, x)] == if d <= l < |levels| then multiset(levels[l])[x] else 0
    decreases |levels| - d
  {
    if d < |levels| {
      hide Order, LevelIds, Ids;
      OrderCount(levels, d + 1, l, x);
      OrderStep(levels, d);
      LevelIdsCount(d, levels[d], l, x);
    }
  }

  /** Reopening is the identity: the files of a consistent state, listed in any order, load to that state. */
  lemma LoadInverts(s: State, ids: seq<FileId>, globalEnd: nat)
    requires Consistent(s) && multiset(ids) == multiset(Order(s.levels, 0))
    requires globalEnd == s.globalStart || ids == []
    requires ids == [] ==> s.globalStart == 0
    ensures Loaded(ids, globalEnd) == s
    ensures |ids| == |Order(s.levels, 0)|
    ensures ids != [] ==> NewestFile(ids) == Order(s.levels, 0)[|ids| - 1]
  {
    var order := Order(s.levels, 0);
    assert |ids| == |multiset(ids)| == |order|;
    if ids == [] {
      OrderEmptyLevel(s);
    } else {
      SameSize(s, ids);
      forall l | 0 <= l < |s.levels| ensures SortNats(LoadedLevels(ids)[l]) == s.levels[l] {
        LevelRestored(s, ids, l);
      }
      assert SortLevels(LoadedLevels(ids)) == s.levels;
      NewestIsLast(s, ids);
    }
  }

  lemma OrderEmptyLevel(s: State)
    requires Consistent(s) && Order(s.levels, 0) == []
    ensures s == State([[]], 0, s.globalStart)
  {
    assert Order(s.levels, 0) == Order(s.levels, 1) + Ids(s.levels, 0);
    assert s.levels[0] == [];
    assert s.levels == [[]];
  }

  lemma SameSize(s: State, ids: seq<FileId>)
    requires Consistent(s) && multiset(ids) == multiset(Order(s.levels, 0)) && ids != []
    ensures |LoadedLevels(ids)| == |s.levels|
  {
    hide LoadedLevels, Order, Increasing;
    var order, top := Order(s.levels, 0), |s.levels| - 1;
    assert order != [] by { assert ids[0] in multiset(order); }
    LoadedSize(ids);
    var id := FileId(top, s.levels[top][0]);
    OrderMembers(s.levels, 0, id);
    assert id in multiset(order);
    assert id in multiset(ids);
    var last :| last in ids && last.level + 1 == |LoadedLevels(ids)|;
    assert last in multiset(ids);
    assert last in multiset(order);
    OrderMembers(s.levels, 0, last);
  }

  lemma LevelRestored(s: State, ids: seq<FileId>, l: nat)
    requires Consistent(s) && multiset(ids) == multiset(Order(s.levels, 0))
    requires l < |s.levels| && l < |LoadedLevels(ids)|
    ensures SortNats(LoadedLevels(ids)[l]) == s.levels[l]
  {
    forall x: nat ensures multiset(LoadedLevels(ids)[l])[x] == multiset(s.levels[l])[x] {
      LoadedCount(ids, l, x);
      OrderCount(s.levels, 0, l, x);
    }
    assert multiset(LoadedLevels(ids)[l]) == multiset(s.levels[l]);
    SortNatsSorts(LoadedLevels(ids)[l]);
    forall i, j | 0 <= i < j < |s.levels[l]| ensures s.levels[l][i] <= s.levels[l][j] {
      LevelsOrdered(s, l, l, i, j);
    }
    AscendingUnique(SortNats(LoadedLevels(ids)[l]), s.levels[l]);
  }

  lemma NewestIsLast(s: State, ids: seq<FileId>)
    requires Consistent(s) && multiset(ids) == multiset(Order(s.levels, 0)) && ids != []
    ensures |ids| == |Order(s.levels, 0)|
    ensures LoadedNext(ids) == s.nextIndex && NewestFile(ids) == Order(s.levels, 0)[|ids| - 1]
  {
    hide LoadedNext, NewestFile, Order;
    var order := Order(s.levels, 0);
    assert |ids| == |multiset(ids)| == |order|;
    LoadedNextBounds(ids);
    var newest, last := NewestFile(ids), order[|order| - 1];
    assert newest in multiset(ids) && last in multiset(order);
    assert newest in multiset(order) && last in multiset(ids);
    var p :| 0 <= p < |order| && order[p] == newest;
    assert forall q :: 0 <= q < |order| - 1 ==> order[q].index < last.index;
  }

  // ---- The object.

  class LevelManager {
    const maxLevelCount: nat
    var levels: seq<seq<nat>>
    var nextIndex: nat
    var globalStart: nat

    ghost function State(): Levels.State
      reads this
    {
      Levels.State(levels, nextIndex, globalStart)
    }

    constructor (maxLevelCount: nat)
      ensures State() == Levels.State([], 0, 0) && this.maxLevelCount == maxLevelCount
    {
      this.maxLevelCount := maxLevelCount;
      levels, nextIndex, globalStart := [], 0, 0;
    }

    method AddNewLevel()
      modifies this`levels
      ensures levels == old(levels) + [[]]
    {
      levels := levels + [[]];
    }

    method GrowTo(level: nat)
      modifies this`levels
      ensures levels == Grown(old(levels), level)
    {
      ghost var before := levels;
      while level >= |levels|
        invariant before <= levels && (|levels| > |before| ==> |levels| <= level + 1)
        invariant forall i :: |before| <= i < |levels| ==> levels[i] == []
        decreases level + 1 - |levels|
      {
        AddNewLevel();
      }
    }

    /** Rebuilds the state from the file names in the directory; fails where the source throws. */
    method LoadState(names: seq<string>, disk: map<string, Bytes>) returns (ok: bool)
      requires State() == Levels.State([], 0, 0)
      modifies this
      ensures ok ==> AllParse(names)
      ensures ok && names != [] ==>
                var ids := IdsOf(names);
                var newest := NewestName(names);
                newest in disk && |disk[newest]| >= FOOTER_SIZE
                    && State() == Loaded(ids, FooterIn(disk[newest]).globalEnd)
      ensures ok && names == [] ==> State() == INITIAL
      ensures ok <==> AllParse(names) && (names != [] ==> FooterReadable(disk, NewestName(names)))
    {
      var newest;
      ok, newest := ScanNames(names);
      if !ok {
        return;
      }
      LoadedSize(IdsOf(names));
      if levels == [] {
        AddNewLevel();
        return;
      }
      SortAll();
      if newest !in disk || |disk[newest]| < FOOTER_SIZE || !FooterIn(disk[newest]).Validate() {
        return false;
      }
      globalStart := FooterIn(disk[newest]).globalEnd;
    }

    /** The names of all files, level by level. */
    method GetUnmergedFiles() returns (files: seq<string>)
      ensures files == NamesOf(Listed(levels, |levels|))
    {
      hide FileName, NameOf;
      files := [];
      for l := 0 to |levels|
        invariant files == NamesOf(Listed(levels, l))
      {
        ghost var before, ids := Listed(levels, l), Ids(levels, l);
        assert before + ids[..0] == before;
        for i := 0 to |levels[l]|
          invariant files == NamesOf(before + ids[..i])
        {
          assert before + ids[..i + 1] == before + ids[..i] + [ids[i]];
          files := files + [NameOf(FileId(l, levels[l][i]))];
        }
        assert ids[..|ids|] == ids;
      }
    }

    // The loop over the directory entries.
    method ScanNames(names: seq<string>) returns (ok: bool, newest: string)
      requires State() == Levels.State([], 0, 0)
      modifies this
      ensures ok <==> AllParse(names)
      ensures ok ==> State() == Levels.State(LoadedLevels(IdsOf(names)), LoadedNext(IdsOf(names)), 0)
      ensures ok && names != [] ==> newest == NewestName(names)
    {
      hide ParseFileName, AllParse, IdsOf, LoadedLevels, LoadedNext, NewestName, Grown;
      newest := "";
      ScanStart(names);
      for i := 0 to |names|
        invariant AllParse(names[..i])
        invariant State() == Levels.State(LoadedLevels(IdsOf(names[..i])), LoadedNext(IdsOf(names[..i])), 0)
        invariant i > 0 ==> newest == NewestName(names[..i])
      {
        var parsed := ParseFileName(names[i]);
        if parsed.None? {
          NotAllParse(names, i);
          return false, "";
        }
        var (index, level) := parsed.value;
        ScanStep(names, i);
        if index >= nextIndex {
          newest, nextIndex := names[i], index + 1;
        }
        GrowTo(level);
        levels := levels[level := levels[level] + [index]];
      }
      assert names[..|names|] == names;
      ok := true;
    }

    method SortAll()
      modifies this`levels
      ensures levels == SortLevels(old(levels))
    {
      ghost var unsorted := levels;
      for l := 0 to |levels|
        invariant |levels| == |unsorted|
        invariant forall k :: 0 <= k < |levels| ==> levels[k] == if k < l then SortNats(unsorted[k]) else unsorted[k]
      {
        levels := levels[l := SortNats(levels[l])];
      }
      assert levels == SortLevels(unsorted);
    }

    /** Name of the next level-0 file, when it has one. */
    function GetNextLevel0FilePath(): Option<string>
      reads this
    {
      FileName(nextIndex, 0)
    }

    method AdvanceLevel0()
      requires levels != []
      modifies this
      ensures State() == Levels.Advance(old(State()), 0)
    {
      levels := levels[0 := levels[0] + [nextIndex]];
      nextIndex := nextIndex + 1;
    }

    method SetGlobalStart(start: nat)
      modifies this`globalStart
      ensures globalStart == start
    {
      globalStart := start;
    }

    predicate ShouldMergeLevel(level: nat, plusOne: bool)
      reads this
    {
      if level >= |levels| then false else
        var count := |levels[level]|;
        (if plusOne then count + 1 else count) >= maxLevelCount
    }

    /** Sources level by level from 0 up, as long as the next level would overflow. */
    method GetCascadedMergeOperation() returns (op: Option<MergeOperation>)
      requires maxLevelCount > 0
      ensures op == Cascade(levels, maxLevelCount) && DueByCounts(levels, maxLevelCount, op)
    {
      hide CascadeDepth, Listed;
      CascadeCounts(levels, maxLevelCount);
      if !ShouldMergeLevel(0, false) {
        return None;
      }
      var dstIndex := levels[0][|levels[0]| - 1];
      var sources := Ids(levels, 0);
      var level := 1;
      ListedOne(levels);
      while ShouldMergeLevel(level, true)
        invariant 1 <= level <= |levels| && sources == Listed(levels, level)
        invariant CascadeDepth(levels, maxLevelCount, level) == CascadeDepth(levels, maxLevelCount, 1)
        decreases |levels| - level
      {
        CascadeClimbs(levels, maxLevelCount, level);
        sources := sources + Ids(levels, level);
        level := level + 1;
      }
      CascadeClimbs(levels, maxLevelCount, level);
      op := Some(MergeOperation(sources, FileId(level, dstIndex)));
    }

    /** Stops counting at two. */
    method CanMergeAll() returns (can: bool)
      ensures can <==> FileCount(levels) >= 2
    {
      var sum := 0;
      assert levels[0..] == levels;
      for l := 0 to |levels|
        invariant sum < 2 && sum + FileCount(levels[l..]) == FileCount(levels)
      {
        assert levels[l..][1..] == levels[l + 1..];
        sum := sum + |levels[l]|;
        if sum >= 2 {
          return true;
        }
      }
      can := false;
    }

    /** All files, oldest first; the target keeps the newest index, or takes a new one when that file is already on
        top. */
    method GetFullMerge() returns (op: Option<MergeOperation>)
      ensures op == FullMerge(levels)
    {
      var can := CanMergeAll();
      if !can {
        return None;
      }
      var top := |levels| - 1;
      var dst := 0;
      var sources: seq<FileId> := [];
      var l := |levels|;
      while l > 0
        invariant 0 <= l <= |levels| && sources == Order(levels, l)
        invariant dst == TargetFrom(levels, l)
      {
        l := l - 1;
        sources := sources + Ids(levels, l);
        if levels[l] != [] {
          dst := levels[l][|levels[l]| - 1];
          if top == l {
            dst := dst + 1;
          }
        }
      }
      TargetIs(levels);
      op := Some(MergeOperation(sources, FileId(top, dst)));
    }

    /** Takes the sources out, puts the target in. */
    method ApplyMergeOperation(op: MergeOperation)
      modifies this
      ensures State() == Apply(old(State()), op)
    {
      GrowTo(op.dst.level);
      ghost var grown := levels;
      for i := 0 to |op.sources|
        invariant |levels| == |grown| && nextIndex == old(nextIndex) && globalStart == old(globalStart)
        invariant RemovedAll(levels, op.sources[i..]) == RemovedAll(grown, op.sources)
      {
        var id := op.sources[i];
        assert op.sources[i..][1..] == op.sources[i + 1..];
        if id.level < |levels| {
          levels := levels[id.level := Removed(levels[id.level], id.index)];
        }
      }
      assert op.sources[|op.sources|..] == [];
      levels := levels[op.dst.level := levels[op.dst.level] + [op.dst.index]];
      nextIndex := op.dst.index + 1;
    }
  }

  /** A file id that has a name which parses back. */
  predicate Named(id: FileId) {
    FileName(id.index, id.level).Some? && id.index < U64_LIMIT
  }

  lemma ListedOne(levels: seq<seq<nat>>)
    requires levels != []
    ensures Listed(levels, 1) == Ids(levels, 0)
  {
    assert Listed(levels, 1) == Listed(levels, 0) + Ids(levels, 0);
  }

  lemma CascadeClimbs(levels: seq<seq<nat>>, maxCount: nat, l: nat)
    requires l <= |levels|
    ensures ShouldMerge(levels, maxCount, l, true) ==>
              && l < |levels| && CascadeDepth(levels, maxCount, l) == CascadeDepth(levels, maxCount, l + 1)
              && Listed(levels, l + 1) == Listed(levels, l) + Ids(levels, l)
    ensures !ShouldMerge(levels, maxCount, l, true) ==> CascadeDepth(levels, maxCount, l) == l
  {
  }

  function NameOf(id: FileId): string {
    var name := FileName(id.index, id.level);
    if name.None? then "" else name.value
  }

  function NamesOf(ids: seq<FileId>): (names: seq<string>)
    ensures |names| == |ids| && forall i :: 0 <= i < |ids| ==> names[i] == NameOf(ids[i])
  {
    seq(|ids|, i requires 0 <= i < |ids| => NameOf(ids[i]))
  }

  ghost predicate AllParse(names: seq<string>) {
    forall i :: 0 <= i < |names| ==> ParseFileName(names[i]).Some?
  }

  function ParsedId(name: string): FileId {
    var parsed := ParseFileName(name);
    if parsed.None? then FileId(0, 0) else FileId(parsed.value.1, parsed.value.0)
  }

  function IdsOf(names: seq<string>): (ids: seq<FileId>)
    ensures |ids| == |names| && forall i :: 0 <= i < |names| ==> ids[i] == ParsedId(names[i])
  {
    seq(|names|, i requires 0 <= i < |names| => ParsedId(names[i]))
  }

  lemma IdsPush(names: seq<string>, i: nat)
    requires i < |names|
    ensures IdsOf(names[..i + 1]) == IdsOf(names[..i]) + [ParsedId(names[i])]
    ensures names[..i + 1][..i] == names[..i] && names[..i + 1][i] == names[i]
  {
  }

  lemma ScanStart(names: seq<string>)
    ensures AllParse(names[..0]) && LoadedLevels(IdsOf(names[..0])) == [] && LoadedNext(IdsOf(names[..0])) == 0
  {
    assert IdsOf(names[..0]) == [];
  }

  lemma NotAllParse(names: seq<string>, i: nat)
    requires i < |names| && ParseFileName(names[i]).None?
    ensures !AllParse(names)
  {
  }

  /** One directory entry more. */
  lemma ScanStep(names: seq<string>, i: nat)
    requires i < |names| && AllParse(names[..i]) && ParseFileName(names[i]).Some?
    ensures AllParse(names[..i + 1])
    ensures var (index, level) := ParseFileName(names[i]).value;
            var before, after := IdsOf(names[..i]), IdsOf(names[..i + 1]);
            var grown := Grown(LoadedLevels(before), level);
            && LoadedLevels(after) == grown[level := grown[level] + [index]]
            && LoadedNext(after) == (if index >= LoadedNext(before) then index + 1 else LoadedNext(before))
            && NewestName(names[..i + 1]) == (if index >= LoadedNext(before) then names[i] else NewestName(names[..i]))
  {
    hide ParseFileName;
    IdsPush(names, i);
    var before, after := IdsOf(names[..i]), IdsOf(names[..i + 1]);
    assert after[..i] == before;
    assert ParsedId(names[i]) == FileId(ParseFileName(names[i]).value.1, ParseFileName(names[i]).value.0);
  }

  /** The last name that raised the next index. */
  ghost function NewestName(names: seq<string>): (n: string)
    requires names != []
    ensures n in names && ParsedId(n) == NewestFile(IdsOf(names))
  {
    var front := names[..|names| - 1];
    assert IdsOf(names)[..|names| - 1] == IdsOf(front);
    if ParsedId(names[|names| - 1]).index >= LoadedNext(IdsOf(front)) then names[|names| - 1] else NewestName(front)
  }

  /** Whatever files a directory lists, the loaded levels hold exactly those. */
  lemma LoadedMembers(ids: seq<FileId>)
    ensures var levels := SortLevels(LoadedLevels(ids)); forall id :: id in Listed(levels, |levels|) <==> id in ids
  {
    hide LoadedLevels, SortNats, Listed;
    var levels := SortLevels(LoadedLevels(ids));
    LoadedSize(ids);
    forall id ensures id in Listed(levels, |levels|) <==> id in ids {
      LowerMembers(levels, |levels|, id);
      if id.level < |levels| {
        LoadedCount(ids, id.level, id.index);
        SortNatsSorts(LoadedLevels(ids)[id.level]);
        assert id.index in levels[id.level] <==> id.index in multiset(levels[id.level]);
        assert FileId(id.level, id.index) == id;
        assert id in ids <==> id in multiset(ids);
      }
    }
  }

  function FooterIn(image: Bytes): Footer
    requires |image| >= FOOTER_SIZE
  {
    ReadFooter(image, |image| - FOOTER_SIZE)
  }

  ghost predicate FooterReadable(disk: map<string, Bytes>, name: string) {
    name in disk && |disk[name]| >= FOOTER_SIZE && FooterIn(disk[name]).Validate()
  }

  /** The running target index of a full merge, from the top level down to level `l`. */
  function TargetFrom(levels: seq<seq<nat>>, l: nat): nat
    decreases |levels| - l
  {
    if l >= |levels| then 0
    else if levels[l] == [] then TargetFrom(levels, l + 1)
    else levels[l][|levels[l]| - 1] + (if l == |levels| - 1 then 1 else 0)
  }

  lemma {:induction false} TargetIs(levels: seq<seq<nat>>)
    requires FileCount(levels) >= 2
    ensures levels != [] && FullMerge(levels).Some?
    ensures FullMerge(levels) == Some(MergeOperation(Order(levels, 0), FileId(|levels| - 1, TargetFrom(levels, 0))))
  {
    FileCountIs(levels, 0);
    assert levels[0..] == levels;
    LowestUsedIs(levels, 0);
    TargetLowest(levels, 0);
  }

  lemma {:induction false} TargetLowest(levels: seq<seq<nat>>, l: nat)
    requires l < |levels| && Order(levels, l) != []
    ensures var low := LowestUsed(levels, l);
            levels[low] != [] && TargetFrom(levels, l) ==
                levels[low][|levels[low]| - 1] + (if low == |levels| - 1 then 1 else 0)
    decreases |levels| - l
  {
    LowestUsedIs(levels, l);
    if levels[l] == [] && l + 1 < |levels| {
      assert Ids(levels, l) == [];
      TargetLowest(levels, l + 1);
    }
  }
}
